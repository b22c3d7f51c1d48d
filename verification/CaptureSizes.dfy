/**
 Graph capture sizes: how many batch sizes the stream budget allows, and the sample that replaces a longer list.
 Divisions are exact; the source computes them in floating point.
 */
module CaptureSizes {
  import opened Collections
  import opened Sorting

  // ---- rounding ----

  /** The nearest integer to a / b, and the even one of two: Python's round. */
  function Round(a: nat, b: nat): nat
    requires b > 0
  {
    var q, r := a / b, a % b;
    if 2 * r < b || (2 * r == b && q % 2 == 0) then q else q + 1
  }

  /** Within one half of the quotient. */
  lemma RoundIsNear(a: nat, b: nat)
    requires b > 0
    ensures 2 * a - b <= 2 * (Round(a, b) * b) <= 2 * a + b
  {
    QuotientBounds(a, b);
    var q := a / b;
    assert (q + 1) * b == q * b + b;
  }

  /** Half way between two integers, the even one. */
  lemma RoundTies(a: nat, b: nat, r: nat)
    requires b > 0 && r == Round(a, b)
    ensures 2 * (r * b - a) == b || 2 * (a - r * b) == b ==> r % 2 == 0
  {
    QuotientBounds(a, b);
    var q := a / b;
    assert (q + 1) * b == q * b + b;
  }

  /** Rounding keeps apart what is more than one apart; at exactly one, 3/2 and 5/2 both become 2. */
  lemma RoundIncreases(a: nat, c: nat, b: nat)
    requires b > 0 && a + b < c
    ensures Round(a, b) < Round(c, b)
  {
    var x, y := Round(a, b), Round(c, b);
    RoundIsNear(a, b);
    RoundIsNear(c, b);
    MulMono(y, x, b);
  }

  lemma RoundOfMultiple(k: nat, b: nat)
    requires b > 0
    ensures Round(k * b, b) == k
  {
    QuotientIs(k * b, b, k);
  }

  // ---- the sample ----

  /** Index i of a sample of m out of n. */
  function IndexAt(n: nat, m: nat, i: nat): nat
    requires 2 <= m < n
  {
    Round(i * (n - 1), m - 1)
  }

  lemma {:induction false} IndexIncreases(n: nat, m: nat, i: nat, j: nat)
    requires 2 <= m < n && i < j
    ensures IndexAt(n, m, i) < IndexAt(n, m, j)
    decreases j
  {
    assert j * (n - 1) == (j - 1) * (n - 1) + (n - 1);
    RoundIncreases((j - 1) * (n - 1), j * (n - 1), m - 1);
    if i < j - 1 {
      IndexIncreases(n, m, i, j - 1);
    }
  }

  lemma IndexEnds(n: nat, m: nat)
    requires 2 <= m < n
    ensures IndexAt(n, m, 0) == 0 && IndexAt(n, m, m - 1) == n - 1
  {
    RoundOfMultiple(0, m - 1);
    RoundOfMultiple(n - 1, m - 1);
    assert (m - 1) * (n - 1) == (n - 1) * (m - 1);
  }

  lemma IndexInRange(n: nat, m: nat, i: nat)
    requires 2 <= m < n && i < m
    ensures IndexAt(n, m, i) < n
  {
    IndexEnds(n, m);
    if i < m - 1 {
      IndexIncreases(n, m, i, m - 1);
    }
  }

  /** The index is the exact position i * (n - 1) / (m - 1), rounded to the nearest integer, half way to an even one. */
  lemma IndexIsNear(n: nat, m: nat, i: nat, at: nat, exact: nat, gaps: nat)
    requires 2 <= m < n && at == IndexAt(n, m, i) && exact == i * (n - 1) && gaps == m - 1
    ensures 2 * exact - gaps <= 2 * (at * gaps) <= 2 * exact + gaps
    ensures 2 * (at * gaps - exact) == gaps || 2 * (exact - at * gaps) == gaps ==> at % 2 == 0
  {
    RoundIsNear(exact, gaps);
    RoundTies(exact, gaps, at);
  }

  function Sampled(sizes: seq<int>, m: nat, k: nat): (r: seq<int>)
    requires 2 <= m < |sizes| && k <= m
    ensures |r| == k
  {
    if k == 0 then []
    else
      IndexInRange(|sizes|, m, k - 1);
      Sampled(sizes, m, k - 1) + [sizes[IndexAt(|sizes|, m, k - 1)]]
  }

  lemma {:induction false} SampledAt(sizes: seq<int>, m: nat, k: nat, i: nat)
    requires 2 <= m < |sizes| && i < k <= m
    ensures IndexAt(|sizes|, m, i) < |sizes| && Sampled(sizes, m, k)[i] == sizes[IndexAt(|sizes|, m, i)]
  {
    IndexInRange(|sizes|, m, i);
    if i < k - 1 {
      SampledAt(sizes, m, k - 1, i);
    }
  }

  /** The sample has the asked length, both ends of the list, and its order. */
  lemma SampleKeepsEnds(sizes: seq<int>, m: nat)
    requires 2 <= m < |sizes|
    ensures var r := Sampled(sizes, m, m);
            |r| == m && r[0] == sizes[0] && r[m - 1] == sizes[|sizes| - 1]
    ensures Increasing(sizes) ==> Increasing(Sampled(sizes, m, m))
  {
    var r := Sampled(sizes, m, m);
    IndexEnds(|sizes|, m);
    SampledAt(sizes, m, m, 0);
    SampledAt(sizes, m, m, m - 1);
    if Increasing(sizes) {
      forall i, j | 0 <= i < j < m
        ensures r[i] < r[j]
      {
        SampledAt(sizes, m, m, i);
        SampledAt(sizes, m, m, j);
        IndexIncreases(|sizes|, m, i, j);
      }
    }
  }

  // ---- the budget ----

  /** What the configuration says about the model and its parallelism. */
  datatype Setup = Setup(layers: nat, draftLayers: Option<nat>, dataParallel: int, tensorParallel: int,
                         prefillContextParallel: int, decodeContextParallel: int,
                         expertParallel: bool, multistreamShared: bool, isMoe: bool, aiv: bool)

  const MAX_CAPTURE_SIZE: int := 1800

  function Bit(b: bool): nat {
    if b then 1 else 0
  }

  function ResourcesPerGraph(s: Setup): (r: nat)
    ensures r > 0
  {
    s.layers + 1 + if s.draftLayers.Some? then s.draftLayers.value + 1 else 0
  }

  function CommGroups(s: Setup): nat {
    Bit(s.dataParallel > 1) + Bit(s.tensorParallel > 1)
  }

  function Factor(s: Setup): (f: nat)
    ensures f > 0
  {
    if s.aiv then
      1 + CommGroups(s) + Bit(s.expertParallel) + Bit(s.multistreamShared)
      + if s.isMoe then Bit(s.dataParallel > 1) else 0
    else 1 + CommGroups(s) * 2
  }

  /** The streams that capturing may use. */
  function Budget(s: Setup): int {
    if s.aiv then
      if s.isMoe then MAX_CAPTURE_SIZE else MAX_CAPTURE_SIZE - Factor(s) * ResourcesPerGraph(s)
    else
      MAX_CAPTURE_SIZE - 100 * Bit(s.prefillContextParallel > 1) - 100 * Bit(s.decodeContextParallel > 1)
      - CommGroups(s) * 40
  }

  /** Streams for one captured size. */
  function PerSize(s: Setup): (p: nat)
    ensures p > 0
  {
    assert ResourcesPerGraph(s) * Factor(s) >= 1 by { MulMono(1, ResourcesPerGraph(s), Factor(s)); }
    ResourcesPerGraph(s) * Factor(s)
  }

  /** floor(budget / resources / factor) */
  function MaxSizes(s: Setup): int {
    Budget(s) / PerSize(s)
  }

  /** It is the largest number of sizes within the budget. */
  lemma WithinBudget(s: Setup, k: int)
    ensures k <= MaxSizes(s) <==> k * PerSize(s) <= Budget(s)
  {
    var p := PerSize(s);
    QuotientBounds(Budget(s), p);
    MulMono(k, MaxSizes(s), p);
    MulMono(MaxSizes(s) + 1, k, p);
    assert (MaxSizes(s) + 1) * p == MaxSizes(s) * p + p;
  }

  /** The resources of a graph: a layer each, of the model and of the draft model, and one more for each model. */
  function Layers(s: Setup): int {
    s.layers + (if s.draftLayers.Some? then s.draftLayers.value + 2 else 1)
  }

  /** k sizes fit in 1800 streams. With AIV a size takes one stream for each resource, and one more for data, tensor
      and expert parallelism and for the shared-expert stream, in mixture-of-experts models twice for data parallelism;
      other models hold back one more size. Without AIV it takes one and two more for each of data and tensor
      parallelism; each of these two holds back 40 streams, and each kind of context parallelism 100. */
  ghost predicate StreamsFit(s: Setup, k: int) {
    var dp, tp := (if s.dataParallel > 1 then 1 else 0), if s.tensorParallel > 1 then 1 else 0;
    var ep, shared := (if s.expertParallel then 1 else 0), if s.multistreamShared then 1 else 0;
    var pcp, dcp := (if s.prefillContextParallel > 1 then 1 else 0), if s.decodeContextParallel > 1 then 1 else 0;
    if s.aiv && s.isMoe then k * (Layers(s) * (1 + 2 * dp + tp + ep + shared)) <= 1800
    else if s.aiv then (k + 1) * (Layers(s) * (1 + dp + tp + ep + shared)) <= 1800
    else k * (Layers(s) * (1 + 2 * dp + 2 * tp)) + 40 * dp + 40 * tp + 100 * pcp + 100 * dcp <= 1800
  }

  lemma OneMoreSize(k: int, p: int)
    ensures (k + 1) * p == k * p + p
  {
  }

  /** max_num_batch_sizes is the largest number of sizes that fit. */
  lemma MaxSizesIsLargest(s: Setup, k: int)
    ensures k <= MaxSizes(s) <==> StreamsFit(s, k)
  {
    WithinBudget(s, k);
    OneMoreSize(k, PerSize(s));
    assert ResourcesPerGraph(s) == Layers(s);
  }

  // ---- the update ----

  datatype Error = NoSample | Inconsistent

  /** What the list of sizes becomes. */
  function NewSizes(s: Setup, sizes: seq<int>): Result<seq<int>, Error> {
    var m := MaxSizes(s);
    if m >= |sizes| then Ok(sizes)
    else if m < 2 then Err(NoSample)
    else Ok(Sampled(sizes, m, m))
  }

  /** It fails exactly when the list is over the budget and the budget has no room for both ends. */
  lemma NewSizesFailIff(s: Setup, sizes: seq<int>)
    ensures NewSizes(s, sizes).Err? <==> !StreamsFit(s, |sizes|) && !StreamsFit(s, 2)
  {
    MaxSizesIsLargest(s, |sizes|);
    MaxSizesIsLargest(s, 2);
  }

  /** The new list fits the budget; when it is shortened, one more size would not fit. Its ends and its order are
      those of the old list. */
  lemma NewSizesFit(s: Setup, sizes: seq<int>)
    requires NewSizes(s, sizes).Ok?
    ensures StreamsFit(s, |sizes|) ==> NewSizes(s, sizes).value == sizes
    ensures var r := NewSizes(s, sizes).value;
            && StreamsFit(s, |r|) && (|r| < |sizes| ==> !StreamsFit(s, |r| + 1))
            && (sizes != [] ==> r != [] && r[0] == sizes[0] && r[|r| - 1] == sizes[|sizes| - 1])
            && (Increasing(sizes) ==> Increasing(r))
  {
    var m, r := MaxSizes(s), NewSizes(s, sizes).value;
    MaxSizesIsLargest(s, |sizes|);
    MaxSizesIsLargest(s, |r|);
    MaxSizesIsLargest(s, |r| + 1);
    if m < |sizes| {
      SampleKeepsEnds(sizes, m);
    }
  }

  class CompilationConfig {
    var captureSizes: Option<seq<int>>
    var maxCaptureSize: Option<int>

    constructor (captureSizes: Option<seq<int>>, maxCaptureSize: Option<int>)
      ensures this.captureSizes == captureSizes && this.maxCaptureSize == maxCaptureSize
    {
      this.captureSizes, this.maxCaptureSize := captureSizes, maxCaptureSize;
    }

    /** update_cudagraph_capture_sizes */
    method UpdateCaptureSizes(sizes: seq<int>) returns (status: Result<(), Error>)
      modifies this
      ensures var largest := if sizes == [] then 0 else sizes[|sizes| - 1];
              if old(maxCaptureSize).Some? && old(maxCaptureSize).value != largest && old(captureSizes).Some? then
                status == Err(Inconsistent) && unchanged(this)
              else
                status == Ok(()) && captureSizes == Some(sizes) && maxCaptureSize == Some(largest)
    {
      var largest := if sizes == [] then 0 else sizes[|sizes| - 1];
      if maxCaptureSize.Some? && maxCaptureSize.value != largest {
        if captureSizes.Some? {
          return Err(Inconsistent);
        }
      }
      maxCaptureSize := Some(largest);
      captureSizes := Some(sizes);
      return Ok(());
    }

    /** update_aclgraph_sizes: the sizes are cleared first, and stay so without a model or on an error. */
    method UpdateAclGraphSizes(model: Option<Setup>) returns (status: Result<(), Error>)
      requires captureSizes.Some?
      modifies this
      ensures var sizes := old(captureSizes).value;
              if model.None? then
                status == Ok(()) && captureSizes == None && maxCaptureSize == old(maxCaptureSize)
              else
                match NewSizes(model.value, sizes)
                case Err(e) =>
                  status == Err(e) && captureSizes == None && maxCaptureSize == old(maxCaptureSize)
                case Ok(r) =>
                  && status == Ok(()) && captureSizes == Some(r)
                  && maxCaptureSize == if |r| < |sizes| then Some(sizes[|sizes| - 1]) else old(maxCaptureSize)
    {
      var sizes := captureSizes.value;
      captureSizes := None;
      if model.None? {
        return Ok(());
      }
      var m := MaxSizes(model.value);
      if m >= |sizes| {
        captureSizes := Some(sizes);
        return Ok(());
      }
      if m < 2 {
        return Err(NoSample);
      }
      SampleKeepsEnds(sizes, m);
      var sample := TakeSample(sizes, m);
      status := UpdateCaptureSizes(sample);
    }

    static method TakeSample(sizes: seq<int>, m: nat) returns (sample: seq<int>)
      requires 2 <= m < |sizes|
      ensures sample == Sampled(sizes, m, m)
    {
      var indices: seq<nat> := [];
      for i := 0 to m
        invariant |indices| == i && forall k :: 0 <= k < i ==> indices[k] == IndexAt(|sizes|, m, k)
      {
        indices := indices + [Round(i * (|sizes| - 1), m - 1)];
      }
      IndexEnds(|sizes|, m);
      indices := indices[0 := 0][m - 1 := |sizes| - 1];
      sample := [];
      for i := 0 to m
        invariant sample == Sampled(sizes, m, i)
      {
        IndexInRange(|sizes|, m, i);
        sample := sample + [sizes[indices[i]]];
      }
    }
  }
}
