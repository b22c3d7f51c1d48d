/**
 CPU pools for NPUs. Several worker processes, each seeing some of the NPUs, compute their pools separately
 from the same host facts; this module gives the pools as functions of those facts, and relates two runs.
 */
module CpuPools {
  import opened Collections
  import opened Sorting

  type Cpu = int
  type Npu = int
  type Node = int

  datatype Error = NoNumaNode | InsufficientCpus | InvalidNpu | AffinityConflict | MissingKey
                 | UnknownChip | NothingRuns

  const MIN_CPUS_PER_NPU: nat := 5

  /** What every process on the host sees alike: its cpuset, the NPU topology, the logical NPUs, the NUMA map. */
  datatype Host = Host(allowed: seq<Cpu>, affinity: map<Npu, seq<Cpu>>, logic: seq<Npu>,
                       cpuNode: map<Cpu, Node>, numa: map<Node, seq<Cpu>>)

  type Pools = map<Npu, seq<Cpu>>

  // ---- global slices ----

  /** Where the slice of NPU id starts: the first n % total NPUs get one CPU more. */
  function SliceStart(n: nat, total: nat, id: nat): int
    requires total > 0
  {
    id * (n / total) + if id < n % total then id else n % total
  }

  lemma SliceStep(n: nat, total: nat, id: nat)
    requires total > 0
    ensures SliceStart(n, total, id + 1)
            == SliceStart(n, total, id) + n / total + if id < n % total then 1 else 0
  {
    assert (id + 1) * (n / total) == id * (n / total) + n / total;
  }

  lemma {:induction false} SliceOrder(n: nat, total: nat, i: nat, j: nat)
    requires total > 0 && i <= j
    ensures 0 <= SliceStart(n, total, i) <= SliceStart(n, total, j)
    decreases j - i
  {
    if i < j {
      SliceStep(n, total, i);
      QuotientBounds(n, total);
      AtMostQuotient(n, total, 0);
      SliceOrder(n, total, i + 1, j);
    } else {
      AtMostQuotient(n, total, 0);
      MulMono(0, i, n / total);
    }
  }

  lemma SliceEnds(n: nat, total: nat)
    requires total > 0
    ensures SliceStart(n, total, 0) == 0 && SliceStart(n, total, total) == n
  {
    QuotientBounds(n, total);
  }

  /** The slice of one NPU, out of `total`. */
  function Slice(cpus: seq<Cpu>, total: nat, id: nat): (r: seq<Cpu>)
    requires id < total
    ensures |r| == SliceStart(|cpus|, total, id + 1) - SliceStart(|cpus|, total, id)
  {
    SliceOrder(|cpus|, total, id, id + 1);
    SliceOrder(|cpus|, total, id + 1, total);
    SliceEnds(|cpus|, total);
    cpus[SliceStart(|cpus|, total, id)..SliceStart(|cpus|, total, id + 1)]
  }

  /** The slices of the first k NPUs. */
  function Slices(cpus: seq<Cpu>, total: nat, k: nat): seq<seq<Cpu>>
    requires k <= total
  {
    if k == 0 then [] else Slices(cpus, total, k - 1) + [Slice(cpus, total, k - 1)]
  }

  lemma {:induction false} SlicesConcat(cpus: seq<Cpu>, total: nat, k: nat)
    requires k <= total && total > 0
    ensures 0 <= SliceStart(|cpus|, total, k) <= |cpus|
    ensures Flatten(Slices(cpus, total, k)) == cpus[..SliceStart(|cpus|, total, k)]
  {
    SliceOrder(|cpus|, total, k, total);
    SliceEnds(|cpus|, total);
    if k > 0 {
      SlicesConcat(cpus, total, k - 1);
      SliceOrder(|cpus|, total, k - 1, k);
    }
  }

  /** The slices of all NPUs, one after the other, are the whole list. */
  lemma SlicesPartition(cpus: seq<Cpu>, total: nat)
    requires total > 0
    ensures Flatten(Slices(cpus, total, total)) == cpus
  {
    SlicesConcat(cpus, total, total);
    SliceEnds(|cpus|, total);
  }

  /** Slices differ in size by at most one, the larger ones first. */
  lemma SliceSize(cpus: seq<Cpu>, total: nat, id: nat)
    requires id < total
    ensures |Slice(cpus, total, id)| == |cpus| / total + if id < |cpus| % total then 1 else 0
  {
    var wide := |cpus| / total + if id < |cpus| % total then 1 else 0;
    assert SliceStart(|cpus|, total, id + 1) == SliceStart(|cpus|, total, id) + wide by {
      SliceStep(|cpus|, total, id);
    }
  }

  /** How many slices there are: the logical NPUs, else the topology's, else the visible ones. */
  function TotalNpus(host: Host, running: seq<Npu>): nat {
    if |host.logic| > 0 then |host.logic|
    else if |host.affinity| > 0 then |host.affinity|
    else |running|
  }

  /** The pools of the visible NPUs, in their order; the first invalid id ends it. */
  function SlicePools(cpus: seq<Cpu>, total: nat, running: seq<Npu>): Result<Pools, Error> {
    if running == [] then Ok(map[])
    else
      var front, npu := running[..|running| - 1], running[|running| - 1];
      var before := SlicePools(cpus, total, front);
      if before.Err? then before
      else if npu < 0 || npu >= total then Err(InvalidNpu)
      else Ok(before.value[npu := Slice(cpus, total, npu)])
  }

  /** build_global_slice_cpu_pool */
  function GlobalPools(host: Host, running: seq<Npu>): Result<Pools, Error> {
    var cpus := SortedSet(host.allowed);
    if running == [] || cpus == [] then Ok(map[])
    else
      var total := TotalNpus(host, running);
      if |cpus| / total < MIN_CPUS_PER_NPU then Err(InsufficientCpus)
      else SlicePools(cpus, total, running)
  }

  lemma {:induction false} SlicePoolAt(cpus: seq<Cpu>, total: nat, running: seq<Npu>, npu: Npu)
    requires SlicePools(cpus, total, running).Ok?
    ensures npu in SlicePools(cpus, total, running).value <==> npu in running
    ensures npu in running ==>
              0 <= npu < total && SlicePools(cpus, total, running).value[npu] == Slice(cpus, total, npu)
  {
    if running != [] {
      var front, last := running[..|running| - 1], running[|running| - 1];
      assert running == front + [last];
      SlicePoolAt(cpus, total, front, npu);
    }
  }

  lemma {:induction false} SlicePoolsOkIff(cpus: seq<Cpu>, total: nat, running: seq<Npu>)
    ensures SlicePools(cpus, total, running).Ok?
            <==> forall k :: 0 <= k < |running| ==> 0 <= running[k] < total
  {
    if running != [] {
      SlicePoolsOkIff(cpus, total, running[..|running| - 1]);
    }
  }

  /** A pool of a successful process is the slice of the NPU's own id, of at least five CPUs. */
  lemma GlobalPoolIs(host: Host, running: seq<Npu>, npu: Npu)
    requires GlobalPools(host, running).Ok? && npu in GlobalPools(host, running).value
    ensures npu in running && 0 <= npu < TotalNpus(host, running)
    ensures var cpus, total := SortedSet(host.allowed), TotalNpus(host, running);
            GlobalPools(host, running).value[npu] == Slice(cpus, total, npu)
            && |Slice(cpus, total, npu)| >= 5
  {
    var cpus, total := SortedSet(host.allowed), TotalNpus(host, running);
    SlicePoolAt(cpus, total, running, npu);
    SliceSize(cpus, total, npu);
  }

  lemma SlicesApart(cpus: seq<Cpu>, total: nat, a: nat, b: nat)
    requires Increasing(cpus) && a < b < total
    ensures forall x :: x in Slice(cpus, total, a) ==> x !in Slice(cpus, total, b)
  {
    var n := |cpus|;
    SliceOrder(n, total, a, a + 1);
    SliceOrder(n, total, a + 1, b);
    SliceOrder(n, total, b, b + 1);
    SliceOrder(n, total, b + 1, total);
    SliceEnds(n, total);
    ApartInIncreasing(cpus, SliceStart(n, total, a), SliceStart(n, total, a + 1),
                      SliceStart(n, total, b), SliceStart(n, total, b + 1));
  }

  ghost predicate NoCommon(a: seq<Cpu>, b: seq<Cpu>) {
    forall x :: x in a ==> x !in b
  }

  // ---- the NPUs that a process sees ----

  /** The NPU mapping: the logical id of each chip of each NPU. */
  type NpuMap = map<(nat, nat), Npu>

  /** The logical ids of the chips in the process table; a chip that is not in the mapping ends it. */
  function RunningIds(chips: NpuMap, rows: seq<(nat, nat)>): Result<seq<Npu>, Error> {
    if rows == [] then Ok([])
    else
      var before, row := RunningIds(chips, rows[..|rows| - 1]), rows[|rows| - 1];
      if before.Err? then before
      else if row !in chips then Err(UnknownChip)
      else Ok(before.value + [chips[row]])
  }

  function Filtered(ids: seq<Npu>, visible: seq<Npu>): (r: seq<Npu>)
    ensures forall x :: x in r <==> x in ids && x in visible
  {
    if ids == [] then []
    else
      var front, last := ids[..|ids| - 1], ids[|ids| - 1];
      assert ids == front + [last];
      Filtered(front, visible) + if last in visible then [last] else []
  }

  /** The visible ones among the running ids, in increasing order; there must be one. */
  function RunningNpus(chips: NpuMap, rows: seq<(nat, nat)>, visible: Option<seq<Npu>>): Result<seq<Npu>, Error> {
    var ids := RunningIds(chips, rows);
    if ids.Err? then ids
    else
      var seen := if visible.Some? then Filtered(ids.value, visible.value) else ids.value;
      if seen == [] then Err(NothingRuns) else Ok(SortedSet(seen))
  }

  lemma {:induction false} IdsStopAt(chips: NpuMap, rows: seq<(nat, nat)>, k: nat)
    requires k <= |rows| && RunningIds(chips, rows[..k]).Err?
    ensures RunningIds(chips, rows) == RunningIds(chips, rows[..k])
    decreases |rows|
  {
    if k < |rows| {
      assert rows[..|rows| - 1][..k] == rows[..k];
      IdsStopAt(chips, rows[..|rows| - 1], k);
    } else {
      assert rows[..k] == rows;
    }
  }

  /** get_running_npus */
  method GetRunningNpus(chips: NpuMap, rows: seq<(nat, nat)>, visible: Option<seq<Npu>>)
    returns (r: Result<seq<Npu>, Error>)
    ensures r == RunningNpus(chips, rows, visible)
  {
    var ids, i := [], 0;
    while i < |rows|
      invariant 0 <= i <= |rows| && RunningIds(chips, rows[..i]) == Ok(ids)
    {
      assert rows[..i + 1][..i] == rows[..i];
      if rows[i] !in chips {
        IdsStopAt(chips, rows, i + 1);
        return Err(UnknownChip);
      }
      ids := ids + [chips[rows[i]]];
      i := i + 1;
    }
    assert rows[..i] == rows;
    if visible.Some? {
      ids := Filtered(ids, visible.value);
    }
    return if ids == [] then Err(NothingRuns) else Ok(SortedSet(ids));
  }

  lemma {:induction false} IdsAre(chips: NpuMap, rows: seq<(nat, nat)>)
    ensures RunningIds(chips, rows).Ok? <==> forall row :: row in rows ==> row in chips
    ensures RunningIds(chips, rows).Err? ==> RunningIds(chips, rows) == Err(UnknownChip)
    ensures RunningIds(chips, rows).Ok? ==>
              forall x :: x in RunningIds(chips, rows).value
                          <==> exists row :: row in rows && row in chips && chips[row] == x
  {
    if rows != [] {
      var front, last := rows[..|rows| - 1], rows[|rows| - 1];
      assert rows == front + [last];
      IdsAre(chips, front);
    }
  }

  /** The NPUs that a process sees are those with a row in the process table that are visible; it fails when a row is
      not in the mapping, or when there is none. */
  lemma RunningNpusAre(chips: NpuMap, rows: seq<(nat, nat)>, visible: Option<seq<Npu>>)
    ensures var r := RunningNpus(chips, rows, visible);
            && (r == Err(UnknownChip) <==> exists row :: row in rows && row !in chips)
            && (r.Ok? ==> r.value != [] && Increasing(r.value))
            && (r.Ok? ==> forall x :: x in r.value
                                      <==> && (exists row :: row in rows && row in chips && chips[row] == x)
                                           && (visible.Some? ==> x in visible.value))
            && (r == Err(NothingRuns) ==>
                  forall row :: row in rows ==> row in chips && visible.Some? && chips[row] !in visible.value)
            && (r.Err? ==> r.error == UnknownChip || r.error == NothingRuns)
  {
    IdsAre(chips, rows);
    var ids := RunningIds(chips, rows);
    if ids.Ok? {
      var seen := if visible.Some? then Filtered(ids.value, visible.value) else ids.value;
      if seen == [] {
        forall row | row in rows
          ensures visible.Some? && chips[row] !in visible.value
        {
          var x := chips[row];
          assert row in chips && chips[row] == x;
          assert x in ids.value && x !in seen;
        }
      } else {
        assert seen[0] in seen;
        assert seen[0] in SortedSet(seen);
      }
    }
  }

  lemma {:induction false} IdsAreMapped(chips: NpuMap, rows: seq<(nat, nat)>)
    requires RunningIds(chips, rows).Ok?
    ensures forall x :: x in RunningIds(chips, rows).value ==> x in chips.Values
  {
    if rows != [] {
      IdsAreMapped(chips, rows[..|rows| - 1]);
    }
  }

  /** What a process may take for granted: it sees an NPU, and the host's logical NPUs contain all it sees. */
  ghost predicate Delivered(host: Host, running: seq<Npu>) {
    running != [] && forall npu :: npu in running ==> npu in host.logic
  }

  /** It may, because both lists come from one mapping. */
  lemma RunningIsDelivered(host: Host, chips: NpuMap, rows: seq<(nat, nat)>, visible: Option<seq<Npu>>)
    requires forall x :: x in chips.Values ==> x in host.logic
    requires RunningNpus(chips, rows, visible).Ok?
    ensures Delivered(host, RunningNpus(chips, rows, visible).value)
  {
    IdsAreMapped(chips, rows);
    var ids := RunningIds(chips, rows).value;
    var seen := if visible.Some? then Filtered(ids, visible.value) else ids;
    var npu := seen[0];
    assert npu in seen && npu in SortedSet(seen);
  }

  // ---- over all processes ----

  /** So the number of slices is the number of logical NPUs; the other two ways of counting are never used. */
  lemma CountIsHosts(host: Host, running: seq<Npu>)
    requires Delivered(host, running)
    ensures TotalNpus(host, running) == |host.logic| > 0
  {
    var npu := running[0];
    assert npu in running;
    assert npu in host.logic;
  }

  /** A process succeeds exactly when there are no CPUs to give or enough for every logical NPU, and each visible id
      is below the number of logical NPUs. */
  lemma GlobalPoolsOkIff(host: Host, running: seq<Npu>)
    requires Delivered(host, running)
    ensures |host.logic| > 0
    ensures var cpus, total := SortedSet(host.allowed), |host.logic|;
            GlobalPools(host, running).Ok?
            <==> cpus == [] || (|cpus| / total >= 5 && forall npu :: npu in running ==> 0 <= npu < total)
  {
    CountIsHosts(host, running);
    var total := |host.logic|;
    SlicePoolsOkIff(SortedSet(host.allowed), total, running);
    if forall npu :: npu in running ==> 0 <= npu < total {
      forall k | 0 <= k < |running|
        ensures 0 <= running[k] < total
      {
        var npu := running[k];
        assert npu in running;
      }
    }
  }

  /** Whatever two processes see, distinct NPUs get disjoint pools. */
  lemma GlobalPoolsDisjoint(host: Host, r1: seq<Npu>, r2: seq<Npu>, a: Npu, b: Npu)
    requires Delivered(host, r1) && Delivered(host, r2)
    requires GlobalPools(host, r1).Ok? && GlobalPools(host, r2).Ok?
    requires a in GlobalPools(host, r1).value && b in GlobalPools(host, r2).value && a != b
    ensures NoCommon(GlobalPools(host, r1).value[a], GlobalPools(host, r2).value[b])
  {
    CountIsHosts(host, r1);
    CountIsHosts(host, r2);
    GlobalPoolIs(host, r1, a);
    GlobalPoolIs(host, r2, b);
    var cpus, total := SortedSet(host.allowed), |host.logic|;
    if a < b {
      SlicesApart(cpus, total, a, b);
    } else {
      SlicesApart(cpus, total, b, a);
    }
  }
}
