/**
 The bookkeeping of the expert-parallel prefill dispatch: every rank ranks its routed slots within
 their expert, exchanges (count, offset, tokens) triples, turns the received triples into an inclusive
 prefix sum, and pulls the rows out of the senders' windows. Together this is a distributed stable
 counting sort.

 A routing is the row-major top-k table of one rank: entry `i * numTopk + j` is the expert of choice j
 of token i, a negative entry is an unrouted slot. With `numRanks` ranks of `numLocal` experts, expert
 e lives on rank e / numLocal.
 */
module MoeDispatch {
  import opened Collections

  const INT32_MAX: int := 0x7fff_ffff
  const INT32_MIN: int := -0x8000_0000

  /** The conversion of a 64-bit count to the int32 the receive table stores: wrap modulo 2^32. */
  function ToInt32(x: int): int
    decreases if x > INT32_MAX then x else if x < INT32_MIN then -x else 0
  {
    if x > INT32_MAX then ToInt32(x - 0x1_0000_0000)
    else if x < INT32_MIN then ToInt32(x + 0x1_0000_0000)
    else x
  }

  type Routing = seq<int>

  /** Row of the receive buffer: which rank sent it, and its token and choice there. */
  datatype Slot = Slot(rank: nat, token: nat, choice: nat)

  function SlotOf(rank: nat, p: nat, numTopk: nat): Slot
    requires numTopk > 0
  {
    Slot(rank, p / numTopk, p % numTopk)
  }

  /** How many slots go to expert e. */
  function Count(t: Routing, e: int): nat {
    if t == [] then 0
    else Count(t[..|t| - 1], e) + if t[|t| - 1] == e then 1 else 0
  }

  /** The slots routed to expert e, in row-major order: the reference for the ranking. */
  function SlotsOf(t: Routing, e: int): seq<nat> {
    if t == [] then []
    else SlotsOf(t[..|t| - 1], e) + if t[|t| - 1] == e then [|t| - 1] else []
  }

  lemma CountStep(t: Routing, p: nat, e: int)
    requires p < |t|
    ensures Count(t[..p + 1], e) == Count(t[..p], e) + if t[p] == e then 1 else 0
  {
    assert t[..p + 1][..p] == t[..p];
  }

  lemma {:induction false} SlotsLength(t: Routing, e: int)
    ensures |SlotsOf(t, e)| == Count(t, e)
  {
    if t != [] {
      SlotsLength(t[..|t| - 1], e);
    }
  }

  /** The rank of a slot within its expert is its position among the expert's slots. */
  lemma {:induction false} SlotAtRank(t: Routing, p: nat)
    requires p < |t|
    ensures Count(t[..p], t[p]) < |SlotsOf(t, t[p])|
    ensures SlotsOf(t, t[p])[Count(t[..p], t[p])] == p
  {
    var front := t[..|t| - 1];
    SlotsLength(front, t[p]);
    if p < |t| - 1 {
      assert front[..p] == t[..p];
      SlotAtRank(front, p);
    }
  }

  /** The converse: the j-th slot of an expert goes to that expert and has rank j. */
  lemma {:induction false} RankOfSlot(t: Routing, e: int, j: nat)
    requires j < |SlotsOf(t, e)|
    ensures var p := SlotsOf(t, e)[j]; p < |t| && t[p] == e && Count(t[..p], e) == j
  {
    var front := t[..|t| - 1];
    SlotsLength(front, e);
    if j < |SlotsOf(front, e)| {
      RankOfSlot(front, e, j);
      var p := SlotsOf(front, e)[j];
      assert front[..p] == t[..p];
    }
  }

  lemma {:induction false} CountMonotone(t: Routing, e: int, p: nat, q: nat)
    requires p <= q <= |t|
    ensures Count(t[..p], e) <= Count(t[..q], e)
    decreases q - p
  {
    if p < q {
      CountStep(t, p, e);
      CountMonotone(t, e, p + 1, q);
    }
  }

  // ---- send side ----

  /** The state of the send loop after the first n slots of t. */
  ghost predicate Ranked(t: Routing, n: nat, sendIdx: seq<int>, acc: seq<int>)
    requires n <= |t| <= |sendIdx|
  {
    && (forall p {:trigger sendIdx[p]} :: 0 <= p < n && t[p] >= 0 ==> sendIdx[p] == Count(t[..p], t[p]))
    && (forall e :: 0 <= e < |acc| ==> acc[e] == Count(t[..n], e))
  }

  method RankSlots(t: Routing, numTokens: nat, numTopk: nat, numExperts: nat)
    returns (sendIdx: array<int>, acc: array<int>)
    requires |t| == numTokens * numTopk
    requires EntriesBelow(t, numExperts)
    ensures sendIdx.Length == |t| && acc.Length == numExperts
    ensures Ranked(t, |t|, sendIdx[..], acc[..])
  {
    acc := new int[numExperts](_ => 0);
    sendIdx := new int[|t|];
    var i := 0;
    ghost var done: nat := 0;
    while i < numTokens
      invariant 0 <= i <= numTokens && done == i * numTopk <= |t|
      invariant Ranked(t, done, sendIdx[..], acc[..])
    {
      RowInGrid(i, numTokens, numTopk);
      var j := 0;
      while j < numTopk
        invariant 0 <= j <= numTopk
        invariant Ranked(t, done + j, sendIdx[..], acc[..])
      {
        var p := i * numTopk + j;
        assert p == done + j < |t|;
        var expert := t[p];
        if expert >= 0 {
          var cnt := acc[expert];
          sendIdx[p] := cnt;
          acc[expert] := acc[expert] + 1;
        }
        forall e | 0 <= e < numExperts
          ensures acc[e] == Count(t[..p + 1], e)
        {
          CountStep(t, p, e);
        }
        j := j + 1;
      }
      i, done := i + 1, done + numTopk;
    }
  }

  // ---- the group of ranks ----

  /** All ranks of one dispatch: rank r has `tokens[r]` tokens and the top-k table `routing[r]`. */
  datatype Group = Group(numRanks: nat, numLocal: nat, numTopk: nat, tokens: seq<nat>, routing: seq<Routing>) {

    ghost predicate Valid() {
      && numRanks > 0 && numLocal > 0 && numTopk > 0
      && |routing| == |tokens| == numRanks
      && forall r :: 0 <= r < numRanks ==> EntriesBelow(routing[r], NumExperts())
    }

    /** Every table has one row of numTopk entries per token. */
    ghost predicate Shaped() {
      |routing| == |tokens| && forall r :: 0 <= r < |routing| ==> |routing[r]| == tokens[r] * numTopk
    }

    function NumExperts(): nat {
      numRanks * numLocal
    }

    /** Every slot of every rank has an expert. */
    ghost predicate FullyRouted() {
      forall r :: 0 <= r < |routing| ==> AllRouted(routing[r])
    }
  }

  ghost predicate EntriesBelow(t: Routing, numExperts: nat) {
    forall p :: 0 <= p < |t| ==> t[p] < numExperts
  }

  // ---- receive side ----

  /** One received triple: the count for this expert, the offset in the sender's window, the sender's tokens. */
  datatype Entry = Entry(count: int, offset: int, tokens: int)

  /** The sum of the counts of a run of entries. */
  function SumCounts(entries: seq<Entry>): int {
    if entries == [] then 0 else SumCounts(entries[..|entries| - 1]) + entries[|entries| - 1].count
  }

  /** The largest token count announced, at least 0. */
  function MaxTokens(entries: seq<Entry>): int {
    if entries == [] then 0
    else
      var m, tokens := MaxTokens(entries[..|entries| - 1]), entries[|entries| - 1].tokens;
      if m < tokens then tokens else m
  }

  /** The inclusive prefix sums of the counts, as the int32 table stores them. */
  function Inclusive(entries: seq<Entry>): (sums: seq<int>)
    ensures |sums| == |entries|
  {
    if entries == [] then [] else Inclusive(entries[..|entries| - 1]) + [ToInt32(SumCounts(entries))]
  }

  function Offsets(entries: seq<Entry>): (offsets: seq<int>)
    ensures |offsets| == |entries|
  {
    if entries == [] then [] else Offsets(entries[..|entries| - 1]) + [entries[|entries| - 1].offset]
  }

  /** The receive table starts with the layout of these entries. */
  ghost predicate Received(entries: seq<Entry>, recvCount: seq<int>, recvOffset: seq<int>) {
    Inclusive(entries) <= recvCount && Offsets(entries) <= recvOffset
  }

  lemma ReceivedStep(entries: seq<Entry>, x: Entry, recvCount: seq<int>, recvOffset: seq<int>)
    requires |entries| < |recvCount| == |recvOffset|
    requires Received(entries, recvCount, recvOffset)
    ensures var n := |entries|;
            Received(entries + [x], recvCount[n := ToInt32(SumCounts(entries + [x]))], recvOffset[n := x.offset])
    ensures SumCounts(entries + [x]) == SumCounts(entries) + x.count
    ensures MaxTokens(entries + [x]) == if MaxTokens(entries) < x.tokens then x.tokens else MaxTokens(entries)
  {
    var more := entries + [x];
    assert more[..|more| - 1] == entries;
    assert Inclusive(more) == Inclusive(entries) + [ToInt32(SumCounts(more))];
    assert Offsets(more) == Offsets(entries) + [x.offset];
    PrefixUpdate(Inclusive(entries), recvCount, ToInt32(SumCounts(more)));
    PrefixUpdate(Offsets(entries), recvOffset, x.offset);
  }

  /** What each local expert receives: the sum of its row. */
  function ExpertCounts(rows: seq<seq<Entry>>): seq<int> {
    if rows == [] then [] else ExpertCounts(rows[..|rows| - 1]) + [SumCounts(rows[|rows| - 1])]
  }

  lemma RowsStep(rows: seq<seq<Entry>>, e: nat)
    requires e < |rows|
    ensures Flatten(rows[..e + 1]) == Flatten(rows[..e]) + rows[e]
    ensures |Flatten(rows[..e])| + |rows[e]| <= |Flatten(rows)|
    ensures ExpertCounts(rows[..e + 1]) == ExpertCounts(rows[..e]) + [SumCounts(rows[e])]
  {
    FlattenStep(rows, e);
    assert rows[..e + 1][..e] == rows[..e];
  }

  lemma SumAppend(entries: seq<Entry>, x: Entry)
    ensures SumCounts(entries + [x]) == SumCounts(entries) + x.count
  {
    assert (entries + [x])[..|entries|] == entries;
  }

  lemma PrefixUpdate<T>(a: seq<T>, b: seq<T>, v: T)
    requires a <= b && |a| < |b|
    ensures a + [v] <= b[|a| := v]
  {
  }

  /** Triple src * L + e of recv_data is x. */
  ghost predicate TripleIs(recvData: seq<int>, numLocal: nat, e: nat, src: nat, x: Entry) {
    var pair := 3 * (src * numLocal + e);
    0 <= pair < |recvData| - 2 && x == Entry(recvData[pair], recvData[pair + 1], recvData[pair + 2])
  }

  /** The rows are the received triples: row e holds triple src * L + e for every source rank src. */
  ghost predicate RowsOf(recvData: seq<int>, numRanks: nat, numLocal: nat, rows: seq<seq<Entry>>) {
    && |rows| == numLocal
    && forall e :: 0 <= e < numLocal ==> RowIs(recvData, numRanks, numLocal, e, rows[e])
  }

  ghost predicate RowIs(recvData: seq<int>, numRanks: nat, numLocal: nat, e: nat, row: seq<Entry>) {
    && |row| == numRanks
    && forall src :: 0 <= src < numRanks ==> TripleIs(recvData, numLocal, e, src, row[src])
  }

  method WriteEntry(recvCount: array<int>, recvOffset: array<int>, index: nat, count: int, offset: int)
    requires recvCount != recvOffset && index < recvCount.Length == recvOffset.Length
    modifies recvCount, recvOffset
    ensures recvCount[..] == old(recvCount[..])[index := count]
    ensures recvOffset[..] == old(recvOffset[..])[index := offset]
  {
    recvCount[index] := count;
    recvOffset[index] := offset;
  }

  /** The inner loop of the receive layout, for one local expert; `done` are the entries written before it. */
  method ReceiveExpert(recvData: seq<int>, numRanks: nat, numLocal: nat, e: nat, first: nat,
                       recvCount: array<int>, recvOffset: array<int>, totalSoFar: int, maxSoFar: int,
                       ghost done: seq<Entry>, ghost row: seq<Entry>)
    returns (total: int, maxTokens: int, received: int)
    requires RowIs(recvData, numRanks, numLocal, e, row) && first == |done|
    requires recvCount != recvOffset && first + numRanks <= recvCount.Length == recvOffset.Length
    requires Received(done, recvCount[..], recvOffset[..])
    requires totalSoFar == SumCounts(done) && maxSoFar == MaxTokens(done)
    modifies recvCount, recvOffset
    ensures Received(done + row, recvCount[..], recvOffset[..])
    ensures total == SumCounts(done + row) && maxTokens == MaxTokens(done + row) && received == SumCounts(row)
  {
    total, maxTokens, received := totalSoFar, maxSoFar, 0;
    var src := 0;
    ghost var now, here := done, [];
    while src < numRanks
      invariant 0 <= src <= numRanks
      invariant here == row[..src] && now == done + here
      invariant Received(now, recvCount[..], recvOffset[..])
      invariant total == SumCounts(now) && maxTokens == MaxTokens(now) && received == SumCounts(here)
    {
      ghost var x := row[src];
      assert TripleIs(recvData, numLocal, e, src, x);
      var index := first + src;
      var pair := 3 * (src * numLocal + e);
      var cnt, off, tokens := recvData[pair], recvData[pair + 1], recvData[pair + 2];
      ReceivedStep(now, x, recvCount[..], recvOffset[..]);
      total := total + cnt;
      WriteEntry(recvCount, recvOffset, index, ToInt32(total), off);
      maxTokens := if maxTokens < tokens then tokens else maxTokens;
      received := received + cnt;
      SumAppend(here, x);
      now, here := now + [x], here + [x];
      src := src + 1;
    }
    assert here == row;
  }

  method LayoutReceive(recvData: seq<int>, numRanks: nat, numLocal: nat, ghost rows: seq<seq<Entry>>)
    returns (recvCount: array<int>, recvOffset: array<int>, total: int, maxTokens: int, perExpert: seq<int>)
    requires RowsOf(recvData, numRanks, numLocal, rows)
    ensures recvCount[..] == Inclusive(Flatten(rows)) && recvOffset[..] == Offsets(Flatten(rows))
    ensures total == SumCounts(Flatten(rows)) && maxTokens == MaxTokens(Flatten(rows))
    ensures perExpert == ExpertCounts(rows)
  {
    var numEntries := numLocal * numRanks;
    recvCount := new int[numEntries];
    recvOffset := new int[numEntries];
    total, maxTokens, perExpert := 0, 0, [];
    var e, first := 0, 0;
    ghost var done := [];
    GridLength(rows, numRanks);
    assert numEntries == |Flatten(rows)|;
    while e < numLocal
      invariant 0 <= e <= numLocal && done == Flatten(rows[..e]) && first == |done|
      invariant Received(done, recvCount[..], recvOffset[..])
      invariant total == SumCounts(done) && maxTokens == MaxTokens(done)
      invariant perExpert == ExpertCounts(rows[..e])
    {
      RowsStep(rows, e);
      var received;
      total, maxTokens, received :=
        ReceiveExpert(recvData, numRanks, numLocal, e, first, recvCount, recvOffset, total, maxTokens, done, rows[e]);
      done := done + rows[e];
      perExpert := perExpert + [received];
      e, first := e + 1, first + numRanks;
    }
    assert rows[..numLocal] == rows;
  }

  // ---- the send triples and their exchange ----

  function SumInts(counts: seq<int>): int {
    if counts == [] then 0 else SumInts(counts[..|counts| - 1]) + counts[|counts| - 1]
  }

  /** The triples a rank sends: for each expert its count, the exclusive prefix sum, and the rank's tokens. */
  function SendData(counts: seq<int>, tokens: int): (data: seq<int>)
    ensures |data| == 3 * |counts|
  {
    if counts == [] then []
    else
      var front := counts[..|counts| - 1];
      SendData(front, tokens) + [counts[|counts| - 1], SumInts(front), tokens]
  }

  function SendOffsets(counts: seq<int>): (offsets: seq<int>)
    ensures |offsets| == |counts|
  {
    if counts == [] then []
    else SendOffsets(counts[..|counts| - 1]) + [SumInts(counts[..|counts| - 1])]
  }

  lemma {:induction false} SendDataAt(counts: seq<int>, tokens: int, e: nat)
    requires e < |counts|
    ensures SendOffsets(counts)[e] == SumInts(counts[..e])
    ensures SendData(counts, tokens)[3 * e..3 * e + 3]
            == [counts[e], SumInts(counts[..e]), tokens]
  {
    var front := counts[..|counts| - 1];
    if e < |front| {
      SendDataAt(front, tokens, e);
      assert front[..e] == counts[..e];
    }
  }

  method AssembleSendData(counts: seq<int>, tokens: int) returns (sendData: array<int>, sendOffset: array<int>)
    ensures sendData[..] == SendData(counts, tokens)
    ensures sendOffset[..] == SendOffsets(counts)
  {
    sendData := new int[3 * |counts|];
    sendOffset := new int[|counts|];
    var prefixSum, i := 0, 0;
    while i < |counts|
      invariant 0 <= i <= |counts| && prefixSum == SumInts(counts[..i])
      invariant sendData[..3 * i] == SendData(counts[..i], tokens)
      invariant sendOffset[..i] == SendOffsets(counts[..i])
    {
      assert counts[..i + 1][..i] == counts[..i];
      var at := 3 * i;
      sendData[at], sendData[at + 1], sendData[at + 2] := counts[i], prefixSum, tokens;
      sendOffset[i] := prefixSum;
      assert sendData[..at + 3] == sendData[..at] + [counts[i], prefixSum, tokens];
      prefixSum := prefixSum + counts[i];
      i := i + 1;
    }
    assert counts[..|counts|] == counts;
  }

  /** The all-to-all: a rank receives from every source rank the n values from `first` on, its own share. */
  function Exchange(sends: seq<seq<int>>, first: nat, n: nat, width: nat): seq<int>
    requires first + n <= width && AllWide(sends, width)
  {
    Flatten(Shares(sends, first, n, width))
  }

  ghost predicate AllWide(sends: seq<seq<int>>, width: nat) {
    forall r :: 0 <= r < |sends| ==> |sends[r]| == width
  }

  function Shares(sends: seq<seq<int>>, first: nat, n: nat, width: nat): (shares: seq<seq<int>>)
    requires first + n <= width && AllWide(sends, width)
    ensures |shares| == |sends|
    ensures forall r :: 0 <= r < |shares| ==> shares[r] == sends[r][first..first + n]
  {
    seq(|sends|, r requires 0 <= r < |sends| => sends[r][first..first + n])
  }

  lemma ExchangeAt(sends: seq<seq<int>>, first: nat, n: nat, width: nat, src: nat, x: nat)
    requires first + n <= width && AllWide(sends, width)
    requires src < |sends| && x < n
    ensures 0 <= src * n + x < |Exchange(sends, first, n, width)|
    ensures Exchange(sends, first, n, width)[src * n + x] == sends[src][first + x]
  {
    GridAt(Shares(sends, first, n, width), n, src, x);
  }

  /** Triple src * L + e of what is received is triple e of the share of source rank src. */
  lemma ExchangedTriple(sends: seq<seq<int>>, first: nat, numLocal: nat, width: nat, src: nat, e: nat)
    requires first + 3 * numLocal <= width && AllWide(sends, width)
    requires src < |sends| && e < numLocal
    ensures TripleIs(Exchange(sends, first, 3 * numLocal, width), numLocal, e, src,
                     Entry(sends[src][first + 3 * e], sends[src][first + 3 * e + 1], sends[src][first + 3 * e + 2]))
  {
    ExchangeAt(sends, first, 3 * numLocal, width, src, 3 * e);
    ExchangeAt(sends, first, 3 * numLocal, width, src, 3 * e + 1);
    ExchangeAt(sends, first, 3 * numLocal, width, src, 3 * e + 2);
    Scale(src, numLocal);
  }

  lemma Scale(a: nat, n: nat)
    ensures a * (3 * n) == 3 * (a * n)
  {
  }

  // ---- the senders' windows ----

  function Counts(t: Routing, numExperts: nat): (counts: seq<int>)
    ensures |counts| == numExperts
  {
    if numExperts == 0 then [] else Counts(t, numExperts - 1) + [Count(t, numExperts - 1)]
  }

  /** The slots of each expert, in row-major order. */
  function ExpertBlocks(t: Routing, numExperts: nat): (blocks: seq<seq<nat>>)
    ensures |blocks| == numExperts
  {
    if numExperts == 0 then [] else ExpertBlocks(t, numExperts - 1) + [SlotsOf(t, numExperts - 1)]
  }

  lemma {:induction false} BlockOf(t: Routing, numExperts: nat, e: nat)
    requires e < numExperts
    ensures ExpertBlocks(t, numExperts)[e] == SlotsOf(t, e) && Counts(t, numExperts)[e] == Count(t, e)
    ensures ExpertBlocks(t, numExperts)[..e] == ExpertBlocks(t, e) && Counts(t, numExperts)[..e] == Counts(t, e)
  {
    if e < numExperts - 1 {
      BlockOf(t, numExperts - 1, e);
    }
  }

  lemma {:induction false} BlocksLength(t: Routing, e: nat)
    ensures |Flatten(ExpertBlocks(t, e))| == SumInts(Counts(t, e))
  {
    if e > 0 {
      BlocksLength(t, e - 1);
      SlotsLength(t, e - 1);
    }
  }

  /** The content of a rank's window: its routed slots ordered by expert, then row-major. */
  function Window(t: Routing, numExperts: nat): seq<nat> {
    Flatten(ExpertBlocks(t, numExperts))
  }

  /** Where the sender writes slot p: the offset of its expert plus its rank within the expert. */
  function WindowPos(t: Routing, p: nat): nat
    requires p < |t| && t[p] >= 0
  {
    |Window(t, t[p])| + Count(t[..p], t[p])
  }

  lemma WindowHolds(t: Routing, numExperts: nat, p: nat)
    requires p < |t| && 0 <= t[p] < numExperts
    ensures WindowPos(t, p) < |Window(t, numExperts)| && Window(t, numExperts)[WindowPos(t, p)] == p
  {
    BlockOf(t, numExperts, t[p]);
    SlotAtRank(t, p);
    FlattenAt(ExpertBlocks(t, numExperts), t[p], Count(t[..p], t[p]));
  }

  lemma WindowOnlyHolds(t: Routing, numExperts: nat, y: nat)
    requires y < |Window(t, numExperts)|
    ensures var p := Window(t, numExperts)[y]; p < |t| && 0 <= t[p] < numExperts && WindowPos(t, p) == y
  {
    var e, j := Locate(ExpertBlocks(t, numExperts), y);
    BlockOf(t, numExperts, e);
    FlattenAt(ExpertBlocks(t, numExperts), e, j);
    RankOfSlot(t, e, j);
  }

  function TagAll(rank: nat, slots: seq<nat>, numTopk: nat): (tagged: seq<Slot>)
    requires numTopk > 0
    ensures |tagged| == |slots|
  {
    if slots == [] then []
    else TagAll(rank, slots[..|slots| - 1], numTopk) + [SlotOf(rank, slots[|slots| - 1], numTopk)]
  }

  lemma {:induction false} TagAt(rank: nat, slots: seq<nat>, numTopk: nat, i: nat)
    requires numTopk > 0 && i < |slots|
    ensures TagAll(rank, slots, numTopk)[i] == SlotOf(rank, slots[i], numTopk)
  {
    if i < |slots| - 1 {
      TagAt(rank, slots[..|slots| - 1], numTopk, i);
    }
  }

  /** The index that the kernels use for a slot: its expert converted to an int32 and read as a uint32. */
  function DstExpert(expert: int): nat {
    expert % 0x1_0000_0000
  }

  ghost predicate AllRouted(t: Routing) {
    forall p :: 0 <= p < |t| ==> t[p] >= 0
  }

  /** Every slot's access to a table with one entry per expert is inside the table. */
  ghost predicate AccessesInBounds(t: Routing, numExperts: nat) {
    forall p :: 0 <= p < |t| ==> DstExpert(t[p]) < numExperts
  }

  /** The kernels do not test for slots without an expert: their accesses to the offsets (and to the counters of
      dispatch_layout) stay in bounds exactly when there is no such slot. */
  lemma InBoundsIff(t: Routing, numExperts: nat)
    requires EntriesBelow(t, numExperts) && numExperts <= 0x8000_0000
    requires forall p :: 0 <= p < |t| ==> t[p] >= INT32_MIN
    ensures AccessesInBounds(t, numExperts) <==> AllRouted(t)
  {
    forall p | 0 <= p < |t|
      ensures DstExpert(t[p]) < numExperts <==> t[p] >= 0
    {
      IndexOfExpert(t[p], numExperts);
    }
  }

  lemma IndexOfExpert(expert: int, numExperts: nat)
    requires INT32_MIN <= expert < numExperts <= 0x8000_0000
    ensures DstExpert(expert) < numExperts <==> expert >= 0
    ensures expert >= 0 ==> DstExpert(expert) == expert
  {
  }

  /** The sender's copy into its window, for a routing without unrouted slots. */
  method InputToShare(t: Routing, rank: nat, numTopk: nat, numExperts: nat,
                      sendOffset: seq<int>, sendIdx: seq<int>, window: array<Slot>)
    requires numTopk > 0 && numExperts <= 0x8000_0000
    requires EntriesBelow(t, numExperts) && AllRouted(t)
    requires sendOffset == SendOffsets(Counts(t, numExperts))
    requires |sendIdx| == |t| && Ranked(t, |t|, sendIdx, [])
    requires window.Length == |Window(t, numExperts)|
    modifies window
    ensures window[..] == TagAll(rank, Window(t, numExperts), numTopk)
  {
    var p := 0;
    while p < |t|
      invariant 0 <= p <= |t|
      invariant forall y :: 0 <= y < window.Length && Window(t, numExperts)[y] < p ==>
                  window[y] == SlotOf(rank, Window(t, numExperts)[y], numTopk)
    {
      IndexOfExpert(t[p], numExperts);
      var dstExpert := DstExpert(t[p]);
      SendOffsetIs(t, numExperts, dstExpert);
      WindowHolds(t, numExperts, p);
      var at := sendOffset[dstExpert] + sendIdx[p];
      assert at == WindowPos(t, p);
      window[at] := SlotOf(rank, p, numTopk);
      forall y | 0 <= y < window.Length && Window(t, numExperts)[y] == p
        ensures window[y] == SlotOf(rank, p, numTopk)
      {
        WindowOnlyHolds(t, numExperts, y);
      }
      p := p + 1;
    }
    forall y | 0 <= y < window.Length
      ensures window[y] == TagAll(rank, Window(t, numExperts), numTopk)[y]
    {
      WindowOnlyHolds(t, numExperts, y);
      TagAt(rank, Window(t, numExperts), numTopk, y);
    }
  }

  lemma SendOffsetIs(t: Routing, numExperts: nat, e: nat)
    requires e < numExperts
    ensures SendOffsets(Counts(t, numExperts))[e] == |Window(t, e)|
  {
    SendDataAt(Counts(t, numExperts), 0, e);
    BlockOf(t, numExperts, e);
    BlocksLength(t, e);
  }

  // ---- what a rank receives ----

  /** The rows rank d gets from source rank src for its local expert e, in the sender's order. */
  function SlotsFor(g: Group, d: nat, e: nat, src: nat): seq<Slot>
    requires g.Valid() && src < g.numRanks
  {
    TagAll(src, SlotsOf(g.routing[src], d * g.numLocal + e), g.numTopk)
  }

  function SlotRows(g: Group, d: nat): (rows: seq<seq<seq<Slot>>>)
    requires g.Valid()
    ensures |rows| == g.numLocal && forall e :: 0 <= e < |rows| ==> |rows[e]| == g.numRanks
  {
    seq(g.numLocal, e requires 0 <= e < g.numLocal =>
      seq(g.numRanks, src requires 0 <= src < g.numRanks => SlotsFor(g, d, e, src)))
  }

  function Blocks(g: Group, d: nat): (blocks: seq<seq<Slot>>)
    requires g.Valid()
    ensures |blocks| == g.numLocal * g.numRanks
  {
    GridLength(SlotRows(g, d), g.numRanks);
    Flatten(SlotRows(g, d))
  }

  /** The reference: rank d's buffer, grouped by local expert, then source rank, then sender's order. */
  function Expected(g: Group, d: nat): seq<Slot>
    requires g.Valid()
  {
    Flatten(Blocks(g, d))
  }

  function EntryFor(g: Group, d: nat, e: nat, src: nat): Entry
    requires g.Valid() && src < g.numRanks
  {
    var expert := d * g.numLocal + e;
    Entry(Count(g.routing[src], expert), |Window(g.routing[src], expert)|, g.tokens[src])
  }

  function EntryRows(g: Group, d: nat): (rows: seq<seq<Entry>>)
    requires g.Valid()
    ensures |rows| == g.numLocal && forall e :: 0 <= e < |rows| ==> |rows[e]| == g.numRanks
  {
    seq(g.numLocal, e requires 0 <= e < g.numLocal =>
      seq(g.numRanks, src requires 0 <= src < g.numRanks => EntryFor(g, d, e, src)))
  }

  /** Block and entry e * R + src are about local expert e and source rank src. */
  lemma BlockAt(g: Group, d: nat, e: nat, src: nat)
    requires g.Valid() && e < g.numLocal && src < g.numRanks
    ensures var k := e * g.numRanks + src;
            && 0 <= k < |Blocks(g, d)| == |Flatten(EntryRows(g, d))|
            && Blocks(g, d)[k] == SlotsFor(g, d, e, src)
            && Flatten(EntryRows(g, d))[k] == EntryFor(g, d, e, src)
  {
    GridLength(EntryRows(g, d), g.numRanks);
    GridAt(SlotRows(g, d), g.numRanks, e, src);
    GridAt(EntryRows(g, d), g.numRanks, e, src);
  }

  /** Every block and entry is about some local expert and source rank. */
  lemma BlockIndex(g: Group, d: nat, k: nat) returns (e: nat, src: nat)
    requires g.Valid() && k < |Blocks(g, d)|
    ensures e < g.numLocal && src < g.numRanks && e * g.numRanks + src == k && src == k % g.numRanks
    ensures |Flatten(EntryRows(g, d))| == |Blocks(g, d)|
    ensures Blocks(g, d)[k] == SlotsFor(g, d, e, src)
    ensures Flatten(EntryRows(g, d))[k] == EntryFor(g, d, e, src)
    ensures Flatten(EntryRows(g, d))[k].count == |Blocks(g, d)[k]|
  {
    e, src := Divide(k, g.numLocal, g.numRanks);
    BlockAt(g, d, e, src);
    SlotsLength(g.routing[src], d * g.numLocal + e);
  }

  lemma PrefixStep(entries: seq<Entry>, blocks: seq<seq<Slot>>, k: nat)
    requires k < |entries| == |blocks| && entries[k].count == |blocks[k]|
    requires SumCounts(entries[..k]) == Offset(blocks, k)
    ensures SumCounts(entries[..k + 1]) == Offset(blocks, k + 1)
  {
    OffsetStep(blocks, k);
    assert entries[..k + 1] == entries[..k] + [entries[k]];
    SumAppend(entries[..k], entries[k]);
  }

  /** The counts of the receive table are the lengths of the blocks of rows. */
  lemma {:induction false} PrefixIsOffset(g: Group, d: nat, k: nat)
    requires g.Valid() && k <= |Blocks(g, d)|
    ensures |Flatten(EntryRows(g, d))| == |Blocks(g, d)|
    ensures SumCounts(Flatten(EntryRows(g, d))[..k]) == Offset(Blocks(g, d), k)
  {
    GridLength(EntryRows(g, d), g.numRanks);
    if k > 0 {
      PrefixIsOffset(g, d, k - 1);
      var _, _ := BlockIndex(g, d, k - 1);
      PrefixStep(Flatten(EntryRows(g, d)), Blocks(g, d), k - 1);
    }
  }

  lemma {:induction false} InclusiveAt(entries: seq<Entry>, k: nat)
    requires k < |entries|
    ensures Inclusive(entries)[k] == ToInt32(SumCounts(entries[..k + 1]))
    ensures Offsets(entries)[k] == entries[k].offset
  {
    var front := entries[..|entries| - 1];
    if k < |front| {
      InclusiveAt(front, k);
      assert front[..k + 1] == entries[..k + 1];
    } else {
      assert entries[..k + 1] == entries;
    }
  }

  /** Block i lies in the window of source rank i % R, from the received offset on. */
  ghost predicate InWindow<T>(windows: seq<seq<T>>, i: nat, offset: int, block: seq<T>)
    requires |windows| > 0
  {
    var window := windows[i % |windows|];
    0 <= offset <= offset + |block| <= |window| && window[offset..offset + |block|] == block
  }

  /** The rows of one block, from the sender's window to their place. */
  method CopyRows(window: seq<Slot>, offset: nat, count: nat, out: array<Slot>, at: nat)
    requires offset + count <= |window| && at + count <= out.Length
    modifies out
    ensures out[..at] == old(out[..at]) && out[at..at + count] == window[offset..offset + count]
  {
    var j := 0;
    while j < count
      invariant 0 <= j <= count
      invariant out[..at] == old(out[..at]) && out[at..at + j] == window[offset..offset + j]
    {
      out[at + j] := window[offset + j];
      j := j + 1;
    }
  }

  /** The receiver's copy: entry i of the receive table says which rows of which window come next. */
  method ShareToOutput(windows: seq<seq<Slot>>, recvCount: seq<int>, recvOffset: seq<int>, out: array<Slot>,
                       ghost blocks: seq<seq<Slot>>)
    requires |windows| > 0 && |recvCount| == |recvOffset| == |blocks|
    requires forall i: nat :: i < |blocks| ==> recvCount[i] == Offset(blocks, i + 1)
    requires forall i: nat :: i < |blocks| ==> InWindow(windows, i, recvOffset[i], blocks[i])
    requires |Flatten(blocks)| <= out.Length
    modifies out
    ensures out[..|Flatten(blocks)|] == Flatten(blocks)
  {
    var i := 0;
    while i < |recvCount|
      invariant 0 <= i <= |recvCount|
      invariant |Flatten(blocks[..i])| <= out.Length && out[..|Flatten(blocks[..i])|] == Flatten(blocks[..i])
    {
      ghost var done, block := Flatten(blocks[..i]), blocks[i];
      FlattenStep(blocks, i);
      var preCount := 0;
      if i != 0 {
        preCount := recvCount[i - 1];
      }
      assert preCount == |done| && recvCount[i] == |done| + |block|;
      var fromRank := i % |windows|;
      var count := recvCount[i] - preCount;
      var offset := recvOffset[i];
      assert InWindow(windows, i, offset, block);
      CopyRows(windows[fromRank], offset, count, out, preCount);
      assert out[..preCount + count] == done + block;
      i := i + 1;
    }
    assert blocks[..|blocks|] == blocks;
  }

  // ---- the whole dispatch ----

  /** What rank r sends: its triples and its window. */
  ghost predicate Sent(g: Group, r: nat, sendData: seq<int>, window: seq<Slot>)
    requires g.Valid() && r < g.numRanks
  {
    && sendData == SendData(Counts(g.routing[r], g.NumExperts()), g.tokens[r])
    && window == TagAll(r, Window(g.routing[r], g.NumExperts()), g.numTopk)
  }

  method SendSide(g: Group, r: nat) returns (sendData: seq<int>, window: seq<Slot>)
    requires g.Valid() && g.Shaped() && g.FullyRouted() && g.NumExperts() <= 0x8000_0000 && r < g.numRanks
    ensures Sent(g, r, sendData, window)
  {
    var t, numExperts := g.routing[r], g.NumExperts();
    var counts := Counts(t, numExperts);
    var sendIdx, _ := RankSlots(t, g.tokens[r], g.numTopk, numExperts);
    var data, offset := AssembleSendData(counts, g.tokens[r]);
    BlocksLength(t, numExperts);
    var share := new Slot[SumInts(counts)](_ => Slot(0, 0, 0));
    InputToShare(t, r, g.numTopk, numExperts, offset[..], sendIdx[..], share);
    return data[..], share[..];
  }

  /** The triple a rank sends about one expert. */
  lemma SentTriple(t: Routing, numExperts: nat, tokens: int, expert: nat)
    requires expert < numExperts
    ensures var at, data := 3 * expert, SendData(Counts(t, numExperts), tokens);
            Entry(data[at], data[at + 1], data[at + 2]) == Entry(Count(t, expert), |Window(t, expert)|, tokens)
  {
    var at, data := 3 * expert, SendData(Counts(t, numExperts), tokens);
    SendDataAt(Counts(t, numExperts), tokens, expert);
    BlockOf(t, numExperts, expert);
    BlocksLength(t, expert);
    var three := data[at..at + 3];
    assert three[0] == data[at] && three[1] == data[at + 1] && three[2] == data[at + 2];
  }

  ghost predicate AllSent(g: Group, sends: seq<seq<int>>, windows: seq<seq<Slot>>)
    requires g.Valid()
  {
    && |sends| == |windows| == g.numRanks
    && forall r: nat :: r < g.numRanks ==> Sent(g, r, sends[r], windows[r])
  }

  lemma SharesFit(g: Group, sends: seq<seq<int>>, windows: seq<seq<Slot>>, d: nat)
    requires g.Valid() && AllSent(g, sends, windows) && d < g.numRanks
    ensures AllWide(sends, 3 * g.NumExperts())
    ensures 0 <= 3 * (d * g.numLocal) && 3 * (d * g.numLocal) + 3 * g.numLocal <= 3 * g.NumExperts()
  {
    RowInGrid(d, g.numRanks, g.numLocal);
    forall r: nat | r < |sends|
      ensures |sends[r]| == 3 * g.NumExperts()
    {
      assert Sent(g, r, sends[r], windows[r]);
    }
  }

  /** The triple about expert x + e in the share of source rank src. */
  lemma ShareTriple(g: Group, sends: seq<seq<int>>, windows: seq<seq<Slot>>, x: nat, e: nat, src: nat)
    requires g.Valid() && AllSent(g, sends, windows) && src < g.numRanks && x + e < g.NumExperts()
    ensures 3 * x + 3 * e + 2 < |sends[src]|
    ensures Entry(sends[src][3 * x + 3 * e], sends[src][3 * x + 3 * e + 1], sends[src][3 * x + 3 * e + 2])
            == Entry(Count(g.routing[src], x + e), |Window(g.routing[src], x + e)|, g.tokens[src])
  {
    assert Sent(g, src, sends[src], windows[src]);
    SentTriple(g.routing[src], g.NumExperts(), g.tokens[src], x + e);
  }

  /** A triple at a known place of the share is the received one. */
  lemma ReceivedEntry(sends: seq<seq<int>>, first: nat, numLocal: nat, width: nat, src: nat, e: nat, entry: Entry)
    requires first + 3 * numLocal <= width && AllWide(sends, width) && src < |sends| && e < numLocal
    requires entry == Entry(sends[src][first + 3 * e], sends[src][first + 3 * e + 1], sends[src][first + 3 * e + 2])
    ensures TripleIs(Exchange(sends, first, 3 * numLocal, width), numLocal, e, src, entry)
  {
    ExchangedTriple(sends, first, numLocal, width, src, e);
  }

  /** The triple a rank whose experts start at x reads about its expert e from source rank src. */
  lemma ReceivedTriple(g: Group, sends: seq<seq<int>>, windows: seq<seq<Slot>>, x: nat, e: nat, src: nat,
                       width: nat, entry: Entry)
    requires g.Valid() && AllSent(g, sends, windows)
    requires e < g.numLocal && src < g.numRanks && x + e < g.NumExperts()
    requires AllWide(sends, width) && 3 * x + 3 * g.numLocal <= width
    requires entry == Entry(Count(g.routing[src], x + e), |Window(g.routing[src], x + e)|, g.tokens[src])
    ensures TripleIs(Exchange(sends, 3 * x, 3 * g.numLocal, width), g.numLocal, e, src, entry)
  {
    ShareTriple(g, sends, windows, x, e, src);
    ReceivedEntry(sends, 3 * x, g.numLocal, width, src, e, entry);
  }

  /** Block k of rank d's rows lies in the window of rank k % R at the received offset. */
  lemma BlockInWindow(g: Group, sends: seq<seq<int>>, windows: seq<seq<Slot>>, d: nat, k: nat)
    requires g.Valid() && AllSent(g, sends, windows) && d < g.numRanks
    requires k < |Blocks(g, d)|
    ensures |Flatten(EntryRows(g, d))| == |Blocks(g, d)|
    ensures InWindow(windows, k, Flatten(EntryRows(g, d))[k].offset, Blocks(g, d)[k])
  {
    var e, src := BlockIndex(g, d, k);
    assert Sent(g, src, sends[src], windows[src]);
    IndexInGrid(d, e, g.numRanks, g.numLocal);
    BlockOfWindow(g.routing[src], src, g.numTopk, g.NumExperts(), d * g.numLocal + e);
  }

  /** The slots of one expert are a contiguous part of the window. */
  lemma BlockOfWindow(t: Routing, rank: nat, numTopk: nat, numExperts: nat, expert: nat)
    requires numTopk > 0 && expert < numExperts
    ensures var offset, block := |Window(t, expert)|, TagAll(rank, SlotsOf(t, expert), numTopk);
            var window := TagAll(rank, Window(t, numExperts), numTopk);
            offset + |block| <= |window| && window[offset..offset + |block|] == block
  {
    BlockOf(t, numExperts, expert);
    FlattenStep(ExpertBlocks(t, numExperts), expert);
    assert Window(t, expert) + SlotsOf(t, expert) <= Window(t, numExperts);
    var offset, n := |Window(t, expert)|, |SlotsOf(t, expert)|;
    forall j | 0 <= j < n
      ensures TagAll(rank, Window(t, numExperts), numTopk)[offset + j] == TagAll(rank, SlotsOf(t, expert), numTopk)[j]
    {
      TagAt(rank, Window(t, numExperts), numTopk, offset + j);
      TagAt(rank, SlotsOf(t, expert), numTopk, j);
    }
  }

  /** What the receive table of rank d says: where each block ends, and where it lies in its sender's window. */
  lemma TableDescribesBlocks(g: Group, sends: seq<seq<int>>, windows: seq<seq<Slot>>, d: nat,
                             recvCount: seq<int>, recvOffset: seq<int>, i: nat)
    requires g.Valid() && AllSent(g, sends, windows) && d < g.numRanks
    requires |Expected(g, d)| <= INT32_MAX
    requires recvCount == Inclusive(Flatten(EntryRows(g, d))) && recvOffset == Offsets(Flatten(EntryRows(g, d)))
    requires i < |Blocks(g, d)|
    ensures |recvCount| == |recvOffset| == |Blocks(g, d)|
    ensures recvCount[i] == Offset(Blocks(g, d), i + 1)
    ensures InWindow(windows, i, recvOffset[i], Blocks(g, d)[i])
  {
    PrefixIsOffset(g, d, i + 1);
    InclusiveAt(Flatten(EntryRows(g, d)), i);
    assert Offset(Blocks(g, d), i + 1) <= |Expected(g, d)| by {
      OffsetMonotone(Blocks(g, d), i + 1, |Blocks(g, d)|);
      assert Blocks(g, d)[..|Blocks(g, d)|] == Blocks(g, d);
    }
    BlockInWindow(g, sends, windows, d, i);
  }

  lemma ReceivedRows(g: Group, sends: seq<seq<int>>, windows: seq<seq<Slot>>, d: nat, first: nat, width: nat)
    requires g.Valid() && AllSent(g, sends, windows) && d < g.numRanks && first == d * g.numLocal
    requires AllWide(sends, width) && 3 * first + 3 * g.numLocal <= width
    ensures forall e: nat, src: nat :: e < g.numLocal && src < g.numRanks ==>
              TripleIs(Exchange(sends, 3 * first, 3 * g.numLocal, width), g.numLocal, e, src, EntryRows(g, d)[e][src])
  {
    forall e: nat, src: nat | e < g.numLocal && src < g.numRanks
      ensures TripleIs(Exchange(sends, 3 * first, 3 * g.numLocal, width), g.numLocal, e, src, EntryRows(g, d)[e][src])
    {
      IndexInGrid(d, e, g.numRanks, g.numLocal);
      ReceivedTriple(g, sends, windows, first, e, src, width, EntryRows(g, d)[e][src]);
    }
  }

  lemma TableDescribesAll(g: Group, sends: seq<seq<int>>, windows: seq<seq<Slot>>, d: nat,
                          recvCount: seq<int>, recvOffset: seq<int>)
    requires g.Valid() && AllSent(g, sends, windows) && d < g.numRanks && |Expected(g, d)| <= INT32_MAX
    requires recvCount == Inclusive(Flatten(EntryRows(g, d))) && recvOffset == Offsets(Flatten(EntryRows(g, d)))
    ensures |recvCount| == |recvOffset| == |Blocks(g, d)|
    ensures forall i: nat :: i < |recvCount| ==> recvCount[i] == Offset(Blocks(g, d), i + 1)
    ensures forall i: nat :: i < |recvCount| ==> InWindow(windows, i, recvOffset[i], Blocks(g, d)[i])
  {
    TotalIsExpected(g, d);
    forall i: nat | i < |Blocks(g, d)|
      ensures recvCount[i] == Offset(Blocks(g, d), i + 1)
      ensures InWindow(windows, i, recvOffset[i], Blocks(g, d)[i])
    {
      TableDescribesBlocks(g, sends, windows, d, recvCount, recvOffset, i);
    }
  }

  method ReceiveSide(g: Group, sends: seq<seq<int>>, windows: seq<seq<Slot>>, d: nat) returns (rows: seq<Slot>)
    requires g.Valid() && AllSent(g, sends, windows) && d < g.numRanks
    requires |Expected(g, d)| <= INT32_MAX
    ensures rows == Expected(g, d)
  {
    SharesFit(g, sends, windows, d);
    var first: nat := d * g.numLocal;
    var recvData := Exchange(sends, 3 * first, 3 * g.numLocal, 3 * g.NumExperts());
    ReceivedRows(g, sends, windows, d, first, 3 * g.NumExperts());
    var recvCount, recvOffset, total, _, _ := LayoutReceive(recvData, g.numRanks, g.numLocal, EntryRows(g, d));
    TotalIsExpected(g, d);
    TableDescribesAll(g, sends, windows, d, recvCount[..], recvOffset[..]);
    var out := new Slot[if total == 0 then 1 else total](_ => Slot(0, 0, 0));
    ShareToOutput(windows, recvCount[..], recvOffset[..], out, Blocks(g, d));
    return out[..total];
  }

  lemma TotalIsExpected(g: Group, d: nat)
    requires g.Valid()
    ensures |Flatten(EntryRows(g, d))| == |Blocks(g, d)|
    ensures SumCounts(Flatten(EntryRows(g, d))) == |Expected(g, d)|
  {
    var n := |Blocks(g, d)|;
    PrefixIsOffset(g, d, n);
    assert Flatten(EntryRows(g, d))[..n] == Flatten(EntryRows(g, d)) && Blocks(g, d)[..n] == Blocks(g, d);
  }

  /** The dispatch of the whole group: every rank ends with exactly its expected rows. The kernels need every slot to
      have an expert, see InBoundsIff. */
  method Dispatch(g: Group) returns (outs: seq<seq<Slot>>)
    requires g.Valid() && g.Shaped() && g.FullyRouted() && g.NumExperts() <= 0x8000_0000
    requires forall d: nat :: d < g.numRanks ==> |Expected(g, d)| <= INT32_MAX
    ensures |outs| == g.numRanks
    ensures forall d: nat :: d < g.numRanks ==> outs[d] == Expected(g, d)
  {
    var sends, windows := [], [];
    for r := 0 to g.numRanks
      invariant |sends| == |windows| == r
      invariant forall i: nat :: i < r ==> Sent(g, i, sends[i], windows[i])
    {
      var sendData, window := SendSide(g, r);
      sends, windows := sends + [sendData], windows + [window];
    }
    outs := [];
    for d := 0 to g.numRanks
      invariant |outs| == d
      invariant forall i: nat :: i < d ==> outs[i] == Expected(g, i)
    {
      var rows := ReceiveSide(g, sends, windows, d);
      outs := outs + [rows];
    }
  }
}
