/**
 What the prefill dispatch achieves: on every rank the rows are a bijection with the slots routed to it,
 in a fixed order, and no row is lost or invented over the group.
 */
module MoeProperties {
  import opened Collections
  import opened MoeDispatch

  /** Entry of rank d's receive table for slot p of rank src. */
  function TableIndex(g: Group, d: nat, src: nat, p: nat): int
    requires g.Valid() && src < g.numRanks && p < |g.routing[src]|
  {
    (g.routing[src][p] - d * g.numLocal) * g.numRanks + src
  }

  /** Slot p of rank src is routed to an expert of rank d. */
  ghost predicate RoutedTo(g: Group, d: nat, src: nat, p: nat)
    requires g.Valid()
  {
    && src < g.numRanks && p < |g.routing[src]|
    && d * g.numLocal <= g.routing[src][p] < d * g.numLocal + g.numLocal
  }

  /** The row of a slot, as the tables give it: recv_count[index] - recv_cnt + send_token_idx. */
  ghost function Row(g: Group, d: nat, src: nat, p: nat): int
    requires g.Valid() && RoutedTo(g, d, src, p)
  {
    RoutedIndex(g, d, src, p);
    var entries, k := Flatten(EntryRows(g, d)), TableIndex(g, d, src, p);
    Inclusive(entries)[k] - entries[k].count + Count(g.routing[src][..p], g.routing[src][p])
  }

  lemma RoutedIndex(g: Group, d: nat, src: nat, p: nat)
    requires g.Valid() && RoutedTo(g, d, src, p)
    ensures |Flatten(EntryRows(g, d))| == |Blocks(g, d)|
    ensures 0 <= TableIndex(g, d, src, p) < |Blocks(g, d)|
    ensures Blocks(g, d)[TableIndex(g, d, src, p)] == SlotsFor(g, d, g.routing[src][p] - d * g.numLocal, src)
  {
    BlockAt(g, d, g.routing[src][p] - d * g.numLocal, src);
  }

  /** Where the slot's block ends, and how long it is. */
  lemma RowInTable(g: Group, d: nat, src: nat, p: nat, k: nat)
    requires g.Valid() && RoutedTo(g, d, src, p) && k == TableIndex(g, d, src, p)
    ensures k < |Blocks(g, d)|
    ensures Row(g, d, src, p)
            == ToInt32(Offset(Blocks(g, d), k + 1)) - |Blocks(g, d)[k]| + Count(g.routing[src][..p], g.routing[src][p])
  {
    RoutedIndex(g, d, src, p);
    InclusiveAt(Flatten(EntryRows(g, d)), k);
    PrefixIsOffset(g, d, k + 1);
    var _, _ := BlockIndex(g, d, k);
  }

  lemma BlockEnds(g: Group, d: nat, k: nat)
    requires g.Valid() && k < |Blocks(g, d)|
    ensures Offset(Blocks(g, d), k) + |Blocks(g, d)[k]| == Offset(Blocks(g, d), k + 1) <= |Expected(g, d)|
  {
    var blocks := Blocks(g, d);
    OffsetStep(blocks, k);
    OffsetMonotone(blocks, k + 1, |blocks|);
    assert blocks[..|blocks|] == blocks;
  }

  /** The row is the start of the slot's block plus the slot's rank in its expert. */
  lemma RowIs(g: Group, d: nat, src: nat, p: nat, k: nat)
    requires g.Valid() && RoutedTo(g, d, src, p) && |Expected(g, d)| <= INT32_MAX
    requires k == TableIndex(g, d, src, p)
    ensures k < |Blocks(g, d)|
    ensures Row(g, d, src, p) == Offset(Blocks(g, d), k) + Count(g.routing[src][..p], g.routing[src][p])
  {
    RowInTable(g, d, src, p, k);
    BlockEnds(g, d, k);
  }

  /** Every slot routed to rank d is in its row of rank d's buffer. */
  lemma RowHolds(g: Group, d: nat, src: nat, p: nat)
    requires g.Valid() && RoutedTo(g, d, src, p) && |Expected(g, d)| <= INT32_MAX
    ensures 0 <= Row(g, d, src, p) < |Expected(g, d)|
    ensures Expected(g, d)[Row(g, d, src, p)] == SlotOf(src, p, g.numTopk)
  {
    var k := TableIndex(g, d, src, p);
    RoutedIndex(g, d, src, p);
    RowIs(g, d, src, p, k);
    var t := g.routing[src];
    SlotAtRank(t, p);
    TagAt(src, SlotsOf(t, t[p]), g.numTopk, Count(t[..p], t[p]));
    FlattenAt(Blocks(g, d), k, Count(t[..p], t[p]));
  }

  /** The slot at position j of block k. */
  lemma SlotAtPlace(g: Group, d: nat, k: nat, j: nat) returns (src: nat, p: nat)
    requires g.Valid() && k < |Blocks(g, d)| && j < |Blocks(g, d)[k]|
    ensures RoutedTo(g, d, src, p) && TableIndex(g, d, src, p) == k
    ensures Count(g.routing[src][..p], g.routing[src][p]) == j
  {
    var e;
    e, src := BlockIndex(g, d, k);
    p := SlotInBlock(g, d, e, src, j);
  }

  /** Every row of rank d's buffer is the row of a slot routed to it. */
  lemma RowOnlyHolds(g: Group, d: nat, y: nat) returns (src: nat, p: nat)
    requires g.Valid() && y < |Expected(g, d)| <= INT32_MAX
    ensures RoutedTo(g, d, src, p) && Row(g, d, src, p) == y
  {
    var k, j := Locate(Blocks(g, d), y);
    src, p := SlotAtPlace(g, d, k, j);
    RowIs(g, d, src, p, k);
  }

  /** Every routed slot has its row inside the buffer. */
  ghost predicate AllRowsInside(g: Group, d: nat)
    requires g.Valid()
  {
    forall src, p :: RoutedTo(g, d, src, p) ==> 0 <= Row(g, d, src, p) < |Expected(g, d)|
  }

  /** The table addresses the whole buffer correctly exactly when the buffer has at most 2^31 - 1 rows. */
  lemma AllRowsInsideIff(g: Group, d: nat)
    requires g.Valid()
    ensures AllRowsInside(g, d) <==> |Expected(g, d)| <= INT32_MAX
  {
    if |Expected(g, d)| <= INT32_MAX {
      forall src, p | RoutedTo(g, d, src, p)
        ensures 0 <= Row(g, d, src, p) < |Expected(g, d)|
      {
        RowHolds(g, d, src, p);
      }
    } else {
      var src, p := RowOutside(g, d);
      assert !(0 <= Row(g, d, src, p));
    }
  }

  /** In a larger buffer, the slot whose place is 2^31 - 1 gets a negative row. */
  lemma RowOutside(g: Group, d: nat) returns (src: nat, p: nat)
    requires g.Valid() && |Expected(g, d)| > INT32_MAX
    ensures RoutedTo(g, d, src, p) && Row(g, d, src, p) < 0
  {
    var k, j := Locate(Blocks(g, d), INT32_MAX);
    src, p := SlotAtPlace(g, d, k, j);
    RowInTable(g, d, src, p, k);
    BlockEnds(g, d, k);
    WrapLoses(Offset(Blocks(g, d), k + 1));
  }

  lemma {:induction false} WrapLoses(x: int)
    requires x > INT32_MAX
    ensures ToInt32(x) <= x - 0x1_0000_0000
    decreases x
  {
    if x - 0x1_0000_0000 > INT32_MAX {
      WrapLoses(x - 0x1_0000_0000);
    }
  }

  lemma SlotInBlock(g: Group, d: nat, e: nat, src: nat, j: nat) returns (p: nat)
    requires g.Valid() && src < g.numRanks && e < g.numLocal && j < |SlotsFor(g, d, e, src)|
    ensures RoutedTo(g, d, src, p) && g.routing[src][p] - d * g.numLocal == e
    ensures Count(g.routing[src][..p], g.routing[src][p]) == j
  {
    RankOfSlot(g.routing[src], d * g.numLocal + e, j);
    p := SlotsOf(g.routing[src], d * g.numLocal + e)[j];
  }

  lemma SlotOfInjective(rank: nat, p: nat, rank': nat, p': nat, numTopk: nat)
    requires numTopk > 0 && SlotOf(rank, p, numTopk) == SlotOf(rank', p', numTopk)
    ensures rank == rank' && p == p'
  {
    assert p == p / numTopk * numTopk + p % numTopk;
    assert p' == p' / numTopk * numTopk + p' % numTopk;
  }

  /** Two slots never share a row. */
  lemma RowInjective(g: Group, d: nat, src: nat, p: nat, src': nat, p': nat)
    requires g.Valid() && RoutedTo(g, d, src, p) && RoutedTo(g, d, src', p') && |Expected(g, d)| <= INT32_MAX
    requires Row(g, d, src, p) == Row(g, d, src', p')
    ensures src == src' && p == p'
  {
    RowHolds(g, d, src, p);
    RowHolds(g, d, src', p');
    SlotOfInjective(src, p, src', p', g.numTopk);
  }

  /** By local expert, then source rank, then position in the sender's table. */
  ghost predicate Before(e: int, src: nat, p: nat, e': int, src': nat, p': nat) {
    e < e' || (e == e' && (src < src' || (src == src' && p < p')))
  }

  /** Rows are ordered by expert, then source rank, then the sender's row-major order. */
  lemma RowOrder(g: Group, d: nat, src: nat, p: nat, src': nat, p': nat)
    requires g.Valid() && RoutedTo(g, d, src, p) && RoutedTo(g, d, src', p') && |Expected(g, d)| <= INT32_MAX
    ensures Row(g, d, src, p) < Row(g, d, src', p')
            <==> Before(g.routing[src][p], src, p, g.routing[src'][p'], src', p')
  {
    if Before(g.routing[src][p], src, p, g.routing[src'][p'], src', p') {
      RowOrderOneWay(g, d, src, p, src', p');
    } else if src != src' || p != p' {
      RowOrderOneWay(g, d, src', p', src, p);
    }
  }

  lemma RowOrderOneWay(g: Group, d: nat, src: nat, p: nat, src': nat, p': nat)
    requires g.Valid() && RoutedTo(g, d, src, p) && RoutedTo(g, d, src', p') && |Expected(g, d)| <= INT32_MAX
    requires Before(g.routing[src][p], src, p, g.routing[src'][p'], src', p')
    ensures Row(g, d, src, p) < Row(g, d, src', p')
  {
    var k, k' := TableIndex(g, d, src, p), TableIndex(g, d, src', p');
    assert k >= 0 && k' >= 0 by {
      RoutedIndex(g, d, src, p);
      RoutedIndex(g, d, src', p');
    }
    if g.routing[src][p] == g.routing[src'][p'] && src == src' {
      LaterInBlock(g, d, src, p, p', k);
    } else {
      assert k < k' by { TableOrder(g, d, src, p, src', p'); }
      EarlierBlock(g, d, src, p, src', p', k, k');
    }
  }

  lemma LaterInBlock(g: Group, d: nat, src: nat, p: nat, p': nat, k: nat)
    requires g.Valid() && RoutedTo(g, d, src, p) && RoutedTo(g, d, src, p') && |Expected(g, d)| <= INT32_MAX
    requires p < p' && g.routing[src][p] == g.routing[src][p'] && k == TableIndex(g, d, src, p)
    ensures Row(g, d, src, p) < Row(g, d, src, p')
  {
    var t, e := g.routing[src], g.routing[src][p];
    RowIs(g, d, src, p, k);
    RowIs(g, d, src, p', k);
    assert Count(t[..p], e) < Count(t[..p'], e) by {
      CountStep(t, p, e);
      CountMonotone(t, e, p + 1, p');
    }
  }

  lemma EarlierBlock(g: Group, d: nat, src: nat, p: nat, src': nat, p': nat, k: nat, k': nat)
    requires g.Valid() && RoutedTo(g, d, src, p) && RoutedTo(g, d, src', p') && |Expected(g, d)| <= INT32_MAX
    requires k == TableIndex(g, d, src, p) && k' == TableIndex(g, d, src', p') && k < k'
    ensures Row(g, d, src, p) < Row(g, d, src', p')
  {
    RowIs(g, d, src, p, k);
    RowIs(g, d, src', p', k');
    BlockEnds(g, d, k);
    OffsetMonotone(Blocks(g, d), k + 1, k');
    assert Count(g.routing[src][..p], g.routing[src][p]) < |Blocks(g, d)[k]| by { RankInBlock(g, d, src, p); }
  }

  lemma RankInBlock(g: Group, d: nat, src: nat, p: nat)
    requires g.Valid() && RoutedTo(g, d, src, p)
    ensures 0 <= TableIndex(g, d, src, p) < |Blocks(g, d)|
    ensures Count(g.routing[src][..p], g.routing[src][p]) < |Blocks(g, d)[TableIndex(g, d, src, p)]|
  {
    RoutedIndex(g, d, src, p);
    SlotAtRank(g.routing[src], p);
  }

  lemma TableOrder(g: Group, d: nat, src: nat, p: nat, src': nat, p': nat)
    requires g.Valid() && RoutedTo(g, d, src, p) && RoutedTo(g, d, src', p')
    requires g.routing[src][p] < g.routing[src'][p'] || (g.routing[src][p] == g.routing[src'][p'] && src < src')
    ensures TableIndex(g, d, src, p) < TableIndex(g, d, src', p')
  {
    if g.routing[src][p] < g.routing[src'][p'] {
      RowInGrid(g.routing[src][p] - d * g.numLocal, g.routing[src'][p'] - d * g.numLocal, g.numRanks);
    }
  }

  // ---- the rows, without the tables ----

  /** The expert of a choice of a token. */
  function ExpertOf(g: Group, r: Slot): int
    requires r.rank < |g.routing| && 0 <= r.token * g.numTopk + r.choice < |g.routing[r.rank]|
  {
    g.routing[r.rank][r.token * g.numTopk + r.choice]
  }

  /** A choice of a token of the group whose expert is on rank d. */
  ghost predicate IsFor(g: Group, d: nat, r: Slot) {
    && r.rank < |g.routing| == |g.tokens| && r.token < g.tokens[r.rank] && r.choice < g.numTopk
    && 0 <= r.token * g.numTopk + r.choice < |g.routing[r.rank]|
    && d * g.numLocal <= ExpertOf(g, r) < d * g.numLocal + g.numLocal
  }

  /** By expert, then source rank, then token, then choice. */
  ghost predicate Earlier(g: Group, d: nat, a: Slot, b: Slot)
    requires IsFor(g, d, a) && IsFor(g, d, b)
  {
    || ExpertOf(g, a) < ExpertOf(g, b)
    || (ExpertOf(g, a) == ExpertOf(g, b)
        && (|| a.rank < b.rank
            || (a.rank == b.rank && (a.token < b.token || (a.token == b.token && a.choice < b.choice)))))
  }

  /** Exactly the choices for rank d, each once, in order. */
  ghost predicate SortedDelivery(g: Group, d: nat, rows: seq<Slot>) {
    && (forall y :: 0 <= y < |rows| ==> IsFor(g, d, rows[y]))
    && (forall r: Slot :: IsFor(g, d, r) ==> r in rows)
    && forall y, y' :: 0 <= y < y' < |rows| ==> Earlier(g, d, rows[y], rows[y'])
  }

  /** Slot p is choice p % numTopk of token p / numTopk. */
  lemma SlotNumber(p: nat, i: nat, j: nat, numTopk: nat, src: nat)
    requires j < numTopk
    ensures 0 <= i * numTopk + j
    ensures p == i * numTopk + j <==> SlotOf(src, p, numTopk) == Slot(src, i, j)
  {
    QuotientBounds(p, numTopk);
    QuotientIs(i * numTopk + j, numTopk, i);
  }

  /** The row of choice j of token i of rank src holds that choice of that token. */
  lemma RowHoldsChoice(g: Group, d: nat, src: nat, i: nat, j: nat)
    requires g.Valid() && IsFor(g, d, Slot(src, i, j)) && |Expected(g, d)| <= INT32_MAX
    ensures RoutedTo(g, d, src, i * g.numTopk + j)
    ensures 0 <= Row(g, d, src, i * g.numTopk + j) < |Expected(g, d)|
    ensures Expected(g, d)[Row(g, d, src, i * g.numTopk + j)] == Slot(src, i, j)
  {
    RowHolds(g, d, src, i * g.numTopk + j);
    SlotNumber(i * g.numTopk + j, i, j, g.numTopk, src);
  }

  /** Every row is a choice of a token for this rank. */
  lemma RowIsChoice(g: Group, d: nat, y: nat) returns (src: nat, p: nat)
    requires g.Valid() && g.Shaped() && y < |Expected(g, d)| <= INT32_MAX
    ensures RoutedTo(g, d, src, p) && Row(g, d, src, p) == y
    ensures IsFor(g, d, Expected(g, d)[y]) && Expected(g, d)[y].rank == src
    ensures Expected(g, d)[y].token * g.numTopk + Expected(g, d)[y].choice == p
  {
    src, p := RowOnlyHolds(g, d, y);
    RowHolds(g, d, src, p);
    var i, j := Divide(p, g.tokens[src], g.numTopk);
    SlotNumber(p, i, j, g.numTopk, src);
  }

  lemma TokenOrder(a: Slot, b: Slot, p: nat, q: nat, n: nat)
    requires a.choice < n && b.choice < n && a.token * n + a.choice == p && b.token * n + b.choice == q && p < q
    ensures a.token < b.token || (a.token == b.token && a.choice < b.choice)
  {
    assert (b.token + 1) * n == b.token * n + n;
    MulMono(b.token + 1, a.token, n);
  }

  lemma RowsInOrder(g: Group, d: nat, y: nat, y': nat)
    requires g.Valid() && g.Shaped() && y < y' < |Expected(g, d)| <= INT32_MAX
    ensures IsFor(g, d, Expected(g, d)[y]) && IsFor(g, d, Expected(g, d)[y'])
    ensures Earlier(g, d, Expected(g, d)[y], Expected(g, d)[y'])
  {
    var a, b := Expected(g, d)[y], Expected(g, d)[y'];
    var src, p := RowIsChoice(g, d, y);
    var src', p' := RowIsChoice(g, d, y');
    RowOrder(g, d, src, p, src', p');
    if src == src' && p < p' {
      TokenOrder(a, b, p, p', g.numTopk);
    }
  }

  /** What every rank ends with: exactly the choices of tokens that go to its experts, each once, by expert, then
      source rank, then token, then choice. */
  lemma DeliversInOrder(g: Group, d: nat)
    requires g.Valid() && g.Shaped() && |Expected(g, d)| <= INT32_MAX
    ensures SortedDelivery(g, d, Expected(g, d))
  {
    var rows := Expected(g, d);
    forall y: nat | y < |rows|
      ensures IsFor(g, d, rows[y])
    {
      var _, _ := RowIsChoice(g, d, y);
    }
    forall r: Slot | IsFor(g, d, r)
      ensures r in rows
    {
      RowHoldsChoice(g, d, r.rank, r.token, r.choice);
    }
    forall y: nat, y': nat | y < y' < |rows|
      ensures Earlier(g, d, rows[y], rows[y'])
    {
      RowsInOrder(g, d, y, y');
    }
  }

  /** The dispatch of the whole group delivers in order. */
  method DispatchInOrder(g: Group) returns (outs: seq<seq<Slot>>)
    requires g.Valid() && g.Shaped() && g.FullyRouted() && g.NumExperts() <= 0x8000_0000
    requires forall d: nat :: d < g.numRanks ==> |Expected(g, d)| <= INT32_MAX
    ensures |outs| == g.numRanks && forall d: nat :: d < g.numRanks ==> SortedDelivery(g, d, outs[d])
  {
    outs := Dispatch(g);
    forall d: nat | d < g.numRanks
      ensures SortedDelivery(g, d, outs[d])
    {
      DeliversInOrder(g, d);
    }
  }

  // ---- nothing is lost over the group ----

  /** How many slots of a rank have an expert. */
  function Routed(t: Routing): nat {
    if t == [] then 0 else Routed(t[..|t| - 1]) + if t[|t| - 1] >= 0 then 1 else 0
  }

  /** The slots that the first n ranks route to expert x. */
  function ToExpert(routing: seq<Routing>, x: int, n: nat): nat
    requires n <= |routing|
  {
    if n == 0 then 0 else ToExpert(routing, x, n - 1) + Count(routing[n - 1], x)
  }

  /** The slots that the first n ranks route to the k experts from x on. */
  function ToExperts(routing: seq<Routing>, x: int, k: nat, n: nat): nat
    requires n <= |routing|
  {
    if k == 0 then 0 else ToExperts(routing, x, k - 1, n) + ToExpert(routing, x + (k - 1), n)
  }

  /** The rows received by the first n ranks. */
  ghost function TotalReceived(g: Group, n: nat): nat
    requires g.Valid()
  {
    if n == 0 then 0 else TotalReceived(g, n - 1) + |Expected(g, n - 1)|
  }

  /** The slots sent by the first n ranks. */
  function TotalSent(routing: seq<Routing>, n: nat): nat
    requires n <= |routing|
  {
    if n == 0 then 0 else TotalSent(routing, n - 1) + Routed(routing[n - 1])
  }

  lemma {:induction false} CountsGrow(t: Routing, n: nat)
    requires t != []
    ensures var last := t[|t| - 1];
            SumInts(Counts(t, n)) == SumInts(Counts(t[..|t| - 1], n)) + if 0 <= last < n then 1 else 0
  {
    if n > 0 {
      CountsGrow(t, n - 1);
    }
  }

  /** All routed slots have an expert below the bound, so the counts of the experts add up to them. */
  lemma {:induction false} CountsAddUp(t: Routing, numExperts: nat)
    requires EntriesBelow(t, numExperts)
    ensures SumInts(Counts(t, numExperts)) == Routed(t)
  {
    if t == [] {
      NoCounts(numExperts);
    } else {
      CountsAddUp(t[..|t| - 1], numExperts);
      CountsGrow(t, numExperts);
    }
  }

  lemma {:induction false} NoCounts(n: nat)
    ensures SumInts(Counts([], n)) == 0
  {
    if n > 0 {
      NoCounts(n - 1);
    }
  }

  /** The row of one expert: its slots on every source rank. */
  ghost predicate IsSlotRow(routing: seq<Routing>, expert: nat, row: seq<seq<Slot>>) {
    |row| == |routing| && forall src :: 0 <= src < |row| ==> |row[src]| == Count(routing[src], expert)
  }

  lemma {:induction false} RowLength(routing: seq<Routing>, expert: nat, row: seq<seq<Slot>>, n: nat)
    requires IsSlotRow(routing, expert, row) && n <= |routing|
    ensures |Flatten(row[..n])| == ToExpert(routing, expert, n)
  {
    if n > 0 {
      RowLength(routing, expert, row, n - 1);
      FlattenStep(row, n - 1);
    }
  }

  lemma {:induction false} RowsLength(routing: seq<Routing>, x: nat, rows: seq<seq<seq<Slot>>>, n: nat)
    requires n <= |rows|
    requires forall e :: 0 <= e < |rows| ==> |Flatten(rows[e])| == ToExpert(routing, x + e, |routing|)
    ensures |Flatten(Flatten(rows[..n]))| == ToExperts(routing, x, n, |routing|)
  {
    if n > 0 {
      RowsLength(routing, x, rows, n - 1);
      FlattenStep(rows, n - 1);
      FlattenConcat(Flatten(rows[..n - 1]), rows[n - 1]);
    }
  }

  /** The rows of a rank are the slots of its experts. */
  lemma ExpectedLength(g: Group, d: nat, x: nat)
    requires g.Valid() && x == d * g.numLocal
    ensures |Expected(g, d)| == ToExperts(g.routing, x, g.numLocal, g.numRanks)
  {
    var rows := SlotRows(g, d);
    forall e: nat | e < |rows|
      ensures |Flatten(rows[e])| == ToExpert(g.routing, x + e, g.numRanks)
    {
      forall src: nat | src < g.numRanks
        ensures |rows[e][src]| == Count(g.routing[src], x + e)
      {
        SlotsLength(g.routing[src], x + e);
      }
      RowLength(g.routing, x + e, rows[e], g.numRanks);
      assert rows[e][..g.numRanks] == rows[e];
    }
    RowsLength(g.routing, x, rows, g.numLocal);
    assert rows[..g.numLocal] == rows;
  }

  lemma {:induction false} ToExpertsConcat(routing: seq<Routing>, x: int, k: nat, m: nat, n: nat)
    requires n <= |routing|
    ensures ToExperts(routing, x, k + m, n) == ToExperts(routing, x, k, n) + ToExperts(routing, x + k, m, n)
  {
    if m > 0 {
      ToExpertsConcat(routing, x, k, m - 1, n);
    }
  }

  lemma {:induction false} ReceivedByExpert(g: Group, n: nat, x: nat)
    requires g.Valid() && x == n * g.numLocal
    ensures TotalReceived(g, n) == ToExperts(g.routing, 0, x, g.numRanks)
  {
    if n > 0 {
      var y := x - g.numLocal;
      assert y == (n - 1) * g.numLocal;
      ReceivedByExpert(g, n - 1, y);
      ExpectedLength(g, n - 1, y);
      ToExpertsConcat(g.routing, 0, y, g.numLocal, g.numRanks);
    }
  }

  lemma {:induction false} OneMoreSource(routing: seq<Routing>, k: nat, n: nat)
    requires 0 < n <= |routing|
    ensures ToExperts(routing, 0, k, n) == ToExperts(routing, 0, k, n - 1) + SumInts(Counts(routing[n - 1], k))
  {
    if k > 0 {
      OneMoreSource(routing, k - 1, n);
    }
  }

  lemma {:induction false} SentByExpert(routing: seq<Routing>, numExperts: nat, n: nat)
    requires n <= |routing| && forall r :: 0 <= r < |routing| ==> EntriesBelow(routing[r], numExperts)
    ensures ToExperts(routing, 0, numExperts, n) == TotalSent(routing, n)
  {
    if n == 0 {
      NoSources(routing, numExperts);
    } else {
      SentByExpert(routing, numExperts, n - 1);
      OneMoreSource(routing, numExperts, n);
      CountsAddUp(routing[n - 1], numExperts);
    }
  }

  lemma {:induction false} NoSources(routing: seq<Routing>, k: nat)
    ensures ToExperts(routing, 0, k, 0) == 0
  {
    if k > 0 {
      NoSources(routing, k - 1);
    }
  }

  /** Rows received over all ranks equal slots sent over all ranks. */
  lemma RowsAreConserved(g: Group)
    requires g.Valid()
    ensures TotalReceived(g, g.numRanks) == TotalSent(g.routing, g.numRanks)
  {
    ReceivedByExpert(g, g.numRanks, g.NumExperts());
    SentByExpert(g.routing, g.NumExperts(), g.numRanks);
  }

  // ---- the totals that a rank announces ----

  lemma {:induction false} MaxTokensIs(entries: seq<Entry>)
    ensures MaxTokens(entries) >= 0 && forall k :: 0 <= k < |entries| ==> entries[k].tokens <= MaxTokens(entries)
    ensures MaxTokens(entries) == 0 || exists k :: 0 <= k < |entries| && entries[k].tokens == MaxTokens(entries)
  {
    if entries != [] {
      var front := entries[..|entries| - 1];
      MaxTokensIs(front);
      assert forall k :: 0 <= k < |front| ==> entries[k] == front[k];
    }
  }

  lemma TokensReceived(g: Group, d: nat, src: nat)
    requires g.Valid() && src < g.numRanks
    ensures g.tokens[src] <= MaxTokens(Flatten(EntryRows(g, d)))
  {
    var entries := Flatten(EntryRows(g, d));
    BlockAt(g, d, 0, src);
    MaxTokensIs(entries);
    var k := 0 * g.numRanks + src;
    assert entries[k] == EntryFor(g, d, 0, src);
  }

  lemma TokensFrom(g: Group, d: nat, k: nat)
    requires g.Valid() && k < |Flatten(EntryRows(g, d))|
    ensures Flatten(EntryRows(g, d))[k].tokens in g.tokens
  {
    GridLength(EntryRows(g, d), g.numRanks);
    var _, src := BlockIndex(g, d, k);
    assert g.tokens[src] in g.tokens;
  }

  /** The largest number of tokens a rank has is what every rank computes. */
  lemma AnnouncedTokens(g: Group, d: nat)
    requires g.Valid()
    ensures MaxTokens(Flatten(EntryRows(g, d))) in g.tokens
    ensures forall n :: n in g.tokens ==> n <= MaxTokens(Flatten(EntryRows(g, d)))
  {
    var entries := Flatten(EntryRows(g, d));
    forall n | n in g.tokens
      ensures n <= MaxTokens(entries)
    {
      var src: nat :| src < g.numRanks && g.tokens[src] == n;
      TokensReceived(g, d, src);
    }
    MaxTokensIs(entries);
    if MaxTokens(entries) == 0 {
      TokensReceived(g, d, 0);
      assert g.tokens[0] == 0 && g.tokens[0] in g.tokens;
    } else {
      var k: nat :| k < |entries| && entries[k].tokens == MaxTokens(entries);
      TokensFrom(g, d, k);
    }
  }

  lemma {:induction false} RowTotal(routing: seq<Routing>, expert: nat, row: seq<Entry>, n: nat)
    requires n <= |row| == |routing| && forall src :: 0 <= src < |row| ==> row[src].count == Count(routing[src], expert)
    ensures SumCounts(row[..n]) == ToExpert(routing, expert, n)
  {
    if n > 0 {
      RowTotal(routing, expert, row, n - 1);
      assert row[..n] == row[..n - 1] + [row[n - 1]];
      SumAppend(row[..n - 1], row[n - 1]);
    }
  }

  lemma {:induction false} ExpertCountAt(rows: seq<seq<Entry>>, e: nat)
    requires e < |rows|
    ensures |ExpertCounts(rows)| == |rows| && ExpertCounts(rows)[e] == SumCounts(rows[e])
  {
    var front := rows[..|rows| - 1];
    if e < |front| {
      ExpertCountAt(front, e);
    } else if e > 0 {
      ExpertCountAt(front, e - 1);
    }
  }

  /** What a rank reports for a local expert is the number of slots that all ranks route to it. */
  lemma ReceivedPerExpert(g: Group, d: nat, e: nat, expert: nat)
    requires g.Valid() && e < g.numLocal && expert == d * g.numLocal + e
    ensures |ExpertCounts(EntryRows(g, d))| == g.numLocal
    ensures ExpertCounts(EntryRows(g, d))[e] == ToExpert(g.routing, expert, g.numRanks)
  {
    var row := EntryRows(g, d)[e];
    ExpertCountAt(EntryRows(g, d), e);
    RowTotal(g.routing, expert, row, g.numRanks);
    assert row[..g.numRanks] == row;
  }

  // ---- the stored table ----

  ghost predicate NonDecreasing(s: seq<int>) {
    forall k :: 0 < k < |s| ==> s[k - 1] <= s[k]
  }

  /** Wrapped int32 prefix sums are non-decreasing exactly when the total fits, and then they are exact. */
  lemma {:induction false} TableMonotoneIff(entries: seq<Entry>)
    requires forall k :: 0 <= k < |entries| ==> 0 <= entries[k].count <= INT32_MAX
    ensures NonDecreasing(Inclusive(entries)) <==> SumCounts(entries) <= INT32_MAX
    ensures SumCounts(entries) >= 0
    ensures SumCounts(entries) <= INT32_MAX && entries != []
            ==> Inclusive(entries)[|entries| - 1] == SumCounts(entries)
  {
    if entries != [] {
      var front, last := entries[..|entries| - 1], |entries| - 1;
      TableMonotoneIff(front);
      var sums, before := Inclusive(entries), Inclusive(front);
      assert 0 <= entries[last].count <= INT32_MAX;
      assert sums == before + [ToInt32(SumCounts(entries))];
      if SumCounts(front) > INT32_MAX {
        var k :| 0 < k < last && before[k - 1] > before[k];
        assert sums[k - 1] > sums[k];
      } else if SumCounts(entries) > INT32_MAX {
        WrapsNegative(SumCounts(entries));
        assert SumCounts(front) > 0;
        assert sums[last - 1] >= 0 > sums[last];
      } else {
        assert last > 0 ==> before[last - 1] == SumCounts(front);
      }
    }
  }

  lemma WrapsNegative(x: int)
    requires INT32_MAX < x <= 2 * INT32_MAX
    ensures ToInt32(x) < 0
  {
    assert ToInt32(x) == ToInt32(x - 0x1_0000_0000) == x - 0x1_0000_0000;
  }

  lemma {:induction false} SumConcat(a: seq<Entry>, b: seq<Entry>)
    ensures SumCounts(a + b) == SumCounts(a) + SumCounts(b)
  {
    if b == [] {
      assert a + b == a;
    } else {
      var front := b[..|b| - 1];
      SumConcat(a, front);
      assert a + b == (a + front) + [b[|b| - 1]];
      SumAppend(a + front, b[|b| - 1]);
    }
  }

  /** The count of an expert is the difference of the prefix sums at the ends of its row. */
  lemma {:induction false} ExpertCountIsDifference(rows: seq<seq<Entry>>, e: nat)
    requires e < |rows|
    ensures |ExpertCounts(rows)| == |rows|
    ensures ExpertCounts(rows)[e] == SumCounts(Flatten(rows[..e + 1])) - SumCounts(Flatten(rows[..e]))
  {
    var front := rows[..|rows| - 1];
    FlattenStep(rows, e);
    SumConcat(Flatten(rows[..e]), rows[e]);
    if e < |front| {
      ExpertCountIsDifference(front, e);
      assert front[..e] == rows[..e] && front[..e + 1] == rows[..e + 1];
    } else if e > 0 {
      ExpertCountIsDifference(front, e - 1);
    }
  }
}
