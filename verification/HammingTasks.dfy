/**
 The split of HammingDistTopK over the cores: every core strides through task numbers in 32-bit arithmetic, each
 task is a (batch, head) pair, and each pair writes its own range of the output.
 */
module HammingTasks {
  import opened Collections
  import opened HammingTiling

  function UsedCores(totalTask: nat, coreNum: nat): nat {
    var used := if totalTask < coreNum then totalTask else coreNum;
    if used == 0 then 1 else used
  }

  function TasksPerCore(totalTask: nat, used: nat): nat
    requires used > 0
  {
    U32(totalTask + used - 1) / used
  }

  // ---- the loop over tasks ----

  /** The tasks the loop runs in its first rounds from this task number on; the next number wraps at 2^32. */
  function Visited(first: nat, used: nat, total: nat, rounds: nat): seq<nat>
    decreases rounds
  {
    if rounds == 0 || first >= total then [] else [first] + Visited(U32(first + used), used, total, rounds - 1)
  }

  /** The task number after these rounds; the loop is over once it has reached the total. */
  function NumberAfter(first: nat, used: nat, total: nat, rounds: nat): nat
    decreases rounds
  {
    if rounds == 0 || first >= total then first else NumberAfter(U32(first + used), used, total, rounds - 1)
  }

  function PairOf(t: nat, head: nat): (nat, nat)
    requires head > 0
  {
    (t / head, t % head)
  }

  /** The pairs of a list of tasks. */
  function PairsOf(tasks: seq<nat>, head: nat): seq<(nat, nat)>
    requires head > 0 || tasks == []
  {
    if tasks == [] then [] else PairsOf(tasks[..|tasks| - 1], head) + [PairOf(tasks[|tasks| - 1], head)]
  }

  lemma PairsStep(tasks: seq<nat>, t: nat, head: nat)
    requires head > 0
    ensures PairsOf(tasks + [t], head) == PairsOf(tasks, head) + [PairOf(t, head)]
  {
    assert (tasks + [t])[..|tasks|] == tasks;
  }

  /** The first rounds of the loop of a core, and whether it is over by then. */
  method RunTasks(core: nat, used: nat, total: nat, head: nat, rounds: nat)
    returns (pairs: seq<(nat, nat)>, over: bool)
    requires head > 0 || total == 0
    ensures pairs == PairsOf(Visited(core, used, total, rounds), head)
    ensures over <==> NumberAfter(core, used, total, rounds) >= total
  {
    pairs := [];
    var taskId: nat, left: nat := core, rounds;
    ghost var all, done: seq<nat> := Visited(core, used, total, rounds), [];
    assert [] + all == all;
    while taskId < total && left > 0
      invariant all == done + Visited(taskId, used, total, left)
      invariant (head > 0 || done == []) && pairs == PairsOf(done, head)
      invariant NumberAfter(core, used, total, rounds) == NumberAfter(taskId, used, total, left)
      decreases left
    {
      pairs := pairs + [PairOf(taskId, head)];
      PairsStep(done, taskId, head);
      ghost var rest := Visited(U32(taskId + used), used, total, left - 1);
      Associate(done, taskId, rest);
      done := done + [taskId];
      taskId, left := U32(taskId + used), left - 1;
    }
    assert done + [] == done;
    over := taskId >= total;
  }

  lemma Associate(done: seq<nat>, t: nat, rest: seq<nat>)
    ensures done + ([t] + rest) == (done + [t]) + rest
  {
  }

  lemma NoHeadNoTasks(batch: nat, head: nat)
    ensures head > 0 || U32(batch * head) == 0
  {
    if head == 0 {
      assert batch * head == 0;
    }
  }

  /** Process, observed for some rounds of its loop. */
  method Process(core: nat, used: nat, batch: nat, head: nat, rounds: nat)
    returns (pairs: seq<(nat, nat)>, over: bool)
    ensures head > 0 || U32(batch * head) == 0
    ensures pairs == PairsOf(Visited(core, used, U32(batch * head), rounds), head)
    ensures over <==> NumberAfter(core, used, U32(batch * head), rounds) >= U32(batch * head)
  {
    NoHeadNoTasks(batch, head);
    var totalTask := U32(batch * head);
    pairs, over := RunTasks(core, used, totalTask, head, rounds);
  }

  // ---- one loop ----

  lemma NextMultiple(i: nat, n: nat)
    requires i > 0
    ensures i * n == (i - 1) * n + n && (i - 1) * n >= 0
  {
  }

  /** Until a number would pass the total, the loop strides without wrapping. */
  lemma {:induction false} StridesTo(first: nat, used: nat, total: nat, rounds: nat, i: nat)
    requires total < 0x1_0000_0000 && first + i * used < total && NumberAfter(first, used, total, rounds) >= total
    ensures i < |Visited(first, used, total, rounds)| && Visited(first, used, total, rounds)[i] == first + i * used
    decreases i
  {
    if i > 0 {
      NextMultiple(i, used);
      StridesTo(first + used, used, total, rounds - 1, i - 1);
    }
  }

  /** A task that is not the last is followed by its successor. */
  lemma {:induction false} ThenNext(first: nat, used: nat, total: nat, rounds: nat, i: nat)
    requires i < |Visited(first, used, total, rounds)| && NumberAfter(first, used, total, rounds) >= total
    requires U32(Visited(first, used, total, rounds)[i] + used) < total
    ensures i + 1 < |Visited(first, used, total, rounds)|
    ensures Visited(first, used, total, rounds)[i + 1] == U32(Visited(first, used, total, rounds)[i] + used)
    decreases i
  {
    if i > 0 {
      ThenNext(U32(first + used), used, total, rounds - 1, i - 1);
    }
  }

  /** With room for a stride above the total nothing ever wraps. */
  lemma {:induction false} VisitedAt(first: nat, used: nat, total: nat, rounds: nat, i: nat)
    requires total + used <= 0x1_0000_0000 && i < |Visited(first, used, total, rounds)|
    ensures Visited(first, used, total, rounds)[i] == first + i * used < total
    decreases i
  {
    if i > 0 {
      VisitedAt(first + used, used, total, rounds - 1, i - 1);
      NextMultiple(i, used);
    }
  }

  lemma {:induction false} Ends(first: nat, used: nat, total: nat, rounds: nat)
    requires total + used <= 0x1_0000_0000 && used > 0 && first + rounds >= total
    ensures NumberAfter(first, used, total, rounds) >= total
    decreases rounds
  {
    if rounds > 0 && first < total {
      Ends(first + used, used, total, rounds - 1);
    }
  }

  // ---- all cores ----

  ghost predicate Visits(used: nat, total: nat, rounds: nat, core: nat, i: nat, t: nat) {
    core < used && i < |Visited(core, used, total, rounds)| && Visited(core, used, total, rounds)[i] == t
  }

  /** Task t is run in one round of one core, and in no other. */
  ghost predicate RunOnce(used: nat, total: nat, rounds: nat, t: nat) {
    && (exists core: nat, i: nat :: Visits(used, total, rounds, core, i, t))
    && forall core: nat, i: nat, core': nat, i': nat ::
         Visits(used, total, rounds, core, i, t) && Visits(used, total, rounds, core', i', t)
         ==> core == core' && i == i'
  }

  ghost predicate AllOver(used: nat, total: nat, rounds: nat) {
    forall core: nat :: core < used ==> NumberAfter(core, used, total, rounds) >= total
  }

  lemma VisitOf(used: nat, total: nat, rounds: nat, core: nat, i: nat, t: nat)
    requires core < used && core + i * used == t < total < 0x1_0000_0000 && AllOver(used, total, rounds)
    ensures Visits(used, total, rounds, core, i, t)
  {
    StridesTo(core, used, total, rounds, i);
  }

  /** A task number is a core and a round. */
  lemma Decompose(t: nat, used: nat) returns (core: nat, i: nat)
    requires used > 0
    ensures core < used && core + i * used == t
  {
    core, i := t % used, t / used;
    QuotientBounds(t, used);
  }

  /** The core of a task's remainder runs it, in the round of its quotient. */
  lemma SomeVisit(used: nat, total: nat, rounds: nat, t: nat) returns (core: nat, i: nat)
    requires 0 < used && t < total < 0x1_0000_0000 && AllOver(used, total, rounds)
    ensures Visits(used, total, rounds, core, i, t) && core < used && core + i * used == t
  {
    core, i := Decompose(t, used);
    VisitOf(used, total, rounds, core, i, t);
  }

  lemma NoOtherVisit(used: nat, total: nat, rounds: nat, core: nat, i: nat, t: nat)
    requires 0 < used && total + used <= 0x1_0000_0000 && Visits(used, total, rounds, core, i, t)
    ensures core == t % used && i == t / used
  {
    VisitedAt(core, used, total, rounds, i);
    QuotientIs(t, used, i);
  }

  lemma VisitAfter(used: nat, total: nat, rounds: nat, core: nat, i: nat, t: nat, next: nat)
    requires AllOver(used, total, rounds) && Visits(used, total, rounds, core, i, t)
    requires next == U32(t + used) < total
    ensures Visits(used, total, rounds, core, i + 1, next)
  {
    ThenNext(core, used, total, rounds, i);
  }

  lemma TwoVisits(used: nat, total: nat, rounds: nat, t: nat, core: nat, i: nat, core': nat, i': nat)
    requires Visits(used, total, rounds, core, i, t) && Visits(used, total, rounds, core', i', t) && i != i'
    ensures !RunOnce(used, total, rounds, t)
  {
  }

  /** When the last stride wraps, the loop of the last task goes on with a task that is also run elsewhere. */
  lemma WrappedTwice(used: nat, total: nat, rounds: nat)
    requires 0 < used < 0x1_0000_0000 && total < 0x1_0000_0000 < total + used && AllOver(used, total, rounds)
    ensures exists t: nat :: t < total && !RunOnce(used, total, rounds, t)
  {
    var last: nat, t: nat := total - 1, total - 1 + used - 0x1_0000_0000;
    var core, i := SomeVisit(used, total, rounds, last);
    var core', i' := SomeVisit(used, total, rounds, t);
    VisitAfter(used, total, rounds, core, i, last, t);
    assert i' != i + 1 by { NextMultiple(i + 1, used); }
    TwoVisits(used, total, rounds, t, core, i + 1, core', i');
  }

  /** The loops of all cores end, and run every task exactly once, if and only if one more stride fits above the
      number of tasks. */
  lemma AllRunOnceIff(used: nat, total: nat)
    requires 0 < used < 0x1_0000_0000 && total < 0x1_0000_0000
    ensures (exists rounds: nat :: AllOver(used, total, rounds)
                                   && forall t: nat :: t < total ==> RunOnce(used, total, rounds, t))
            <==> total + used <= 0x1_0000_0000
  {
    if total + used <= 0x1_0000_0000 {
      forall core: nat | core < used
        ensures NumberAfter(core, used, total, total) >= total
      {
        Ends(core, used, total, total);
      }
      assert AllOver(used, total, total);
      forall t: nat | t < total
        ensures RunOnce(used, total, total, t)
      {
        RunsOnce(used, total, total, t);
      }
    } else {
      forall rounds: nat | AllOver(used, total, rounds)
        ensures exists t: nat :: t < total && !RunOnce(used, total, rounds, t)
      {
        WrappedTwice(used, total, rounds);
      }
    }
  }

  lemma RunsOnce(used: nat, total: nat, rounds: nat, t: nat)
    requires 0 < used && total + used <= 0x1_0000_0000 && t < total && AllOver(used, total, rounds)
    ensures RunOnce(used, total, rounds, t)
  {
    var _, _ := SomeVisit(used, total, rounds, t);
    forall core: nat, i: nat | Visits(used, total, rounds, core, i, t)
      ensures core == t % used && i == t / used
    {
      NoOtherVisit(used, total, rounds, core, i, t);
    }
  }

  /** No core runs more tasks than the host computed, in any number of rounds. */
  lemma TasksPerCoreBound(core: nat, used: nat, total: nat, rounds: nat)
    requires core < used && total + used <= 0x1_0000_0000
    ensures |Visited(core, used, total, rounds)| <= TasksPerCore(total, used)
  {
    var n := |Visited(core, used, total, rounds)|;
    AtMostQuotient(total + used - 1, used, 0);
    if n > 0 {
      VisitedAt(core, used, total, rounds, n - 1);
      NextMultiple(n, used);
      AtMostQuotient(total + used - 1, used, n);
    }
  }

  /** The bound is met: when its loop is over, the first core has run that many tasks. */
  lemma TasksPerCoreMet(used: nat, total: nat, rounds: nat)
    requires 0 < used && total + used <= 0x1_0000_0000 && NumberAfter(0, used, total, rounds) >= total
    ensures |Visited(0, used, total, rounds)| == TasksPerCore(total, used)
  {
    var n := TasksPerCore(total, used);
    TasksPerCoreBound(0, used, total, rounds);
    QuotientBounds(total + used - 1, used);
    AtMostQuotient(total + used - 1, used, 0);
    if n > 0 {
      assert n * used == (n - 1) * used + used;
      NextMultiple(n, used);
      StridesTo(0, used, total, rounds, n - 1);
    }
  }

  /** Every core the host starts has a task, when there is one, and it starts as many as it can: all cores, or one for
      each task. Without tasks, or without cores, it starts one. */
  lemma UsedCoresHaveTasks(total: nat, coreNum: nat, core: nat, rounds: nat)
    requires core < UsedCores(total, coreNum) && rounds > 0
    ensures total > 0 ==> core in Visited(core, UsedCores(total, coreNum), total, rounds)
    ensures total > 0 && coreNum > 0 ==>
              var used := UsedCores(total, coreNum);
              used <= coreNum && used <= total && (used == coreNum || used == total)
    ensures total == 0 || coreNum == 0 ==> UsedCores(total, coreNum) == 1
  {
  }

  // ---- pairs ----

  lemma PairIs(q: nat, b: nat, h: nat, head: nat)
    requires h < head
    ensures 0 <= b * head + h && (PairOf(q, head) == (b, h) <==> q == b * head + h)
  {
    QuotientBounds(q, head);
    QuotientIs(b * head + h, head, b);
  }

  ghost predicate VisitsPair(head: nat, used: nat, total: nat, rounds: nat, core: nat, i: nat, b: nat, h: nat)
    requires head > 0
  {
    && core < used && i < |Visited(core, used, total, rounds)|
    && PairOf(Visited(core, used, total, rounds)[i], head) == (b, h)
  }

  /** Pair (b, h) is processed in one round of one core, and in no other. */
  ghost predicate ProcessedOnce(head: nat, used: nat, total: nat, rounds: nat, b: nat, h: nat)
    requires head > 0
  {
    && (exists core: nat, i: nat :: VisitsPair(head, used, total, rounds, core, i, b, h))
    && forall core: nat, i: nat, core': nat, i': nat ::
         VisitsPair(head, used, total, rounds, core, i, b, h) && VisitsPair(head, used, total, rounds, core', i', b, h)
         ==> core == core' && i == i'
  }

  lemma SameVisits(head: nat, used: nat, total: nat, rounds: nat, b: nat, h: nat, t: nat)
    requires h < head && t == b * head + h
    ensures ProcessedOnce(head, used, total, rounds, b, h) <==> RunOnce(used, total, rounds, t)
  {
    forall core: nat, i: nat
      ensures VisitsPair(head, used, total, rounds, core, i, b, h) <==> Visits(used, total, rounds, core, i, t)
    {
      if core < used && i < |Visited(core, used, total, rounds)| {
        PairIs(Visited(core, used, total, rounds)[i], b, h, head);
      }
    }
  }

  /** All loops are over and every pair has been processed exactly once. */
  ghost predicate Complete(batch: nat, head: nat, used: nat, rounds: nat)
    requires head > 0
  {
    && AllOver(used, U32(batch * head), rounds)
    && forall b: nat, h: nat :: b < batch && h < head ==> ProcessedOnce(head, used, U32(batch * head), rounds, b, h)
  }

  lemma {:induction false} VisitedBelow(first: nat, used: nat, total: nat, rounds: nat, i: nat)
    requires i < |Visited(first, used, total, rounds)|
    ensures Visited(first, used, total, rounds)[i] < total
    decreases i
  {
    if i > 0 {
      VisitedBelow(U32(first + used), used, total, rounds - 1, i - 1);
    }
  }

  /** When the number of pairs wraps, the pair of the wrapped number is never processed. */
  lemma WrappedCount(batch: nat, head: nat, used: nat, rounds: nat)
    requires head > 0 && batch * head >= 0x1_0000_0000
    ensures !Complete(batch, head, used, rounds)
  {
    var total := U32(batch * head);
    var b, h := Divide(total, batch, head);
    if ProcessedOnce(head, used, total, rounds, b, h) {
      var core: nat, i: nat :| VisitsPair(head, used, total, rounds, core, i, b, h);
      VisitedBelow(core, used, total, rounds, i);
      PairIs(Visited(core, used, total, rounds)[i], b, h, head);
    }
  }

  lemma CompleteIs(batch: nat, head: nat, used: nat, rounds: nat, total: nat)
    requires head > 0 && total == batch * head < 0x1_0000_0000
    ensures Complete(batch, head, used, rounds)
            <==> AllOver(used, total, rounds) && forall t: nat :: t < total ==> RunOnce(used, total, rounds, t)
  {
    if Complete(batch, head, used, rounds) {
      forall t: nat | t < total
        ensures RunOnce(used, total, rounds, t)
      {
        var b, h := Divide(t, batch, head);
        SameVisits(head, used, total, rounds, b, h, t);
      }
    }
    if AllOver(used, total, rounds) && forall t: nat :: t < total ==> RunOnce(used, total, rounds, t) {
      forall b: nat, h: nat | b < batch && h < head
        ensures ProcessedOnce(head, used, total, rounds, b, h)
      {
        IndexInGrid(b, h, batch, head);
        SameVisits(head, used, total, rounds, b, h, b * head + h);
      }
    }
  }

  /** The cores together process every (batch, head) pair exactly once, and all stop, if and only if the number of
      pairs and one more stride fit in 32 bits. */
  lemma CompleteIff(batch: nat, head: nat, used: nat)
    requires head > 0 && 0 < used < 0x1_0000_0000
    ensures (exists rounds: nat :: Complete(batch, head, used, rounds)) <==> batch * head + used <= 0x1_0000_0000
  {
    if batch * head < 0x1_0000_0000 {
      forall rounds: nat
        ensures Complete(batch, head, used, rounds)
                <==> AllOver(used, batch * head, rounds)
                     && forall t: nat :: t < batch * head ==> RunOnce(used, batch * head, rounds, t)
      {
        CompleteIs(batch, head, used, rounds, batch * head);
      }
      AllRunOnceIff(used, batch * head);
    } else {
      forall rounds: nat
        ensures !Complete(batch, head, used, rounds)
      {
        WrappedCount(batch, head, used, rounds);
      }
    }
  }

  // ---- write-back ----

  /** Pair (b, h) writes output position x. */
  ghost predicate Writes(head: nat, outLen: nat, b: nat, h: nat, x: nat) {
    (b * head + h) * outLen <= x < (b * head + h) * outLen + outLen
  }

  /** The write-back ranges of the pairs are disjoint and cover exactly an output of shape
      [batch, head, outLen]: position x is written by the pair of row x / outLen, which is one of the pairs, and by no
      other. */
  lemma WrittenOnce(batch: nat, head: nat, outLen: nat, x: nat, b: nat, h: nat)
    requires outLen > 0 && b < batch && h < head
    ensures Writes(head, outLen, b, h, x) ==> x < batch * head * outLen
    ensures x < batch * head * outLen ==> PairOf(x / outLen, head).0 < batch && PairOf(x / outLen, head).1 < head
    ensures x < batch * head * outLen ==> (Writes(head, outLen, b, h, x) <==> PairOf(x / outLen, head) == (b, h))
  {
    var t := b * head + h;
    IndexInGrid(b, h, batch, head);
    RangeEnds(t, batch * head, outLen);
    RangeOf(x, outLen, t);
    PairIs(x / outLen, b, h, head);
    if x < batch * head * outLen {
      RowIsPair(x, batch, head, outLen);
    }
  }

  lemma RowIsPair(x: nat, batch: nat, head: nat, outLen: nat)
    requires outLen > 0 && head > 0 && x < batch * head * outLen
    ensures PairOf(x / outLen, head).0 < batch && PairOf(x / outLen, head).1 < head
  {
    var row, _ := Divide(x, batch * head, outLen);
    QuotientIs(x, outLen, row);
    var b, h := Divide(row, batch, head);
    QuotientIs(row, head, b);
  }

  lemma RangeEnds(t: int, n: int, outLen: nat)
    requires t < n
    ensures t * outLen + outLen <= n * outLen
  {
    MulMono(t + 1, n, outLen);
    assert (t + 1) * outLen == t * outLen + outLen;
  }

  lemma RangeOf(x: nat, outLen: nat, t: int)
    requires outLen > 0
    ensures t * outLen <= x < t * outLen + outLen <==> x / outLen == t
  {
    QuotientBounds(x, outLen);
    if t * outLen <= x < t * outLen + outLen {
      QuotientIs(x, outLen, t);
    }
  }
}
