/**
 The states from which the allocator does not recover, each with the exact condition under which a call gets there:
 errors left pending, entries left in Python's table, stale handles, memory that nothing names any more.
 */
module ChunkFaults {
  import opened Collections
  import opened DisjointMaps
  import opened ChunkAllocator
  import opened ChunkRuns

  // ---- errors left pending ----

  /** A wake succeeds exactly when no error was pending and all its calls succeed. */
  lemma WakeReports(w: World, addr: Addr, entry: Entry, a: CreateAnswers)
    requires HaveCells(w.cells, entry.chunks)
    ensures var (w', ok) := AfterWake(w, addr, entry, a);
            w'.error == 0 && (ok <==> w.error == 0 && MapsWell(a, |entry.chunks|))
  {
    MapErrorIff(w, addr, entry.chunks, a);
  }

  /** No error was pending, and neither the chunks nor the range met one. */
  ghost predicate FreedQuietly(w: World, addr: Addr, n: nat, a: ReleaseAnswers, free: Status) {
    && w.error == 0 && a.context == 0
    && (forall i: nat :: i < n ==> a.unmap(i) == 0 && a.release(i) == 0)
    && a.free == 0 && a.reserve == 0 && a.newAddr == addr && free == 0
  }

  /** my_free leaves no error pending exactly when it met none. */
  lemma FreeReports(w: World, addr: Addr, size: nat, a: ReleaseAnswers, free: Status)
    requires addr in w.table && HaveCells(w.cells, w.table[addr].chunks)
    ensures AfterFree(w, addr, size, a, free).error == 0
            <==> FreedQuietly(w, addr, |w.table[addr].chunks|, a, free)
  {
    RejectedIff(|w.table[addr].chunks|, a);
  }

  /** So a wake after my_free succeeds exactly when my_free met no error, and the wake meets none. */
  lemma WakeAfterFreeIff(w: World, addr: Addr, size: nat, a: ReleaseAnswers, free: Status,
                         other: Addr, entry: Entry, b: CreateAnswers)
    requires addr in w.table && HaveCells(w.cells, w.table[addr].chunks)
    requires HaveCells(AfterFree(w, addr, size, a, free).cells, entry.chunks)
    ensures AfterWake(AfterFree(w, addr, size, a, free), other, entry, b).1
            <==> FreedQuietly(w, addr, |w.table[addr].chunks|, a, free) && MapsWell(b, |entry.chunks|)
  {
    FreeReports(w, addr, size, a, free);
    WakeReports(AfterFree(w, addr, size, a, free), other, entry, b);
  }

  /** Waking with an error pending never wakes, and leaks the first chunk unless its create fails. */
  lemma WakeWithPendingError(w: World, v: View, k: nat, a: CreateAnswers)
    requires Represents(w, v) && k < |v|
    requires Noted(w.error, a.context) != 0 && FreshHandles(w.driver, a, |v[k].chunks|)
    ensures HaveCells(w.cells, v[k].chunks)
    ensures var (w', ok) := AfterWake(w, v[k].addr, Entry(v[k].size, v[k].chunks), a);
            && !ok && w'.driver.maps == w.driver.maps
            && (w'.driver.handles == w.driver.handles <==> a.create(0) != 0)
            && (Represents(w', v) <==> a.create(0) != 0)
  {
    CellsPresent(w, v, k);
    assert GoodRec(v[k]);
    var w' := AfterWake(w, v[k].addr, Entry(v[k].size, v[k].chunks), a).0;
    if a.create(0) != 0 {
      WakeRefused(w, v, k, a);
    } else {
      assert a.handle(0) in w'.driver.handles;
      SameOwners(w, v, w');
    }
  }

  // ---- entries left in Python's table ----

  /** Every entry's address is reserved. */
  ghost predicate CleanTable(w: World) {
    forall x :: x in w.table ==> x in w.driver.reserved
  }

  /** my_malloc leaves an entry without a reservation exactly when it got as far as recording one, some call after that
      failed, and the range could be freed: the entry is not taken back. */
  lemma StaleEntryIff(w: World, size: nat, baseChunk: nat, a: MallocAnswers)
    requires baseChunk > 0 && (a.granularitySt == 0 ==> a.granularity > 0) && CleanTable(w)
    ensures !CleanTable(AfterMalloc(w, size, baseChunk, a).0)
            <==> && Admitted(w, a) && HostServes(a, |MallocChunks(size, baseChunk, a)|)
                 && !MapsWell(a.create, |MallocChunks(size, baseChunk, a)|) && a.free == 0
  {
    if Admitted(w, a) {
      var chunks := MallocChunks(size, baseChunk, a);
      if HostServes(a, |chunks|) {
        MallocIs(w, size, baseChunk, a);
        var reg := Registered(w, size, baseChunk, a);
        ReservedSame(reg, a.addr, chunks, a.create);
        MapErrorIff(reg, a.addr, chunks, a.create);
        assert a.addr in reg.table;
      } else {
        Unserved(w, size, baseChunk, a);
      }
    }
  }

  /** What a failure to set the access leaves of a request: null is returned and the range freed, but the chunks stay
      live and mapped in it. */
  lemma FailedAccess(w: World, v: View, size: nat, baseChunk: nat, a: MallocAnswers)
    requires Represents(w, v) && baseChunk > 0 && FreshAnswers(w, size, baseChunk, a)
    requires Admitted(w, a) && HostServes(a, |MallocChunks(size, baseChunk, a)|) && a.free == 0
    requires a.create.context == 0 && AllSucceed(a.create, |MallocChunks(size, baseChunk, a)|) && a.create.access != 0
    ensures var (w', ptr), r := AfterMalloc(w, size, baseChunk, a), Granted(size, baseChunk, a);
            && ptr == None && w'.driver.reserved == w.driver.reserved
            && w'.driver.handles == w.driver.handles + OwnHandles(r)
            && w'.driver.maps == w.driver.maps + OwnMaps(r)
  {
    var r := Granted(size, baseChunk, a);
    MallocChunksGood(size, baseChunk, a, w.cells);
    assert r.addr !in w.driver.reserved by {
      RoundUpBounds(size, a.granularity);
      NewAddress(w, v, r.addr, r.size);
    }
    MallocIs(w, size, baseChunk, a);
    AccessDenied(w.driver, Registered(w, size, baseChunk, a), r, a.create);
  }

  lemma AccessDenied(d: Driver, reg: World, r: Rec, a: CreateAnswers)
    requires GoodChunks(r.size, r.chunks) && r.awake && r.held == Given(a, |r.chunks|) && r.addr !in d.reserved
    requires reg.error == 0 && reg.driver == d.Reserve(0, r.addr, r.size) && HaveCells(reg.cells, r.chunks)
    requires a.context == 0 && AllSucceed(a, |r.chunks|) && a.access != 0
    ensures var after := AfterCreateAndMap(reg, r.addr, r.chunks, a);
            var d' := after.driver.AddressFree(0, r.addr);
            && after.error != 0 && d'.reserved == d.reserved
            && d'.handles == d.handles + OwnHandles(r) && d'.maps == d.maps + OwnMaps(r)
  {
    SuccessMapsAll(reg, r.addr, r.chunks, a);
    assert d.reserved[r.addr := r.size] - {r.addr} == d.reserved;
  }

  // ---- stale handles ----

  /** A stale handle that another allocation got, once released, is memory that allocation
      no longer has. */
  lemma StaleReleaseDestroys(w: World, v: View, k: nat, size: nat, a: ReleaseAnswers, free: Status,
                             i: nat, j: nat, m: nat)
    requires Represents(w, v) && k < |v| && j < |v| && !v[k].awake && v[j].awake
    requires i < |v[k].held| && m < |v[j].held| && v[k].held[i] == v[j].held[m] && a.release(i) == 0
    ensures v[k].addr in w.table && HaveCells(w.cells, w.table[v[k].addr].chunks)
    ensures v[j].held[m] in w.driver.handles
    ensures v[j].held[m] !in AfterFree(w, v[k].addr, size, a, free).driver.handles
  {
    var r := v[k];
    CellsPresent(w, v, k);
    FreeLeaves(w, r, size, a, free);
    ReleaseRemoves(UnmapLoop(w.driver, r.addr, r.chunks, a.unmap, |r.chunks|), w.cells, r.chunks, a.release,
                   |r.chunks|, i);
    assert GoodRec(v[j]);
    HandleKeys(v[j].chunks, v[j].held, |v[j].chunks|, v[j].held[m]);
    assert v[j].held[m] in HandleParts(v)[j];
    UnionHas(HandleParts(v), j, v[j].held[m]);
  }

  /** It is enough that the driver names the next request's first chunk as it named one of an allocation now asleep. */
  lemma ReissuedHandle(w: World, v: View, k: nat, i: nat, size: nat, baseChunk: nat, a: MallocAnswers)
    requires Represents(w, v) && k < |v| && !v[k].awake && i < |v[k].held|
    requires baseChunk > 0 && FreshAnswers(w, size, baseChunk, a) && Succeeds(w, size, baseChunk, a)
    requires a.create.handle(0) == v[k].held[i]
    ensures var w', v' := AfterMalloc(w, size, baseChunk, a).0, v + [Granted(size, baseChunk, a)];
            && Represents(w', v') && !v'[k].awake && v'[|v|].awake && |v'[|v|].held| > 0
            && v'[k].held[i] == v'[|v|].held[0]
  {
    MallocKeeps(w, v, size, baseChunk, a);
    MallocChunksGood(size, baseChunk, a, w.cells);
  }

  /** A request for one byte, with chunks of one byte, to which everything answers 0. */
  function Request(addr: Addr, box: Box, h: Handle): MallocAnswers {
    MallocAnswers(0, 0, 1, 0, addr, _ => 0, _ => box, Records,
                  CreateAnswers(0, _ => 0, _ => h, _ => 0, _ => 0, _ => 0, 0), 0)
  }

  /** What such answers are. */
  ghost predicate Plain(a: MallocAnswers, addr: Addr, box: Box, h: Handle) {
    && a.context == 0 && a.granularitySt == 0 && a.granularity == 1 && a.reserve == 0 && a.addr == addr
    && (forall i: nat :: a.cellSt(i) == 0) && (forall i: nat :: a.cell(i) == box) && a.callback == Records
    && a.create.context == 0 && a.create.access == 0
    && (forall i: nat :: a.create.create(i) == 0) && (forall i: nat :: a.create.handle(i) == h)
    && (forall i: nat :: a.create.map_(i) == 0) && UndoWorks(a.create)
  }

  lemma UnitSizes(x: nat, unit: nat)
    requires x == unit == 1
    ensures RoundUp(x, unit) == 1 && NumChunks(x, unit) == 1
  {
  }

  lemma UnitChunk(cell: nat -> Box)
    ensures ChunksUpTo(1, 1, cell, 1) == [Chunk(cell(0), 1)]
  {
    assert ChunksUpTo(1, 1, cell, 0) == [];
  }

  lemma RequestChunks(a: MallocAnswers, addr: Addr, box: Box, h: Handle)
    requires Plain(a, addr, box, h)
    ensures MallocChunks(1, 1, a) == [Chunk(box, 1)]
    ensures Granted(1, 1, a) == Rec(addr, 1, [Chunk(box, 1)], true, [h])
  {
    UnitSizes(1, a.granularity);
    UnitChunk(a.cell);
    UnitHeld(a.create);
  }

  lemma UnitHeld(a: CreateAnswers)
    ensures Given(a, 1) == [a.handle(0)]
  {
    assert Given(a, 0) == [];
  }

  lemma RequestFresh(w: World, a: MallocAnswers, addr: Addr, box: Box, h: Handle)
    requires Plain(a, addr, box, h) && w.error == 0
    requires FreeRange(w.driver, addr, 1) && box !in w.cells && h !in w.driver.handles
    ensures FreshAnswers(w, 1, 1, a) && Succeeds(w, 1, 1, a)
  {
    RequestChunks(a, addr, box, h);
    assert RoundUp(1, 1) == 1;
  }

  /** Some run leads from the start to this state. */
  ghost predicate Reachable(s: State) {
    exists events :: AllowedRun(Initial(), events) && RunOf(Initial(), events) == s
  }

  lemma RunStep(s: State, e: Event, rest: seq<Event>)
    requires Represents(s.w, s.v) && Allowed(s, e) && AllowedRun(Next(s, e), rest)
    ensures AllowedRun(s, [e] + rest) && RunOf(s, [e] + rest) == RunOf(Next(s, e), rest)
  {
    assert ([e] + rest)[1..] == rest;
  }

  lemma HeadAndLast<T>(s: seq<T>, x: T)
    ensures s + [x] == if s == [] then [x] + [] else [s[0]] + (s[1..] + [x])
  {
  }

  /** One more event at the end of a run to s'. */
  lemma {:induction false} RunExtends(s: State, events: seq<Event>, s': State, e: Event)
    requires Represents(s.w, s.v) && AllowedRun(s, events) && RunOf(s, events) == s'
    requires Represents(s'.w, s'.v) && Allowed(s', e)
    ensures AllowedRun(s, events + [e]) && RunOf(s, events + [e]) == Next(s', e)
    decreases |events|
  {
    HeadAndLast(events, e);
    if events == [] {
      RunStep(s, e, []);
    } else {
      RunExtends(Next(s, events[0]), events[1..], s', e);
      RunStep(s, events[0], events[1..] + [e]);
    }
  }

  lemma StepReaches(s: State, e: Event)
    requires Reachable(s) && Represents(s.w, s.v) && Allowed(s, e)
    ensures Reachable(Next(s, e))
  {
    var events :| AllowedRun(Initial(), events) && RunOf(Initial(), events) == s;
    RunExtends(Initial(), events, s, e);
  }

  /** Such a request with new names is allowed and granted. */
  lemma RequestReaches(s: State, a: MallocAnswers, addr: Addr, box: Box, h: Handle) returns (s': State)
    requires Reachable(s) && Represents(s.w, s.v) && s.w.error == 0 && Plain(a, addr, box, h)
    requires FreeRange(s.w.driver, addr, 1) && box !in s.w.cells && h !in s.w.driver.handles
    ensures Reachable(s') && Represents(s'.w, s'.v) && s'.w.error == 0
    ensures s'.v == s.v + [Rec(addr, 1, [Chunk(box, 1)], true, [h])]
  {
    RequestFresh(s.w, a, addr, box, h);
    RequestChunks(a, addr, box, h);
    MallocKeeps(s.w, s.v, 1, 1, a);
    StepReaches(s, EMalloc(1, 1, a));
    s' := Next(s, EMalloc(1, 1, a));
  }

  /** Putting an awake allocation to sleep when everything answers 0 and the range comes back. */
  lemma SleepReaches(s: State, k: nat, a: ReleaseAnswers) returns (s': State)
    requires Reachable(s) && Represents(s.w, s.v) && s.w.error == 0 && k < |s.v| && s.v[k].awake
    requires ReleaseWorks(a) && a.context == 0 && a.free == 0 && a.reserve == 0 && a.newAddr == s.v[k].addr
    ensures Reachable(s') && Represents(s'.w, s'.v) && s'.w.error == 0
    ensures s'.v == s.v[k := s.v[k].(awake := false)]
  {
    StepReaches(s, ESleep(k, a));
    s' := Next(s, ESleep(k, a));
  }

  lemma OneAsleep(w: World, r: Rec)
    requires Represents(w, [r]) && r == Rec(10, 1, [Chunk(100, 1)], false, [1])
    ensures w.driver.reserved == map[10 := 1] && w.driver.handles == map[] && w.cells.Keys == {100}
  {
    var v := [r];
    UnionOne(OwnReserved(r));
    UnionOne(OwnHandles(r));
    UnionOne(OwnCells(r));
    assert ReservedParts(v) == [OwnReserved(r)] && HandleParts(v) == [OwnHandles(r)] && CellParts(v) == [OwnCells(r)];
    CellMapKeys(r.chunks, r.held);
  }

  /** The states of StaleReleaseDestroys are reached from the start: the driver gives a second allocation the handle
      value that it released when the first one fell asleep. */
  lemma StaleReached() returns (s: State)
    ensures Reachable(s) && Represents(s.w, s.v)
    ensures |s.v| == 2 && !s.v[0].awake && s.v[1].awake && s.v[0].held == s.v[1].held == [1]
  {
    s := OneReached();
    OneAsleep(s.w, s.v[0]);
    s := RequestReaches(s, Request(20, 200, 1), 20, 200, 1);
  }

  lemma OneReached() returns (s: State)
    ensures Reachable(s) && Represents(s.w, s.v) && s.w.error == 0
    ensures s.v == [Rec(10, 1, [Chunk(100, 1)], false, [1])]
  {
    s := FirstReached();
    s := SleepReaches(s, 0, ReleaseAnswers(0, _ => 0, _ => 0, 0, 0, 10, 0));
  }

  lemma FirstReached() returns (s: State)
    ensures Reachable(s) && Represents(s.w, s.v) && s.w.error == 0
    ensures s.v == [Rec(10, 1, [Chunk(100, 1)], true, [1])]
  {
    s := Initial();
    assert Reachable(s) by {
      assert AllowedRun(Initial(), []) && RunOf(Initial(), []) == s;
    }
    s := RequestReaches(s, Request(10, 100, 1), 10, 100, 1);
  }

  // ---- memory that nothing names ----

  /** A handle that no cell of these chunks names is not released. */
  lemma {:induction false} UnnamedStays(d: Driver, cells: map<Box, Handle>, chunks: seq<Chunk>, st: nat -> Status,
                                        k: nat, h: Handle)
    requires k <= |chunks| && HaveCells(cells, chunks) && h in d.handles
    requires forall j :: 0 <= j < k ==> cells[chunks[j].box] != h
    ensures h in ReleaseLoop(d, cells, chunks, st, k).handles
  {
    if k > 0 {
      UnnamedStays(d, cells, chunks, st, k - 1, h);
    }
  }

  /** unmap_and_release of an allocation does not release a handle that its cells do not name. */
  lemma StrippedKeeps(w: World, addr: Addr, chunks: seq<Chunk>, b: ReleaseAnswers, h: Handle)
    requires HaveCells(w.cells, chunks) && h in w.driver.handles
    requires forall j :: 0 <= j < |chunks| ==> w.cells[chunks[j].box] != h
    ensures h in Stripped(w, addr, chunks, b).handles
  {
    UnmapKeepsRest(w.driver, addr, chunks, b.unmap, |chunks|);
    UnnamedStays(UnmapLoop(w.driver, addr, chunks, b.unmap, |chunks|), w.cells, chunks, b.release, |chunks|, h);
  }

  /** After an awake allocation was woken again, the memory of each chunk whose new handle overwrote the old one cannot
      be given back: neither putting the allocation to sleep nor freeing it ends the life of the old handle, whatever
      the driver answers. */
  lemma LostMemoryStays(w: World, v: View, k: nat, a: CreateAnswers, i: nat, b: ReleaseAnswers, size: nat, free: Status)
    requires Represents(w, v) && k < |v| && v[k].awake
    requires Noted(w.error, a.context) == 0 && UndoWorks(a) && FreshHandles(w.driver, a, |v[k].chunks|)
    requires a.map_(0) != 0 && i < FirstFail(a.create, |v[k].chunks|)
    ensures i < |v[k].held| && HaveCells(w.cells, v[k].chunks)
    ensures var w' := AfterWake(w, v[k].addr, Entry(v[k].size, v[k].chunks), a).0;
            && HaveCells(w'.cells, v[k].chunks)
            && v[k].addr in w'.table && w'.table[v[k].addr] == Entry(v[k].size, v[k].chunks)
            && v[k].held[i] in AfterSleep(w', v[k].addr, Entry(v[k].size, v[k].chunks), b).0.driver.handles
            && v[k].held[i] in AfterFree(w', v[k].addr, size, b, free).driver.handles
  {
    var r := v[k];
    WakeAwakeIs(w, v, k, a);
    CellIsLive(w, v, k, i);
    assert GoodRec(r);
    var w' := AfterWake(w, r.addr, Entry(r.size, r.chunks), a).0;
    var popped := w'.(table := w'.table - {r.addr});
    StrippedKeeps(w', r.addr, r.chunks, b, r.held[i]);
    StrippedKeeps(popped, r.addr, r.chunks, b, r.held[i]);
    ReleaseIs(w', r.addr, r.size, r.chunks, b);
    ReleaseIs(popped, r.addr, size, r.chunks, b);
  }
}
