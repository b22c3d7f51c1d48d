/**
 What the allocator keeps over every run. A run is compared with a list of live allocations, each awake or
 asleep; the driver's state is always exactly the disjoint union of what the live allocations own.
 */
module ChunkRuns {
  import opened Collections
  import opened DisjointMaps
  import opened ChunkAllocator

  /** One live allocation; `held` is what its cells contain, live handles only while it is awake. */
  datatype Rec = Rec(addr: Addr, size: nat, chunks: seq<Chunk>, awake: bool, held: seq<Handle>)

  type View = seq<Rec>

  // ---- what an allocation owns ----

  /** The physical memory of the first k chunks. */
  function HandleMap(chunks: seq<Chunk>, held: seq<Handle>, k: nat): map<Handle, nat>
    requires k <= |chunks| == |held|
  {
    if k == 0 then map[] else HandleMap(chunks, held, k - 1)[held[k - 1] := chunks[k - 1].size]
  }

  /** The mappings of the first k chunks. */
  function StartMap(addr: Addr, chunks: seq<Chunk>, held: seq<Handle>, k: nat): map<Addr, Mapping>
    requires k <= |chunks| == |held|
  {
    if k == 0 then map[]
    else StartMap(addr, chunks, held, k - 1)[Start(addr, chunks, k - 1) := Mapping(chunks[k - 1].size, held[k - 1])]
  }

  /** The cells of the first k chunks. */
  function CellMap(chunks: seq<Chunk>, held: seq<Handle>, k: nat): map<Box, Handle>
    requires k <= |chunks| == |held|
  {
    if k == 0 then map[] else CellMap(chunks, held, k - 1)[chunks[k - 1].box := held[k - 1]]
  }

  function OwnHandles(r: Rec): map<Handle, nat>
    requires |r.chunks| == |r.held|
  {
    if r.awake then HandleMap(r.chunks, r.held, |r.chunks|) else map[]
  }

  function OwnMaps(r: Rec): map<Addr, Mapping>
    requires |r.chunks| == |r.held|
  {
    if r.awake then StartMap(r.addr, r.chunks, r.held, |r.chunks|) else map[]
  }

  function OwnCells(r: Rec): map<Box, Handle>
    requires |r.chunks| == |r.held|
  {
    CellMap(r.chunks, r.held, |r.chunks|)
  }

  function OwnReserved(r: Rec): map<Addr, nat> {
    map[r.addr := r.size]
  }

  ghost predicate Held(v: View) {
    forall i :: 0 <= i < |v| ==> |v[i].chunks| == |v[i].held|
  }

  function HandleParts(v: View): seq<map<Handle, nat>>
    requires Held(v)
  {
    seq(|v|, i requires 0 <= i < |v| => OwnHandles(v[i]))
  }

  function MapParts(v: View): seq<map<Addr, Mapping>>
    requires Held(v)
  {
    seq(|v|, i requires 0 <= i < |v| => OwnMaps(v[i]))
  }

  function CellParts(v: View): seq<map<Box, Handle>>
    requires Held(v)
  {
    seq(|v|, i requires 0 <= i < |v| => OwnCells(v[i]))
  }

  function ReservedParts(v: View): seq<map<Addr, nat>> {
    seq(|v|, i requires 0 <= i < |v| => OwnReserved(v[i]))
  }

  // ---- well-formed views ----

  ghost predicate DistinctBoxes(chunks: seq<Chunk>) {
    forall i, j :: 0 <= i < j < |chunks| ==> chunks[i].box != chunks[j].box
  }

  ghost predicate Distinct(held: seq<Handle>) {
    forall i, j :: 0 <= i < j < |held| ==> held[i] != held[j]
  }

  /** The chunks have distinct cells, are non-empty, and together have the size of the allocation. */
  ghost predicate GoodChunks(size: nat, chunks: seq<Chunk>) {
    && |chunks| > 0 && SizeSum(chunks) == size
    && (forall i :: 0 <= i < |chunks| ==> chunks[i].size > 0)
    && DistinctBoxes(chunks)
  }

  ghost predicate GoodRec(r: Rec) {
    GoodChunks(r.size, r.chunks) && |r.held| == |r.chunks| && (r.awake ==> Distinct(r.held))
  }

  ghost predicate Apart(a: Addr, n: nat, b: Addr, m: nat) {
    a + n <= b || b + m <= a
  }

  ghost predicate WellFormed(v: View) {
    && Held(v)
    && (forall i :: 0 <= i < |v| ==> GoodRec(v[i]))
    && (forall i, j :: 0 <= i < j < |v| ==> Apart(v[i].addr, v[i].size, v[j].addr, v[j].size))
    && Disjoint(HandleParts(v)) && Disjoint(CellParts(v))
  }

  /** The driver, the cells and Python's table are exactly what the live allocations account for. */
  ghost predicate Represents(w: World, v: View) {
    && WellFormed(v)
    && w.driver.reserved == Union(ReservedParts(v))
    && w.driver.handles == Union(HandleParts(v))
    && w.driver.maps == Union(MapParts(v))
    && w.cells == Union(CellParts(v))
    && forall i :: 0 <= i < |v| ==> v[i].addr in w.table && w.table[v[i].addr] == Entry(v[i].size, v[i].chunks)
  }

  // ---- the loops when every call succeeds ----

  function Contents(cells: map<Box, Handle>, chunks: seq<Chunk>): (held: seq<Handle>)
    requires HaveCells(cells, chunks)
    ensures |held| == |chunks|
  {
    seq(|chunks|, i requires 0 <= i < |chunks| => cells[chunks[i].box])
  }

  function Given(a: CreateAnswers, n: nat): (held: seq<Handle>)
    ensures |held| == n && forall i :: 0 <= i < n ==> held[i] == a.handle(i)
  {
    if n == 0 then [] else Given(a, n - 1) + [a.handle(n - 1)]
  }

  lemma AddUpdate<K, V>(m: map<K, V>, x: map<K, V>, k: K, v: V)
    ensures m + x[k := v] == (m + x)[k := v]
  {
  }

  lemma {:induction false} CreateLoopIs(d: Driver, chunks: seq<Chunk>, a: CreateAnswers, k: nat)
    requires k <= |chunks|
    ensures CreateLoop(d, chunks, a, k)
            == d.(handles := d.handles + HandleMap(chunks, Given(a, |chunks|), k))
  {
    if k > 0 {
      CreateLoopIs(d, chunks, a, k - 1);
      AddUpdate(d.handles, HandleMap(chunks, Given(a, |chunks|), k - 1), a.handle(k - 1), chunks[k - 1].size);
    } else {
      assert d.handles + map[] == d.handles;
    }
  }

  /** The cells of the created chunks hold the new handles. */
  lemma {:induction false} CellLoopHolds(cells: map<Box, Handle>, chunks: seq<Chunk>, a: CreateAnswers, k: nat, i: nat)
    requires i < k <= |chunks| && DistinctBoxes(chunks)
    ensures chunks[i].box in CellLoop(cells, chunks, a, k)
    ensures CellLoop(cells, chunks, a, k)[chunks[i].box] == a.handle(i)
  {
    if i < k - 1 {
      CellLoopHolds(cells, chunks, a, k - 1, i);
    }
  }

  /** Other cells are as before. */
  lemma {:induction false} CellLoopSame(cells: map<Box, Handle>, chunks: seq<Chunk>, a: CreateAnswers, k: nat, b: Box)
    requires k <= |chunks| && b in cells && b !in Boxes(chunks)
    ensures b in CellLoop(cells, chunks, a, k) && CellLoop(cells, chunks, a, k)[b] == cells[b]
  {
    if k > 0 {
      CellLoopSame(cells, chunks, a, k - 1, b);
      assert chunks[k - 1].box in Boxes(chunks);
    }
  }

  lemma CellLoopIs(cells: map<Box, Handle>, chunks: seq<Chunk>, a: CreateAnswers, k: nat)
    requires k <= |chunks| && HaveCells(cells, chunks) && DistinctBoxes(chunks)
    ensures CellLoop(cells, chunks, a, k).Keys == cells.Keys
    ensures forall i :: 0 <= i < k ==> CellLoop(cells, chunks, a, k)[chunks[i].box] == a.handle(i)
    ensures forall b :: b in cells && b !in Boxes(chunks) ==> CellLoop(cells, chunks, a, k)[b] == cells[b]
  {
    CellLoopKeeps(cells, chunks, a, k);
    forall i: nat | i < k
      ensures CellLoop(cells, chunks, a, k)[chunks[i].box] == a.handle(i)
    {
      CellLoopHolds(cells, chunks, a, k, i);
    }
    forall b | b in cells && b !in Boxes(chunks)
      ensures CellLoop(cells, chunks, a, k)[b] == cells[b]
    {
      CellLoopSame(cells, chunks, a, k, b);
    }
  }

  lemma {:induction false} MapLoopIs(d: Driver, cells: map<Box, Handle>, addr: Addr, chunks: seq<Chunk>,
                                     held: seq<Handle>, k: nat)
    requires k <= |chunks| == |held| && HaveCells(cells, chunks)
    requires forall i :: 0 <= i < k ==> cells[chunks[i].box] == held[i]
    ensures MapLoop(d, cells, addr, chunks, k) == d.(maps := d.maps + StartMap(addr, chunks, held, k))
  {
    if k > 0 {
      MapLoopIs(d, cells, addr, chunks, held, k - 1);
      AddUpdate(d.maps, StartMap(addr, chunks, held, k - 1), Start(addr, chunks, k - 1),
                Mapping(chunks[k - 1].size, held[k - 1]));
    } else {
      assert d.maps + map[] == d.maps;
    }
  }

  lemma {:induction false} UnmapLoopIs(d: Driver, addr: Addr, chunks: seq<Chunk>, held: seq<Handle>,
                                       st: nat -> Status, k: nat)
    requires k <= |chunks| == |held|
    requires forall i: nat :: i < k ==> st(i) == 0
    ensures UnmapLoop(d, addr, chunks, st, k) == d.(maps := d.maps - StartMap(addr, chunks, held, k).Keys)
  {
    if k > 0 {
      UnmapLoopIs(d, addr, chunks, held, st, k - 1);
      var before := StartMap(addr, chunks, held, k - 1).Keys;
      assert StartMap(addr, chunks, held, k).Keys == before + {Start(addr, chunks, k - 1)};
      assert d.maps - before - {Start(addr, chunks, k - 1)} == d.maps - (before + {Start(addr, chunks, k - 1)});
    } else {
      assert d.maps - {} == d.maps;
    }
  }

  lemma {:induction false} ReleaseLoopIs(d: Driver, cells: map<Box, Handle>, chunks: seq<Chunk>, held: seq<Handle>,
                                         st: nat -> Status, k: nat)
    requires k <= |chunks| == |held| && HaveCells(cells, chunks)
    requires forall i :: 0 <= i < k ==> cells[chunks[i].box] == held[i]
    requires forall i: nat :: i < k ==> st(i) == 0
    ensures ReleaseLoop(d, cells, chunks, st, k) == d.(handles := d.handles - HandleMap(chunks, held, k).Keys)
  {
    if k > 0 {
      ReleaseLoopIs(d, cells, chunks, held, st, k - 1);
      var before := HandleMap(chunks, held, k - 1).Keys;
      assert HandleMap(chunks, held, k).Keys == before + {held[k - 1]};
      assert d.handles - before - {held[k - 1]} == d.handles - (before + {held[k - 1]});
    } else {
      assert d.handles - {} == d.handles;
    }
  }

  lemma {:induction false} HandleKeys(chunks: seq<Chunk>, held: seq<Handle>, k: nat, h: Handle)
    requires k <= |chunks| == |held|
    ensures h in HandleMap(chunks, held, k) <==> exists i :: 0 <= i < k && held[i] == h
  {
    if k > 0 {
      HandleKeys(chunks, held, k - 1, h);
    }
  }

  // ---- all or nothing ----

  /** The handles the driver returns are new and distinct. */
  ghost predicate FreshHandles(d: Driver, a: CreateAnswers, n: nat) {
    && (forall i: nat :: i < n ==> a.handle(i) !in d.handles)
    && forall i: nat, j: nat :: i < j < n ==> a.handle(i) != a.handle(j)
  }

  /** Undoing a partial create_and_map works. */
  ghost predicate UndoWorks(a: CreateAnswers) {
    (forall i: nat :: a.undoUnmap(i) == 0) && forall i: nat :: a.undoRelease(i) == 0
  }

  /** Every create and every map call succeeds. */
  ghost predicate AllSucceed(a: CreateAnswers, n: nat) {
    (forall i: nat :: i < n ==> a.create(i) == 0) && forall i: nat :: i < n ==> a.map_(i) == 0
  }

  lemma AddRemove<K, V>(m: map<K, V>, x: map<K, V>)
    requires m.Keys !! x.Keys
    ensures m + x - x.Keys == m
  {
  }

  /** Some create or map call fails: the driver is left as it was. */
  lemma FailureLeavesNothing(w: World, addr: Addr, chunks: seq<Chunk>, a: CreateAnswers)
    requires HaveCells(w.cells, chunks) && DistinctBoxes(chunks) && chunks != []
    requires Noted(w.error, a.context) == 0 && UndoWorks(a) && FreshHandles(w.driver, a, |chunks|)
    requires forall x :: x in StartMap(addr, chunks, Given(a, |chunks|), |chunks|) ==> x !in w.driver.maps
    requires !AllSucceed(a, |chunks|)
    ensures AfterCreateAndMap(w, addr, chunks, a).error != 0
    ensures AfterCreateAndMap(w, addr, chunks, a).driver == w.driver
  {
    var n := |chunks|;
    if FirstFail(a.create, n) < n {
      CreateFailure(w, addr, chunks, a);
    } else {
      MapFailure(w, addr, chunks, a);
    }
  }

  lemma CreateFailure(w: World, addr: Addr, chunks: seq<Chunk>, a: CreateAnswers)
    requires HaveCells(w.cells, chunks) && DistinctBoxes(chunks) && chunks != []
    requires Noted(w.error, a.context) == 0 && UndoWorks(a) && FreshHandles(w.driver, a, |chunks|)
    requires FirstFail(a.create, |chunks|) < |chunks|
    ensures AfterCreateAndMap(w, addr, chunks, a).error != 0
    ensures AfterCreateAndMap(w, addr, chunks, a).driver == w.driver
  {
    var k := FirstFail(a.create, |chunks|);
    CellLoopIs(w.cells, chunks, a, k);
    CreatesUndone(w.driver, CellLoop(w.cells, chunks, a, k), chunks, a, k);
  }

  lemma MapFailure(w: World, addr: Addr, chunks: seq<Chunk>, a: CreateAnswers)
    requires HaveCells(w.cells, chunks) && DistinctBoxes(chunks) && chunks != []
    requires Noted(w.error, a.context) == 0 && UndoWorks(a) && FreshHandles(w.driver, a, |chunks|)
    requires forall x :: x in StartMap(addr, chunks, Given(a, |chunks|), |chunks|) ==> x !in w.driver.maps
    requires FirstFail(a.create, |chunks|) == |chunks| && FirstFail(a.map_, |chunks|) < |chunks|
    ensures AfterCreateAndMap(w, addr, chunks, a).error != 0
    ensures AfterCreateAndMap(w, addr, chunks, a).driver == w.driver
  {
    var n, m := |chunks|, FirstFail(a.map_, |chunks|);
    var created, cells := CreateLoop(w.driver, chunks, a, n), CellLoop(w.cells, chunks, a, n);
    CellLoopIs(w.cells, chunks, a, n);
    assert created.maps == w.driver.maps by {
      CreateLoopIs(w.driver, chunks, a, n);
    }
    MapsUndone(created, cells, addr, chunks, a, m);
    CreatesUndone(w.driver, cells, chunks, a, n);
  }

  lemma CreatesUndone(d: Driver, cells: map<Box, Handle>, chunks: seq<Chunk>, a: CreateAnswers, k: nat)
    requires k <= |chunks| && HaveCells(cells, chunks) && UndoWorks(a) && FreshHandles(d, a, |chunks|)
    requires forall i :: 0 <= i < k ==> cells[chunks[i].box] == a.handle(i)
    ensures ReleaseLoop(CreateLoop(d, chunks, a, k), cells, chunks, a.undoRelease, k) == d
  {
    var held := Given(a, |chunks|);
    CreateLoopIs(d, chunks, a, k);
    ReleaseLoopIs(CreateLoop(d, chunks, a, k), cells, chunks, held, a.undoRelease, k);
    FreshKeys(d, chunks, a, k);
    AddRemove(d.handles, HandleMap(chunks, held, k));
  }

  lemma MapsUndone(d: Driver, cells: map<Box, Handle>, addr: Addr, chunks: seq<Chunk>, a: CreateAnswers, m: nat)
    requires m <= |chunks| && HaveCells(cells, chunks) && UndoWorks(a)
    requires forall i :: 0 <= i < |chunks| ==> cells[chunks[i].box] == a.handle(i)
    requires forall x :: x in StartMap(addr, chunks, Given(a, |chunks|), |chunks|) ==> x !in d.maps
    ensures UnmapLoop(MapLoop(d, cells, addr, chunks, m), addr, chunks, a.undoUnmap, m) == d
  {
    var held := Given(a, |chunks|);
    MapLoopIs(d, cells, addr, chunks, held, m);
    UnmapLoopIs(MapLoop(d, cells, addr, chunks, m), addr, chunks, held, a.undoUnmap, m);
    StartsGrow(addr, chunks, held, m);
    AddRemove(d.maps, StartMap(addr, chunks, held, m));
  }

  lemma FreshKeys(d: Driver, chunks: seq<Chunk>, a: CreateAnswers, k: nat)
    requires k <= |chunks| && FreshHandles(d, a, |chunks|)
    ensures d.handles.Keys !! HandleMap(chunks, Given(a, |chunks|), k).Keys
  {
    forall h | h in HandleMap(chunks, Given(a, |chunks|), k)
      ensures h !in d.handles
    {
      HandleKeys(chunks, Given(a, |chunks|), k, h);
    }
  }

  lemma {:induction false} StartsGrow(addr: Addr, chunks: seq<Chunk>, held: seq<Handle>, k: nat)
    requires k <= |chunks| == |held|
    ensures StartMap(addr, chunks, held, k).Keys <= StartMap(addr, chunks, held, |chunks|).Keys
    decreases |chunks| - k
  {
    if k < |chunks| {
      StartsGrow(addr, chunks, held, k + 1);
    }
  }

  /** Every create and map call succeeds: exactly the new chunks are created and mapped, in place. */
  lemma SuccessMapsAll(w: World, addr: Addr, chunks: seq<Chunk>, a: CreateAnswers)
    requires HaveCells(w.cells, chunks) && DistinctBoxes(chunks) && chunks != []
    requires Noted(w.error, a.context) == 0 && AllSucceed(a, |chunks|)
    ensures var after := AfterCreateAndMap(w, addr, chunks, a);
            && after.error == a.access
            && after.driver == w.driver.(
                 handles := w.driver.handles + HandleMap(chunks, Given(a, |chunks|), |chunks|),
                 maps := w.driver.maps + StartMap(addr, chunks, Given(a, |chunks|), |chunks|))
  {
    var n, held := |chunks|, Given(a, |chunks|);
    FirstFailIs(a.create, n, n);
    FirstFailIs(a.map_, n, n);
    CellLoopIs(w.cells, chunks, a, n);
    CreateLoopIs(w.driver, chunks, a, n);
    MapLoopIs(CreateLoop(w.driver, chunks, a, n), CellLoop(w.cells, chunks, a, n), addr, chunks, held, n);
  }

  /** In every case only the cells of these chunks are written, and the table and reservations are not. */
  lemma OnlyOwnCellsChange(w: World, addr: Addr, chunks: seq<Chunk>, a: CreateAnswers)
    requires HaveCells(w.cells, chunks) && DistinctBoxes(chunks)
    ensures var after := AfterCreateAndMap(w, addr, chunks, a);
            && after.cells.Keys == w.cells.Keys && after.table == w.table
            && forall b :: b in w.cells && b !in Boxes(chunks) ==> after.cells[b] == w.cells[b]
  {
    CellLoopIs(w.cells, chunks, a, FirstFail(a.create, |chunks|));
    assert chunks != [] ==> chunks[0].box in Boxes(chunks);
  }

  lemma SuccessFillsCells(w: World, addr: Addr, chunks: seq<Chunk>, a: CreateAnswers)
    requires HaveCells(w.cells, chunks) && DistinctBoxes(chunks)
    requires Noted(w.error, a.context) == 0 && AllSucceed(a, |chunks|)
    ensures var after := AfterCreateAndMap(w, addr, chunks, a);
            HaveCells(after.cells, chunks) && Contents(after.cells, chunks) == Given(a, |chunks|)
  {
    FirstFailIs(a.create, |chunks|, |chunks|);
    FirstFailIs(a.map_, |chunks|, |chunks|);
    CellLoopIs(w.cells, chunks, a, |chunks|);
  }

  /** What a failing create_and_map leaves, in full: nothing exactly when it was entered without an error and
      some create or map call failed, or entered with one and already the first create failed. */
  lemma FailureLeavesNothingIff(w: World, addr: Addr, chunks: seq<Chunk>, a: CreateAnswers)
    requires HaveCells(w.cells, chunks) && DistinctBoxes(chunks) && chunks != []
    requires UndoWorks(a) && FreshHandles(w.driver, a, |chunks|)
    requires forall x :: x in StartMap(addr, chunks, Given(a, |chunks|), |chunks|) ==> x !in w.driver.maps
    requires AfterCreateAndMap(w, addr, chunks, a).error != 0
    ensures AfterCreateAndMap(w, addr, chunks, a).driver == w.driver
            <==> if Noted(w.error, a.context) == 0 then !AllSucceed(a, |chunks|) else a.create(0) != 0
  {
    if if Noted(w.error, a.context) == 0 then AllSucceed(a, |chunks|) else a.create(0) == 0 {
      FirstHandleLive(w, addr, chunks, a);
    } else if Noted(w.error, a.context) == 0 {
      FailureLeavesNothing(w, addr, chunks, a);
    }
  }

  /** What leaves a handle behind: a first create that succeeds after an error, or a full success. */
  lemma FirstHandleLive(w: World, addr: Addr, chunks: seq<Chunk>, a: CreateAnswers)
    requires HaveCells(w.cells, chunks) && DistinctBoxes(chunks) && chunks != [] && FreshHandles(w.driver, a, |chunks|)
    requires if Noted(w.error, a.context) == 0 then AllSucceed(a, |chunks|) else a.create(0) == 0
    ensures a.handle(0) in AfterCreateAndMap(w, addr, chunks, a).driver.handles
  {
    if Noted(w.error, a.context) == 0 {
      SuccessMapsAll(w, addr, chunks, a);
      HandleKeys(chunks, Given(a, |chunks|), |chunks|, a.handle(0));
      assert Given(a, |chunks|)[0] == a.handle(0);
    }
  }

  /** A create_and_map whose first create fails does nothing but note the error. */
  lemma FirstCreateFails(w: World, addr: Addr, chunks: seq<Chunk>, a: CreateAnswers)
    requires HaveCells(w.cells, chunks) && chunks != [] && a.create(0) != 0
    ensures AfterCreateAndMap(w, addr, chunks, a) == w.(error := a.create(0))
  {
    FirstFailIs(a.create, |chunks|, 0);
  }

  /** Mapping over a mapping is rejected: whichever call fails first, the new handles are released again. */
  lemma SecondMapRefused(w: World, addr: Addr, chunks: seq<Chunk>, a: CreateAnswers)
    requires HaveCells(w.cells, chunks) && DistinctBoxes(chunks) && chunks != []
    requires Noted(w.error, a.context) == 0 && UndoWorks(a) && FreshHandles(w.driver, a, |chunks|)
    requires a.map_(0) != 0
    ensures var after := AfterCreateAndMap(w, addr, chunks, a);
            && after.error != 0 && after.driver == w.driver
            && after.cells == CellLoop(w.cells, chunks, a, FirstFail(a.create, |chunks|))
  {
    var n := |chunks|;
    if FirstFail(a.create, n) < n {
      CreateFailure(w, addr, chunks, a);
    } else {
      FirstFailIs(a.map_, n, 0);
      CellLoopIs(w.cells, chunks, a, n);
      CreatesUndone(w.driver, CellLoop(w.cells, chunks, a, n), chunks, a, n);
    }
  }

  lemma {:induction false} CreateKeepsRest(d: Driver, chunks: seq<Chunk>, a: CreateAnswers, k: nat)
    requires k <= |chunks|
    ensures CreateLoop(d, chunks, a, k).reserved == d.reserved
  {
    if k > 0 {
      CreateKeepsRest(d, chunks, a, k - 1);
    }
  }

  lemma {:induction false} MapKeepsRest(d: Driver, cells: map<Box, Handle>, addr: Addr, chunks: seq<Chunk>, k: nat)
    requires k <= |chunks| && HaveCells(cells, chunks)
    ensures MapLoop(d, cells, addr, chunks, k).reserved == d.reserved
  {
    if k > 0 {
      MapKeepsRest(d, cells, addr, chunks, k - 1);
    }
  }

  /** create_and_map neither reserves nor frees a range, and leaves Python's table alone. */
  lemma ReservedSame(w: World, addr: Addr, chunks: seq<Chunk>, a: CreateAnswers)
    requires HaveCells(w.cells, chunks)
    ensures AfterCreateAndMap(w, addr, chunks, a).driver.reserved == w.driver.reserved
    ensures AfterCreateAndMap(w, addr, chunks, a).table == w.table
  {
    var n, k, m := |chunks|, FirstFail(a.create, |chunks|), FirstFail(a.map_, |chunks|);
    var created, cells := CreateLoop(w.driver, chunks, a, k), CellLoop(w.cells, chunks, a, k);
    CellLoopKeeps(w.cells, chunks, a, k);
    CreateKeepsRest(w.driver, chunks, a, k);
    ReleaseKeepsRest(created, cells, chunks, a.undoRelease, k);
    if k == n {
      var mapped := MapLoop(created, cells, addr, chunks, m);
      MapKeepsRest(created, cells, addr, chunks, m);
      UnmapKeepsRest(mapped, addr, chunks, a.undoUnmap, m);
      ReleaseKeepsRest(UnmapLoop(mapped, addr, chunks, a.undoUnmap, m), cells, chunks, a.undoRelease, n);
    }
  }

  // ---- where the pieces lie ----

  lemma {:induction false} StartKeys(addr: Addr, chunks: seq<Chunk>, held: seq<Handle>, k: nat, x: Addr)
    requires k <= |chunks| == |held|
    ensures x in StartMap(addr, chunks, held, k) <==> exists i :: 0 <= i < k && Start(addr, chunks, i) == x
  {
    if k > 0 {
      StartKeys(addr, chunks, held, k - 1, x);
    }
  }

  lemma {:induction false} StartOrder(addr: Addr, chunks: seq<Chunk>, i: nat, j: nat)
    requires i <= j <= |chunks|
    ensures Start(addr, chunks, i) <= Start(addr, chunks, j)
    decreases j - i
  {
    if i < j {
      StartStep(addr, chunks, i);
      StartOrder(addr, chunks, i + 1, j);
    }
  }

  /** A chunk lies within its allocation. */
  lemma ChunkInside(addr: Addr, size: nat, chunks: seq<Chunk>, i: nat)
    requires GoodChunks(size, chunks) && i < |chunks|
    ensures addr <= Start(addr, chunks, i) < Start(addr, chunks, i) + chunks[i].size <= addr + size
  {
    StartStep(addr, chunks, i);
    StartOrder(addr, chunks, 0, i);
    StartOrder(addr, chunks, i + 1, |chunks|);
    assert chunks[..|chunks|] == chunks && chunks[..0] == [];
  }

  /** An address in one range is in no other. */
  lemma OutsideOthers(v: View, k: nat, x: Addr)
    requires WellFormed(v) && k < |v| && v[k].addr <= x < v[k].addr + v[k].size
    ensures forall j :: 0 <= j < |v| && j != k ==> !(v[j].addr <= x < v[j].addr + v[j].size)
  {
    forall j | 0 <= j < |v| && j != k
      ensures !(v[j].addr <= x < v[j].addr + v[j].size)
    {
      assert j < k ==> Apart(v[j].addr, v[j].size, v[k].addr, v[k].size);
      assert k < j ==> Apart(v[k].addr, v[k].size, v[j].addr, v[j].size);
    }
  }

  lemma StartInside(r: Rec, x: Addr)
    requires GoodRec(r) && x in StartMap(r.addr, r.chunks, r.held, |r.chunks|)
    ensures r.addr <= x < r.addr + r.size
  {
    StartKeys(r.addr, r.chunks, r.held, |r.chunks|, x);
    var i :| 0 <= i < |r.chunks| && Start(r.addr, r.chunks, i) == x;
    ChunkInside(r.addr, r.size, r.chunks, i);
  }

  lemma MapPartsDisjoint(v: View)
    requires WellFormed(v)
    ensures Disjoint(MapParts(v)) && Disjoint(ReservedParts(v))
  {
    forall i, j | 0 <= i < j < |v|
      ensures MapParts(v)[i].Keys !! MapParts(v)[j].Keys
      ensures ReservedParts(v)[i].Keys !! ReservedParts(v)[j].Keys
    {
      assert Apart(v[i].addr, v[i].size, v[j].addr, v[j].size);
      assert GoodRec(v[i]) && GoodRec(v[j]);
      ChunkInside(v[i].addr, v[i].size, v[i].chunks, 0);
      ChunkInside(v[j].addr, v[j].size, v[j].chunks, 0);
      forall x | x in OwnMaps(v[i])
        ensures x !in OwnMaps(v[j])
      {
        StartInside(v[i], x);
        if x in OwnMaps(v[j]) {
          StartInside(v[j], x);
        }
      }
    }
  }

  lemma {:induction false} CellKeys(chunks: seq<Chunk>, held: seq<Handle>, k: nat, b: Box)
    requires k <= |chunks| == |held|
    ensures b in CellMap(chunks, held, k) <==> exists i :: 0 <= i < k && chunks[i].box == b
  {
    if k > 0 {
      CellKeys(chunks, held, k - 1, b);
    }
  }

  lemma {:induction false} CellAt(chunks: seq<Chunk>, held: seq<Handle>, k: nat, i: nat)
    requires i < k <= |chunks| == |held| && DistinctBoxes(chunks)
    ensures chunks[i].box in CellMap(chunks, held, k) && CellMap(chunks, held, k)[chunks[i].box] == held[i]
  {
    if i < k - 1 {
      CellAt(chunks, held, k - 1, i);
    }
  }

  lemma CellMapKeys(chunks: seq<Chunk>, held: seq<Handle>)
    requires |chunks| == |held|
    ensures CellMap(chunks, held, |chunks|).Keys == Boxes(chunks)
  {
    forall b
      ensures b in CellMap(chunks, held, |chunks|) <==> b in Boxes(chunks)
    {
      CellKeys(chunks, held, |chunks|, b);
    }
  }

  /** Rewriting only the cells of one allocation. */
  lemma CellsRewritten(cells: map<Box, Handle>, after: map<Box, Handle>, chunks: seq<Chunk>, held: seq<Handle>)
    requires |held| == |chunks| && DistinctBoxes(chunks) && HaveCells(cells, chunks)
    requires after.Keys == cells.Keys && forall b :: b in cells && b !in Boxes(chunks) ==> after[b] == cells[b]
    ensures HaveCells(after, chunks)
    ensures after == cells - CellMap(chunks, held, |chunks|).Keys
                     + CellMap(chunks, Contents(after, chunks), |chunks|)
  {
    var now := Contents(after, chunks);
    CellMapKeys(chunks, held);
    CellMapKeys(chunks, now);
    forall b | b in Boxes(chunks)
      ensures CellMap(chunks, now, |chunks|)[b] == after[b]
    {
      var i :| 0 <= i < |chunks| && chunks[i].box == b;
      CellAt(chunks, now, |chunks|, i);
    }
    forall b | b in Boxes(chunks)
      ensures b in cells
    {
      var i :| 0 <= i < |chunks| && chunks[i].box == b;
    }
  }

  // ---- one allocation changes ----

  /** The parts of the other allocations stay where they are. */
  lemma PartsReplaced(v: View, k: nat, r: Rec)
    requires Held(v) && k < |v| && |r.chunks| == |r.held|
    ensures Held(v[k := r])
    ensures HandleParts(v[k := r]) == HandleParts(v)[k := OwnHandles(r)]
    ensures MapParts(v[k := r]) == MapParts(v)[k := OwnMaps(r)]
    ensures CellParts(v[k := r]) == CellParts(v)[k := OwnCells(r)]
    ensures ReservedParts(v[k := r]) == ReservedParts(v)[k := OwnReserved(r)]
  {
  }

  lemma ReplaceKeepsForm(v: View, k: nat, r: Rec)
    requires WellFormed(v) && k < |v| && GoodRec(r)
    requires r.addr == v[k].addr && r.size == v[k].size && r.chunks == v[k].chunks
    requires forall h :: h in OwnHandles(r) ==> forall i :: 0 <= i < |v| && i != k ==> h !in OwnHandles(v[i])
    ensures WellFormed(v[k := r])
  {
    PartsReplaced(v, k, r);
    var after := v[k := r];
    CellMapKeys(r.chunks, r.held);
    CellMapKeys(v[k].chunks, v[k].held);
    forall i, j | 0 <= i < j < |v|
      ensures HandleParts(after)[i].Keys !! HandleParts(after)[j].Keys
      ensures CellParts(after)[i].Keys !! CellParts(after)[j].Keys
    {
      assert HandleParts(v)[i].Keys !! HandleParts(v)[j].Keys;
      assert CellParts(v)[i].Keys !! CellParts(v)[j].Keys;
    }
  }

  /** One allocation changes what it owns, and the world changes by exactly that. */
  lemma Replaced(w: World, v: View, k: nat, r: Rec, w': World)
    requires Represents(w, v) && k < |v| && GoodRec(r)
    requires r.addr == v[k].addr && r.size == v[k].size && r.chunks == v[k].chunks
    requires forall h :: h in OwnHandles(r) ==> forall i :: 0 <= i < |v| && i != k ==> h !in OwnHandles(v[i])
    requires w'.driver.reserved == w.driver.reserved && w'.table == w.table
    requires w'.driver.handles == w.driver.handles - OwnHandles(v[k]).Keys + OwnHandles(r)
    requires w'.driver.maps == w.driver.maps - OwnMaps(v[k]).Keys + OwnMaps(r)
    requires w'.cells == w.cells - OwnCells(v[k]).Keys + OwnCells(r)
    ensures Represents(w', v[k := r])
  {
    ReplaceKeepsForm(v, k, r);
    ReplacedUnions(v, k, r);
  }

  lemma ReplacedUnions(v: View, k: nat, r: Rec)
    requires WellFormed(v) && k < |v| && |r.chunks| == |r.held| && WellFormed(v[k := r])
    requires r.addr == v[k].addr && r.size == v[k].size
    ensures Union(HandleParts(v[k := r])) == Union(HandleParts(v)) - OwnHandles(v[k]).Keys + OwnHandles(r)
    ensures Union(MapParts(v[k := r])) == Union(MapParts(v)) - OwnMaps(v[k]).Keys + OwnMaps(r)
    ensures Union(CellParts(v[k := r])) == Union(CellParts(v)) - OwnCells(v[k]).Keys + OwnCells(r)
    ensures Union(ReservedParts(v[k := r])) == Union(ReservedParts(v))
  {
    PartsReplaced(v, k, r);
    MapPartsDisjoint(v);
    MapPartsDisjoint(v[k := r]);
    UnionReplace(HandleParts(v), k, OwnHandles(r));
    UnionReplace(MapParts(v), k, OwnMaps(r));
    UnionReplace(CellParts(v), k, OwnCells(r));
    assert ReservedParts(v)[k := OwnReserved(r)] == ReservedParts(v);
  }

  // ---- the four operations ----

  /** The record of an allocation after create_and_map ran for it. */
  function Woken(r: Rec, w': World, mapped: bool): Rec
    requires HaveCells(w'.cells, r.chunks)
  {
    r.(awake := mapped, held := Contents(w'.cells, r.chunks))
  }

  lemma CellsPresent(w: World, v: View, k: nat)
    requires Represents(w, v) && k < |v|
    ensures HaveCells(w.cells, v[k].chunks)
    ensures forall i :: 0 <= i < |v[k].chunks| ==> w.cells[v[k].chunks[i].box] == v[k].held[i]
  {
    forall i: nat | i < |v[k].chunks|
      ensures v[k].chunks[i].box in w.cells && w.cells[v[k].chunks[i].box] == v[k].held[i]
    {
      CellAt(v[k].chunks, v[k].held, |v[k].chunks|, i);
      UnionHas(CellParts(v), k, v[k].chunks[i].box);
    }
  }

  /** An asleep allocation has no mapping. */
  lemma AsleepUnmapped(w: World, v: View, k: nat, held: seq<Handle>)
    requires Represents(w, v) && k < |v| && !v[k].awake && |held| == |v[k].chunks|
    ensures forall x :: x in StartMap(v[k].addr, v[k].chunks, held, |held|) ==> x !in w.driver.maps
  {
    forall x | x in StartMap(v[k].addr, v[k].chunks, held, |held|)
      ensures x !in w.driver.maps
    {
      StartInside(v[k].(held := held), x);
      OutsideOthers(v, k, x);
      if x in w.driver.maps {
        var j := UnionFrom(MapParts(v), x);
        StartInside(v[j], x);
      }
    }
  }

  /** Waking an asleep allocation, entered without an error: it has new memory at the old address if every create and
      map call succeeds, reported as an error if setting the access fails; and it is still asleep, everything else
      unchanged, if a create or map call fails. */
  lemma WakeKeeps(w: World, v: View, k: nat, a: CreateAnswers)
    requires Represents(w, v) && k < |v| && !v[k].awake
    requires Noted(w.error, a.context) == 0 && UndoWorks(a) && FreshHandles(w.driver, a, |v[k].chunks|)
    ensures HaveCells(w.cells, v[k].chunks)
    ensures var (w', ok) := AfterWake(w, v[k].addr, Entry(v[k].size, v[k].chunks), a);
            var mapped := AllSucceed(a, |v[k].chunks|);
            && w'.error == 0 && (ok <==> mapped && a.access == 0)
            && HaveCells(w'.cells, v[k].chunks) && Represents(w', v[k := Woken(v[k], w', mapped)])
  {
    CellsPresent(w, v, k);
    if AllSucceed(a, |v[k].chunks|) {
      WakeSucceeds(w, v, k, a);
    } else {
      WakeFails(w, v, k, a);
    }
  }

  lemma AsleepOwnsNothing(w: World, v: View, k: nat)
    requires Represents(w, v) && k < |v| && !v[k].awake
    ensures w.driver.handles - OwnHandles(v[k]).Keys == w.driver.handles
    ensures w.driver.maps - OwnMaps(v[k]).Keys == w.driver.maps
  {
  }

  lemma WakeSucceeds(w: World, v: View, k: nat, a: CreateAnswers)
    requires Represents(w, v) && k < |v| && !v[k].awake && HaveCells(w.cells, v[k].chunks)
    requires Noted(w.error, a.context) == 0 && AllSucceed(a, |v[k].chunks|)
    requires FreshHandles(w.driver, a, |v[k].chunks|)
    ensures var (w', ok) := AfterWake(w, v[k].addr, Entry(v[k].size, v[k].chunks), a);
            && w'.error == 0 && (ok <==> a.access == 0)
            && HaveCells(w'.cells, v[k].chunks) && Represents(w', v[k := Woken(v[k], w', true)])
  {
    var r, n := v[k], |v[k].chunks|;
    var w' := AfterWake(w, r.addr, Entry(r.size, r.chunks), a).0;
    assert w'.table == w.table && w'.driver.reserved == w.driver.reserved
      && w'.driver.handles == w.driver.handles + HandleMap(r.chunks, Given(a, n), n)
      && w'.driver.maps == w.driver.maps + StartMap(r.addr, r.chunks, Given(a, n), n) by {
      OnlyOwnCellsChange(w, r.addr, r.chunks, a);
      SuccessMapsAll(w, r.addr, r.chunks, a);
    }
    assert AfterWake(w, r.addr, Entry(r.size, r.chunks), a).1 <==> a.access == 0 by {
      SuccessMapsAll(w, r.addr, r.chunks, a);
    }
    WokenCells(w, v, k, a);
    var r' := Woken(r, w', true);
    assert r'.held == Given(a, n) by {
      SuccessFillsCells(w, r.addr, r.chunks, a);
    }
    FreshOwn(w, v, k, r', a);
    AsleepOwnsNothing(w, v, k);
    Replaced(w, v, k, r', w');
  }

  lemma WakeFails(w: World, v: View, k: nat, a: CreateAnswers)
    requires Represents(w, v) && k < |v| && !v[k].awake && HaveCells(w.cells, v[k].chunks)
    requires Noted(w.error, a.context) == 0 && UndoWorks(a) && !AllSucceed(a, |v[k].chunks|)
    requires FreshHandles(w.driver, a, |v[k].chunks|)
    ensures var (w', ok) := AfterWake(w, v[k].addr, Entry(v[k].size, v[k].chunks), a);
            w'.error == 0 && !ok && HaveCells(w'.cells, v[k].chunks) && Represents(w', v[k := Woken(v[k], w', false)])
  {
    var r := v[k];
    var w' := AfterWake(w, r.addr, Entry(r.size, r.chunks), a).0;
    AsleepUnmapped(w, v, k, Given(a, |r.chunks|));
    assert w'.driver == w.driver && !AfterWake(w, r.addr, Entry(r.size, r.chunks), a).1 by {
      FailureLeavesNothing(w, r.addr, r.chunks, a);
    }
    WokenCells(w, v, k, a);
    AsleepOwnsNothing(w, v, k);
    AddNothing(w.driver.handles);
    AddNothing(w.driver.maps);
    Replaced(w, v, k, Woken(r, w', false), w');
  }

  /** A wake whose first create fails changes nothing, and clears the error it reports. */
  lemma WakeRefused(w: World, v: View, k: nat, a: CreateAnswers)
    requires Represents(w, v) && k < |v| && a.create(0) != 0
    ensures HaveCells(w.cells, v[k].chunks)
    ensures AfterWake(w, v[k].addr, Entry(v[k].size, v[k].chunks), a) == (w.(error := 0), false)
  {
    CellsPresent(w, v, k);
    assert GoodRec(v[k]);
    FirstCreateFails(w, v[k].addr, v[k].chunks, a);
  }

  /** The cell of an awake chunk names a live handle. */
  lemma CellIsLive(w: World, v: View, k: nat, i: nat)
    requires Represents(w, v) && k < |v| && v[k].awake && i < |v[k].chunks|
    ensures i < |v[k].held| && v[k].chunks[i].box in w.cells && w.cells[v[k].chunks[i].box] == v[k].held[i]
    ensures v[k].held[i] in w.driver.handles
  {
    CellsPresent(w, v, k);
    assert GoodRec(v[k]);
    HandleAt(v[k].chunks, v[k].held, |v[k].chunks|, i);
    assert v[k].held[i] in HandleParts(v)[k];
    UnionHas(HandleParts(v), k, v[k].held[i]);
  }

  /** Waking an awake allocation, without an error pending, on a driver that rejects the second mapping: the cells of
      the chunks created before the failing call keep the new handles, which are released again. */
  lemma WakeAwakeIs(w: World, v: View, k: nat, a: CreateAnswers)
    requires Represents(w, v) && k < |v| && v[k].awake
    requires Noted(w.error, a.context) == 0 && UndoWorks(a) && FreshHandles(w.driver, a, |v[k].chunks|)
    requires a.map_(0) != 0
    ensures HaveCells(w.cells, v[k].chunks)
    ensures var (w', ok) := AfterWake(w, v[k].addr, Entry(v[k].size, v[k].chunks), a);
            && !ok && w'.error == 0 && w'.driver == w.driver && w'.cells.Keys == w.cells.Keys && w'.table == w.table
            && forall i :: 0 <= i < |v[k].chunks| ==>
                 w'.cells[v[k].chunks[i].box]
                 == if i < FirstFail(a.create, |v[k].chunks|) then a.handle(i) else v[k].held[i]
  {
    var chunks := v[k].chunks;
    var c := FirstFail(a.create, |chunks|);
    CellsPresent(w, v, k);
    assert GoodRec(v[k]);
    SecondMapRefused(w, v[k].addr, chunks, a);
    ReservedSame(w, v[k].addr, chunks, a);
    CellLoopIs(w.cells, chunks, a, c);
    forall i: nat | c <= i < |chunks|
      ensures CellLoop(w.cells, chunks, a, c)[chunks[i].box] == v[k].held[i]
    {
      CellLoopLater(w.cells, chunks, a, c, i);
    }
  }

  /** The cells of later chunks are as before. */
  lemma {:induction false} CellLoopLater(cells: map<Box, Handle>, chunks: seq<Chunk>, a: CreateAnswers, k: nat, i: nat)
    requires k <= i < |chunks| && HaveCells(cells, chunks) && DistinctBoxes(chunks)
    ensures chunks[i].box in CellLoop(cells, chunks, a, k)
    ensures CellLoop(cells, chunks, a, k)[chunks[i].box] == cells[chunks[i].box]
  {
    if k > 0 {
      CellLoopLater(cells, chunks, a, k - 1, i);
    }
  }

  /** So no list of live allocations that has this one awake describes the result: its first cell names a handle that
      is not live, while the memory it had is still there. */
  lemma WakeAwakeLoses(w: World, v: View, k: nat, a: CreateAnswers, v': View, j: nat)
    requires Represents(w, v) && k < |v| && v[k].awake
    requires Noted(w.error, a.context) == 0 && UndoWorks(a) && FreshHandles(w.driver, a, |v[k].chunks|)
    requires a.map_(0) != 0 && a.create(0) == 0
    requires j < |v'| && v'[j].awake && v'[j].chunks == v[k].chunks
    ensures HaveCells(w.cells, v[k].chunks)
    ensures !Represents(AfterWake(w, v[k].addr, Entry(v[k].size, v[k].chunks), a).0, v')
  {
    WakeAwakeIs(w, v, k, a);
    var w' := AfterWake(w, v[k].addr, Entry(v[k].size, v[k].chunks), a).0;
    assert GoodRec(v[k]);
    assert w'.cells[v[k].chunks[0].box] == a.handle(0) && a.handle(0) !in w'.driver.handles;
    if Represents(w', v') {
      CellIsLive(w', v', j, 0);
    }
  }

  /** Waking an allocation that is awake always fails. It is harmless exactly when already the first create fails. */
  lemma WakeAwakeKeepsIff(w: World, v: View, k: nat, a: CreateAnswers)
    requires Represents(w, v) && k < |v| && v[k].awake
    requires Noted(w.error, a.context) == 0 && UndoWorks(a) && FreshHandles(w.driver, a, |v[k].chunks|)
    requires a.map_(0) != 0
    ensures HaveCells(w.cells, v[k].chunks)
    ensures var (w', ok) := AfterWake(w, v[k].addr, Entry(v[k].size, v[k].chunks), a);
            !ok && w'.driver == w.driver && (Represents(w', v) <==> a.create(0) != 0)
  {
    WakeAwakeIs(w, v, k, a);
    if a.create(0) != 0 {
      WakeRefused(w, v, k, a);
    } else {
      WakeAwakeLoses(w, v, k, a, v, k);
    }
  }

  lemma WokenCells(w: World, v: View, k: nat, a: CreateAnswers)
    requires Represents(w, v) && k < |v| && HaveCells(w.cells, v[k].chunks)
    ensures var w' := AfterWake(w, v[k].addr, Entry(v[k].size, v[k].chunks), a).0;
            && w'.table == w.table && HaveCells(w'.cells, v[k].chunks)
            && w'.cells == w.cells - OwnCells(v[k]).Keys + OwnCells(Woken(v[k], w', false))
  {
    var r := v[k];
    OnlyOwnCellsChange(w, r.addr, r.chunks, a);
    CellsRewritten(w.cells, AfterCreateAndMap(w, r.addr, r.chunks, a).cells, r.chunks, r.held);
  }

  /** Fresh handles belong to nobody else. */
  lemma FreshOwn(w: World, v: View, k: nat, r: Rec, a: CreateAnswers)
    requires Represents(w, v) && k <= |v| && |r.chunks| == |r.held| && r.held == Given(a, |r.chunks|)
    requires FreshHandles(w.driver, a, |r.chunks|)
    ensures Distinct(r.held)
    ensures forall h :: h in OwnHandles(r) ==> forall i :: 0 <= i < |v| ==> h !in OwnHandles(v[i])
  {
    forall h, i: nat | h in OwnHandles(r) && i < |v|
      ensures h !in OwnHandles(v[i])
    {
      HandleKeys(r.chunks, r.held, |r.chunks|, h);
      if h in OwnHandles(v[i]) {
        UnionHas(HandleParts(v), i, h);
      }
    }
  }

  // ---- unmap_and_release ----

  /** Every unmap and release call succeeds. */
  ghost predicate ReleaseWorks(a: ReleaseAnswers) {
    (forall i: nat :: a.unmap(i) == 0) && forall i: nat :: a.release(i) == 0
  }

  /** No release succeeds on a handle that is live: the cells of an asleep allocation still name the handles it had,
      and the driver may have given one of these names to another allocation. */
  ghost predicate Harmless(w: World, r: Rec, a: ReleaseAnswers) {
    forall i: nat :: i < |r.held| ==> a.release(i) != 0 || r.held[i] !in w.driver.handles
  }

  /** Some unmap or release was rejected. */
  predicate Rejected(n: nat, a: ReleaseAnswers) {
    FirstError(a.unmap, n) != 0 || FirstError(a.release, n) != 0
  }

  /** The range is still reserved: there was no free-and-reserve cycle, or it came back in place. */
  predicate RangeKept(addr: Addr, n: nat, a: ReleaseAnswers) {
    Rejected(n, a) || a.free != 0 || (a.reserve == 0 && a.newAddr == addr)
  }

  /** The reserved ranges after the free-and-reserve cycle. */
  function ReservedAfter(reserved: map<Addr, nat>, addr: Addr, size: nat, n: nat, a: ReleaseAnswers): map<Addr, nat> {
    if Rejected(n, a) || a.free != 0 then reserved
    else if a.reserve != 0 then reserved - {addr}
    else if a.newAddr == addr then (reserved - {addr})[addr := size]
    else if a.freeNew == 0 then (reserved - {addr})[a.newAddr := size] - {a.newAddr}
    else (reserved - {addr})[a.newAddr := size]
  }

  lemma {:induction false} NoError(st: nat -> Status, n: nat)
    requires forall i: nat :: i < n ==> st(i) == 0
    ensures FirstError(st, n) == 0
  {
    if n > 0 {
      NoError(st, n - 1);
    }
  }

  lemma {:induction false} SomeError(st: nat -> Status, n: nat, i: nat)
    requires i < n && st(i) != 0
    ensures FirstError(st, n) != 0
  {
    if i < n - 1 {
      SomeError(st, n - 1, i);
    }
  }

  lemma RejectedIff(n: nat, a: ReleaseAnswers)
    ensures Rejected(n, a) <==> exists i: nat :: i < n && (a.unmap(i) != 0 || a.release(i) != 0)
  {
    forall i: nat | i < n && (a.unmap(i) != 0 || a.release(i) != 0)
      ensures Rejected(n, a)
    {
      if a.unmap(i) != 0 {
        SomeError(a.unmap, n, i);
      } else {
        SomeError(a.release, n, i);
      }
    }
    if !exists i: nat :: i < n && (a.unmap(i) != 0 || a.release(i) != 0) {
      NoError(a.unmap, n);
      NoError(a.release, n);
    }
  }

  lemma {:induction false} FirstErrorIs(st: nat -> Status, n: nat)
    ensures FirstError(st, n) == if FirstFail(st, n) < n then st(FirstFail(st, n)) else 0
  {
    if n > 0 {
      FirstErrorIs(st, n - 1);
    }
  }

  /** The error that unmap_and_release notes is the first one it met: of an unmap, a release, the free, the reserve; 1
      when the range moved; else the one pending before it. */
  lemma ReleaseErrorIs(w: World, addr: Addr, size: nat, chunks: seq<Chunk>, a: ReleaseAnswers)
    requires HaveCells(w.cells, chunks)
    ensures var error, n := AfterUnmapAndRelease(w, addr, size, chunks, a).error, |chunks|;
            var u, r := FirstFail(a.unmap, n), FirstFail(a.release, n);
            error == if u < n then a.unmap(u) else if r < n then a.release(r)
                     else if a.free != 0 then a.free else if a.reserve != 0 then a.reserve
                     else if a.newAddr != addr then 1 else if a.context != 0 then a.context else w.error
  {
    FirstErrorIs(a.unmap, |chunks|);
    FirstErrorIs(a.release, |chunks|);
  }

  /** The driver after both loops. */
  function Stripped(w: World, addr: Addr, chunks: seq<Chunk>, a: ReleaseAnswers): Driver
    requires HaveCells(w.cells, chunks)
  {
    ReleaseLoop(UnmapLoop(w.driver, addr, chunks, a.unmap, |chunks|), w.cells, chunks, a.release, |chunks|)
  }

  lemma {:induction false} UnmapKeepsRest(d: Driver, addr: Addr, chunks: seq<Chunk>, st: nat -> Status, k: nat)
    requires k <= |chunks|
    ensures UnmapLoop(d, addr, chunks, st, k).reserved == d.reserved
    ensures UnmapLoop(d, addr, chunks, st, k).handles == d.handles
  {
    if k > 0 {
      UnmapKeepsRest(d, addr, chunks, st, k - 1);
    }
  }

  lemma {:induction false} ReleaseKeepsRest(d: Driver, cells: map<Box, Handle>, chunks: seq<Chunk>,
                                            st: nat -> Status, k: nat)
    requires k <= |chunks| && HaveCells(cells, chunks)
    ensures ReleaseLoop(d, cells, chunks, st, k).reserved == d.reserved
    ensures ReleaseLoop(d, cells, chunks, st, k).maps == d.maps
  {
    if k > 0 {
      ReleaseKeepsRest(d, cells, chunks, st, k - 1);
    }
  }

  /** unmap_and_release is its two loops and then the cycle. */
  lemma ReleaseIs(w: World, addr: Addr, size: nat, chunks: seq<Chunk>, a: ReleaseAnswers)
    requires HaveCells(w.cells, chunks)
    ensures var after, d := AfterUnmapAndRelease(w, addr, size, chunks, a), Stripped(w, addr, chunks, a);
            && after.cells == w.cells && after.table == w.table
            && after.driver.maps == d.maps && after.driver.handles == d.handles
            && after.driver.reserved == ReservedAfter(w.driver.reserved, addr, size, |chunks|, a)
  {
    UnmapKeepsRest(w.driver, addr, chunks, a.unmap, |chunks|);
    ReleaseKeepsRest(UnmapLoop(w.driver, addr, chunks, a.unmap, |chunks|), w.cells, chunks, a.release, |chunks|);
    var after, d := AfterUnmapAndRelease(w, addr, size, chunks, a), Stripped(w, addr, chunks, a);
    assert d.reserved == w.driver.reserved;
    if Rejected(|chunks|, a) || a.free != 0 {
      assert after.driver == d;
    } else if a.reserve != 0 {
      assert after.driver == d.AddressFree(0, addr);
    } else {
      assert after.driver == d.AddressFree(0, addr).Reserve(0, a.newAddr, size).AddressFree(
        if a.newAddr == addr then 1 else a.freeNew, a.newAddr);
    }
  }

  lemma RejectionNoted(w: World, addr: Addr, size: nat, chunks: seq<Chunk>, a: ReleaseAnswers)
    requires HaveCells(w.cells, chunks) && Rejected(|chunks|, a)
    ensures AfterUnmapAndRelease(w, addr, size, chunks, a).error != 0
  {
  }

  /** Unmapping where nothing is mapped changes nothing, whatever the driver answers. */
  lemma {:induction false} UnmapNothing(d: Driver, addr: Addr, chunks: seq<Chunk>, st: nat -> Status, k: nat)
    requires k <= |chunks| && forall i :: 0 <= i < k ==> Start(addr, chunks, i) !in d.maps
    ensures UnmapLoop(d, addr, chunks, st, k) == d
  {
    if k > 0 {
      UnmapNothing(d, addr, chunks, st, k - 1);
      assert d.maps - {Start(addr, chunks, k - 1)} == d.maps;
    }
  }

  lemma {:induction false} ReleaseNothing(d: Driver, cells: map<Box, Handle>, chunks: seq<Chunk>,
                                          st: nat -> Status, k: nat)
    requires k <= |chunks| && HaveCells(cells, chunks)
    requires forall i: nat :: i < k ==> st(i) != 0 || cells[chunks[i].box] !in d.handles
    ensures ReleaseLoop(d, cells, chunks, st, k) == d
  {
    if k > 0 {
      ReleaseNothing(d, cells, chunks, st, k - 1);
      var h := cells[chunks[k - 1].box];
      assert st(k - 1) == 0 ==> d.handles - {h} == d.handles;
    }
  }

  /** A release that succeeds ends the life of its handle. */
  lemma {:induction false} ReleaseRemoves(d: Driver, cells: map<Box, Handle>, chunks: seq<Chunk>,
                                          st: nat -> Status, k: nat, i: nat)
    requires i < k <= |chunks| && HaveCells(cells, chunks) && st(i) == 0
    ensures cells[chunks[i].box] !in ReleaseLoop(d, cells, chunks, st, k).handles
  {
    if i < k - 1 {
      ReleaseRemoves(d, cells, chunks, st, k - 1, i);
    }
  }

  lemma ReservedHas(w: World, v: View, k: nat)
    requires Represents(w, v) && k < |v|
    ensures v[k].addr in w.driver.reserved && w.driver.reserved[v[k].addr] == v[k].size
  {
    MapPartsDisjoint(v);
    assert v[k].addr in ReservedParts(v)[k];
    UnionHas(ReservedParts(v), k, v[k].addr);
  }

  lemma StripsAwake(w: World, v: View, k: nat, a: ReleaseAnswers)
    requires Represents(w, v) && k < |v| && v[k].awake && ReleaseWorks(a)
    ensures HaveCells(w.cells, v[k].chunks)
    ensures var d := Stripped(w, v[k].addr, v[k].chunks, a);
            d.maps == w.driver.maps - OwnMaps(v[k]).Keys && d.handles == w.driver.handles - OwnHandles(v[k]).Keys
  {
    var r := v[k];
    CellsPresent(w, v, k);
    UnmapLoopIs(w.driver, r.addr, r.chunks, r.held, a.unmap, |r.chunks|);
    ReleaseLoopIs(UnmapLoop(w.driver, r.addr, r.chunks, a.unmap, |r.chunks|), w.cells, r.chunks, r.held,
                  a.release, |r.chunks|);
  }

  lemma StripsAsleepIff(w: World, v: View, k: nat, a: ReleaseAnswers)
    requires Represents(w, v) && k < |v| && !v[k].awake
    ensures HaveCells(w.cells, v[k].chunks)
    ensures var d := Stripped(w, v[k].addr, v[k].chunks, a);
            d.maps == w.driver.maps && (d.handles == w.driver.handles <==> Harmless(w, v[k], a))
  {
    var r, n := v[k], |v[k].chunks|;
    CellsPresent(w, v, k);
    forall i | 0 <= i < n
      ensures Start(r.addr, r.chunks, i) !in w.driver.maps
    {
      AsleepUnmapped(w, v, k, r.held);
      StartKeys(r.addr, r.chunks, r.held, n, Start(r.addr, r.chunks, i));
    }
    UnmapNothing(w.driver, r.addr, r.chunks, a.unmap, n);
    ReleaseKeepsRest(w.driver, w.cells, r.chunks, a.release, n);
    if Harmless(w, r, a) {
      ReleaseNothing(w.driver, w.cells, r.chunks, a.release, n);
    } else {
      var i: nat :| i < |r.held| && a.release(i) == 0 && r.held[i] in w.driver.handles;
      ReleaseRemoves(w.driver, w.cells, r.chunks, a.release, n, i);
    }
  }

  /** unmap_and_release takes from the driver exactly what the allocation owns: for an awake one when its calls
      succeed, for an asleep one, which owns nothing, exactly when it is harmless. */
  ghost predicate TakesOwn(w: World, r: Rec, a: ReleaseAnswers) {
    if r.awake then ReleaseWorks(a) else Harmless(w, r, a)
  }

  lemma Strips(w: World, v: View, k: nat, a: ReleaseAnswers)
    requires Represents(w, v) && k < |v| && TakesOwn(w, v[k], a)
    ensures HaveCells(w.cells, v[k].chunks)
    ensures var d := Stripped(w, v[k].addr, v[k].chunks, a);
            d.maps == w.driver.maps - OwnMaps(v[k]).Keys && d.handles == w.driver.handles - OwnHandles(v[k]).Keys
  {
    if v[k].awake {
      StripsAwake(w, v, k, a);
    } else {
      StripsAsleepIff(w, v, k, a);
      assert OwnMaps(v[k]).Keys == {} && OwnHandles(v[k]).Keys == {};
      TakeNothing(w.driver.maps);
      TakeNothing(w.driver.handles);
    }
  }

  lemma TakeNothing<K, V>(m: map<K, V>)
    ensures m - {} == m
  {
  }

  // ---- sleep ----

  /** Sleep gives back the physical memory of the allocation, if it had any, and keeps its range. */
  lemma SleepKeeps(w: World, v: View, k: nat, a: ReleaseAnswers)
    requires Represents(w, v) && k < |v| && TakesOwn(w, v[k], a) && RangeKept(v[k].addr, |v[k].chunks|, a)
    ensures HaveCells(w.cells, v[k].chunks)
    ensures Represents(AfterSleep(w, v[k].addr, Entry(v[k].size, v[k].chunks), a).0, v[k := v[k].(awake := false)])
  {
    var r := v[k];
    Strips(w, v, k, a);
    var w' := AfterSleep(w, r.addr, Entry(r.size, r.chunks), a).0;
    var r' := r.(awake := false);
    assert w'.table == w.table && w'.cells == w.cells
      && w'.driver.maps == w.driver.maps - OwnMaps(r).Keys && w'.driver.handles == w.driver.handles - OwnHandles(r).Keys
      && w'.driver.reserved == w.driver.reserved by {
      ReleaseIs(w, r.addr, r.size, r.chunks, a);
      ReservedHas(w, v, k);
      assert (w.driver.reserved - {r.addr})[r.addr := r.size] == w.driver.reserved;
    }
    SameCells(w, v, k);
    AddNothing(w.driver.maps - OwnMaps(r).Keys);
    AddNothing(w.driver.handles - OwnHandles(r).Keys);
    Replaced(w, v, k, r', w');
  }

  lemma SameCells(w: World, v: View, k: nat)
    requires Represents(w, v) && k < |v|
    ensures w.cells == w.cells - OwnCells(v[k]).Keys + OwnCells(v[k].(awake := false))
  {
    CellsPresent(w, v, k);
    CellsRewritten(w.cells, w.cells, v[k].chunks, v[k].held);
    assert Contents(w.cells, v[k].chunks) == v[k].held;
  }

  lemma AddNothing<K, V>(m: map<K, V>)
    ensures m + map[] == m
  {
  }

  /** Putting an allocation to sleep is safe exactly when the range comes back and, for one that is asleep already,
      when no stale handle is live: otherwise the memory of another allocation is destroyed. */
  lemma SleepKeepsIff(w: World, v: View, k: nat, a: ReleaseAnswers)
    requires Represents(w, v) && k < |v| && (v[k].awake ==> ReleaseWorks(a))
    ensures HaveCells(w.cells, v[k].chunks)
    ensures Represents(AfterSleep(w, v[k].addr, Entry(v[k].size, v[k].chunks), a).0, v[k := v[k].(awake := false)])
            <==> (v[k].awake || Harmless(w, v[k], a)) && RangeKept(v[k].addr, |v[k].chunks|, a)
  {
    CellsPresent(w, v, k);
    var r, v' := v[k], v[k := v[k].(awake := false)];
    var w' := AfterSleep(w, r.addr, Entry(r.size, r.chunks), a).0;
    if (r.awake || Harmless(w, r, a)) && RangeKept(r.addr, |r.chunks|, a) {
      SleepKeeps(w, v, k, a);
    } else if Represents(w', v') {
      ReservedHas(w', v', k);
      ReleaseIs(w, r.addr, r.size, r.chunks, a);
      if !r.awake {
        assert v' == v;
        StripsAsleepIff(w, v, k, a);
      }
    }
  }

  /** The caller of sleep sees no error exactly when none was pending, nothing was rejected and the range could be
      cycled in place; the error is cleared either way. */
  lemma SleepReports(w: World, v: View, k: nat, a: ReleaseAnswers)
    requires Represents(w, v) && k < |v|
    ensures HaveCells(w.cells, v[k].chunks)
    ensures var (w', ok) := AfterSleep(w, v[k].addr, Entry(v[k].size, v[k].chunks), a);
            && w'.error == 0
            && (ok <==> w.error == 0 && a.context == 0 && !Rejected(|v[k].chunks|, a)
                        && a.free == 0 && a.reserve == 0 && a.newAddr == v[k].addr)
  {
    CellsPresent(w, v, k);
  }

  // ---- a new allocation ----

  lemma PartsAppended(v: View, r: Rec)
    requires Held(v) && |r.chunks| == |r.held|
    ensures Held(v + [r])
    ensures HandleParts(v + [r]) == HandleParts(v) + [OwnHandles(r)]
    ensures MapParts(v + [r]) == MapParts(v) + [OwnMaps(r)]
    ensures CellParts(v + [r]) == CellParts(v) + [OwnCells(r)]
    ensures ReservedParts(v + [r]) == ReservedParts(v) + [OwnReserved(r)]
  {
  }

  lemma UnionAppend<K, V>(parts: seq<map<K, V>>, m: map<K, V>)
    ensures Union(parts + [m]) == Union(parts) + m
  {
    assert (parts + [m])[..|parts|] == parts;
  }

  lemma DisjointAppend<K, V>(parts: seq<map<K, V>>, m: map<K, V>)
    requires Disjoint(parts) && m.Keys !! Union(parts).Keys
    ensures Disjoint(parts + [m])
  {
    forall i: nat | i < |parts|
      ensures parts[i].Keys !! m.Keys
    {
      forall x | x in parts[i]
        ensures x !in m
      {
        UnionHas(parts, i, x);
      }
    }
  }

  /** The range [addr, addr + size) overlaps no reserved range. */
  ghost predicate FreeRange(d: Driver, addr: Addr, size: nat) {
    forall x :: x in d.reserved ==> Apart(addr, size, x, d.reserved[x])
  }

  lemma ApartFromAll(w: World, v: View, addr: Addr, size: nat)
    requires Represents(w, v) && FreeRange(w.driver, addr, size)
    ensures forall i :: 0 <= i < |v| ==> Apart(addr, size, v[i].addr, v[i].size)
  {
    forall i: nat | i < |v|
      ensures Apart(addr, size, v[i].addr, v[i].size)
    {
      ReservedHas(w, v, i);
    }
  }

  lemma AppendedForm(w: World, v: View, r: Rec)
    requires Represents(w, v) && GoodRec(r) && FreeRange(w.driver, r.addr, r.size)
    requires OwnHandles(r).Keys !! w.driver.handles.Keys && OwnCells(r).Keys !! w.cells.Keys
    ensures WellFormed(v + [r])
  {
    PartsAppended(v, r);
    ApartFromAll(w, v, r.addr, r.size);
    DisjointAppend(HandleParts(v), OwnHandles(r));
    DisjointAppend(CellParts(v), OwnCells(r));
  }

  lemma UnionsAppended(v: View, r: Rec)
    requires Held(v) && Held(v + [r]) && |r.chunks| == |r.held|
    ensures Union(ReservedParts(v + [r])) == Union(ReservedParts(v)) + OwnReserved(r)
    ensures Union(HandleParts(v + [r])) == Union(HandleParts(v)) + OwnHandles(r)
    ensures Union(MapParts(v + [r])) == Union(MapParts(v)) + OwnMaps(r)
    ensures Union(CellParts(v + [r])) == Union(CellParts(v)) + OwnCells(r)
  {
    PartsAppended(v, r);
    UnionAppend(HandleParts(v), OwnHandles(r));
    UnionAppend(MapParts(v), OwnMaps(r));
    UnionAppend(CellParts(v), OwnCells(r));
    UnionAppend(ReservedParts(v), OwnReserved(r));
  }

  lemma AppendedAddress(w: World, v: View, r: Rec)
    requires Represents(w, v) && GoodRec(r) && FreeRange(w.driver, r.addr, r.size)
    ensures forall i :: 0 <= i < |v| ==> v[i].addr != r.addr
  {
    ChunkInside(r.addr, r.size, r.chunks, 0);
    OtherEntries(w, v, r.addr, r.size);
  }

  lemma Appended(w: World, v: View, r: Rec, w': World)
    requires Represents(w, v) && GoodRec(r) && FreeRange(w.driver, r.addr, r.size)
    requires OwnHandles(r).Keys !! w.driver.handles.Keys && OwnCells(r).Keys !! w.cells.Keys
    requires w'.driver.reserved == w.driver.reserved + OwnReserved(r)
    requires w'.driver.handles == w.driver.handles + OwnHandles(r)
    requires w'.driver.maps == w.driver.maps + OwnMaps(r)
    requires w'.cells == w.cells + OwnCells(r)
    requires w'.table == w.table[r.addr := Entry(r.size, r.chunks)]
    ensures Represents(w', v + [r])
  {
    AppendedForm(w, v, r);
    UnionsAppended(v, r);
    AppendedAddress(w, v, r);
    forall i | 0 <= i < |v + [r]|
      ensures (v + [r])[i].addr in w'.table
      ensures w'.table[(v + [r])[i].addr] == Entry((v + [r])[i].size, (v + [r])[i].chunks)
    {
      if i < |v| {
        assert (v + [r])[i] == v[i];
      }
    }
  }

  // ---- my_malloc ----

  lemma {:induction false} ChunksAre(size: nat, chunkSize: nat, cell: nat -> Box, n: nat, i: nat)
    requires chunkSize > 0 && i < n && (n - 1) * chunkSize < size
    ensures ChunksUpTo(size, chunkSize, cell, n)[i].box == cell(i)
    ensures ChunksUpTo(size, chunkSize, cell, n)[i].size > 0
  {
    if i < n - 1 {
      assert (n - 1) * chunkSize == (n - 2) * chunkSize + chunkSize;
      ChunksAre(size, chunkSize, cell, n - 1, i);
    }
  }

  /** The chunks tile the allocation: all full except possibly the last. */
  lemma {:induction false} ChunksSum(size: nat, chunkSize: nat, cell: nat -> Box, n: nat)
    requires chunkSize > 0 && (n == 0 || (n - 1) * chunkSize < size)
    ensures SizeSum(ChunksUpTo(size, chunkSize, cell, n)) == Min(size, n * chunkSize)
  {
    if n > 0 {
      assert n * chunkSize == (n - 1) * chunkSize + chunkSize;
      assert n > 1 ==> (n - 1) * chunkSize == (n - 2) * chunkSize + chunkSize;
      ChunksSum(size, chunkSize, cell, n - 1);
    }
  }

  /** The cells the C library returns are new and distinct. */
  ghost predicate FreshCells(cells: map<Box, Handle>, a: MallocAnswers, n: nat) {
    && (forall i: nat :: i < n ==> a.cell(i) !in cells)
    && forall i: nat, j: nat :: i < j < n ==> a.cell(i) != a.cell(j)
  }

  lemma MallocChunksGood(size: nat, baseChunk: nat, a: MallocAnswers, cells: map<Box, Handle>)
    requires a.granularity > 0 && baseChunk > 0 && size > 0
    requires FreshCells(cells, a, |MallocChunks(size, baseChunk, a)|)
    ensures GoodChunks(RoundUp(size, a.granularity), MallocChunks(size, baseChunk, a))
    ensures forall b :: b in Boxes(MallocChunks(size, baseChunk, a)) ==> b !in cells
  {
    var aligned, chunkSize := RoundUp(size, a.granularity), RoundUp(baseChunk, a.granularity);
    RoundUpBounds(size, a.granularity);
    RoundUpBounds(baseChunk, a.granularity);
    NumChunksBounds(aligned, chunkSize);
    var n, chunks := NumChunks(aligned, chunkSize), MallocChunks(size, baseChunk, a);
    ChunksSum(aligned, chunkSize, a.cell, n);
    forall i: nat | i < n
      ensures chunks[i].box == a.cell(i) && chunks[i].size > 0
    {
      ChunksAre(aligned, chunkSize, a.cell, n, i);
    }
  }

  lemma {:induction false} AddCellsSame(cells: map<Box, Handle>, chunks: seq<Chunk>, b: Box)
    requires b in cells && b !in Boxes(chunks)
    ensures b in AddCells(cells, chunks) && AddCells(cells, chunks)[b] == cells[b]
  {
    if chunks != [] {
      var front := chunks[..|chunks| - 1];
      assert chunks[|chunks| - 1].box in Boxes(chunks);
      assert forall x :: x in Boxes(front) ==> x in Boxes(chunks);
      AddCellsSame(cells, front, b);
    }
  }

  /** Cells that are new at entry and only rewritten in between leave the others alone. */
  lemma NewCellsOnly(cells: map<Box, Handle>, after: map<Box, Handle>, chunks: seq<Chunk>)
    requires forall b :: b in Boxes(chunks) ==> b !in cells
    requires after.Keys == AddCells(cells, chunks).Keys
    requires forall b :: b in AddCells(cells, chunks) && b !in Boxes(chunks) ==> after[b] == AddCells(cells, chunks)[b]
    ensures after - Boxes(chunks) == cells
  {
    AddCellsHas(cells, chunks);
    forall b | b in cells
      ensures b in after && after[b] == cells[b]
    {
      AddCellsSame(cells, chunks, b);
    }
  }

  // ---- sizes are aligned ----

  /** r is the least multiple of the unit that is at least x. */
  ghost predicate LeastMultiple(r: int, x: int, unit: nat)
    requires unit > 0
  {
    r % unit == 0 && x <= r < x + unit
  }

  lemma RoundUpIs(x: nat, unit: nat)
    requires unit > 0
    ensures LeastMultiple(RoundUp(x, unit), x, unit)
  {
    RoundUpBounds(x, unit);
    QuotientIs(RoundUp(x, unit), unit, (x + unit - 1) / unit);
  }

  /** It is the least one. */
  lemma LeastIsLeast(r: int, x: int, unit: nat, other: int)
    requires unit > 0 && LeastMultiple(r, x, unit) && other % unit == 0 && other >= x
    ensures r <= other
  {
    QuotientBounds(r, unit);
    QuotientBounds(other, unit);
    MulMono(other / unit + 1, r / unit, unit);
    assert (other / unit + 1) * unit == other / unit * unit + unit;
  }

  /** All chunks are multiples of the granularity; all but the last have the chunk size rounded up. */
  ghost predicate AlignedChunks(chunks: seq<Chunk>, baseChunk: nat, unit: nat)
    requires unit > 0
  {
    && (forall i :: 0 <= i < |chunks| ==> chunks[i].size > 0 && chunks[i].size % unit == 0)
    && (forall i :: 0 <= i < |chunks| - 1 ==> LeastMultiple(chunks[i].size, baseChunk, unit))
    && (chunks != [] ==> chunks[|chunks| - 1].size < baseChunk + unit)
  }

  lemma {:induction false} ChunkSizeIs(size: nat, chunkSize: nat, cell: nat -> Box, n: nat, i: nat)
    requires chunkSize > 0 && i < n && (n - 1) * chunkSize < size
    ensures var chunk := ChunksUpTo(size, chunkSize, cell, n)[i];
            chunk.size == if i < n - 1 then chunkSize else Min(size - (n - 1) * chunkSize, chunkSize)
  {
    assert (n - 1) * chunkSize == (n - 2) * chunkSize + chunkSize;
    if i < n - 1 {
      ChunkSizeIs(size, chunkSize, cell, n - 1, i);
    }
  }

  lemma MultiplesSubtract(size: nat, chunkSize: nat, n: nat, unit: nat)
    requires unit > 0 && size % unit == 0 && chunkSize % unit == 0
    ensures (size - n * chunkSize) % unit == 0
  {
    QuotientBounds(size, unit);
    QuotientBounds(chunkSize, unit);
    var a, b := size / unit, chunkSize / unit;
    assert n * chunkSize == n * b * unit && (a - n * b) * unit == a * unit - n * b * unit;
    QuotientIs(size - n * chunkSize, unit, a - n * b);
  }

  lemma MallocChunksAligned(size: nat, baseChunk: nat, a: MallocAnswers)
    requires a.granularity > 0 && baseChunk > 0
    ensures AlignedChunks(MallocChunks(size, baseChunk, a), baseChunk, a.granularity)
  {
    var unit := a.granularity;
    var aligned, chunkSize := RoundUp(size, unit), RoundUp(baseChunk, unit);
    RoundUpIs(size, unit);
    RoundUpIs(baseChunk, unit);
    NumChunksBounds(aligned, chunkSize);
    var n, chunks := NumChunks(aligned, chunkSize), MallocChunks(size, baseChunk, a);
    forall i: nat | i < n
      ensures chunks[i].size > 0 && chunks[i].size % unit == 0 && chunks[i].size <= chunkSize
      ensures i < n - 1 ==> chunks[i].size == chunkSize
    {
      ChunksAre(aligned, chunkSize, a.cell, n, i);
      ChunkSizeIs(aligned, chunkSize, a.cell, n, i);
      MultiplesSubtract(aligned, chunkSize, n - 1, unit);
    }
  }

  lemma MallocChunksSum(size: nat, baseChunk: nat, a: MallocAnswers)
    requires a.granularity > 0 && baseChunk > 0
    ensures SizeSum(MallocChunks(size, baseChunk, a)) == RoundUp(size, a.granularity)
  {
    var aligned, chunkSize := RoundUp(size, a.granularity), RoundUp(baseChunk, a.granularity);
    RoundUpBounds(baseChunk, a.granularity);
    NumChunksBounds(aligned, chunkSize);
    ChunksSum(aligned, chunkSize, a.cell, NumChunks(aligned, chunkSize));
  }

  /** What my_malloc reserves is the least multiple of the granularity that is at least the request, and so is the
      entry it records; the chunks of the entry are aligned as AlignedChunks says and add up to it. */
  lemma EntryIsAligned(w: World, size: nat, baseChunk: nat, a: MallocAnswers)
    requires baseChunk > 0 && (a.granularitySt == 0 ==> a.granularity > 0) && Admitted(w, a)
    ensures var w' := AfterMalloc(w, size, baseChunk, a).0;
            a.addr in w'.driver.reserved ==> LeastMultiple(w'.driver.reserved[a.addr], size, a.granularity)
    ensures HostServes(a, |MallocChunks(size, baseChunk, a)|) ==>
              var w' := AfterMalloc(w, size, baseChunk, a).0;
              && a.addr in w'.table
              && LeastMultiple(w'.table[a.addr].size, size, a.granularity)
              && SizeSum(w'.table[a.addr].chunks) == w'.table[a.addr].size
              && AlignedChunks(w'.table[a.addr].chunks, baseChunk, a.granularity)
  {
    RoundUpIs(size, a.granularity);
    var chunks := MallocChunks(size, baseChunk, a);
    if HostServes(a, |chunks|) {
      MallocChunksAligned(size, baseChunk, a);
      MallocChunksSum(size, baseChunk, a);
      MallocIs(w, size, baseChunk, a);
      ReservedSame(Registered(w, size, baseChunk, a), a.addr, chunks, a.create);
    } else {
      Unserved(w, size, baseChunk, a);
    }
  }

  /** What the driver and the C library hand out is new: the range, the cells, the handles. Undoing a partial
      create_and_map works. */
  ghost predicate FreshAnswers(w: World, size: nat, baseChunk: nat, a: MallocAnswers)
    requires baseChunk > 0
  {
    && size > 0
    && (a.granularitySt == 0 ==>
          && a.granularity > 0
          && (a.reserve == 0 ==> FreeRange(w.driver, a.addr, RoundUp(size, a.granularity)))
          && var n := |MallocChunks(size, baseChunk, a)|;
             FreshCells(w.cells, a, n) && FreshHandles(w.driver, a.create, n))
    && UndoWorks(a.create)
  }

  /** The record of a granted request. */
  function Granted(size: nat, baseChunk: nat, a: MallocAnswers): Rec
    requires baseChunk > 0 && a.granularity > 0
  {
    var chunks := MallocChunks(size, baseChunk, a);
    Rec(a.addr, RoundUp(size, a.granularity), chunks, true, Given(a.create, |chunks|))
  }

  /** The request gets past the reservation. */
  ghost predicate Admitted(w: World, a: MallocAnswers) {
    w.error == 0 && a.context == 0 && a.granularitySt == 0 && a.reserve == 0
  }

  /** Every cell is allocated, and Python records the entry. */
  ghost predicate HostServes(a: MallocAnswers, n: nat) {
    (forall i: nat :: i < n ==> a.cellSt(i) == 0) && a.callback == Records
  }

  /** Every call of create_and_map succeeds. */
  ghost predicate MapsWell(a: CreateAnswers, n: nat) {
    a.context == 0 && AllSucceed(a, n) && a.access == 0
  }

  /** The request gets its pointer. */
  ghost predicate Succeeds(w: World, size: nat, baseChunk: nat, a: MallocAnswers)
    requires baseChunk > 0 && (a.granularitySt == 0 ==> a.granularity > 0)
  {
    Admitted(w, a) && HostServes(a, |MallocChunks(size, baseChunk, a)|)
    && MapsWell(a.create, |MallocChunks(size, baseChunk, a)|)
  }

  /** The request leaves nothing: it was refused before the reservation, or the reservation is freed again and
      create_and_map left nothing, as FailureLeavesNothingIff says. */
  ghost predicate LeavesNothing(w: World, size: nat, baseChunk: nat, a: MallocAnswers)
    requires baseChunk > 0 && (a.granularitySt == 0 ==> a.granularity > 0)
  {
    !Admitted(w, a)
    || (&& HostServes(a, |MallocChunks(size, baseChunk, a)|) && a.free == 0
        && if a.create.context == 0 then !AllSucceed(a.create, |MallocChunks(size, baseChunk, a)|)
           else a.create.create(0) != 0)
  }

  lemma Unmapped(w: World, v: View, r: Rec)
    requires Represents(w, v) && GoodRec(r) && FreeRange(w.driver, r.addr, r.size)
    ensures forall x :: x in StartMap(r.addr, r.chunks, r.held, |r.chunks|) ==> x !in w.driver.maps
  {
    ApartFromAll(w, v, r.addr, r.size);
    forall x | x in StartMap(r.addr, r.chunks, r.held, |r.chunks|)
      ensures x !in w.driver.maps
    {
      StartInside(r, x);
      if x in w.driver.maps {
        var j := UnionFrom(MapParts(v), x);
        assert GoodRec(v[j]);
        StartInside(v[j], x);
      }
    }
  }

  /** A granted request becomes a new awake allocation. */
  lemma MallocGrants(w: World, v: View, size: nat, baseChunk: nat, a: MallocAnswers)
    requires Represents(w, v) && baseChunk > 0 && FreshAnswers(w, size, baseChunk, a)
    requires Succeeds(w, size, baseChunk, a)
    ensures var (w', ptr) := AfterMalloc(w, size, baseChunk, a);
            && ptr == Some(a.addr) && w'.error == 0
            && Represents(w', v + [Granted(size, baseChunk, a)])
  {
    var r := Granted(size, baseChunk, a);
    MallocChunksGood(size, baseChunk, a, w.cells);
    assert GoodRec(r) && OwnHandles(r).Keys !! w.driver.handles.Keys by {
      FreshOwn(w, v, |v|, r, a.create);
      FreshKeys(w.driver, r.chunks, a.create, |r.chunks|);
    }
    assert OwnCells(r).Keys !! w.cells.Keys by {
      CellMapKeys(r.chunks, r.held);
    }
    GrantAdds(w, size, baseChunk, a);
    Appended(w, v, r, AfterMalloc(w, size, baseChunk, a).0);
  }

  /** What a granted request adds to the world. */
  lemma GrantAdds(w: World, size: nat, baseChunk: nat, a: MallocAnswers)
    requires baseChunk > 0 && FreshAnswers(w, size, baseChunk, a)
    requires Succeeds(w, size, baseChunk, a)
    ensures var (w', ptr), r := AfterMalloc(w, size, baseChunk, a), Granted(size, baseChunk, a);
            && ptr == Some(a.addr) && w'.error == 0
            && w'.driver.reserved == w.driver.reserved + OwnReserved(r)
            && w'.driver.handles == w.driver.handles + OwnHandles(r)
            && w'.driver.maps == w.driver.maps + OwnMaps(r)
            && w'.cells == w.cells + OwnCells(r)
            && w'.table == w.table[r.addr := Entry(r.size, r.chunks)]
  {
    var r, reg := Granted(size, baseChunk, a), Registered(w, size, baseChunk, a);
    MallocChunksGood(size, baseChunk, a, w.cells);
    MapNew(w, reg, r, a.create);
    MallocIs(w, size, baseChunk, a);
  }

  /** my_malloc past the registration is create_and_map and, if that fails, the clean-up. */
  lemma MallocIs(w: World, size: nat, baseChunk: nat, a: MallocAnswers)
    requires baseChunk > 0 && a.granularity > 0
    requires Admitted(w, a) && HostServes(a, |MallocChunks(size, baseChunk, a)|)
    ensures HaveCells(Registered(w, size, baseChunk, a).cells, MallocChunks(size, baseChunk, a))
    ensures var chunks := MallocChunks(size, baseChunk, a);
            var after := AfterCreateAndMap(Registered(w, size, baseChunk, a), a.addr, chunks, a.create);
            AfterMalloc(w, size, baseChunk, a)
            == if after.error == 0 then (after, Some(a.addr))
               else (after.(error := Noted(after.error, a.free), driver := after.driver.AddressFree(a.free, a.addr),
                            cells := after.cells - Boxes(chunks)), None)
  {
    var chunks := MallocChunks(size, baseChunk, a);
    AddCellsHas(w.cells, chunks);
    FirstFailIs(a.cellSt, |chunks|, |chunks|);
  }

  /** my_malloc when a cell or the entry is missing: it stops with the range reserved and no error noted. */
  lemma Unserved(w: World, size: nat, baseChunk: nat, a: MallocAnswers)
    requires baseChunk > 0 && a.granularity > 0
    requires Admitted(w, a) && !HostServes(a, |MallocChunks(size, baseChunk, a)|)
    ensures var (w', ptr) := AfterMalloc(w, size, baseChunk, a);
            && ptr == None && w'.error == 0 && w'.table == w.table
            && w'.driver == w.driver.Reserve(0, a.addr, RoundUp(size, a.granularity))
  {
  }

  /** Creating and mapping the chunks of a freshly registered allocation. */
  lemma MapNew(w: World, reg: World, r: Rec, a: CreateAnswers)
    requires GoodChunks(r.size, r.chunks) && r.awake && r.held == Given(a, |r.chunks|)
    requires forall b :: b in Boxes(r.chunks) ==> b !in w.cells
    requires reg == World(0, w.driver.Reserve(0, r.addr, r.size), AddCells(w.cells, r.chunks),
                          w.table[r.addr := Entry(r.size, r.chunks)])
    requires a.context == 0 && a.access == 0 && AllSucceed(a, |r.chunks|)
    ensures HaveCells(reg.cells, r.chunks)
    ensures var after := AfterCreateAndMap(reg, r.addr, r.chunks, a);
            && after.error == 0 && after.table == reg.table
            && after.driver.reserved == w.driver.reserved + OwnReserved(r)
            && after.driver.handles == w.driver.handles + OwnHandles(r)
            && after.driver.maps == w.driver.maps + OwnMaps(r)
            && after.cells == w.cells + OwnCells(r)
  {
    AddCellsHas(w.cells, r.chunks);
    var after := AfterCreateAndMap(reg, r.addr, r.chunks, a);
    assert after.error == 0 && after.driver == reg.driver.(handles := w.driver.handles + OwnHandles(r),
                                                           maps := w.driver.maps + OwnMaps(r)) by {
      SuccessMapsAll(reg, r.addr, r.chunks, a);
    }
    assert after.table == reg.table && after.cells == w.cells + OwnCells(r) by {
      CellsOfNew(w.cells, reg, r, a);
    }
    AddOne(w.driver.reserved, r.addr, r.size);
  }

  lemma AddOne<K, V>(m: map<K, V>, x: K, y: V)
    ensures m[x := y] == m + map[x := y]
  {
  }

  lemma CellsOfNew(cells: map<Box, Handle>, reg: World, r: Rec, a: CreateAnswers)
    requires GoodChunks(r.size, r.chunks) && r.held == Given(a, |r.chunks|)
    requires forall b :: b in Boxes(r.chunks) ==> b !in cells
    requires reg.error == 0 && reg.cells == AddCells(cells, r.chunks) && HaveCells(reg.cells, r.chunks)
    requires a.context == 0 && AllSucceed(a, |r.chunks|)
    ensures var after := AfterCreateAndMap(reg, r.addr, r.chunks, a);
            after.table == reg.table && after.cells == cells + OwnCells(r)
  {
    var after := AfterCreateAndMap(reg, r.addr, r.chunks, a);
    OnlyOwnCellsChange(reg, r.addr, r.chunks, a);
    SuccessFillsCells(reg, r.addr, r.chunks, a);
    NewCells(cells, after.cells, r.chunks, r.held);
  }

  lemma NewCells(cells: map<Box, Handle>, after: map<Box, Handle>, chunks: seq<Chunk>, held: seq<Handle>)
    requires forall b :: b in Boxes(chunks) ==> b !in cells
    requires after.Keys == AddCells(cells, chunks).Keys && DistinctBoxes(chunks)
    requires forall b :: b in AddCells(cells, chunks) && b !in Boxes(chunks) ==> after[b] == AddCells(cells, chunks)[b]
    requires HaveCells(after, chunks) && Contents(after, chunks) == held
    ensures after == cells + CellMap(chunks, held, |chunks|)
  {
    AddCellsHas(cells, chunks);
    CellsRewritten(after, after, chunks, held);
    CellMapKeys(chunks, held);
    NewCellsOnly(cells, after, chunks);
  }

  /** A request whose create or map calls fail, or that meets an error in its second ensure_context and fails in its
      first create, returns nothing and leaves nothing in the driver: no handle, no mapping, no reservation, no cell.
      Only Python's table and the pending error remember it. */
  lemma MallocRollsBack(w: World, v: View, size: nat, baseChunk: nat, a: MallocAnswers)
    requires Represents(w, v) && baseChunk > 0 && FreshAnswers(w, size, baseChunk, a)
    requires Admitted(w, a) && LeavesNothing(w, size, baseChunk, a)
    ensures var (w', ptr) := AfterMalloc(w, size, baseChunk, a);
            && ptr == None && w'.error != 0 && w'.driver == w.driver && w'.cells == w.cells
            && w'.table == w.table[a.addr := Entry(RoundUp(size, a.granularity), MallocChunks(size, baseChunk, a))]
            && Represents(w', v)
  {
    var r, reg := Granted(size, baseChunk, a), Registered(w, size, baseChunk, a);
    MallocChunksGood(size, baseChunk, a, w.cells);
    FreshOwn(w, v, |v|, r, a.create);
    UnmapNew(w, v, reg, r, a.create);
    MallocIs(w, size, baseChunk, a);
    OtherEntries(w, v, a.addr, r.size);
  }

  /** A failed create_and_map of a freshly registered allocation, and the clean-up after it. */
  lemma UnmapNew(w: World, v: View, reg: World, r: Rec, a: CreateAnswers)
    requires Represents(w, v) && GoodRec(r) && r.held == Given(a, |r.chunks|)
    requires FreeRange(w.driver, r.addr, r.size) && FreshHandles(w.driver, a, |r.chunks|)
    requires forall b :: b in Boxes(r.chunks) ==> b !in w.cells
    requires reg == World(0, w.driver.Reserve(0, r.addr, r.size), AddCells(w.cells, r.chunks),
                          w.table[r.addr := Entry(r.size, r.chunks)])
    requires UndoWorks(a) && if a.context == 0 then !AllSucceed(a, |r.chunks|) else a.create(0) != 0
    ensures HaveCells(reg.cells, r.chunks)
    ensures var after := AfterCreateAndMap(reg, r.addr, r.chunks, a);
            && after.error != 0 && after.table == reg.table
            && after.driver.AddressFree(0, r.addr) == w.driver && after.cells - Boxes(r.chunks) == w.cells
  {
    AddCellsHas(w.cells, r.chunks);
    var after := AfterCreateAndMap(reg, r.addr, r.chunks, a);
    assert after.error != 0 && after.driver == reg.driver by {
      if a.context == 0 {
        Unmapped(w, v, r);
        FailureLeavesNothing(reg, r.addr, r.chunks, a);
      } else {
        FirstCreateFails(reg, r.addr, r.chunks, a);
      }
    }
    assert after.table == reg.table && after.cells - Boxes(r.chunks) == w.cells by {
      OnlyOwnCellsChange(reg, r.addr, r.chunks, a);
      NewCellsOnly(w.cells, after.cells, r.chunks);
    }
    NewAddress(w, v, r.addr, r.size);
    ReserveAndFree(w.driver, r.addr, r.size);
  }

  lemma ReserveAndFree(d: Driver, addr: Addr, size: nat)
    requires addr !in d.reserved
    ensures d.Reserve(0, addr, size).AddressFree(0, addr) == d
  {
    assert d.reserved[addr := size] - {addr} == d.reserved;
  }

  lemma TakenIsNotFree(w: World, v: View, addr: Addr, size: nat)
    requires Represents(w, v) && addr in w.driver.reserved && size > 0
    ensures !FreeRange(w.driver, addr, size)
  {
    var i := UnionFrom(ReservedParts(v), addr);
    assert GoodRec(v[i]);
    ReservedHas(w, v, i);
    ChunkInside(v[i].addr, v[i].size, v[i].chunks, 0);
  }

  lemma NewAddress(w: World, v: View, addr: Addr, size: nat)
    requires Represents(w, v) && FreeRange(w.driver, addr, size) && size > 0
    ensures addr !in w.driver.reserved
  {
    if addr in w.driver.reserved {
      TakenIsNotFree(w, v, addr, size);
    }
  }

  lemma OtherEntries(w: World, v: View, addr: Addr, size: nat)
    requires Represents(w, v) && FreeRange(w.driver, addr, size) && size > 0
    ensures forall i :: 0 <= i < |v| ==> v[i].addr != addr
  {
    NewAddress(w, v, addr, size);
    forall i: nat | i < |v|
      ensures v[i].addr != addr
    {
      ReservedHas(w, v, i);
    }
  }

  /** A request refused before the reservation changes nothing but the pending error. */
  lemma MallocRefuses(w: World, v: View, size: nat, baseChunk: nat, a: MallocAnswers)
    requires Represents(w, v) && baseChunk > 0 && FreshAnswers(w, size, baseChunk, a) && !Admitted(w, a)
    ensures var (w', ptr) := AfterMalloc(w, size, baseChunk, a);
            ptr == None && w'.error != 0 && w' == w.(error := w'.error) && Represents(w', v)
  {
  }

  /** A request that neither succeeds nor leaves nothing: a range stays reserved, or a chunk stays live. */
  lemma MallocLeaks(w: World, v: View, size: nat, baseChunk: nat, a: MallocAnswers)
    requires Represents(w, v) && baseChunk > 0 && FreshAnswers(w, size, baseChunk, a)
    requires !Succeeds(w, size, baseChunk, a) && !LeavesNothing(w, size, baseChunk, a)
    ensures a.granularity > 0
    ensures var (w', ptr) := AfterMalloc(w, size, baseChunk, a);
            && ptr == None && (w'.error == 0 <==> !HostServes(a, |MallocChunks(size, baseChunk, a)|))
            && (a.addr in w'.driver.reserved || a.create.handle(0) in w'.driver.handles)
    ensures a.addr !in w.driver.reserved && a.create.handle(0) !in w.driver.handles
  {
    var chunks := MallocChunks(size, baseChunk, a);
    MallocChunksGood(size, baseChunk, a, w.cells);
    RoundUpBounds(size, a.granularity);
    NewAddress(w, v, a.addr, RoundUp(size, a.granularity));
    if HostServes(a, |chunks|) {
      MallocIs(w, size, baseChunk, a);
      CleanUpLeaks(Registered(w, size, baseChunk, a), a.addr, chunks, a.create, a.free);
    } else {
      Unserved(w, size, baseChunk, a);
    }
  }

  /** The clean-up after a failed create_and_map, when that left something or the range is not freed. */
  lemma CleanUpLeaks(reg: World, addr: Addr, chunks: seq<Chunk>, a: CreateAnswers, free: Status)
    requires HaveCells(reg.cells, chunks) && DistinctBoxes(chunks) && chunks != []
    requires reg.error == 0 && addr in reg.driver.reserved && FreshHandles(reg.driver, a, |chunks|)
    requires !MapsWell(a, |chunks|)
    requires free != 0 || if a.context == 0 then AllSucceed(a, |chunks|) else a.create(0) == 0
    ensures var after := AfterCreateAndMap(reg, addr, chunks, a);
            var d := after.driver.AddressFree(free, addr);
            after.error != 0 && (addr in d.reserved || a.handle(0) in d.handles)
  {
    ReservedSame(reg, addr, chunks, a);
    MapErrorIff(reg, addr, chunks, a);
    if if a.context == 0 then AllSucceed(a, |chunks|) else a.create(0) == 0 {
      FirstHandleLive(reg, addr, chunks, a);
    }
  }

  /** create_and_map ends with an error pending exactly when there was one before it or a call of its own failed. */
  lemma MapErrorIff(w: World, addr: Addr, chunks: seq<Chunk>, a: CreateAnswers)
    requires HaveCells(w.cells, chunks)
    ensures AfterCreateAndMap(w, addr, chunks, a).error == 0 <==> w.error == 0 && MapsWell(a, |chunks|)
  {
    CellLoopKeeps(w.cells, chunks, a, FirstFail(a.create, |chunks|));
  }

  /** my_malloc, whatever the driver, the C library and Python answer: exactly when every call succeeds it returns a
      pointer, and there is one more awake allocation; otherwise it returns null, and the driver and the cells are as
      before exactly under the condition LeavesNothing. */
  lemma MallocKeeps(w: World, v: View, size: nat, baseChunk: nat, a: MallocAnswers)
    requires Represents(w, v) && baseChunk > 0 && FreshAnswers(w, size, baseChunk, a)
    ensures var (w', ptr) := AfterMalloc(w, size, baseChunk, a);
            && (ptr.Some? <==> Succeeds(w, size, baseChunk, a))
            && (ptr.Some? ==> a.granularity > 0 && w'.error == 0 && Represents(w', v + [Granted(size, baseChunk, a)]))
            && (Represents(w', v) <==> LeavesNothing(w, size, baseChunk, a))
            && (w'.driver == w.driver <==> LeavesNothing(w, size, baseChunk, a))
            && (LeavesNothing(w, size, baseChunk, a) ==> w'.error != 0)
  {
    var w' := AfterMalloc(w, size, baseChunk, a).0;
    if !Admitted(w, a) {
      MallocRefuses(w, v, size, baseChunk, a);
    } else if Succeeds(w, size, baseChunk, a) {
      MallocGrants(w, v, size, baseChunk, a);
      GrantedIsNew(w, v, size, baseChunk, a, w');
    } else if LeavesNothing(w, size, baseChunk, a) {
      MallocRollsBack(w, v, size, baseChunk, a);
    } else {
      MallocLeaks(w, v, size, baseChunk, a);
      SameOwners(w, v, w');
    }
  }

  /** What is represented by one view is the same in every world. */
  lemma SameOwners(w: World, v: View, w': World)
    requires Represents(w, v)
    ensures Represents(w', v) ==> w'.driver.reserved == w.driver.reserved && w'.driver.handles == w.driver.handles
  {
  }

  lemma GrantedIsNew(w: World, v: View, size: nat, baseChunk: nat, a: MallocAnswers, w': World)
    requires Represents(w, v) && baseChunk > 0 && FreshAnswers(w, size, baseChunk, a)
    requires Succeeds(w, size, baseChunk, a) && w' == AfterMalloc(w, size, baseChunk, a).0
    ensures w'.driver != w.driver && !Represents(w', v)
  {
    GrantAdds(w, size, baseChunk, a);
    RoundUpBounds(size, a.granularity);
    NewAddress(w, v, a.addr, RoundUp(size, a.granularity));
    assert a.addr in w'.driver.reserved;
    SameOwners(w, v, w');
  }

  // ---- my_free ----

  /** If the driver reserves another range, it is a free one. */
  ghost predicate NewRangeFree(w: World, addr: Addr, a: ReleaseAnswers) {
    a.newAddr != addr ==> a.newAddr !in w.driver.reserved
  }

  /** No range is left reserved: the final free succeeds on a range that is still there, or the cycle has lost the
      range and left nothing else. */
  predicate RangeGone(addr: Addr, n: nat, a: ReleaseAnswers, free: Status) {
    if RangeKept(addr, n, a) then free == 0 else a.reserve != 0 || a.freeNew == 0
  }

  function FreeReserved(after: map<Addr, nat>, addr: Addr, free: Status): map<Addr, nat> {
    if free == 0 then after - {addr} else after
  }

  lemma RangeGoneIff(before: map<Addr, nat>, addr: Addr, size: nat, n: nat, a: ReleaseAnswers, free: Status)
    requires addr in before && (a.newAddr != addr ==> a.newAddr !in before)
    ensures var after := FreeReserved(ReservedAfter(before, addr, size, n, a), addr, free);
            && (after == before - {addr} <==> RangeGone(addr, n, a, free))
            && (addr in after <==> RangeKept(addr, n, a) && free != 0)
  {
    var after := FreeReserved(ReservedAfter(before, addr, size, n, a), addr, free);
    if !RangeKept(addr, n, a) && a.reserve == 0 && a.freeNew != 0 {
      assert a.newAddr in after && a.newAddr !in before;
    }
  }

  /** What my_free leaves of the world. */
  ghost predicate Leaves(w: World, r: Rec, size: nat, a: ReleaseAnswers, free: Status, w': World)
    requires HaveCells(w.cells, r.chunks) && |r.held| == |r.chunks|
  {
    var d, n := Stripped(w, r.addr, r.chunks, a), |r.chunks|;
    && w'.table == w.table - {r.addr} && w'.cells == w.cells - OwnCells(r).Keys
    && w'.driver.maps == d.maps && w'.driver.handles == d.handles
    && w'.driver.reserved == FreeReserved(ReservedAfter(w.driver.reserved, r.addr, size, n, a), r.addr, free)
  }

  lemma FreeLeaves(w: World, r: Rec, size: nat, a: ReleaseAnswers, free: Status)
    requires r.addr in w.table && w.table[r.addr] == Entry(r.size, r.chunks) && HaveCells(w.cells, r.chunks)
    requires |r.held| == |r.chunks|
    ensures Leaves(w, r, size, a, free, AfterFree(w, r.addr, size, a, free))
    ensures Rejected(|r.chunks|, a) ==> AfterFree(w, r.addr, size, a, free).error != 0
  {
    var popped := w.(table := w.table - {r.addr});
    ReleaseIs(popped, r.addr, size, r.chunks, a);
    CellMapKeys(r.chunks, r.held);
    if Rejected(|r.chunks|, a) {
      RejectionNoted(popped, r.addr, size, r.chunks, a);
    }
  }

  lemma StripsTo(w: World, v: View, k: nat, a: ReleaseAnswers, d: Driver)
    requires Represents(w, v) && k < |v| && HaveCells(w.cells, v[k].chunks) && TakesOwn(w, v[k], a)
    requires d.maps == Stripped(w, v[k].addr, v[k].chunks, a).maps
    requires d.handles == Stripped(w, v[k].addr, v[k].chunks, a).handles
    ensures d.maps == w.driver.maps - OwnMaps(v[k]).Keys && d.handles == w.driver.handles - OwnHandles(v[k]).Keys
  {
    Strips(w, v, k, a);
  }

  lemma LeavesOwn(w: World, v: View, k: nat, size: nat, a: ReleaseAnswers, free: Status, w': World)
    requires Represents(w, v) && k < |v| && HaveCells(w.cells, v[k].chunks) && TakesOwn(w, v[k], a)
    requires Leaves(w, v[k], size, a, free, w') && w'.driver.reserved == w.driver.reserved - {v[k].addr}
    ensures w'.driver.reserved == w.driver.reserved - OwnReserved(v[k]).Keys
    ensures w'.driver.handles == w.driver.handles - OwnHandles(v[k]).Keys
    ensures w'.driver.maps == w.driver.maps - OwnMaps(v[k]).Keys
    ensures w'.cells == w.cells - OwnCells(v[k]).Keys && w'.table == w.table - {v[k].addr}
  {
    StripsTo(w, v, k, a, w'.driver);
    assert OwnReserved(v[k]).Keys == {v[k].addr};
  }

  lemma FreeRemoves(w: World, v: View, k: nat, size: nat, a: ReleaseAnswers, free: Status, w': World)
    requires Represents(w, v) && k < |v| && HaveCells(w.cells, v[k].chunks) && TakesOwn(w, v[k], a)
    requires Leaves(w, v[k], size, a, free, w') && w'.driver.reserved == w.driver.reserved - {v[k].addr}
    ensures Represents(w', v[..k] + v[k + 1..])
  {
    LeavesOwn(w, v, k, size, a, free, w');
    Removed(w, v, k, w');
  }

  /** What the driver holds without one of the allocations. */
  lemma RestIs(w: World, v: View, k: nat, w': World)
    requires Represents(w, v) && k < |v| && Represents(w', v[..k] + v[k + 1..])
    ensures w'.driver.reserved == w.driver.reserved - OwnReserved(v[k]).Keys
    ensures w'.driver.handles == w.driver.handles - OwnHandles(v[k]).Keys
  {
    assert WellFormed(v) && w.driver.reserved == Union(ReservedParts(v)) && w.driver.handles == Union(HandleParts(v));
    RemovedUnions(v, k);
  }

  lemma RestOwns(r: Rec, d: Driver, d': Driver)
    requires |r.held| == |r.chunks|
    requires d'.reserved == d.reserved - OwnReserved(r).Keys && d'.handles == d.handles - OwnHandles(r).Keys
    ensures d'.reserved == d.reserved - {r.addr} && (!r.awake ==> d'.handles == d.handles)
  {
    assert OwnReserved(r).Keys == {r.addr};
    if !r.awake {
      TakeNothing(d.handles);
    }
  }

  lemma RestHarmless(w: World, v: View, k: nat, a: ReleaseAnswers, w': World)
    requires Represents(w, v) && k < |v| && HaveCells(w.cells, v[k].chunks) && !v[k].awake
    requires w'.driver.handles == Stripped(w, v[k].addr, v[k].chunks, a).handles == w.driver.handles
    ensures Harmless(w, v[k], a)
  {
    StripsAsleepIff(w, v, k, a);
  }

  /** Freeing is safe exactly when no range stays reserved and, for an asleep allocation, no stale handle is live. */
  lemma FreeKeepsIff(w: World, v: View, k: nat, size: nat, a: ReleaseAnswers, free: Status)
    requires Represents(w, v) && k < |v| && (v[k].awake ==> ReleaseWorks(a)) && NewRangeFree(w, v[k].addr, a)
    ensures v[k].addr in w.table && HaveCells(w.cells, w.table[v[k].addr].chunks)
    ensures Represents(AfterFree(w, v[k].addr, size, a, free), v[..k] + v[k + 1..])
            <==> (v[k].awake || Harmless(w, v[k], a)) && RangeGone(v[k].addr, |v[k].chunks|, a, free)
    ensures v[k].addr in AfterFree(w, v[k].addr, size, a, free).driver.reserved
            <==> RangeKept(v[k].addr, |v[k].chunks|, a) && free != 0
  {
    CellsPresent(w, v, k);
    var r, w' := v[k], AfterFree(w, v[k].addr, size, a, free);
    FreeLeaves(w, r, size, a, free);
    FreedRangeIff(w, v, k, size, a, free, w');
    if (r.awake || Harmless(w, r, a)) && RangeGone(r.addr, |r.chunks|, a, free) {
      FreeRemoves(w, v, k, size, a, free, w');
    } else if Represents(w', v[..k] + v[k + 1..]) {
      RestIs(w, v, k, w');
      RestOwns(r, w.driver, w'.driver);
      if !r.awake {
        RestHarmless(w, v, k, a, w');
      }
    }
  }

  lemma FreedRangeIff(w: World, v: View, k: nat, size: nat, a: ReleaseAnswers, free: Status, w': World)
    requires Represents(w, v) && k < |v| && HaveCells(w.cells, v[k].chunks) && Leaves(w, v[k], size, a, free, w')
    requires NewRangeFree(w, v[k].addr, a)
    ensures w'.driver.reserved == w.driver.reserved - {v[k].addr} <==> RangeGone(v[k].addr, |v[k].chunks|, a, free)
    ensures v[k].addr in w'.driver.reserved <==> RangeKept(v[k].addr, |v[k].chunks|, a) && free != 0
  {
    ReservedHas(w, v, k);
    RangeGoneIff(w.driver.reserved, v[k].addr, size, |v[k].chunks|, a, free);
  }

  /** Freeing an allocation, awake or asleep, removes exactly what it owned. */
  lemma FreeKeeps(w: World, v: View, k: nat, size: nat, a: ReleaseAnswers, free: Status)
    requires Represents(w, v) && k < |v| && TakesOwn(w, v[k], a)
    requires NewRangeFree(w, v[k].addr, a) && RangeGone(v[k].addr, |v[k].chunks|, a, free)
    ensures v[k].addr in w.table && HaveCells(w.cells, w.table[v[k].addr].chunks)
    ensures Represents(AfterFree(w, v[k].addr, size, a, free), v[..k] + v[k + 1..])
  {
    FreeKeepsIff(w, v, k, size, a, free);
  }

  lemma PartsRemoved(v: View, k: nat)
    requires Held(v) && k < |v|
    ensures var rest := v[..k] + v[k + 1..];
            && Held(rest)
            && HandleParts(rest) == HandleParts(v)[..k] + HandleParts(v)[k + 1..]
            && MapParts(rest) == MapParts(v)[..k] + MapParts(v)[k + 1..]
            && CellParts(rest) == CellParts(v)[..k] + CellParts(v)[k + 1..]
            && ReservedParts(rest) == ReservedParts(v)[..k] + ReservedParts(v)[k + 1..]
  {
  }

  lemma RemovedKeepsForm(v: View, k: nat)
    requires WellFormed(v) && k < |v|
    ensures WellFormed(v[..k] + v[k + 1..])
  {
    var rest := v[..k] + v[k + 1..];
    PartsRemoved(v, k);
    forall i, j | 0 <= i < j < |rest|
      ensures HandleParts(rest)[i].Keys !! HandleParts(rest)[j].Keys
      ensures CellParts(rest)[i].Keys !! CellParts(rest)[j].Keys
      ensures Apart(rest[i].addr, rest[i].size, rest[j].addr, rest[j].size)
    {
      var i', j' := if i < k then i else i + 1, if j < k then j else j + 1;
      assert HandleParts(v)[i'].Keys !! HandleParts(v)[j'].Keys;
      assert CellParts(v)[i'].Keys !! CellParts(v)[j'].Keys;
      assert rest[i] == v[i'] && rest[j] == v[j'];
    }
  }

  lemma Removed(w: World, v: View, k: nat, w': World)
    requires Represents(w, v) && k < |v|
    requires w'.driver.reserved == w.driver.reserved - OwnReserved(v[k]).Keys
    requires w'.driver.handles == w.driver.handles - OwnHandles(v[k]).Keys
    requires w'.driver.maps == w.driver.maps - OwnMaps(v[k]).Keys
    requires w'.cells == w.cells - OwnCells(v[k]).Keys
    requires w'.table == w.table - {v[k].addr}
    ensures Represents(w', v[..k] + v[k + 1..])
  {
    var rest := v[..k] + v[k + 1..];
    RemovedKeepsForm(v, k);
    assert w'.driver.reserved == Union(ReservedParts(rest)) && w'.driver.handles == Union(HandleParts(rest))
      && w'.driver.maps == Union(MapParts(rest)) && w'.cells == Union(CellParts(rest)) by {
      RemovedUnions(v, k);
    }
    RemovedEntries(w, v, k);
  }

  lemma RemovedEntries(w: World, v: View, k: nat)
    requires Represents(w, v) && k < |v|
    ensures var rest := v[..k] + v[k + 1..];
            forall i :: 0 <= i < |rest| ==>
              rest[i].addr in w.table - {v[k].addr}
              && (w.table - {v[k].addr})[rest[i].addr] == Entry(rest[i].size, rest[i].chunks)
  {
    var rest := v[..k] + v[k + 1..];
    forall i: nat | i < |rest|
      ensures rest[i].addr in w.table && rest[i].addr != v[k].addr
      ensures w.table[rest[i].addr] == Entry(rest[i].size, rest[i].chunks)
    {
      var j := if i < k then i else i + 1;
      assert rest[i] == v[j];
      SameAddress(v, j, k);
    }
  }

  lemma RemovedUnions(v: View, k: nat)
    requires WellFormed(v) && k < |v|
    ensures var rest := v[..k] + v[k + 1..];
            && Held(rest)
            && Union(HandleParts(rest)) == Union(HandleParts(v)) - OwnHandles(v[k]).Keys
            && Union(MapParts(rest)) == Union(MapParts(v)) - OwnMaps(v[k]).Keys
            && Union(CellParts(rest)) == Union(CellParts(v)) - OwnCells(v[k]).Keys
            && Union(ReservedParts(rest)) == Union(ReservedParts(v)) - OwnReserved(v[k]).Keys
  {
    PartsRemoved(v, k);
    MapPartsDisjoint(v);
    UnionRemove(HandleParts(v), k);
    UnionRemove(MapParts(v), k);
    UnionRemove(CellParts(v), k);
    UnionRemove(ReservedParts(v), k);
  }

  lemma SameAddress(v: View, i: nat, j: nat)
    requires WellFormed(v) && i < |v| && j < |v| && i != j
    ensures v[i].addr != v[j].addr
  {
    assert i < j ==> Apart(v[i].addr, v[i].size, v[j].addr, v[j].size);
    assert j < i ==> Apart(v[j].addr, v[j].size, v[i].addr, v[i].size);
    assert GoodRec(v[i]) && GoodRec(v[j]);
    ChunkInside(v[i].addr, v[i].size, v[i].chunks, 0);
    ChunkInside(v[j].addr, v[j].size, v[j].chunks, 0);
  }

  // ---- runs ----

  datatype Event =
    | EMalloc(size: nat, baseChunk: nat, malloc: MallocAnswers)
    | ESleep(k: nat, sleep: ReleaseAnswers)
    | EWake(k: nat, wake: CreateAnswers)
    | EFree(k: nat, freeSize: nat, free: ReleaseAnswers, freeSt: Status)

  datatype State = State(w: World, v: View)

  /** What a run may contain: calls that leave every live allocation with what it owns, and nothing else. Requests may
      fail as in MallocKeeps. Any allocation may be put to sleep or freed, asleep or awake, under the exact conditions
      of SleepKeepsIff and FreeKeepsIff. Any allocation may be woken, with or without an error pending, if the first
      create fails; else it must be asleep and no error pending, by WakeAwakeKeepsIff and ChunkFaults. */
  ghost predicate Allowed(s: State, e: Event) {
    match e
    case EMalloc(size, baseChunk, a) =>
      && baseChunk > 0 && FreshAnswers(s.w, size, baseChunk, a)
      && (Succeeds(s.w, size, baseChunk, a) || LeavesNothing(s.w, size, baseChunk, a))
    case ESleep(k, a) =>
      k < |s.v| && TakesOwn(s.w, s.v[k], a) && RangeKept(s.v[k].addr, |s.v[k].chunks|, a)
    case EWake(k, a) =>
      && k < |s.v|
      && (a.create(0) != 0
          || (&& !s.v[k].awake && Noted(s.w.error, a.context) == 0
              && UndoWorks(a) && FreshHandles(s.w.driver, a, |s.v[k].chunks|)))
    case EFree(k, _, a, st) =>
      && k < |s.v| && TakesOwn(s.w, s.v[k], a) && NewRangeFree(s.w, s.v[k].addr, a)
      && RangeGone(s.v[k].addr, |s.v[k].chunks|, a, st)
  }

  /** What one call does to the list of live allocations. */
  ghost function NextView(s: State, e: Event): View
    requires Represents(s.w, s.v) && Allowed(s, e)
  {
    match e
    case EMalloc(size, baseChunk, a) =>
      var (_, ptr) := AfterMalloc(s.w, size, baseChunk, a);
      MallocKeeps(s.w, s.v, size, baseChunk, a);
      if ptr.Some? then s.v + [Granted(size, baseChunk, a)] else s.v
    case ESleep(k, a) => s.v[k := s.v[k].(awake := false)]
    case EWake(k, a) =>
      CellsPresent(s.w, s.v, k);
      if a.create(0) != 0 then s.v
      else
        WakeKeeps(s.w, s.v, k, a);
        var (w', _) := AfterWake(s.w, s.v[k].addr, Entry(s.v[k].size, s.v[k].chunks), a);
        s.v[k := Woken(s.v[k], w', AllSucceed(a, |s.v[k].chunks|))]
    case EFree(k, _, _, _) => s.v[..k] + s.v[k + 1..]
  }

  /** What one call does to the world. */
  ghost function NextWorld(s: State, e: Event): World
    requires Represents(s.w, s.v) && Allowed(s, e)
  {
    match e
    case EMalloc(size, baseChunk, a) => AfterMalloc(s.w, size, baseChunk, a).0
    case ESleep(k, a) =>
      CellsPresent(s.w, s.v, k);
      AfterSleep(s.w, s.v[k].addr, Entry(s.v[k].size, s.v[k].chunks), a).0
    case EWake(k, a) =>
      CellsPresent(s.w, s.v, k);
      AfterWake(s.w, s.v[k].addr, Entry(s.v[k].size, s.v[k].chunks), a).0
    case EFree(k, size, a, st) =>
      CellsPresent(s.w, s.v, k);
      AfterFree(s.w, s.v[k].addr, size, a, st)
  }

  lemma NextKeeps(s: State, e: Event)
    requires Represents(s.w, s.v) && Allowed(s, e)
    ensures Represents(NextWorld(s, e), NextView(s, e))
  {
    match e
    case EMalloc(size, baseChunk, a) => MallocKeeps(s.w, s.v, size, baseChunk, a);
    case ESleep(k, a) => SleepKeeps(s.w, s.v, k, a);
    case EWake(k, a) =>
      if a.create(0) != 0 {
        WakeRefused(s.w, s.v, k, a);
      } else {
        WakeKeeps(s.w, s.v, k, a);
      }
    case EFree(k, size, a, st) => FreeKeeps(s.w, s.v, k, size, a, st);
  }

  ghost function Next(s: State, e: Event): (s': State)
    requires Represents(s.w, s.v) && Allowed(s, e)
    ensures Represents(s'.w, s'.v)
  {
    NextKeeps(s, e);
    State(NextWorld(s, e), NextView(s, e))
  }

  ghost predicate AllowedRun(s: State, events: seq<Event>)
    requires Represents(s.w, s.v)
    decreases |events|
  {
    events == [] || (Allowed(s, events[0]) && AllowedRun(Next(s, events[0]), events[1..]))
  }

  ghost function RunOf(s: State, events: seq<Event>): (s': State)
    requires Represents(s.w, s.v) && AllowedRun(s, events)
    decreases |events|
  {
    if events == [] then s else RunOf(Next(s, events[0]), events[1..])
  }

  ghost function Initial(): (s: State)
    ensures Represents(s.w, s.v)
  {
    State(World(0, Driver(map[], map[], map[]), map[], map[]), [])
  }

  /** After any run the driver holds exactly what the live allocations own. */
  lemma {:induction false} RunKeeps(s: State, events: seq<Event>)
    requires Represents(s.w, s.v) && AllowedRun(s, events)
    ensures Represents(RunOf(s, events).w, RunOf(s, events).v)
    decreases |events|
  {
    if events != [] {
      RunKeeps(Next(s, events[0]), events[1..]);
    }
  }

  /** Where allocation i is in the list after the event. */
  function IndexAfter(e: Event, i: nat): nat {
    if e.EFree? && e.k < i then i - 1 else i
  }

  /** The run does not free the allocation that is i-th in the list at its start. */
  predicate NeverFreed(events: seq<Event>, i: nat)
    decreases |events|
  {
    events == [] || (!(events[0].EFree? && events[0].k == i) && NeverFreed(events[1..], IndexAfter(events[0], i)))
  }

  function IndexAfterAll(events: seq<Event>, i: nat): nat
    decreases |events|
  {
    if events == [] then i else IndexAfterAll(events[1..], IndexAfter(events[0], i))
  }

  /** Over every run that does not free it, an allocation keeps its address, its size, its chunks and its reserved
      range, whatever happens to the others. */
  lemma {:induction false} AddressesStable(s: State, events: seq<Event>, i: nat)
    requires Represents(s.w, s.v) && AllowedRun(s, events) && i < |s.v| && NeverFreed(events, i)
    ensures var s', i' := RunOf(s, events), IndexAfterAll(events, i);
            && i' < |s'.v| && s'.v[i'].addr == s.v[i].addr && s'.v[i'].size == s.v[i].size
            && s'.v[i'].chunks == s.v[i].chunks
            && s.v[i].addr in s'.w.driver.reserved && s'.w.driver.reserved[s.v[i].addr] == s.v[i].size
    decreases |events|
  {
    if events == [] {
      ReservedHas(s.w, s.v, i);
    } else {
      NextKeepsAddress(s, events[0], i);
      AddressesStable(Next(s, events[0]), events[1..], IndexAfter(events[0], i));
    }
  }

  ghost predicate SameRange(r: Rec, r': Rec) {
    r'.addr == r.addr && r'.size == r.size && r'.chunks == r.chunks
  }

  lemma ReplacedKeepsRange(v: View, k: nat, r: Rec, i: nat)
    requires k < |v| && i < |v| && SameRange(v[k], r)
    ensures SameRange(v[i], v[k := r][i])
  {
  }

  lemma NextKeepsAddress(s: State, e: Event, i: nat)
    requires Represents(s.w, s.v) && Allowed(s, e) && i < |s.v| && !(e.EFree? && e.k == i)
    ensures IndexAfter(e, i) < |NextView(s, e)| && SameRange(s.v[i], NextView(s, e)[IndexAfter(e, i)])
  {
    var v' := NextView(s, e);
    match e
    case EMalloc(_, _, _) => assert v'[i] == s.v[i];
    case ESleep(k, _) => ReplacedKeepsRange(s.v, k, s.v[k].(awake := false), i);
    case EWake(k, a) =>
      if a.create(0) == 0 {
        ReplacedKeepsRange(s.v, k, v'[k], i);
      }
    case EFree(k, _, _, _) => assert v'[if k < i then i - 1 else i] == s.v[i];
  }

  // ---- what the representation says about memory ----

  function AwakeBytes(v: View): nat {
    if v == [] then 0
    else AwakeBytes(v[..|v| - 1]) + if v[|v| - 1].awake then v[|v| - 1].size else 0
  }

  lemma {:induction false} HandleTotal(chunks: seq<Chunk>, held: seq<Handle>, k: nat)
    requires k <= |chunks| == |held| && Distinct(held)
    ensures Total(HandleMap(chunks, held, k)) == SizeSum(chunks[..k])
  {
    if k > 0 {
      HandleTotal(chunks, held, k - 1);
      HandleKeys(chunks, held, k - 1, held[k - 1]);
      var m := HandleMap(chunks, held, k);
      TotalTake(m, held[k - 1]);
      assert m - {held[k - 1]} == HandleMap(chunks, held, k - 1);
      assert chunks[..k][..k - 1] == chunks[..k - 1];
    }
  }

  lemma {:induction false} HandlesTotal(v: View)
    requires WellFormed(v)
    ensures Total(Union(HandleParts(v))) == AwakeBytes(v)
  {
    if v != [] {
      var last := |v| - 1;
      var front, r := v[..last], v[last];
      RemovedKeepsForm(v, last);
      assert v[..last] + v[last + 1..] == front;
      HandlesTotal(front);
      assert HandleParts(v)[..last] == HandleParts(front);
      assert HandleParts(v) == HandleParts(front) + [OwnHandles(r)];
      PartApart(HandleParts(v), last);
      TotalUnion(Union(HandleParts(front)), OwnHandles(r));
      if r.awake {
        HandleTotal(r.chunks, r.held, |r.chunks|);
        assert r.chunks[..|r.chunks|] == r.chunks;
      }
    }
  }

  /** Live physical bytes equal the sizes of the awake allocations. */
  lemma PhysicalBytes(w: World, v: View)
    requires Represents(w, v)
    ensures Total(w.driver.handles) == AwakeBytes(v)
  {
    HandlesTotal(v);
  }

  /** A run that frees everything it allocated leaves the driver and the cells empty. */
  lemma FreedEverything(events: seq<Event>)
    requires AllowedRun(Initial(), events) && RunOf(Initial(), events).v == []
    ensures var w := RunOf(Initial(), events).w; w.driver == Driver(map[], map[], map[]) && w.cells == map[]
  {
    RunKeeps(Initial(), events);
  }

  /** The mapping at m covers address x. */
  ghost predicate Covers(d: Driver, m: Addr, x: Addr) {
    m in d.maps && m <= x < m + d.maps[m].size
  }

  lemma {:induction false} ChunkCovering(addr: Addr, chunks: seq<Chunk>, k: nat, x: Addr) returns (i: nat)
    requires k <= |chunks| && addr <= x < Start(addr, chunks, k)
    ensures i < k && Start(addr, chunks, i) <= x < Start(addr, chunks, i) + chunks[i].size
  {
    assert chunks[..0] == [];
    StartStep(addr, chunks, k - 1);
    if x < Start(addr, chunks, k - 1) {
      i := ChunkCovering(addr, chunks, k - 1, x);
    } else {
      i := k - 1;
    }
  }

  lemma {:induction false} StartMapAt(addr: Addr, chunks: seq<Chunk>, held: seq<Handle>, k: nat, i: nat)
    requires i < k <= |chunks| == |held|
    requires forall j :: 0 <= j < |chunks| ==> chunks[j].size > 0
    ensures Start(addr, chunks, i) in StartMap(addr, chunks, held, k)
    ensures StartMap(addr, chunks, held, k)[Start(addr, chunks, i)] == Mapping(chunks[i].size, held[i])
  {
    if i < k - 1 {
      StartMapAt(addr, chunks, held, k - 1, i);
      StartStep(addr, chunks, i);
      StartOrder(addr, chunks, i + 1, k - 1);
    }
  }

  lemma {:induction false} HandleAt(chunks: seq<Chunk>, held: seq<Handle>, k: nat, i: nat)
    requires i < k <= |chunks| == |held| && Distinct(held)
    ensures held[i] in HandleMap(chunks, held, k) && HandleMap(chunks, held, k)[held[i]] == chunks[i].size
  {
    if i < k - 1 {
      HandleAt(chunks, held, k - 1, i);
    }
  }

  /** Every byte of an awake allocation is backed by a mapping of live physical memory of the same size. */
  lemma ByteBacked(w: World, v: View, k: nat, x: Addr) returns (m: Addr)
    requires Represents(w, v) && k < |v| && v[k].awake && v[k].addr <= x < v[k].addr + v[k].size
    ensures Covers(w.driver, m, x)
    ensures w.driver.maps[m].handle in w.driver.handles
    ensures w.driver.handles[w.driver.maps[m].handle] == w.driver.maps[m].size
  {
    var r := v[k];
    assert GoodRec(r);
    assert r.chunks[..|r.chunks|] == r.chunks;
    var i := ChunkCovering(r.addr, r.chunks, |r.chunks|, x);
    m := Start(r.addr, r.chunks, i);
    StartMapAt(r.addr, r.chunks, r.held, |r.chunks|, i);
    HandleAt(r.chunks, r.held, |r.chunks|, i);
    MapPartsDisjoint(v);
    UnionHas(MapParts(v), k, m);
    UnionHas(HandleParts(v), k, r.held[i]);
  }

  /** A mapping lies inside one awake allocation, as one of its chunks. */
  lemma MappingInside(w: World, v: View, m: Addr) returns (k: nat, i: nat)
    requires Represents(w, v) && m in w.driver.maps
    ensures k < |v| && v[k].awake && i < |v[k].chunks|
    ensures m == Start(v[k].addr, v[k].chunks, i) && w.driver.maps[m] == Mapping(v[k].chunks[i].size, v[k].held[i])
    ensures v[k].addr <= m && m + w.driver.maps[m].size <= v[k].addr + v[k].size
  {
    k := UnionFrom(MapParts(v), m);
    var r := v[k];
    assert GoodRec(r);
    StartKeys(r.addr, r.chunks, r.held, |r.chunks|, m);
    i :| 0 <= i < |r.chunks| && Start(r.addr, r.chunks, i) == m;
    StartMapAt(r.addr, r.chunks, r.held, |r.chunks|, i);
    ChunkInside(r.addr, r.size, r.chunks, i);
  }

  /** No byte is covered twice, so the chunks of an awake allocation tile its range. */
  lemma CoveredOnce(w: World, v: View, m: Addr, m': Addr, x: Addr)
    requires Represents(w, v) && Covers(w.driver, m, x) && Covers(w.driver, m', x)
    ensures m == m'
  {
    var k, i := MappingInside(w, v, m);
    var k', i' := MappingInside(w, v, m');
    assert k < k' ==> Apart(v[k].addr, v[k].size, v[k'].addr, v[k'].size);
    assert k' < k ==> Apart(v[k'].addr, v[k'].size, v[k].addr, v[k].size);
    var addr, chunks := v[k].addr, v[k].chunks;
    if i < i' {
      StartStep(addr, chunks, i);
      StartOrder(addr, chunks, i + 1, i');
    } else if i' < i {
      StartStep(addr, chunks, i');
      StartOrder(addr, chunks, i' + 1, i);
    }
  }

  /** No byte of an asleep allocation is backed. */
  lemma AsleepNotCovered(w: World, v: View, k: nat, m: Addr, x: Addr)
    requires Represents(w, v) && k < |v| && !v[k].awake && v[k].addr <= x < v[k].addr + v[k].size
    ensures !Covers(w.driver, m, x)
  {
    OutsideOthers(v, k, x);
    if Covers(w.driver, m, x) {
      var j, _ := MappingInside(w, v, m);
    }
  }
}
