/**
 The chunked sleep-mode allocator (ROCm side): a virtual range is reserved once, its physical memory is
 created and mapped in chunks, given back when the model sleeps, and created again at the same address.

 The driver is outside the model. What it answers during one call is an input, a record of status codes
 and returned values, so a statement about all such records is a statement about every way the driver can
 behave. A call answering 0 has its effect, a call answering anything else has none.
 */
module ChunkAllocator {
  import opened Collections

  type Addr = nat
  type Handle = nat  // physical allocation, as the driver names it
  type Box = nat     // address of the malloc'ed cell that holds a handle
  type Status = int  // 0 is success

  datatype Chunk = Chunk(box: Box, size: nat)

  /** What the Python side keeps for a pointer: the aligned size and the (cell, size) pairs. */
  datatype Entry = Entry(size: nat, chunks: seq<Chunk>)

  datatype Mapping = Mapping(size: nat, handle: Handle)

  /** Driver state: reserved ranges, live physical allocations, mappings by start address. */
  datatype Driver = Driver(reserved: map<Addr, nat>, handles: map<Handle, nat>, maps: map<Addr, Mapping>) {

    function Reserve(st: Status, addr: Addr, size: nat): Driver {
      if st == 0 then this.(reserved := reserved[addr := size]) else this
    }

    function AddressFree(st: Status, addr: Addr): Driver {
      if st == 0 then this.(reserved := reserved - {addr}) else this
    }

    function Create(st: Status, h: Handle, size: nat): Driver {
      if st == 0 then this.(handles := handles[h := size]) else this
    }

    function Release(st: Status, h: Handle): Driver {
      if st == 0 then this.(handles := handles - {h}) else this
    }

    function Map(st: Status, addr: Addr, size: nat, h: Handle): Driver {
      if st == 0 then this.(maps := maps[addr := Mapping(size, h)]) else this
    }

    function Unmap(st: Status, addr: Addr): Driver {
      if st == 0 then this.(maps := maps - {addr}) else this
    }
  }

  /** Everything the calls read and write: the sticky error_code, the driver, the cells, Python's table. */
  datatype World = World(error: Status, driver: Driver, cells: map<Box, Handle>, table: map<Addr, Entry>)

  /** The driver's answers during one create_and_map. */
  datatype CreateAnswers = CreateAnswers(
    context: Status,          // the last non-zero status of ensure_context
    create: nat -> Status, handle: nat -> Handle, map_: nat -> Status,
    undoUnmap: nat -> Status, undoRelease: nat -> Status,
    access: Status)

  /** The driver's answers during one unmap_and_release. */
  datatype ReleaseAnswers = ReleaseAnswers(
    context: Status,
    unmap: nat -> Status, release: nat -> Status,
    free: Status, reserve: Status, newAddr: Addr, freeNew: Status)

  /** What becomes of the call into Python: the entry is recorded, the callback raises, or none is set. */
  datatype Callback = Records | Raises | Missing

  /** The answers of the driver, the C library and Python during one my_malloc. */
  datatype MallocAnswers = MallocAnswers(
    context: Status, granularitySt: Status, granularity: nat,
    reserve: Status, addr: Addr,
    cellSt: nat -> Status, cell: nat -> Box,  // malloc of cell i: 0 unless it returns null
    callback: Callback,
    create: CreateAnswers, free: Status)

  // ---- chunk layout ----

  function SizeSum(chunks: seq<Chunk>): nat {
    if chunks == [] then 0 else SizeSum(chunks[..|chunks| - 1]) + chunks[|chunks| - 1].size
  }

  /** Where chunk i of an allocation starts. */
  function Start(addr: Addr, chunks: seq<Chunk>, i: nat): Addr
    requires i <= |chunks|
  {
    addr + SizeSum(chunks[..i])
  }

  lemma StartStep(addr: Addr, chunks: seq<Chunk>, i: nat)
    requires i < |chunks|
    ensures Start(addr, chunks, i + 1) == Start(addr, chunks, i) + chunks[i].size
  {
    assert chunks[..i + 1][..i] == chunks[..i];
  }

  function RoundUp(x: nat, unit: nat): (r: nat)
    requires unit > 0
  {
    (x + unit - 1) / unit * unit
  }

  function Min(a: nat, b: nat): nat {
    if a < b then a else b
  }

  /** The first n chunks of an allocation: full chunks, the last one possibly shorter. */
  function ChunksUpTo(size: nat, chunkSize: nat, cell: nat -> Box, n: nat): (chunks: seq<Chunk>)
    requires n == 0 || (n - 1) * chunkSize <= size
    ensures |chunks| == n
  {
    if n == 0 then []
    else
      assert n > 1 ==> (n - 1) * chunkSize == (n - 2) * chunkSize + chunkSize;
      ChunksUpTo(size, chunkSize, cell, n - 1) + [Chunk(cell(n - 1), Min(size - (n - 1) * chunkSize, chunkSize))]
  }

  function NumChunks(size: nat, chunkSize: nat): nat
    requires chunkSize > 0
  {
    (size + chunkSize - 1) / chunkSize
  }

  lemma NumChunksBounds(size: nat, chunkSize: nat)
    requires chunkSize > 0
    ensures var n := NumChunks(size, chunkSize);
            size <= n * chunkSize && (n == 0 <==> size == 0) && (n > 0 ==> (n - 1) * chunkSize < size)
  {
    var n := NumChunks(size, chunkSize);
    assert size + chunkSize - 1 == n * chunkSize + (size + chunkSize - 1) % chunkSize;
    assert n > 0 ==> n * chunkSize == (n - 1) * chunkSize + chunkSize;
  }

  // ---- the loops of create_and_map and unmap_and_release ----

  /** The first index at which a call answers non-zero, or n. */
  function FirstFail(st: nat -> Status, n: nat): (k: nat)
    ensures k <= n && (k < n ==> st(k) != 0) && forall i: nat :: i < k ==> st(i) == 0
  {
    if n == 0 then 0
    else
      var k := FirstFail(st, n - 1);
      if k < n - 1 || st(n - 1) != 0 then k else n
  }

  lemma FirstFailIs(st: nat -> Status, n: nat, k: nat)
    requires k <= n && (k < n ==> st(k) != 0) && forall i: nat :: i < k ==> st(i) == 0
    ensures FirstFail(st, n) == k
  {
  }

  /** The first non-zero status of n calls, or 0. */
  function FirstError(st: nat -> Status, n: nat): Status {
    if n == 0 then 0
    else
      var before := FirstError(st, n - 1);
      if before != 0 then before else st(n - 1)
  }

  /** The driver after the first k chunks were created. */
  function CreateLoop(d: Driver, chunks: seq<Chunk>, a: CreateAnswers, k: nat): Driver
    requires k <= |chunks|
  {
    if k == 0 then d else CreateLoop(d, chunks, a, k - 1).Create(0, a.handle(k - 1), chunks[k - 1].size)
  }

  /** The cells after the first k chunks were created. */
  function CellLoop(cells: map<Box, Handle>, chunks: seq<Chunk>, a: CreateAnswers, k: nat): map<Box, Handle>
    requires k <= |chunks|
  {
    if k == 0 then cells else CellLoop(cells, chunks, a, k - 1)[chunks[k - 1].box := a.handle(k - 1)]
  }

  /** All cells of the chunks exist. */
  ghost predicate HaveCells(cells: map<Box, Handle>, chunks: seq<Chunk>) {
    forall i :: 0 <= i < |chunks| ==> chunks[i].box in cells
  }

  /** The driver after the first k chunks were mapped, each right after the one before it. */
  function MapLoop(d: Driver, cells: map<Box, Handle>, addr: Addr, chunks: seq<Chunk>, k: nat): Driver
    requires k <= |chunks| && HaveCells(cells, chunks)
  {
    if k == 0 then d
    else
      MapLoop(d, cells, addr, chunks, k - 1)
        .Map(0, Start(addr, chunks, k - 1), chunks[k - 1].size, cells[chunks[k - 1].box])
  }

  function UnmapLoop(d: Driver, addr: Addr, chunks: seq<Chunk>, st: nat -> Status, k: nat): Driver
    requires k <= |chunks|
  {
    if k == 0 then d else UnmapLoop(d, addr, chunks, st, k - 1).Unmap(st(k - 1), Start(addr, chunks, k - 1))
  }

  function ReleaseLoop(d: Driver, cells: map<Box, Handle>, chunks: seq<Chunk>, st: nat -> Status, k: nat): Driver
    requires k <= |chunks| && HaveCells(cells, chunks)
  {
    if k == 0 then d else ReleaseLoop(d, cells, chunks, st, k - 1).Release(st(k - 1), cells[chunks[k - 1].box])
  }

  lemma {:induction false} CellLoopKeeps(cells: map<Box, Handle>, chunks: seq<Chunk>, a: CreateAnswers, k: nat)
    requires k <= |chunks| && HaveCells(cells, chunks)
    ensures CellLoop(cells, chunks, a, k).Keys == cells.Keys
  {
    if k > 0 {
      CellLoopKeeps(cells, chunks, a, k - 1);
    }
  }

  // ---- the calls as functions of the driver's answers ----

  function Noted(error: Status, st: Status): Status {
    if st != 0 then st else error
  }

  /** create_and_map entered with an error pending: the first create is tried, and then left as it is. */
  function FailedEntry(w: World, chunks: seq<Chunk>, a: CreateAnswers): World
    requires chunks != []
  {
    if a.create(0) != 0 then w.(error := a.create(0))
    else
      w.(driver := w.driver.Create(0, a.handle(0), chunks[0].size), cells := w.cells[chunks[0].box := a.handle(0)])
  }

  /** create_and_map. The tests look at the sticky error code, not at the status just returned. */
  function AfterCreateAndMap(w: World, addr: Addr, chunks: seq<Chunk>, a: CreateAnswers): World
    requires HaveCells(w.cells, chunks)
  {
    var error, n := Noted(w.error, a.context), |chunks|;
    if n > 0 && error != 0 then FailedEntry(w.(error := error), chunks, a)
    else
      var k := FirstFail(a.create, n);
      var created, cells := CreateLoop(w.driver, chunks, a, k), CellLoop(w.cells, chunks, a, k);
      CellLoopKeeps(w.cells, chunks, a, k);
      if k < n then
        w.(error := a.create(k), driver := ReleaseLoop(created, cells, chunks, a.undoRelease, k), cells := cells)
      else
        var m := FirstFail(a.map_, n);
        var mapped := MapLoop(created, cells, addr, chunks, m);
        if m < n then
          w.(error := a.map_(m), cells := cells,
             driver := ReleaseLoop(UnmapLoop(mapped, addr, chunks, a.undoUnmap, m), cells, chunks, a.undoRelease, n))
        else
          w.(error := Noted(error, a.access), driver := mapped, cells := cells)
  }

  /** unmap_and_release, including the free-and-reserve cycle that makes the driver return the pages. */
  function AfterUnmapAndRelease(w: World, addr: Addr, size: nat, chunks: seq<Chunk>, a: ReleaseAnswers): World
    requires HaveCells(w.cells, chunks)
  {
    var n := |chunks|;
    var error := Noted(w.error, a.context);
    var unmapped := UnmapLoop(w.driver, addr, chunks, a.unmap, n);
    var released := ReleaseLoop(unmapped, w.cells, chunks, a.release, n);
    var first := if FirstError(a.unmap, n) != 0 then FirstError(a.unmap, n) else FirstError(a.release, n);
    if first != 0 then w.(error := first, driver := released)
    else if a.free != 0 then w.(error := a.free, driver := released)
    else
      var freed := released.AddressFree(0, addr);
      if a.reserve != 0 then w.(error := a.reserve, driver := freed)
      else if a.newAddr != addr then
        w.(error := 1, driver := freed.Reserve(0, a.newAddr, size).AddressFree(a.freeNew, a.newAddr))
      else w.(error := error, driver := freed.Reserve(0, addr, size))
  }

  function AddCells(cells: map<Box, Handle>, chunks: seq<Chunk>): map<Box, Handle> {
    if chunks == [] then cells
    else AddCells(cells, chunks[..|chunks| - 1])[chunks[|chunks| - 1].box := 0]
  }

  lemma {:induction false} AddCellsHas(cells: map<Box, Handle>, chunks: seq<Chunk>)
    ensures HaveCells(AddCells(cells, chunks), chunks)
    ensures AddCells(cells, chunks).Keys == cells.Keys + Boxes(chunks)
  {
    if chunks != [] {
      AddCellsHas(cells, chunks[..|chunks| - 1]);
      assert chunks == chunks[..|chunks| - 1] + [chunks[|chunks| - 1]];
    }
  }

  function Boxes(chunks: seq<Chunk>): set<Box> {
    set i | 0 <= i < |chunks| :: chunks[i].box
  }

  /** The chunks my_malloc makes for a request: both sizes rounded up to the granularity. */
  function MallocChunks(size: nat, baseChunk: nat, a: MallocAnswers): seq<Chunk>
    requires a.granularity > 0 && baseChunk > 0
  {
    var aligned, chunkSize := RoundUp(size, a.granularity), RoundUp(baseChunk, a.granularity);
    RoundUpBounds(baseChunk, a.granularity);
    NumChunksBounds(aligned, chunkSize);
    ChunksUpTo(aligned, chunkSize, a.cell, NumChunks(aligned, chunkSize))
  }

  lemma RoundUpBounds(x: nat, unit: nat)
    requires unit > 0
    ensures x <= RoundUp(x, unit) < x + unit
  {
    assert x + unit - 1 == RoundUp(x, unit) + (x + unit - 1) % unit;
  }

  /** The world after the reservation, when Python has recorded the allocation and nothing is created yet. */
  function Registered(w: World, size: nat, baseChunk: nat, a: MallocAnswers): World
    requires a.granularity > 0 && baseChunk > 0
  {
    var aligned, chunks := RoundUp(size, a.granularity), MallocChunks(size, baseChunk, a);
    World(0, w.driver.Reserve(0, a.addr, aligned), AddCells(w.cells, chunks),
          w.table[a.addr := Entry(aligned, chunks)])
  }

  /** The world when a cell could not be allocated: those before it are freed, the range stays reserved. */
  function WithoutCells(w: World, size: nat, baseChunk: nat, a: MallocAnswers): World
    requires a.granularity > 0 && baseChunk > 0
  {
    var chunks := MallocChunks(size, baseChunk, a);
    var made := chunks[..FirstFail(a.cellSt, |chunks|)];
    w.(driver := w.driver.Reserve(0, a.addr, RoundUp(size, a.granularity)),
       cells := AddCells(w.cells, made) - Boxes(made))
  }

  /** The world when Python did not record the allocation: the range stays reserved and the cells are lost. */
  function Unrecorded(w: World, size: nat, baseChunk: nat, a: MallocAnswers): World
    requires a.granularity > 0 && baseChunk > 0
  {
    w.(driver := w.driver.Reserve(0, a.addr, RoundUp(size, a.granularity)),
       cells := AddCells(w.cells, MallocChunks(size, baseChunk, a)))
  }

  /** my_malloc: the new world and the pointer, if any. */
  function AfterMalloc(w: World, size: nat, baseChunk: nat, a: MallocAnswers): (World, Option<Addr>)
    requires baseChunk > 0 && (a.granularitySt == 0 ==> a.granularity > 0)
  {
    var error := Noted(Noted(w.error, a.context), a.granularitySt);
    if error != 0 then (w.(error := error), None)
    else if a.reserve != 0 then (w.(error := a.reserve), None)
    else
      var chunks := MallocChunks(size, baseChunk, a);
      if FirstFail(a.cellSt, |chunks|) < |chunks| then (WithoutCells(w, size, baseChunk, a), None)
      else if a.callback != Records then (Unrecorded(w, size, baseChunk, a), None)
      else
        AddCellsHas(w.cells, chunks);
        var registered := Registered(w, size, baseChunk, a);
        var mapped := AfterCreateAndMap(registered, a.addr, chunks, a.create);
        if mapped.error == 0 then (mapped, Some(a.addr))
        else
          (mapped.(error := Noted(mapped.error, a.free), driver := mapped.driver.AddressFree(a.free, a.addr),
                   cells := mapped.cells - Boxes(chunks)), None)
  }

  /** my_free of a registered pointer; the size is the caller's. */
  function AfterFree(w: World, addr: Addr, size: nat, a: ReleaseAnswers, free: Status): World
    requires addr in w.table ==> HaveCells(w.cells, w.table[addr].chunks)
  {
    if addr !in w.table then w
    else
      var chunks := w.table[addr].chunks;
      var popped := w.(table := w.table - {addr});
      var released := AfterUnmapAndRelease(popped, addr, size, chunks, a);
      released.(error := Noted(released.error, free), driver := released.driver.AddressFree(free, addr),
                cells := released.cells - Boxes(chunks))
  }

  /** python_unmap_and_release: an error is reported once and cleared. */
  function AfterSleep(w: World, addr: Addr, entry: Entry, a: ReleaseAnswers): (World, bool)
    requires HaveCells(w.cells, entry.chunks)
  {
    var after := AfterUnmapAndRelease(w, addr, entry.size, entry.chunks, a);
    (after.(error := 0), after.error == 0)
  }

  /** python_create_and_map: an error is reported once and cleared. */
  function AfterWake(w: World, addr: Addr, entry: Entry, a: CreateAnswers): (World, bool)
    requires HaveCells(w.cells, entry.chunks)
  {
    var after := AfterCreateAndMap(w, addr, entry.chunks, a);
    (after.(error := 0), after.error == 0)
  }

  // ---- the allocator's state, changed call by call ----

  class Allocator {
    var error: Status
    var driver: Driver
    var cells: map<Box, Handle>
    var table: map<Addr, Entry>

    constructor ()
      ensures Now() == World(0, Driver(map[], map[], map[]), map[], map[])
    {
      error, driver, cells, table := 0, Driver(map[], map[], map[]), map[], map[];
    }

    function Now(): World
      reads this
    {
      World(error, driver, cells, table)
    }

    /** The status check around a driver call: remember a failure. */
    method Check(st: Status)
      modifies `error
      ensures error == if st != 0 then st else old(error)
    {
      if st != 0 {
        error := st;
      }
    }

    method ReleaseAll(chunks: seq<Chunk>, st: nat -> Status, n: nat)
      requires HaveCells(cells, chunks) && n <= |chunks|
      modifies `driver
      ensures driver == ReleaseLoop(old(driver), cells, chunks, st, n)
    {
      var j := 0;
      while j < n
        invariant 0 <= j <= n && driver == ReleaseLoop(old(driver), cells, chunks, st, j)
      {
        driver := driver.Release(st(j), cells[chunks[j].box]);
        j := j + 1;
      }
    }

    method UnmapAll(addr: Addr, chunks: seq<Chunk>, st: nat -> Status, n: nat)
      requires n <= |chunks|
      modifies `driver
      ensures driver == UnmapLoop(old(driver), addr, chunks, st, n)
    {
      var j, size := 0, 0;
      assert SizeSum(chunks[..0]) == 0;
      while j < n
        invariant 0 <= j <= n && addr + size == Start(addr, chunks, j)
        invariant driver == UnmapLoop(old(driver), addr, chunks, st, j)
      {
        StartStep(addr, chunks, j);
        driver := driver.Unmap(st(j), addr + size);
        size := size + chunks[j].size;
        j := j + 1;
      }
    }

    method CreateAndMap(addr: Addr, chunks: seq<Chunk>, a: CreateAnswers)
      requires HaveCells(cells, chunks)
      modifies `error, `driver, `cells
      ensures Now() == AfterCreateAndMap(old(Now()), addr, chunks, a)
    {
      Check(a.context);
      var created := CreateChunks(chunks, a);
      if !created {
        return;
      }
      CellLoopKeeps(old(cells), chunks, a, |chunks|);
      var mapped := MapChunks(addr, chunks, a);
      if !mapped {
        return;
      }
      Check(a.access);
    }

    /** The first loop: create every chunk, or release those created before the failing one. */
    method CreateChunks(chunks: seq<Chunk>, a: CreateAnswers) returns (ok: bool)
      requires HaveCells(cells, chunks)
      modifies `error, `driver, `cells
      ensures var n, k := |chunks|, FirstFail(a.create, |chunks|);
              if n > 0 && old(error) != 0 then
                !ok && Now() == FailedEntry(old(Now()), chunks, a)
              else
                && ok == (k == n)
                && cells == CellLoop(old(cells), chunks, a, k)
                && HaveCells(cells, chunks)
                && error == (if ok then old(error) else a.create(k))
                && driver == (if ok then CreateLoop(old(driver), chunks, a, n)
                              else ReleaseLoop(CreateLoop(old(driver), chunks, a, k), cells, chunks, a.undoRelease, k))
      ensures table == old(table)
    {
      var n := |chunks|;
      var i := 0;
      while i < n
        invariant 0 <= i <= n && error == old(error) && (i > 0 ==> error == 0)
        invariant forall j: nat :: j < i ==> a.create(j) == 0
        invariant driver == CreateLoop(old(driver), chunks, a, i) && cells == CellLoop(old(cells), chunks, a, i)
      {
        driver := driver.Create(a.create(i), a.handle(i), chunks[i].size);
        if a.create(i) == 0 {
          cells := cells[chunks[i].box := a.handle(i)];
        }
        Check(a.create(i));
        if error != 0 {
          CreateStops(old(cells), chunks, a, i, old(error));
          ReleaseAll(chunks, a.undoRelease, i);
          return false;
        }
        i := i + 1;
      }
      FirstFailIs(a.create, n, n);
      CellLoopKeeps(old(cells), chunks, a, n);
      return true;
    }

    /** The second loop: map every chunk, or undo everything. */
    method MapChunks(addr: Addr, chunks: seq<Chunk>, a: CreateAnswers) returns (ok: bool)
      requires HaveCells(cells, chunks) && (error == 0 || chunks == [])
      modifies `error, `driver
      ensures var n, m := |chunks|, FirstFail(a.map_, |chunks|);
              && ok == (m == n)
              && error == (if ok then old(error) else a.map_(m))
              && var mapped := MapLoop(old(driver), cells, addr, chunks, m);
                 driver == if ok then mapped
                           else ReleaseLoop(UnmapLoop(mapped, addr, chunks, a.undoUnmap, m), cells, chunks,
                                            a.undoRelease, n)
    {
      var n := |chunks|;
      var i, size := 0, 0;
      assert SizeSum(chunks[..0]) == 0;
      while i < n
        invariant 0 <= i <= n && error == old(error) && addr + size == Start(addr, chunks, i)
        invariant forall j: nat :: j < i ==> a.map_(j) == 0
        invariant driver == MapLoop(old(driver), cells, addr, chunks, i)
      {
        StartStep(addr, chunks, i);
        driver := driver.Map(a.map_(i), addr + size, chunks[i].size, cells[chunks[i].box]);
        Check(a.map_(i));
        if error != 0 {
          FirstFailIs(a.map_, n, i);
          UnmapAll(addr, chunks, a.undoUnmap, i);
          ReleaseAll(chunks, a.undoRelease, n);
          return false;
        }
        size := size + chunks[i].size;
        i := i + 1;
      }
      FirstFailIs(a.map_, n, n);
      return true;
    }

    method UnmapAndRelease(addr: Addr, size: nat, chunks: seq<Chunk>, a: ReleaseAnswers)
      requires HaveCells(cells, chunks)
      modifies `error, `driver
      ensures Now() == AfterUnmapAndRelease(old(Now()), addr, size, chunks, a)
    {
      Check(a.context);
      var n := |chunks|;
      var first := FirstNonZero(a.unmap, n, 0);
      UnmapAll(addr, chunks, a.unmap, n);
      ReleaseAll(chunks, a.release, n);
      first := FirstNonZero(a.release, n, first);
      if first == 0 {
        driver := driver.AddressFree(a.free, addr);
        first := a.free;
        if first == 0 {
          driver := driver.Reserve(a.reserve, a.newAddr, size);
          first := a.reserve;
          if first == 0 && a.newAddr != addr {
            driver := driver.AddressFree(a.freeNew, a.newAddr);
            error := 1;
            return;
          }
        }
      }
      Check(first);
    }

    /** The first error of a loop of calls, keeping an earlier one. */
    static method FirstNonZero(st: nat -> Status, n: nat, earlier: Status) returns (first: Status)
      ensures first == if earlier != 0 then earlier else FirstError(st, n)
    {
      first := earlier;
      var i := 0;
      while i < n
        invariant 0 <= i <= n && first == if earlier != 0 then earlier else FirstError(st, i)
      {
        if st(i) != 0 && first == 0 {
          first := st(i);
        }
        i := i + 1;
      }
    }

    method Malloc(size: nat, baseChunk: nat, a: MallocAnswers) returns (ptr: Option<Addr>)
      requires baseChunk > 0 && (a.granularitySt == 0 ==> a.granularity > 0)
      modifies this
      ensures (Now(), ptr) == AfterMalloc(old(Now()), size, baseChunk, a)
    {
      Check(a.context);
      Check(a.granularitySt);
      if error != 0 {
        return None;
      }
      var alignedSize := RoundUp(size, a.granularity);
      Check(a.reserve);
      if error != 0 {
        return None;
      }
      driver := driver.Reserve(a.reserve, a.addr, alignedSize);
      var ok, chunks := AllocateCells(size, baseChunk, a);
      assert ok ==> chunks == MallocChunks(size, baseChunk, a);
      if !ok || a.callback != Records {
        return None;
      }
      table := table[a.addr := Entry(alignedSize, chunks)];
      AddCellsHas(old(cells), chunks);
      ghost var registered := Now();
      CreateAndMap(a.addr, chunks, a.create);
      if error != 0 {
        ghost var mapped := Now();
        driver := driver.AddressFree(a.free, a.addr);
        Check(a.free);
        FreeCells(chunks);
        assert Now() == mapped.(error := Noted(mapped.error, a.free),
                                driver := mapped.driver.AddressFree(a.free, a.addr),
                                cells := mapped.cells - Boxes(chunks));
        return None;
      }
      return Some(a.addr);
    }

    /** The chunk list of a request, one malloc'ed cell per chunk; the cells before a failing one are freed. */
    method AllocateCells(size: nat, baseChunk: nat, a: MallocAnswers) returns (ok: bool, chunks: seq<Chunk>)
      requires baseChunk > 0 && a.granularity > 0
      modifies `cells
      ensures var all, k := MallocChunks(size, baseChunk, a), FirstFail(a.cellSt, |MallocChunks(size, baseChunk, a)|);
              && ok == (k == |all|) && chunks == all[..k]
              && cells == if ok then AddCells(old(cells), chunks) else AddCells(old(cells), chunks) - Boxes(chunks)
    {
      var alignedSize := RoundUp(size, a.granularity);
      var chunkSize := RoundUp(baseChunk, a.granularity);
      RoundUpBounds(baseChunk, a.granularity);
      NumChunksBounds(alignedSize, chunkSize);
      var numChunks := NumChunks(alignedSize, chunkSize);
      chunks := [];
      var i := 0;
      while i < numChunks
        invariant 0 <= i <= numChunks && (i > 0 ==> (i - 1) * chunkSize <= alignedSize)
        invariant forall j: nat :: j < i ==> a.cellSt(j) == 0
        invariant chunks == ChunksUpTo(alignedSize, chunkSize, a.cell, i)
        invariant cells == AddCells(old(cells), chunks)
      {
        FullChunksFit(i, numChunks, chunkSize, alignedSize);
        if a.cellSt(i) != 0 {
          CellsStop(size, baseChunk, a, i);
          FreeCells(chunks);
          return false, chunks;
        }
        var chunk := Chunk(a.cell(i), Min(alignedSize - i * chunkSize, chunkSize));
        chunks := chunks + [chunk];
        assert chunks[..i] == ChunksUpTo(alignedSize, chunkSize, a.cell, i);
        cells := cells[chunk.box := 0];
        i := i + 1;
      }
      FirstFailIs(a.cellSt, numChunks, numChunks);
      assert chunks == chunks[..numChunks];
      return true, chunks;
    }

    method FreeCells(chunks: seq<Chunk>)
      modifies `cells
      ensures cells == old(cells) - Boxes(chunks)
    {
      var i := 0;
      while i < |chunks|
        invariant 0 <= i <= |chunks| && cells == old(cells) - Boxes(chunks[..i])
      {
        cells := cells - {chunks[i].box};
        assert Boxes(chunks[..i + 1]) == Boxes(chunks[..i]) + {chunks[i].box};
        i := i + 1;
      }
      assert chunks[..|chunks|] == chunks;
    }

    method Free(addr: Addr, size: nat, a: ReleaseAnswers, free: Status)
      requires addr in table ==> HaveCells(cells, table[addr].chunks)
      modifies this
      ensures Now() == AfterFree(old(Now()), addr, size, a, free)
    {
      if addr !in table {
        return;
      }
      var chunks := table[addr].chunks;
      table := table - {addr};
      UnmapAndRelease(addr, size, chunks, a);
      driver := driver.AddressFree(free, addr);
      Check(free);
      FreeCells(chunks);
    }

    method Sleep(addr: Addr, entry: Entry, a: ReleaseAnswers) returns (ok: bool)
      requires HaveCells(cells, entry.chunks)
      modifies `error, `driver
      ensures (Now(), ok) == AfterSleep(old(Now()), addr, entry, a)
    {
      UnmapAndRelease(addr, entry.size, entry.chunks, a);
      ok := error == 0;
      error := 0;
    }

    method Wake(addr: Addr, entry: Entry, a: CreateAnswers) returns (ok: bool)
      requires HaveCells(cells, entry.chunks)
      modifies `error, `driver, `cells
      ensures (Now(), ok) == AfterWake(old(Now()), addr, entry, a)
    {
      CreateAndMap(addr, entry.chunks, a);
      ok := error == 0;
      error := 0;
    }
  }

  /** Where the loop over creates stops: at the failing call, or after the first one when an error was pending. */
  lemma CreateStops(cells: map<Box, Handle>, chunks: seq<Chunk>, a: CreateAnswers, i: nat, pending: Status)
    requires i < |chunks| && HaveCells(cells, chunks) && forall j: nat :: j < i ==> a.create(j) == 0
    requires a.create(i) != 0 || (pending != 0 && i == 0)
    ensures a.create(i) != 0 ==> FirstFail(a.create, |chunks|) == i
    ensures HaveCells(CellLoop(cells, chunks, a, i), chunks) && HaveCells(CellLoop(cells, chunks, a, i + 1), chunks)
  {
    if a.create(i) != 0 {
      FirstFailIs(a.create, |chunks|, i);
    }
    CellLoopKeeps(cells, chunks, a, i);
    CellLoopKeeps(cells, chunks, a, i + 1);
  }

  /** Where the loop over cells stops when malloc i returns null. */
  lemma CellsStop(size: nat, baseChunk: nat, a: MallocAnswers, i: nat)
    requires baseChunk > 0 && a.granularity > 0 && i < |MallocChunks(size, baseChunk, a)|
    requires a.cellSt(i) != 0 && forall j: nat :: j < i ==> a.cellSt(j) == 0
    ensures RoundUp(baseChunk, a.granularity) > 0
    ensures var aligned, chunkSize := RoundUp(size, a.granularity), RoundUp(baseChunk, a.granularity);
            var chunks := MallocChunks(size, baseChunk, a);
            && FirstFail(a.cellSt, |chunks|) == i && (i == 0 || (i - 1) * chunkSize <= aligned)
            && ChunksUpTo(aligned, chunkSize, a.cell, i) == chunks[..i]
  {
    var aligned, chunkSize := RoundUp(size, a.granularity), RoundUp(baseChunk, a.granularity);
    RoundUpBounds(baseChunk, a.granularity);
    NumChunksBounds(aligned, chunkSize);
    var n := NumChunks(aligned, chunkSize);
    FullChunksFit(i, n, chunkSize, aligned);
    assert i > 0 ==> (i - 1) * chunkSize == i * chunkSize - chunkSize;
    FirstFailIs(a.cellSt, n, i);
    ChunksPrefix(aligned, chunkSize, a.cell, i, n);
  }

  lemma {:induction false} ChunksPrefix(size: nat, chunkSize: nat, cell: nat -> Box, k: nat, n: nat)
    requires k <= n && (n == 0 || (n - 1) * chunkSize <= size) && (k == 0 || (k - 1) * chunkSize <= size)
    ensures ChunksUpTo(size, chunkSize, cell, n)[..k] == ChunksUpTo(size, chunkSize, cell, k)
    decreases n
  {
    if k < n {
      assert n > 1 ==> (n - 1) * chunkSize == (n - 2) * chunkSize + chunkSize;
      ChunksPrefix(size, chunkSize, cell, k, n - 1);
    }
  }

  /** A full chunk starts inside the allocation as long as there is one more chunk. */
  lemma FullChunksFit(i: nat, n: nat, chunkSize: nat, size: nat)
    requires i < n && (n - 1) * chunkSize < size
    ensures i * chunkSize < size
  {
    assert i * chunkSize <= (n - 1) * chunkSize;
  }
}
