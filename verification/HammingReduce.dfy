/**
 The tile loop of the HammingDistTopK kernel: distances are computed tile by tile, and each tile is reduced
 to chunk maxima on its own. Distances are arbitrary integers here; how they are computed is not modelled.
 */
module HammingReduce {
  import opened Collections

  function Max(a: int, b: int): int {
    if b > a then b else a
  }

  /** The largest of a non-empty run of distances. */
  function MaxOf(d: seq<int>): int
    requires d != []
  {
    if |d| == 1 then d[0] else Max(MaxOf(d[..|d| - 1]), d[|d| - 1])
  }

  /** The reference: one untiled pass, a maximum for each complete chunk. */
  function ChunkMaxima(d: seq<int>, chunk: nat): seq<int>
    requires chunk > 0
    decreases |d|
  {
    if |d| < chunk then [] else [MaxOf(d[..chunk])] + ChunkMaxima(d[chunk..], chunk)
  }

  /** The maxima of one tile after the other. */
  function Tiled(d: seq<int>, tile: nat, chunk: nat): seq<int>
    requires tile > 0 && chunk > 0
    decreases |d|
  {
    if |d| <= tile then ChunkMaxima(d, chunk)
    else ChunkMaxima(d[..tile], chunk) + Tiled(d[tile..], tile, chunk)
  }

  // ---- the reference, element by element ----

  lemma {:induction false} MaximaLength(d: seq<int>, chunk: nat)
    requires chunk > 0
    ensures |ChunkMaxima(d, chunk)| * chunk <= |d| < |ChunkMaxima(d, chunk)| * chunk + chunk
    decreases |d|
  {
    if |d| >= chunk {
      MaximaLength(d[chunk..], chunk);
      var n := |ChunkMaxima(d[chunk..], chunk)|;
      assert (n + 1) * chunk == n * chunk + chunk;
    }
  }

  /** Entry c is the maximum over tokens [c * chunk, (c + 1) * chunk), for every complete chunk. */
  lemma {:induction false} MaximaAt(d: seq<int>, chunk: nat, c: nat)
    requires chunk > 0 && c < |ChunkMaxima(d, chunk)|
    ensures c * chunk + chunk <= |d|
    ensures ChunkMaxima(d, chunk)[c] == MaxOf(d[c * chunk..c * chunk + chunk])
    decreases |d|
  {
    if c > 0 {
      MaximaAt(d[chunk..], chunk, c - 1);
      var at := (c - 1) * chunk;
      assert c * chunk == at + chunk;
      SliceOfDrop(d, chunk, at, at + chunk);
    }
  }

  lemma {:induction false} MaxBounds(d: seq<int>, i: nat)
    requires i < |d|
    ensures d[i] <= MaxOf(d)
  {
    if |d| > 1 && i < |d| - 1 {
      MaxBounds(d[..|d| - 1], i);
    }
  }

  lemma {:induction false} MaxIn(d: seq<int>)
    requires d != []
    ensures MaxOf(d) in d
  {
    if |d| > 1 {
      MaxIn(d[..|d| - 1]);
    }
  }

  /** A boundary at a multiple of the chunk size does not change the maxima. */
  lemma {:induction false} MaximaSplit(a: seq<int>, b: seq<int>, chunk: nat, k: nat)
    requires chunk > 0 && |a| == k * chunk
    ensures ChunkMaxima(a + b, chunk) == ChunkMaxima(a, chunk) + ChunkMaxima(b, chunk)
    decreases k
  {
    if k == 0 {
      assert a + b == b;
    } else {
      assert k * chunk == (k - 1) * chunk + chunk;
      MaximaSplit(a[chunk..], b, chunk, k - 1);
      assert (a + b)[..chunk] == a[..chunk] && (a + b)[chunk..] == a[chunk..] + b;
    }
  }

  // ---- when tiling is exact ----

  lemma {:induction false} TiledMultiple(d: seq<int>, tile: nat, chunk: nat, k: nat)
    requires tile > 0 && chunk > 0 && tile == k * chunk
    ensures Tiled(d, tile, chunk) == ChunkMaxima(d, chunk)
    decreases |d|
  {
    if |d| > tile {
      TiledMultiple(d[tile..], tile, chunk, k);
      MaximaSplit(d[..tile], d[tile..], chunk, k);
      assert d == d[..tile] + d[tile..];
    }
  }

  lemma {:induction false} TiledShort(d: seq<int>, tile: nat, chunk: nat)
    requires tile > 0 && |d| < chunk
    ensures Tiled(d, tile, chunk) == []
    decreases |d|
  {
    if |d| > tile {
      TiledShort(d[tile..], tile, chunk);
    }
  }

  /** All complete chunks lie in the first tile. */
  lemma TiledOneTile(d: seq<int>, tile: nat, chunk: nat, a: nat)
    requires tile > 0 && chunk > 0 && a * chunk <= tile < a * chunk + chunk && |d| < a * chunk + chunk
    ensures Tiled(d, tile, chunk) == ChunkMaxima(d, chunk)
  {
    if |d| > tile {
      var full := a * chunk;
      TiledShort(d[tile..], tile, chunk);
      MaximaSplit(d[..full], d[full..], chunk, a);
      MaximaSplit(d[..full], d[full..tile], chunk, a);
      assert d == d[..full] + d[full..] && d[..tile] == d[..full] + d[full..tile];
    }
  }

  lemma {:induction false} MaxOfZeros(d: seq<int>)
    requires d != [] && forall i :: 0 <= i < |d| ==> d[i] == 0
    ensures MaxOf(d) == 0
  {
    if |d| > 1 {
      MaxOfZeros(d[..|d| - 1]);
    }
  }

  lemma {:induction false} MaximaOfZeros(d: seq<int>, chunk: nat)
    requires chunk > 0 && forall i :: 0 <= i < |d| ==> d[i] == 0
    ensures forall c :: 0 <= c < |ChunkMaxima(d, chunk)| ==> ChunkMaxima(d, chunk)[c] == 0
    decreases |d|
  {
    if |d| >= chunk {
      MaxOfZeros(d[..chunk]);
      MaximaOfZeros(d[chunk..], chunk);
    }
  }

  lemma {:induction false} TiledOfZeros(d: seq<int>, tile: nat, chunk: nat)
    requires tile > 0 && chunk > 0 && forall i :: 0 <= i < |d| ==> d[i] == 0
    ensures forall c :: 0 <= c < |Tiled(d, tile, chunk)| ==> Tiled(d, tile, chunk)[c] == 0
    decreases |d|
  {
    if |d| <= tile {
      MaximaOfZeros(d, chunk);
    } else {
      MaximaOfZeros(d[..tile], chunk);
      TiledOfZeros(d[tile..], tile, chunk);
    }
  }

  lemma MaximaCountIs(d: seq<int>, chunk: nat, a: nat)
    requires chunk > 0 && a * chunk <= |d| < a * chunk + chunk
    ensures |ChunkMaxima(d, chunk)| == a
  {
    MaximaLength(d, chunk);
    QuotientIs(|d|, chunk, a);
    QuotientIs(|d|, chunk, |ChunkMaxima(d, chunk)|);
  }

  /** Entry a of the reference is no less than the first distance of its chunk. */
  lemma FirstOfChunk(d: seq<int>, chunk: nat, a: nat, at: nat)
    requires chunk > 0 && at == a * chunk && |d| >= at + chunk
    ensures a < |ChunkMaxima(d, chunk)| && ChunkMaxima(d, chunk)[a] >= d[at]
  {
    MaximaLength(d, chunk);
    MulMono(|ChunkMaxima(d, chunk)|, a, chunk);
    MaximaAt(d, chunk, a);
    MaxBounds(d[at..at + chunk], 0);
    assert d[at..at + chunk][0] == d[at];
  }

  /** A chunk that straddles the first tile boundary is lost: one distance where tiling shows. */
  lemma TiledLoses(d: seq<int>, tile: nat, chunk: nat, a: nat)
    requires chunk > 0 && a * chunk < tile < a * chunk + chunk && |d| >= a * chunk + chunk
    requires forall i :: 0 <= i < |d| ==> d[i] == if i == a * chunk then 1 else 0
    ensures Tiled(d, tile, chunk) != ChunkMaxima(d, chunk)
  {
    var first, later := ChunkMaxima(d[..tile], chunk), Tiled(d[tile..], tile, chunk);
    FirstOfChunk(d, chunk, a, a * chunk);
    MaximaCountIs(d[..tile], chunk, a);
    TiledOfZeros(d[tile..], tile, chunk);
    assert Tiled(d, tile, chunk) == first + later;
    assert a < |first + later| ==> (first + later)[a] == later[0];
  }

  /** Tiling loses nothing, whatever the distances of len tokens. */
  ghost predicate TilingExact(len: nat, tile: nat, chunk: nat)
    requires tile > 0 && chunk > 0
  {
    forall d: seq<int> :: |d| == len ==> Tiled(d, tile, chunk) == ChunkMaxima(d, chunk)
  }

  lemma ExactWhenMultiple(len: nat, tile: nat, chunk: nat, k: nat)
    requires tile > 0 && chunk > 0 && tile == k * chunk
    ensures TilingExact(len, tile, chunk)
  {
    forall d: seq<int> | |d| == len
      ensures Tiled(d, tile, chunk) == ChunkMaxima(d, chunk)
    {
      TiledMultiple(d, tile, chunk, k);
    }
  }

  lemma ExactWhenShort(len: nat, tile: nat, chunk: nat, a: nat)
    requires tile > 0 && chunk > 0 && a * chunk <= tile < a * chunk + chunk && len < a * chunk + chunk
    ensures TilingExact(len, tile, chunk)
  {
    forall d: seq<int> | |d| == len
      ensures Tiled(d, tile, chunk) == ChunkMaxima(d, chunk)
    {
      TiledOneTile(d, tile, chunk, a);
    }
  }

  lemma InexactOtherwise(len: nat, tile: nat, chunk: nat, a: nat)
    requires tile > 0 && chunk > 0 && a * chunk < tile < a * chunk + chunk && len >= a * chunk + chunk
    ensures !TilingExact(len, tile, chunk)
  {
    var d := seq(len, i => if i == a * chunk then 1 else 0);
    TiledLoses(d, tile, chunk, a);
  }

  /** Tiling is exact for all distances just when the tile is a multiple of the chunk, or every complete chunk
      already lies in the first tile. */
  lemma TiledExactIff(len: nat, tile: nat, chunk: nat)
    requires tile > 0 && chunk > 0
    ensures TilingExact(len, tile, chunk) <==> tile % chunk == 0 || len / chunk <= tile / chunk
  {
    var a, n := tile / chunk, len / chunk;
    QuotientBounds(tile, chunk);
    QuotientBounds(len, chunk);
    MulMono(n, a, chunk);
    MulMono(a + 1, n, chunk);
    assert (a + 1) * chunk == a * chunk + chunk;
    if tile % chunk == 0 {
      ExactWhenMultiple(len, tile, chunk, a);
    } else if n <= a {
      ExactWhenShort(len, tile, chunk, a);
    } else {
      InexactOtherwise(len, tile, chunk, a);
    }
  }

  ghost predicate IsMaximum(d: seq<int>, lo: nat, hi: nat, mx: int)
    requires lo <= hi <= |d|
  {
    (forall i :: lo <= i < hi ==> d[i] <= mx) && exists i :: lo <= i < hi && d[i] == mx
  }

  lemma MaxOfSlice(d: seq<int>, lo: nat, hi: nat)
    requires lo < hi <= |d|
    ensures IsMaximum(d, lo, hi, MaxOf(d[lo..hi]))
  {
    var s := d[lo..hi];
    forall i | lo <= i < hi
      ensures d[i] <= MaxOf(s)
    {
      assert d[i] == s[i - lo];
      MaxBounds(s, i - lo);
    }
    MaxIn(s);
    var k :| 0 <= k < |s| && s[k] == MaxOf(s);
    assert d[lo + k] == MaxOf(s);
  }

  /** On a tile that is a multiple of the chunk, entry c is the maximum over its own tokens, for every c. */
  lemma EntryIsChunkMaximum(d: seq<int>, tile: nat, chunk: nat, k: nat, c: nat)
    requires tile > 0 && chunk > 0 && tile == k * chunk && c * chunk + chunk <= |d|
    ensures c < |Tiled(d, tile, chunk)| && 0 <= c * chunk
    ensures IsMaximum(d, c * chunk, c * chunk + chunk, Tiled(d, tile, chunk)[c])
  {
    TiledMultiple(d, tile, chunk, k);
    MaximaLength(d, chunk);
    MulMono(|ChunkMaxima(d, chunk)|, c, chunk);
    MaximaAt(d, chunk, c);
    MaxOfSlice(d, c * chunk, c * chunk + chunk);
  }

  // ---- how many entries are written ----

  /** The number of entries the tile loop writes for len tokens. */
  function TiledCount(len: nat, tile: nat, chunk: nat): int
    requires tile > 0 && chunk > 0
  {
    len / tile * (tile / chunk) + len % tile / chunk
  }

  lemma MaximaCount(d: seq<int>, chunk: nat)
    requires chunk > 0
    ensures |ChunkMaxima(d, chunk)| == |d| / chunk
  {
    MaximaLength(d, chunk);
    QuotientIs(|d|, chunk, |ChunkMaxima(d, chunk)|);
  }

  lemma {:induction false} TiledCountIs(d: seq<int>, tile: nat, chunk: nat)
    requires tile > 0 && chunk > 0
    ensures |Tiled(d, tile, chunk)| == TiledCount(|d|, tile, chunk)
    decreases |d|
  {
    if |d| < tile {
      QuotientIs(|d|, tile, 0);
      MaximaCount(d, chunk);
    } else if |d| == tile {
      QuotientIs(|d|, tile, 1);
      MaximaCount(d, chunk);
      OneTile(tile, chunk);
    } else {
      var rest := |d| - tile;
      TiledCountIs(d[tile..], tile, chunk);
      MaximaCount(d[..tile], chunk);
      TileMore(rest, tile, chunk);
    }
  }

  lemma OneTile(tile: nat, chunk: nat)
    requires tile > 0 && chunk > 0
    ensures TiledCount(tile, tile, chunk) == tile / chunk
  {
    QuotientIs(tile, tile, 1);
    QuotientIs(0, chunk, 0);
  }

  lemma TileMore(rest: nat, tile: nat, chunk: nat)
    requires tile > 0 && chunk > 0
    ensures TiledCount(rest + tile, tile, chunk) == tile / chunk + TiledCount(rest, tile, chunk)
  {
    var q := rest / tile;
    assert rest == q * tile + rest % tile;
    assert (q + 1) * tile == q * tile + tile;
    QuotientIs(rest + tile, tile, q + 1);
    assert (rest + tile) % tile == rest % tile by {
      assert rest + tile == (rest + tile) / tile * tile + (rest + tile) % tile;
    }
    assert (q + 1) * (tile / chunk) == q * (tile / chunk) + tile / chunk;
  }

  /** Tiling never writes more entries than there are complete chunks. */
  lemma TiledAtMost(len: nat, tile: nat, chunk: nat)
    requires tile > 0 && chunk > 0
    ensures TiledCount(len, tile, chunk) <= len / chunk
  {
    var q, r := len / tile, len % tile;
    var a, b := tile / chunk, r / chunk;
    QuotientBounds(len, tile);
    QuotientBounds(tile, chunk);
    QuotientBounds(r, chunk);
    MulMono(a * chunk, tile, q);
    Distribute(q, a, b, chunk);
    AtMostQuotient(len, chunk, q * a + b);
  }

  lemma Distribute(q: nat, a: nat, b: nat, n: nat)
    ensures (q * a + b) * n == (a * n) * q + b * n
  {
    assert (q * a + b) * n == (q * a) * n + b * n;
  }

  /** A longer input never writes fewer entries. */
  lemma CountMonotone(len: nat, len': nat, tile: nat, chunk: nat)
    requires tile > 0 && chunk > 0 && len <= len'
    ensures TiledCount(len, tile, chunk) <= TiledCount(len', tile, chunk)
  {
    QuotientMonotone(len, len', tile);
    QuotientBounds(len, tile);
    QuotientBounds(len', tile);
    if len / tile == len' / tile {
      QuotientMonotone(len % tile, len' % tile, chunk);
    } else {
      QuotientMonotone(len % tile, tile, chunk);
      QuotientMonotone(0, len' % tile, chunk);
      QuotientIs(0, chunk, 0);
      MoreTiles(len / tile, len' / tile, tile / chunk, len % tile / chunk, len' % tile / chunk);
    }
  }

  /** A part of a tile has no more chunks than one more whole tile. */
  lemma MoreTiles(q: nat, q': nat, a: nat, b: nat, b': nat)
    requires q < q' && b <= a
    ensures q * a + b <= q' * a + b'
  {
    MulMono(q + 1, q', a);
    assert (q + 1) * a == q * a + a;
  }

  lemma QuotientMonotone(x: nat, y: nat, n: nat)
    requires n > 0 && x <= y
    ensures x / n <= y / n
  {
    QuotientBounds(x, n);
    AtMostQuotient(y, n, x / n);
  }

  // ---- the kernel's loops ----

  /** Write one entry and leave the others. */
  method SetValue(chunkDist: array<int>, count: nat, v: int)
    requires count < chunkDist.Length
    modifies chunkDist
    ensures chunkDist[..] == old(chunkDist[..])[count := v]
  {
    chunkDist[count] := v;
  }

  /** The scalar maximum over one chunk. */
  method MaxOfChunk(dist: seq<int>, i: nat, chunk: nat) returns (mx: int)
    requires chunk > 0 && i + chunk <= |dist|
    ensures mx == MaxOf(dist[i..i + chunk])
  {
    mx := dist[i];
    var j := 1;
    while j < chunk
      invariant 1 <= j <= chunk && mx == MaxOf(dist[i..i + j])
    {
      var v := dist[i + j];
      assert dist[i..i + j + 1][..j] == dist[i..i + j];
      mx := if v > mx then v else mx;
      j := j + 1;
    }
  }

  /** The buffer holds what it held before up to `count`, then the new entries, then what it held before. */
  ghost predicate Wrote(now: seq<int>, before: seq<int>, count: nat, entries: seq<int>) {
    && count + |entries| <= |before| == |now|
    && now[..count + |entries|] == before[..count] + entries
    && now[count + |entries|..] == before[count + |entries|..]
  }

  lemma WroteOne(now: seq<int>, before: seq<int>, count: nat, entries: seq<int>, v: int)
    requires Wrote(now, before, count, entries) && count + |entries| < |now|
    ensures Wrote(now[count + |entries| := v], before, count, entries + [v])
  {
    var n, after := count + |entries|, now[count + |entries| := v];
    assert after[..n + 1] == now[..n] + [v];
    assert before[..count] + entries + [v] == before[..count] + (entries + [v]);
    assert after[n + 1..] == now[n..][1..] && before[n + 1..] == before[n..][1..];
  }

  /** Chunk size 1: every distance is an entry. */
  method CopyTokens(dist: seq<int>, chunkDist: array<int>, count: nat) returns (count': nat)
    requires count + |dist| <= chunkDist.Length
    modifies chunkDist
    ensures count' == count + |dist| && Wrote(chunkDist[..], old(chunkDist[..]), count, dist)
  {
    count' := count;
    ghost var before, done := chunkDist[..], [];
    var i := 0;
    while i < |dist|
      invariant 0 <= i <= |dist| && count' == count + i && done == dist[..i]
      invariant Wrote(chunkDist[..], before, count, done)
    {
      WroteOne(chunkDist[..], before, count, done, dist[i]);
      SetValue(chunkDist, count', dist[i]);
      done := done + [dist[i]];
      count', i := count' + 1, i + 1;
    }
    assert done == dist;
  }

  /** One tile: chunk maxima appended to the buffer from entry `count` on. */
  method ReduceChunk(dist: seq<int>, chunk: int, chunkDist: array<int>, count: nat) returns (count': nat)
    requires chunk > 0 && count + |ChunkMaxima(dist, chunk)| <= chunkDist.Length
    modifies chunkDist
    ensures count' == count + |ChunkMaxima(dist, chunk)|
    ensures Wrote(chunkDist[..], old(chunkDist[..]), count, ChunkMaxima(dist, chunk))
  {
    if chunk <= 1 {
      SingleMaxima(dist);
      count' := CopyTokens(dist, chunkDist, count);
      return;
    }
    count' := count;
    ghost var before, done, todo := chunkDist[..], [], ChunkMaxima(dist, chunk);
    ghost var all := todo;
    var i := 0;
    assert dist[0..] == dist;
    while i + chunk <= |dist|
      invariant 0 <= i <= |dist| && count' == count + |done|
      invariant todo == ChunkMaxima(dist[i..], chunk) && all == done + todo
      invariant Wrote(chunkDist[..], before, count, done)
      decreases |dist| - i
    {
      var mx := MaxOfChunk(dist, i, chunk);
      ghost var next := ChunkMaxima(dist[i + chunk..], chunk);
      assert todo == [mx] + next by {
        NextChunk(dist, i, chunk);
      }
      Regroup(done, [mx], next);
      WroteOne(chunkDist[..], before, count, done, mx);
      SetValue(chunkDist, count', mx);
      done, todo := done + [mx], next;
      count', i := count' + 1, i + chunk;
    }
    assert todo == [];
  }

  lemma Regroup(a: seq<int>, b: seq<int>, c: seq<int>)
    ensures a + (b + c) == (a + b) + c
  {
  }

  lemma NextChunk(dist: seq<int>, i: nat, chunk: nat)
    requires chunk > 0 && i + chunk <= |dist|
    ensures ChunkMaxima(dist[i..], chunk) == [MaxOf(dist[i..i + chunk])] + ChunkMaxima(dist[i + chunk..], chunk)
  {
    assert dist[i..][..chunk] == dist[i..i + chunk] && dist[i..][chunk..] == dist[i + chunk..];
  }

  lemma {:induction false} SingleMaxima(d: seq<int>)
    ensures ChunkMaxima(d, 1) == d
  {
    if d != [] {
      SingleMaxima(d[1..]);
      assert d == [d[0]] + d[1..];
    }
  }

  /** The tokens from n on. */
  function From(d: seq<int>, n: nat): seq<int> {
    if n < |d| then d[n..] else []
  }

  /** The tokens of the tile that starts at n0: a full tile, or what is left. */
  function TileAt(d: seq<int>, n0: nat, tile: nat): seq<int>
    requires n0 <= |d|
  {
    if |d| - n0 < tile then d[n0..] else d[n0..n0 + tile]
  }

  lemma NextTile(dist: seq<int>, n0: nat, tile: nat, chunk: nat)
    requires tile > 0 && chunk > 0 && n0 < |dist|
    ensures Tiled(From(dist, n0), tile, chunk)
            == ChunkMaxima(TileAt(dist, n0, tile), chunk) + Tiled(From(dist, n0 + tile), tile, chunk)
  {
    var rest := dist[n0..];
    if |rest| > tile {
      assert rest[..tile] == TileAt(dist, n0, tile) && rest[tile..] == From(dist, n0 + tile);
    } else {
      assert TileAt(dist, n0, tile) == rest && From(dist, n0 + tile) == [];
      assert ChunkMaxima(rest, chunk) + [] == ChunkMaxima(rest, chunk);
    }
  }

  /** One round of the tile loop, after the entries `done`: it writes the tile's entries `part`. */
  method ReduceTileAt(dist: seq<int>, n0: nat, tile: nat, chunk: int, chunkDist: array<int>, count: nat,
                      ghost done: seq<int>, ghost part: seq<int>) returns (count': nat)
    requires tile > 0 && chunk > 0 && n0 < |dist| && part == ChunkMaxima(TileAt(dist, n0, tile), chunk)
    requires count == |done| && count + |part| <= chunkDist.Length
    requires chunkDist[..count] == done
    modifies chunkDist
    ensures count' == count + |part| && chunkDist[..count'] == done + part
  {
    var curN := if |dist| - n0 < tile then |dist| - n0 else tile;
    assert dist[n0..n0 + curN] == TileAt(dist, n0, tile);
    count' := ReduceChunk(dist[n0..n0 + curN], chunk, chunkDist, count);
  }

  /** One more tile moves its entries from what is to be written to what is. */
  lemma TileStep(dist: seq<int>, n0: nat, tile: nat, chunk: nat, all: seq<int>, done: seq<int>, todo: seq<int>)
    returns (part: seq<int>, next: seq<int>)
    requires tile > 0 && chunk > 0 && n0 < |dist|
    requires todo == Tiled(From(dist, n0), tile, chunk) && all == done + todo
    ensures part == ChunkMaxima(TileAt(dist, n0, tile), chunk) && next == Tiled(From(dist, n0 + tile), tile, chunk)
    ensures all == (done + part) + next
  {
    part, next := ChunkMaxima(TileAt(dist, n0, tile), chunk), Tiled(From(dist, n0 + tile), tile, chunk);
    NextTile(dist, n0, tile, chunk);
    Regroup(done, part, next);
  }

  lemma AllDone(dist: seq<int>, n0: nat, tile: nat, chunk: nat)
    requires tile > 0 && chunk > 0 && n0 >= |dist|
    ensures Tiled(From(dist, n0), tile, chunk) == []
  {
  }

  /** The loop over the tiles; `dist` stands for the distances of the tokens, computed a tile at a time. */
  method ReduceTiles(dist: seq<int>, tile: nat, chunk: int, chunkDist: array<int>) returns (count: nat)
    requires tile > 0 && chunk > 0 && |Tiled(dist, tile, chunk)| <= chunkDist.Length
    modifies chunkDist
    ensures count == |Tiled(dist, tile, chunk)|
    ensures chunkDist[..count] == Tiled(dist, tile, chunk)
  {
    count := 0;
    var n0: nat := 0;
    ghost var all, done, todo := Tiled(dist, tile, chunk), [], Tiled(From(dist, 0), tile, chunk);
    assert From(dist, 0) == dist;
    while n0 < |dist|
      invariant count == |done| <= chunkDist.Length && chunkDist[..count] == done
      invariant todo == Tiled(From(dist, n0), tile, chunk)
      invariant all == done + todo && |all| <= chunkDist.Length
      decreases |dist| - n0
    {
      ghost var part, next := TileStep(dist, n0, tile, chunk, all, done, todo);
      count := ReduceTileAt(dist, n0, tile, chunk, chunkDist, count, done, part);
      done, todo, n0 := done + part, next, n0 + tile;
    }
    AllDone(dist, n0, tile, chunk);
  }
}
