/**
 The host side of HammingDistTopK (tile and buffer sizes, declared output shape) and the kernel
 code that relies on it: the effective length and the two key address forms.
 */
module HammingTiling {
  import opened Collections
  import opened HammingReduce

  const BLOCK_ALIGN: nat := 16

  /** Arithmetic on the host is 32-bit unsigned. */
  function U32(x: nat): nat {
    x % 0x1_0000_0000
  }

  // ---- buffer sizes ----

  function MaxChunkSize(maxSeqLen: nat): nat {
    if maxSeqLen >= 1024 then 16 else if maxSeqLen >= 128 then 8 else 1
  }

  function AtLeast128(x: nat): nat {
    if x > 128 then x else 128
  }

  /** CalcMaxOutputChunkLen, with the 32-bit product. */
  function MaxOutputChunkLen(maxSeqLen: nat, maxChunkSize: nat, topkRatio: nat): nat {
    var base := AtLeast128(maxSeqLen / if maxChunkSize == 0 then 1 else maxChunkSize);
    AtLeast128(U32(base * topkRatio) / 100 + 2)
  }

  /** The output length the tiling computes for a key tensor of this many tokens. */
  function TilingLen(keyTokens: nat): nat {
    var maxSeqLen := U32(keyTokens);
    MaxOutputChunkLen(maxSeqLen, MaxChunkSize(maxSeqLen), 100)
  }

  function ShapeBase(keyTokens: nat): nat {
    var base := keyTokens / MaxChunkSize(keyTokens);
    if base < 128 then 128 else base
  }

  /** The output length InferShape declares, in 64-bit arithmetic. */
  function ShapeLen(keyTokens: nat): nat {
    var len := ShapeBase(keyTokens) + 2;
    if len < 128 then 128 else len
  }

  /** The declared length: an entry for each 16 tokens, at least 128, and two more. */
  lemma ShapeLenIs(keyTokens: nat)
    ensures ShapeLen(keyTokens) == if keyTokens / 16 > 128 then keyTokens / 16 + 2 else 130
  {
  }

  /** The two agree exactly while the product by 100 fits in 32 bits. */
  lemma LengthsAgreeIff(keyTokens: nat)
    ensures TilingLen(keyTokens) == ShapeLen(keyTokens) <==> ShapeBase(keyTokens) * 100 < 0x1_0000_0000
  {
    if keyTokens < 0x1_0000_0000 {
      WrapsIff(ShapeBase(keyTokens));
    } else {
      assert ShapeLen(keyTokens) >= 0x1000_0000;
      assert TilingLen(keyTokens) <= 0x1_0000_0000 / 100 + 2;
    }
  }

  lemma WrapsIff(base: nat)
    requires 128 <= base < 0x1_0000_0000
    ensures AtLeast128(U32(base * 100) / 100 + 2) == base + 2 <==> base * 100 < 0x1_0000_0000
  {
    if base * 100 >= 0x1_0000_0000 {
      assert U32(base * 100) <= base * 100 - 0x1_0000_0000;
    }
  }

  // ---- the tile size ----

  datatype Branch = Basic | SplitS

  /** SelectBranch: the branch and the first-level tile. */
  function SelectBranch(batch: nat, maxSeqLen: nat, paged: bool, blockSize: nat): (Branch, nat) {
    var splitS := maxSeqLen > 26 * 1024 || (batch < 16 && maxSeqLen > 8 * 1024);
    var tile := if splitS then 128 else 254;
    (if splitS then SplitS else Basic, if paged && blockSize > 0 then blockSize else tile)
  }

  /** The tokens the kernel looks at. C's remainder has the sign of the dividend. */
  function EffectiveLen(seqLen: int, chunkSize: int): nat {
    var chunk := if chunkSize <= 0 then 1 else chunkSize;
    var rem := if seqLen >= 0 then seqLen % chunk else -(-seqLen % chunk);
    var len := seqLen - (rem + BLOCK_ALIGN);
    if len < 0 then 0 else len
  }

  /** Long sequences, and with a small batch already shorter ones, are cut into small tiles. */
  predicate SmallTiles(batch: nat, maxSeqLen: nat) {
    maxSeqLen > 26624 || (batch < 16 && maxSeqLen > 8192)
  }

  /** When the tile loop is exact on the tile that the host chooses: with contiguous keys it depends on the length and
      the batch, with paged keys on the block size. */
  lemma ChosenTileExactIff(batch: nat, maxSeqLen: nat, paged: bool, blockSize: nat, len: nat, chunk: nat)
    requires chunk > 0
    ensures var tile := if paged && blockSize > 0 then blockSize
                        else if SmallTiles(batch, maxSeqLen) then 128 else 254;
            TilingExact(len, SelectBranch(batch, maxSeqLen, paged, blockSize).1, chunk)
            <==> tile % chunk == 0 || len / chunk <= tile / chunk
  {
    TiledExactIff(len, SelectBranch(batch, maxSeqLen, paged, blockSize).1, chunk);
  }

  /** With contiguous keys and chunks of 8 or 16, the tile loop is exact on small tiles, and otherwise only while all
      complete chunks lie in the first 254 tokens. */
  lemma HostTilingExactIff(batch: nat, maxSeqLen: nat, len: nat, chunk: nat)
    requires chunk == 8 || chunk == 16
    ensures TilingExact(len, SelectBranch(batch, maxSeqLen, false, 0).1, chunk)
            <==> maxSeqLen > 26624 || (batch < 16 && maxSeqLen > 8192) || len / chunk <= 254 / chunk
    ensures SelectBranch(batch, maxSeqLen, false, 0).0 == SplitS
            <==> maxSeqLen > 26624 || (batch < 16 && maxSeqLen > 8192)
  {
    ChosenTileExactIff(batch, maxSeqLen, false, 0, len, chunk);
  }

  /** With paged keys the tile is the block, and it is exact when the chunk divides it or all lie in the first block. */
  lemma PagedTilingExactIff(batch: nat, maxSeqLen: nat, blockSize: nat, len: nat, chunk: nat)
    requires blockSize > 0 && chunk > 0
    ensures TilingExact(len, SelectBranch(batch, maxSeqLen, true, blockSize).1, chunk)
            <==> blockSize % chunk == 0 || len / chunk <= blockSize / chunk
  {
    ChosenTileExactIff(batch, maxSeqLen, true, blockSize, len, chunk);
  }

  /** With k complete chunks the effective length is 16 tokens less than they have, and never negative; a chunk size
      that is not positive counts as 1, and a negative length as none. */
  lemma EffectiveLenIs(seqLen: int, chunk: int, k: nat)
    requires chunk > 0 ==> k * chunk <= seqLen < k * chunk + chunk || (seqLen < 0 && k == 0)
    ensures chunk > 0 ==> EffectiveLen(seqLen, chunk) == if k * chunk >= 16 then k * chunk - 16 else 0
    ensures chunk <= 0 ==> EffectiveLen(seqLen, chunk) == if seqLen >= 16 then seqLen - 16 else 0
  {
    if chunk > 0 {
      if seqLen >= 0 {
        QuotientIs(seqLen, chunk, k);
      } else {
        QuotientBounds(-seqLen, chunk);
        AtMostQuotient(-seqLen, chunk, 0);
      }
    }
  }

  /** The effective length also drops complete chunks, as many as 16 tokens touch, and not only the incomplete one. */
  lemma CompleteChunksDropped(seqLen: nat, chunk: nat)
    requires chunk > 0
    ensures var complete, dropped := seqLen / chunk, (BLOCK_ALIGN + chunk - 1) / chunk;
            && dropped > 0
            && EffectiveLen(seqLen, chunk) / chunk == if complete >= dropped then complete - dropped else 0
  {
    var complete, dropped := seqLen / chunk, (BLOCK_ALIGN + chunk - 1) / chunk;
    QuotientBounds(seqLen, chunk);
    QuotientBounds(BLOCK_ALIGN + chunk - 1, chunk);
    AtMostQuotient(BLOCK_ALIGN + chunk - 1, chunk, 1);
    var len := complete * chunk - BLOCK_ALIGN;
    if complete >= dropped {
      MulMono(dropped, complete, chunk);
      assert (complete - dropped) * chunk == complete * chunk - dropped * chunk;
      QuotientIs(len, chunk, complete - dropped);
    } else {
      MulMono(complete + 1, dropped, chunk);
      assert (complete + 1) * chunk == complete * chunk + chunk;
      assert EffectiveLen(seqLen, chunk) == 0;
      QuotientIs(0, chunk, 0);
    }
  }

  // ---- do the entries fit ----

  lemma EffectiveLenMonotone(a: nat, b: nat, chunk: nat)
    requires a <= b && chunk > 0
    ensures EffectiveLen(a, chunk) <= EffectiveLen(b, chunk) && EffectiveLen(a, chunk) <= a
  {
    QuotientBounds(a, chunk);
    QuotientBounds(b, chunk);
    QuotientMonotone(a, b, chunk);
    MulMono(a / chunk, b / chunk, chunk);
  }

  /** No sequence up to maxSeqLen makes the tile loop write more than `room` entries. */
  ghost predicate AlwaysFits(maxSeqLen: nat, tile: nat, chunk: nat, room: nat)
    requires tile > 0 && chunk > 0
  {
    forall seqLen: nat :: seqLen <= maxSeqLen ==> TiledCount(EffectiveLen(seqLen, chunk), tile, chunk) <= room
  }

  /** It is enough, and necessary, that the longest sequence fits. */
  lemma FitsIffLongestFits(maxSeqLen: nat, tile: nat, chunk: nat, room: nat)
    requires tile > 0 && chunk > 0
    ensures AlwaysFits(maxSeqLen, tile, chunk, room)
            <==> TiledCount(EffectiveLen(maxSeqLen, chunk), tile, chunk) <= room
  {
    forall seqLen: nat | seqLen <= maxSeqLen
      ensures TiledCount(EffectiveLen(seqLen, chunk), tile, chunk)
              <= TiledCount(EffectiveLen(maxSeqLen, chunk), tile, chunk)
    {
      EffectiveLenMonotone(seqLen, maxSeqLen, chunk);
      CountMonotone(EffectiveLen(seqLen, chunk), EffectiveLen(maxSeqLen, chunk), tile, chunk);
    }
  }

  /** With chunks no smaller than the host assumed, 16 from 1024 tokens on and 8 from 128 on, every sequence fits the
      buffer, on every tile. */
  lemma HostChunksFit(keyTokens: nat, tile: nat, chunk: nat)
    requires tile > 0 && chunk >= if keyTokens >= 1024 then 16 else if keyTokens >= 128 then 8 else 1
    requires ShapeBase(keyTokens) * 100 < 0x1_0000_0000
    ensures AlwaysFits(keyTokens, tile, chunk, TilingLen(keyTokens))
  {
    var len := EffectiveLen(keyTokens, chunk);
    EffectiveLenMonotone(keyTokens, keyTokens, chunk);
    TiledAtMost(len, tile, chunk);
    QuotientMonotone(len, keyTokens, chunk);
    QuotientAntitone(keyTokens, MaxChunkSize(keyTokens), chunk);
    assert keyTokens / chunk <= ShapeBase(keyTokens) < TilingLen(keyTokens) by {
      LengthsAgreeIff(keyTokens);
    }
    FitsIffLongestFits(keyTokens, tile, chunk, TilingLen(keyTokens));
  }

  lemma QuotientAntitone(x: nat, m: nat, n: nat)
    requires 0 < m <= n
    ensures x / n <= x / m
  {
    QuotientBounds(x, n);
    MulMono(m, n, x / n);
    AtMostQuotient(x, m, x / n);
  }

  /** The default chunk size 1 fits exactly up to 146 tokens. */
  lemma DefaultChunkFitsIff(keyTokens: nat, tile: nat)
    requires tile > 0 && keyTokens < 0x1_0000_0000
    ensures AlwaysFits(keyTokens, tile, 1, TilingLen(keyTokens)) <==> keyTokens <= 146
  {
    FitsIffLongestFits(keyTokens, tile, 1, TilingLen(keyTokens));
    var len := EffectiveLen(keyTokens, 1);
    QuotientBounds(len, tile);
    assert TiledCount(len, tile, 1) == len / tile * tile + len % tile == len;
    assert len == if keyTokens < 16 then 0 else keyTokens - 16;
    LengthsAgreeIff(keyTokens);
    assert TilingLen(keyTokens) <= 0x1_0000_0000 / 100 + 2;
  }

  // ---- key addresses ----

  type Byte = nat
  type Token = seq<Byte>

  /** Keys by outer index (batch, or physical block), head, and token, each token of dim bytes. */
  type Keys = seq<seq<seq<Token>>>

  ghost predicate Shaped(keys: Keys, head: nat, tokens: nat, dim: nat) {
    && (forall p :: 0 <= p < |keys| ==> |keys[p]| == head)
    && (forall p, h :: 0 <= p < |keys| && 0 <= h < head ==> |keys[p][h]| == tokens)
    && (forall p, h, i :: 0 <= p < |keys| && 0 <= h < head && 0 <= i < tokens ==> |keys[p][h][i]| == dim)
  }

  /** Keys laid out in memory, outer index first. */
  function Memory(keys: Keys): seq<Byte> {
    Flatten(Flatten(Flatten(keys)))
  }

  /** The byte offset of a token: KeyPhysOffset without the block table. */
  function TokenOffset(outer: nat, head: nat, h: nat, tokens: nat, tok: nat, dim: nat): int {
    ((outer * head + h) * tokens + tok) * dim
  }

  lemma GridUniform<T>(rows: seq<seq<seq<T>>>, n: nat, m: nat)
    requires forall r :: 0 <= r < |rows| ==> |rows[r]| == n
    requires forall r, c :: 0 <= r < |rows| && 0 <= c < n ==> |rows[r][c]| == m
    ensures |Flatten(rows)| == |rows| * n
    ensures forall k :: 0 <= k < |Flatten(rows)| ==> |Flatten(rows)[k]| == m
  {
    GridLength(rows, n);
    forall k: nat | k < |Flatten(rows)|
      ensures |Flatten(rows)[k]| == m
    {
      var r, c := Divide(k, |rows|, n);
      GridAt(rows, n, r, c);
    }
  }

  /** Byte i of a token is where the offset says. */
  lemma MemoryAt(keys: Keys, head: nat, tokens: nat, dim: nat, p: nat, h: nat, tok: nat, i: nat)
    requires Shaped(keys, head, tokens, dim) && p < |keys| && h < head && tok < tokens && i < dim
    ensures 0 <= TokenOffset(p, head, h, tokens, tok, dim) + i < |Memory(keys)|
    ensures Memory(keys)[TokenOffset(p, head, h, tokens, tok, dim) + i] == keys[p][h][tok][i]
  {
    var heads: seq<seq<Token>> := Flatten(keys);
    GridUniform(keys, head, tokens);
    GridAt(keys, head, p, h);
    TokensUniform(keys, head, tokens, dim);
    GridAt(heads, tokens, p * head + h, tok);
    GridUniform(heads, tokens, dim);
    GridAt(Flatten(heads), dim, (p * head + h) * tokens + tok, i);
  }

  lemma TokensUniform(keys: Keys, head: nat, tokens: nat, dim: nat)
    requires Shaped(keys, head, tokens, dim)
    ensures forall k, j :: 0 <= k < |Flatten(keys)| && 0 <= j < tokens ==>
              |Flatten(keys)[k]| == tokens && |Flatten(keys)[k][j]| == dim
  {
    GridUniform(keys, head, tokens);
    forall k: nat, j: nat | k < |Flatten(keys)| && j < tokens
      ensures |Flatten(keys)[k][j]| == dim
    {
      var p, h := Divide(k, |keys|, head);
      GridAt(keys, head, p, h);
    }
  }

  /** KeyPhysOffset with the block table: the offset in the physical pool. */
  function PagedOffset(table: seq<nat>, blockCount: nat, blockSize: nat, head: nat, dim: nat,
                       b: nat, h: nat, tok: nat): int
    requires blockSize > 0 && 0 <= b * blockCount + tok / blockSize < |table|
  {
    TokenOffset(table[b * blockCount + tok / blockSize], head, h, blockSize, tok % blockSize, dim)
  }

  /** The logical keys of one batch and head: the table's blocks, one after the other. */
  function Assembled(pool: Keys, table: seq<nat>, blockCount: nat, b: nat, h: nat): seq<Token>
    requires 0 <= b * blockCount <= b * blockCount + blockCount <= |table|
    requires forall k :: 0 <= k < |table| ==> table[k] < |pool|
    requires forall p :: 0 <= p < |pool| ==> h < |pool[p]|
  {
    Flatten(seq(blockCount, l requires 0 <= l < blockCount => pool[table[b * blockCount + l]][h]))
  }

  /** Token l * blockSize + r of the assembled keys is token r of the table's block l. */
  lemma AssembledAt(pool: Keys, table: seq<nat>, blockCount: nat, blockSize: nat, head: nat, dim: nat,
                    b: nat, h: nat, l: nat, r: nat)
    requires Shaped(pool, head, blockSize, dim) && h < head
    requires 0 <= b * blockCount <= b * blockCount + blockCount <= |table|
    requires forall k :: 0 <= k < |table| ==> table[k] < |pool|
    requires l < blockCount && r < blockSize
    ensures 0 <= l * blockSize + r < |Assembled(pool, table, blockCount, b, h)|
    ensures Assembled(pool, table, blockCount, b, h)[l * blockSize + r] == pool[table[b * blockCount + l]][h][r]
  {
    var blocks := seq(blockCount, l requires 0 <= l < blockCount => pool[table[b * blockCount + l]][h]);
    GridAt(blocks, blockSize, l, r);
  }

  /** Reading a logical token through the block table gives the bytes that contiguous addressing gives on the
      assembled keys; both stay in bounds. */
  lemma PagedIsContiguous(pool: Keys, table: seq<nat>, keys: Keys, batch: nat, blockCount: nat, blockSize: nat,
                          head: nat, dim: nat, b: nat, h: nat, tok: nat, i: nat)
    requires Shaped(pool, head, blockSize, dim) && blockSize > 0 && |table| == batch * blockCount
    requires forall k :: 0 <= k < |table| ==> table[k] < |pool|
    requires |keys| == batch && Shaped(keys, head, blockCount * blockSize, dim)
    requires IsAssembled(keys, pool, table, head, blockCount)
    requires b < batch && h < head && tok < blockCount * blockSize && i < dim
    ensures 0 <= b * blockCount + tok / blockSize < |table|
    ensures var paged, flat := PagedOffset(table, blockCount, blockSize, head, dim, b, h, tok),
                               TokenOffset(b, head, h, blockCount * blockSize, tok, dim);
            && 0 <= paged + i < |Memory(pool)| && 0 <= flat + i < |Memory(keys)|
            && Memory(pool)[paged + i] == Memory(keys)[flat + i]
  {
    var l, r := Divide(tok, blockCount, blockSize);
    QuotientIs(tok, blockSize, l);
    RowInGrid(b, batch, blockCount);
    IndexInGrid(b, l, batch, blockCount);
    assert keys[b][h][tok] == pool[table[b * blockCount + l]][h][r] by {
      AssembledAt(pool, table, blockCount, blockSize, head, dim, b, h, l, r);
      assert keys[b][h] == Assembled(pool, table, blockCount, b, h);
    }
    MemoryAt(keys, head, blockCount * blockSize, dim, b, h, tok, i);
    MemoryAt(pool, head, blockSize, dim, table[b * blockCount + l], h, r, i);
  }

  /** The contiguous keys hold, for every batch and head, what the block table assembles from the pool. */
  ghost predicate IsAssembled(keys: Keys, pool: Keys, table: seq<nat>, head: nat, blockCount: nat)
    requires |table| == |keys| * blockCount
    requires forall k :: 0 <= k < |table| ==> table[k] < |pool|
    requires forall p :: 0 <= p < |pool| ==> |pool[p]| == head
    requires forall p :: 0 <= p < |keys| ==> |keys[p]| == head
  {
    forall c: nat, g: nat :: c < |keys| && g < head ==>
      (RowInGrid(c, |keys|, blockCount); keys[c][g] == Assembled(pool, table, blockCount, c, g))
  }
}
