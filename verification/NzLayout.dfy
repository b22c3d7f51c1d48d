/**
 The NZ layout of a matrix: columns in tiles, and inside a tile all rows one after the other. Tensors are flat
 row-major sequences.
 */
module NzLayout {
  import opened Collections

  // ---- reshaping ----

  /** A flat sequence as `count` rows of n elements. */
  function Chunks<T>(s: seq<T>, count: nat, n: nat): (rows: seq<seq<T>>)
    requires |s| == count * n
    ensures |rows| == count && forall x :: 0 <= x < count ==> |rows[x]| == n
  {
    if count == 0 then []
    else
      RowInGrid(count - 1, count, n);
      var cut := (count - 1) * n;
      Chunks(s[..cut], count - 1, n) + [s[cut..]]
  }

  lemma {:induction false} FlattenChunks<T>(s: seq<T>, count: nat, n: nat)
    requires |s| == count * n
    ensures Flatten(Chunks(s, count, n)) == s
  {
    if count > 0 {
      RowInGrid(count - 1, count, n);
      var cut := (count - 1) * n;
      FlattenChunks(s[..cut], count - 1, n);
      FlattenPush(Chunks(s[..cut], count - 1, n), s[cut..]);
    }
  }

  lemma {:induction false} ChunksFlatten<T>(rows: seq<seq<T>>, n: nat)
    requires forall x :: 0 <= x < |rows| ==> |rows[x]| == n
    ensures |Flatten(rows)| == |rows| * n && Chunks(Flatten(rows), |rows|, n) == rows
  {
    GridLength(rows, n);
    if rows != [] {
      var last := |rows| - 1;
      GridLength(rows[..last], n);
      ChunksFlatten(rows[..last], n);
      assert Flatten(rows)[..last * n] == Flatten(rows[..last]);
      assert rows == rows[..last] + [rows[last]];
    }
  }

  // ---- three dimensions ----

  ghost predicate Shaped<T>(g: seq<seq<seq<T>>>, a: nat, b: nat, c: nat) {
    && |g| == a && (forall x :: 0 <= x < a ==> |g[x]| == b)
    && forall x, y :: 0 <= x < a && 0 <= y < b ==> |g[x][y]| == c
  }

  /** The row-major elements of a three-dimensional tensor. */
  function Flat<T>(g: seq<seq<seq<T>>>): seq<T> {
    Flatten(Flatten(g))
  }

  lemma FlatRows<T>(g: seq<seq<seq<T>>>, a: nat, b: nat, c: nat)
    requires Shaped(g, a, b, c)
    ensures |Flatten(g)| == a * b && forall x :: 0 <= x < |Flatten(g)| ==> |Flatten(g)[x]| == c
  {
    GridLength(g, b);
    forall x | 0 <= x < |Flatten(g)|
      ensures |Flatten(g)[x]| == c
    {
      var row, col := Divide(x, a, b);
      GridAt(g, b, row, col);
    }
  }

  lemma FlatLength<T>(g: seq<seq<seq<T>>>, a: nat, b: nat, c: nat)
    requires Shaped(g, a, b, c)
    ensures |Flat(g)| == a * b * c
  {
    FlatRows(g, a, b, c);
    GridLength(Flatten(g), c);
  }

  /** Element (x, y, z) of the tensor. */
  lemma FlatAt<T>(g: seq<seq<seq<T>>>, a: nat, b: nat, c: nat, x: nat, y: nat, z: nat)
    requires Shaped(g, a, b, c) && x < a && y < b && z < c
    ensures 0 <= (x * b + y) * c + z < |Flat(g)| && Flat(g)[(x * b + y) * c + z] == g[x][y][z]
  {
    FlatRows(g, a, b, c);
    var row := x * b + y;
    GridAt(g, b, x, y);
    GridAt(Flatten(g), c, row, z);
  }

  function Reshape<T>(data: seq<T>, a: nat, b: nat, c: nat): seq<seq<seq<T>>>
    requires |data| == a * b * c
  {
    Chunks(Chunks(data, a * b, c), a, b)
  }

  lemma ReshapeShaped<T>(data: seq<T>, a: nat, b: nat, c: nat)
    requires |data| == a * b * c
    ensures Shaped(Reshape(data, a, b, c), a, b, c) && Flat(Reshape(data, a, b, c)) == data
  {
    var rows := Chunks(data, a * b, c);
    var g := Chunks(rows, a, b);
    FlattenChunks(data, a * b, c);
    FlattenChunks(rows, a, b);
    forall x, y | 0 <= x < a && 0 <= y < b
      ensures |g[x][y]| == c
    {
      GridAt(g, b, x, y);
    }
  }

  lemma ReshapeFlat<T>(g: seq<seq<seq<T>>>, a: nat, b: nat, c: nat)
    requires Shaped(g, a, b, c)
    ensures |Flat(g)| == a * b * c && Reshape(Flat(g), a, b, c) == g
  {
    FlatRows(g, a, b, c);
    ChunksFlatten(Flatten(g), c);
    ChunksFlatten(g, b);
  }

  // ---- exchanging the two leading dimensions ----

  /** Column j of a grid. */
  function Column<X>(grid: seq<seq<X>>, j: nat): (column: seq<X>)
    requires forall r :: 0 <= r < |grid| ==> j < |grid[r]|
    ensures |column| == |grid| && forall r :: 0 <= r < |grid| ==> column[r] == grid[r][j]
  {
    if grid == [] then [] else Column(grid[..|grid| - 1], j) + [grid[|grid| - 1][j]]
  }

  /** The first `upTo` columns of a grid, one after the other. */
  function Transpose<X>(grid: seq<seq<X>>, upTo: nat): (columns: seq<seq<X>>)
    requires forall r :: 0 <= r < |grid| ==> upTo <= |grid[r]|
    ensures |columns| == upTo && forall j :: 0 <= j < upTo ==> columns[j] == Column(grid, j)
  {
    if upTo == 0 then [] else Transpose(grid, upTo - 1) + [Column(grid, upTo - 1)]
  }

  lemma TransposeTwice<X>(grid: seq<seq<X>>, b: nat)
    requires forall r :: 0 <= r < |grid| ==> |grid[r]| == b
    ensures Transpose(Transpose(grid, b), |grid|) == grid
  {
    var t := Transpose(grid, b);
    forall r | 0 <= r < |grid|
      ensures Transpose(t, |grid|)[r] == grid[r]
    {
      assert Column(t, r) == grid[r];
    }
  }

  lemma TransposeShaped<T>(g: seq<seq<seq<T>>>, a: nat, b: nat, c: nat)
    requires Shaped(g, a, b, c)
    ensures Shaped(Transpose(g, b), b, a, c)
  {
    var t := Transpose(g, b);
    forall j, r | 0 <= j < b && 0 <= r < a
      ensures |t[j][r]| == c
    {
      assert t[j] == Column(g, j);
    }
  }

  /** The a by b by c tensor as b by a by c, in row-major order. */
  function Swap<T>(data: seq<T>, a: nat, b: nat, c: nat): seq<T>
    requires |data| == a * b * c
  {
    ReshapeShaped(data, a, b, c);
    Flat(Transpose(Reshape(data, a, b, c), b))
  }

  lemma SwapLength<T>(data: seq<T>, a: nat, b: nat, c: nat)
    requires |data| == a * b * c
    ensures |Swap(data, a, b, c)| == b * a * c == |data|
  {
    ReshapeShaped(data, a, b, c);
    var g := Reshape(data, a, b, c);
    TransposeShaped(g, a, b, c);
    FlatLength(Transpose(g, b), b, a, c);
    assert b * a == a * b;
  }

  /** Element (x, y, z) goes to (y, x, z). */
  lemma SwapAt<T>(data: seq<T>, a: nat, b: nat, c: nat, x: nat, y: nat, z: nat)
    requires |data| == a * b * c && x < a && y < b && z < c
    ensures 0 <= (y * a + x) * c + z < |Swap(data, a, b, c)| && 0 <= (x * b + y) * c + z < |data|
    ensures Swap(data, a, b, c)[(y * a + x) * c + z] == data[(x * b + y) * c + z]
  {
    ReshapeShaped(data, a, b, c);
    var g := Reshape(data, a, b, c);
    TransposeShaped(g, a, b, c);
    FlatAt(g, a, b, c, x, y, z);
    FlatAt(Transpose(g, b), b, a, c, y, x, z);
  }

  /** Exchanging back restores the tensor, so the layout is a bijection on positions. */
  lemma SwapTwice<T>(data: seq<T>, a: nat, b: nat, c: nat)
    requires |data| == a * b * c
    ensures |Swap(data, a, b, c)| == b * a * c && Swap(Swap(data, a, b, c), b, a, c) == data
  {
    ReshapeShaped(data, a, b, c);
    var g := Reshape(data, a, b, c);
    TransposeShaped(g, a, b, c);
    TransposeTwice(g, b);
    ReshapeFlat(Transpose(g, b), b, a, c);
  }

  lemma TileOffset(r: nat, tiles: nat, j: nat, w: nat, i: nat)
    ensures (r * tiles + j) * w + i == r * (tiles * w) + (j * w + i)
    ensures r * (tiles * w) == r * tiles * w
  {
  }

  /** On a matrix of tiles * w columns, column i of tile j of row r goes to (j, r, i). */
  lemma TileAt<T>(data: seq<T>, rows: nat, tiles: nat, w: nat, r: nat, j: nat, i: nat)
    requires |data| == rows * tiles * w && r < rows && j < tiles && i < w
    ensures 0 <= (j * rows + r) * w + i < |Swap(data, rows, tiles, w)|
    ensures 0 <= r * (tiles * w) + (j * w + i) < |data|
    ensures Swap(data, rows, tiles, w)[(j * rows + r) * w + i] == data[r * (tiles * w) + (j * w + i)]
  {
    SwapAt(data, rows, tiles, w, r, j, i);
    TileOffset(r, tiles, j, w, i);
  }

  // ---- the padded layout ----

  datatype Matrix<T> = Matrix(rows: nat, cols: nat, data: seq<seq<T>>) {
    ghost predicate Valid() {
      |data| == rows && forall r :: 0 <= r < rows ==> |data[r]| == cols
    }
  }

  /** _round_up(x, 16) */
  function RoundUp(x: nat): (r: nat)
    ensures r % 16 == 0 && x <= r < x + 16
  {
    (x + 15) / 16 * 16
  }

  function Fill<T>(n: nat, x: T): (r: seq<T>)
    ensures |r| == n && forall i :: 0 <= i < n ==> r[i] == x
  {
    if n == 0 then [] else Fill(n - 1, x) + [x]
  }

  /** The first `upTo` rows, widened. */
  function Widened<T>(m: Matrix<T>, zero: T, upTo: nat): (r: seq<seq<T>>)
    requires m.Valid() && upTo <= m.rows
    ensures |r| == upTo
    ensures forall i :: 0 <= i < upTo ==> r[i] == m.data[i] + Fill(RoundUp(m.cols) - m.cols, zero)
  {
    if upTo == 0 then []
    else Widened(m, zero, upTo - 1) + [m.data[upTo - 1] + Fill(RoundUp(m.cols) - m.cols, zero)]
  }

  /** The matrix padded on the right and below. */
  function Padded<T>(m: Matrix<T>, zero: T): (r: seq<seq<T>>)
    requires m.Valid()
    ensures |r| == RoundUp(m.rows) && forall i :: 0 <= i < |r| ==> |r[i]| == RoundUp(m.cols)
  {
    Widened(m, zero, m.rows) + Fill(RoundUp(m.rows) - m.rows, Fill(RoundUp(m.cols), zero))
  }

  lemma PaddedLength<T>(m: Matrix<T>, zero: T)
    requires m.Valid()
    ensures |Flatten(Padded(m, zero))| == RoundUp(m.rows) * (RoundUp(m.cols) / 16) * 16
  {
    var rows, tiles := RoundUp(m.rows), RoundUp(m.cols) / 16;
    GridLength(Padded(m, zero), tiles * 16);
    TileOffset(rows, tiles, 0, 16, 0);
  }

  /** nd_to_nz_2d: pad, view the columns as tiles of 16, and put the tiles first. */
  function NdToNz2d<T>(m: Matrix<T>, zero: T): seq<T>
    requires m.Valid()
  {
    PaddedLength(m, zero);
    Swap(Flatten(Padded(m, zero)), RoundUp(m.rows), RoundUp(m.cols) / 16, 16)
  }

  lemma PaddedAt<T>(m: Matrix<T>, zero: T, r: nat, c: nat)
    requires m.Valid() && r < RoundUp(m.rows) && c < RoundUp(m.cols)
    ensures 0 <= r * RoundUp(m.cols) + c < |Flatten(Padded(m, zero))|
    ensures Flatten(Padded(m, zero))[r * RoundUp(m.cols) + c]
            == if r < m.rows && c < m.cols then m.data[r][c] else zero
  {
    GridAt(Padded(m, zero), RoundUp(m.cols), r, c);
  }

  /** Column i of tile j of row r of the padded matrix is at tile j, row r, column i of the result; outside the
      matrix it is zero. */
  lemma NzElement<T>(m: Matrix<T>, zero: T, r: nat, j: nat, i: nat)
    requires m.Valid() && r < RoundUp(m.rows) && j * 16 + i < RoundUp(m.cols) && i < 16
    ensures var at, c := (j * RoundUp(m.rows) + r) * 16 + i, j * 16 + i;
            && 0 <= at < |NdToNz2d(m, zero)|
            && NdToNz2d(m, zero)[at] == if r < m.rows && c < m.cols then m.data[r][c] else zero
  {
    PaddedLength(m, zero);
    var rows, tiles := RoundUp(m.rows), RoundUp(m.cols) / 16;
    PaddedAt(m, zero, r, j * 16 + i);
    TileAt(Flatten(Padded(m, zero)), rows, tiles, 16, r, j, i);
  }

  /** Every position of the result is some element's. */
  lemma NzCovered<T>(m: Matrix<T>, zero: T, at: nat) returns (r: nat, j: nat, i: nat)
    requires m.Valid() && at < |NdToNz2d(m, zero)|
    ensures r < RoundUp(m.rows) && j * 16 + i < RoundUp(m.cols) && i < 16
    ensures at == (j * RoundUp(m.rows) + r) * 16 + i
  {
    PaddedLength(m, zero);
    var rows, tiles := RoundUp(m.rows), RoundUp(m.cols) / 16;
    SwapLength(Flatten(Padded(m, zero)), rows, tiles, 16);
    var row: nat;
    row, i := Divide(at, tiles * rows, 16);
    j, r := Divide(row, tiles, rows);
  }

  /** nd_to_nz_spec: the same layout from a buffer of zeros into which the rows are copied. */
  method NdToNzSpec<T>(m: Matrix<T>, zero: T) returns (nz: seq<T>)
    requires m.Valid()
    ensures nz == NdToNz2d(m, zero)
  {
    var rows, cols := (m.rows + 15) / 16 * 16, (m.cols + 15) / 16 * 16;
    var blank := Fill(cols, zero);
    var buffer := new seq<T>[rows](_ => blank);
    for r := 0 to m.rows
      invariant forall i :: 0 <= i < r ==> buffer[i] == m.data[i] + Fill(cols - m.cols, zero)
      invariant forall i :: r <= i < rows ==> buffer[i] == blank
    {
      assert blank[m.cols..] == Fill(cols - m.cols, zero);
      buffer[r] := m.data[r] + buffer[r][m.cols..];
    }
    assert buffer[..] == Padded(m, zero);
    PaddedLength(m, zero);
    nz := Swap(Flatten(buffer[..]), rows, cols / 16, 16);
  }

  // ---- the layout without padding ----

  /** The width of a tile: 32 for 8-bit elements. */
  function TileWidth(int8: bool): nat {
    if int8 then 32 else 16
  }

  function CeilDiv(x: nat, n: nat): nat
    requires n > 0
  {
    (x + n - 1) / n
  }

  /** trans_nd_to_nz on one rows by cols matrix; None when the tiles do not fill it, so that the reshape fails. */
  function TransNdToNz<T>(data: seq<T>, rows: nat, cols: nat, int8: bool): Option<seq<T>>
    requires |data| == rows * cols
  {
    var width := TileWidth(int8);
    var m1, n1 := CeilDiv(rows, 16), CeilDiv(cols, width);
    if m1 * 16 * n1 * width != rows * cols then None else Some(Swap(data, m1 * 16, n1, width))
  }

  lemma CeilDivBounds(x: nat, n: nat)
    requires n > 0
    ensures x <= CeilDiv(x, n) * n < x + n
    ensures CeilDiv(x, n) * n == x <==> x % n == 0
  {
    QuotientBounds(x + n - 1, n);
    QuotientBounds(x, n);
    var q := CeilDiv(x, n);
    if q * n == x {
      QuotientIs(x, n, q);
    }
    if x % n == 0 {
      QuotientIs(x + n - 1, n, x / n);
    }
  }

  /** Products of larger factors are equal only if the factors are. */
  lemma EqualFactors(a: nat, b: nat, x: nat, y: nat)
    requires 0 < x <= a && 0 < y <= b && a * b == x * y
    ensures a == x && b == y
  {
    MulMono(x, a, b);
    if y < b {
      assert x * b == x * (b - y) + x * y;
      MulMono(1, b - y, x);
      assert false;
    }
    if x < a {
      assert a * b == (a - x) * b + x * b;
      MulMono(1, a - x, b);
      assert false;
    }
  }

  /** It succeeds exactly when the matrix is empty or both its sides are multiples of the tile. */
  lemma TransOkIff<T>(data: seq<T>, rows: nat, cols: nat, int8: bool)
    requires |data| == rows * cols
    ensures TransNdToNz(data, rows, cols, int8).Some?
            <==> rows == 0 || cols == 0 || (rows % 16 == 0 && cols % (if int8 then 32 else 16) == 0)
  {
    var width := TileWidth(int8);
    var a, b := CeilDiv(rows, 16) * 16, CeilDiv(cols, width) * width;
    CeilDivBounds(rows, 16);
    CeilDivBounds(cols, width);
    assert CeilDiv(rows, 16) * 16 * CeilDiv(cols, width) * width == a * b;
    if rows > 0 && cols > 0 && a * b == rows * cols {
      EqualFactors(a, b, rows, cols);
    }
    if rows == 0 || cols == 0 {
      assert a == 0 || b == 0;
      assert a * b == 0 && rows * cols == 0;
    }
  }

  lemma TransIsSwap<T>(data: seq<T>, rows: nat, cols: nat, int8: bool)
    requires |data| == rows * cols && rows % 16 == 0 && cols % TileWidth(int8) == 0
    ensures |data| == rows * (cols / TileWidth(int8)) * TileWidth(int8)
    ensures TransNdToNz(data, rows, cols, int8) == Some(Swap(data, rows, cols / TileWidth(int8), TileWidth(int8)))
  {
    var width := TileWidth(int8);
    CeilDivBounds(rows, 16);
    CeilDivBounds(cols, width);
    QuotientBounds(cols, width);
    var n1 := CeilDiv(cols, width);
    QuotientIs(cols, width, n1);
    assert rows * n1 * width == rows * (n1 * width);
  }

  /** Element (r, j * width + i) goes to offset j * rows * width + r * width + i; tiles are 32 wide for 8-bit elements
      and 16 wide for others. */
  lemma TransElement<T>(data: seq<T>, rows: nat, cols: nat, int8: bool, width: nat, r: nat, j: nat, i: nat)
    requires |data| == rows * cols && width == (if int8 then 32 else 16) && rows % 16 == 0 && cols % width == 0
    requires r < rows && j < cols / width && i < width
    ensures var out, at := TransNdToNz(data, rows, cols, int8), (j * rows + r) * width + i;
            && out.Some? && 0 <= at < |out.value|
            && at == j * (rows * width) + (r * width + i)
            && 0 <= r * cols + (j * width + i) < |data|
            && out.value[at] == data[r * cols + (j * width + i)]
  {
    var tiles := cols / width;
    TransIsSwap(data, rows, cols, int8);
    assert tiles * width == cols by { QuotientBounds(cols, width); }
    TileAt(data, rows, tiles, width, r, j, i);
    TileOffset(j, rows, r, width, i);
  }

  /** Nothing is lost: the inverse exchange restores the matrix. */
  lemma TransIsBijection<T>(data: seq<T>, rows: nat, cols: nat, int8: bool)
    requires |data| == rows * cols && rows % 16 == 0 && cols % TileWidth(int8) == 0
    ensures var w, out := TileWidth(int8), TransNdToNz(data, rows, cols, int8);
            out.Some? && |out.value| == cols / w * rows * w && Swap(out.value, cols / w, rows, w) == data
  {
    TransIsSwap(data, rows, cols, int8);
    SwapTwice(data, rows, cols / TileWidth(int8), TileWidth(int8));
  }

  lemma NothingToPad<T>(m: Matrix<T>, zero: T)
    requires m.Valid() && m.rows % 16 == 0 && m.cols % 16 == 0
    ensures RoundUp(m.rows) == m.rows && RoundUp(m.cols) == m.cols && Padded(m, zero) == m.data
  {
    forall r | 0 <= r < m.rows
      ensures Padded(m, zero)[r] == m.data[r]
    {
    }
  }

  /** With tiles of 16 and nothing to pad, all three functions produce the same memory. */
  lemma SameLayout<T>(m: Matrix<T>, zero: T)
    requires m.Valid() && m.rows % 16 == 0 && m.cols % 16 == 0
    ensures |Flatten(m.data)| == m.rows * m.cols
    ensures TransNdToNz(Flatten(m.data), m.rows, m.cols, false) == Some(NdToNz2d(m, zero))
  {
    GridLength(m.data, m.cols);
    TransIsSwap(Flatten(m.data), m.rows, m.cols, false);
    NothingToPad(m, zero);
  }
}
