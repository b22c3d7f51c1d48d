/** Small sequence vocabulary shared by the models: concatenation of blocks, options. */
module Collections {

  datatype Option<+T> = None | Some(value: T)

  datatype Result<+T, +E> = Ok(value: T) | Err(error: E)

  // ---- concatenation of a sequence of blocks ----

  function Flatten<T>(blocks: seq<seq<T>>): seq<T> {
    if blocks == [] then [] else Flatten(blocks[..|blocks| - 1]) + blocks[|blocks| - 1]
  }

  lemma FlattenPush<T>(blocks: seq<seq<T>>, last: seq<T>)
    ensures Flatten(blocks + [last]) == Flatten(blocks) + last
  {
    assert (blocks + [last])[..|blocks|] == blocks;
  }

  lemma SliceOfDrop<T>(s: seq<T>, a: nat, b: nat, c: nat)
    requires a <= |s| && b <= c <= |s| - a
    ensures s[a..][b..c] == s[a + b..a + c]
  {
  }

  /** Where block k starts inside Flatten(blocks). */
  function Offset<T>(blocks: seq<seq<T>>, k: nat): nat
    requires k <= |blocks|
  {
    |Flatten(blocks[..k])|
  }

  lemma OffsetStep<T>(blocks: seq<seq<T>>, k: nat)
    requires k < |blocks|
    ensures Offset(blocks, k + 1) == Offset(blocks, k) + |blocks[k]|
  {
    assert blocks[..k + 1][..k] == blocks[..k];
  }

  lemma {:induction false} OffsetMonotone<T>(blocks: seq<seq<T>>, i: nat, j: nat)
    requires i <= j <= |blocks|
    ensures Offset(blocks, i) <= Offset(blocks, j)
    decreases j - i
  {
    if i < j {
      OffsetStep(blocks, i);
      OffsetMonotone(blocks, i + 1, j);
    }
  }

  /** Element j of block k sits at Offset(blocks, k) + j. */
  lemma {:induction false} FlattenAt<T>(blocks: seq<seq<T>>, k: nat, j: nat)
    requires k < |blocks| && j < |blocks[k]|
    ensures Offset(blocks, k) + j < |Flatten(blocks)|
    ensures Flatten(blocks)[Offset(blocks, k) + j] == blocks[k][j]
    decreases |blocks|
  {
    var last := |blocks| - 1;
    var front := blocks[..last];
    if k < last {
      assert front[..k] == blocks[..k];
      FlattenAt(front, k, j);
    }
  }

  /** Every position of the concatenation belongs to some block. */
  lemma {:induction false} Locate<T>(blocks: seq<seq<T>>, y: nat) returns (k: nat, j: nat)
    requires y < |Flatten(blocks)|
    ensures k < |blocks| && j < |blocks[k]| && y == Offset(blocks, k) + j
    decreases |blocks|
  {
    var last := |blocks| - 1;
    var front := blocks[..last];
    if y < |Flatten(front)| {
      k, j := Locate(front, y);
      assert front[..k] == blocks[..k];
    } else {
      k, j := last, y - |Flatten(front)|;
    }
  }

  lemma {:induction false} FlattenPrefix<T>(blocks: seq<seq<T>>, k: nat)
    requires k <= |blocks|
    ensures Flatten(blocks[..k]) <= Flatten(blocks)
    decreases |blocks|
  {
    if k < |blocks| {
      var front := blocks[..|blocks| - 1];
      assert front[..k] == blocks[..k];
      FlattenPrefix(front, k);
    } else {
      assert blocks[..k] == blocks;
    }
  }

  lemma FlattenStep<T>(blocks: seq<seq<T>>, k: nat)
    requires k < |blocks|
    ensures Flatten(blocks[..k + 1]) == Flatten(blocks[..k]) + blocks[k]
    ensures Flatten(blocks[..k + 1]) <= Flatten(blocks)
  {
    assert blocks[..k + 1][..k] == blocks[..k];
    FlattenPrefix(blocks, k + 1);
  }

  lemma {:induction false} FlattenConcat<T>(a: seq<seq<T>>, b: seq<seq<T>>)
    ensures Flatten(a + b) == Flatten(a) + Flatten(b)
  {
    if b == [] {
      assert a + b == a;
    } else {
      var front := b[..|b| - 1];
      FlattenConcat(a, front);
      assert (a + b)[..|a + b| - 1] == a + front;
    }
  }

  // ---- grids ----

  lemma IndexInGrid(a: nat, b: nat, m: nat, n: nat)
    requires a < m && b < n
    ensures a * n + b < m * n
  {
    assert (a + 1) * n <= m * n;
  }

  lemma RowInGrid(a: nat, m: nat, n: nat)
    requires a < m
    ensures a * n + n == (a + 1) * n <= m * n
  {
  }

  /** Index k of an m by n grid is a row and a column. */
  lemma Divide(k: nat, m: nat, n: nat) returns (row: nat, col: nat)
    requires k < m * n
    ensures n > 0 && row < m && col < n && k == row * n + col && col == k % n
  {
    row, col := k / n, k % n;
    assert row >= m ==> row * n >= m * n;
  }

  /** Rows of equal length n concatenate to a grid. */
  lemma {:induction false} GridLength<T>(rows: seq<seq<T>>, n: nat)
    requires forall e :: 0 <= e < |rows| ==> |rows[e]| == n
    ensures |Flatten(rows)| == |rows| * n
  {
    if rows != [] {
      GridLength(rows[..|rows| - 1], n);
      assert |rows| * n == (|rows| - 1) * n + n;
    }
  }

  /** Column `col` of row `row` is element row * n + col of the grid. */
  lemma GridAt<T>(rows: seq<seq<T>>, n: nat, row: nat, col: nat)
    requires forall e :: 0 <= e < |rows| ==> |rows[e]| == n
    requires row < |rows| && col < n
    ensures 0 <= row * n + col < |Flatten(rows)| && Flatten(rows)[row * n + col] == rows[row][col]
  {
    GridLength(rows[..row], n);
    FlattenAt(rows, row, col);
  }

  // ---- quotients ----

  lemma MulMono(a: int, b: int, n: nat)
    ensures a <= b ==> a * n <= b * n
  {
  }

  /** The quotient is the only row that contains x. */
  lemma QuotientIs(x: int, n: nat, q: int)
    requires n > 0 && q * n <= x < q * n + n
    ensures x / n == q && x % n == x - q * n
  {
    var p := x / n;
    QuotientBounds(x, n);
    MulMono(p + 1, q, n);
    MulMono(q + 1, p, n);
    assert (p + 1) * n == p * n + n && (q + 1) * n == q * n + n;
  }

  lemma QuotientBounds(x: int, n: nat)
    requires n > 0
    ensures x / n * n <= x < x / n * n + n && x % n == x - x / n * n
  {
  }

  lemma AtMostQuotient(x: int, n: nat, q: int)
    requires n > 0 && q * n <= x
    ensures q <= x / n
  {
    var p := x / n;
    QuotientBounds(x, n);
    MulMono(p + 1, q, n);
    assert (p + 1) * n == p * n + n;
  }
}
