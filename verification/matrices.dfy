/** Dense integer matrices, the product both programs compute, the row-major
    offset of the shared result buffer, and orderings of work items. */
module Matrices {

  /** A matrix is a sequence of rows. Entries are exact integers so that the
      parallel and the sequential sums can be compared for equality. */
  type Matrix = seq<seq<int>>

  /** m has exactly `rows` rows, each of exactly `cols` entries. */
  predicate IsMatrix(m: Matrix, rows: int, cols: int)
  {
    0 <= cols && |m| == rows && forall i :: 0 <= i < |m| ==> |m[i]| == cols
  }

  /** Every access A[i][t] and B[t][j] made by the triple loop, that is, with
      i < |A|, j < cols and t < inner, is within bounds. (When cols is 0 the
      loop reads no entry of A, and when A is empty it reads no entry of B.) */
  predicate Multipliable(A: Matrix, B: Matrix, inner: int, cols: int)
  {
    && 0 <= inner <= |B|
    && 0 <= cols
    && (cols > 0 ==> forall i :: 0 <= i < |A| ==> inner <= |A[i]|)
    && (|A| > 0 ==> forall t :: 0 <= t < inner ==> cols <= |B[t]|)
  }

  /** The sum of A[i][t] * B[t][j] over t < k, accumulated from zero in the
      order t = 0, 1, ..., k - 1. */
  function Dot(A: Matrix, B: Matrix, i: int, j: int, k: int): int
    requires 0 <= i < |A| && 0 <= j && 0 <= k <= |A[i]| && k <= |B|
    requires forall t :: 0 <= t < k ==> j < |B[t]|
  {
    if k == 0 then 0 else Dot(A, B, i, j, k - 1) + A[i][k - 1] * B[k - 1][j]
  }

  /** The |A| x cols product of A and B, summing over the first `inner`
      columns of A and rows of B. */
  function Product(A: Matrix, B: Matrix, inner: int, cols: int): (C: Matrix)
    requires Multipliable(A, B, inner, cols)
    ensures IsMatrix(C, |A|, cols)
  {
    seq(|A|, i requires 0 <= i < |A| =>
      seq(cols, j requires 0 <= j < cols => Dot(A, B, i, j, inner)))
  }

  /** `rows` rows of `cols` zeros. */
  function Zeros(rows: nat, cols: nat): (Z: Matrix)
    ensures IsMatrix(Z, rows, cols)
  {
    seq(rows, _ => seq(cols, _ => 0))
  }

  /** Row-major offset of cell (i, j) in a buffer whose rows have `cols` cells. */
  function Cell(i: int, j: int, cols: int): int
  {
    i * cols + j
  }

  /** Division with remainder has a unique quotient and remainder. */
  lemma DivModUnique(x: int, d: int, q: int, r: int)
    requires d > 0 && 0 <= r < d && x == q * d + r
    ensures x / d == q && x % d == r
  {
    var q', r' := x / d, x % d;
    assert x == q' * d + r';
    if q' < q {
      MulLeft(q' + 1, q, d);
      assert false;
    } else if q < q' {
      MulLeft(q + 1, q', d);
      assert false;
    }
  }

  /** Multiplication by a non-negative number is monotonic. */
  lemma MulLeft(a: int, b: int, d: int)
    requires a <= b && d >= 0
    ensures a * d <= b * d
  {
    var e := b - a;
    assert b * d == a * d + e * d;
  }

  /** The offset of cell (i, j) lies in [0, rows * cols), and from it the row
      and column are recovered by division and remainder. */
  lemma CellInRange(i: int, j: int, rows: int, cols: int)
    requires 0 <= i < rows && 0 <= j < cols
    ensures 0 <= Cell(i, j, cols) < rows * cols
    ensures Cell(i, j, cols) / cols == i && Cell(i, j, cols) % cols == j
  {
    MulLeft(0, i, cols);
    MulLeft(i + 1, rows, cols);
    DivModUnique(Cell(i, j, cols), cols, i, j);
  }

  /** Distinct cells have distinct offsets. */
  lemma CellInjective(i: int, j: int, i': int, j': int, cols: int)
    requires 0 <= i && 0 <= i' && 0 <= j < cols && 0 <= j' < cols
    requires Cell(i, j, cols) == Cell(i', j', cols)
    ensures i == i' && j == j'
  {
    DivModUnique(Cell(i, j, cols), cols, i, j);
    DivModUnique(Cell(i', j', cols), cols, i', j');
  }

  /** Offset x lies in the slice of rows [s, e) exactly when its row x / cols
      does. */
  lemma SliceRows(x: int, cols: int, s: int, e: int)
    requires cols > 0 && x >= 0
    ensures s * cols <= x < e * cols <==> s <= x / cols < e
  {
    var q, r := x / cols, x % cols;
    assert x == q * cols + r;
    if s <= q { MulLeft(s, q, cols); } else { MulLeft(q + 1, s, cols); }
    if q < e { MulLeft(q + 1, e, cols); } else { MulLeft(e, q, cols); }
  }

  /** The cell (row, column) stored at offset x of a row-major buffer of
      `rows` rows of `cols` cells, and the only cell stored there. */
  function Position(x: int, rows: int, cols: int): (ij: (int, int))
    requires 0 <= cols && 0 <= x < rows * cols
    ensures 0 <= ij.0 < rows && 0 <= ij.1 < cols
    ensures Cell(ij.0, ij.1, cols) == x
    ensures forall i, j :: 0 <= i && 0 <= j < cols && Cell(i, j, cols) == x ==> ij == (i, j)
  {
    assert cols > 0;
    SliceRows(x, cols, 0, rows);
    assert forall i, j :: 0 <= i && 0 <= j < cols && Cell(i, j, cols) == x ==> (x / cols, x % cols) == (i, j) by {
      forall i, j | 0 <= i && 0 <= j < cols && Cell(i, j, cols) == x
        ensures (x / cols, x % cols) == (i, j)
      {
        DivModUnique(x, cols, i, j);
      }
    }
    (x / cols, x % cols)
  }

  /** Reading cell (i, j)'s offset back gives (i, j). */
  lemma PositionOfCell(i: int, j: int, rows: int, cols: int)
    requires 0 <= i < rows && 0 <= j < cols
    ensures 0 <= Cell(i, j, cols) < rows * cols
    ensures Position(Cell(i, j, cols), rows, cols) == (i, j)
  {
    CellInRange(i, j, rows, cols);
    var ij := Position(Cell(i, j, cols), rows, cols);
    CellInjective(ij.0, ij.1, i, j, cols);
  }

  /** Row i of a row-major buffer: the `cols` cells from offset i * cols. */
  function RowSlice(flat: seq<int>, rows: int, cols: int, i: int): (row: seq<int>)
    requires 0 <= cols && |flat| == rows * cols && 0 <= i < rows
    ensures |row| == cols
    ensures forall j :: 0 <= j < cols ==> 0 <= Cell(i, j, cols) < |flat| && row[j] == flat[Cell(i, j, cols)]
  {
    MulLeft(0, i, cols);
    MulLeft(i + 1, rows, cols);
    flat[i * cols .. i * cols + cols]
  }

  /** A row-major buffer of rows * cols cells seen as a matrix, one row per
      slice of `cols` cells. */
  function RowView(flat: seq<int>, rows: int, cols: int): (M: Matrix)
    requires 0 <= rows && 0 <= cols && |flat| == rows * cols
    ensures IsMatrix(M, rows, cols)
  {
    seq(rows, i requires 0 <= i < rows => RowSlice(flat, rows, cols, i))
  }

  /** Entry (i, j) of the row view is the buffer's cell at offset i * cols + j. */
  lemma RowViewCell(flat: seq<int>, rows: int, cols: int, i: int, j: int)
    requires 0 <= rows && 0 <= cols && |flat| == rows * cols
    requires 0 <= i < rows && 0 <= j < cols
    ensures 0 <= Cell(i, j, cols) < |flat|
    ensures RowView(flat, rows, cols)[i][j] == flat[Cell(i, j, cols)]
  {
    assert RowView(flat, rows, cols)[i] == RowSlice(flat, rows, cols, i);
  }

  /** 0, 1, ..., n - 1: the row indices in the order they are handed out. */
  function Iota(n: nat): (s: seq<int>)
    ensures |s| == n
  {
    seq(n, k => k)
  }

  /** s lists each of 0, 1, ..., n - 1 exactly once, in some order. */
  predicate IsPermutation(s: seq<int>, n: nat)
  {
    multiset(s) == multiset(Iota(n))
  }

  /** The elements of a permutation of 0..n-1 are exactly 0..n-1. */
  lemma PermutationMembers(s: seq<int>, n: nat, x: int)
    requires IsPermutation(s, n)
    ensures x in s <==> 0 <= x < n
  {
    assert x in s <==> x in multiset(s);
    assert x in Iota(n) <==> x in multiset(Iota(n));
    if 0 <= x < n {
      assert Iota(n)[x] == x;
    }
  }

  /** Each index in [0, n) occurs once in Iota(n), and nothing else occurs. */
  lemma {:induction false} IotaOnce(n: nat, x: int)
    ensures multiset(Iota(n))[x] == if 0 <= x < n then 1 else 0
  {
    if n > 0 {
      IotaOnce(n - 1, x);
      assert Iota(n) == Iota(n - 1) + [n - 1];
    }
  }

  /** The worked example: [[1,2,3],[4,5,6]] times [[7,8],[9,10],[11,12]]
      is [[58,64],[139,154]]. */
  lemma ProductExample()
    ensures Product([[1, 2, 3], [4, 5, 6]], [[7, 8], [9, 10], [11, 12]], 3, 2)
            == [[58, 64], [139, 154]]
  {
    var A: Matrix := [[1, 2, 3], [4, 5, 6]];
    var B: Matrix := [[7, 8], [9, 10], [11, 12]];
    var C := Product(A, B, 3, 2);
    assert C[0] == [58, 64];
    assert C[1] == [139, 154];
  }
}
