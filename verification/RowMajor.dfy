/** Positions of matrix entries in row-major storage. */
module RowMajor {

  /** Row-major position of row i, column j. */
  function Idx(i: nat, j: nat, width: nat): nat {
    i * width + j
  }

  lemma IdxBound(i: nat, j: nat, rows: nat, width: nat)
    requires i < rows && j < width
    ensures Idx(i, j, width) < rows * width
  {
    assert (i + 1) * width <= rows * width;
  }

  lemma IdxInjective(i: nat, j: nat, m: nat, n: nat, width: nat)
    requires j < width && n < width && Idx(i, j, width) == Idx(m, n, width)
    ensures i == m && j == n
  {
    IdxOrder(i, j, m, n, width);
    IdxOrder(m, n, i, j, width);
  }

  lemma IdxOrder(i: nat, j: nat, m: nat, n: nat, width: nat)
    requires j < width
    ensures i < m ==> Idx(i, j, width) < Idx(m, n, width)
  {
    if i < m { assert (i + 1) * width <= m * width; }
  }

  lemma {:induction false} IdxCovers(p: nat, rows: nat, width: nat) returns (i: nat, j: nat)
    requires p < rows * width
    ensures i < rows && j < width && p == Idx(i, j, width)
    decreases rows
  {
    assert rows * width == (rows - 1) * width + width;
    if p >= (rows - 1) * width {
      i, j := rows - 1, p - (rows - 1) * width;
    } else {
      i, j := IdxCovers(p, rows - 1, width);
    }
  }
}
