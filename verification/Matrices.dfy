/** Row-major matrices, as the linear-algebra runtime stores them. */
module Matrices {

  /** `matrix_index`. */
  function Index(row: int, col: int, cols: int): int {
    row * cols + col
  }

  lemma IndexInRange(row: int, col: int, rows: int, cols: int)
    requires 0 <= row < rows && 0 <= col < cols
    ensures 0 <= Index(row, col, cols) < rows * cols
  {
    assert row * cols + cols == (row + 1) * cols <= rows * cols;
  }

  lemma IndexInjective(i: int, j: int, r: int, c: int, cols: int)
    requires 0 <= j < cols && 0 <= c < cols && Index(i, j, cols) == Index(r, c, cols)
    ensures i == r && j == c
  {
    assert (i - r) * cols == c - j;
    assert i - r >= 1 ==> (i - r) * cols >= cols;
    assert i - r <= -1 ==> (i - r) * cols <= -cols;
  }

  /** The cells of a `rows` by `cols` matrix lie in its buffer, each at a place of its own. */
  lemma Cells(rows: nat, cols: nat)
    ensures forall r, c | 0 <= r < rows && 0 <= c < cols :: 0 <= Index(r, c, cols) < rows * cols
    ensures forall i, j, r, c | 0 <= j < cols && 0 <= c < cols && Index(i, j, cols) == Index(r, c, cols) :: i == r && j == c
  {
    forall r, c | 0 <= r < rows && 0 <= c < cols ensures 0 <= Index(r, c, cols) < rows * cols {
      IndexInRange(r, c, rows, cols);
    }
    forall i, j, r, c | 0 <= j < cols && 0 <= c < cols && Index(i, j, cols) == Index(r, c, cols) ensures i == r && j == c {
      IndexInjective(i, j, r, c, cols);
    }
  }

  class Matrix<T> {
    const rows: nat
    const cols: nat
    const data: array<T>

    ghost predicate Valid() {
      data.Length == rows * cols
    }

    /** `nuwan_matrix_create`: every cell is zero. */
    constructor (rows: nat, cols: nat, zero: T)
      ensures Valid() && this.rows == rows && this.cols == cols && fresh(data)
      ensures forall k | 0 <= k < data.Length :: data[k] == zero
    {
      this.rows, this.cols := rows, cols;
      data := new T[rows * cols](_ => zero);
    }
  }
}
