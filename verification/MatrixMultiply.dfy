/** Blocked multiplication and the unrolled dot product keep the order of additions: they agree with the
    plain left fold for any addition and multiplication, rounding ones included. */
module MatrixMultiply {
  import opened Matrices
  import opened Words

  const BLOCK_SIZE := 64

  datatype Arithmetic<!T> = Arithmetic(zero: T, add: (T, T) -> T, mul: (T, T) -> T)

  // --- Dot product ---

  /** The left fold: zero, plus term 0, plus term 1, and so on. */
  function Fold<T>(m: Arithmetic<T>, a: seq<T>, b: seq<T>, n: nat): T
    requires n <= |a| && n <= |b|
  {
    if n == 0 then m.zero else m.add(Fold(m, a, b, n - 1), m.mul(a[n - 1], b[n - 1]))
  }

  /** `nuwan_vector_dot`, scalar path. */
  method VectorDot<T>(m: Arithmetic<T>, a: array?<T>, b: array?<T>) returns (sum: T)
    ensures a != null && b != null && a.Length == b.Length ==> sum == Fold(m, a[..], b[..], a.Length)
    ensures a == null || b == null || a.Length != b.Length ==> sum == m.zero
  {
    if a == null || b == null || a.Length != b.Length { return m.zero; }
    sum := m.zero;
    ghost var u, v := a[..], b[..];
    var i := 0;
    while i <= a.Length - 4
      invariant 0 <= i <= a.Length && sum == Fold(m, u, v, i)
    {
      sum := m.add(sum, m.mul(a[i], b[i]));
      assert sum == Fold(m, u, v, i + 1);
      sum := m.add(sum, m.mul(a[i + 1], b[i + 1]));
      assert sum == Fold(m, u, v, i + 2);
      sum := m.add(sum, m.mul(a[i + 2], b[i + 2]));
      assert sum == Fold(m, u, v, i + 3);
      sum := m.add(sum, m.mul(a[i + 3], b[i + 3]));
      i := i + 4;
    }
    while i < a.Length
      invariant 0 <= i <= a.Length && sum == Fold(m, u, v, i)
    {
      sum := m.add(sum, m.mul(a[i], b[i]));
      i := i + 1;
    }
  }

  // --- Matrix product ---

  /** A factor's entries by row and column; what stands outside is never used. */
  ghost function Entry<T>(m: Arithmetic<T>, s: seq<T>, cols: nat, r: int, c: int): T {
    if 0 <= Index(r, c, cols) < |s| then s[Index(r, c, cols)] else m.zero
  }

  /** The first `n` terms of row `r` of `a` times column `c` of `b`, added up from the left. */
  ghost function Cell<T>(m: Arithmetic<T>, a: seq<T>, aCols: nat, b: seq<T>, bCols: nat, r: int, c: int, n: nat): T {
    if n == 0 then m.zero
    else m.add(Cell(m, a, aCols, b, bCols, r, c, n - 1), m.mul(Entry(m, a, aCols, r, n - 1), Entry(m, b, bCols, n - 1, c)))
  }

  ghost predicate CellIs<T>(s: seq<T>, r: int, c: int, cols: nat, x: T) {
    0 <= Index(r, c, cols) < |s| && s[Index(r, c, cols)] == x
  }

  /** How many terms cell (r, c) holds when block (ii, jj) has taken in the terms below `kk`. */
  function Depth(ii: nat, jj: nat, kk: nat, terms: nat, r: int, c: int): nat {
    if r < ii || (r < ii + BLOCK_SIZE && c < jj) then terms
    else if r < ii + BLOCK_SIZE && c < jj + BLOCK_SIZE then Min(kk, terms)
    else 0
  }

  function DepthInside(ii: nat, jj: nat, kk: nat, i: nat, j: nat, terms: nat, r: int, c: int): nat {
    if ii <= r < ii + BLOCK_SIZE && jj <= c < jj + BLOCK_SIZE && (r < i || (r == i && c < j))
    then Min(kk + BLOCK_SIZE, terms)
    else Depth(ii, jj, kk, terms, r, c)
  }

  /** The factors of a product, as values. */
  datatype Factors<!T> = Factors(m: Arithmetic<T>, a: seq<T>, rows: nat, terms: nat, b: seq<T>, cols: nat)

  ghost function Term<T>(f: Factors<T>, r: int, c: int, n: nat): T {
    Cell(f.m, f.a, f.terms, f.b, f.cols, r, c, n)
  }

  /** Cell (r, c) of the buffer `s` has taken in `depth(r, c)` terms, for every cell. */
  ghost predicate Holds<T>(f: Factors<T>, s: seq<T>, depth: (int, int) -> nat) {
    forall r, c | 0 <= r < f.rows && 0 <= c < f.cols && 0 <= Index(r, c, f.cols) < |s| ::
      s[Index(r, c, f.cols)] == Term(f, r, c, depth(r, c))
  }

  lemma HoldsSame<T>(f: Factors<T>, s: seq<T>, depth: (int, int) -> nat, depth': (int, int) -> nat)
    requires Holds(f, s, depth)
    requires forall r, c | 0 <= r < f.rows && 0 <= c < f.cols :: depth(r, c) == depth'(r, c)
    ensures Holds(f, s, depth')
  {
  }

  lemma HoldsOneMore<T>(f: Factors<T>, s: seq<T>, i: nat, j: nat, x: T, depth: (int, int) -> nat, depth': (int, int) -> nat)
    requires Holds(f, s, depth) && i < f.rows && j < f.cols && |s| == f.rows * f.cols
    requires x == Term(f, i, j, depth'(i, j))
    requires forall r, c | 0 <= r < f.rows && 0 <= c < f.cols && (r != i || c != j) :: depth(r, c) == depth'(r, c)
    ensures 0 <= Index(i, j, f.cols) < |s| && Holds(f, s[Index(i, j, f.cols) := x], depth')
  {
    Cells(f.rows, f.cols);
  }

  /** Before block (ii, jj) takes in its next terms, from `kk` on. */
  ghost function Before<T>(f: Factors<T>, ii: nat, jj: nat, kk: nat): (int, int) -> nat {
    (r, c) => Depth(ii, jj, kk, f.terms, r, c)
  }

  /** Within block (ii, jj), after its cells up to (i, j) have taken them in. */
  ghost function Inside<T>(f: Factors<T>, ii: nat, jj: nat, kk: nat, i: nat, j: nat): (int, int) -> nat {
    (r, c) => DepthInside(ii, jj, kk, i, j, f.terms, r, c)
  }

  ghost predicate Factored<T>(f: Factors<T>, a: Matrix<T>, b: Matrix<T>)
    reads a.data, b.data
  {
    && a.Valid() && b.Valid()
    && f.a == a.data[..] && f.rows == a.rows && f.terms == a.cols == b.rows && f.b == b.data[..] && f.cols == b.cols
  }

  ghost predicate Multiplies<T>(f: Factors<T>, a: Matrix<T>, b: Matrix<T>, result: Matrix<T>)
    reads a.data, b.data
  {
    && Factored(f, a, b) && result.Valid() && result.rows == a.rows && result.cols == b.cols
    && result.data != a.data && result.data != b.data
  }

  method TermAt<T>(m: Arithmetic<T>, a: Matrix<T>, b: Matrix<T>, i: nat, j: nat, k: nat) returns (x: T)
    requires a.Valid() && b.Valid() && a.cols == b.rows && i < a.rows && j < b.cols && k < a.cols
    ensures x == m.mul(Entry(m, a.data[..], a.cols, i, k), Entry(m, b.data[..], b.cols, k, j))
  {
    IndexInRange(i, k, a.rows, a.cols);
    IndexInRange(k, j, b.rows, b.cols);
    x := m.mul(a.data[Index(i, k, a.cols)], b.data[Index(k, j, b.cols)]);
  }

  /** The innermost loop: cell (i, j), at `start`, takes in the terms of one block. */
  method Accumulate<T>(m: Arithmetic<T>, a: Matrix<T>, b: Matrix<T>, ghost f: Factors<T>, i: nat, j: nat, kk: nat, start: T)
    returns (sum: T)
    requires Factored(f, a, b) && f.m == m && i < a.rows && j < b.cols && kk < a.cols
    requires start == Term(f, i, j, kk)
    ensures sum == Term(f, i, j, Min(kk + BLOCK_SIZE, f.terms))
  {
    sum := start;
    var k := kk;
    while k < kk + BLOCK_SIZE && k < a.cols
      invariant kk <= k <= Min(kk + BLOCK_SIZE, a.cols) && sum == Term(f, i, j, k)
    {
      var x := TermAt(m, a, b, i, j, k);
      sum := m.add(sum, x);
      k := k + 1;
    }
  }

  /** One cell of the block takes in its next terms. */
  method MultiplyCell<T>(m: Arithmetic<T>, a: Matrix<T>, b: Matrix<T>, result: Matrix<T>, ghost f: Factors<T>,
      ghost ii: nat, ghost jj: nat, kk: nat, i: nat, j: nat)
    requires Multiplies(f, a, b, result) && f.m == m && ii <= i < a.rows && i < ii + BLOCK_SIZE && kk < a.cols
    requires jj <= j < b.cols && j < jj + BLOCK_SIZE
    requires Holds(f, result.data[..], Inside(f, ii, jj, kk, i, j))
    modifies result.data
    ensures Holds(f, result.data[..], Inside(f, ii, jj, kk, i, j + 1))
  {
    ghost var s := result.data[..];
    IndexInRange(i, j, result.rows, result.cols);
    assert s[Index(i, j, f.cols)] == Term(f, i, j, Inside(f, ii, jj, kk, i, j)(i, j));
    var sum := Accumulate(m, a, b, f, i, j, kk, result.data[Index(i, j, result.cols)]);
    result.data[Index(i, j, result.cols)] := sum;
    assert result.data[..] == s[Index(i, j, f.cols) := sum];
    HoldsOneMore(f, s, i, j, sum, Inside(f, ii, jj, kk, i, j), Inside(f, ii, jj, kk, i, j + 1));
  }

  method MultiplyRow<T>(m: Arithmetic<T>, a: Matrix<T>, b: Matrix<T>, result: Matrix<T>, ghost f: Factors<T>,
      ghost ii: nat, jj: nat, kk: nat, i: nat)
    requires Multiplies(f, a, b, result) && f.m == m && ii <= i < a.rows && i < ii + BLOCK_SIZE && jj < b.cols && kk < a.cols
    requires Holds(f, result.data[..], Inside(f, ii, jj, kk, i, jj))
    modifies result.data
    ensures Holds(f, result.data[..], Inside(f, ii, jj, kk, i + 1, jj))
  {
    var j := jj;
    while j < jj + BLOCK_SIZE && j < b.cols
      invariant jj <= j <= b.cols && j <= jj + BLOCK_SIZE
      invariant Holds(f, result.data[..], Inside(f, ii, jj, kk, i, j))
    {
      MultiplyCell(m, a, b, result, f, ii, jj, kk, i, j);
      j := j + 1;
    }
    HoldsSame(f, result.data[..], Inside(f, ii, jj, kk, i, j), Inside(f, ii, jj, kk, i + 1, jj));
  }

  method MultiplyBlock<T>(m: Arithmetic<T>, a: Matrix<T>, b: Matrix<T>, result: Matrix<T>, ghost f: Factors<T>,
      ii: nat, jj: nat, kk: nat)
    requires Multiplies(f, a, b, result) && f.m == m && ii < a.rows && jj < b.cols && kk < a.cols
    requires Holds(f, result.data[..], Before(f, ii, jj, kk))
    modifies result.data
    ensures Holds(f, result.data[..], Before(f, ii, jj, kk + BLOCK_SIZE))
  {
    HoldsSame(f, result.data[..], Before(f, ii, jj, kk), Inside(f, ii, jj, kk, ii, jj));
    var i := ii;
    while i < ii + BLOCK_SIZE && i < a.rows
      invariant ii <= i <= a.rows && i <= ii + BLOCK_SIZE
      invariant Holds(f, result.data[..], Inside(f, ii, jj, kk, i, jj))
    {
      MultiplyRow(m, a, b, result, f, ii, jj, kk, i);
      i := i + 1;
    }
    HoldsSame(f, result.data[..], Inside(f, ii, jj, kk, i, jj), Before(f, ii, jj, kk + BLOCK_SIZE));
  }

  method MultiplyColumn<T>(m: Arithmetic<T>, a: Matrix<T>, b: Matrix<T>, result: Matrix<T>, ghost f: Factors<T>, ii: nat, jj: nat)
    requires Multiplies(f, a, b, result) && f.m == m && ii < a.rows && jj < b.cols
    requires Holds(f, result.data[..], Before(f, ii, jj, 0))
    modifies result.data
    ensures Holds(f, result.data[..], Before(f, ii, jj + BLOCK_SIZE, 0))
  {
    var kk := 0;
    while kk < a.cols
      invariant Holds(f, result.data[..], Before(f, ii, jj, kk))
    {
      MultiplyBlock(m, a, b, result, f, ii, jj, kk);
      kk := kk + BLOCK_SIZE;
    }
    HoldsSame(f, result.data[..], Before(f, ii, jj, kk), Before(f, ii, jj + BLOCK_SIZE, 0));
  }

  /** `nuwan_matrix_multiply`: every cell is the plain left fold of its row and column. */
  method Multiply<T>(m: Arithmetic<T>, a: Matrix?<T>, b: Matrix?<T>) returns (r: Matrix?<T>)
    requires (a != null ==> a.Valid()) && (b != null ==> b.Valid())
    ensures r != null <==> a != null && b != null && a.cols == b.rows
    ensures r != null ==> fresh(r) && fresh(r.data) && r.Valid() && r.rows == a.rows && r.cols == b.cols
    ensures r != null ==>
      forall i, j | 0 <= i < r.rows && 0 <= j < r.cols ::
        CellIs(r.data[..], i, j, r.cols, Cell(m, a.data[..], a.cols, b.data[..], b.cols, i, j, a.cols))
  {
    if a == null || b == null || a.cols != b.rows { return null; }
    var result := new Matrix(a.rows, b.cols, m.zero);
    ghost var f := Factors(m, a.data[..], a.rows, a.cols, b.data[..], b.cols);
    var ii := 0;
    while ii < a.rows
      invariant Multiplies(f, a, b, result) && fresh(result.data)
      invariant Holds(f, result.data[..], Before(f, ii, 0, 0))
    {
      var jj := 0;
      while jj < b.cols
        invariant Multiplies(f, a, b, result) && fresh(result.data)
        invariant Holds(f, result.data[..], Before(f, ii, jj, 0))
      {
        MultiplyColumn(m, a, b, result, f, ii, jj);
        jj := jj + BLOCK_SIZE;
      }
      HoldsSame(f, result.data[..], Before(f, ii, jj, 0), Before(f, ii + BLOCK_SIZE, 0, 0));
      ii := ii + BLOCK_SIZE;
    }
    Cells(a.rows, b.cols);
    return result;
  }

  /** The two folds are one: a cell is the dot product of the row and the column taken out as vectors. */
  lemma {:induction false} CellIsDot<T>(m: Arithmetic<T>, a: seq<T>, aCols: nat, b: seq<T>, bCols: nat, r: nat, c: nat,
      row: seq<T>, column: seq<T>, n: nat)
    requires n <= |row| == |column| == aCols && |b| == aCols * bCols && c < bCols && Index(r + 1, 0, aCols) <= |a|
    requires forall k | 0 <= k < aCols && 0 <= Index(r, k, aCols) < |a| :: row[k] == a[Index(r, k, aCols)]
    requires forall k | 0 <= k < aCols && 0 <= Index(k, c, bCols) < |b| :: column[k] == b[Index(k, c, bCols)]
    ensures Cell(m, a, aCols, b, bCols, r, c, n) == Fold(m, row, column, n)
  {
    if n > 0 {
      CellIsDot(m, a, aCols, b, bCols, r, c, row, column, n - 1);
      IndexInRange(r, n - 1, r + 1, aCols);
      IndexInRange(n - 1, c, aCols, bCols);
    }
  }
}
