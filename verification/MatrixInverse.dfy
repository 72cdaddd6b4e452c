/** Gauss-Jordan inversion without row exchanges, over exact reals. */
module MatrixInverse {
  import opened Matrices

  const SMALL: real := 0.0000000001

  /** A matrix as its entries; only those in range are looked at. */
  type Entries = (int, int) -> real

  ghost function Grid(s: seq<real>, rows: nat, cols: nat): Entries {
    (r, c) => if 0 <= r < rows && 0 <= c < cols && 0 <= Index(r, c, cols) < |s| then s[Index(r, c, cols)] else 0.0
  }

  ghost predicate Same(a: Entries, b: Entries, rows: nat, cols: nat) {
    forall r, c | 0 <= r < rows && 0 <= c < cols :: a(r, c) == b(r, c)
  }

  function Unit(r: int, c: int): real {
    if r == c then 1.0 else 0.0
  }

  /** The first `n` terms of row `r` of `a` times column `c` of `b`. */
  ghost function Dot(a: Entries, b: Entries, r: int, c: int, n: nat): real {
    if n == 0 then 0.0 else Dot(a, b, r, c, n - 1) + a(r, n - 1) * b(n - 1, c)
  }

  /** `a` times `b` is the identity of size `n`. */
  ghost predicate IsIdentity(a: Entries, b: Entries, n: nat) {
    forall r, c | 0 <= r < n && 0 <= c < n :: Dot(a, b, r, c, n) == Unit(r, c)
  }

  // --- Row operations ---

  ghost function Scaled(e: Entries, i: int, p: real): Entries
    requires p != 0.0
  {
    (r, c) => if r == i then e(r, c) / p else e(r, c)
  }

  ghost function Eliminated(e: Entries, k: int, i: int, f: real): Entries {
    (r, c) => if r == k then e(r, c) - f * e(i, c) else e(r, c)
  }

  /** The column operations that undo them on the other side of a product. */
  ghost function ColumnScaled(q: Entries, i: int, p: real): Entries {
    (r, c) => if c == i then q(r, c) * p else q(r, c)
  }

  ghost function ColumnAdded(q: Entries, k: int, i: int, f: real): Entries {
    (r, c) => if c == i then q(r, c) + f * q(r, k) else q(r, c)
  }

  lemma {:induction false} ScaleUndone(q: Entries, e: Entries, i: int, p: real, r: int, c: int, n: nat)
    requires p != 0.0
    ensures Dot(ColumnScaled(q, i, p), Scaled(e, i, p), r, c, n) == Dot(q, e, r, c, n)
  {
    if n > 0 {
      ScaleUndone(q, e, i, p, r, c, n - 1);
      assert (q(r, i) * p) * (e(i, c) / p) == q(r, i) * e(i, c);
    }
  }

  lemma Distribute(x: real, f: real, y: real, z: real)
    ensures (x + f * y) * z == x * z + f * y * z
  {
  }

  lemma DistributeMinus(x: real, f: real, y: real, z: real)
    ensures y * (x - f * z) == y * x - f * y * z
  {
    assert y * (x - f * z) == y * x - y * (f * z);
    assert y * (f * z) == f * y * z;
  }

  /** What the elimination adds to term `i`, and takes from term `k`. */
  function Moved(q: Entries, e: Entries, k: int, i: int, f: real, r: int, c: int): real {
    f * q(r, k) * e(i, c)
  }

  lemma EliminationTerm(q: Entries, e: Entries, k: int, i: int, f: real, r: int, c: int, m: int)
    requires k != i
    ensures ColumnAdded(q, k, i, f)(r, m) * Eliminated(e, k, i, f)(m, c) == q(r, m) * e(m, c)
            + (if i == m then Moved(q, e, k, i, f, r, c) else 0.0) - (if k == m then Moved(q, e, k, i, f, r, c) else 0.0)
  {
    if m == i {
      Distribute(q(r, i), f, q(r, k), e(i, c));
    } else if m == k {
      DistributeMinus(e(k, c), f, q(r, k), e(i, c));
    }
  }

  /** Two products whose terms agree but for `m` added to term `i` and taken from term `k`. */
  lemma {:induction false} DotMoved(a: Entries, b: Entries, a': Entries, b': Entries, r: int, c: int, n: nat, i: nat, k: nat, m: real)
    requires forall j | 0 <= j < n ::
      a'(r, j) * b'(j, c) == a(r, j) * b(j, c) + (if i == j then m else 0.0) - (if k == j then m else 0.0)
    ensures Dot(a', b', r, c, n) == Dot(a, b, r, c, n) + (if i < n then m else 0.0) - (if k < n then m else 0.0)
  {
    if n > 0 { DotMoved(a, b, a', b', r, c, n - 1, i, k, m); }
  }

  lemma EliminationUndone(q: Entries, e: Entries, k: nat, i: nat, f: real, r: int, c: int, n: nat)
    requires k < n && i < n && k != i
    ensures Dot(ColumnAdded(q, k, i, f), Eliminated(e, k, i, f), r, c, n) == Dot(q, e, r, c, n)
  {
    var q', e' := ColumnAdded(q, k, i, f), Eliminated(e, k, i, f);
    var m := Moved(q, e, k, i, f, r, c);
    forall j | 0 <= j < n
      ensures q'(r, j) * e'(j, c) == q(r, j) * e(j, c) + (if i == j then m else 0.0) - (if k == j then m else 0.0)
    {
      EliminationTerm(q, e, k, i, f, r, c, j);
    }
    DotMoved(q, e, q', e', r, c, n, i, k, m);
  }

  lemma {:induction false} DotOfScaled(e: Entries, a: Entries, i: int, p: real, r: int, c: int, n: nat)
    requires p != 0.0
    ensures Dot(Scaled(e, i, p), a, r, c, n) == (if r == i then Dot(e, a, r, c, n) / p else Dot(e, a, r, c, n))
  {
    if n > 0 {
      DotOfScaled(e, a, i, p, r, c, n - 1);
      SumDivided(Dot(e, a, r, c, n - 1), e(r, n - 1), a(n - 1, c), p);
    }
  }

  lemma SumDivided(d: real, x: real, y: real, p: real)
    requires p != 0.0
    ensures d / p + x / p * y == (d + x * y) / p
  {
    var u, v := d / p, x / p;
    assert u * p == d && v * p == x;
    assert (v * y) * p == (v * p) * y;
    assert (u + v * y) * p == u * p + (v * y) * p;
    Quotient(d + x * y, u + v * y, p);
  }

  lemma Quotient(n: real, q: real, p: real)
    requires p != 0.0 && q * p == n
    ensures n / p == q
  {
  }

  lemma {:induction false} DotOfEliminated(e: Entries, a: Entries, k: int, i: int, f: real, r: int, c: int, n: nat)
    ensures Dot(Eliminated(e, k, i, f), a, r, c, n)
            == (if r == k then Dot(e, a, r, c, n) - f * Dot(e, a, i, c, n) else Dot(e, a, r, c, n))
  {
    if n > 0 {
      DotOfEliminated(e, a, k, i, f, r, c, n - 1);
      var x, z, y, d := e(r, n - 1), e(i, n - 1), a(n - 1, c), Dot(e, a, i, c, n - 1);
      assert (x - f * z) * y == x * y - f * (z * y);
      assert f * (d + z * y) == f * d + f * (z * y);
    }
  }

  lemma {:induction false} DotOfSame(a: Entries, b: Entries, a': Entries, b': Entries, r: int, c: int, n: nat)
    requires forall k | 0 <= k < n :: a(r, k) == a'(r, k) && b(k, c) == b'(k, c)
    ensures Dot(a, b, r, c, n) == Dot(a', b', r, c, n)
  {
    if n > 0 { DotOfSame(a, b, a', b', r, c, n - 1); }
  }

  // --- The invariant ---

  /** The augmented matrix [a | I] before any step. */
  ghost function Augmented(a: Entries, n: nat): Entries {
    (r, c) => if c < n then a(r, c) else Unit(r, c - n)
  }

  ghost function RightHalf(e: Entries, n: nat): Entries {
    (r, c) => e(r, c + n)
  }

  /** `e` is the right half of itself times [a | I], and `q` times `e` is [a | I] again. */
  ghost predicate Linked(e: Entries, q: Entries, a: Entries, n: nat) {
    && (forall r, c | 0 <= r < n && 0 <= c < n :: e(r, c) == Dot(RightHalf(e, n), a, r, c, n))
    && (forall r, c | 0 <= r < n && 0 <= c < 2 * n :: Dot(q, e, r, c, n) == Augmented(a, n)(r, c))
  }

  ghost predicate UnitColumns(e: Entries, n: nat, i: nat) {
    forall r, c | 0 <= r < n && 0 <= c < i :: e(r, c) == Unit(r, c)
  }

  lemma LinkedAtStart(a: Entries, n: nat)
    ensures Linked(Augmented(a, n), Unit, a, n)
  {
    var e := Augmented(a, n);
    forall r, c | 0 <= r < n && 0 <= c < n ensures e(r, c) == Dot(RightHalf(e, n), a, r, c, n) {
      UnitDot(RightHalf(e, n), a, r, c, n);
    }
    forall r, c | 0 <= r < n && 0 <= c < 2 * n ensures Dot(Unit, e, r, c, n) == e(r, c) { UnitDot(Unit, e, r, c, n); }
  }

  lemma {:induction false} UnitDot(u: Entries, e: Entries, r: int, c: int, n: nat)
    requires r >= 0 && forall k | 0 <= k < n :: u(r, k) == Unit(r, k)
    ensures Dot(u, e, r, c, n) == if r < n then e(r, c) else 0.0
  {
    if n > 0 { UnitDot(u, e, r, c, n - 1); }
  }

  lemma {:induction false} DotUnit(q: Entries, u: Entries, r: int, c: int, n: nat)
    requires c >= 0 && forall k | 0 <= k < n :: u(k, c) == Unit(k, c)
    ensures Dot(q, u, r, c, n) == if c < n then q(r, c) else 0.0
  {
    if n > 0 { DotUnit(q, u, r, c, n - 1); }
  }

  lemma LinkedScaled(e: Entries, q: Entries, a: Entries, n: nat, i: nat, p: real)
    requires Linked(e, q, a, n) && i < n && p != 0.0
    ensures Linked(Scaled(e, i, p), ColumnScaled(q, i, p), a, n)
  {
    var e', q' := Scaled(e, i, p), ColumnScaled(q, i, p);
    forall r, c | 0 <= r < n && 0 <= c < n ensures e'(r, c) == Dot(RightHalf(e', n), a, r, c, n) {
      DotOfScaled(RightHalf(e, n), a, i, p, r, c, n);
      DotOfSame(RightHalf(e', n), a, Scaled(RightHalf(e, n), i, p), a, r, c, n);
    }
    forall r, c | 0 <= r < n && 0 <= c < 2 * n ensures Dot(q', e', r, c, n) == Augmented(a, n)(r, c) {
      ScaleUndone(q, e, i, p, r, c, n);
    }
  }

  lemma LinkedEliminated(e: Entries, q: Entries, a: Entries, n: nat, k: nat, i: nat, f: real)
    requires Linked(e, q, a, n) && k < n && i < n && k != i
    ensures Linked(Eliminated(e, k, i, f), ColumnAdded(q, k, i, f), a, n)
  {
    var e', q' := Eliminated(e, k, i, f), ColumnAdded(q, k, i, f);
    forall r, c | 0 <= r < n && 0 <= c < n ensures e'(r, c) == Dot(RightHalf(e', n), a, r, c, n) {
      DotOfEliminated(RightHalf(e, n), a, k, i, f, r, c, n);
      DotOfSame(RightHalf(e', n), a, Eliminated(RightHalf(e, n), k, i, f), a, r, c, n);
    }
    forall r, c | 0 <= r < n && 0 <= c < 2 * n ensures Dot(q', e', r, c, n) == Augmented(a, n)(r, c) {
      EliminationUndone(q, e, k, i, f, r, c, n);
    }
  }

  lemma LinkedSame(e: Entries, e': Entries, q: Entries, a: Entries, n: nat)
    requires Linked(e, q, a, n) && Same(e, e', n, 2 * n)
    ensures Linked(e', q, a, n)
  {
    forall r, c | 0 <= r < n && 0 <= c < n ensures e'(r, c) == Dot(RightHalf(e', n), a, r, c, n) {
      DotOfSame(RightHalf(e', n), a, RightHalf(e, n), a, r, c, n);
    }
    forall r, c | 0 <= r < n && 0 <= c < 2 * n ensures Dot(q, e', r, c, n) == Augmented(a, n)(r, c) {
      DotOfSame(q, e', q, e, r, c, n);
    }
  }

  /** Once the left half is the identity, the right half is a left and a right inverse of `a`. */
  lemma LinkedAtEnd(e: Entries, q: Entries, a: Entries, n: nat)
    requires Linked(e, q, a, n) && UnitColumns(e, n, n)
    ensures IsIdentity(RightHalf(e, n), a, n) && IsIdentity(a, RightHalf(e, n), n)
  {
    forall r, c | 0 <= r < n && 0 <= c < n ensures q(r, c) == a(r, c) { DotUnit(q, e, r, c, n); }
    forall r, c | 0 <= r < n && 0 <= c < n ensures Dot(a, RightHalf(e, n), r, c, n) == Unit(r, c) {
      DotOfSame(q, e, q, e, r, c + n, n);
      ShiftedDot(a, q, e, r, c, n, n);
    }
  }

  lemma {:induction false} ShiftedDot(a: Entries, q: Entries, e: Entries, r: int, c: int, n: nat, m: nat)
    requires forall k | 0 <= k < m :: q(r, k) == a(r, k)
    ensures Dot(a, RightHalf(e, n), r, c, m) == Dot(q, e, r, c + n, m)
  {
    if m > 0 { ShiftedDot(a, q, e, r, c, n, m - 1); }
  }

  // --- When no inverse is returned ---

  /** Column `i` cleared out of every other row, `k` rows done. */
  ghost function Cleared(e: Entries, i: nat, k: nat): Entries {
    (r, c) => if r < k && r != i then e(r, c) - e(r, i) * e(i, c) else e(r, c)
  }

  /** The textbook elimination: `a` after `i` pivots, none of them exchanged. */
  ghost function Stage(a: Entries, n: nat, i: nat): Entries {
    if i == 0 then a
    else
      var e := Stage(a, n, i - 1);
      if e(i - 1, i - 1) == 0.0 then e else Cleared(Scaled(e, i - 1, e(i - 1, i - 1)), i - 1, n)
  }

  predicate Small(x: real) {
    (if x < 0.0 then -x else x) < SMALL
  }

  ghost predicate PivotAt(a: Entries, n: nat, i: nat) {
    !Small(Stage(a, n, i)(i, i))
  }

  ghost predicate Pivots(a: Entries, n: nat) {
    forall i: nat | i < n :: PivotAt(a, n, i)
  }

  /** The first `i` of them are large enough. */
  ghost predicate PivotsTo(a: Entries, n: nat, i: nat) {
    forall k: nat | k < i :: PivotAt(a, n, k)
  }

  // --- The algorithm ---

  /** The buffer holds the entries `e`. */
  ghost predicate Holds(s: seq<real>, e: Entries, n: nat, w: nat) {
    |s| == n * w && Same(Grid(s, n, w), e, n, w)
  }

  lemma HoldsCells(s: seq<real>, e: Entries, n: nat, w: nat)
    requires |s| == n * w
    ensures Holds(s, e, n, w) <==>
            forall r, c | 0 <= r < n && 0 <= c < w && 0 <= Index(r, c, w) < |s| :: s[Index(r, c, w)] == e(r, c)
  {
    Cells(n, w);
  }

  method ScaleRow(aug: array<real>, n: nat, w: nat, i: nat, p: real, ghost e: Entries)
    requires Holds(aug[..], e, n, w) && i < n && p != 0.0
    modifies aug
    ensures Holds(aug[..], Scaled(e, i, p), n, w)
  {
    HoldsCells(aug[..], e, n, w);
    Cells(n, w);
    for j := 0 to w
      invariant forall r, c | 0 <= r < n && 0 <= c < w && 0 <= Index(r, c, w) < aug.Length ::
                  aug[Index(r, c, w)] == if c < j then Scaled(e, i, p)(r, c) else e(r, c)
    {
      aug[Index(i, j, w)] := aug[Index(i, j, w)] / p;
    }
    HoldsCells(aug[..], Scaled(e, i, p), n, w);
  }

  method EliminateRow(aug: array<real>, n: nat, w: nat, k: nat, i: nat, f: real, ghost e: Entries)
    requires Holds(aug[..], e, n, w) && i < n && k < n && k != i
    modifies aug
    ensures Holds(aug[..], Eliminated(e, k, i, f), n, w)
  {
    HoldsCells(aug[..], e, n, w);
    Cells(n, w);
    for j := 0 to w
      invariant forall r, c | 0 <= r < n && 0 <= c < w && 0 <= Index(r, c, w) < aug.Length ::
                  aug[Index(r, c, w)] == if c < j then Eliminated(e, k, i, f)(r, c) else e(r, c)
    {
      var x, y := aug[Index(k, j, w)], aug[Index(i, j, w)];
      assert x == e(k, j) && y == e(i, j);
      aug[Index(k, j, w)] := x - f * y;
    }
    HoldsCells(aug[..], Eliminated(e, k, i, f), n, w);
  }

  lemma HoldsSame(s: seq<real>, e: Entries, e': Entries, n: nat, w: nat)
    requires Holds(s, e, n, w) && Same(e, e', n, w)
    ensures Holds(s, e', n, w)
  {
  }

  /** What stands in the left half. */
  ghost function LeftOnly(a: Entries, n: nat): Entries {
    (r, c) => if c < n then a(r, c) else 0.0
  }

  method FillLeft(m: Matrix<real>, aug: array<real>, n: nat, w: nat)
    requires m.Valid() && m.rows == m.cols == n <= w && aug.Length == n * w && aug != m.data
    requires forall k | 0 <= k < aug.Length :: aug[k] == 0.0
    modifies aug
    ensures Holds(aug[..], LeftOnly(Grid(m.data[..], n, n), n), n, w)
  {
    ghost var a := Grid(m.data[..], n, n);
    Cells(n, n);
    Cells(n, w);
    for i := 0 to n
      invariant forall r, c | 0 <= r < n && 0 <= c < w && 0 <= Index(r, c, w) < aug.Length ::
                  aug[Index(r, c, w)] == if r < i && c < n then a(r, c) else 0.0
    {
      for j := 0 to n
        invariant forall r, c | 0 <= r < n && 0 <= c < w && 0 <= Index(r, c, w) < aug.Length ::
                    aug[Index(r, c, w)] == if (r < i && c < n) || (r == i && c < j) then a(r, c) else 0.0
      {
        aug[Index(i, j, w)] := m.data[Index(i, j, n)];
      }
    }
    HoldsCells(aug[..], LeftOnly(a, n), n, w);
  }

  method FillRight(aug: array<real>, n: nat, ghost a: Entries)
    requires Holds(aug[..], LeftOnly(a, n), n, 2 * n)
    modifies aug
    ensures Holds(aug[..], Augmented(a, n), n, 2 * n)
  {
    var w := 2 * n;
    HoldsCells(aug[..], LeftOnly(a, n), n, w);
    Cells(n, w);
    for i := 0 to n
      invariant forall r, c | 0 <= r < n && 0 <= c < w && 0 <= Index(r, c, w) < aug.Length ::
                  aug[Index(r, c, w)] == if c < n then a(r, c) else if r < i then Unit(r, c - n) else 0.0
    {
      aug[Index(i, n + i, w)] := 1.0;
    }
    HoldsCells(aug[..], Augmented(a, n), n, w);
  }

  /** Left half: the matrix being inverted; right half: the identity. */
  method Augment(m: Matrix<real>) returns (aug: array<real>)
    requires m.Valid() && m.rows == m.cols
    ensures fresh(aug) && Holds(aug[..], Augmented(Grid(m.data[..], m.rows, m.rows), m.rows), m.rows, 2 * m.rows)
  {
    var n := m.rows;
    aug := new real[n * (2 * n)](_ => 0.0);
    FillLeft(m, aug, n, 2 * n);
    FillRight(aug, n, Grid(m.data[..], n, n));
  }

  method Read(aug: array<real>, n: nat, w: nat, r: nat, c: nat, ghost e: Entries) returns (x: real)
    requires Holds(aug[..], e, n, w) && r < n && c < w
    ensures x == e(r, c)
  {
    Cells(n, w);
    x := aug[Index(r, c, w)];
    assert x == Grid(aug[..], n, w)(r, c);
  }

  lemma ClearedOneMore(e: Entries, n: nat, k: nat, i: nat)
    requires k != i
    ensures Same(Eliminated(Cleared(e, i, k), k, i, Cleared(e, i, k)(k, i)), Cleared(e, i, k + 1), n, 2 * n)
  {
  }

  method ClearRow(aug: array<real>, n: nat, k: nat, i: nat, ghost e: Entries, ghost q: Entries, ghost a: Entries)
    returns (ghost q': Entries)
    requires Holds(aug[..], Cleared(e, i, k), n, 2 * n) && Linked(Cleared(e, i, k), q, a, n) && i < n && k < n && k != i
    modifies aug
    ensures Holds(aug[..], Cleared(e, i, k + 1), n, 2 * n) && Linked(Cleared(e, i, k + 1), q', a, n)
  {
    ghost var d := Cleared(e, i, k);
    var factor := Read(aug, n, 2 * n, k, i, d);
    EliminateRow(aug, n, 2 * n, k, i, factor, d);
    LinkedEliminated(d, q, a, n, k, i, factor);
    q' := ColumnAdded(q, k, i, factor);
    ClearedOneMore(e, n, k, i);
    HoldsSame(aug[..], Eliminated(d, k, i, factor), Cleared(e, i, k + 1), n, 2 * n);
    LinkedSame(Eliminated(d, k, i, factor), Cleared(e, i, k + 1), q', a, n);
  }

  method ClearColumn(aug: array<real>, n: nat, i: nat, ghost e: Entries, ghost q: Entries, ghost a: Entries)
    returns (ghost q': Entries)
    requires Holds(aug[..], e, n, 2 * n) && Linked(e, q, a, n) && i < n
    modifies aug
    ensures Holds(aug[..], Cleared(e, i, n), n, 2 * n) && Linked(Cleared(e, i, n), q', a, n)
  {
    q' := q;
    HoldsSame(aug[..], e, Cleared(e, i, 0), n, 2 * n);
    LinkedSame(e, Cleared(e, i, 0), q, a, n);
    for k := 0 to n
      invariant Holds(aug[..], Cleared(e, i, k), n, 2 * n) && Linked(Cleared(e, i, k), q', a, n)
    {
      if k != i {
        q' := ClearRow(aug, n, k, i, e, q', a);
      } else {
        assert Same(Cleared(e, i, k), Cleared(e, i, k + 1), n, 2 * n);
        HoldsSame(aug[..], Cleared(e, i, k), Cleared(e, i, k + 1), n, 2 * n);
        LinkedSame(Cleared(e, i, k), Cleared(e, i, k + 1), q', a, n);
      }
    }
  }

  lemma ClearedIsUnit(e: Entries, n: nat, i: nat)
    requires UnitColumns(e, n, i) && i < n && e(i, i) != 0.0
    ensures UnitColumns(Cleared(Scaled(e, i, e(i, i)), i, n), n, i + 1)
  {
    var p := e(i, i);
    var e' := Scaled(e, i, p);
    Quotient(p, 1.0, p);
    forall r, c | 0 <= r < n && 0 <= c < i + 1 ensures Cleared(e', i, n)(r, c) == Unit(r, c) {
      if c < i {
        assert e(i, c) == 0.0;
        Quotient(e(i, c), 0.0, p);
        assert e'(r, i) * e'(i, c) == 0.0;
      } else {
        assert e'(i, c) == 1.0;
      }
    }
  }

  /** The left half is what elimination makes of the matrix alone. */
  ghost predicate LeftHalfIs(e: Entries, b: Entries, n: nat) {
    Same(e, b, n, n)
  }

  lemma StageStep(e: Entries, a: Entries, n: nat, i: nat)
    requires LeftHalfIs(e, Stage(a, n, i), n) && i < n && e(i, i) != 0.0
    ensures LeftHalfIs(Cleared(Scaled(e, i, e(i, i)), i, n), Stage(a, n, i + 1), n)
  {
    var b := Stage(a, n, i);
    assert b(i, i) == e(i, i);
    assert Same(Scaled(e, i, e(i, i)), Scaled(b, i, b(i, i)), n, n);
  }

  method Extract(aug: array<real>, n: nat, ghost e: Entries) returns (r: Matrix<real>)
    requires Holds(aug[..], e, n, 2 * n)
    ensures fresh(r) && fresh(r.data) && r.Valid() && r.rows == r.cols == n
    ensures Same(Grid(r.data[..], n, n), RightHalf(e, n), n, n)
  {
    var w := 2 * n;
    r := new Matrix(n, n, 0.0);
    Cells(n, n);
    Cells(n, w);
    HoldsCells(aug[..], e, n, w);
    for i := 0 to n
      invariant forall k, c | 0 <= k < i && 0 <= c < n && 0 <= Index(k, c, n) < r.data.Length ::
                  r.data[Index(k, c, n)] == e(k, n + c)
    {
      for j := 0 to n
        invariant forall k, c | 0 <= k < n && 0 <= c < n && (k < i || (k == i && c < j)) && 0 <= Index(k, c, n) < r.data.Length ::
                    r.data[Index(k, c, n)] == e(k, n + c)
      {
        r.data[Index(i, j, n)] := aug[Index(i, n + j, w)];
      }
    }
  }

  ghost predicate Inverts(r: Entries, a: Entries, n: nat) {
    IsIdentity(r, a, n) && IsIdentity(a, r, n)
  }

  lemma InvertsSame(r: Entries, r': Entries, a: Entries, n: nat)
    requires Inverts(r, a, n) && Same(r, r', n, n)
    ensures Inverts(r', a, n)
  {
    forall i, j | 0 <= i < n && 0 <= j < n ensures Dot(r', a, i, j, n) == Unit(i, j) && Dot(a, r', i, j, n) == Unit(i, j) {
      DotOfSame(r, a, r', a, i, j, n);
      DotOfSame(a, r, a, r', i, j, n);
    }
  }

  /** The state before step `i`: `e` in the buffer, tied to the matrix, with `i` columns done. */
  ghost predicate Progress(s: seq<real>, e: Entries, q: Entries, a: Entries, n: nat, i: nat) {
    Holds(s, e, n, 2 * n) && Linked(e, q, a, n) && UnitColumns(e, n, i) && LeftHalfIs(e, Stage(a, n, i), n)
  }

  lemma ProgressAtStart(s: seq<real>, a: Entries, n: nat)
    requires Holds(s, Augmented(a, n), n, 2 * n)
    ensures Progress(s, Augmented(a, n), Unit, a, n, 0)
  {
    LinkedAtStart(a, n);
  }

  method Pivot(aug: array<real>, n: nat, i: nat, pivot: real, ghost e: Entries, ghost q: Entries, ghost a: Entries)
    returns (ghost e': Entries, ghost q': Entries)
    requires Progress(aug[..], e, q, a, n, i) && i < n && pivot == e(i, i) && pivot != 0.0
    modifies aug
    ensures Progress(aug[..], e', q', a, n, i + 1)
  {
    ScaleRow(aug, n, 2 * n, i, pivot, e);
    LinkedScaled(e, q, a, n, i, pivot);
    q' := ClearColumn(aug, n, i, Scaled(e, i, pivot), ColumnScaled(q, i, pivot), a);
    ClearedIsUnit(e, n, i);
    StageStep(e, a, n, i);
    e' := Cleared(Scaled(e, i, pivot), i, n);
  }

  lemma PivotEntry(e: Entries, a: Entries, n: nat, i: nat)
    requires LeftHalfIs(e, Stage(a, n, i), n) && i < n
    ensures e(i, i) == Stage(a, n, i)(i, i)
  {
  }

  /** The pivot of the turn is the one the textbook elimination has in that place. */
  method ReadPivot(aug: array<real>, n: nat, i: nat, ghost e: Entries, ghost q: Entries, ghost a: Entries) returns (pivot: real)
    requires Progress(aug[..], e, q, a, n, i) && i < n
    ensures pivot == e(i, i) == Stage(a, n, i)(i, i)
  {
    pivot := Read(aug, n, 2 * n, i, i, e);
    PivotEntry(e, a, n, i);
  }

  /** One turn of the outer loop: given up at a pivot that is too small. */
  method Turn(aug: array<real>, n: nat, i: nat, ghost e: Entries, ghost q: Entries, ghost a: Entries)
    returns (ok: bool, ghost e': Entries, ghost q': Entries)
    requires Progress(aug[..], e, q, a, n, i) && i < n
    modifies aug
    requires PivotsTo(a, n, i)
    ensures if ok then PivotsTo(a, n, i + 1) else !Pivots(a, n)
    ensures ok ==> Progress(aug[..], e', q', a, n, i + 1)
  {
    var pivot := ReadPivot(aug, n, i, e, q, a);
    if Small(pivot) {
      assert !PivotAt(a, n, i);
      return false, e, q;
    }
    ok := true;
    e', q' := Pivot(aug, n, i, pivot, e, q, a);
  }

  method Reduce(aug: array<real>, n: nat, ghost a: Entries) returns (ok: bool, ghost e: Entries, ghost q: Entries)
    requires Holds(aug[..], Augmented(a, n), n, 2 * n)
    modifies aug
    ensures ok == Pivots(a, n)
    ensures ok ==> Progress(aug[..], e, q, a, n, n)
  {
    e, q := Augmented(a, n), Unit;
    ProgressAtStart(aug[..], a, n);
    for i := 0 to n
      invariant Progress(aug[..], e, q, a, n, i)
      invariant PivotsTo(a, n, i)
    {
      ok, e, q := Turn(aug, n, i, e, q, a);
      if !ok { return; }
    }
    ok := true;
  }

  /** `nuwan_matrix_inverse`: a matrix comes back exactly when no pivot is too small, and then it is a left
      and a right inverse. */
  method Inverse(m: Matrix?<real>) returns (r: Matrix?<real>)
    requires m != null ==> m.Valid()
    ensures r != null <==> m != null && m.rows == m.cols && Pivots(Grid(m.data[..], m.rows, m.rows), m.rows)
    ensures r != null ==> fresh(r) && fresh(r.data) && r.Valid() && r.rows == r.cols == m.rows
    ensures r != null ==> Inverts(Grid(r.data[..], m.rows, m.rows), Grid(m.data[..], m.rows, m.rows), m.rows)
  {
    if m == null || m.rows != m.cols { return null; }
    var n := m.rows;
    ghost var a := Grid(m.data[..], n, n);
    var aug := Augment(m);
    var ok, e, q := Reduce(aug, n, a);
    if !ok { return null; }
    var inverse := Extract(aug, n, e);
    LinkedAtEnd(e, q, a, n);
    InvertsSame(RightHalf(e, n), Grid(inverse.data[..], n, n), a, n);
    r := inverse;
  }

  /** A null result does not mean a singular matrix: exchanging two coordinates is its own inverse, but
      has a zero in the first pivot's place, and rows are never exchanged. */
  lemma NullForAnInvertible(a: Entries)
    requires forall r, c | 0 <= r < 2 && 0 <= c < 2 :: a(r, c) == Unit(r, 1 - c)
    ensures Inverts(a, a, 2) && !Pivots(a, 2)
  {
    forall r, c | 0 <= r < 2 && 0 <= c < 2 ensures Dot(a, a, r, c, 2) == Unit(r, c) {
      assert Dot(a, a, r, c, 1) == a(r, 0) * a(0, c);
      assert Dot(a, a, r, c, 2) == a(r, 0) * a(0, c) + a(r, 1) * a(1, c);
    }
    assert Small(Stage(a, 2, 0)(0, 0));
    assert !PivotAt(a, 2, 0);
  }
}
