/** Which matrices have their pivots, said without the elimination. */
module MatrixPivots {
  import opened MatrixInverse

  type Vector = int -> real

  /** The first `m` terms of row `r` times the vector. */
  ghost function Along(e: Entries, v: Vector, r: int, m: nat): real {
    if m == 0 then 0.0 else Along(e, v, r, m - 1) + e(r, m - 1) * v(m - 1)
  }

  /** The first `m` rows, cut to `k` columns, take the vector to zero. */
  ghost predicate Kills(e: Entries, m: nat, k: nat, v: Vector) {
    forall r: nat | r < m :: Along(e, v, r, k) == 0.0
  }

  ghost predicate ZeroVector(v: Vector, k: nat) {
    forall c: nat | c < k :: v(c) == 0.0
  }

  /** The leading block of size `k` takes no other vector to zero: it is invertible. */
  ghost predicate Regular(e: Entries, k: nat) {
    forall v: Vector | Kills(e, k, k, v) :: ZeroVector(v, k)
  }

  lemma {:induction false} AlongScaled(e: Entries, i: int, p: real, v: Vector, m: nat)
    requires p != 0.0
    ensures Along(Scaled(e, i, p), v, i, m) * p == Along(e, v, i, m)
  {
    if m > 0 {
      AlongScaled(e, i, p, v, m - 1);
      Distributes(Along(Scaled(e, i, p), v, i, m - 1), e(i, m - 1), p, v(m - 1));
    }
  }

  lemma Distributes(s: real, x: real, p: real, y: real)
    requires p != 0.0
    ensures (s + (x / p) * y) * p == s * p + x * y
  {
    var q := x / p;
    assert q * p == x;
    assert (q * y) * p == (q * p) * y;
  }

  lemma {:induction false} AlongSame(e: Entries, e': Entries, v: Vector, r: int, m: nat)
    requires forall c | 0 <= c < m :: e'(r, c) == e(r, c)
    ensures Along(e', v, r, m) == Along(e, v, r, m)
  {
    if m > 0 { AlongSame(e, e', v, r, m - 1); }
  }

  lemma {:induction false} AlongCleared(e: Entries, i: nat, n: nat, v: Vector, r: nat, m: nat)
    requires r < n && r != i
    ensures Along(Cleared(e, i, n), v, r, m) == Along(e, v, r, m) - e(r, i) * Along(e, v, i, m)
  {
    if m > 0 {
      AlongCleared(e, i, n, v, r, m - 1);
      Subtracts(Along(e, v, r, m - 1), Along(e, v, i, m - 1), e(r, m - 1), e(i, m - 1), e(r, i), v(m - 1));
    }
  }

  lemma Subtracts(s: real, t: real, x: real, y: real, f: real, z: real)
    ensures (s - f * t) + (x - f * y) * z == (s + x * z) - f * (t + y * z)
  {
    assert (x - f * y) * z == x * z - f * (y * z);
  }

  lemma Product(x: real, p: real)
    requires p != 0.0
    ensures x * p == 0.0 <==> x == 0.0
  {
    if x * p == 0.0 { assert x == (x * p) / p; }
  }

  /** Before and after one turn of the elimination the rows of a block that holds the pivot's row take the same
      vectors to zero, and the rows below it take those to the same numbers. */
  lemma TurnKeepsKills(e: Entries, i: nat, m: nat, k: nat, n: nat, v: Vector)
    requires i < m <= n && e(i, i) != 0.0
    ensures var t := Cleared(Scaled(e, i, e(i, i)), i, n);
      && (Kills(t, m, k, v) <==> Kills(e, m, k, v))
      && (Kills(e, m, k, v) ==> forall r: nat | m <= r < n :: Along(t, v, r, k) == Along(e, v, r, k))
  {
    var p := e(i, i);
    var s := Scaled(e, i, p);
    var t := Cleared(s, i, n);
    AlongScaled(e, i, p, v, k);
    Product(Along(s, v, i, k), p);
    AlongSame(s, t, v, i, k);
    forall r: nat | r < n && r != i ensures Along(t, v, r, k) == Along(e, v, r, k) - e(r, i) * Along(s, v, i, k) {
      AlongCleared(s, i, n, v, r, k);
      AlongSame(e, s, v, r, k);
    }
    if Kills(t, m, k, v) || Kills(e, m, k, v) {
      assert Along(s, v, i, k) == 0.0;
      assert forall r: nat | r < n && r != i :: Along(t, v, r, k) == Along(e, v, r, k);
    }
  }

  /** The first `i` pivots are not zero. */
  ghost predicate NonZero(a: Entries, n: nat, i: nat) {
    forall j: nat | j < i :: Stage(a, n, j)(j, j) != 0.0
  }

  lemma {:induction false} StageKeepsKills(a: Entries, n: nat, i: nat, m: nat, k: nat, v: Vector)
    requires i <= m <= n && NonZero(a, n, i)
    ensures Kills(Stage(a, n, i), m, k, v) <==> Kills(a, m, k, v)
    ensures Kills(a, m, k, v) ==> forall r: nat | m <= r < n :: Along(Stage(a, n, i), v, r, k) == Along(a, v, r, k)
  {
    if i > 0 {
      StageKeepsKills(a, n, i - 1, m, k, v);
      TurnKeepsKills(Stage(a, n, i - 1), i - 1, m, k, n, v);
    }
  }

  lemma {:induction false} StageUnit(a: Entries, n: nat, i: nat)
    requires i <= n && NonZero(a, n, i)
    ensures UnitColumns(Stage(a, n, i), n, i)
  {
    if i > 0 {
      StageUnit(a, n, i - 1);
      ClearedIsUnit(Stage(a, n, i - 1), n, i - 1);
    }
  }

  lemma {:induction false} AlongUnit(e: Entries, n: nat, i: nat, v: Vector, r: nat, m: nat)
    requires UnitColumns(e, n, i) && r < n && m <= i
    ensures Along(e, v, r, m) == if r < m then v(r) else 0.0
  {
    if m > 0 { AlongUnit(e, n, i, v, r, m - 1); }
  }

  lemma AlongPivot(e: Entries, n: nat, i: nat, v: Vector, r: nat)
    requires UnitColumns(e, n, i) && r <= i < n
    ensures Along(e, v, r, i + 1) == (if r < i then v(r) else 0.0) + e(r, i) * v(i)
  {
    AlongUnit(e, n, i, v, r, i);
  }

  /** With `i` unit columns the next block is regular exactly if the pivot is not zero. */
  lemma PivotDecides(e: Entries, n: nat, i: nat)
    requires UnitColumns(e, n, i) && i < n
    ensures Regular(e, i + 1) <==> e(i, i) != 0.0
  {
    var k: nat := i + 1;
    if e(i, i) != 0.0 {
      forall v: Vector | Kills(e, k, k, v) ensures ZeroVector(v, k) {
        forall r: nat | r <= i ensures (if r < i then v(r) else 0.0) + e(r, i) * v(i) == 0.0 { AlongPivot(e, n, i, v, r); }
        assert e(i, i) * v(i) == 0.0;
        Product(v(i), e(i, i));
      }
    } else {
      var v: Vector := c => if c == i then 1.0 else -e(c, i);
      forall r: nat | r < k ensures Along(e, v, r, k) == 0.0 { AlongPivot(e, n, i, v, r); }
      assert Kills(e, k, k, v) && v(i) == 1.0;
      assert !ZeroVector(v, k);
    }
  }

  lemma BlockDecides(a: Entries, n: nat, i: nat)
    requires i < n && NonZero(a, n, i)
    ensures Regular(a, i + 1) <==> Stage(a, n, i)(i, i) != 0.0
  {
    var e, k: nat := Stage(a, n, i), i + 1;
    StageUnit(a, n, i);
    PivotDecides(e, n, i);
    forall v: Vector ensures Kills(e, k, k, v) <==> Kills(a, k, k, v) { StageKeepsKills(a, n, i, k, k, v); }
  }

  /** No pivot is zero if and only if every leading block is invertible. */
  lemma {:induction false} NonZeroIffRegular(a: Entries, n: nat, i: nat)
    requires i <= n
    ensures NonZero(a, n, i) <==> forall k: nat | 0 < k <= i :: Regular(a, k)
  {
    if i > 0 {
      NonZeroIffRegular(a, n, i - 1);
      if NonZero(a, n, i - 1) { BlockDecides(a, n, i - 1); }
      assert NonZero(a, n, i) <==> NonZero(a, n, i - 1) && Stage(a, n, i - 1)(i - 1, i - 1) != 0.0;
    }
  }

  /** So a matrix has the pivots the code asks for only if every leading block is invertible. */
  lemma PivotsNeedBlocks(a: Entries, n: nat)
    requires Pivots(a, n)
    ensures forall k: nat | 0 < k <= n :: Regular(a, k)
  {
    forall i: nat | i < n ensures Stage(a, n, i)(i, i) != 0.0 { assert PivotAt(a, n, i); }
    NonZeroIffRegular(a, n, n);
  }

  // --- The bound on the pivots ---

  /** A vector that ends in 1 and that the first `i` rows of the leading block of size `i + 1` take to zero. What the
      last row takes it to is, by Cramer's rule, the quotient of the determinants of the blocks of size `i + 1` and `i`. */
  ghost predicate Probe(a: Entries, i: nat, v: Vector) {
    v(i) == 1.0 && Kills(a, i, i + 1, v)
  }

  /** The leading block of size `i + 1` is far enough from singular. */
  ghost predicate LargeAt(a: Entries, i: nat) {
    exists v: Vector :: Probe(a, i, v) && !Small(Along(a, v, i, i + 1))
  }

  /** With the earlier pivots there, there is a probe, and each of them shows the pivot. */
  lemma ProbeShowsPivot(a: Entries, n: nat, i: nat, v: Vector)
    requires i < n && NonZero(a, n, i) && Probe(a, i, v)
    ensures Along(a, v, i, i + 1) == Stage(a, n, i)(i, i)
  {
    StageUnit(a, n, i);
    StageKeepsKills(a, n, i, i, i + 1, v);
    AlongPivot(Stage(a, n, i), n, i, v, i);
  }

  lemma ProbeExists(a: Entries, n: nat, i: nat) returns (v: Vector)
    requires i < n && NonZero(a, n, i)
    ensures Probe(a, i, v)
  {
    var e, k: nat := Stage(a, n, i), i + 1;
    v := c => if c == i then 1.0 else -e(c, i);
    StageUnit(a, n, i);
    forall r: nat | r < i ensures Along(e, v, r, k) == 0.0 { AlongPivot(e, n, i, v, r); }
    StageKeepsKills(a, n, i, i, i + 1, v);
  }

  lemma LargeDecides(a: Entries, n: nat, i: nat)
    requires i < n && NonZero(a, n, i)
    ensures LargeAt(a, i) <==> PivotAt(a, n, i)
  {
    var v := ProbeExists(a, n, i);
    ProbeShowsPivot(a, n, i, v);
    if w: Vector :| Probe(a, i, w) && !Small(Along(a, w, i, i + 1)) { ProbeShowsPivot(a, n, i, w); }
  }

  /** The matrix has the pivots the code asks for if and only if every leading block is far enough from singular. */
  lemma PivotsIffLarge(a: Entries, n: nat)
    ensures Pivots(a, n) <==> forall i: nat | i < n :: LargeAt(a, i)
  {
    LargeUpTo(a, n, n);
    assert Pivots(a, n) <==> PivotsTo(a, n, n);
  }

  lemma {:induction false} LargeUpTo(a: Entries, n: nat, i: nat)
    requires i <= n
    ensures PivotsTo(a, n, i) <==> forall j: nat | j < i :: LargeAt(a, j)
  {
    if i > 0 {
      LargeUpTo(a, n, i - 1);
      assert PivotsTo(a, n, i) <==> PivotsTo(a, n, i - 1) && PivotAt(a, n, i - 1);
      if PivotsTo(a, n, i - 1) {
        forall j: nat | j < i - 1 ensures Stage(a, n, j)(j, j) != 0.0 { assert PivotAt(a, n, j); }
        LargeDecides(a, n, i - 1);
      }
    }
  }

  /** A single entry comes back exactly if its size is 1e-10 or more; the bound itself is enough. */
  lemma OneEntry(a: Entries)
    ensures Pivots(a, 1) <==> a(0, 0) <= -0.0000000001 || a(0, 0) >= 0.0000000001
  {
    assert Pivots(a, 1) <==> PivotAt(a, 1, 0);
  }

  /** An entry below the bound is refused, though it has an inverse. */
  lemma SmallIsRefused(a: Entries)
    requires a(0, 0) == SMALL / 10.0
    ensures Regular(a, 1) && Inverts((r, c) => 1.0 / a(0, 0), a, 1) && !Pivots(a, 1)
  {
    BlockDecides(a, 1, 0);
    var x := a(0, 0);
    var b: Entries := (r, c) => 1.0 / x;
    assert 1.0 / x * x == 1.0;
    assert Dot(b, a, 0, 0, 1) == 1.0 / x * x && Dot(a, b, 0, 0, 1) == x * (1.0 / x);
    assert !PivotAt(a, 1, 0);
  }
}
