/** Facts about indices taken modulo a ring's capacity. */
module Wrapping {

  lemma SlotsDiffer(i: int, j: int, c: int)
    requires c > 0 && i < j < i + c
    ensures i % c != j % c
  {
    var q := j / c - i / c;
    assert j - i == c * q + j % c - i % c;
    assert q <= 0 ==> c * q <= 0;
    assert q >= 1 ==> c * q >= c;
  }

  lemma NextLap(i: int, c: int)
    requires c > 0
    ensures (i + c) % c == i % c
  {
    var d := (i + c) / c - i / c - 1;
    assert c * d == i % c - (i + c) % c;
    assert d >= 1 ==> c * d >= c;
    assert d <= -1 ==> c * d <= -c;
  }

  lemma AddLaps(i: int, m: int, c: int)
    requires c > 0
    ensures (i + c * m) % c == i % c
  {
    var d := (i + c * m) / c - i / c - m;
    assert c * ((i + c * m) / c) == c * d + c * (i / c) + c * m;
    assert c * d == i % c - (i + c * m) % c;
    assert d >= 1 ==> c * d >= c;
    assert d <= -1 ==> c * d <= -c;
  }

  /** An index may be reduced before it is moved on. */
  lemma ReduceFirst(i: int, k: int, c: int)
    requires c > 0
    ensures (i % c + k) % c == (i + k) % c
  {
    AddLaps(i % c + k, i / c, c);
  }
}
