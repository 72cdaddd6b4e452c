/** Object pointers, and counting how often one stands in a list of fields. */
module References {

  type Ptr = nat
  const NULL: Ptr := 0

  /** How often `n` stands among the first `k` entries of `s`. */
  ghost function Occurrences(s: seq<Ptr>, k: nat, n: Ptr): nat {
    if k == 0 then 0
    else Occurrences(s, k - 1, n) + (if k <= |s| && s[k - 1] == n then 1 else 0)
  }

  lemma {:induction false} OccurrencesMonotone(s: seq<Ptr>, i: nat, j: nat, n: Ptr)
    requires i <= j
    ensures Occurrences(s, i, n) <= Occurrences(s, j, n)
    decreases j
  {
    if i < j { OccurrencesMonotone(s, i, j - 1, n); }
  }

  lemma {:induction false} OccurrencesZero(s: seq<Ptr>, k: nat, n: Ptr)
    requires forall i: nat | i < k && i < |s| :: s[i] != n
    ensures Occurrences(s, k, n) == 0
  {
    if k > 0 { OccurrencesZero(s, k - 1, n); }
  }

  ghost predicate Apart(s: seq<Ptr>, i: int, j: int) {
    0 <= i < |s| && 0 <= j < |s| && s[i] != s[j]
  }

  /** No pointer twice. */
  ghost predicate NoRepeats(s: seq<Ptr>) {
    forall i, j {:trigger Apart(s, i, j)} | 0 <= i < j < |s| :: Apart(s, i, j)
  }

  /** What stands at a place stands at no earlier one. */
  lemma NotEarlier(s: seq<Ptr>, i: nat)
    requires NoRepeats(s) && i < |s|
    ensures s[i] !in s[..i]
  {
    forall m | 0 <= m < i ensures s[m] != s[i] { assert Apart(s, m, i); }
  }

  lemma NoRepeatsEnd(s: seq<Ptr>, p: Ptr)
    ensures NoRepeats(s + [p]) <==> NoRepeats(s) && p !in s
  {
    var t := s + [p];
    if NoRepeats(t) {
      forall i, j | 0 <= i < j < |s| ensures Apart(s, i, j) { assert Apart(t, i, j); }
      forall i | 0 <= i < |s| ensures s[i] != p { assert Apart(t, i, |s|); }
    }
    if NoRepeats(s) && p !in s {
      forall i, j | 0 <= i < j < |t| ensures Apart(t, i, j) { assert j < |s| ==> Apart(s, i, j); }
    }
  }

  lemma SmallerSet(a: set<Ptr>, b: set<Ptr>)
    requires a <= b
    ensures |a| <= |b|
  {
    assert b == a + (b - a);
  }

  lemma {:induction false} DistinctCount(s: seq<Ptr>, elems: set<Ptr>)
    requires NoRepeats(s) && (forall p | p in s :: p in elems) && (forall p | p in elems :: p in s)
    ensures |s| == |elems|
  {
    if |s| > 0 {
      var last := s[|s| - 1];
      var init := s[..|s| - 1];
      assert s == init + [last];
      NoRepeatsEnd(init, last);
      DistinctCount(init, elems - {last});
    } else {
      assert elems == {};
    }
  }
}
