/** Phase 3 of a cycle collection: one visit of a white object, and what visits one after the other leave. */
module CycleVisits {
  import opened References
  import opened CycleHeap
  import opened CycleSweep
  import opened CycleFinalize

  /** Between two visits: heap and search agree on what is entered and handed over. */
  ghost predicate SweepInv(k: Sweep, h: Heap, d: seq<nat>, e: seq<Ptr>, active: set<Ptr>, out: seq<Ptr>, dead: set<Ptr>) {
    HeapInv(k, h, d, active, out, dead, {}) && SearchInv(k, e, active, out) && ChildrenFirst(k.h0, k.white, e, out)
  }

  predicate StrikesIn(k: Sweep, u: Ptr, a: Ptr) {
    Strikes(k.h0, k.releasing, k.buffered, u, a)
  }

  ghost predicate TripsIn(k: Sweep, e: seq<Ptr>) {
    Trips(k.h0, k.white, k.releasing, k.buffered, e)
  }

  ghost function OrderIn(k: Sweep, e: seq<Ptr>, todo: seq<Ptr>): seq<Ptr> {
    Order(k.h0, k.white, e, todo)
  }

  ghost predicate HandedOver(k: Sweep, active: set<Ptr>, out: seq<Ptr>, u: Ptr) {
    u in out && forall a | a in active :: !StrikesIn(k, u, a)
  }

  /** What visits add: objects that are entered and handed over, and strike none that is being visited. */
  ghost predicate Progress(k: Sweep, active: set<Ptr>, e: seq<Ptr>, out: seq<Ptr>, e': seq<Ptr>, out': seq<Ptr>) {
    e <= e' && out <= out' && forall j: nat | |e| <= j < |e'| :: HandedOver(k, active, out', e'[j])
  }

  lemma ProgressTrans(k: Sweep, active: set<Ptr>, e: seq<Ptr>, out: seq<Ptr>, e1: seq<Ptr>, out1: seq<Ptr>, e2: seq<Ptr>, out2: seq<Ptr>)
    requires Progress(k, active, e, out, e1, out1) && Progress(k, active, e1, out1, e2, out2)
    ensures Progress(k, active, e, out, e2, out2)
  {
    forall j: nat | |e| <= j < |e2| ensures HandedOver(k, active, out2, e2[j]) {
      if j < |e1| { assert HandedOver(k, active, out1, e1[j]) && e2[j] == e1[j]; }
    }
  }

  /** Nothing active was entered as the `n`-th object or later. */
  ghost predicate NoneAfter(e: seq<Ptr>, active: set<Ptr>, n: nat) {
    forall i: nat | n <= i < |e| :: e[i] !in active
  }

  /** `e[n]` is what is being visited right now: it was entered last of all active objects and hangs below
      each of them. */
  ghost predicate Deepest(k: Sweep, e: seq<Ptr>, active: set<Ptr>, n: nat) {
    n < |e| && e[n] in active && NoneAfter(e, active, n + 1) && BelowAll(k, e, active, e[n])
  }

  lemma DeepestStays(k: Sweep, e: seq<Ptr>, e': seq<Ptr>, active: set<Ptr>, n: nat)
    requires Deepest(k, e, active, n) && e <= e' && NoRepeats(e') && forall p | p in active :: p in e
    ensures Deepest(k, e', active, n)
  {
    EnteredEarlier(e', e, active);
    forall i: nat | i < |e'| && e'[i] in active ensures Beneath(k, e', i, e'[n]) {
      assert Beneath(k, e, i, e[n]);
      UnderStays(k.h0, k.white, e, e', i);
    }
  }

  lemma EnteredIsDeepest(k: Sweep, e: seq<Ptr>, active: set<Ptr>, out: seq<Ptr>, p: Ptr)
    requires Ready(k) && SearchInv(k, e, active, out) && p in k.white && p !in e && MayEnter(k, e, active, p)
    ensures Deepest(k, e + [p], active + {p}, |e|)
  {
    var e' := e + [p];
    UnderSelf(k.h0, k.white, e', |e|);
    forall i: nat | i < |e'| && e'[i] in active + {p} ensures Beneath(k, e', i, p) {
      if i < |e| {
        assert Beneath(k, e, i, p);
        UnderStays(k.h0, k.white, e, e', i);
      }
    }
  }

  // --- Destructors at work ---

  /** What is being visited is white and not handed over yet. */
  ghost predicate Pending(k: Sweep, active: set<Ptr>, out: seq<Ptr>) {
    forall a | a in active :: a in k.white && a !in out
  }

  lemma ActiveIsPending(k: Sweep, e: seq<Ptr>, active: set<Ptr>, out: seq<Ptr>)
    requires SearchInv(k, e, active, out)
    ensures Pending(k, active, out)
  {
    forall a | a in active ensures a in k.white && a !in out {
      var i: nat :| i < |e| && e[i] == a;
      assert EntryOk(k, e, active, out, i);
    }
  }

  ghost predicate SameProgress(d: seq<nat>, d': seq<nat>, who: set<Ptr>) {
    |d| == |d'| && forall p | p in who && p < |d| :: d'[p] == d[p]
  }

  /** Only white objects refer to white ones, so the destructors of others strike nothing active. */
  lemma NoneStruck(k: Sweep, u: Ptr, active: set<Ptr>)
    requires Ready(k) && Object(k.h0, u) && u !in k.white && forall a | a in active :: a in k.white
    ensures forall a | a in active :: !StrikesIn(k, u, a)
  {
    assert forall i: nat | i < |k.h0[u].scan| :: k.h0[u].scan[i] !in k.white;
  }

  lemma DyingHeader(k: Sweep, h: Heap, d: seq<nat>, active: set<Ptr>, out: seq<Ptr>, dead: set<Ptr>, dying: set<Ptr>, p: Ptr)
    requires HeapInv(k, h, d, active, out, dead, dying) && p in dying
    ensures Object(k.h0, p) && h[p].scan == k.h0[p].scan && (p in k.white ==> p in out)
    ensures |d| == |h| == |k.h0|
  {
    assert p in k.white ==> Object(k.h0, p);
    SeenHeader(k, h, d, active, out, dead, dying, p);
  }

  // --- What a visit needs to know ---

  /** A white object neither active nor handed over has not been entered. */
  lemma FreshIsUnseen(k: Sweep, e: seq<Ptr>, active: set<Ptr>, out: seq<Ptr>, p: Ptr)
    requires SearchInv(k, e, active, out) && p !in active && p !in out
    ensures p !in e && Elems(e) !! {p}
  {
    forall i: nat | i < |e| ensures e[i] != p { assert EntryOk(k, e, active, out, i); }
  }

  lemma ActiveHeader(k: Sweep, h: Heap, d: seq<nat>, e: seq<Ptr>, active: set<Ptr>, out: seq<Ptr>, dead: set<Ptr>, p: Ptr)
    requires SweepInv(k, h, d, e, active, out, dead) && p in active
    ensures Object(k.h0, p) && |h| == |k.h0| && h[p].scan == k.h0[p].scan && forall i: nat | i < |h[p].scan| :: h[p].scan[i] < |h|
    ensures forall a | a in active :: a in e
  {
    ActiveIsPending(k, e, active, out);
    assert Object(k.h0, p);
    SeenHeader(k, h, d, active, out, dead, {}, p);
  }

  lemma SameLength(k: Sweep, h: Heap, d: seq<nat>, e: seq<Ptr>, active: set<Ptr>, out: seq<Ptr>, dead: set<Ptr>)
    requires SweepInv(k, h, d, e, active, out, dead)
    ensures |h| == |k.h0|
  {
  }

  /** What is active was entered before what came after `e`. */
  lemma EnteredEarlier(e': seq<Ptr>, e: seq<Ptr>, active: set<Ptr>)
    requires NoRepeats(e') && e <= e' && forall a | a in active :: a in e
    ensures NoneAfter(e', active, |e|)
  {
    assert forall m: nat | m < |e| :: e[m] == e'[m];
    forall i: nat, m: nat | |e| <= i < |e'| && m < |e| ensures e[m] != e'[i] { assert Apart(e', m, i); }
  }

  lemma FewerLeft(k: Sweep, e: seq<Ptr>, e': seq<Ptr>)
    requires e <= e'
    ensures |k.white - Elems(e')| <= |k.white - Elems(e)|
  {
    forall p | p in e ensures p in e' {
      var i: nat :| i < |e| && e[i] == p;
      assert e'[i] == p;
    }
    SmallerSet(k.white - Elems(e'), k.white - Elems(e));
  }

  lemma OneFewerLeft(k: Sweep, e: seq<Ptr>, p: Ptr)
    requires p in k.white && p !in e
    ensures |k.white - Elems(e + [p])| < |k.white - Elems(e)|
  {
    assert k.white - Elems(e + [p]) == (k.white - Elems(e)) - {p};
  }

  ghost predicate FieldsEntered(k: Sweep, e: seq<Ptr>, fields: seq<Ptr>, i: nat) {
    forall j | 0 <= j < i && j < |fields| && fields[j] in k.white :: fields[j] in e
  }

  lemma FieldsEnteredStep(k: Sweep, e: seq<Ptr>, e': seq<Ptr>, fields: seq<Ptr>, i: nat)
    requires FieldsEntered(k, e, fields, i) && i < |fields| && e <= e' && (fields[i] in k.white ==> fields[i] in e')
    ensures FieldsEntered(k, e', fields, i + 1)
  {
    forall j | 0 <= j < i && fields[j] in k.white ensures fields[j] in e' {
      var m: nat :| m < |e| && e[m] == fields[j];
      assert e'[m] == fields[j];
    }
  }

  // --- The list of what is still to be looked at ---

  lemma OrderSkips(k: Sweep, e: seq<Ptr>, p: Ptr, rest: seq<Ptr>)
    requires p !in k.white || p in e
    ensures OrderIn(k, e, [p] + rest) == OrderIn(k, e, rest)
  {
    assert ([p] + rest)[1..] == rest;
  }

  lemma OrderEnters(k: Sweep, e: seq<Ptr>, p: Ptr, rest: seq<Ptr>)
    requires p in k.white && p !in e && p < |k.h0|
    ensures OrderIn(k, e, [p] + rest) == OrderIn(k, e + [p], k.h0[p].scan + rest)
  {
    assert ([p] + rest)[1..] == rest;
  }

  ghost function Rest(fields: seq<Ptr>, i: nat, rest: seq<Ptr>): seq<Ptr>
    requires i <= |fields|
  {
    fields[i..] + rest
  }

  lemma RestStep(fields: seq<Ptr>, i: nat, rest: seq<Ptr>)
    requires i < |fields|
    ensures Rest(fields, i, rest) == [fields[i]] + Rest(fields, i + 1, rest)
  {
  }

  lemma RestEnds(fields: seq<Ptr>, rest: seq<Ptr>)
    ensures Rest(fields, 0, rest) == fields + rest && Rest(fields, |fields|, rest) == rest
  {
  }

  /** Entries that are not white do not matter to the order. */
  lemma {:induction false} OrderIgnores(k: Sweep, e: seq<Ptr>, s: seq<Ptr>, t: seq<Ptr>)
    requires |s| == |t| && forall i | 0 <= i < |s| :: s[i] == t[i] || (s[i] !in k.white && t[i] !in k.white)
    ensures OrderIn(k, e, s) == OrderIn(k, e, t)
    decreases |k.white - Elems(e)|, |s|
  {
    if s != [] {
      var p := s[0];
      if p !in k.white || p in e || p >= |k.h0| {
        OrderIgnores(k, e, s[1..], t[1..]);
      } else {
        assert k.white - Elems(e + [p]) == (k.white - Elems(e)) - {p};
        OrderIgnores(k, e + [p], k.h0[p].scan + s[1..], k.h0[p].scan + t[1..]);
      }
    }
  }

  /** The tests of `cycle_collect_white`. */
  lemma WhiteTest(k: Sweep, h: Heap, d: seq<nat>, e: seq<Ptr>, active: set<Ptr>, out: seq<Ptr>, dead: set<Ptr>, p: Ptr, rest: seq<Ptr>)
    requires SweepInv(k, h, d, e, active, out, dead) && p < |h|
    ensures p != NULL && !h[p].deallocating && h[p].color == White <==> p in k.white && p !in e
    ensures p !in k.white || p in e ==> OrderIn(k, e, [p] + rest) == OrderIn(k, e, rest)
  {
    if Object(h, p) {
      SeenHeader(k, h, d, active, out, dead, {}, p);
      if p !in active && p !in out { FreshIsUnseen(k, e, active, out, p); }
    }
    if p !in k.white || p in e { OrderSkips(k, e, p, rest); }
  }

  lemma VisitStarts(k: Sweep, h: Heap, d: seq<nat>, e: seq<Ptr>, active: set<Ptr>, out: seq<Ptr>, dead: set<Ptr>, p: Ptr, rest: seq<Ptr>)
    requires SweepInv(k, h, d, e, active, out, dead) && p < |h| && p in k.white && p !in e && MayEnter(k, e, active, p)
    ensures SweepInv(k, Recolored(h, p), d, e + [p], active + {p}, out, dead)
    ensures Deepest(k, e + [p], active + {p}, |e|) && Object(k.h0, p)
    ensures OrderIn(k, e, [p] + rest) == OrderIn(k, e + [p], k.h0[p].scan + rest)
    ensures |k.white - Elems(e + [p])| < |k.white - Elems(e)|
    ensures p !in active && forall a | a in active :: a in e
  {
    OrderEnters(k, e, p, rest);
    EnterSearch(k, e, active, out, p);
    EnteredIsDeepest(k, e, active, out, p);
    VisitBegins(k, h, d, active, out, dead, p);
    FirstStays(k.h0, k.white, e, e + [p], out);
    OneFewerLeft(k, e, p);
  }

  /** A visit that ends: what was below is handed over, and so is the object itself. */
  lemma VisitEnds(k: Sweep, e: seq<Ptr>, out: seq<Ptr>, e': seq<Ptr>, active: set<Ptr>, out': seq<Ptr>, p: Ptr)
    requires p !in active && p !in e && e' != [] && SearchInv(k, e', active + {p}, out') && ChildrenFirst(k.h0, k.white, e', out')
    requires forall a | a in active :: a in e
    requires Progress(k, active + {p}, e + [p], out, e', out') && ChildrenEntered(k, e', p)
    ensures e'[|e|] == p && p !in out' && SearchInv(k, e', active, out' + [p])
    ensures ChildrenFirst(k.h0, k.white, e', out' + [p])
    ensures (forall a | a in active :: !StrikesIn(k, p, a)) ==> Progress(k, active, e, out, e', out' + [p])
  {
    assert e'[|e|] == (e + [p])[|e|];
    forall j: nat | |e| < j < |e'| ensures e'[j] in out' && !StrikesIn(k, e'[j], p) {
      assert HandedOver(k, active + {p}, out', e'[j]);
    }
    LeaveSearch(k, e', active, out', p, |e|);
    EnteredEarlier(e', e, active);
    forall i: nat | |e| < i < |e'| ensures e'[i] != e'[|e|] { assert Apart(e', |e|, i); }
    FirstAtEnd(k, e', active + {p}, out', |e|);
    if forall a | a in active :: !StrikesIn(k, p, a) {
      forall j: nat | |e| <= j < |e'| ensures HandedOver(k, active, out' + [p], e'[j]) {
        if j > |e| { assert HandedOver(k, active + {p}, out', e'[j]); }
      }
    }
  }

  /** A strike at an object that is being visited shows in the order. */
  lemma StrikeTrips(k: Sweep, e: seq<Ptr>, active: set<Ptr>, out: seq<Ptr>, n: nat, rest: seq<Ptr>)
    requires SearchInv(k, e, active, out) && n < |e| && NoneAfter(e, active, n)
    requires exists a :: a in active && StrikesIn(k, e[n], a)
    ensures TripsIn(k, OrderIn(k, e, rest))
  {
    var a :| a in active && StrikesIn(k, e[n], a);
    ActiveStruck(k, e, active, out, e[n], n, a);
    OrderExtends(k.h0, k.white, e, rest);
    TripsStays(k, e, OrderIn(k, e, rest));
  }
}
