/** What destructors that release their fields do to a cycle collection. */
module CycleDestructors {
  import opened Graphs
  import opened References
  import opened CycleHeap
  import opened CycleTrial
  import opened CycleScan
  import opened CycleSweep
  import opened CycleOutcome
  import opened CycleTheorems

  // --- The order holds all garbage ---

  ghost predicate ChildrenIn(h: Heap, white: set<Ptr>, o: seq<Ptr>, p: Ptr) {
    p in white && p < |h| && forall v | v in h[p].scan && v in white && v < |h| :: v in o
  }

  ghost predicate Settled(h: Heap, white: set<Ptr>, o: seq<Ptr>, e: seq<Ptr>) {
    forall p | p in o :: p in e || ChildrenIn(h, white, o, p)
  }

  lemma {:induction false} OrderCloses(h: Heap, white: set<Ptr>, e: seq<Ptr>, todo: seq<Ptr>)
    requires NoRepeats(e)
    ensures var o := Order(h, white, e, todo);
      NoRepeats(o) && e <= o && Settled(h, white, o, e) && forall p | p in todo && p in white && p < |h| :: p in o
    decreases |white - Elems(e)|, |todo|
  {
    if todo != [] {
      var p, o := todo[0], Order(h, white, e, todo);
      if p !in white || p in e || p >= |h| {
        OrderCloses(h, white, e, todo[1..]);
      } else {
        assert white - Elems(e + [p]) == (white - Elems(e)) - {p};
        NoRepeatsEnd(e, p);
        OrderCloses(h, white, e + [p], h[p].scan + todo[1..]);
        forall v | v in h[p].scan && v in white && v < |h| ensures v in o { assert v in h[p].scan + todo[1..]; }
        assert (e + [p])[|e|] == p;
        forall v | v in todo && v in white && v < |h| ensures v in o {
          if v != p { assert v in h[p].scan + todo[1..]; } else { assert o[|e|] == p; }
        }
      }
      assert forall i | 0 <= i < |e| :: o[i] == e[i];
    }
  }

  lemma LastTurn(h: Heap, s: seq<Ptr>, i: nat) returns (r: seq<Ptr>, x: Ptr)
    requires 0 < i <= |s|
    ensures r == KeptRoots(h, s, i - 1) && KeptRoots(h, s, i) == r + [x] && Kept(r) == KeptUpTo(r, i - 1)
    ensures x == if s[i - 1] in Roots(h, s) && s[i - 1] !in Reach(Edges(h), Kept(r)) then s[i - 1] else NULL
    ensures Kept(r + [x]) == Kept(r) + (if x == NULL then {} else {x})
  {
    r := KeptRoots(h, s, i - 1);
    assert Kept(r) == KeptUpTo(r, i - 1);
    x := if s[i - 1] in Roots(h, s) && s[i - 1] !in Reach(Edges(h), Kept(r)) then s[i - 1] else NULL;
  }

  lemma OneMoreKept(g: Graph, roots: set<Ptr>, earlier: set<Ptr>, kept: set<Ptr>, p: Ptr, x: Ptr)
    requires kept <= roots && earlier <= Reach(g, kept) && NULL !in roots && forall n | n in roots :: n < |g|
    requires x == if p in roots && p !in Reach(g, kept) then p else NULL
    ensures var kept' := kept + (if x == NULL then {} else {x});
      kept' <= roots && earlier <= Reach(g, kept') && (p in roots ==> p in Reach(g, kept'))
  {
    var kept' := kept + (if x == NULL then {} else {x});
    ReachMonotone(g, kept, kept');
    ReachContainsSources(g, kept');
  }

  /** The roots among the first `i` suspects. */
  ghost function RootsUpTo(h: Heap, s: seq<Ptr>, i: nat): set<Ptr>
    requires i <= |s|
  {
    set j | 0 <= j < i && s[j] in Roots(h, s) :: s[j]
  }

  lemma {:induction false} KeptRootsReach(h: Heap, s: seq<Ptr>, i: nat)
    requires i <= |s|
    ensures Kept(KeptRoots(h, s, i)) <= Roots(h, s)
    ensures RootsUpTo(h, s, i) <= Reach(Edges(h), Kept(KeptRoots(h, s, i)))
  {
    if i > 0 {
      var r, x := LastTurn(h, s, i);
      KeptRootsReach(h, s, i - 1);
      OneMoreKept(Edges(h), Roots(h, s), RootsUpTo(h, s, i - 1), Kept(r), s[i - 1], x);
      assert RootsUpTo(h, s, i) <= RootsUpTo(h, s, i - 1) + {s[i - 1]};
    }
  }

  lemma ListedReach(h: Heap, s: seq<Ptr>)
    requires CleanStart(h, s)
    ensures ListedReachAll(h, s)
  {
    KeptRootsReach(h, s, |s|);
    assert Roots(h, s) <= RootsUpTo(h, s, |s|);
    KeptReachAll(Edges(h), Kept(Listed(h, s)), Roots(h, s));
    ListedInHeap(h, s, |s|);
  }

  lemma KeptReachAll(g: Graph, kept: set<Ptr>, roots: set<Ptr>)
    requires WellFormed(g) && kept <= roots <= Reach(g, kept)
    ensures Reach(g, kept) == Reach(g, roots)
  {
    ReachIsClosed(g, kept);
    ReachPinned(g, kept, roots, Reach(g, kept));
  }

  lemma {:induction false} ListedInHeap(h: Heap, s: seq<Ptr>, i: nat)
    requires i <= |s| && forall p | p in s :: p < |h|
    ensures forall p | p in KeptRoots(h, s, i) :: p < |h|
  {
    if i > 0 {
      var r, x := LastTurn(h, s, i);
      ListedInHeap(h, s, i - 1);
      assert s[i - 1] in s;
    }
  }

  lemma VisitsAll(h: Heap, s: seq<Ptr>)
    requires CleanStart(h, s)
    ensures NoRepeats(Visits(h, s)) && forall p :: p in Visits(h, s) <==> p in Garbage(h, s)
  {
    var white, o := Garbage(h, s), Visits(h, s);
    ListedReach(h, s);
    OrderCloses(h, white, [], Listed(h, s));
    forall p | p in o ensures p in white { assert ChildrenIn(h, white, o, p); }
    ReachIsClosed(Edges(h), Roots(h, s));
    SavedIsTraced(h, Traced(h, s));
    NoneLeftOut(h, Traced(h, s), Saved(h, s), Kept(Listed(h, s)), o);
  }

  /** What the order holds is closed but for what is saved, so it is all that the listed suspects lead to. */
  lemma NoneLeftOut(h: Heap, traced: set<Ptr>, saved: set<Ptr>, kept: set<Ptr>, o: seq<Ptr>)
    requires traced == Reach(Edges(h), kept) && saved <= traced && Closed(Edges(h), saved)
    requires Settled(h, traced - saved, o, []) && forall p | p in kept && p in traced - saved && p < |h| :: p in o
    ensures forall p | p in traced - saved :: p in o
  {
    var g := Edges(h);
    ReachIsClosed(g, kept);
    ReachContainsSources(g, kept);
    var settled := set p | p in traced && (p in saved || p in o);
    forall u, v | u in settled && v in g[u] ensures v in settled {
      if u in o { assert ChildrenIn(h, traced - saved, o, u); }
    }
    ReachIsLeast(g, kept, settled);
  }

  // --- When phase 3 gets through ---

  lemma UnderIsWhite(h: Heap, white: set<Ptr>, e: seq<Ptr>, i: nat)
    requires NoRepeats(e) && i < |e| && e[i] in white
    ensures forall u | u in Under(h, white, e, i) :: u in white && u !in e[..i]
    ensures Under(h, white, e, i) <= Reach(Pale(h, white, {}), {e[i]})
  {
    var avoid := Elems(e[..i]);
    var rest := set v: Ptr | v < |h| && v in white && v !in avoid;
    NotEarlier(e, i);
    ReachIsLeast(Pale(h, white, avoid), {e[i]}, rest);
    ReachIsClosed(Pale(h, white, {}), {e[i]});
    ReachContainsSources(Pale(h, white, {}), {e[i]});
    ReachIsLeast(Pale(h, white, avoid), {e[i]}, Reach(Pale(h, white, {}), {e[i]}));
  }

  /** No way back from an object to one whose destructor strikes it: then no collection aborts, in whatever
      order it visits the garbage. */
  lemma NoWayBack(h: Heap, s: seq<Ptr>, releasing: set<Ptr>)
    requires CleanStart(h, s)
    requires forall a, u | a in Garbage(h, s) && u in Garbage(h, s) && Strikes(h, releasing, Flagged(h, s), u, a) ::
               u !in Reach(Pale(h, Garbage(h, s), {}), {a})
    ensures !Aborts(h, s, releasing)
  {
    var white, o := Garbage(h, s), Visits(h, s);
    VisitsAll(h, s);
    forall i: nat, u: Ptr ensures !TripsAt(h, white, releasing, Flagged(h, s), o, i, u) {
      if i < |o| {
        assert o[i] in o;
        UnderIsWhite(h, white, o, i);
      }
    }
  }

  /** Without releasing destructors among the garbage the collection does just what `After` says. */
  lemma PlainOutcome(h0: Heap, s0: seq<Ptr>, releasing: set<Ptr>, dead: set<Ptr>)
    requires CleanStart(h0, s0) && releasing !! Garbage(h0, s0) && Destroyed(h0, s0, releasing, dead)
    ensures !Aborts(h0, s0, releasing) && dead == {}
    ensures forall p: Ptr | Object(h0, p) :: Final(h0, s0, releasing, dead, p) == After(h0, s0, p)
  {
    NoWayBack(h0, s0, releasing);
    NothingReleased(h0, s0, releasing);
    UnharmedIff(h0, s0, releasing, dead);
    assert dead == {};
  }

  lemma NothingReleased(h: Heap, s: seq<Ptr>, releasing: set<Ptr>)
    requires releasing !! Garbage(h, s)
    ensures forall p: Ptr :: Releases(h, s, releasing, {}, p) == 0
  {
    var none := (Garbage(h, s) + {}) * releasing;
    assert none == {};
    forall p: Ptr ensures RefsFrom(h, none, p) == 0 { RefsZero(h, FieldsOf(h, none), p, |h|); }
  }

  /** Objects outside the garbage are destroyed, live ones or others, if and only if the references that garbage
      releases to one of them are as many as the count the collection has left it. */
  lemma UnharmedIff(h: Heap, s: seq<Ptr>, releasing: set<Ptr>, dead: set<Ptr>)
    requires Destroyed(h, s, releasing, dead)
    ensures dead == {} <==> forall p: Ptr :: !LosesAll(h, s, releasing, {}, p)
  {
    if forall p: Ptr :: !LosesAll(h, s, releasing, {}, p) {
      var none: set<Ptr> := {};
      assert forall p: Ptr | LosesAll(h, s, releasing, none, p) :: p in none;
      assert dead <= none;
    }
  }

  // --- When it aborts ---

  function Next(c: seq<Ptr>, i: nat): (j: nat)
    requires i < |c|
    ensures j < |c|
  {
    if i + 1 == |c| then 0 else i + 1
  }

  /** References around a ring of objects, not all the same. */
  ghost predicate Ring(h: Heap, inside: set<Ptr>, c: seq<Ptr>) {
    && |c| >= 2 && c[0] != c[|c| - 1]
    && forall i: nat {:trigger RingAt(h, inside, c, i)} | i < |c| :: RingAt(h, inside, c, i)
  }

  ghost predicate RingAt(h: Heap, inside: set<Ptr>, c: seq<Ptr>, i: nat) {
    i < |c| && c[i] in inside && c[i] < |h| && c[Next(c, i)] in h[c[i]].scan
  }

  /** From inside `nodes` the ring does not lead out. */
  ghost predicate KeepsTo(c: seq<Ptr>, nodes: set<Ptr>) {
    forall i: nat {:trigger KeepsAt(c, nodes, i)} | i < |c| :: KeepsAt(c, nodes, i)
  }

  ghost predicate KeepsAt(c: seq<Ptr>, nodes: set<Ptr>, i: nat) {
    i < |c| && (c[i] in nodes ==> c[Next(c, i)] in nodes)
  }

  lemma {:induction false} Onwards(c: seq<Ptr>, nodes: set<Ptr>, m: nat, j: nat)
    requires KeepsTo(c, nodes) && m <= j < |c| && c[m] in nodes
    ensures c[j] in nodes
    decreases j
  {
    if m < j {
      Onwards(c, nodes, m, j - 1);
      assert KeepsAt(c, nodes, j - 1);
    }
  }

  lemma AllAround(c: seq<Ptr>, nodes: set<Ptr>, m: nat, j: nat)
    requires KeepsTo(c, nodes) && m < |c| && j < |c| && c[m] in nodes
    ensures c[j] in nodes
  {
    Onwards(c, nodes, m, |c| - 1);
    assert KeepsAt(c, nodes, |c| - 1);
    Onwards(c, nodes, 0, j);
  }

  /** Somewhere on the ring `a` is entered from another object. */
  lemma Predecessor(c: seq<Ptr>, a: Ptr) returns (q: nat)
    requires |c| >= 2 && c[0] != c[|c| - 1] && a in c
    ensures q < |c| && c[q] != a && c[Next(c, q)] == a
  {
    var nodes := set i: nat | i < |c| && c[i] != a :: c[i];
    if KeepsTo(c, nodes) {
      var m := if c[0] != a then 0 else |c| - 1;
      var j: nat :| j < |c| && c[j] == a;
      assert c[m] in nodes;
      AllAround(c, nodes, m, j);
      assert false;
    }
    q :| q < |c| && !KeepsAt(c, nodes, q);
  }

  lemma RingInside(h: Heap, inside: set<Ptr>, c: seq<Ptr>)
    requires Ring(h, inside, c)
    ensures forall q | q in c :: q in inside
    ensures forall wider: set<Ptr> | inside <= wider :: Ring(h, wider, c)
  {
    forall q | q in c ensures q in inside {
      var i: nat :| i < |c| && c[i] == q;
      assert RingAt(h, inside, c, i);
    }
    forall wider: set<Ptr>, i: nat | inside <= wider && i < |c| ensures RingAt(h, wider, c, i) { assert RingAt(h, inside, c, i); }
  }

  lemma FirstEntered(e: seq<Ptr>, c: seq<Ptr>) returns (i: nat)
    requires c != [] && forall p | p in c :: p in e
    ensures i < |e| && e[i] in c && forall m | 0 <= m < i :: e[m] !in c
  {
    assert c[0] in c;
    i := 0;
    while e[i] !in c
      invariant i < |e| && forall m | 0 <= m <= i :: m < i ==> e[m] !in c
      invariant exists m :: i <= m < |e| && e[m] in c
      decreases |e| - i
    {
      i := i + 1;
    }
  }

  lemma RingIsUnder(h: Heap, white: set<Ptr>, e: seq<Ptr>, i: nat, c: seq<Ptr>)
    requires Ring(h, white, c) && i < |e| && e[i] in c && forall m | 0 <= m < i :: e[m] !in c
    ensures forall p | p in c :: p in Under(h, white, e, i)
  {
    var avoid := Elems(e[..i]);
    var g, below := Pale(h, white, avoid), Under(h, white, e, i);
    var m: nat :| m < |c| && c[m] == e[i];
    assert RingAt(h, white, c, m);
    ReachContainsSources(g, {e[i]});
    PaleWellFormed(h, white, avoid);
    ReachIsClosed(g, {e[i]});
    forall j: nat | j < |c| ensures KeepsAt(c, below, j) {
      var v := c[Next(c, j)];
      assert RingAt(h, white, c, j) && RingAt(h, white, c, Next(c, j));
      assert v in c && c[j] in c;
      assert c[j] in below ==> v in g[c[j]];
    }
    forall j: nat | j < |c| ensures c[j] in below { AllAround(c, below, m, j); }
  }

  /** A ring of garbage that is not flagged as buffered, with releasing destructors, stops the program: the
      first of it to be visited is still being visited when a later one releases it. */
  lemma UnflaggedRingAborts(h: Heap, s: seq<Ptr>, releasing: set<Ptr>, c: seq<Ptr>)
    requires CleanStart(h, s) && Ring(h, Garbage(h, s) - Flagged(h, s), c) && forall p | p in c :: p in releasing
    ensures Aborts(h, s, releasing)
  {
    var white, o := Garbage(h, s), Visits(h, s);
    VisitsAll(h, s);
    RingInside(h, white - Flagged(h, s), c);
    var i := FirstEntered(o, c);
    RingIsUnder(h, white, o, i, c);
    var q := Predecessor(c, o[i]);
    assert RingAt(h, white - Flagged(h, s), c, q) && RingAt(h, white - Flagged(h, s), c, Next(c, q));
    assert c[q] in c;
    assert TripsAt(h, white, releasing, Flagged(h, s), o, i, c[q]);
  }

  // --- One suspect ---

  lemma NothingFromNothing(g: Graph)
    ensures Reach(g, {}) == {}
  {
    ReachIsLeast(g, {}, {});
  }

  lemma SuspectIsRoot(h: Heap, p: Ptr)
    requires p in Garbage(h, [p])
    ensures p in Roots(h, [p]) && p != NULL && Listed(h, [p]) == [p]
  {
    NothingFromNothing(Edges(h));
    assert p !in Roots(h, [p]) ==> Roots(h, [p]) == {};
    assert KeptRoots(h, [p], 0) == [] && KeptUpTo([], 0) == {};
    assert Listed(h, [p]) == KeptRoots(h, [p], 0) + [p];
  }

  lemma FlaggedAlone(h: Heap, p: Ptr)
    requires CleanStart(h, [p]) && p in Garbage(h, [p]) && h[p].buffered
    requires forall q | q in Garbage(h, [p]) && q != p && q < |h| :: !h[q].buffered
    ensures Flagged(h, [p]) == {p} && Visits(h, [p]) != [] && Visits(h, [p])[0] == p
  {
    SuspectIsRoot(h, p);
    assert !StruckOff([p], [p], 1, p);
    var white := Garbage(h, [p]);
    assert [p][1..] == [];
    assert Visits(h, [p]) == Order(h, white, [p], h[p].scan + []);
    OrderExtends(h, white, [p], h[p].scan + []);
  }

  /** A way from `a` to an object that strikes it closes to a ring. */
  lemma StrikeClosesRing(h: Heap, white: set<Ptr>, e: seq<Ptr>, i: nat, u: Ptr) returns (c: seq<Ptr>)
    requires NoRepeats(e) && i < |e| && e[i] in white && u in Under(h, white, e, i) && u != e[i] && u < |h| && e[i] in h[u].scan
    ensures Ring(h, white - Elems(e[..i]), c)
  {
    var g := Pale(h, white, Elems(e[..i]));
    c :| Connects(g, {e[i]}, c, u);
    assert c[0] == e[i] && c[|c| - 1] == u;
    UnderIsWhite(h, white, e, i);
    forall k: nat | k < |c| ensures RingAt(h, white - Elems(e[..i]), c, k) {
      if k + 1 < |c| { assert c[k + 1] in g[c[(k + 1) - 1]]; }
    }
  }

  /** With one suspect and releasing destructors throughout, phase 3 gets through if and only if there is no
      ring in the garbage but through the suspect itself. */
  lemma OneSuspect(h: Heap, p: Ptr, releasing: set<Ptr>)
    requires CleanStart(h, [p]) && p in Garbage(h, [p]) && h[p].buffered && Garbage(h, [p]) <= releasing
    requires forall q | q in Garbage(h, [p]) && q != p && q < |h| :: !h[q].buffered
    ensures Aborts(h, [p], releasing) <==> exists c :: Ring(h, Garbage(h, [p]) - {p}, c)
  {
    var white, o := Garbage(h, [p]), Visits(h, [p]);
    FlaggedAlone(h, p);
    VisitsAll(h, [p]);
    if c :| Ring(h, white - {p}, c) {
      RingInside(h, white - {p}, c);
      UnflaggedRingAborts(h, [p], releasing, c);
    }
    if i: nat, u: Ptr :| TripsAt(h, white, releasing, Flagged(h, [p]), o, i, u) {
      assert o[i] in o;
      var c := StrikeClosesRing(h, white, o, i, u);
      assert i > 0 ==> o[..i][0] == p;
      RingInside(h, white - Elems(o[..i]), c);
      assert white - Elems(o[..i]) <= white - {p};
    }
  }

  // --- Two heaps ---

  /** The suspect refers to `A`, `A` to `B`, and `B` to both. */
  function RingWithChord(): Heap {
    [Header(0, Black, false, false, []), Header(1, Purple, false, true, [2]), Header(2, Black, false, false, [3]),
     Header(1, Black, false, false, [2, 1])]
  }

  lemma ChordRefs(all: set<Ptr>, n: Ptr)
    requires all == {1, 2, 3} && 1 <= n <= 3
    ensures RefsFrom(RingWithChord(), all, n) == if n == 2 then 2 else 1
  {
    var h := RingWithChord();
    var d := FieldsOf(h, all);
    assert d[1] == 1 && d[2] == 1 && d[3] == 2;
    assert Refs(h, d, n, 2) == Occurrences([2], 1, n);
    assert Refs(h, d, n, 3) == Refs(h, d, n, 2) + Occurrences([3], 1, n);
    assert Refs(h, d, n, 4) == Refs(h, d, n, 3) + Occurrences([2, 1], 2, n);
    assert Occurrences([2, 1], 1, n) == if n == 2 then 1 else 0;
  }

  lemma ChordStart()
    ensures CleanStart(RingWithChord(), [1]) && Roots(RingWithChord(), [1]) == {1}
    ensures Edges(RingWithChord()) == [{}, {2}, {3}, {1, 2}]
  {
    var h := RingWithChord();
    assert Objects(h) == {1, 2, 3};
    forall n: Ptr | Object(h, n) ensures h[n].strong == InRefs(h, n) { ChordRefs({1, 2, 3}, n); }
    assert Edges(h)[0] == {} && Edges(h)[1] == {2} && Edges(h)[2] == {3} && Edges(h)[3] == {1, 2};
  }

  lemma ReachOfChord()
    ensures Reach([{}, {2}, {3}, {1, 2}], {1}) == {1, 2, 3}
  {
    var g: Graph := [{}, {2}, {3}, {1, 2}];
    ReachContainsSources(g, {1});
    ReachIsClosed(g, {1});
    assert 2 in g[1] && 3 in g[2];
    ReachIsLeast(g, {1}, {1, 2, 3});
  }

  /** Nothing is held when trial deletion leaves no count. */
  lemma AllTracedIsGarbage(h: Heap, s: seq<Ptr>)
    requires forall p | p in Traced(h, s) && p < |h| :: Trial(h, Traced(h, s), p) <= 0
    ensures Garbage(h, s) == Traced(h, s)
  {
    assert Held(h, Traced(h, s)) == {};
    NothingFromNothing(Edges(h));
  }

  lemma ChordIsGarbage()
    ensures CleanStart(RingWithChord(), [1]) && Garbage(RingWithChord(), [1]) == {1, 2, 3}
  {
    var h := RingWithChord();
    ChordStart();
    ReachOfChord();
    forall p | p in Traced(h, [1]) && p < |h| ensures Trial(h, Traced(h, [1]), p) <= 0 { ChordRefs({1, 2, 3}, p); }
    AllTracedIsGarbage(h, [1]);
  }

  lemma ChordRing()
    ensures Ring(RingWithChord(), {2, 3}, [2, 3])
  {
  }

  /** All three are garbage, and collecting them stops the program: `B` is finalized first, while `A` is being
      visited, and `B`'s destructor releases `A`. */
  lemma ChordAborts(releasing: set<Ptr>)
    requires {1, 2, 3} <= releasing
    ensures CleanStart(RingWithChord(), [1]) && Garbage(RingWithChord(), [1]) == {1, 2, 3}
    ensures Aborts(RingWithChord(), [1], releasing)
  {
    ChordIsGarbage();
    ChordRing();
    assert {1, 2, 3} - {1} == {2, 3};
    OneSuspect(RingWithChord(), 1, releasing);
  }

  /** A suspect that refers twice to an object with a handle elsewhere, and to itself. */
  function DoubleReference(): Heap {
    [Header(0, Black, false, false, []), Header(3, Black, false, false, []), Header(1, Purple, false, true, [1, 1, 2])]
  }

  lemma DoubleRefs(from: set<Ptr>, n: Ptr)
    requires 2 in from && 1 <= n <= 2
    ensures RefsFrom(DoubleReference(), from, n) == if n == 1 then 2 else 1
  {
    var h := DoubleReference();
    var d := FieldsOf(h, from);
    assert d[1] == 0 && d[2] == 3;
    assert Refs(h, d, n, 2) == 0;
    assert Refs(h, d, n, 3) == Refs(h, d, n, 2) + Occurrences([1, 1, 2], 3, n);
    assert Occurrences([1, 1, 2], 2, n) == if n == 1 then 2 else 0 by {
      assert Occurrences([1, 1, 2], 1, n) == if n == 1 then 1 else 0;
    }
  }

  lemma DoubleStart()
    ensures CleanStart(DoubleReference(), [2]) && Roots(DoubleReference(), [2]) == {2} && Objects(DoubleReference()) == {1, 2}
  {
    var h := DoubleReference();
    assert Objects(h) == {1, 2};
    DoubleRefs({1, 2}, 1);
    DoubleRefs({1, 2}, 2);
  }

  lemma DoubleEdges()
    ensures Edges(DoubleReference()) == [{}, {}, {1, 2}]
  {
    var g := Edges(DoubleReference());
    assert g[0] == {} && g[1] == {} && g[2] == {1, 2};
  }

  lemma ReachOfDouble(g: Graph)
    requires g == [{}, {}, {1, 2}]
    ensures Reach(g, {2}) == {1, 2} && Reach(g, {1}) == {1}
  {
    ReachContainsSources(g, {2});
    ReachIsClosed(g, {2});
    assert 1 in g[2];
    ReachIsLeast(g, {2}, {1, 2});
    ReachContainsSources(g, {1});
    ReachIsLeast(g, {1}, {1});
  }

  lemma DoubleTrial()
    ensures Trial(DoubleReference(), {1, 2}, 1) == 1 && Trial(DoubleReference(), {1, 2}, 2) == 0
    ensures Held(DoubleReference(), {1, 2}) == {1}
  {
    DoubleRefs({1, 2}, 1);
    DoubleRefs({1, 2}, 2);
  }

  lemma OneHeld(h: Heap, s: seq<Ptr>)
    requires Roots(h, s) == {2} && Edges(h) == [{}, {}, {1, 2}] && Held(h, {1, 2}) == {1} && Trial(h, {1, 2}, 1) == 1
    ensures Traced(h, s) == {1, 2} && Garbage(h, s) == {2} && After(h, s, 1).strong == 2
  {
    ReachOfDouble(Edges(h));
    assert {1, 2} - {1} == {2};
  }

  lemma OnlyTheSuspectIsGarbage()
    ensures Garbage(DoubleReference(), [2]) == {2} && After(DoubleReference(), [2], 1).strong == 2
  {
    DoubleStart();
    DoubleEdges();
    DoubleTrial();
    OneHeld(DoubleReference(), [2]);
  }

  lemma SuspectReleases(h: Heap, s: seq<Ptr>, dead: set<Ptr>)
    requires Garbage(h, s) == {2} && Object(h, 1) && !h[1].deallocating && After(h, s, 1).strong == 2
    requires RefsFrom(h, ({2} + dead) * {2}, 1) == 2 && Destroyed(h, s, {2}, dead)
    ensures 1 in dead && Final(h, s, {2}, dead, 1).deallocating
  {
    assert LosesAll(h, s, {2}, dead, 1);
  }

  /** A live object is destroyed: the collection leaves it one count for its outside handle and one too many,
      and the garbage releases its two references. */
  lemma LiveObjectDestroyed(dead: set<Ptr>)
    requires Destroyed(DoubleReference(), [2], {2}, dead)
    ensures CleanStart(DoubleReference(), [2]) && !Aborts(DoubleReference(), [2], {2})
    ensures OutsideHandles(DoubleReference(), 1) == 1 && 1 in dead && Final(DoubleReference(), [2], {2}, dead, 1).deallocating
  {
    DoubleStart();
    DoubleRefs({1, 2}, 1);
    OnlyTheSuspectIsGarbage();
    DoubleRefs(({2} + dead) * {2}, 1);
    SuspectReleases(DoubleReference(), [2], dead);
    NothingStruckAlone(DoubleReference(), [2], 2);
  }

  lemma NothingStruckAlone(h: Heap, s: seq<Ptr>, p: Ptr)
    requires CleanStart(h, s) && Garbage(h, s) == {p}
    ensures !Aborts(h, s, {p})
  {
    NoWayBack(h, s, {p});
  }
}
