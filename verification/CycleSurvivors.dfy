/** What a cycle collection means for the objects it was not after: the live ones, and the next collection. */
module CycleSurvivors {
  import opened Graphs
  import opened References
  import opened CycleHeap
  import opened CycleTrial
  import opened CycleScan
  import opened CycleFinalize
  import opened CycleOutcome
  import opened CycleTheorems
  import opened CycleDestructors

  // --- Live objects ---

  /** All references, also those trial deletion does not follow. */
  ghost function Links(h: Heap): (g: Graph)
    ensures |g| == |h|
    ensures WellFormed(g)
  {
    seq(|h|, u requires 0 <= u < |h| => if u == NULL then {} else set v | v in h[u].scan && v < |h|)
  }

  ghost function Handled(h: Heap): set<Ptr> {
    set p: Ptr | p < |h| && Object(h, p) && OutsideHandles(h, p) > 0
  }

  /** What the program can still reach: whatever an object with an outside handle leads to. */
  ghost function Live(h: Heap): set<Ptr> {
    Reach(Links(h), Handled(h))
  }

  /** `others` holds every object outside `live` that the releases of garbage and of `others` leave without a count. */
  ghost predicate Absorbs(h: Heap, s: seq<Ptr>, releasing: set<Ptr>, live: set<Ptr>, others: set<Ptr>) {
    forall p: Ptr | LosesAll(h, s, releasing, others, p) :: p in others || p in live
  }

  /** The objects outside `live` that have to go with the garbage. */
  ghost function Dragged(h: Heap, s: seq<Ptr>, releasing: set<Ptr>, live: set<Ptr>): set<Ptr> {
    set p: Ptr | p < |h| && p !in live && forall others: set<Ptr> | Absorbs(h, s, releasing, live, others) :: p in others
  }

  /** More destroyed means more released. */
  lemma LosesMore(h: Heap, s: seq<Ptr>, releasing: set<Ptr>, few: set<Ptr>, many: set<Ptr>, p: Ptr)
    requires few <= many && LosesAll(h, s, releasing, few, p)
    ensures LosesAll(h, s, releasing, many, p)
  {
    RefsMonotone(h, FieldsOf(h, (Garbage(h, s) + few) * releasing), FieldsOf(h, (Garbage(h, s) + many) * releasing), p, |h|);
  }

  /** `Dragged` is a fixed point: its members, and no others outside `live`, lose all their counts. */
  lemma DraggedIsExact(h: Heap, s: seq<Ptr>, releasing: set<Ptr>, live: set<Ptr>, p: Ptr)
    ensures p in Dragged(h, s, releasing, live) <==>
            p !in live && LosesAll(h, s, releasing, Dragged(h, s, releasing, live), p)
  {
    var d := Dragged(h, s, releasing, live);
    forall q: Ptr | q !in live && LosesAll(h, s, releasing, d, q) ensures q in d {
      forall others: set<Ptr> | Absorbs(h, s, releasing, live, others) ensures q in others {
        assert d <= others;
        LosesMore(h, s, releasing, d, others, q);
      }
    }
    if p in d && !LosesAll(h, s, releasing, d, p) {
      var less := d - {p};
      forall q: Ptr | LosesAll(h, s, releasing, less, q) ensures q in less || q in live {
        LosesMore(h, s, releasing, less, d, q);
      }
      assert Absorbs(h, s, releasing, live, less);
    }
  }

  /** A collection spares all live objects if and only if none of them loses as many counts as the collection
      has left it to the garbage and to what has to go with the garbage. */
  lemma LiveUnharmedIff(h: Heap, s: seq<Ptr>, releasing: set<Ptr>, dead: set<Ptr>)
    requires Destroyed(h, s, releasing, dead)
    ensures dead !! Live(h) <==> forall p | p in Live(h) :: !LosesAll(h, s, releasing, Dragged(h, s, releasing, Live(h)), p)
  {
    var live := Live(h);
    var d := Dragged(h, s, releasing, live);
    forall p: Ptr ensures p in d <==> p !in live && LosesAll(h, s, releasing, d, p) { DraggedIsExact(h, s, releasing, live, p); }
    if dead !! live {
      assert Absorbs(h, s, releasing, live, dead);
      forall p | p in live ensures !LosesAll(h, s, releasing, d, p) {
        if LosesAll(h, s, releasing, d, p) { LosesMore(h, s, releasing, d, dead, p); }
      }
    }
    if forall p | p in live :: !LosesAll(h, s, releasing, d, p) {
      assert forall p: Ptr | LosesAll(h, s, releasing, d, p) :: p in d;
      assert dead <= d;
    }
  }

  /** Then what is destroyed besides the garbage is just what has to go with it. */
  lemma UnharmedDead(h: Heap, s: seq<Ptr>, releasing: set<Ptr>, dead: set<Ptr>)
    requires Destroyed(h, s, releasing, dead) && dead !! Live(h)
    ensures dead == Dragged(h, s, releasing, Live(h))
  {
    var live := Live(h);
    var d := Dragged(h, s, releasing, live);
    LiveUnharmedIff(h, s, releasing, dead);
    forall p: Ptr ensures p in d <==> p !in live && LosesAll(h, s, releasing, d, p) { DraggedIsExact(h, s, releasing, live, p); }
    assert Absorbs(h, s, releasing, live, dead);
    assert forall p: Ptr | LosesAll(h, s, releasing, d, p) :: p in d;
    assert dead <= d;
  }

  lemma HandledIsLive(h: Heap, p: Ptr)
    requires Object(h, p) && OutsideHandles(h, p) > 0
    ensures p in Live(h)
  {
    ReachContainsSources(Links(h), Handled(h));
  }

  /** The object that `LiveObjectDestroyed` is about. */
  lemma LiveIsHarmed(dead: set<Ptr>)
    requires Destroyed(DoubleReference(), [2], {2}, dead)
    ensures 1 in Live(DoubleReference()) && 1 in dead
    ensures LosesAll(DoubleReference(), [2], {2}, Dragged(DoubleReference(), [2], {2}, Live(DoubleReference())), 1)
  {
    var h := DoubleReference();
    LiveObjectDestroyed(dead);
    HandledIsLive(h, 1);
    OnlyTheSuspectIsGarbage();
    DoubleRefs(({2} + Dragged(h, [2], {2}, Live(h))) * {2}, 1);
  }

  // --- The next collection ---

  lemma {:induction false} RefsSplit(h: Heap, a: set<Ptr>, b: set<Ptr>, n: Ptr, k: nat)
    requires a !! b && k <= |h|
    ensures Refs(h, FieldsOf(h, a + b), n, k) == Refs(h, FieldsOf(h, a), n, k) + Refs(h, FieldsOf(h, b), n, k)
  {
    if k > 1 { RefsSplit(h, a, b, n, k - 1); }
  }

  lemma SplitRefs(h: Heap, a: set<Ptr>, b: set<Ptr>, n: Ptr)
    requires a !! b
    ensures RefsFrom(h, a + b, n) == RefsFrom(h, a, n) + RefsFrom(h, b, n)
  {
    RefsSplit(h, a, b, n, |h|);
  }

  /** `h` is `h0` with the fields of `gone` cleared. */
  ghost predicate Cleared(h0: Heap, h: Heap, gone: set<Ptr>) {
    |h| == |h0| && forall u: Ptr | Object(h0, u) :: h[u].scan == if u in gone then [] else h0[u].scan
  }

  lemma {:induction false} ClearedRefsUpTo(h0: Heap, h: Heap, gone: set<Ptr>, n: Ptr, k: nat)
    requires Cleared(h0, h, gone) && k <= |h0|
    ensures Refs(h, FieldsOf(h, Objects(h)), n, k) == Refs(h0, FieldsOf(h0, Objects(h0) - gone), n, k)
  {
    if k > 1 {
      ClearedRefsUpTo(h0, h, gone, n, k - 1);
      assert Object(h0, k - 1);
    }
  }

  lemma ClearedRefs(h0: Heap, h: Heap, gone: set<Ptr>, n: Ptr)
    requires Cleared(h0, h, gone) && gone <= Objects(h0)
    ensures InRefs(h, n) + RefsFrom(h0, gone, n) == InRefs(h0, n)
  {
    ClearedRefsUpTo(h0, h, gone, n, |h0|);
    SplitRefs(h0, Objects(h0) - gone, gone, n);
    assert Objects(h0) == (Objects(h0) - gone) + gone;
  }

  /** What a survivor has to have outside the heap for its count to cover the references left to it. */
  ghost predicate StaysCovered(h: Heap, s: seq<Ptr>, releasing: set<Ptr>, dead: set<Ptr>, p: Ptr)
    requires p < |h|
  {
    OutsideHandles(h, p) + 1 + RefsFrom(h, dead - releasing, p)
      >= RefsFrom(h, Saved(h, s), p) + RefsFrom(h, Garbage(h, s) * releasing, p)
  }

  ghost predicate AllStayCovered(h: Heap, s: seq<Ptr>, releasing: set<Ptr>, dead: set<Ptr>) {
    forall p | p in Saved(h, s) && p !in dead && p < |h| :: StaysCovered(h, s, releasing, dead, p)
  }

  ghost predicate Collected(h0: Heap, s0: seq<Ptr>, releasing: set<Ptr>, dead: set<Ptr>, h: Heap) {
    && CleanStart(h0, s0) && Destroyed(h0, s0, releasing, dead) && |h| == |h0|
    && forall p: Ptr | Object(h0, p) :: SameButBuffered(h[p], Final(h0, s0, releasing, dead, p))
  }

  lemma Verdict(h: Heap, s: seq<Ptr>)
    requires CleanStart(h, s)
    ensures Saved(h, s) <= Traced(h, s) && Traced(h, s) == Saved(h, s) + Garbage(h, s)
    ensures forall p | p in Traced(h, s) :: Eligible(h, p)
    ensures forall p | p in Saved(h, s) && p < |h| :: Trial(h, Traced(h, s), p) >= 0
  {
    ReachIsClosed(Edges(h), Roots(h, s));
    SavedIsTraced(h, Traced(h, s));
    TracedIsEligible(h, s);
    forall p | p in Saved(h, s) && p < |h| ensures Trial(h, Traced(h, s), p) >= 0 {
      RefsMonotone(h, FieldsOf(h, Traced(h, s)), FieldsOf(h, Objects(h)), p, |h|);
    }
  }

  lemma CollectedClears(h0: Heap, s0: seq<Ptr>, releasing: set<Ptr>, dead: set<Ptr>, h: Heap)
    requires Collected(h0, s0, releasing, dead, h)
    ensures Cleared(h0, h, Garbage(h0, s0) + dead) && Garbage(h0, s0) + dead <= Objects(h0) && Garbage(h0, s0) !! dead
  {
    Verdict(h0, s0);
  }

  /** The references that garbage and destroyed objects held, by whether their destructors release them. */
  lemma GoneRefs(h: Heap, s: seq<Ptr>, releasing: set<Ptr>, dead: set<Ptr>, p: Ptr)
    requires Garbage(h, s) !! dead
    ensures RefsFrom(h, Garbage(h, s) + dead, p) == RefsFrom(h, Garbage(h, s), p) + RefsFrom(h, dead, p)
    ensures Releases(h, s, releasing, dead, p) == RefsFrom(h, Garbage(h, s) * releasing, p) + RefsFrom(h, dead * releasing, p)
    ensures RefsFrom(h, dead, p) == RefsFrom(h, dead * releasing, p) + RefsFrom(h, dead - releasing, p)
    ensures Releases(h, s, releasing, dead, p) <= RefsFrom(h, Garbage(h, s) + dead, p)
  {
    var g := Garbage(h, s);
    SplitRefs(h, g, dead, p);
    SplitRefs(h, g * releasing, dead * releasing, p);
    SplitRefs(h, dead * releasing, dead - releasing, p);
    assert (g + dead) * releasing == g * releasing + dead * releasing;
    assert dead == dead * releasing + (dead - releasing);
    RefsMonotone(h, FieldsOf(h, (g + dead) * releasing), FieldsOf(h, g + dead), p, |h|);
  }

  /** A saved object's count covers the references left to it exactly if it stays covered. */
  lemma SavedCovered(h0: Heap, s0: seq<Ptr>, releasing: set<Ptr>, dead: set<Ptr>, h: Heap, p: Ptr)
    requires Collected(h0, s0, releasing, dead, h) && p in Saved(h0, s0) && p !in dead && p < |h0|
    ensures h[p].strong >= InRefs(h, p) <==> StaysCovered(h0, s0, releasing, dead, p)
  {
    Verdict(h0, s0);
    CollectedClears(h0, s0, releasing, dead, h);
    ClearedRefs(h0, h, Garbage(h0, s0) + dead, p);
    GoneRefs(h0, s0, releasing, dead, p);
    SplitRefs(h0, Saved(h0, s0), Garbage(h0, s0), p);
    assert h[p].strong == After(h0, s0, p).strong - Releases(h0, s0, releasing, dead, p);
  }

  /** An object that was not traced stays covered in any case. */
  lemma UntracedCovered(h0: Heap, s0: seq<Ptr>, releasing: set<Ptr>, dead: set<Ptr>, h: Heap, p: Ptr)
    requires Collected(h0, s0, releasing, dead, h) && Object(h0, p) && p !in Traced(h0, s0) && p !in dead && !h0[p].deallocating
    ensures h[p].strong >= InRefs(h, p)
  {
    CollectedClears(h0, s0, releasing, dead, h);
    ClearedRefs(h0, h, Garbage(h0, s0) + dead, p);
    GoneRefs(h0, s0, releasing, dead, p);
    assert !LosesAll(h0, s0, releasing, dead, p);
  }

  /** A count covers the references that are there, or nobody counts any more. */
  ghost predicate CoveredAt(h: Heap, p: Ptr)
    requires p < |h|
  {
    h[p].deallocating || h[p].strong >= InRefs(h, p)
  }

  lemma CoveredAfter(h0: Heap, s0: seq<Ptr>, releasing: set<Ptr>, dead: set<Ptr>, h: Heap, p: Ptr)
    requires Collected(h0, s0, releasing, dead, h) && Object(h0, p)
    ensures CoveredAt(h, p) <==> (p in Saved(h0, s0) && p !in dead ==> StaysCovered(h0, s0, releasing, dead, p))
  {
    Verdict(h0, s0);
    assert SameButBuffered(h[p], Final(h0, s0, releasing, dead, p));
    if p in Saved(h0, s0) && p !in dead {
      SavedCovered(h0, s0, releasing, dead, h, p);
    } else if p !in Traced(h0, s0) && p !in dead && !h0[p].deallocating {
      UntracedCovered(h0, s0, releasing, dead, h, p);
    }
  }

  /** A collection leaves a heap from which the next can start if and only if every survivor of the traced
      objects has outside handles enough: the undo gives back one count only. */
  lemma NextStartIff(h0: Heap, s0: seq<Ptr>, releasing: set<Ptr>, h: Heap, out: seq<Ptr>, dead: set<Ptr>, s: seq<Ptr>)
    requires CleanStart(h0, s0) && Outcome(h0, s0, releasing, h, out, dead) && forall p | p in s :: p < |h|
    ensures CleanStart(h, s) <==> AllStayCovered(h0, s0, releasing, dead)
  {
    ShapeKept(h0, s0, releasing, dead, h);
    Verdict(h0, s0);
    forall p: Ptr | Object(h0, p)
      ensures CoveredAt(h, p) <==> (p in Saved(h0, s0) && p !in dead ==> StaysCovered(h0, s0, releasing, dead, p))
    {
      CoveredAfter(h0, s0, releasing, dead, h, p);
    }
    assert CountsCoverRefs(h) <==> forall p: Ptr | Object(h, p) :: CoveredAt(h, p);
  }

  lemma ShapeKept(h0: Heap, s0: seq<Ptr>, releasing: set<Ptr>, dead: set<Ptr>, h: Heap)
    requires Collected(h0, s0, releasing, dead, h)
    ensures PointersValid(h) && forall p: Ptr | Object(h, p) :: h[p].color != Gray && h[p].color != White
  {
    CollectedClears(h0, s0, releasing, dead, h);
    forall p: Ptr | Object(h, p) ensures h[p].color != Gray && h[p].color != White {
      assert Object(h0, p) && SameButBuffered(h[p], Final(h0, s0, releasing, dead, p));
    }
  }

  /** Without releasing destructors among the garbage that asks for one reference from survivors at most,
      outside handles aside. */
  lemma NextStartPlain(h0: Heap, s0: seq<Ptr>, releasing: set<Ptr>, h: Heap, out: seq<Ptr>, dead: set<Ptr>, s: seq<Ptr>)
    requires CleanStart(h0, s0) && Outcome(h0, s0, releasing, h, out, dead) && forall p | p in s :: p < |h|
    requires releasing !! Garbage(h0, s0)
    ensures CleanStart(h, s) <==>
            forall p | p in Saved(h0, s0) && p < |h0| :: OutsideHandles(h0, p) + 1 >= RefsFrom(h0, Saved(h0, s0), p)
  {
    PlainOutcome(h0, s0, releasing, dead);
    NextStartIff(h0, s0, releasing, h, out, dead, s);
    assert dead - releasing == {} == Garbage(h0, s0) * releasing;
    forall p: Ptr ensures RefsFrom(h0, {}, p) == 0 { RefsZero(h0, FieldsOf(h0, {}), p, |h0|); }
  }

  // --- Two heaps ---

  /** A suspect with an outside handle that refers twice to an object held by nothing else. */
  function TwiceReferred(): Heap {
    [Header(0, Black, false, false, []), Header(2, Black, false, false, []), Header(1, Purple, false, true, [1, 1])]
  }

  lemma TwiceRefs(from: set<Ptr>, n: Ptr)
    requires 1 <= n <= 2
    ensures RefsFrom(TwiceReferred(), from, n) == if n == 1 && 2 in from then 2 else 0
  {
    var h := TwiceReferred();
    var d := FieldsOf(h, from);
    assert d[1] == 0 && d[2] == if 2 in from then 2 else 0;
    assert Refs(h, d, n, 2) == 0;
    assert Refs(h, d, n, 3) == Refs(h, d, n, 2) + Occurrences([1, 1], d[2], n);
    assert Occurrences([1, 1], 1, n) == if n == 1 then 1 else 0;
  }

  lemma TwiceStart()
    ensures CleanStart(TwiceReferred(), [2]) && Roots(TwiceReferred(), [2]) == {2} && Held(TwiceReferred(), {1, 2}) == {2}
    ensures Edges(TwiceReferred()) == [{}, {}, {1}] && Objects(TwiceReferred()) == {1, 2}
  {
    var h := TwiceReferred();
    assert Objects(h) == {1, 2};
    TwiceRefs({1, 2}, 1);
    TwiceRefs({1, 2}, 2);
    assert Edges(h)[0] == {} && Edges(h)[1] == {} && Edges(h)[2] == {1};
  }

  lemma ReachOfTwice(g: Graph)
    requires g == [{}, {}, {1}]
    ensures Reach(g, {2}) == {1, 2}
  {
    ReachContainsSources(g, {2});
    ReachIsClosed(g, {2});
    assert 1 in g[2];
    ReachIsLeast(g, {2}, {1, 2});
  }

  lemma AllSaved(h: Heap, s: seq<Ptr>)
    requires Roots(h, s) == {2} == Held(h, {1, 2}) && Edges(h) == [{}, {}, {1}]
    ensures Saved(h, s) == {1, 2} && Garbage(h, s) == {}
  {
    ReachOfTwice(Edges(h));
  }

  lemma TwoTooMany(h: Heap, saved: set<Ptr>)
    requires 1 in saved && |h| > 1 && OutsideHandles(h, 1) == 0 && RefsFrom(h, saved, 1) == 2
    ensures !forall p | p in saved && p < |h| :: OutsideHandles(h, p) + 1 >= RefsFrom(h, saved, p)
  {
    assert 1 in saved && 1 < |h| && !(OutsideHandles(h, 1) + 1 >= RefsFrom(h, saved, 1));
  }

  /** No later collection starts from a clean heap, though this one found no garbage at all. */
  lemma NextStartBroken(releasing: set<Ptr>, h: Heap, out: seq<Ptr>, dead: set<Ptr>, s: seq<Ptr>)
    requires Outcome(TwiceReferred(), [2], releasing, h, out, dead) && forall p | p in s :: p < |h|
    ensures CleanStart(TwiceReferred(), [2]) && Garbage(TwiceReferred(), [2]) == {} && !CleanStart(h, s)
  {
    var h0 := TwiceReferred();
    TwiceStart();
    AllSaved(h0, [2]);
    NextStartPlain(h0, [2], releasing, h, out, dead, s);
    TwiceRefs({1, 2}, 1);
    TwoTooMany(h0, {1, 2});
  }

  /** A suspect nobody holds but itself, and an object that nothing else refers to. */
  function LastReference(): Heap {
    [Header(0, Black, false, false, []), Header(1, Purple, false, true, [1, 2]), Header(1, Green, false, false, [])]
  }

  lemma LastRefs(from: set<Ptr>, n: Ptr)
    requires 1 <= n <= 2
    ensures RefsFrom(LastReference(), from, n) == if 1 in from then 1 else 0
  {
    var h := LastReference();
    var d := FieldsOf(h, from);
    assert d[2] == 0 && d[1] == if 1 in from then 2 else 0;
    assert Refs(h, d, n, 2) == Occurrences([1, 2], d[1], n);
    assert Refs(h, d, n, 3) == Refs(h, d, n, 2);
    assert Occurrences([1, 2], 1, n) == if n == 1 then 1 else 0;
  }

  lemma LastStart()
    ensures CleanStart(LastReference(), [1]) && Roots(LastReference(), [1]) == {1} && Edges(LastReference()) == [{}, {1}, {}]
    ensures Trial(LastReference(), {1}, 1) == 0 && Handled(LastReference()) == {}
  {
    var h := LastReference();
    assert Objects(h) == {1, 2};
    LastRefs({1, 2}, 1);
    LastRefs({1, 2}, 2);
    LastRefs({1}, 1);
    assert Edges(h)[0] == {} && Edges(h)[1] == {1} && Edges(h)[2] == {};
  }

  lemma OnlyTheSuspect(h: Heap, s: seq<Ptr>)
    requires Roots(h, s) == {1} && Edges(h) == [{}, {1}, {}] && Trial(h, {1}, 1) == 0
    ensures Garbage(h, s) == {1} == Traced(h, s)
  {
    ReachContainsSources(Edges(h), {1});
    ReachIsLeast(Edges(h), {1}, {1});
    assert 1 in Traced(h, s);
    assert Traced(h, s) == {1};
    AllTracedIsGarbage(h, s);
  }

  lemma SuspectDrags(h: Heap, s: seq<Ptr>, dead: set<Ptr>)
    requires Garbage(h, s) == {1} == Traced(h, s) && Object(h, 2) && !h[2].deallocating && h[2].strong == 1
    requires RefsFrom(h, ({1} + dead) * {1}, 2) == 1 && Destroyed(h, s, {1}, dead)
    ensures 2 in dead
  {
    assert LosesAll(h, s, {1}, dead, 2);
  }

  /** What only garbage held goes with it, and no live object is harmed. */
  lemma OnlyGarbageHeldIt(dead: set<Ptr>)
    requires Destroyed(LastReference(), [1], {1}, dead)
    ensures CleanStart(LastReference(), [1]) && 2 in dead && dead !! Live(LastReference())
  {
    LastStart();
    OnlyTheSuspect(LastReference(), [1]);
    NothingFromNothing(Links(LastReference()));
    LastRefs(({1} + dead) * {1}, 2);
    SuspectDrags(LastReference(), [1], dead);
  }
}
