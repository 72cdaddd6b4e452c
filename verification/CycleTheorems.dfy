/** What the verdict of a cycle collection means for the program that owns the objects. */
module CycleTheorems {
  import opened Graphs
  import opened References
  import opened CycleHeap
  import opened CycleTrial
  import opened CycleScan

  /** Nothing that survives refers to a collected object, whatever its color or flags. */
  lemma OnlyGarbageRefersToGarbage(h: Heap, suspects: seq<Ptr>, u: Ptr, i: nat)
    requires CleanStart(h, suspects)
    requires Object(h, u) && i < |h[u].scan| && h[u].scan[i] in Garbage(h, suspects)
    ensures u in Garbage(h, suspects)
  {
    var v, traced := h[u].scan[i], Traced(h, suspects);
    ReachIsClosed(Edges(h), Roots(h, suspects));
    TracedIsEligible(h, suspects);
    SavedIsTraced(h, traced);
    if u !in traced {
      OutsideReferenceCounts(h, traced, u, i);
      assert false;
    }
    assert v in Edges(h)[u];
  }

  lemma TracedIsEligible(h: Heap, suspects: seq<Ptr>)
    requires CleanStart(h, suspects)
    ensures forall p | p in Traced(h, suspects) :: Eligible(h, p)
  {
    var eligible := set p: Ptr | p < |h| && Eligible(h, p);
    ReachIsLeast(Edges(h), Roots(h, suspects), eligible);
  }

  /** A reference from outside the traced objects keeps the trial count above zero. */
  lemma OutsideReferenceCounts(h: Heap, traced: set<Ptr>, u: Ptr, i: nat)
    requires PointersValid(h) && CountsCoverRefs(h)
    requires Object(h, u) && u !in traced && i < |h[u].scan| && Eligible(h, h[u].scan[i])
    ensures Trial(h, traced, h[u].scan[i]) > 0
  {
    var v := h[u].scan[i];
    var d := FieldsOf(h, traced);
    var e := d[u := i];
    RefsMonotone(h, d, e, v, |h|);
    RefsLeaveRoom(h, e, u);
  }

  /** Handles on `n` that are not fields of any object. */
  ghost function OutsideHandles(h: Heap, n: Ptr): int
    requires n < |h|
  {
    h[n].strong - InRefs(h, n)
  }

  /** Where a traced object can be kept alive from: an object with an outside handle, or one not traced. */
  ghost function Anchors(h: Heap, traced: set<Ptr>): set<Ptr> {
    set u: Ptr | u < |h| && Object(h, u) && (u !in traced || OutsideHandles(h, u) > 0)
  }

  lemma SavedIsAnchored(h: Heap, suspects: seq<Ptr>)
    requires CleanStart(h, suspects)
    ensures Saved(h, suspects) <= Reach(Edges(h), Anchors(h, Traced(h, suspects)))
  {
    var traced := Traced(h, suspects);
    TracedIsEligible(h, suspects);
    ReachIsClosed(Edges(h), Anchors(h, traced));
    forall x | x in Held(h, traced) ensures x in Reach(Edges(h), Anchors(h, traced)) {
      HeldIsAnchored(h, traced, x);
    }
    ReachIsLeast(Edges(h), Held(h, traced), Reach(Edges(h), Anchors(h, traced)));
  }

  lemma AnchorsMissGarbage(h: Heap, suspects: seq<Ptr>)
    requires CleanStart(h, suspects)
    ensures Anchors(h, Traced(h, suspects)) !! Garbage(h, suspects)
  {
    var traced := Traced(h, suspects);
    ReachIsClosed(Edges(h), Roots(h, suspects));
    SavedIsTraced(h, traced);
    forall u | u in Anchors(h, traced) && u in traced ensures u in Saved(h, suspects) {
      RefsMonotone(h, FieldsOf(h, traced), FieldsOf(h, Objects(h)), u, |h|);
      assert u in Held(h, traced);
    }
  }

  /** The verdict is exact: garbage is what was traced and cannot be reached from any anchor. */
  lemma GarbageIsUnreachable(h: Heap, suspects: seq<Ptr>)
    requires CleanStart(h, suspects)
    ensures Garbage(h, suspects) == Traced(h, suspects) - Reach(Edges(h), Anchors(h, Traced(h, suspects)))
  {
    SavedIsAnchored(h, suspects);
    AnchorsMissGarbage(h, suspects);
    var rest := set u: Ptr | u < |h| && u !in Garbage(h, suspects);
    forall u, v | u in rest && v in Edges(h)[u] ensures v in rest {
      var i: nat :| i < |h[u].scan| && h[u].scan[i] == v;
      if v in Garbage(h, suspects) { OnlyGarbageRefersToGarbage(h, suspects, u, i); }
    }
    ReachIsLeast(Edges(h), Anchors(h, Traced(h, suspects)), rest);
  }

  /** A count left over after trial deletion comes from a handle or from an object not traced. */
  lemma HeldIsAnchored(h: Heap, traced: set<Ptr>, x: Ptr)
    requires CountsCoverRefs(h) && x in Held(h, traced) && Eligible(h, x)
    requires forall p | p in traced :: Eligible(h, p)
    ensures x in Reach(Edges(h), Anchors(h, traced))
  {
    var g := Edges(h);
    ReachIsClosed(g, Anchors(h, traced));
    ReachContainsSources(g, Anchors(h, traced));
    if x !in Anchors(h, traced) {
      var u := OutsideReferrer(h, traced, x, |h|);
      assert x in g[u] && u in Anchors(h, traced);
    }
  }

  lemma {:induction false} OutsideReferrer(h: Heap, traced: set<Ptr>, n: Ptr, k: nat) returns (u: Ptr)
    requires k <= |h| && Refs(h, FieldsOf(h, traced), n, k) < Refs(h, FieldsOf(h, Objects(h)), n, k)
    ensures Object(h, u) && u !in traced && n in h[u].scan
  {
    if k - 1 in traced {
      u := OutsideReferrer(h, traced, n, k - 1);
    } else if n in h[k - 1].scan {
      u := k - 1;
    } else {
      OccurrencesZero(h[k - 1].scan, |h[k - 1].scan|, n);
      u := OutsideReferrer(h, traced, n, k - 1);
    }
  }

  // --- The undo that the header promises ---

  /** Restoring gives each survivor one count back, however many were taken: it is exact for those
      with a single reference from the traced objects and for no others. */
  lemma UndoIsExactForOneReference(h: Heap, suspects: seq<Ptr>, p: Ptr)
    requires CleanStart(h, suspects) && p in Saved(h, suspects)
    ensures p < |h|
    ensures After(h, suspects, p).strong == h[p].strong <==> RefsFrom(h, Traced(h, suspects), p) == 1
  {
    ReachIsClosed(Edges(h), Roots(h, suspects));
    SavedIsTraced(h, Traced(h, suspects));
  }

  /** A live suspect that refers to nothing ends with a count too many. */
  lemma UndoOvershoots()
    ensures var h := [Header(0, Black, false, false, []), Header(1, Purple, false, true, [])];
      CleanStart(h, [1]) && 1 in Saved(h, [1]) && After(h, [1], 1).strong == h[1].strong + 1
  {
    var h := [Header(0, Black, false, false, []), Header(1, Purple, false, true, [])];
    RefsZero(h, FieldsOf(h, Objects(h)), 1, 2);
    RefsZero(h, FieldsOf(h, Traced(h, [1])), 1, 2);
    ReachContainsSources(Edges(h), Roots(h, [1]));
    ReachContainsSources(Edges(h), Held(h, Traced(h, [1])));
    assert 1 in Roots(h, [1]) && 1 in Held(h, Traced(h, [1]));
  }
}
