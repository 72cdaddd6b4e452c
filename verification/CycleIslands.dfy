/** What a cycle collection collects and what it leaves alone, said on the fields of the objects. */
module CycleIslands {
  import opened Graphs
  import opened References
  import opened CycleHeap
  import opened CycleTrial
  import opened CycleScan
  import opened CycleOutcome
  import opened CycleTheorems

  /** A suspect with a count, still purple and not being destroyed. */
  predicate Suspected(h: Heap, suspects: seq<Ptr>, p: Ptr) {
    p in suspects && p != NULL && p < |h| && h[p].color == Purple && h[p].strong > 0 && !h[p].deallocating
  }

  /** From field to field, from such a suspect on, through objects of `x` only. */
  ghost predicate Way(h: Heap, suspects: seq<Ptr>, x: set<Ptr>, way: seq<Ptr>) {
    && way != [] && Suspected(h, suspects, way[0])
    && (forall i | 0 <= i < |way| :: way[i] in x && way[i] < |h|)
    && forall i | 0 < i < |way| :: way[i] in h[way[i - 1]].scan
  }

  ghost predicate LedTo(h: Heap, suspects: seq<Ptr>, x: set<Ptr>, p: Ptr) {
    exists way :: Way(h, suspects, x, way) && way[|way| - 1] == p
  }

  /** Objects, neither being destroyed nor known acyclic, that a suspect among them leads to, and whose counts are all
      references from one another: a program that can reach none of them can never reach one again. */
  ghost predicate Island(h: Heap, suspects: seq<Ptr>, x: set<Ptr>) {
    forall p | p in x :: OnIsland(h, suspects, x, p)
  }

  ghost predicate OnIsland(h: Heap, suspects: seq<Ptr>, x: set<Ptr>, p: Ptr) {
    && p != NULL && p < |h| && !h[p].deallocating && h[p].color != Green
    && h[p].strong == RefsFrom(h, x, p) && LedTo(h, suspects, x, p)
  }

  lemma {:induction false} WayIsTraced(h: Heap, suspects: seq<Ptr>, x: set<Ptr>, way: seq<Ptr>, i: nat)
    requires PointersValid(h) && Island(h, suspects, x) && Way(h, suspects, x, way) && i < |way|
    ensures way[i] in Traced(h, suspects)
  {
    assert OnIsland(h, suspects, x, way[i]);
    if i == 0 {
      ReachContainsSources(Edges(h), Roots(h, suspects));
    } else {
      WayIsTraced(h, suspects, x, way, i - 1);
      ReachIsClosed(Edges(h), Roots(h, suspects));
      assert way[i] in Edges(h)[way[i - 1]];
    }
  }

  /** Every island is collected, whole. */
  lemma IslandsAreCollected(h: Heap, suspects: seq<Ptr>, x: set<Ptr>)
    requires CleanStart(h, suspects) && Island(h, suspects, x)
    ensures x <= Garbage(h, suspects)
  {
    var traced := Traced(h, suspects);
    forall p | p in x ensures p in traced {
      assert OnIsland(h, suspects, x, p);
      var way :| Way(h, suspects, x, way) && way[|way| - 1] == p;
      WayIsTraced(h, suspects, x, way, |way| - 1);
    }
    NoneHeld(h, suspects, x);
  }

  lemma NoneHeld(h: Heap, suspects: seq<Ptr>, x: set<Ptr>)
    requires CleanStart(h, suspects) && Island(h, suspects, x) && x <= Traced(h, suspects)
    ensures x !! Saved(h, suspects)
  {
    var traced := Traced(h, suspects);
    var rest := set u: Ptr | u < |h| && u !in x;
    forall p | p in x ensures p !in Held(h, traced) {
      assert OnIsland(h, suspects, x, p);
      RefsMonotone(h, FieldsOf(h, x), FieldsOf(h, traced), p, |h|);
    }
    forall u, v | u in rest && v in Edges(h)[u] ensures v in rest {
      if v in x {
        assert OnIsland(h, suspects, x, v);
        var i: nat :| i < |h[u].scan| && h[u].scan[i] == v;
        OutsideReferenceCounts(h, x, u, i);
      }
    }
    ReachIsLeast(Edges(h), Held(h, traced), rest);
  }

  /** All counts of a garbage object are references from garbage. */
  lemma GarbageCounts(h: Heap, suspects: seq<Ptr>, p: Ptr)
    requires CleanStart(h, suspects) && p in Garbage(h, suspects)
    ensures Object(h, p) && h[p].strong == RefsFrom(h, Garbage(h, suspects), p)
  {
    var garbage, traced := Garbage(h, suspects), Traced(h, suspects);
    TracedIsEligible(h, suspects);
    ReachContainsSources(Edges(h), Held(h, traced));
    assert Trial(h, traced, p) <= 0;
    RefsMonotone(h, FieldsOf(h, traced), FieldsOf(h, Objects(h)), p, |h|);
    forall u: Ptr, i: nat | Object(h, u) && i < |h[u].scan| && h[u].scan[i] == p ensures u in garbage {
      OnlyGarbageRefersToGarbage(h, suspects, u, i);
    }
    OnlyFrom(h, garbage, traced, p, |h|);
  }

  /** The objects outside `x` do not refer to `p`, so they may be counted or not. */
  lemma {:induction false} OnlyFrom(h: Heap, x: set<Ptr>, y: set<Ptr>, p: Ptr, k: nat)
    requires k <= |h| && x <= y && forall u: Ptr, i: nat | Object(h, u) && i < |h[u].scan| && h[u].scan[i] == p :: u in x
    ensures Refs(h, FieldsOf(h, x), p, k) == Refs(h, FieldsOf(h, y), p, k)
  {
    if k > 1 {
      OnlyFrom(h, x, y, p, k - 1);
      if k - 1 !in x { OccurrencesZero(h[k - 1].scan, |h[k - 1].scan|, p); }
    }
  }

  lemma EdgeIsField(h: Heap, u: Ptr, v: Ptr) returns (i: nat)
    requires u < |h| && v in Edges(h)[u]
    ensures Object(h, u) && i < |h[u].scan| && h[u].scan[i] == v
  {
    i :| i < |h[u].scan| && h[u].scan[i] == v;
  }

  /** A way to garbage leads through garbage only. */
  lemma {:induction false} GarbageBefore(h: Heap, suspects: seq<Ptr>, way: seq<Ptr>, i: nat)
    requires CleanStart(h, suspects) && i < |way| && Path(Edges(h), way) && way[|way| - 1] in Garbage(h, suspects)
    ensures way[i] in Garbage(h, suspects)
    decreases |way| - i
  {
    if i + 1 < |way| {
      GarbageBefore(h, suspects, way, i + 1);
      assert way[i + 1] in Edges(h)[way[(i + 1) - 1]];
      var k := EdgeIsField(h, way[i], way[i + 1]);
      OnlyGarbageRefersToGarbage(h, suspects, way[i], k);
    }
  }

  lemma GarbageWay(h: Heap, suspects: seq<Ptr>, way: seq<Ptr>, p: Ptr)
    requires CleanStart(h, suspects) && Connects(Edges(h), Roots(h, suspects), way, p) && p in Garbage(h, suspects)
    ensures Way(h, suspects, Garbage(h, suspects), way)
  {
    forall i | 0 <= i < |way| ensures way[i] in Garbage(h, suspects) { GarbageBefore(h, suspects, way, i); }
    forall i | 0 < i < |way| ensures way[i] in h[way[i - 1]].scan { var _ := EdgeIsField(h, way[i - 1], way[i]); }
  }

  /** Garbage is an island, and holds every other: it is the largest one. */
  lemma GarbageIsLargestIsland(h: Heap, suspects: seq<Ptr>)
    requires CleanStart(h, suspects)
    ensures Island(h, suspects, Garbage(h, suspects))
    ensures forall x | Island(h, suspects, x) :: x <= Garbage(h, suspects)
  {
    var garbage := Garbage(h, suspects);
    TracedIsEligible(h, suspects);
    forall p | p in garbage ensures OnIsland(h, suspects, garbage, p) {
      GarbageCounts(h, suspects, p);
      var way :| Connects(Edges(h), Roots(h, suspects), way, p);
      GarbageWay(h, suspects, way, p);
    }
    forall x | Island(h, suspects, x) ensures x <= garbage { IslandsAreCollected(h, suspects, x); }
  }

  /** What a collection leaves of an island: each object handed over once, with no count, no fields left to visit,
      black, marked as destroyed and not as buffered. */
  lemma IslandIsFinalized(h0: Heap, s0: seq<Ptr>, releasing: set<Ptr>, h: Heap, out: seq<Ptr>, dead: set<Ptr>, x: set<Ptr>, p: Ptr)
    requires CleanStart(h0, s0) && Outcome(h0, s0, releasing, h, out, dead) && Island(h0, s0, x) && p in x
    ensures p in out && p < |h| && h[p].strong == 0 && h[p].scan == [] && h[p].color == Black && h[p].deallocating
    ensures !h[p].buffered
  {
    IslandsAreCollected(h0, s0, x);
    assert OnIsland(h0, s0, x, p);
    assert Object(h0, p);
  }

  /** Holds every such suspect, and with an object all its fields, those that trial deletion passes by aside. */
  ghost predicate HoldsWays(h: Heap, suspects: seq<Ptr>, led: set<Ptr>) {
    && (forall p | Suspected(h, suspects, p) :: p in led)
    && forall u: Ptr, i: nat | u in led && Object(h, u) && i < |h[u].scan| :: PassedBy(h, h[u].scan[i]) || h[u].scan[i] in led
  }

  predicate PassedBy(h: Heap, p: Ptr) {
    p == NULL || p >= |h| || h[p].deallocating || h[p].color == Green
  }

  lemma NotTraced(h: Heap, suspects: seq<Ptr>, led: set<Ptr>, p: Ptr)
    requires CleanStart(h, suspects) && HoldsWays(h, suspects, led) && Object(h, p) && (p !in led || PassedBy(h, p))
    ensures p !in Traced(h, suspects)
  {
    var inside := set u: Ptr | u in led && u < |h| && !PassedBy(h, u);
    forall u, v | u in inside && v in Edges(h)[u] ensures v in inside { var _ := EdgeIsField(h, u, v); }
    forall r | r in Roots(h, suspects) ensures r in inside { assert Suspected(h, suspects, r); }
    ReachIsLeast(Edges(h), Roots(h, suspects), inside);
  }

  /** An object no suspect leads to, or one that trial deletion passes by, is not collected, and left as it was if no
      destructor releases anything; else its color and fields are, unless it is destroyed by losing its last count. */
  lemma OthersAreLeft(h0: Heap, s0: seq<Ptr>, releasing: set<Ptr>, h: Heap, out: seq<Ptr>, dead: set<Ptr>, led: set<Ptr>, p: Ptr)
    requires CleanStart(h0, s0) && Outcome(h0, s0, releasing, h, out, dead) && HoldsWays(h0, s0, led)
    requires Object(h0, p) && (p !in led || PassedBy(h0, p))
    ensures p !in out && p < |h|
    ensures p !in dead ==> h[p].color == h0[p].color && h[p].scan == h0[p].scan && h[p].deallocating == h0[p].deallocating
    ensures releasing == {} ==> p !in dead && h[p].strong == h0[p].strong
  {
    NotTraced(h0, s0, led, p);
    if releasing == {} { RefsZero(h0, FieldsOf(h0, (Garbage(h0, s0) + dead) * releasing), p, |h0|); }
  }
}
