/** What one cycle collection does, in terms of the heap and the suspects it starts from. */
module CycleOutcome {
  import opened Graphs
  import opened References
  import opened CycleHeap
  import opened CycleTrial
  import opened CycleScan
  import opened CycleSweep
  import opened CycleFinalize
  import opened CycleVisits
  import CycleTheorems

  /** The suspects that stay on the list after phase 1. */
  ghost function Listed(h: Heap, s: seq<Ptr>): seq<Ptr> {
    KeptRoots(h, s, |s|)
  }

  /** The garbage still flagged as buffered in phase 3: it was, and is not struck off the list. */
  ghost function Flagged(h: Heap, s: seq<Ptr>): set<Ptr> {
    set p | p in Garbage(h, s) && p < |h| && h[p].buffered && !StruckOff(s, Listed(h, s), |s|, p)
  }

  /** The garbage in the order it is visited. */
  ghost function Visits(h: Heap, s: seq<Ptr>): seq<Ptr> {
    Order(h, Garbage(h, s), [], Listed(h, s))
  }

  /** The collection runs into an over-release. */
  ghost predicate Aborts(h: Heap, s: seq<Ptr>, releasing: set<Ptr>) {
    Trips(h, Garbage(h, s), releasing, Flagged(h, s), Visits(h, s))
  }

  /** The references that the destructors of garbage and of `dead` release. */
  ghost function Releases(h: Heap, s: seq<Ptr>, releasing: set<Ptr>, dead: set<Ptr>, p: Ptr): nat {
    RefsFrom(h, (Garbage(h, s) + dead) * releasing, p)
  }

  /** An object that is no garbage loses its last count to these releases. */
  ghost predicate LosesAll(h: Heap, s: seq<Ptr>, releasing: set<Ptr>, dead: set<Ptr>, p: Ptr) {
    && Object(h, p) && p !in Garbage(h, s) && !h[p].deallocating
    && 0 < After(h, s, p).strong <= Releases(h, s, releasing, dead, p)
  }

  /** The objects outside the garbage that are destroyed: those the releases leave without a count, their own
      included, and no more than have to be. */
  ghost predicate Destroyed(h: Heap, s: seq<Ptr>, releasing: set<Ptr>, dead: set<Ptr>) {
    && (forall p :: p in dead <==> LosesAll(h, s, releasing, dead, p))
    && forall others: set<Ptr> | (forall p: Ptr | LosesAll(h, s, releasing, others, p) :: p in others) :: dead <= others
  }

  ghost function Final(h: Heap, s: seq<Ptr>, releasing: set<Ptr>, dead: set<Ptr>, p: Ptr): Header
    requires p < |h|
  {
    var after := After(h, s, p);
    if p in Garbage(h, s) then after
    else if p in dead then Finalized(after.(strong := 0))
    else after.(strong := Lowered(after.strong, Releases(h, s, releasing, dead, p)))
  }

  /** The object is not on the list of suspects, or loses its place there neither in phase 1 nor in its turn of phase 2:
      only taking a suspect off the list takes the flag off it. */
  ghost predicate KeepsFlag(h: Heap, s: seq<Ptr>, p: Ptr) {
    forall j: nat | j < |s| && s[j] == p :: StaysListed(h, s, j)
  }

  ghost predicate StaysListed(h: Heap, s: seq<Ptr>, j: nat) {
    && j < |Listed(h, s)| == |s| && Listed(h, s)[j] == s[j]
    && s[j] !in Early(h, Traced(h, s), Listed(h, s), j + 1)
  }

  /** Whether the object is flagged as buffered after the collection. */
  ghost predicate FlagAfter(h: Heap, s: seq<Ptr>, dead: set<Ptr>, p: Ptr)
    requires p < |h|
  {
    h[p].buffered && p !in Garbage(h, s) && p !in dead && KeepsFlag(h, s, p)
  }

  /** The heap a collection leaves if it does not abort, the objects it hands over, each once and children
      first, and those it destroys besides. */
  ghost predicate Outcome(h0: Heap, s0: seq<Ptr>, releasing: set<Ptr>, h: Heap, out: seq<Ptr>, dead: set<Ptr>) {
    && |h| == |h0| && Destroyed(h0, s0, releasing, dead)
    && (forall p: Ptr | Object(h0, p) :: h[p] == Final(h0, s0, releasing, dead, p).(buffered := FlagAfter(h0, s0, dead, p)))
    && NoRepeats(out) && (forall p :: p in out <==> p in Garbage(h0, s0))
    && |out| == |Garbage(h0, s0)| && ChildrenFirst(h0, Garbage(h0, s0), Visits(h0, s0), out)
  }

  // --- From phase 2 to phase 3 ---

  ghost predicate GarbageFlags(h0: Heap, s0: seq<Ptr>, h: Heap) {
    |h| == |h0| && forall p | p in Garbage(h0, s0) && p < |h| :: h[p].buffered <==> p in Flagged(h0, s0)
  }

  ghost predicate FlagsKept(h0: Heap, s0: seq<Ptr>, h: Heap) {
    |h| == |h0| && forall p: Ptr | Object(h0, p) :: h[p].buffered == (h0[p].buffered && KeepsFlag(h0, s0, p))
  }

  lemma GarbageNotDropped(h: Heap, s: seq<Ptr>, p: Ptr)
    requires p in Garbage(h, s)
    ensures !Dropped(h, Traced(h, s), Listed(h, s), |Listed(h, s)|, p)
  {
    var traced, listed := Traced(h, s), Listed(h, s);
    forall j: nat | j < |listed| && BlackAtTurn(h, traced, listed, j) ensures listed[j] != p { EarlyIsSaved(h, traced, listed, j + 1); }
  }

  /** Struck off in phase 1 means not flagged, and phase 2 takes flags off saved objects only. */
  lemma FlagsOfGarbage(h0: Heap, s0: seq<Ptr>, h1: Heap, h: Heap)
    requires FlagsOk(h0, s0, Listed(h0, s0), h1, |s0|)
    requires FlagsDropped(h0, Traced(h0, s0), Listed(h0, s0), |Listed(h0, s0)|, h1, h)
    requires forall p | p in Garbage(h0, s0) :: Object(h0, p)
    ensures GarbageFlags(h0, s0, h)
  {
    forall p | p in Garbage(h0, s0) && p < |h| ensures h[p].buffered <==> p in Flagged(h0, s0) { GarbageNotDropped(h0, s0, p); }
  }

  /** An object loses its flag in phase 1 or 2 exactly if it loses a place on the list there. */
  lemma FlagsAfterScan(h0: Heap, s0: seq<Ptr>, h1: Heap, h: Heap)
    requires FlagsOk(h0, s0, Listed(h0, s0), h1, |s0|)
    requires FlagsDropped(h0, Traced(h0, s0), Listed(h0, s0), |Listed(h0, s0)|, h1, h)
    ensures FlagsKept(h0, s0, h)
  {
    forall p: Ptr | Object(h0, p) ensures h[p].buffered == (h0[p].buffered && KeepsFlag(h0, s0, p)) {
      KeepsFlagIff(h0, s0, p);
    }
  }

  lemma KeepsFlagIff(h: Heap, s: seq<Ptr>, p: Ptr)
    requires Object(h, p)
    ensures KeepsFlag(h, s, p) <==>
      !StruckOff(s, Listed(h, s), |s|, p) && !Dropped(h, Traced(h, s), Listed(h, s), |Listed(h, s)|, p)
  {
    var traced, listed := Traced(h, s), Listed(h, s);
    ListedIsPart(h, s, |s|);
    forall j: nat | j < |s| && s[j] == p
      ensures StaysListed(h, s, j) <==> listed[j] != NULL && !BlackAtTurn(h, traced, listed, j)
    {
    }
    if Dropped(h, traced, listed, |listed|, p) {
      var j: nat :| j < |listed| && BlackAtTurn(h, traced, listed, j) && listed[j] == p;
      assert s[j] == p && !StaysListed(h, s, j);
    }
    if StruckOff(s, listed, |s|, p) {
      var j: nat :| j < |s| && j < |listed| && s[j] == p && listed[j] == NULL;
      assert !StaysListed(h, s, j);
    }
  }

  lemma {:induction false} ListedIsPart(h: Heap, s: seq<Ptr>, i: nat)
    requires i <= |s|
    ensures |KeptRoots(h, s, i)| == i
    ensures forall j | 0 <= j < i :: KeptRoots(h, s, i)[j] == s[j] || KeptRoots(h, s, i)[j] == NULL
  {
    if i > 0 { ListedIsPart(h, s, i - 1); }
  }

  ghost function SweepOf(h0: Heap, s0: seq<Ptr>, h2: Heap, releasing: set<Ptr>): Sweep {
    Sweep(h0, h2, Garbage(h0, s0), releasing, Flagged(h0, s0))
  }

  ghost predicate PhaseTwoOver(h0: Heap, s0: seq<Ptr>, h2: Heap) {
    CleanStart(h0, s0) && Scanned(h0, Traced(h0, s0), h2) && GarbageFlags(h0, s0, h2) && FlagsKept(h0, s0, h2)
  }

  lemma SweepIsReady(h0: Heap, s0: seq<Ptr>, h2: Heap, releasing: set<Ptr>)
    requires PhaseTwoOver(h0, s0, h2)
    ensures Ready(SweepOf(h0, s0, h2, releasing))
  {
    var k, traced := SweepOf(h0, s0, h2, releasing), Traced(h0, s0);
    CycleTheorems.TracedIsEligible(h0, s0);
    ReachIsClosed(Edges(h0), Roots(h0, s0));
    SavedIsTraced(h0, traced);
    forall p: Ptr | Object(h0, p) ensures ReadyAt(k, p) { ReadyFor(h0, s0, h2, releasing, p); }
    forall u: Ptr, i: nat | Object(h0, u) && i < |h0[u].scan| && h0[u].scan[i] in k.white ensures u in k.white {
      CycleTheorems.OnlyGarbageRefersToGarbage(h0, s0, u, i);
    }
  }

  lemma ReadyFor(h0: Heap, s0: seq<Ptr>, h2: Heap, releasing: set<Ptr>, p: Ptr)
    requires PhaseTwoOver(h0, s0, h2) && Object(h0, p)
    requires forall q | q in Traced(h0, s0) :: Eligible(h0, q)
    requires SavedBy(h0, Traced(h0, s0)) <= Traced(h0, s0)
    ensures ReadyAt(SweepOf(h0, s0, h2, releasing), p)
  {
    assert SameButBuffered(h2[p], ScannedHeader(h0, Traced(h0, s0), p));
    if p in Saved(h0, s0) { TrialNotNegative(h0, Traced(h0, s0), p); }
  }

  function Zeros(n: nat): (d: seq<nat>)
    ensures |d| == n && forall i | 0 <= i < n :: d[i] == 0
  {
    seq(n, _ => 0)
  }

  lemma SweepStart(h0: Heap, s0: seq<Ptr>, h2: Heap, releasing: set<Ptr>)
    requires PhaseTwoOver(h0, s0, h2)
    ensures SweepInv(SweepOf(h0, s0, h2, releasing), h2, Zeros(|h2|), [], {}, [], {})
  {
    var k, d := SweepOf(h0, s0, h2, releasing), Zeros(|h2|);
    SweepIsReady(h0, s0, h2, releasing);
    forall p: Ptr | Object(k.h0, p) ensures ObjectOk(k, h2, d, {}, [], {}, {}, p) {
      assert ReadyAt(k, p);
      RefsZero(h0, d, p, |h0|);
    }
  }

  // --- The list that phase 3 works through ---

  ghost predicate ListedReachAll(h0: Heap, s0: seq<Ptr>) {
    && Traced(h0, s0) == Reach(Edges(h0), Kept(Listed(h0, s0)))
    && forall p | p in Listed(h0, s0) :: p < |h0|
  }

  lemma BeforePhaseThree(h0: Heap, s0: seq<Ptr>, h1: Heap, h2: Heap)
    requires CleanStart(h0, s0) && Marked(h0, Traced(h0, s0), h1, Listed(h0, s0))
    requires FlagsOk(h0, s0, Listed(h0, s0), h1, |s0|)
    requires Scanned(h0, Traced(h0, s0), h2)
    requires FlagsDropped(h0, Traced(h0, s0), Listed(h0, s0), |Listed(h0, s0)|, h1, h2)
    ensures PhaseTwoOver(h0, s0, h2) && ListedReachAll(h0, s0)
  {
    CycleTheorems.TracedIsEligible(h0, s0);
    FlagsOfGarbage(h0, s0, h1, h2);
    FlagsAfterScan(h0, s0, h1, h2);
  }

  /** Suspects struck off in phase 2 are saved, so they do not matter to the order. */
  lemma ListedIsOrdered(h0: Heap, s0: seq<Ptr>, k: Sweep, listed: seq<Ptr>)
    requires CleanStart(h0, s0) && ListedReachAll(h0, s0) && StillListed(h0, Traced(h0, s0), Listed(h0, s0), listed)
    requires k.h0 == h0 && k.white == Garbage(h0, s0)
    ensures OrderIn(k, [], listed) == Visits(h0, s0)
    ensures forall j | 0 <= j < |listed| :: listed[j] < |h0|
  {
    CycleTheorems.TracedIsEligible(h0, s0);
    var kept := Listed(h0, s0);
    forall j | 0 <= j < |listed| ensures listed[j] < |h0| && (listed[j] == kept[j] || (listed[j] !in k.white && kept[j] !in k.white)) {
      assert kept[j] in kept;
    }
    OrderIgnores(k, [], listed, kept);
  }

  lemma ListedIsEntered(h0: Heap, s0: seq<Ptr>, k: Sweep, listed: seq<Ptr>, e: seq<Ptr>)
    requires k.white == Garbage(h0, s0) && StillListed(h0, Traced(h0, s0), Listed(h0, s0), listed)
    requires FieldsEntered(k, e, listed, |listed|)
    ensures forall p | p in Kept(Listed(h0, s0)) && p in k.white :: p in e
  {
    var kept := Listed(h0, s0);
    forall p | p in Kept(kept) && p in k.white ensures p in e {
      var j :| 0 <= j < |kept| && kept[j] == p;
      assert listed[j] == p;
    }
  }

  // --- The end of phase 3 ---

  /** Every white object hangs below a suspect that is still listed, so none is left over. */
  lemma NothingWhiteLeft(h0: Heap, s0: seq<Ptr>, k: Sweep, kept: seq<Ptr>, e: seq<Ptr>, out: seq<Ptr>)
    requires k.h0 == h0 && k.white == Garbage(h0, s0) && SearchInv(k, e, {}, out)
    requires Traced(h0, s0) == Reach(Edges(h0), Kept(kept)) && forall p | p in Kept(kept) && p in k.white :: p in e
    ensures forall p | p in k.white :: p in e
  {
    var traced := Traced(h0, s0);
    ReachIsClosed(Edges(h0), Roots(h0, s0));
    ReachContainsSources(Edges(h0), Kept(kept));
    SavedIsTraced(h0, traced);
    var settled := set p | p in traced && (p in SavedBy(h0, traced) || p in e);
    forall u, v | u in settled && v in Edges(h0)[u] ensures v in settled {
      if u in e {
        var i: nat :| i < |e| && e[i] == u;
        assert EntryOk(k, e, {}, out, i);
        assert ChildrenEntered(k, e, u);
      }
    }
    ReachIsLeast(Edges(h0), Kept(kept), settled);
  }

  lemma FinalRefs(k: Sweep, h: Heap, d: seq<nat>, out: seq<Ptr>, dead: set<Ptr>, p: Ptr)
    requires HeapInv(k, h, d, {}, out, dead, {}) && forall q | q in k.white :: q in out
    ensures Refs(k.h0, d, p, |k.h0|) == RefsFrom(k.h0, (k.white + dead) * k.releasing, p)
  {
    var e := FieldsOf(k.h0, (k.white + dead) * k.releasing);
    forall u | 0 < u < |k.h0| ensures d[u] == e[u] {
      assert Object(k.h0, u) && ObjectOk(k, h, d, {}, out, dead, {}, u);
    }
    RefsAgree(k.h0, d, e, p, |k.h0|);
  }

  lemma CountAfter(h0: Heap, s0: seq<Ptr>, h2: Heap, p: Ptr)
    requires PhaseTwoOver(h0, s0, h2) && Object(h0, p) && p !in Garbage(h0, s0)
    ensures SameButBuffered(h2[p], After(h0, s0, p))
  {
    assert SameButBuffered(h2[p], ScannedHeader(h0, Traced(h0, s0), p));
    ReachIsClosed(Edges(h0), Roots(h0, s0));
    SavedIsTraced(h0, Traced(h0, s0));
  }

  lemma LosesAllIff(h0: Heap, s0: seq<Ptr>, h2: Heap, releasing: set<Ptr>, others: set<Ptr>, p: Ptr)
    requires PhaseTwoOver(h0, s0, h2)
    ensures var k := SweepOf(h0, s0, h2, releasing);
      LosesAll(h0, s0, releasing, others, p) <==>
        Object(k.h0, p) && p !in k.white && !k.h2[p].deallocating && 0 < k.h2[p].strong <= RefsFrom(k.h0, Gone(k, others), p)
  {
    if Object(h0, p) && p !in Garbage(h0, s0) { CountAfter(h0, s0, h2, p); }
  }

  lemma DeadIsDestroyed(h0: Heap, s0: seq<Ptr>, h2: Heap, releasing: set<Ptr>, h: Heap, d: seq<nat>, out: seq<Ptr>, dead: set<Ptr>)
    requires PhaseTwoOver(h0, s0, h2) && HeapInv(SweepOf(h0, s0, h2, releasing), h, d, {}, out, dead, {})
    requires forall p | p in Garbage(h0, s0) :: p in out
    ensures Destroyed(h0, s0, releasing, dead)
  {
    var k := SweepOf(h0, s0, h2, releasing);
    forall p: Ptr ensures p in dead <==> LosesAll(h0, s0, releasing, dead, p) {
      LosesAllIff(h0, s0, h2, releasing, dead, p);
      FinalRefs(k, h, d, out, dead, p);
      if Object(h0, p) { assert ObjectOk(k, h, d, {}, out, dead, {}, p); }
    }
    forall others: set<Ptr> | (forall p: Ptr | LosesAll(h0, s0, releasing, others, p) :: p in others) ensures dead <= others {
      forall p: Ptr | Object(k.h0, p) && p !in k.white && !k.h2[p].deallocating
                      && 0 < k.h2[p].strong <= RefsFrom(k.h0, Gone(k, others), p)
        ensures p in others
      {
        LosesAllIff(h0, s0, h2, releasing, others, p);
      }
      assert Consistent(k, others);
    }
  }

  lemma FinalHeader(h0: Heap, s0: seq<Ptr>, h2: Heap, releasing: set<Ptr>, h: Heap, d: seq<nat>, out: seq<Ptr>, dead: set<Ptr>, p: Ptr)
    requires PhaseTwoOver(h0, s0, h2) && HeapInv(SweepOf(h0, s0, h2, releasing), h, d, {}, out, dead, {})
    requires (forall q | q in Garbage(h0, s0) :: q in out) && Object(h0, p)
    ensures h[p] == Final(h0, s0, releasing, dead, p).(buffered := FlagAfter(h0, s0, dead, p))
  {
    var k := SweepOf(h0, s0, h2, releasing);
    assert ObjectOk(k, h, d, {}, out, dead, {}, p);
    if p in Garbage(h0, s0) {
      assert SameButBuffered(h2[p], ScannedHeader(h0, Traced(h0, s0), p));
    } else {
      CountAfter(h0, s0, h2, p);
      FinalRefs(k, h, d, out, dead, p);
    }
  }

  lemma PhaseThreeDone(h0: Heap, s0: seq<Ptr>, h2: Heap, releasing: set<Ptr>, h: Heap, d: seq<nat>, e: seq<Ptr>, out: seq<Ptr>, dead: set<Ptr>)
    requires PhaseTwoOver(h0, s0, h2) && SweepInv(SweepOf(h0, s0, h2, releasing), h, d, e, {}, out, dead)
    requires e == Visits(h0, s0) && forall p | p in Garbage(h0, s0) :: p in e
    ensures Outcome(h0, s0, releasing, h, out, dead) && !TripsIn(SweepOf(h0, s0, h2, releasing), e)
  {
    var k := SweepOf(h0, s0, h2, releasing);
    SearchOver(k, e, out);
    forall p | p in out ensures p in Garbage(h0, s0) {
      var i: nat :| i < |e| && e[i] == p;
      assert EntryOk(k, e, {}, out, i);
    }
    DeadIsDestroyed(h0, s0, h2, releasing, h, d, out, dead);
    forall p: Ptr | Object(h0, p) ensures h[p] == Final(h0, s0, releasing, dead, p).(buffered := FlagAfter(h0, s0, dead, p)) {
      FinalHeader(h0, s0, h2, releasing, h, d, out, dead, p);
    }
    DistinctCount(out, Garbage(h0, s0));
  }
}
