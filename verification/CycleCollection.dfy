/** The Bacon-Rajan collector: trial deletion, scan, collection, over the heap of CycleHeap. */
module CycleCollection {
  import opened Graphs
  import opened References
  import opened CycleHeap
  import opened CycleTrial
  import opened CycleScan
  import opened CycleSweep
  import opened CycleFinalize
  import opened CycleVisits
  import opened CycleOutcome

  const DEFAULT_MAX_SUSPECTS := 4096

  class CycleCollector {
    var heap: Heap
    var suspects: seq<Ptr>
    var collecting: bool
    var collectedCount: nat
    var capacity: nat
    const enabled: bool
    /** The objects whose destructors release their fields. */
    const releasing: set<Ptr>
    /** The runtime has found an over-release and stopped the program. */
    var aborted: bool
    /** Phase 1: how many fields of each object are counted off. */
    ghost var done: seq<nat>
    /** Phase 3: the objects entered, those handed to `arc_cycle_collect`, the fields released so far, and the
        objects destroyed because these releases took their last count. */
    ghost var entered: seq<Ptr>
    ghost var collected: seq<Ptr>
    ghost var released: seq<nat>
    ghost var dead: set<Ptr>

    /** `cycle_gc_create_with_config` */
    constructor (h: Heap, releasing: set<Ptr>, maxSuspects: int, enabled: bool)
      ensures heap == h && this.releasing == releasing && suspects == [] && !collecting && !aborted
      ensures this.enabled == enabled && capacity == if maxSuspects > 0 then maxSuspects else 4096
    {
      heap, suspects, collecting, collectedCount := h, [], false, 0;
      capacity := if maxSuspects > 0 then maxSuspects else DEFAULT_MAX_SUSPECTS;
      this.releasing, aborted, this.enabled := releasing, false, enabled;
      done, entered, collected, released, dead := [], [], [], [], {};
    }

    // --- Suspects ---

    /** Whether the object is to be suspected: `cyclic` says that it has a scanner and is not marked acyclic. */
    predicate Suspectable(p: Ptr, cyclic: bool)
      requires p < |heap|
      reads this
    {
      enabled && p != NULL && cyclic && !heap[p].deallocating && heap[p].strong > 0 && !heap[p].buffered
    }

    /** `cycle_gc_add_suspect`; `grows` says whether a larger buffer can be had. */
    method AddSuspect(p: Ptr, cyclic: bool, grows: bool)
      requires p < |heap| && capacity > 0 && !aborted && (!collecting ==> CleanStart(heap, suspects))
      modifies this
      ensures var o, was := old(heap)[p], old(suspects);
        if !enabled || p == NULL || !cyclic || o.deallocating || o.strong <= 0 || o.buffered then
          heap == old(heap) && suspects == was && capacity == old(capacity) && !aborted
        else if |was| < old(capacity) || old(collecting) then
          && heap == old(heap)[p := o.(color := Purple, buffered := true)] && !aborted
          && suspects == was + (if |was| < old(capacity) || grows then [p] else [])
          && capacity == if |was| < old(capacity) || !grows then old(capacity) else 2 * old(capacity)
        else
          && (aborted <==> Aborts(Purpled(old(heap), p), was, releasing)) && capacity == old(capacity)
          && (!aborted ==> Outcome(Purpled(old(heap), p), was, releasing, heap, collected, dead) && suspects == [p])
      ensures !aborted ==> collecting == old(collecting)
    {
      if !Suspectable(p, cyclic) { return; }
      if !collecting { PurpledIsClean(heap, suspects, p); }
      heap := Purpled(heap, p);
      if |suspects| >= capacity {
        var _ := Collect();
        if aborted { return; }
        if |suspects| >= capacity {
          if !grows { return; }
          capacity := 2 * capacity;
        }
      }
      suspects := suspects + [p];
    }

    // --- Phase 1: trial deletion ---

    method MarkGray(p: Ptr, ghost h0: Heap, ghost bound: set<Ptr>)
      requires TrialInv(h0, heap, done, p) && p < |heap|
      requires Eligible(h0, p) && p in bound
      requires Closed(Edges(h0), bound) && Grays(heap) <= bound
      modifies `heap, `done
      ensures TrialInv(h0, heap, done, NULL)
      ensures Advances(h0, old(heap), old(done), heap, done, NULL)
      ensures IsGray(heap, p) && Grays(heap) <= bound
      decreases Ungrayed(heap), 0
    {
      if p == NULL || heap[p].deallocating { return; }
      if heap[p].color == Gray || heap[p].color == Green { return; }
      GrayStep(h0, heap, done, p);
      heap := heap[p := heap[p].(color := Gray)];
      VisitDecrement(p, h0, bound);
    }

    /** `header->scanner(p, cycle_scan_decrement)` */
    method VisitDecrement(p: Ptr, ghost h0: Heap, ghost bound: set<Ptr>)
      requires TrialInv(h0, heap, done, NULL) && IsGray(heap, p) && done[p] == 0
      requires Closed(Edges(h0), bound) && Grays(heap) <= bound
      modifies `heap, `done
      ensures TrialInv(h0, heap, done, NULL)
      ensures Advances(h0, old(heap), old(done), heap, done, p) && done[p] == |h0[p].scan|
      ensures Grays(heap) <= bound
      decreases Ungrayed(heap), 2
    {
      var fields := heap[p].scan;
      var i := 0;
      while i < |fields|
        invariant i <= |fields| == |h0[p].scan|
        invariant TrialInv(h0, heap, done, NULL) && IsGray(heap, p) && done[p] == i
        invariant Advances(h0, old(heap), old(done), heap, done, p)
        invariant Grays(heap) <= bound
      {
        assert Ungrayed(heap) <= Ungrayed(old(heap));
        ScanDecrement(fields[i], h0, p, bound);
        i := i + 1;
      }
    }

    ghost method SkipField(h0: Heap, u: Ptr)
      requires TrialInv(h0, heap, done, NULL) && IsGray(heap, u) && done[u] < |h0[u].scan|
      requires !Eligible(h0, h0[u].scan[done[u]])
      modifies `done
      ensures TrialInv(h0, heap, done, NULL)
      ensures Advances(h0, heap, old(done), heap, done, u) && done[u] == old(done[u]) + 1
    {
      SkipStep(h0, heap, done, u);
      done := done[u := done[u] + 1];
    }

    method ScanDecrement(f: Ptr, ghost h0: Heap, ghost u: Ptr, ghost bound: set<Ptr>)
      requires TrialInv(h0, heap, done, NULL) && IsGray(heap, u)
      requires done[u] < |h0[u].scan| && h0[u].scan[done[u]] == f
      requires Closed(Edges(h0), bound) && Grays(heap) <= bound
      modifies `heap, `done
      ensures TrialInv(h0, heap, done, NULL)
      ensures Advances(h0, old(heap), old(done), heap, done, u) && done[u] == old(done[u]) + 1
      ensures Grays(heap) <= bound
      decreases Ungrayed(heap), 1
    {
      if f == NULL || heap[f].deallocating || heap[f].color == Green {
        SkipField(h0, u);
        return;
      }
      ghost var before, d := heap, done;
      TakeOne(f, h0, u);
      MarkGray(f, h0, bound);
      AdvancesFromDecrement(h0, before, d, u, f, heap, done);
    }

    /** The count is taken down for the field of `u` next in turn. */
    method TakeOne(f: Ptr, ghost h0: Heap, ghost u: Ptr)
      requires TrialInv(h0, heap, done, NULL) && IsGray(heap, u)
      requires done[u] < |h0[u].scan| && h0[u].scan[done[u]] == f && Eligible(h0, f)
      modifies `heap, `done
      ensures Took(h0, old(heap), old(done), u, f, heap, done)
    {
      TakeStep(h0, heap, done, u, f);
      if heap[f].strong <= 0 { assert false; }
      heap, done := Decremented(heap, f), done[u := done[u] + 1];
    }

    /** Turning one valid suspect gray and scanning it. */
    method MarkRoot(p: Ptr, ghost h0: Heap, ghost bound: set<Ptr>)
      requires TrialInv(h0, heap, done, NULL) && Finished(h0, heap, done)
      requires Eligible(h0, p) && p < |heap| && heap[p].color != Gray && p in bound
      requires Closed(Edges(h0), bound) && Grays(heap) <= bound
      modifies `heap, `done
      ensures TrialInv(h0, heap, done, NULL) && Finished(h0, heap, done)
      ensures old(Grays(heap)) + {p} <= Grays(heap) <= bound && SameFlags(old(heap), heap)
    {
      GrayStepAt(h0, heap, done, p);
      heap := heap[p := heap[p].(color := Gray)];
      ghost var before, d := heap, done;
      VisitDecrement(p, h0, bound);
      FinishedAfter(h0, before, d, heap, done, p);
      GraysGrow(h0, before, d, heap, done, p);
      AdvancesKeepsFlags(h0, before, d, heap, done, p);
    }

    ghost predicate RootLoop(h0: Heap, s0: seq<Ptr>, i: nat)
      reads this
    {
      && CleanStart(h0, s0) && i <= |suspects| == |s0| && (forall j | i <= j < |s0| :: suspects[j] == s0[j])
      && TrialInv(h0, heap, done, NULL) && Finished(h0, heap, done)
      && RootsMarked(h0, s0, suspects, i, Grays(heap))
      && suspects[..i] == KeptRoots(h0, s0, i) && FlagsOk(h0, s0, suspects, heap, i)
    }

    /** One turn of the first loop of `cycle_gc_collect`. */
    method TraceSuspect(i: nat, ghost h0: Heap, ghost s0: seq<Ptr>)
      requires RootLoop(h0, s0, i) && i < |suspects|
      modifies `heap, `suspects, `done
      ensures RootLoop(h0, s0, i + 1)
    {
      ghost var s, h, grays := suspects, heap, Grays(heap);
      GraysAreReached(h0, s0, s, i, heap, done);
      TestSuspect(i, h0, s0);
      RootsMarkedStep(h0, s0, s, suspects, i, grays, Grays(heap));
      KeptRootsStep(h0, s0, s, suspects, i, grays);
      FlagsStep(h0, s0, s, suspects, h, heap, i);
    }

    method TestSuspect(i: nat, ghost h0: Heap, ghost s0: seq<Ptr>)
      requires RootLoop(h0, s0, i) && i < |suspects| && suspects[i] == s0[i]
      modifies `heap, `suspects, `done
      ensures TrialInv(h0, heap, done, NULL) && Finished(h0, heap, done) && old(Grays(heap)) <= Grays(heap)
      ensures suspects == old(suspects) || suspects == old(suspects)[i := NULL]
      ensures suspects[i] != NULL ==>
        && s0[i] in Roots(h0, s0) && s0[i] in Grays(heap)
        && Grays(heap) <= Reach(Edges(h0), KeptUpTo(old(suspects), i) + {s0[i]})
      ensures suspects[i] == NULL ==> Grays(heap) == old(Grays(heap)) && (s0[i] in Roots(h0, s0) ==> s0[i] in Grays(heap))
      ensures suspects[i] == if s0[i] in Roots(h0, s0) && s0[i] !in old(Grays(heap)) then s0[i] else NULL
      ensures suspects[i] == NULL && Object(old(heap), s0[i]) ==> heap == Unbuffered(old(heap), s0[i])
      ensures suspects[i] == NULL && !Object(old(heap), s0[i]) ==> heap == old(heap)
      ensures suspects[i] != NULL ==> SameFlags(old(heap), heap)
    {
      var obj := suspects[i];
      if obj == NULL { return; }
      RootTest(h0, s0, heap, done, obj);
      if !heap[obj].deallocating && heap[obj].color == Purple && heap[obj].strong > 0 {
        ghost var edges, seen := Edges(h0), KeptUpTo(suspects, i);
        ghost var bound := Reach(edges, seen + {obj});
        assert Closed(edges, bound) && obj in bound && Grays(heap) <= bound by {
          ReachIsClosed(edges, seen + {obj});
          ReachMonotone(edges, seen, seen + {obj});
          ReachContainsSources(edges, seen + {obj});
        }
        MarkRoot(obj, h0, bound);
      } else {
        ClearBuffered(h0, heap, done, obj);
        heap := Unbuffered(heap, obj);
        suspects := suspects[i := NULL];
      }
    }

    ghost method StartTrial(h0: Heap)
      requires heap == h0 && CleanStart(h0, suspects)
      modifies `done
      ensures RootLoop(h0, suspects, 0)
    {
      done := seq(|heap|, _ => 0);
      TrialStart(h0, suspects, done);
    }

    method TraceSuspects(ghost h0: Heap)
      requires heap == h0 && CleanStart(h0, suspects)
      modifies `heap, `suspects, `done
      ensures RootLoop(h0, old(suspects), |suspects|)
    {
      ghost var s0 := suspects;
      StartTrial(h0);
      var i := 0;
      while i < |suspects|
        invariant RootLoop(h0, s0, i)
      {
        TraceSuspect(i, h0, s0);
        i := i + 1;
      }
    }

    /** First loop of `cycle_gc_collect`. */
    method MarkRoots(ghost h0: Heap)
      requires heap == h0 && CleanStart(h0, suspects)
      modifies `heap, `suspects, `done
      ensures Marked(h0, Traced(h0, old(suspects)), heap, suspects)
      ensures |suspects| == |old(suspects)| && suspects == KeptRoots(h0, old(suspects), |suspects|)
      ensures FlagsOk(h0, old(suspects), suspects, heap, |suspects|)
    {
      TraceSuspects(h0);
      assert suspects[..|suspects|] == suspects;
      RootsAllMarked(h0, old(suspects), suspects, heap, done);
    }

    // --- Phase 2: scan ---

    method ScanRestore(f: Ptr, ghost h0: Heap, ghost traced: set<Ptr>, ghost restoring: set<Ptr>, ghost whitening: set<Ptr>,
        ghost b: set<Ptr>)
      requires ScanInv(h0, traced, heap, restoring, whitening) && f < |heap|
      requires Closed(Edges(h0), b) && (Eligible(h0, f) ==> f in SavedBy(h0, traced) && f in b)
      modifies `heap
      ensures ScanInv(h0, traced, heap, restoring, whitening) && Blackens(old(heap), heap, b)
      ensures Eligible(h0, f) ==> heap[f].color == Black
      decreases NotBlack(heap), 1
    {
      if f == NULL { return; }
      ShapeKept(h0, traced, heap, restoring, whitening, f);
      if heap[f].deallocating { return; }
      if heap[f].color == Black || heap[f].color == Green { return; }
      assert f in traced by { SavedIsTraced(h0, traced); }
      BlackStep(h0, traced, heap, restoring, whitening, f);
      heap := Blackened(heap, f);
      VisitRestore(f, h0, traced, restoring + {f}, whitening, b);
      RestoreDone(h0, traced, heap, restoring, whitening, f);
    }

    /** `header->scanner(p, cycle_scan_restore)` */
    method VisitRestore(p: Ptr, ghost h0: Heap, ghost traced: set<Ptr>, ghost restoring: set<Ptr>, ghost whitening: set<Ptr>,
        ghost b: set<Ptr>)
      requires ScanInv(h0, traced, heap, restoring, whitening)
      requires Object(heap, p) && p in SavedBy(h0, traced) && heap[p].color == Black
      requires Closed(Edges(h0), b) && p in b
      modifies `heap
      ensures ScanInv(h0, traced, heap, restoring, whitening) && Blackens(old(heap), heap, b)
      ensures BlackBelow(h0, heap, p)
      decreases NotBlack(heap), 3
    {
      ShapeKept(h0, traced, heap, restoring, whitening, p);
      var fields := heap[p].scan;
      var i := 0;
      while i < |fields|
        invariant i <= |fields| && fields == h0[p].scan
        invariant ScanInv(h0, traced, heap, restoring, whitening) && Blackens(old(heap), heap, b)
        invariant PrefixBlack(h0, heap, fields, i)
      {
        NotBlackShrinks(old(heap), heap, b);
        RestoreField(fields, i, h0, traced, restoring, whitening, p, b);
        i := i + 1;
      }
    }

    method RestoreField(fields: seq<Ptr>, i: nat, ghost h0: Heap, ghost traced: set<Ptr>, ghost restoring: set<Ptr>,
        ghost whitening: set<Ptr>, ghost p: Ptr, ghost b: set<Ptr>)
      requires ScanInv(h0, traced, heap, restoring, whitening)
      requires Object(h0, p) && p in SavedBy(h0, traced) && fields == h0[p].scan && i < |fields|
      requires PrefixBlack(h0, heap, fields, i) && Closed(Edges(h0), b) && p in b
      modifies `heap
      ensures ScanInv(h0, traced, heap, restoring, whitening) && Blackens(old(heap), heap, b)
      ensures PrefixBlack(h0, heap, fields, i + 1)
      decreases NotBlack(heap), 2
    {
      if Eligible(h0, fields[i]) { FieldOfSaved(h0, traced, p, fields[i], b); }
      ghost var before := heap;
      ScanRestore(fields[i], h0, traced, restoring, whitening, b);
      PrefixBlackStep(h0, before, heap, fields, i, b);
    }

    method ScanLive(p: Ptr, ghost h0: Heap, ghost traced: set<Ptr>, ghost whitening: set<Ptr>, ghost r: set<Ptr>, ghost b: set<Ptr>)
      requires ScanInv(h0, traced, heap, {}, whitening) && p < |heap|
      requires Bounds(h0, traced, r, b) && (Eligible(h0, p) ==> p in r)
      modifies `heap
      ensures ScanInv(h0, traced, heap, {}, whitening) && Recolors(old(heap), heap, b)
      ensures Eligible(h0, p) ==> heap[p].color != Gray
      decreases Grays(heap), 1
    {
      if p == NULL { return; }
      assert StateOk(h0, traced, heap, p);
      if heap[p].deallocating { return; }
      if heap[p].color != Gray { return; }
      if heap[p].strong > 0 {
        assert p in Held(h0, traced);
        SavedIsTraced(h0, traced);
        ScanRestore(p, h0, traced, {}, whitening, b);
        return;
      }
      WhiteStep(h0, traced, heap, whitening, p);
      heap := Whitened(heap, p);
      VisitLive(p, h0, traced, whitening + {p}, r, b);
    }

    /** `header->scanner(p, cycle_scan_live)` */
    method VisitLive(p: Ptr, ghost h0: Heap, ghost traced: set<Ptr>, ghost whitening: set<Ptr>, ghost r: set<Ptr>, ghost b: set<Ptr>)
      requires ScanInv(h0, traced, heap, {}, whitening) && Object(heap, p) && p in traced && heap[p].color != Gray
      requires Bounds(h0, traced, r, b) && p in r
      modifies `heap
      ensures ScanInv(h0, traced, heap, {}, whitening) && Recolors(old(heap), heap, b)
      ensures NoGrayBelow(h0, heap, p)
      decreases Grays(heap), 2
    {
      ShapeKept(h0, traced, heap, {}, whitening, p);
      var fields := heap[p].scan;
      var i := 0;
      while i < |fields|
        invariant i <= |fields| && fields == h0[p].scan
        invariant ScanInv(h0, traced, heap, {}, whitening) && Recolors(old(heap), heap, b)
        invariant PrefixNotGray(h0, heap, fields, i)
      {
        GraysShrink(old(heap), heap, b);
        ghost var before := heap;
        FieldInReach(h0, r, p, i);
        ScanLive(fields[i], h0, traced, whitening, r, b);
        PrefixNotGrayStep(h0, before, heap, fields, i, b);
        i := i + 1;
      }
    }

    /** One turn of the second loop of `cycle_gc_collect`. */
    method ScanSuspect(i: nat, ghost h0: Heap, ghost traced: set<Ptr>, ghost s0: seq<Ptr>, ghost h1: Heap)
      requires i < |suspects| && ScanState(h0, traced, s0, h1, heap, suspects, i)
      modifies `heap, `suspects
      ensures ScanState(h0, traced, s0, h1, heap, suspects, i + 1)
    {
      var obj := suspects[i];
      if obj == NULL {
        EmptyTurn(h0, traced, s0, h1, heap, suspects, i);
        return;
      }
      assert s0[i] in Kept(s0);
      ghost var h := heap;
      var black := ScanRoot(obj, i, h0, traced, s0, h1);
      TurnStep(h0, traced, s0, h1, h, suspects, i, heap, black);
      if black { suspects := suspects[i := NULL]; }
    }

    method ScanRoot(obj: Ptr, ghost i: nat, ghost h0: Heap, ghost traced: set<Ptr>, ghost s0: seq<Ptr>, ghost h1: Heap)
      returns (black: bool)
      requires ScanState(h0, traced, s0, h1, heap, suspects, i) && i < |s0| && s0[i] == obj
      requires obj != NULL && obj in traced && obj < |heap|
      modifies `heap
      ensures TurnOver(h0, traced, s0, i, old(heap), heap, black)
    {
      EarlyGrows(h0, traced, s0, i);
      ScanLive(obj, h0, traced, {}, Reach(Edges(h0), KeptUpTo(s0, i + 1)), Early(h0, traced, s0, i + 1));
      RootTurn(h0, traced, s0, h1, old(heap), suspects, i, heap);
      black := heap[obj].color == Black;
      if black { heap := Unbuffered(heap, obj); }
    }

    /** Second loop of `cycle_gc_collect`. */
    method ScanRoots(ghost h0: Heap, ghost traced: set<Ptr>)
      requires Marked(h0, traced, heap, suspects)
      modifies `heap, `suspects
      ensures Scanned(h0, traced, heap)
      ensures StillListed(h0, traced, old(suspects), suspects)
      ensures FlagsDropped(h0, traced, old(suspects), |old(suspects)|, old(heap), heap)
    {
      ghost var s0 := suspects;
      ScanStart(h0, traced, heap, suspects);
      var i := 0;
      while i < |suspects|
        invariant i <= |suspects| == |s0| && ScanState(h0, traced, s0, old(heap), heap, suspects, i)
      {
        ScanSuspect(i, h0, traced, s0, old(heap));
        i := i + 1;
      }
      PhaseTwoDone(h0, traced, heap, s0);
    }

    // --- Phase 3: collect ---

    /** `arc_header_is_finalized`, for a count of zero or less. */
    predicate IsFinalized(hd: Header) {
      hd.deallocating || hd.color == White || hd.color == Gray || hd.buffered
    }

    /** `arc_release_impl`, called by the destructor of `u` for its next field. The program stops at an
        over-release. */
    method ReleaseField(f: Ptr, ghost k: Sweep, ghost u: Ptr, ghost active: set<Ptr>, ghost dying: set<Ptr>)
      requires !aborted && k.releasing == releasing && Pending(k, active, collected)
      requires HeapInv(k, heap, released, active, collected, dead, dying) && AtField(k, released, dying, u, f)
      modifies `heap, `released, `dead, `aborted
      ensures aborted <==> f in active && f !in k.buffered
      ensures !aborted ==> HeapInv(k, heap, released, active, collected, dead, dying) && old(dead) <= dead
      ensures !aborted ==> released[u] == old(released[u]) + 1 && SameProgress(old(released), released, dying - {u})
      decreases Objects(k.h0) - dead, 0
    {
      if f == NULL {
        PassedOver(k, heap, released, active, collected, dead, dying, u, f);
        released := Advanced(released, u);
        return;
      }
      SeenHeader(k, heap, released, active, collected, dead, dying, f);
      if heap[f].strong <= 0 {
        if f !in k.white { CountedOrGone(k, heap, released, active, collected, dead, dying, u, f); }
        if !IsFinalized(heap[f]) {
          aborted := true;
          return;
        }
        PassedOver(k, heap, released, active, collected, dead, dying, u, f);
        released := Advanced(released, u);
        return;
      }
      if heap[f].strong == 1 && !heap[f].deallocating {
        LastOne(k, heap, released, active, collected, dead, dying, u, f);
        heap, released, dead := Killed(heap, f), Advanced(released, u), dead + {f};
        NoneStruck(k, f, active);
        FinalizeZeroStrong(f, k, active, dying + {f});
        assert (dying + {f}) - {f} == dying;
      } else {
        OneLess(k, heap, released, active, collected, dead, dying, u, f);
        heap, released := TakenOff(heap, f), Advanced(released, u);
      }
    }

    /** The destructor of `p`: releases its fields in the order the scanner visits them. */
    method RunDestructor(p: Ptr, ghost k: Sweep, ghost active: set<Ptr>, ghost dying: set<Ptr>)
      requires !aborted && k.releasing == releasing && Pending(k, active, collected) && p in releasing
      requires HeapInv(k, heap, released, active, collected, dead, dying) && p in dying && p < |released| && released[p] == 0
      modifies `heap, `released, `dead, `aborted
      ensures aborted <==> exists a :: a in active && StrikesIn(k, p, a)
      ensures !aborted ==> HeapInv(k, heap, released, active, collected, dead, dying) && old(dead) <= dead
      ensures !aborted ==> p < |k.h0| && released[p] == Released(k, p) && SameProgress(old(released), released, dying - {p})
      decreases Objects(k.h0) - dead, 1
    {
      DyingHeader(k, heap, released, active, collected, dead, dying, p);
      var fields := heap[p].scan;
      var i := 0;
      while i < |fields|
        invariant i <= |fields| && !aborted && p < |released| && released[p] == i
        invariant HeapInv(k, heap, released, active, collected, dead, dying) && old(dead) <= dead
        invariant SameProgress(old(released), released, dying - {p})
        invariant forall j | 0 <= j < i && fields[j] in active :: fields[j] in k.buffered
      {
        assert Objects(k.h0) - dead <= Objects(k.h0) - old(dead);
        ReleaseField(fields[i], k, p, active, dying);
        if aborted {
          assert StrikesIn(k, p, fields[i]);
          return;
        }
        i := i + 1;
      }
    }

    /** `arc_finalize_zero_strong` */
    method FinalizeZeroStrong(p: Ptr, ghost k: Sweep, ghost active: set<Ptr>, ghost dying: set<Ptr>)
      requires !aborted && k.releasing == releasing && Pending(k, active, collected)
      requires HeapInv(k, heap, released, active, collected, dead, dying) && p in dying && p < |released| && released[p] == 0
      modifies `heap, `released, `dead, `aborted
      ensures aborted <==> exists a :: a in active && StrikesIn(k, p, a)
      ensures !aborted ==> HeapInv(k, heap, released, active, collected, dead, dying - {p}) && old(dead) <= dead
      ensures !aborted ==> SameProgress(old(released), released, dying - {p})
      decreases Objects(k.h0) - dead, 2
    {
      DyingHeader(k, heap, released, active, collected, dead, dying, p);
      if p in releasing {
        RunDestructor(p, k, active, dying);
        if aborted { return; }
      }
      FinalizeEnds(k, heap, released, active, collected, dead, dying, p);
      heap := FinalizedAt(heap, p);
    }

    /** `arc_cycle_collect` on an object whose visit is over. */
    method ArcCycleCollect(p: Ptr, ghost k: Sweep, ghost active: set<Ptr>) returns (done: bool)
      requires !aborted && k.releasing == releasing && Pending(k, active, collected + [p]) && p !in active
      requires HeapInv(k, heap, released, active + {p}, collected, dead, {}) && p in k.white && p !in collected
      modifies `heap, `collected, `released, `dead, `aborted
      ensures aborted <==> exists a :: a in active && StrikesIn(k, p, a)
      ensures collected == old(collected) + [p]
      ensures !aborted ==> done && HeapInv(k, heap, released, active, collected, dead, {}) && old(dead) <= dead
    {
      FinalizeBegins(k, heap, released, active, collected, dead, p);
      if heap[p].strong > 0 { assert false; }
      if heap[p].deallocating { assert false; }
      heap := Struck(heap, p);
      collected := collected + [p];
      FinalizeZeroStrong(p, k, active, {p});
      assert {p} - {p} == {};
      return true;
    }

    method CollectWhite(p: Ptr, ghost k: Sweep, ghost active: set<Ptr>, ghost rest: seq<Ptr>)
      requires !aborted && k.releasing == releasing && p < |heap|
      requires SweepInv(k, heap, released, entered, active, collected, dead) && MayEnter(k, entered, active, p)
      modifies `heap, `entered, `collected, `collectedCount, `released, `dead, `aborted
      ensures aborted ==> TripsIn(k, OrderIn(k, old(entered), [p] + rest))
      ensures !aborted ==> SweepInv(k, heap, released, entered, active, collected, dead) && old(dead) <= dead
      ensures !aborted ==> Progress(k, active, old(entered), old(collected), entered, collected)
      ensures !aborted ==> OrderIn(k, old(entered), [p] + rest) == OrderIn(k, entered, rest)
      ensures !aborted ==> (p in k.white ==> p in entered)
      ensures !aborted ==> collectedCount == old(collectedCount) + |collected| - |old(collected)|
      decreases |k.white - Elems(entered)|, 0
    {
      WhiteTest(k, heap, released, entered, active, collected, dead, p, rest);
      if p == NULL || heap[p].deallocating || heap[p].color != White { return; }
      ghost var e, out := entered, collected;
      VisitStarts(k, heap, released, e, active, out, dead, p, rest);
      heap, entered := Recolored(heap, p), e + [p];
      VisitWhite(p, k, active + {p}, rest, |e|);
      if aborted { return; }
      FinishVisit(p, k, active, rest, e, out);
    }

    /** The end of `cycle_collect_white`. */
    method FinishVisit(p: Ptr, ghost k: Sweep, ghost active: set<Ptr>, ghost rest: seq<Ptr>, ghost e: seq<Ptr>, ghost out: seq<Ptr>)
      requires !aborted && k.releasing == releasing && p !in active && p !in e && p in k.white
      requires SweepInv(k, heap, released, entered, active + {p}, collected, dead) && ChildrenEntered(k, entered, p)
      requires Progress(k, active + {p}, e + [p], out, entered, collected) && forall a | a in active :: a in e
      modifies `heap, `collected, `collectedCount, `released, `dead, `aborted
      ensures aborted ==> TripsIn(k, OrderIn(k, entered, rest))
      ensures !aborted ==> SweepInv(k, heap, released, entered, active, collected, dead) && old(dead) <= dead
      ensures !aborted ==> Progress(k, active, e, out, entered, collected)
      ensures !aborted ==> collectedCount == old(collectedCount) + 1 && |collected| == |old(collected)| + 1
    {
      VisitEnds(k, e, out, entered, active, collected, p);
      ActiveIsPending(k, entered, active, collected + [p]);
      var gone := ArcCycleCollect(p, k, active);
      if aborted {
        EnteredEarlier(entered, e, active);
        StrikeTrips(k, entered, active, collected, |e|, rest);
        return;
      }
      if gone { collectedCount := collectedCount + 1; }
    }

    /** `header->scanner(p, cycle_collect_white)`; `p` is the `n`-th object entered. */
    method VisitWhite(p: Ptr, ghost k: Sweep, ghost active: set<Ptr>, ghost rest: seq<Ptr>, ghost n: nat)
      requires !aborted && k.releasing == releasing && Object(k.h0, p)
      requires SweepInv(k, heap, released, entered, active, collected, dead)
      requires Deepest(k, entered, active, n) && entered[n] == p
      modifies `heap, `entered, `collected, `collectedCount, `released, `dead, `aborted
      ensures aborted ==> TripsIn(k, OrderIn(k, old(entered), k.h0[p].scan + rest))
      ensures !aborted ==> SweepInv(k, heap, released, entered, active, collected, dead) && old(dead) <= dead
      ensures !aborted ==> Progress(k, active, old(entered), old(collected), entered, collected)
      ensures !aborted ==> OrderIn(k, old(entered), k.h0[p].scan + rest) == OrderIn(k, entered, rest)
      ensures !aborted ==> ChildrenEntered(k, entered, p)
      ensures !aborted ==> collectedCount == old(collectedCount) + |collected| - |old(collected)|
      decreases |k.white - Elems(entered)|, 1
    {
      ActiveHeader(k, heap, released, entered, active, collected, dead, p);
      var fields := heap[p].scan;
      RestEnds(fields, rest);
      var i := 0;
      while i < |fields|
        invariant i <= |fields| && !aborted && SweepInv(k, heap, released, entered, active, collected, dead) && old(dead) <= dead
        invariant Deepest(k, entered, active, n) && entered[n] == p
        invariant Progress(k, active, old(entered), old(collected), entered, collected)
        invariant OrderIn(k, old(entered), k.h0[p].scan + rest) == OrderIn(k, entered, Rest(fields, i, rest))
        invariant FieldsEntered(k, entered, fields, i)
        invariant collectedCount == old(collectedCount) + |collected| - |old(collected)|
      {
        ghost var e, out := entered, collected;
        ChildMayEnter(k, e, active, out, p, fields[i]);
        RestStep(fields, i, rest);
        FewerLeft(k, old(entered), e);
        CollectWhite(fields[i], k, active, Rest(fields, i + 1, rest));
        if aborted { return; }
        DeepestStays(k, e, entered, active, n);
        ProgressTrans(k, active, old(entered), old(collected), e, out, entered, collected);
        FieldsEnteredStep(k, e, entered, fields, i);
        i := i + 1;
      }
    }

    /** One turn of the third loop of `cycle_gc_collect`. */
    method SweepSuspect(obj: Ptr, ghost k: Sweep, ghost rest: seq<Ptr>) returns (count: nat)
      requires !aborted && k.releasing == releasing && obj < |heap|
      requires SweepInv(k, heap, released, entered, {}, collected, dead)
      modifies `heap, `entered, `collected, `collectedCount, `released, `dead, `aborted
      ensures aborted ==> TripsIn(k, OrderIn(k, old(entered), [obj] + rest))
      ensures !aborted ==> SweepInv(k, heap, released, entered, {}, collected, dead)
      ensures !aborted ==> old(entered) <= entered && (obj in k.white ==> obj in entered)
      ensures !aborted ==> OrderIn(k, old(entered), [obj] + rest) == OrderIn(k, entered, rest)
      ensures !aborted ==> count == |collected| - |old(collected)|
    {
      count := 0;
      WhiteTest(k, heap, released, entered, {}, collected, dead, obj, rest);
      if obj != NULL && (heap[obj].color == White || heap[obj].strong == 0) {
        collectedCount := 0;
        CollectWhite(obj, k, {}, rest);
        count := collectedCount;
      } else if obj != NULL {
        SeenHeader(k, heap, released, {}, collected, dead, {}, obj);
      }
    }

    /** Third loop of `cycle_gc_collect`. */
    method CollectListed(ghost k: Sweep) returns (total: nat)
      requires !aborted && k.releasing == releasing && entered == collected == []
      requires SweepInv(k, heap, released, entered, {}, collected, dead)
      requires forall j | 0 <= j < |suspects| :: suspects[j] < |heap|
      modifies `heap, `suspects, `entered, `collected, `collectedCount, `released, `dead, `aborted
      ensures aborted ==> TripsIn(k, OrderIn(k, [], old(suspects)))
      ensures !aborted ==> SweepInv(k, heap, released, entered, {}, collected, dead)
      ensures !aborted ==> entered == OrderIn(k, [], old(suspects)) && FieldsEntered(k, entered, old(suspects), |old(suspects)|)
      ensures !aborted ==> total == |collected|
    {
      ghost var listed := suspects;
      RestEnds(listed, []);
      assert listed + [] == listed;
      total := 0;
      var i := 0;
      while i < |suspects|
        invariant i <= |suspects| == |listed| && forall j | i <= j < |listed| :: suspects[j] == listed[j] < |heap|
        invariant !aborted && SweepInv(k, heap, released, entered, {}, collected, dead)
        invariant OrderIn(k, [], listed) == OrderIn(k, entered, Rest(listed, i, []))
        invariant FieldsEntered(k, entered, listed, i) && total == |collected|
      {
        ghost var e := entered;
        RestStep(listed, i, []);
        var count := SweepSuspect(suspects[i], k, Rest(listed, i + 1, []));
        if aborted { return; }
        SameLength(k, heap, released, entered, {}, collected, dead);
        FieldsEnteredStep(k, e, entered, listed, i);
        total := total + count;
        suspects := suspects[i := NULL];
        i := i + 1;
      }
    }

    ghost method StartSweep(h0: Heap, s0: seq<Ptr>)
      requires PhaseTwoOver(h0, s0, heap)
      modifies `entered, `collected, `released, `dead
      ensures entered == collected == [] && SweepInv(SweepOf(h0, s0, heap, releasing), heap, released, entered, {}, collected, dead)
    {
      SweepStart(h0, s0, heap, releasing);
      entered, collected, released, dead := [], [], Zeros(|heap|), {};
    }

    method CollectRoots(ghost h0: Heap, ghost s0: seq<Ptr>) returns (total: nat)
      requires !aborted && PhaseTwoOver(h0, s0, heap) && ListedReachAll(h0, s0)
      requires StillListed(h0, Traced(h0, s0), Listed(h0, s0), suspects)
      modifies `heap, `suspects, `entered, `collected, `collectedCount, `released, `dead, `aborted
      ensures aborted <==> Aborts(h0, s0, releasing)
      ensures !aborted ==> Outcome(h0, s0, releasing, heap, collected, dead) && total == |collected|
    {
      ghost var k, listed := SweepOf(h0, s0, heap, releasing), suspects;
      StartSweep(h0, s0);
      ListedIsOrdered(h0, s0, k, listed);
      total := CollectListed(k);
      if aborted { return; }
      ListedIsEntered(h0, s0, k, listed, entered);
      NothingWhiteLeft(h0, s0, k, Listed(h0, s0), entered, collected);
      PhaseThreeDone(h0, s0, k.h2, releasing, heap, released, entered, collected, dead);
    }

    /** The first two loops of `cycle_gc_collect`. */
    method MarkAndScan()
      requires CleanStart(heap, suspects) && !aborted
      modifies `heap, `suspects, `done
      ensures PhaseTwoOver(old(heap), old(suspects), heap) && ListedReachAll(old(heap), old(suspects))
      ensures StillListed(old(heap), Traced(old(heap), old(suspects)), Listed(old(heap), old(suspects)), suspects)
    {
      ghost var h0, s0 := heap, suspects;
      MarkRoots(h0);
      ghost var h1 := heap;
      ScanRoots(h0, Traced(h0, s0));
      BeforePhaseThree(h0, s0, h1, heap);
    }

    method RunPhases() returns (total: nat)
      requires CleanStart(heap, suspects) && !aborted && collecting
      modifies `heap, `suspects, `done, `entered, `collected, `collectedCount, `released, `dead, `aborted
      ensures aborted <==> Aborts(old(heap), old(suspects), releasing)
      ensures !aborted ==> Outcome(old(heap), old(suspects), releasing, heap, collected, dead) && total == |collected|
    {
      ghost var h0, s0 := heap, suspects;
      MarkAndScan();
      total := CollectRoots(h0, s0);
    }

    /** `cycle_gc_collect` */
    method Collect() returns (total: nat)
      requires !collecting ==> CleanStart(heap, suspects) && !aborted
      modifies this
      ensures capacity == old(capacity)
      ensures old(collecting) ==>
                total == 0 && heap == old(heap) && suspects == old(suspects) && collecting && aborted == old(aborted)
      ensures !old(collecting) ==> (aborted <==> Aborts(old(heap), old(suspects), releasing))
      ensures !old(collecting) && !aborted ==> Outcome(old(heap), old(suspects), releasing, heap, collected, dead)
      ensures !old(collecting) && !aborted ==> total == |collected| && suspects == [] && !collecting
    {
      if collecting { return 0; }
      collecting := true;
      total := RunPhases();
      if aborted { return; }
      suspects := [];
      collecting := false;
    }
  }
}
