/** Phase 1 of a cycle collection: what holds while trial decrements are being made. */
module CycleTrial {
  import opened Graphs
  import opened References
  import opened CycleHeap

  predicate IsGray(h: Heap, p: Ptr) {
    Object(h, p) && h[p].color == Gray
  }

  ghost predicate SameShape(h0: Heap, h: Heap) {
    && |h| == |h0|
    && forall p: Ptr | Object(h0, p) ::
         && h[p].scan == h0[p].scan && h[p].deallocating == h0[p].deallocating
         && (h[p].color == Green <==> h0[p].color == Green)
  }

  ghost predicate ColorOk(h0: Heap, h: Heap, done: seq<nat>, p: Ptr)
    requires p < |h0| == |h| == |done|
  {
    if h[p].color == Gray then Eligible(h0, p) && done[p] <= |h0[p].scan|
    else done[p] == 0 && h[p].color == h0[p].color
  }

  ghost predicate CountOk(h0: Heap, h: Heap, done: seq<nat>, p: Ptr)
    requires p < |h0| == |h| == |done|
  {
    h[p].strong == h0[p].strong - (if Eligible(h0, p) then Refs(h0, done, p, |h0|) else 0)
  }

  /** The fields counted for `u` lead to gray objects, `pending` aside. */
  ghost predicate FieldsGray(h0: Heap, h: Heap, done: seq<nat>, u: Ptr, pending: Ptr)
    requires u < |h0| == |h| == |done|
  {
    forall i: nat | i < done[u] && i < |h0[u].scan| :: LeadsToGray(h0, h, h0[u].scan[i], pending)
  }

  ghost predicate LeadsToGray(h0: Heap, h: Heap, f: Ptr, pending: Ptr) {
    Eligible(h0, f) && f != pending ==> IsGray(h, f)
  }

  /** `done[u]` counts the fields of `u` whose trial decrement is made, so every count is exact at
      every moment of the recursion. */
  ghost predicate TrialInv(h0: Heap, h: Heap, done: seq<nat>, pending: Ptr) {
    && PointersValid(h0) && CountsCoverRefs(h0)
    && SameShape(h0, h) && |done| == |h|
    && (forall p: Ptr | Object(h, p) :: ColorOk(h0, h, done, p))
    && (forall p: Ptr | Object(h, p) :: CountOk(h0, h, done, p))
    && (forall u: Ptr | Object(h, u) :: FieldsGray(h0, h, done, u, pending))
  }

  /** What a piece of the traversal may do: objects gray before keep their progress (`except` is the one
      being advanced), objects turned gray meanwhile are finished. */
  ghost predicate Advances(h0: Heap, h: Heap, d: seq<nat>, h': Heap, d': seq<nat>, except: Ptr) {
    && |h0| == |h| == |h'| == |d| == |d'|
    && forall p: Ptr | Object(h0, p) :: ObjectAdvances(h0, h, d, h', d', except, p)
  }

  ghost predicate ObjectAdvances(h0: Heap, h: Heap, d: seq<nat>, h': Heap, d': seq<nat>, except: Ptr, p: Ptr)
    requires p < |h0| == |h| == |h'| == |d| == |d'|
  {
    && h[p].buffered == h'[p].buffered
    && (h[p].color == Gray ==> h'[p].color == Gray && (p != except ==> d'[p] == d[p]))
    && (h[p].color != Gray && h'[p].color == Gray && p != except ==> d'[p] == |h0[p].scan|)
  }

  ghost function Ungrayed(h: Heap): set<Ptr> {
    set p: Ptr | p < |h| && Object(h, p) && !IsGray(h, p)
  }

  ghost function Grays(h: Heap): set<Ptr> {
    set p: Ptr | p < |h| && IsGray(h, p)
  }

  lemma GrayStep(h0: Heap, h: Heap, done: seq<nat>, p: Ptr)
    requires TrialInv(h0, h, done, p) && Eligible(h0, p) && h[p].color != Gray
    ensures var h' := h[p := h[p].(color := Gray)];
      && TrialInv(h0, h', done, NULL) && Advances(h0, h, done, h', done, p)
      && Ungrayed(h') == Ungrayed(h) - {p} && Grays(h') == Grays(h) + {p}
  {
    var h' := h[p := h[p].(color := Gray)];
    assert ColorOk(h0, h, done, p);
    forall q: Ptr | Object(h', q) ensures ColorOk(h0, h', done, q) && CountOk(h0, h', done, q) {
      assert ColorOk(h0, h, done, q) && CountOk(h0, h, done, q);
    }
    forall u: Ptr | Object(h', u) ensures FieldsGray(h0, h', done, u, NULL) {
      assert FieldsGray(h0, h, done, u, p);
      forall i: nat | i < done[u] && i < |h0[u].scan| ensures LeadsToGray(h0, h', h0[u].scan[i], NULL) {
        assert LeadsToGray(h0, h, h0[u].scan[i], p);
      }
    }
  }

  lemma SkipStep(h0: Heap, h: Heap, done: seq<nat>, u: Ptr)
    requires TrialInv(h0, h, done, NULL) && IsGray(h, u) && done[u] < |h0[u].scan|
    requires !Eligible(h0, h0[u].scan[done[u]])
    ensures TrialInv(h0, h, done[u := done[u] + 1], NULL) && Advances(h0, h, done, h, done[u := done[u] + 1], u)
  {
    var d' := done[u := done[u] + 1];
    forall q: Ptr | Object(h, q)
      ensures ColorOk(h0, h, d', q) && CountOk(h0, h, d', q) && FieldsGray(h0, h, d', q, NULL)
    {
      SkipAt(h0, h, done, u, q);
    }
  }

  lemma SkipAt(h0: Heap, h: Heap, done: seq<nat>, u: Ptr, q: Ptr)
    requires TrialInv(h0, h, done, NULL) && IsGray(h, u) && done[u] < |h0[u].scan|
    requires !Eligible(h0, h0[u].scan[done[u]]) && Object(h, q)
    ensures var d' := done[u := done[u] + 1]; ColorOk(h0, h, d', q) && CountOk(h0, h, d', q) && FieldsGray(h0, h, d', q, NULL)
  {
    assert ColorOk(h0, h, done, q) && CountOk(h0, h, done, q) && FieldsGray(h0, h, done, q, NULL);
    RefsBump(h0, done, u, q, |h0|);
  }

  /** `header->strong_count--` */
  function Decremented(h: Heap, f: Ptr): (h': Heap)
    requires Object(h, f)
    ensures |h'| == |h|
    ensures forall q: Ptr | q < |h| :: h'[q] == if q == f then h[f].(strong := h[f].strong - 1) else h[q]
  {
    h[f := h[f].(strong := h[f].strong - 1)]
  }

  /** Counting field `done[u]` of `u` matches taking one off the object it holds. */
  lemma DecrementCounts(h0: Heap, h: Heap, done: seq<nat>, u: Ptr, f: Ptr, q: Ptr)
    requires |h0| == |h| == |done| && Object(h0, u) && done[u] < |h0[u].scan| && h0[u].scan[done[u]] == f
    requires Eligible(h0, f) && Object(h0, q) && CountOk(h0, h, done, q)
    ensures CountOk(h0, Decremented(h, f), done[u := done[u] + 1], q)
  {
    RefsBump(h0, done, u, q, |h0|);
  }

  lemma DecrementFields(h0: Heap, h: Heap, done: seq<nat>, u: Ptr, f: Ptr, q: Ptr)
    requires |h0| == |h| == |done| && Object(h0, u) && done[u] < |h0[u].scan| && h0[u].scan[done[u]] == f
    requires Eligible(h0, f) && Object(h0, q) && FieldsGray(h0, h, done, q, NULL)
    ensures FieldsGray(h0, Decremented(h, f), done[u := done[u] + 1], q, f)
  {
    var h', d' := Decremented(h, f), done[u := done[u] + 1];
    forall i: nat | i < d'[q] && i < |h0[q].scan| ensures LeadsToGray(h0, h', h0[q].scan[i], f) {
      if i < done[q] { assert LeadsToGray(h0, h, h0[q].scan[i], NULL); }
    }
  }

  lemma CountStaysPositive(h0: Heap, h: Heap, done: seq<nat>, u: Ptr, f: Ptr)
    requires TrialInv(h0, h, done, NULL) && IsGray(h, u) && done[u] < |h0[u].scan|
    requires h0[u].scan[done[u]] == f && Eligible(h0, f)
    ensures h[f].strong > 0
  {
    forall v | 0 < v < |h| ensures done[v] <= |h0[v].scan| {
      assert Object(h, v) && ColorOk(h0, h, done, v);
    }
    RefsLeaveRoom(h0, done, u);
    assert CountOk(h0, h, done, f);
  }

  lemma DecrementStep(h0: Heap, h: Heap, done: seq<nat>, u: Ptr, f: Ptr)
    requires TrialInv(h0, h, done, NULL) && IsGray(h, u) && done[u] < |h0[u].scan|
    requires h0[u].scan[done[u]] == f && Eligible(h0, f)
    ensures TrialInv(h0, Decremented(h, f), done[u := done[u] + 1], f)
    ensures Ungrayed(Decremented(h, f)) == Ungrayed(h)
    ensures Grays(Decremented(h, f)) == Grays(h)
    ensures f in Edges(h0)[u] && u in Grays(h)
  {
    var h', d' := Decremented(h, f), done[u := done[u] + 1];
    forall q: Ptr | Object(h', q)
      ensures ColorOk(h0, h', d', q) && CountOk(h0, h', d', q) && FieldsGray(h0, h', d', q, f)
    {
      DecrementAt(h0, h, done, u, f, q);
    }
    SameColors(h, h');
  }

  /** What counting field `done[u]` off its object does. */
  ghost predicate Took(h0: Heap, h: Heap, done: seq<nat>, u: Ptr, f: Ptr, h': Heap, done': seq<nat>) {
    && Object(h, f) && h[f].strong > 0 && h' == Decremented(h, f)
    && u < |done| && done' == done[u := done[u] + 1] && TrialInv(h0, h', done', f)
    && u < |Edges(h0)| && f in Edges(h0)[u] && u in Grays(h') && Ungrayed(h') == Ungrayed(h) && Grays(h') == Grays(h)
  }

  lemma TakeStep(h0: Heap, h: Heap, done: seq<nat>, u: Ptr, f: Ptr)
    requires TrialInv(h0, h, done, NULL) && IsGray(h, u) && done[u] < |h0[u].scan|
    requires h0[u].scan[done[u]] == f && Eligible(h0, f)
    ensures Took(h0, h, done, u, f, Decremented(h, f), done[u := done[u] + 1])
  {
    CountStaysPositive(h0, h, done, u, f);
    DecrementStep(h0, h, done, u, f);
  }

  lemma DecrementAt(h0: Heap, h: Heap, done: seq<nat>, u: Ptr, f: Ptr, q: Ptr)
    requires TrialInv(h0, h, done, NULL) && IsGray(h, u) && done[u] < |h0[u].scan|
    requires h0[u].scan[done[u]] == f && Eligible(h0, f) && Object(h, q)
    ensures var h', d' := Decremented(h, f), done[u := done[u] + 1];
      ColorOk(h0, h', d', q) && CountOk(h0, h', d', q) && FieldsGray(h0, h', d', q, f)
  {
    assert ColorOk(h0, h, done, q) && CountOk(h0, h, done, q) && FieldsGray(h0, h, done, q, NULL);
    DecrementCounts(h0, h, done, u, f, q);
    DecrementFields(h0, h, done, u, f, q);
  }

  lemma SameColors(h: Heap, h': Heap)
    requires |h'| == |h| && forall q: Ptr | q < |h| :: h'[q].color == h[q].color
    ensures Grays(h') == Grays(h) && Ungrayed(h') == Ungrayed(h)
  {
  }

  lemma AdvancesFromDecrement(h0: Heap, h: Heap, d: seq<nat>, u: Ptr, f: Ptr, h2: Heap, d2: seq<nat>)
    requires |h0| == |h| == |d| && IsGray(h, u) && Object(h, f)
    requires Advances(h0, Decremented(h, f), d[u := d[u] + 1], h2, d2, NULL)
    ensures Advances(h0, h, d, h2, d2, u) && d2[u] == d[u] + 1
  {
    forall p: Ptr | Object(h0, p) ensures ObjectAdvances(h0, h, d, h2, d2, u, p) {
      assert ObjectAdvances(h0, Decremented(h, f), d[u := d[u] + 1], h2, d2, NULL, p);
    }
    assert ObjectAdvances(h0, Decremented(h, f), d[u := d[u] + 1], h2, d2, NULL, u);
  }

  // --- What phase 1 leaves behind ---

  ghost predicate Finished(h0: Heap, h: Heap, done: seq<nat>)
    requires |h0| == |h| == |done|
  {
    forall p: Ptr | IsGray(h, p) :: done[p] == |h0[p].scan|
  }

  ghost function Kept(suspects: seq<Ptr>): set<Ptr> {
    set p | p in suspects && p != NULL
  }

  ghost predicate CleanStart(h: Heap, suspects: seq<Ptr>) {
    && PointersValid(h) && CountsCoverRefs(h)
    && (forall p: Ptr | Object(h, p) :: h[p].color != Gray && h[p].color != White)
    && (forall p | p in suspects :: p < |h|)
  }

  /** `header->color = ARC_COLOR_PURPLE; header->flags |= ARC_FLAG_BUFFERED` */
  function Purpled(h: Heap, p: Ptr): (h': Heap)
    requires Object(h, p)
    ensures |h'| == |h|
  {
    h[p := h[p].(color := Purple, buffered := true)]
  }

  lemma {:induction false} RefsByScan(h: Heap, h': Heap, n: Ptr, k: nat)
    requires k <= |h| == |h'| && forall u | 0 < u < |h| :: h'[u].scan == h[u].scan
    ensures Refs(h', FieldsOf(h', Objects(h')), n, k) == Refs(h, FieldsOf(h, Objects(h)), n, k)
  {
    if k > 1 { RefsByScan(h, h', n, k - 1); }
  }

  /** Suspecting an object leaves the heap fit for a collection. */
  lemma PurpledIsClean(h: Heap, suspects: seq<Ptr>, p: Ptr)
    requires CleanStart(h, suspects) && Object(h, p)
    ensures CleanStart(Purpled(h, p), suspects)
  {
    var h' := Purpled(h, p);
    forall n: Ptr | Object(h', n) && !h'[n].deallocating ensures h'[n].strong >= InRefs(h', n) { RefsByScan(h, h', n, |h|); }
  }

  /** Header of `p` once phase 1 has turned `traced` gray. */
  ghost function Trialed(h0: Heap, traced: set<Ptr>, p: Ptr): Header
    requires p < |h0|
  {
    if p in traced then h0[p].(color := Gray, strong := Trial(h0, traced, p)) else h0[p]
  }

  ghost predicate Marked(h0: Heap, traced: set<Ptr>, h: Heap, suspects: seq<Ptr>) {
    && |h| == |h0| && PointersValid(h0) && CountsCoverRefs(h0)
    && (forall p | p in traced :: Eligible(h0, p))
    && traced == Reach(Edges(h0), Kept(suspects)) && Kept(suspects) <= traced
    && (forall p | p in suspects :: p < |h0|)
    && (forall p: Ptr | Object(h0, p) :: h0[p].color != Gray && h0[p].color != White)
    && forall p: Ptr | Object(h0, p) :: SameButBuffered(h[p], Trialed(h0, traced, p))
  }

  /** An object not reached has its own count still. */
  lemma CountUntouched(h0: Heap, h: Heap, done: seq<nat>, p: Ptr)
    requires TrialInv(h0, h, done, NULL) && Object(h, p) && !IsGray(h, p)
    ensures h[p].strong == h0[p].strong
  {
    assert CountOk(h0, h, done, p);
    if Eligible(h0, p) {
      forall u, i | 0 < u < |h0| && 0 <= i < done[u] && i < |h0[u].scan| ensures h0[u].scan[i] != p {
        assert Object(h, u) && FieldsGray(h0, h, done, u, NULL);
        assert LeadsToGray(h0, h, h0[u].scan[i], NULL);
      }
      RefsZero(h0, done, p, |h0|);
    }
  }

  lemma GraysAreClosed(h0: Heap, h: Heap, done: seq<nat>)
    requires TrialInv(h0, h, done, NULL) && Finished(h0, h, done)
    ensures Closed(Edges(h0), Grays(h))
  {
    forall u, v | u in Grays(h) && v in Edges(h0)[u] ensures v in Grays(h) {
      assert FieldsGray(h0, h, done, u, NULL);
      var i: nat :| i < |h0[u].scan| && h0[u].scan[i] == v;
      assert LeadsToGray(h0, h, h0[u].scan[i], NULL);
    }
  }

  lemma CountIsTrial(h0: Heap, h: Heap, done: seq<nat>, p: Ptr)
    requires TrialInv(h0, h, done, NULL) && Finished(h0, h, done) && IsGray(h, p)
    ensures h[p].strong == Trial(h0, Grays(h), p) && Eligible(h0, p)
  {
    assert CountOk(h0, h, done, p) && ColorOk(h0, h, done, p);
    var e := FieldsOf(h0, Grays(h));
    forall u | 0 < u < |h0| ensures done[u] == e[u] {
      assert Object(h, u) && ColorOk(h0, h, done, u);
    }
    RefsAgree(h0, done, e, p, |h0|);
  }

  lemma TrialStart(h0: Heap, suspects: seq<Ptr>, done: seq<nat>)
    requires CleanStart(h0, suspects) && |done| == |h0| && forall k | 0 <= k < |done| :: done[k] == 0
    ensures TrialInv(h0, h0, done, NULL) && Finished(h0, h0, done) && Grays(h0) == {}
  {
    forall p: Ptr | Object(h0, p) ensures CountOk(h0, h0, done, p) {
      RefsZero(h0, done, p, |h0|);
    }
  }

  lemma ClearBuffered(h0: Heap, h: Heap, done: seq<nat>, p: Ptr)
    requires TrialInv(h0, h, done, NULL) && Finished(h0, h, done) && Object(h, p)
    ensures TrialInv(h0, Unbuffered(h, p), done, NULL) && Finished(h0, Unbuffered(h, p), done)
    ensures Grays(Unbuffered(h, p)) == Grays(h)
  {
    var h' := Unbuffered(h, p);
    forall q: Ptr | Object(h', q)
      ensures ColorOk(h0, h', done, q) && CountOk(h0, h', done, q) && FieldsGray(h0, h', done, q, NULL)
    {
      assert ColorOk(h0, h, done, q) && CountOk(h0, h, done, q) && FieldsGray(h0, h, done, q, NULL);
      forall i: nat | i < done[q] && i < |h0[q].scan| ensures LeadsToGray(h0, h', h0[q].scan[i], NULL) {
        assert LeadsToGray(h0, h, h0[q].scan[i], NULL);
      }
    }
  }

  /** A suspect not gray yet passes the test of the loop just when it was a root to begin with. */
  lemma RootTest(h0: Heap, s0: seq<Ptr>, h: Heap, done: seq<nat>, p: Ptr)
    requires TrialInv(h0, h, done, NULL) && p in s0 && Object(h, p) && CleanStart(h0, s0)
    ensures (!h[p].deallocating && h[p].color == Purple && h[p].strong > 0) <==> (p in Roots(h0, s0) && !IsGray(h, p))
  {
    assert ColorOk(h0, h, done, p);
    if !IsGray(h, p) { CountUntouched(h0, h, done, p); }
  }

  lemma FinishedAfter(h0: Heap, h: Heap, d: seq<nat>, h': Heap, d': seq<nat>, p: Ptr)
    requires TrialInv(h0, h, d, NULL) && Advances(h0, h, d, h', d', p) && Object(h, p) && d'[p] == |h0[p].scan|
    requires forall q: Ptr | IsGray(h, q) && q != p :: d[q] == |h0[q].scan|
    ensures Finished(h0, h', d')
  {
    forall q: Ptr | IsGray(h', q) ensures d'[q] == |h0[q].scan| {
      assert ObjectAdvances(h0, h, d, h', d', p, q);
    }
  }

  lemma PhaseOneDone(h0: Heap, h: Heap, done: seq<nat>, suspects: seq<Ptr>)
    requires TrialInv(h0, h, done, NULL) && Finished(h0, h, done)
    requires CleanStart(h0, suspects)
    requires Kept(suspects) <= Grays(h) <= Reach(Edges(h0), Kept(suspects))
    ensures Marked(h0, Grays(h), h, suspects)
  {
    GraysAreClosed(h0, h, done);
    ReachIsLeast(Edges(h0), Kept(suspects), Grays(h));
    forall p: Ptr | Object(h0, p)
      ensures SameButBuffered(h[p], Trialed(h0, Grays(h), p)) && (p in Grays(h) ==> Eligible(h0, p))
    {
      assert ColorOk(h0, h, done, p);
      if IsGray(h, p) { CountIsTrial(h0, h, done, p); } else { CountUntouched(h0, h, done, p); }
    }
  }

  lemma GrayStepAt(h0: Heap, h: Heap, done: seq<nat>, p: Ptr)
    requires TrialInv(h0, h, done, NULL) && Eligible(h0, p) && p < |h| && h[p].color != Gray
    ensures var h' := h[p := h[p].(color := Gray)];
      && TrialInv(h0, h', done, NULL) && done[p] == 0 && Grays(h') == Grays(h) + {p}
      && forall q: Ptr | IsGray(h', q) && q != p :: IsGray(h, q)
  {
    forall u: Ptr | Object(h, u) ensures FieldsGray(h0, h, done, u, p) {
      assert FieldsGray(h0, h, done, u, NULL);
      forall i: nat | i < done[u] && i < |h0[u].scan| ensures LeadsToGray(h0, h, h0[u].scan[i], p) {
        assert LeadsToGray(h0, h, h0[u].scan[i], NULL);
      }
    }
    assert ColorOk(h0, h, done, p);
    GrayStep(h0, h, done, p);
  }

  lemma GraysGrow(h0: Heap, h: Heap, d: seq<nat>, h': Heap, d': seq<nat>, x: Ptr)
    requires Advances(h0, h, d, h', d', x)
    ensures Grays(h) <= Grays(h')
  {
    forall q | q in Grays(h) ensures q in Grays(h') {
      assert ObjectAdvances(h0, h, d, h', d', x, q);
    }
  }

  /** What is left of the first `i` suspects. */
  ghost function KeptUpTo(s: seq<Ptr>, i: nat): set<Ptr>
    requires i <= |s|
  {
    set j | 0 <= j < i && s[j] != NULL :: s[j]
  }

  /** After `i` turns of the loop, which started from `s0`. */
  ghost predicate RootsMarked(h0: Heap, s0: seq<Ptr>, s: seq<Ptr>, i: nat, grays: set<Ptr>) {
    && i <= |s| == |s0|
    && (forall j | 0 <= j < i :: s[j] == NULL || (s[j] == s0[j] && s[j] in Roots(h0, s0)))
    && (forall j | 0 <= j < i :: s0[j] in Roots(h0, s0) ==> s0[j] in grays)
    && KeptUpTo(s, i) <= grays <= Reach(Edges(h0), KeptUpTo(s, i))
  }

  lemma KeptStep(s: seq<Ptr>, s': seq<Ptr>, i: nat)
    requires i < |s| == |s'| && forall j | 0 <= j < i :: s'[j] == s[j]
    ensures KeptUpTo(s', i + 1) == KeptUpTo(s, i) + (if s'[i] == NULL then {} else {s'[i]})
  {
    forall p | p in KeptUpTo(s, i) ensures p in KeptUpTo(s', i + 1) {
      var j :| 0 <= j < i && s[j] != NULL && s[j] == p;
      assert s'[j] == p;
    }
  }

  lemma RootsMarkedStep(h0: Heap, s0: seq<Ptr>, s: seq<Ptr>, s': seq<Ptr>, i: nat, grays: set<Ptr>, grays': set<Ptr>)
    requires RootsMarked(h0, s0, s, i, grays) && i < |s0| && grays <= grays' && s[i] == s0[i]
    requires s' == s || s' == s[i := NULL]
    requires s'[i] != NULL ==>
      s0[i] in Roots(h0, s0) && s0[i] in grays' && grays' <= Reach(Edges(h0), KeptUpTo(s, i) + {s0[i]})
    requires s'[i] == NULL ==> grays' == grays && (s0[i] in Roots(h0, s0) ==> s0[i] in grays)
    ensures RootsMarked(h0, s0, s', i + 1, grays')
  {
    KeptStep(s, s', i);
    KeptBounds(Edges(h0), KeptUpTo(s, i), KeptUpTo(s', i + 1), grays, grays', s'[i]);
  }

  lemma KeptBounds(g: Graph, kept: set<Ptr>, kept': set<Ptr>, grays: set<Ptr>, grays': set<Ptr>, x: Ptr)
    requires kept <= grays <= Reach(g, kept) && grays <= grays' && kept' == kept + (if x == NULL then {} else {x})
    requires if x == NULL then grays' == grays else x in grays' && grays' <= Reach(g, kept + {x})
    ensures kept' <= grays' <= Reach(g, kept')
  {
    if x == NULL { assert kept' == kept; }
  }

  /** The list of suspects after `i` turns: a suspect stays if it was a root and nothing kept before it leads
      to it; the others are struck off. */
  ghost function KeptRoots(h: Heap, s0: seq<Ptr>, i: nat): (s: seq<Ptr>)
    requires i <= |s0|
    ensures |s| == i
  {
    if i == 0 then []
    else
      var s := KeptRoots(h, s0, i - 1);
      var p := s0[i - 1];
      s + [if p in Roots(h, s0) && p !in Reach(Edges(h), KeptUpTo(s, i - 1)) then p else NULL]
  }

  lemma GraysAreReached(h0: Heap, s0: seq<Ptr>, s: seq<Ptr>, i: nat, h: Heap, done: seq<nat>)
    requires TrialInv(h0, h, done, NULL) && Finished(h0, h, done) && RootsMarked(h0, s0, s, i, Grays(h))
    ensures Grays(h) == Reach(Edges(h0), KeptUpTo(s, i))
  {
    GraysAreClosed(h0, h, done);
    ReachIsLeast(Edges(h0), KeptUpTo(s, i), Grays(h));
  }

  lemma KeptRootsStep(h0: Heap, s0: seq<Ptr>, s: seq<Ptr>, s': seq<Ptr>, i: nat, grays: set<Ptr>)
    requires i < |s| == |s0| && s[..i] == KeptRoots(h0, s0, i) && grays == Reach(Edges(h0), KeptUpTo(s, i))
    requires s' == s || s' == s[i := NULL]
    requires s'[i] == if s0[i] in Roots(h0, s0) && s0[i] !in grays then s0[i] else NULL
    ensures s'[..i + 1] == KeptRoots(h0, s0, i + 1)
  {
    assert KeptUpTo(s[..i], i) == KeptUpTo(s, i);
    assert s'[..i + 1] == s[..i] + [s'[i]];
  }

  // --- The flags of the suspects ---

  ghost predicate StruckOff(s0: seq<Ptr>, s: seq<Ptr>, i: nat, p: Ptr) {
    exists j: nat :: j < i && j < |s0| && j < |s| && s0[j] == p && s[j] == NULL
  }

  /** An object loses its flag when it is struck off the list. */
  ghost predicate FlagsOk(h0: Heap, s0: seq<Ptr>, s: seq<Ptr>, h: Heap, i: nat) {
    |h| == |h0| && forall p: Ptr | Object(h0, p) :: h[p].buffered == (h0[p].buffered && !StruckOff(s0, s, i, p))
  }

  ghost predicate SameFlags(h: Heap, h': Heap) {
    |h| == |h'| && forall p: Ptr | Object(h, p) :: h'[p].buffered == h[p].buffered
  }

  lemma AdvancesKeepsFlags(h0: Heap, h: Heap, d: seq<nat>, h': Heap, d': seq<nat>, except: Ptr)
    requires Advances(h0, h, d, h', d', except)
    ensures SameFlags(h, h')
  {
    forall p: Ptr | Object(h, p) ensures h'[p].buffered == h[p].buffered {
      assert ObjectAdvances(h0, h, d, h', d', except, p);
    }
  }

  lemma FlagsStep(h0: Heap, s0: seq<Ptr>, s: seq<Ptr>, s': seq<Ptr>, h: Heap, h': Heap, i: nat)
    requires FlagsOk(h0, s0, s, h, i) && i < |s| == |s0| == |s'| && (s' == s || s' == s[i := NULL])
    requires s'[i] == NULL && Object(h, s0[i]) ==> h' == Unbuffered(h, s0[i])
    requires s'[i] == NULL && !Object(h, s0[i]) ==> h' == h
    requires s'[i] != NULL ==> SameFlags(h, h')
    ensures FlagsOk(h0, s0, s', h', i + 1)
  {
    forall p: Ptr | Object(h0, p) ensures h'[p].buffered == (h0[p].buffered && !StruckOff(s0, s', i + 1, p)) {
      if StruckOff(s0, s, i, p) {
        var j: nat :| j < i && s0[j] == p && s[j] == NULL;
        assert s'[j] == NULL;
      }
      if StruckOff(s0, s', i + 1, p) {
        var j: nat :| j < i + 1 && s0[j] == p && s'[j] == NULL;
        assert j < i ==> s[j] == NULL;
      }
      assert p == s0[i] && s'[i] == NULL ==> StruckOff(s0, s', i + 1, p);
    }
  }

  lemma KeptAreRoots(h0: Heap, s0: seq<Ptr>, s: seq<Ptr>, grays: set<Ptr>)
    requires CleanStart(h0, s0) && RootsMarked(h0, s0, s, |s|, grays)
    ensures CleanStart(h0, s) && Kept(s) == KeptUpTo(s, |s|) <= Roots(h0, s0) <= grays
  {
    forall j | 0 <= j < |s| ensures s[j] < |h0| { assert s0[j] in s0; }
    assert Kept(s) == KeptUpTo(s, |s|);
  }

  lemma GraysAreTraced(h0: Heap, s0: seq<Ptr>, s: seq<Ptr>, h: Heap, done: seq<nat>)
    requires TrialInv(h0, h, done, NULL) && Finished(h0, h, done)
    requires Kept(s) <= Roots(h0, s0) <= Grays(h) <= Reach(Edges(h0), Kept(s))
    ensures Grays(h) == Traced(h0, s0)
  {
    GraysAreClosed(h0, h, done);
    ReachPinned(Edges(h0), Kept(s), Roots(h0, s0), Grays(h));
  }

  lemma RootsAllMarked(h0: Heap, s0: seq<Ptr>, s: seq<Ptr>, h: Heap, done: seq<nat>)
    requires CleanStart(h0, s0) && TrialInv(h0, h, done, NULL) && Finished(h0, h, done)
    requires RootsMarked(h0, s0, s, |s|, Grays(h))
    ensures Marked(h0, Traced(h0, s0), h, s)
  {
    KeptAreRoots(h0, s0, s, Grays(h));
    PhaseOneDone(h0, h, done, s);
    GraysAreTraced(h0, s0, s, h, done);
  }
}
