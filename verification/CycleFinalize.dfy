/** Phase 3 of a cycle collection: finalizing one object, with all its destructor sets off. */
module CycleFinalize {
  import opened References
  import opened CycleHeap
  import opened CycleSweep

  /** What `n` releases make of a count: at zero or below they change nothing any more. */
  function Lowered(strong: int, n: nat): int {
    if strong <= 0 then strong else if strong <= n then 0 else strong - n
  }

  /** How many fields of `p` its destructor releases. */
  ghost function Released(k: Sweep, p: Ptr): nat
    requires p < |k.h0|
  {
    if p in k.releasing then |k.h0[p].scan| else 0
  }

  /** The object's destructor is at work. */
  ghost predicate DyingAt(k: Sweep, d: seq<nat>, p: Ptr)
    requires p < |k.h0| && p < |d|
  {
    d[p] <= Released(k, p)
  }

  /** A white object: not entered, being visited, being finalized, or finalized. */
  ghost predicate WhiteOk(k: Sweep, h: Heap, d: seq<nat>, active: set<Ptr>, out: seq<Ptr>, dying: set<Ptr>, p: Ptr) {
    && p < |k.h0| && p < |k.h2| && p < |h| && p < |d|
    && if p !in out then d[p] == 0 && h[p] == if p in active then k.h2[p].(color := Black) else k.h2[p]
       else if p in dying then h[p] == k.h2[p].(color := Black, deallocating := true) && DyingAt(k, d, p)
       else h[p] == Finalized(k.h2[p]) && d[p] == Released(k, p)
  }

  /** Any other object: its count lowered by every release so far, destroyed when that is all of it. */
  ghost predicate OtherOk(k: Sweep, h: Heap, d: seq<nat>, dead: set<Ptr>, dying: set<Ptr>, p: Ptr) {
    && p < |k.h0| == |d| && p < |k.h2| && p < |h|
    && var n := Refs(k.h0, d, p, |k.h0|);
    && (p in dead <==> !k.h2[p].deallocating && 0 < k.h2[p].strong <= n)
    && if p !in dead then d[p] == 0 && h[p] == k.h2[p].(strong := Lowered(k.h2[p].strong, n))
       else if p in dying then h[p] == k.h2[p].(strong := 0, deallocating := true) && DyingAt(k, d, p)
       else h[p] == Finalized(k.h2[p].(strong := 0)) && d[p] == Released(k, p)
  }

  ghost predicate ObjectOk(k: Sweep, h: Heap, d: seq<nat>, active: set<Ptr>, out: seq<Ptr>, dead: set<Ptr>, dying: set<Ptr>, p: Ptr) {
    if p in k.white then WhiteOk(k, h, d, active, out, dying, p) else OtherOk(k, h, d, dead, dying, p)
  }

  /** The objects whose destructors may have released something. */
  ghost function Gone(k: Sweep, dead: set<Ptr>): set<Ptr> {
    (k.white + dead) * k.releasing
  }

  /** `others` holds every object that the releases of the white objects and of `others` leave without a count. */
  ghost predicate Consistent(k: Sweep, others: set<Ptr>)
    requires |k.h2| == |k.h0|
  {
    forall p: Ptr | Object(k.h0, p) && p !in k.white && !k.h2[p].deallocating
                    && 0 < k.h2[p].strong <= RefsFrom(k.h0, Gone(k, others), p) :: p in others
  }

  /** No more is destroyed than has to be. */
  ghost predicate Least(k: Sweep, dead: set<Ptr>)
    requires |k.h2| == |k.h0|
  {
    forall others: set<Ptr> | Consistent(k, others) :: dead <= others
  }

  ghost predicate HeapInv(k: Sweep, h: Heap, d: seq<nat>, active: set<Ptr>, out: seq<Ptr>, dead: set<Ptr>, dying: set<Ptr>) {
    && Ready(k) && |h| == |k.h0| == |d| && Least(k, dead)
    && (forall p | p in dead :: Object(k.h0, p) && p !in k.white)
    && (forall p | p in dying :: p in dead || (p in k.white && p in out))
    && forall p: Ptr {:trigger ObjectOk(k, h, d, active, out, dead, dying, p)} | Object(k.h0, p) ::
         ObjectOk(k, h, d, active, out, dead, dying, p)
  }

  // --- One release ---

  /** A reference that is there is counted. */
  lemma ReferredTo(h: Heap, u: Ptr, i: nat)
    requires Object(h, u) && i < |h[u].scan|
    ensures InRefs(h, h[u].scan[i]) > 0
  {
    var d := FieldsOf(h, {})[u := i];
    RefsLeaveRoom(h, d, u);
  }

  lemma ReleasedBound(k: Sweep, h: Heap, d: seq<nat>, active: set<Ptr>, out: seq<Ptr>, dead: set<Ptr>, dying: set<Ptr>)
    requires HeapInv(k, h, d, active, out, dead, dying)
    ensures forall v | 0 < v < |k.h0| :: d[v] <= FieldsOf(k.h0, Gone(k, dead))[v]
  {
    forall v | 0 < v < |k.h0| ensures d[v] <= FieldsOf(k.h0, Gone(k, dead))[v] {
      assert Object(k.h0, v) && ObjectOk(k, h, d, active, out, dead, dying, v);
    }
  }

  function Advanced(d: seq<nat>, u: Ptr): (d': seq<nat>)
    requires u < |d|
    ensures |d'| == |d|
  {
    d[u := d[u] + 1]
  }

  /** The destructor of `u` has come to its next field. */
  ghost predicate AtField(k: Sweep, d: seq<nat>, dying: set<Ptr>, u: Ptr, f: Ptr) {
    u in dying && Object(k.h0, u) && u < |d| && d[u] < Released(k, u) && k.h0[u].scan[d[u]] == f
  }

  /** A field that holds NULL, a white object, or an object without a count is passed over. */
  lemma PassedOver(k: Sweep, h: Heap, d: seq<nat>, active: set<Ptr>, out: seq<Ptr>, dead: set<Ptr>, dying: set<Ptr>, u: Ptr, f: Ptr)
    requires HeapInv(k, h, d, active, out, dead, dying) && AtField(k, d, dying, u, f)
    requires f == NULL || f in k.white || (f < |h| && h[f].strong <= 0)
    ensures HeapInv(k, h, Advanced(d, u), active, out, dead, dying)
  {
    forall p: Ptr | Object(k.h0, p) ensures ObjectOk(k, h, Advanced(d, u), active, out, dead, dying, p) {
      assert ObjectOk(k, h, d, active, out, dead, dying, p) && ReadyAt(k, p);
      RefsBump(k.h0, d, u, p, |k.h0|);
      if p == f { ReferredTo(k.h0, u, d[u]); }
    }
  }

  function TakenOff(h: Heap, f: Ptr): (h': Heap)
    requires f < |h|
    ensures |h'| == |h|
  {
    h[f := h[f].(strong := h[f].strong - 1)]
  }

  /** A release that leaves a count, or whose object somebody else is taking apart. */
  lemma OneLess(k: Sweep, h: Heap, d: seq<nat>, active: set<Ptr>, out: seq<Ptr>, dead: set<Ptr>, dying: set<Ptr>, u: Ptr, f: Ptr)
    requires HeapInv(k, h, d, active, out, dead, dying) && AtField(k, d, dying, u, f)
    requires Object(h, f) && f !in k.white && h[f].strong > 0 && (h[f].strong > 1 || h[f].deallocating)
    ensures HeapInv(k, TakenOff(h, f), Advanced(d, u), active, out, dead, dying)
  {
    assert ObjectOk(k, h, d, active, out, dead, dying, f);
    forall p: Ptr | Object(k.h0, p) ensures ObjectOk(k, TakenOff(h, f), Advanced(d, u), active, out, dead, dying, p) {
      assert ObjectOk(k, h, d, active, out, dead, dying, p);
      RefsBump(k.h0, d, u, p, |k.h0|);
    }
  }

  function Killed(h: Heap, f: Ptr): (h': Heap)
    requires f < |h|
    ensures |h'| == |h|
  {
    h[f := h[f].(strong := 0, deallocating := true)]
  }

  /** A release that takes the last count: the object has to go, and nothing less would do. */
  lemma LastOne(k: Sweep, h: Heap, d: seq<nat>, active: set<Ptr>, out: seq<Ptr>, dead: set<Ptr>, dying: set<Ptr>, u: Ptr, f: Ptr)
    requires HeapInv(k, h, d, active, out, dead, dying) && AtField(k, d, dying, u, f)
    requires Object(h, f) && f !in k.white && h[f].strong == 1 && !h[f].deallocating
    ensures f !in dying && f !in dead && Object(k.h0, f) && d[f] == 0 && f != u
    ensures HeapInv(k, Killed(h, f), Advanced(d, u), active, out, dead + {f}, dying + {f})
  {
    assert ObjectOk(k, h, d, active, out, dead, dying, f) && ObjectOk(k, h, d, active, out, dead, dying, u);
    MustDie(k, h, d, active, out, dead, dying, u, f);
    forall p: Ptr | Object(k.h0, p)
      ensures ObjectOk(k, Killed(h, f), Advanced(d, u), active, out, dead + {f}, dying + {f}, p)
    {
      assert ObjectOk(k, h, d, active, out, dead, dying, p);
      RefsBump(k.h0, d, u, p, |k.h0|);
    }
  }

  lemma MustDie(k: Sweep, h: Heap, d: seq<nat>, active: set<Ptr>, out: seq<Ptr>, dead: set<Ptr>, dying: set<Ptr>, u: Ptr, f: Ptr)
    requires HeapInv(k, h, d, active, out, dead, dying) && AtField(k, d, dying, u, f)
    requires Object(h, f) && f !in k.white && h[f].strong == 1 && !h[f].deallocating
    ensures Least(k, dead + {f})
  {
    assert ObjectOk(k, h, d, active, out, dead, dying, f) && ObjectOk(k, h, d, active, out, dead, dying, u);
    ReleasedBound(k, h, d, active, out, dead, dying);
    RefsBump(k.h0, d, u, f, |k.h0|);
    forall others: set<Ptr> | Consistent(k, others) ensures f in others && dead <= others {
      RefsMonotone(k.h0, Advanced(d, u), FieldsOf(k.h0, Gone(k, others)), f, |k.h0|);
    }
  }

  // --- Beginning and end of a finalization ---

  /** `arc_start_deallocation` on a white object whose visit is over. */
  function Struck(h: Heap, p: Ptr): (h': Heap)
    requires p < |h|
    ensures |h'| == |h|
  {
    h[p := h[p].(deallocating := true)]
  }

  lemma FinalizeBegins(k: Sweep, h: Heap, d: seq<nat>, active: set<Ptr>, out: seq<Ptr>, dead: set<Ptr>, p: Ptr)
    requires HeapInv(k, h, d, active + {p}, out, dead, {}) && p in k.white && p !in active && p !in out
    ensures d[p] == 0 && h[p].strong == 0 && !h[p].deallocating
    ensures HeapInv(k, Struck(h, p), d, active, out + [p], dead, {p})
  {
    assert ObjectOk(k, h, d, active + {p}, out, dead, {}, p) && ReadyAt(k, p);
    forall q: Ptr | Object(k.h0, q) ensures ObjectOk(k, Struck(h, p), d, active, out + [p], dead, {p}, q) {
      assert ObjectOk(k, h, d, active + {p}, out, dead, {}, q);
    }
  }

  function FinalizedAt(h: Heap, p: Ptr): (h': Heap)
    requires p < |h|
    ensures |h'| == |h|
  {
    h[p := Finalized(h[p])]
  }

  /** The destructor is through: scanner, color and flags are reset. */
  lemma FinalizeEnds(k: Sweep, h: Heap, d: seq<nat>, active: set<Ptr>, out: seq<Ptr>, dead: set<Ptr>, dying: set<Ptr>, p: Ptr)
    requires HeapInv(k, h, d, active, out, dead, dying) && p in dying && p < |h| && d[p] == Released(k, p)
    ensures HeapInv(k, FinalizedAt(h, p), d, active, out, dead, dying - {p})
  {
    assert p in k.white ==> Object(k.h0, p);
    assert ObjectOk(k, h, d, active, out, dead, dying, p);
    forall q: Ptr | Object(k.h0, q) ensures ObjectOk(k, FinalizedAt(h, p), d, active, out, dead, dying - {p}, q) {
      assert ObjectOk(k, h, d, active, out, dead, dying, q);
    }
  }

  function Recolored(h: Heap, p: Ptr): (h': Heap)
    requires p < |h|
    ensures |h'| == |h|
  {
    h[p := h[p].(color := Black)]
  }

  lemma VisitBegins(k: Sweep, h: Heap, d: seq<nat>, active: set<Ptr>, out: seq<Ptr>, dead: set<Ptr>, p: Ptr)
    requires HeapInv(k, h, d, active, out, dead, {}) && p in k.white && p !in active && p !in out
    ensures HeapInv(k, Recolored(h, p), d, active + {p}, out, dead, {})
  {
    forall q: Ptr | Object(k.h0, q) ensures ObjectOk(k, Recolored(h, p), d, active + {p}, out, dead, {}, q) {
      assert ObjectOk(k, h, d, active, out, dead, {}, q);
    }
  }

  /** What the tests of the sweep see. */
  lemma SeenHeader(k: Sweep, h: Heap, d: seq<nat>, active: set<Ptr>, out: seq<Ptr>, dead: set<Ptr>, dying: set<Ptr>, p: Ptr)
    requires HeapInv(k, h, d, active, out, dead, dying) && Object(h, p)
    ensures !h[p].deallocating && h[p].color == White <==> p in k.white && p !in active && p !in out
    ensures p in k.white && (p in active || p in out) ==> h[p].color == Black
    ensures p in k.white ==> h[p].strong == 0 && (p !in out ==> (h[p].buffered <==> p in k.buffered) && !h[p].deallocating)
    ensures p !in out && p !in dead ==> h[p].scan == k.h0[p].scan
    ensures p in dying ==> h[p].scan == k.h0[p].scan && h[p].deallocating
    ensures p in k.white && p in out ==> h[p].deallocating
  {
    assert ObjectOk(k, h, d, active, out, dead, dying, p) && ReadyAt(k, p);
  }

  /** An object outside the white ones that is referred to has a count or is being taken apart. */
  lemma CountedOrGone(k: Sweep, h: Heap, d: seq<nat>, active: set<Ptr>, out: seq<Ptr>, dead: set<Ptr>, dying: set<Ptr>, u: Ptr, f: Ptr)
    requires HeapInv(k, h, d, active, out, dead, dying) && AtField(k, d, dying, u, f) && Object(h, f) && f !in k.white
    ensures h[f].strong > 0 || h[f].deallocating
  {
    assert ObjectOk(k, h, d, active, out, dead, dying, f) && ReadyAt(k, f);
    ReferredTo(k.h0, u, d[u]);
  }
}
