/** Phase 3 of a cycle collection: the order in which white objects are visited, and what holds while they
    are handed to `arc_cycle_collect`, whose destructors release the references they hold. */
module CycleSweep {
  import opened Graphs
  import opened References
  import opened CycleHeap

  /** A sweep: the fields as before the collection, the headers phase 3 starts from, its white objects, the
      objects whose destructors release their fields, and the white ones that are flagged as buffered. */
  datatype Sweep = Sweep(h0: Heap, h2: Heap, white: set<Ptr>, releasing: set<Ptr>, buffered: set<Ptr>)

  ghost predicate ReadyAt(k: Sweep, p: Ptr) {
    && p < |k.h0| && p < |k.h2| && k.h2[p].scan == k.h0[p].scan
    && if p in k.white then
         k.h2[p].color == White && k.h2[p].strong == 0 && !k.h2[p].deallocating && (p in k.buffered <==> k.h2[p].buffered)
       else
         && k.h2[p].color != White && k.h2[p].color != Gray
         && (!k.h2[p].deallocating ==> k.h2[p].strong > 0 || InRefs(k.h0, p) == 0)
  }

  /** Only white objects refer to white ones, and nothing else that is referred to has count zero. */
  ghost predicate Ready(k: Sweep) {
    && |k.h0| == |k.h2| && PointersValid(k.h0)
    && (forall p: Ptr | Object(k.h0, p) :: ReadyAt(k, p))
    && (forall p | p in k.white :: Object(k.h0, p))
    && (forall u: Ptr, i: nat | Object(k.h0, u) && i < |k.h0[u].scan| && k.h0[u].scan[i] in k.white :: u in k.white)
  }

  // --- The order of the visits ---

  ghost function Elems(s: seq<Ptr>): set<Ptr> {
    set p | p in s
  }

  /** The white objects in the order a depth-first search enters them, `e` being those entered so far and
      `todo` the pointers still to be looked at. */
  ghost function Order(h: Heap, white: set<Ptr>, e: seq<Ptr>, todo: seq<Ptr>): seq<Ptr>
    decreases |white - Elems(e)|, |todo|
  {
    if todo == [] then e
    else
      var p := todo[0];
      if p !in white || p in e || p >= |h| then Order(h, white, e, todo[1..])
      else
        assert white - Elems(e + [p]) == (white - Elems(e)) - {p};
        Order(h, white, e + [p], h[p].scan + todo[1..])
  }

  lemma {:induction false} OrderExtends(h: Heap, white: set<Ptr>, e: seq<Ptr>, todo: seq<Ptr>)
    ensures e <= Order(h, white, e, todo)
    decreases |white - Elems(e)|, |todo|
  {
    if todo != [] {
      var p := todo[0];
      if p !in white || p in e || p >= |h| {
        OrderExtends(h, white, e, todo[1..]);
      } else {
        assert white - Elems(e + [p]) == (white - Elems(e)) - {p};
        OrderExtends(h, white, e + [p], h[p].scan + todo[1..]);
      }
    }
  }

  /** The white part of the heap without the objects of `avoid`. */
  ghost function Pale(h: Heap, white: set<Ptr>, avoid: set<Ptr>): (g: Graph)
    ensures |g| == |h|
  {
    seq(|h|, u requires 0 <= u < |h| =>
      if u in white && u !in avoid then (set v | v in h[u].scan && v in white && v !in avoid && v < |h|) else {})
  }

  /** What hangs below the `i`-th object entered: all it reaches past those entered before. */
  ghost function Under(h: Heap, white: set<Ptr>, e: seq<Ptr>, i: nat): set<Ptr>
    requires i < |e|
  {
    Reach(Pale(h, white, Elems(e[..i])), {e[i]})
  }

  /** The destructor of `u` releases a reference to `a`, which is not flagged as buffered. */
  predicate Strikes(h: Heap, releasing: set<Ptr>, buffered: set<Ptr>, u: Ptr, a: Ptr) {
    u in releasing && u != a && u < |h| && a in h[u].scan && a !in buffered
  }

  ghost predicate TripsAt(h: Heap, white: set<Ptr>, releasing: set<Ptr>, buffered: set<Ptr>, e: seq<Ptr>, i: nat, u: Ptr) {
    i < |e| && u in Under(h, white, e, i) && Strikes(h, releasing, buffered, u, e[i])
  }

  /** Some object is struck by the destructor of one below it, while it is itself being visited: it is black,
      has count zero, and is not finalized yet, which the release takes for an over-release. */
  ghost predicate Trips(h: Heap, white: set<Ptr>, releasing: set<Ptr>, buffered: set<Ptr>, e: seq<Ptr>) {
    exists i: nat, u: Ptr :: TripsAt(h, white, releasing, buffered, e, i, u)
  }

  ghost predicate Quiet(k: Sweep, e: seq<Ptr>, i: nat) {
    forall u: Ptr :: !TripsAt(k.h0, k.white, k.releasing, k.buffered, e, i, u)
  }

  lemma UnderStays(h: Heap, white: set<Ptr>, e: seq<Ptr>, e': seq<Ptr>, i: nat)
    requires i < |e| && e <= e'
    ensures Under(h, white, e, i) == Under(h, white, e', i)
  {
    assert e[..i] == e'[..i];
  }

  lemma TripsStays(k: Sweep, e: seq<Ptr>, e': seq<Ptr>)
    requires e <= e' && Trips(k.h0, k.white, k.releasing, k.buffered, e)
    ensures Trips(k.h0, k.white, k.releasing, k.buffered, e')
  {
    var i: nat, u: Ptr :| TripsAt(k.h0, k.white, k.releasing, k.buffered, e, i, u);
    UnderStays(k.h0, k.white, e, e', i);
    assert TripsAt(k.h0, k.white, k.releasing, k.buffered, e', i, u);
  }

  lemma QuietStays(k: Sweep, e: seq<Ptr>, e': seq<Ptr>, i: nat)
    requires e <= e' && i < |e| && Quiet(k, e, i)
    ensures Quiet(k, e', i)
  {
    UnderStays(k.h0, k.white, e, e', i);
    forall u: Ptr ensures !TripsAt(k.h0, k.white, k.releasing, k.buffered, e', i, u) {
      assert !TripsAt(k.h0, k.white, k.releasing, k.buffered, e, i, u);
    }
  }

  // --- The search ---

  ghost predicate ChildrenEntered(k: Sweep, e: seq<Ptr>, u: Ptr) {
    u < |k.h0| && forall v | v in k.h0[u].scan && v in k.white :: v in e
  }

  /** All entered since `e[i]` hangs below it. */
  ghost predicate Covers(k: Sweep, e: seq<Ptr>, i: nat) {
    i < |e| && forall j: nat {:trigger Beneath(k, e, i, e[j])} | i <= j < |e| :: Beneath(k, e, i, e[j])
  }

  ghost predicate EntryOk(k: Sweep, e: seq<Ptr>, active: set<Ptr>, out: seq<Ptr>, i: nat) {
    && i < |e| && e[i] in k.white
    && if e[i] in active then e[i] !in out && Covers(k, e, i)
       else e[i] in out && Quiet(k, e, i) && ChildrenEntered(k, e, e[i])
  }

  /** `e` has been entered, of which `active` are still being visited and `out` are handed over. */
  ghost predicate SearchInv(k: Sweep, e: seq<Ptr>, active: set<Ptr>, out: seq<Ptr>) {
    && NoRepeats(e) && NoRepeats(out)
    && (forall p | p in active :: p in e) && (forall p | p in out :: p in e)
    && forall i: nat {:trigger EntryOk(k, e, active, out, i)} | i < |e| :: EntryOk(k, e, active, out, i)
  }

  ghost predicate Beneath(k: Sweep, e: seq<Ptr>, i: nat, p: Ptr) {
    i < |e| && p in Under(k.h0, k.white, e, i)
  }

  ghost predicate BelowAll(k: Sweep, e: seq<Ptr>, active: set<Ptr>, p: Ptr) {
    forall i: nat {:trigger Beneath(k, e, i, p)} | i < |e| && e[i] in active :: Beneath(k, e, i, p)
  }

  /** `p` may be entered now: it hangs below everything active. */
  ghost predicate MayEnter(k: Sweep, e: seq<Ptr>, active: set<Ptr>, p: Ptr) {
    p in k.white && p !in e ==> BelowAll(k, e, active, p)
  }

  lemma UnderSelf(h: Heap, white: set<Ptr>, e: seq<Ptr>, i: nat)
    requires i < |e| && e[i] < |h|
    ensures e[i] in Under(h, white, e, i)
  {
    ReachContainsSources(Pale(h, white, Elems(e[..i])), {e[i]});
  }

  lemma PaleWellFormed(h: Heap, white: set<Ptr>, avoid: set<Ptr>)
    ensures WellFormed(Pale(h, white, avoid))
  {
  }

  lemma EnterSearch(k: Sweep, e: seq<Ptr>, active: set<Ptr>, out: seq<Ptr>, p: Ptr)
    requires Ready(k) && SearchInv(k, e, active, out) && p in k.white && p !in e && MayEnter(k, e, active, p)
    ensures SearchInv(k, e + [p], active + {p}, out)
  {
    var e' := e + [p];
    NoRepeatsEnd(e, p);
    forall i: nat | i < |e'| ensures EntryOk(k, e', active + {p}, out, i) {
      if i < |e| {
        assert EntryOk(k, e, active, out, i);
        UnderStays(k.h0, k.white, e, e', i);
        if e[i] in active {
          forall j: nat | i <= j < |e'| ensures Beneath(k, e', i, e'[j]) {
            if j < |e| { assert Beneath(k, e, i, e[j]); } else { assert Beneath(k, e, i, p); }
          }
        } else {
          QuietStays(k, e, e', i);
        }
      } else {
        UnderSelf(k.h0, k.white, e', i);
        assert Beneath(k, e', i, e'[i]);
      }
    }
  }

  /** The children of the object entered last may be entered. */
  lemma ChildMayEnter(k: Sweep, e: seq<Ptr>, active: set<Ptr>, out: seq<Ptr>, p: Ptr, v: Ptr)
    requires Ready(k) && SearchInv(k, e, active, out) && p in active && p < |k.h0| && v in k.h0[p].scan
    requires BelowAll(k, e, active, p)
    ensures MayEnter(k, e, active, v)
  {
    if v in k.white && v !in e {
      forall i: nat | i < |e| && e[i] in active ensures Beneath(k, e, i, v) {
        assert Beneath(k, e, i, p);
        var avoid := Elems(e[..i]);
        PaleWellFormed(k.h0, k.white, avoid);
        ReachIsClosed(Pale(k.h0, k.white, avoid), {e[i]});
        assert EntryOk(k, e, active, out, i);
        NotAvoided(k, e, i, p);
        assert v in Pale(k.h0, k.white, avoid)[p];
      }
    }
  }

  /** What hangs below an object was not entered before it. */
  lemma NotAvoided(k: Sweep, e: seq<Ptr>, i: nat, p: Ptr)
    requires NoRepeats(e) && i < |e| && e[i] in k.white && p in Under(k.h0, k.white, e, i)
    ensures p !in e[..i] && p in k.white
  {
    var avoid := Elems(e[..i]);
    var rest := set v: Ptr | v < |k.h0| && v in k.white && v !in avoid;
    NotEarlier(e, i);
    ReachIsLeast(Pale(k.h0, k.white, avoid), {e[i]}, rest);
  }

  lemma LaterEntry(e: seq<Ptr>, i: nat, v: Ptr) returns (m: nat)
    requires i <= |e| && v in e && v !in Elems(e[..i])
    ensures i <= m < |e| && e[m] == v
  {
    m :| m < |e| && e[m] == v;
    assert forall j: nat | j < i :: e[j] in e[..i];
  }

  ghost function EnteredFrom(e: seq<Ptr>, i: nat): set<Ptr> {
    set j | i <= j < |e| :: e[j]
  }

  lemma LaterIsClosed(k: Sweep, e: seq<Ptr>, active: set<Ptr>, out: seq<Ptr>, i: nat)
    requires SearchInv(k, e, active, out) && i < |e| && ChildrenEntered(k, e, e[i])
    requires forall j | i < j < |e| :: e[j] in out
    ensures Closed(Pale(k.h0, k.white, Elems(e[..i])), EnteredFrom(e, i))
  {
    var g := Pale(k.h0, k.white, Elems(e[..i]));
    forall u, v | u in EnteredFrom(e, i) && u < |k.h0| && v in g[u] ensures v in EnteredFrom(e, i) {
      var j: nat :| i <= j < |e| && e[j] == u;
      assert EntryOk(k, e, active, out, j);
      assert ChildrenEntered(k, e, u);
      var m := LaterEntry(e, i, v);
    }
  }

  lemma BelowIsEntered(k: Sweep, e: seq<Ptr>, active: set<Ptr>, out: seq<Ptr>, i: nat)
    requires SearchInv(k, e, active, out) && i < |e| && ChildrenEntered(k, e, e[i])
    requires forall j | i < j < |e| :: e[j] in out
    ensures forall u | u in Under(k.h0, k.white, e, i) :: u in EnteredFrom(e, i)
  {
    LaterIsClosed(k, e, active, out, i);
    assert e[i] in EnteredFrom(e, i);
    ReachIsLeast(Pale(k.h0, k.white, Elems(e[..i])), {e[i]}, EnteredFrom(e, i));
  }

  /** When the visit of `e[i]` is over, all below it has been entered, and none of that strikes it. */
  lemma VisitWasQuiet(k: Sweep, e: seq<Ptr>, active: set<Ptr>, out: seq<Ptr>, i: nat)
    requires SearchInv(k, e, active, out) && i < |e| && ChildrenEntered(k, e, e[i])
    requires forall j | i < j < |e| :: e[j] in out && !Strikes(k.h0, k.releasing, k.buffered, e[j], e[i])
    ensures Quiet(k, e, i)
  {
    BelowIsEntered(k, e, active, out, i);
    forall u: Ptr ensures !TripsAt(k.h0, k.white, k.releasing, k.buffered, e, i, u) {
      if u in Under(k.h0, k.white, e, i) {
        assert u in EnteredFrom(e, i);
        var j :| i <= j < |e| && e[j] == u;
      }
    }
  }

  lemma LeaveSearch(k: Sweep, e: seq<Ptr>, active: set<Ptr>, out: seq<Ptr>, p: Ptr, i: nat)
    requires SearchInv(k, e, active + {p}, out) && p !in active && i < |e| && e[i] == p && ChildrenEntered(k, e, p)
    requires forall j | i < j < |e| :: e[j] in out && !Strikes(k.h0, k.releasing, k.buffered, e[j], p)
    ensures p !in out && SearchInv(k, e, active, out + [p])
  {
    VisitWasQuiet(k, e, active + {p}, out, i);
    assert EntryOk(k, e, active + {p}, out, i);
    NoRepeatsEnd(out, p);
    forall m: nat | m < |e| ensures EntryOk(k, e, active, out + [p], m) {
      assert EntryOk(k, e, active + {p}, out, m);
      assert m != i ==> Apart(e, m, i) || Apart(e, i, m);
    }
  }

  // --- Children first ---

  ghost predicate Before(e: seq<Ptr>, v: Ptr, u: Ptr) {
    exists i: nat, j: nat :: i < j < |e| && e[i] == v && e[j] == u
  }

  /** What `out[m]` refers to is handed over before it, or its visit was begun before. */
  ghost predicate FirstAt(h: Heap, white: set<Ptr>, e: seq<Ptr>, out: seq<Ptr>, m: nat) {
    && m < |out| && out[m] < |h|
    && forall v | v in h[out[m]].scan && v in white && v != out[m] :: v in out[..m] || Before(e, v, out[m])
  }

  ghost predicate ChildrenFirst(h: Heap, white: set<Ptr>, e: seq<Ptr>, out: seq<Ptr>) {
    forall m: nat {:trigger FirstAt(h, white, e, out, m)} | m < |out| :: FirstAt(h, white, e, out, m)
  }

  lemma FirstStays(h: Heap, white: set<Ptr>, e: seq<Ptr>, e': seq<Ptr>, out: seq<Ptr>)
    requires ChildrenFirst(h, white, e, out) && e <= e'
    ensures ChildrenFirst(h, white, e', out)
  {
    forall m: nat | m < |out| ensures FirstAt(h, white, e', out, m) {
      assert FirstAt(h, white, e, out, m);
      forall v | Before(e, v, out[m]) ensures Before(e', v, out[m]) {
        var i: nat, j: nat :| i < j < |e| && e[i] == v && e[j] == out[m];
        assert e'[i] == v && e'[j] == out[m];
      }
    }
  }

  lemma FirstAtEnd(k: Sweep, e: seq<Ptr>, active: set<Ptr>, out: seq<Ptr>, n: nat)
    requires SearchInv(k, e, active, out) && ChildrenFirst(k.h0, k.white, e, out) && n < |e| && ChildrenEntered(k, e, e[n])
    requires forall i: nat | n < i < |e| :: e[i] !in active
    ensures ChildrenFirst(k.h0, k.white, e, out + [e[n]])
  {
    var out' := out + [e[n]];
    forall m: nat | m < |out'| ensures FirstAt(k.h0, k.white, e, out', m) {
      if m < |out| {
        assert FirstAt(k.h0, k.white, e, out, m) && out'[..m] == out[..m];
      } else {
        assert out'[..m] == out;
        forall v | v in k.h0[e[n]].scan && v in k.white && v != e[n] ensures v in out || Before(e, v, e[n]) {
          var i: nat :| i < |e| && e[i] == v;
          assert EntryOk(k, e, active, out, i);
        }
      }
    }
  }

  /** When the search is over it has not tripped. */
  lemma SearchOver(k: Sweep, e: seq<Ptr>, out: seq<Ptr>)
    requires SearchInv(k, e, {}, out)
    ensures !Trips(k.h0, k.white, k.releasing, k.buffered, e)
    ensures forall p :: p in e <==> p in out
  {
    forall i: nat, u: Ptr ensures !TripsAt(k.h0, k.white, k.releasing, k.buffered, e, i, u) {
      if i < |e| { assert EntryOk(k, e, {}, out, i); }
    }
    forall p | p in e ensures p in out {
      var i: nat :| i < |e| && e[i] == p;
      assert EntryOk(k, e, {}, out, i);
    }
  }

  /** A struck object that is still being visited is a trip. */
  lemma ActiveStruck(k: Sweep, e: seq<Ptr>, active: set<Ptr>, out: seq<Ptr>, p: Ptr, j: nat, a: Ptr)
    requires SearchInv(k, e, active, out) && a in active && j < |e| && e[j] == p
    requires forall i: nat | j <= i < |e| :: e[i] !in active
    requires Strikes(k.h0, k.releasing, k.buffered, p, a)
    ensures Trips(k.h0, k.white, k.releasing, k.buffered, e)
  {
    var i: nat :| i < |e| && e[i] == a;
    assert EntryOk(k, e, active, out, i);
    assert Beneath(k, e, i, e[j]);
    assert TripsAt(k.h0, k.white, k.releasing, k.buffered, e, i, p);
  }
}
