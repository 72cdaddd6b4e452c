/** Reference counting through an object graph: releasing the last reference to an object destroys it,
    and its destructor releases every field. */
module ArcCascade {
  import opened Division
  import opened Graphs
  import opened References
  import opened Words

  datatype Obj = Obj(strong: int, fields: seq<Ptr>, deallocating: bool, freed: bool)

  /** By object pointer; entry 0 stands for NULL. */
  type Heap = seq<Obj>

  predicate Object(h: Heap, p: Ptr) {
    p != NULL && p < |h|
  }

  predicate Live(h: Heap, p: Ptr) {
    Object(h, p) && !h[p].deallocating
  }

  // --- References still held by fields ---

  /** Of the fields of `u`, the first `d[u]` have been released by its destructor. */
  ghost function Owed(h: Heap, d: seq<nat>, n: Ptr, k: nat): int
    requires k <= |h| == |d|
  {
    if k <= 1 then 0
    else Owed(h, d, n, k - 1) + Left(h[k - 1].fields, d[k - 1], n)
  }

  ghost function Left(s: seq<Ptr>, i: nat, n: Ptr): int {
    Occurrences(s, |s|, n) - Occurrences(s, i, n)
  }

  lemma {:induction false} OwedNotNegative(h: Heap, d: seq<nat>, n: Ptr, k: nat)
    requires k <= |h| == |d| && forall u | 0 < u < |h| :: d[u] <= |h[u].fields|
    ensures Owed(h, d, n, k) >= 0
  {
    if k > 1 {
      OwedNotNegative(h, d, n, k - 1);
      OccurrencesMonotone(h[k - 1].fields, d[k - 1], |h[k - 1].fields|, n);
    }
  }

  lemma {:induction false} OwedBump(h: Heap, d: seq<nat>, u: Ptr, n: Ptr, k: nat)
    requires 0 < u < |h| == |d| && k <= |h| && d[u] < |h[u].fields|
    ensures Owed(h, d[u := d[u] + 1], n, k) == Owed(h, d, n, k) - (if u < k && h[u].fields[d[u]] == n then 1 else 0)
  {
    if k > 1 { OwedBump(h, d, u, n, k - 1); }
  }

  /** Counts and flags of the objects do not matter. */
  lemma {:induction false} OwedFrame(h: Heap, h': Heap, d: seq<nat>, n: Ptr, k: nat)
    requires k <= |h| == |h'| == |d| && forall u | 0 < u < k :: h[u].fields == h'[u].fields
    ensures Owed(h, d, n, k) == Owed(h', d, n, k)
  {
    if k > 1 { OwedFrame(h, h', d, n, k - 1); }
  }

  lemma {:induction false} OccurrencesAgree(s: seq<Ptr>, t: seq<Ptr>, k: nat, n: Ptr)
    requires |s| == |t| && forall i | 0 <= i < k && i < |s| :: s[i] == t[i]
    ensures Occurrences(s, k, n) == Occurrences(t, k, n)
  {
    if k > 0 { OccurrencesAgree(s, t, k - 1, n); }
  }

  lemma {:induction false} OccurrencesUpdate(s: seq<Ptr>, i: nat, v: Ptr, k: nat, n: Ptr)
    requires i < k <= |s|
    ensures Occurrences(s[i := v], k, n) ==
      Occurrences(s, k, n) - (if s[i] == n then 1 else 0) + (if v == n then 1 else 0)
  {
    if i < k - 1 { OccurrencesUpdate(s, i, v, k - 1, n); } else { OccurrencesAgree(s, s[i := v], k - 1, n); }
  }

  /** Storing `v` in field `i` of an object that is not being destroyed. */
  lemma {:induction false} OwedAssign(h: Heap, d: seq<nat>, u: Ptr, i: nat, v: Ptr, n: Ptr, k: nat)
    requires 0 < u < |h| == |d| && k <= |h| && d[u] == 0 && i < |h[u].fields|
    ensures Owed(Stored(h, u, i, v), d, n, k) ==
      Owed(h, d, n, k) + (if u < k then (if v == n then 1 else 0) - (if h[u].fields[i] == n then 1 else 0) else 0)
  {
    if k > 1 {
      OwedAssign(h, d, u, i, v, n, k - 1);
      if u == k - 1 { OccurrencesUpdate(h[u].fields, i, v, |h[u].fields|, n); }
    }
  }

  /** Some object that is not destroyed yet holds what is owed. */
  lemma {:induction false} OwedBySome(h: Heap, d: seq<nat>, n: Ptr, k: nat) returns (u: Ptr)
    requires k <= |h| == |d| && Owed(h, d, n, k) > 0
    ensures Object(h, u) && d[u] != |h[u].fields| && n in h[u].fields
  {
    u := k - 1;
    if Left(h[u].fields, d[u], n) <= 0 {
      u := OwedBySome(h, d, n, k - 1);
    } else if n !in h[u].fields {
      OccurrencesZero(h[u].fields, |h[u].fields|, n);
    }
  }

  lemma {:induction false} OwedByOne(h: Heap, d: seq<nat>, u: Ptr, n: Ptr, k: nat)
    requires 0 < u < k <= |h| == |d| && d[u] == 0 && n in h[u].fields
    requires forall v | 0 < v < |h| :: d[v] <= |h[v].fields|
    ensures Owed(h, d, n, k) > 0
  {
    if u == k - 1 {
      OwedNotNegative(h, d, n, k - 1);
      var i: nat :| i < |h[u].fields| && h[u].fields[i] == n;
      OccurrencesMonotone(h[u].fields, i + 1, |h[u].fields|, n);
    } else {
      OwedByOne(h, d, u, n, k - 1);
      OccurrencesMonotone(h[k - 1].fields, d[k - 1], |h[k - 1].fields|, n);
    }
  }

  // --- Updates ---

  function Counted(h: Heap, p: Ptr, delta: int): (h': Heap)
    requires Object(h, p)
    ensures |h'| == |h|
  {
    h[p := h[p].(strong := h[p].strong + delta)]
  }

  function Stored(h: Heap, u: Ptr, i: nat, v: Ptr): (h': Heap)
    requires Object(h, u) && i < |h[u].fields|
    ensures |h'| == |h|
  {
    h[u := h[u].(fields := h[u].fields[i := v])]
  }

  function Dying(h: Heap, p: Ptr): (h': Heap)
    requires Object(h, p)
    ensures |h'| == |h|
  {
    h[p := h[p].(strong := 0, deallocating := true)]
  }

  function Freed(h: Heap, p: Ptr): (h': Heap)
    requires Object(h, p)
    ensures |h'| == |h|
  {
    h[p := h[p].(freed := true)]
  }

  // --- Invariant ---

  /** The owner of every count: outside handles, fields, and the one reference about to be released. */
  ghost predicate CountOk(h: Heap, ext: seq<nat>, d: seq<nat>, pending: Ptr, n: Ptr)
    requires n < |h| == |ext| == |d|
  {
    h[n].strong == ext[n] + Owed(h, d, n, |h|) + (if n == pending then 1 else 0)
  }

  ghost predicate ObjOk(h: Heap, d: seq<nat>, p: Ptr)
    requires p < |h| == |d|
  {
    && d[p] <= |h[p].fields| && (forall i | 0 <= i < |h[p].fields| :: h[p].fields[i] < |h|)
    && (if h[p].deallocating then h[p].strong == 0 else h[p].strong > 0 && d[p] == 0 && !h[p].freed)
    && (h[p].freed ==> d[p] == |h[p].fields|)
  }

  ghost predicate Inv(h: Heap, ext: seq<nat>, d: seq<nat>, pending: Ptr) {
    && |h| == |ext| == |d|
    && (forall p: Ptr | Object(h, p) :: ObjOk(h, d, p))
    && (forall n: Ptr | Object(h, n) :: CountOk(h, ext, d, pending, n))
  }

  ghost predicate AtRest(h: Heap) {
    forall p: Ptr | Object(h, p) :: h[p].deallocating == h[p].freed
  }

  /** What a release may do: destroy live objects for good, and nothing else. */
  ghost predicate Destroys(h: Heap, d: seq<nat>, h': Heap, d': seq<nat>) {
    && |h| == |h'| == |d| == |d'|
    && forall p: Ptr | Object(h, p) :: OneDestroys(h, d, h', d', p)
  }

  ghost predicate OneDestroys(h: Heap, d: seq<nat>, h': Heap, d': seq<nat>, p: Ptr)
    requires p < |h| == |h'| == |d| == |d'|
  {
    && h'[p].fields == h[p].fields
    && (h[p].deallocating ==> h'[p] == h[p] && d'[p] == d[p])
    && (!h[p].deallocating && h'[p].deallocating ==> h'[p].freed)
  }

  ghost function LiveSet(h: Heap): set<Ptr> {
    set p: Ptr | p < |h| && Live(h, p)
  }

  lemma DestroysShrinks(h: Heap, d: seq<nat>, h': Heap, d': seq<nat>)
    requires Destroys(h, d, h', d')
    ensures LiveSet(h') <= LiveSet(h)
  {
    forall p | p in LiveSet(h') ensures p in LiveSet(h) {
      assert OneDestroys(h, d, h', d', p);
    }
  }

  /** One more field of the dying object `p` is dealt with. */
  lemma DestroyedNext(h: Heap, d: seq<nat>, p: Ptr, i: nat, h1: Heap, d1: seq<nat>, h2: Heap, d2: seq<nat>)
    requires Object(h, p) && |h| == |d| == |d1| && h[p].deallocating
    requires Destroys(h, d[p := i], h1, d1[p := i]) && d1[p] == i + 1 && Destroys(h1, d1, h2, d2)
    requires forall q: Ptr | Object(h1, q) && h1[q].freed :: h1[q].deallocating
    ensures Destroys(h, d[p := i + 1], h2, d2) && h2[p] == h[p] && d2[p] == i + 1
  {
    forall q: Ptr | Object(h, q) ensures OneDestroys(h, d[p := i + 1], h2, d2, q) {
      assert OneDestroys(h, d[p := i], h1, d1[p := i], q) && OneDestroys(h1, d1, h2, d2, q);
    }
    assert OneDestroys(h, d[p := i + 1], h2, d2, p);
  }

  /** Dying, having all fields released and being freed, seen as one. */
  lemma DestroyedWhole(h: Heap, d: seq<nat>, p: Ptr, h2: Heap, d2: seq<nat>)
    requires |h| == |d| && Live(h, p) && d[p] == 0
    requires Destroys(Dying(h, p), d[p := |h[p].fields|], h2, d2)
    ensures h2[p].deallocating && h2[p].fields == h[p].fields
    ensures Destroys(h, d, Freed(h2, p), d2)
  {
    var h1, d1 := Dying(h, p), d[p := |h[p].fields|];
    assert OneDestroys(h1, d1, h2, d2, p);
    forall q: Ptr | Object(h, q) ensures OneDestroys(h, d, Freed(h2, p), d2, q) {
      assert OneDestroys(h1, d1, h2, d2, q);
    }
  }

  /** The reference to release is one of its object's count. */
  lemma PendingIsLive(h: Heap, ext: seq<nat>, d: seq<nat>, p: Ptr)
    requires Inv(h, ext, d, p) && Object(h, p)
    ensures Live(h, p) && h[p].strong > 0
  {
    assert ObjOk(h, d, p) && CountOk(h, ext, d, p, p);
    forall u | 0 < u < |h| ensures d[u] <= |h[u].fields| { assert Object(h, u) && ObjOk(h, d, u); }
    OwedNotNegative(h, d, p, |h|);
  }

  lemma CountedInv(h: Heap, ext: seq<nat>, d: seq<nat>, p: Ptr)
    requires Inv(h, ext, d, p) && Object(h, p) && h[p].strong > 1
    ensures Inv(Counted(h, p, -1), ext, d, NULL) && Destroys(h, d, Counted(h, p, -1), d)
  {
    var h' := Counted(h, p, -1);
    PendingIsLive(h, ext, d, p);
    forall n: Ptr | Object(h', n) ensures ObjOk(h', d, n) && CountOk(h', ext, d, NULL, n) {
      assert ObjOk(h, d, n) && CountOk(h, ext, d, p, n);
      OwedFrame(h, h', d, n, |h|);
    }
  }

  lemma DyingInv(h: Heap, ext: seq<nat>, d: seq<nat>, p: Ptr)
    requires Inv(h, ext, d, p) && Object(h, p) && h[p].strong == 1
    ensures Inv(Dying(h, p), ext, d, NULL) && LiveSet(Dying(h, p)) < LiveSet(h)
  {
    var h' := Dying(h, p);
    PendingIsLive(h, ext, d, p);
    forall n: Ptr | Object(h', n) ensures ObjOk(h', d, n) && CountOk(h', ext, d, NULL, n) {
      assert ObjOk(h, d, n) && CountOk(h, ext, d, p, n);
      OwedFrame(h, h', d, n, |h|);
    }
    assert LiveSet(h') == LiveSet(h) - {p};
  }

  lemma NextFieldInv(h: Heap, ext: seq<nat>, d: seq<nat>, u: Ptr)
    requires Inv(h, ext, d, NULL) && Object(h, u) && h[u].deallocating && d[u] < |h[u].fields| && !h[u].freed
    ensures h[u].fields[d[u]] < |h| && Inv(h, ext, d[u := d[u] + 1], h[u].fields[d[u]])
  {
    assert ObjOk(h, d, u);
    forall n: Ptr | Object(h, n)
      ensures ObjOk(h, d[u := d[u] + 1], n) && CountOk(h, ext, d[u := d[u] + 1], h[u].fields[d[u]], n)
    {
      assert ObjOk(h, d, n) && CountOk(h, ext, d, NULL, n);
      OwedBump(h, d, u, n, |h|);
    }
  }

  lemma FreedInv(h: Heap, ext: seq<nat>, d: seq<nat>, p: Ptr)
    requires Inv(h, ext, d, NULL) && Object(h, p) && h[p].deallocating && d[p] == |h[p].fields|
    ensures Inv(Freed(h, p), ext, d, NULL)
  {
    var h' := Freed(h, p);
    forall n: Ptr | Object(h', n) ensures ObjOk(h', d, n) && CountOk(h', ext, d, NULL, n) {
      assert ObjOk(h, d, n) && CountOk(h, ext, d, NULL, n);
      OwedFrame(h, h', d, n, |h|);
    }
  }

  lemma AllocInv(h: Heap, ext: seq<nat>, d: seq<nat>, fieldCount: nat)
    requires Inv(h, ext, d, NULL) && AtRest(h) && |h| > 0
    ensures var h' := h + [Obj(1, seq(fieldCount, _ => NULL), false, false)];
      Inv(h', ext + [1], d + [0], NULL) && AtRest(h')
  {
    var o := Obj(1, seq(fieldCount, _ => NULL), false, false);
    var h', e', d' := h + [o], ext + [1], d + [0];
    forall n: Ptr | Object(h', n) ensures ObjOk(h', d', n) && CountOk(h', e', d', NULL, n) {
      OwedExtend(h, d, o, n, |h|);
      OccurrencesZero(o.fields, fieldCount, n);
      if n < |h| {
        assert ObjOk(h, d, n) && CountOk(h, ext, d, NULL, n);
      } else {
        OwedNothing(h, d, n, |h|);
      }
    }
  }

  lemma {:induction false} OwedExtend(h: Heap, d: seq<nat>, o: Obj, n: Ptr, k: nat)
    requires k <= |h| == |d|
    ensures Owed(h + [o], d + [0], n, k) == Owed(h, d, n, k)
  {
    if k > 1 { OwedExtend(h, d, o, n, k - 1); }
  }

  /** No field holds a pointer past the heap. */
  lemma {:induction false} OwedNothing(h: Heap, d: seq<nat>, n: Ptr, k: nat)
    requires k <= |h| == |d| && n >= |h| && forall u: Ptr | Object(h, u) :: ObjOk(h, d, u)
    ensures Owed(h, d, n, k) == 0
  {
    if k > 1 {
      OwedNothing(h, d, n, k - 1);
      assert ObjOk(h, d, k - 1);
      OccurrencesZero(h[k - 1].fields, |h[k - 1].fields|, n);
      OccurrencesZero(h[k - 1].fields, d[k - 1], n);
    }
  }

  lemma RetainInv(h: Heap, ext: seq<nat>, d: seq<nat>, p: Ptr)
    requires Inv(h, ext, d, NULL) && AtRest(h) && Live(h, p)
    ensures Inv(Counted(h, p, 1), ext[p := ext[p] + 1], d, NULL) && AtRest(Counted(h, p, 1))
  {
    var h', e' := Counted(h, p, 1), ext[p := ext[p] + 1];
    forall n: Ptr | Object(h', n) ensures ObjOk(h', d, n) && CountOk(h', e', d, NULL, n) {
      assert ObjOk(h, d, n) && CountOk(h, ext, d, NULL, n);
      OwedFrame(h, h', d, n, |h|);
    }
  }

  /** A handle about to be released is no longer its owner's. */
  lemma HandleInv(h: Heap, ext: seq<nat>, d: seq<nat>, p: Ptr)
    requires Inv(h, ext, d, NULL) && Object(h, p) && ext[p] > 0
    ensures Inv(h, ext[p := ext[p] - 1], d, p)
  {
    var e' := ext[p := ext[p] - 1];
    forall n: Ptr | Object(h, n) ensures CountOk(h, e', d, p, n) {
      assert CountOk(h, ext, d, NULL, n);
    }
  }

  /** After the store, the old value of the field is the reference left to release. */
  lemma AssignInv(h: Heap, ext: seq<nat>, d: seq<nat>, obj: Ptr, i: nat, v: Ptr)
    requires Inv(h, ext, d, NULL) && AtRest(h)
    requires Live(h, obj) && i < |h[obj].fields| && (v == NULL || Live(h, v))
    ensures var h' := Stored(if v == NULL then h else Counted(h, v, 1), obj, i, v);
      Inv(h', ext, d, h[obj].fields[i]) && AtRest(h')
  {
    var previous := h[obj].fields[i];
    var h1 := if v == NULL then h else Counted(h, v, 1);
    var h' := Stored(h1, obj, i, v);
    assert ObjOk(h, d, obj);
    forall n: Ptr | Object(h', n) ensures ObjOk(h', d, n) && CountOk(h', ext, d, previous, n) {
      assert ObjOk(h, d, n) && CountOk(h, ext, d, NULL, n);
      OwedFrame(h, h1, d, n, |h|);
      OwedAssign(h1, d, obj, i, v, n, |h|);
    }
  }

  lemma StillAtRest(h: Heap, d: seq<nat>, h': Heap, d': seq<nat>)
    requires AtRest(h) && Destroys(h, d, h', d') && forall p: Ptr | Object(h', p) :: ObjOk(h', d', p)
    ensures AtRest(h')
  {
    forall p: Ptr | Object(h', p) ensures h'[p].deallocating == h'[p].freed {
      assert OneDestroys(h, d, h', d', p);
    }
  }

  // --- Freed if and only if out of reach ---

  ghost function FieldGraph(h: Heap): (g: Graph)
    ensures |g| == |h|
  {
    seq(|h|, u requires 0 <= u < |h| => if Live(h, u) then (set v | v in h[u].fields && v != NULL) else {})
  }

  ghost function HeldOutside(ext: seq<nat>): set<Ptr> {
    set p: Ptr | p < |ext| && p != NULL && ext[p] > 0
  }

  /** A numbering of the objects that grows along every field. */
  ghost predicate Ranked(h: Heap, rank: seq<nat>) {
    |rank| == |h| && forall u: Ptr, v: Ptr | Live(h, u) && v in h[u].fields && Object(h, v) :: rank[u] < rank[v]
  }

  ghost predicate Acyclic(h: Heap) {
    exists rank :: Ranked(h, rank)
  }

  lemma LiveIsClosed(h: Heap, ext: seq<nat>, d: seq<nat>, u: Ptr, v: Ptr)
    requires Inv(h, ext, d, NULL) && Live(h, u) && v in FieldGraph(h)[u]
    ensures Live(h, v)
  {
    forall w | 0 < w < |h| ensures d[w] <= |h[w].fields| { assert Object(h, w) && ObjOk(h, d, w); }
    assert ObjOk(h, d, u);
    assert ObjOk(h, d, v) && CountOk(h, ext, d, NULL, v);
    OwedByOne(h, d, u, v, |h|);
  }

  /** What a handle reaches is live, whatever the shape of the graph. */
  lemma ReachableIsLive(h: Heap, ext: seq<nat>, d: seq<nat>)
    requires Inv(h, ext, d, NULL)
    ensures Reach(FieldGraph(h), HeldOutside(ext)) <= LiveSet(h)
  {
    forall u | 0 < u < |h| ensures d[u] <= |h[u].fields| { assert Object(h, u) && ObjOk(h, d, u); }
    forall p | p in HeldOutside(ext) ensures p in LiveSet(h) {
      assert ObjOk(h, d, p) && CountOk(h, ext, d, NULL, p);
      OwedNotNegative(h, d, p, |h|);
    }
    forall u, v | u in LiveSet(h) && v in FieldGraph(h)[u] ensures v in LiveSet(h) { LiveIsClosed(h, ext, d, u, v); }
    ReachIsLeast(FieldGraph(h), HeldOutside(ext), LiveSet(h));
  }

  /** `u` can be reached from itself. */
  ghost predicate OnCycle(h: Heap, u: Ptr) {
    Live(h, u) && exists v :: v in Reach(FieldGraph(h), {u}) && u in FieldGraph(h)[v]
  }

  ghost function OnCycles(h: Heap): set<Ptr> {
    set u: Ptr | u < |h| && OnCycle(h, u)
  }

  lemma FieldsWellFormed(h: Heap, ext: seq<nat>, d: seq<nat>)
    requires Inv(h, ext, d, NULL)
    ensures WellFormed(FieldGraph(h))
  {
    forall a, b | 0 <= a < |h| && b in FieldGraph(h)[a] ensures b < |h| { assert ObjOk(h, d, a); }
  }

  /** At rest, whoever holds a live object that no outside handle holds is a live object. */
  lemma Referrer(h: Heap, ext: seq<nat>, d: seq<nat>, p: Ptr) returns (u: Ptr)
    requires Inv(h, ext, d, NULL) && AtRest(h) && Live(h, p) && ext[p] == 0
    ensures Live(h, u) && p in FieldGraph(h)[u]
  {
    assert ObjOk(h, d, p) && CountOk(h, ext, d, NULL, p);
    u := OwedBySome(h, d, p, |h|);
    assert ObjOk(h, d, u);
  }

  /** Going back from referrer to referrer ends at an outside handle or closes a cycle. */
  lemma {:induction false} TracedBack(h: Heap, ext: seq<nat>, d: seq<nat>, path: seq<nat>)
    requires Inv(h, ext, d, NULL) && AtRest(h) && Path(FieldGraph(h), path) && forall x | x in path :: Live(h, x)
    ensures path[0] in Reach(FieldGraph(h), HeldOutside(ext) + OnCycles(h))
    decreases |LiveSet(h) - (set x | x in path)|
  {
    var p := path[0];
    assert p in path;
    if p in HeldOutside(ext) + OnCycles(h) {
      ReachContainsSources(FieldGraph(h), HeldOutside(ext) + OnCycles(h));
    } else {
      var u := Referrer(h, ext, d, p);
      if u in path { ClosesCycle(h, path, u); }
      var longer := [u] + path;
      PathPrepend(FieldGraph(h), u, path);
      assert LiveSet(h) - (set x | x in longer) == (LiveSet(h) - (set x | x in path)) - {u};
      TracedBack(h, ext, d, longer);
      FieldsWellFormed(h, ext, d);
      ReachIsClosed(FieldGraph(h), HeldOutside(ext) + OnCycles(h));
    }
  }

  lemma ClosesCycle(h: Heap, path: seq<nat>, u: Ptr)
    requires Path(FieldGraph(h), path) && u in path && Live(h, path[0]) && path[0] in FieldGraph(h)[u]
    ensures OnCycle(h, path[0])
  {
    var i: nat :| i < |path| && path[i] == u;
    PathReaches(FieldGraph(h), path, i);
  }

  /** Between calls an object is live if and only if it can be reached from an outside handle or from an
      object on a cycle. */
  lemma LiveIff(h: Heap, ext: seq<nat>, d: seq<nat>, p: Ptr)
    requires Inv(h, ext, d, NULL) && AtRest(h) && Object(h, p)
    ensures h[p].freed <==> p !in Reach(FieldGraph(h), HeldOutside(ext) + OnCycles(h))
  {
    var g, sources := FieldGraph(h), HeldOutside(ext) + OnCycles(h);
    if Live(h, p) {
      TracedBack(h, ext, d, [p]);
    }
    ReachableIsLive(h, ext, d);
    ReachContainsSources(g, HeldOutside(ext));
    forall u, v | u in LiveSet(h) && v in g[u] ensures v in LiveSet(h) { LiveIsClosed(h, ext, d, u, v); }
    ReachIsLeast(g, sources, LiveSet(h));
  }

  lemma RanksGrow(h: Heap, ext: seq<nat>, d: seq<nat>, rank: seq<nat>, u: Ptr)
    requires Inv(h, ext, d, NULL) && Ranked(h, rank) && Live(h, u)
    ensures !OnCycle(h, u)
  {
    var g := FieldGraph(h);
    var above := set v: Ptr | v < |h| && rank[u] <= rank[v];
    FieldsWellFormed(h, ext, d);
    ReachIsLeast(g, {u}, above);
    assert forall v | v in Reach(g, {u}) :: v in above;
  }

  /** On an acyclic graph an object is freed if and only if no outside handle reaches it. */
  lemma FreedIffUnreachable(h: Heap, ext: seq<nat>, d: seq<nat>, p: Ptr)
    requires Inv(h, ext, d, NULL) && AtRest(h) && Acyclic(h) && Object(h, p)
    ensures h[p].freed <==> p !in Reach(FieldGraph(h), HeldOutside(ext))
  {
    var rank :| Ranked(h, rank);
    forall u: Ptr | Live(h, u) ensures !OnCycle(h, u) { RanksGrow(h, ext, d, rank, u); }
    assert HeldOutside(ext) + OnCycles(h) == HeldOutside(ext);
    LiveIff(h, ext, d, p);
  }

  /** Without acyclicity it fails: an object that refers to itself outlives its last handle. */
  lemma SelfReferenceLeaks()
    ensures var h := [Obj(0, [], true, true), Obj(1, [1], false, false)];
      Inv(h, [0, 0], [0, 0], NULL) && AtRest(h) && !h[1].freed && 1 !in Reach(FieldGraph(h), HeldOutside([0, 0]))
  {
    var h := [Obj(0, [], true, true), Obj(1, [1], false, false)];
    assert Occurrences([1], 1, 1) == 1;
    assert Owed(h, [0, 0], 1, 2) == 1;
    ReachIsLeast(FieldGraph(h), HeldOutside([0, 0]), {});
  }

  predicate PowerOfTwo(n: nat) {
    n == 1 || (n > 1 && n % 2 == 0 && PowerOfTwo(n / 2))
  }

  lemma {:induction false} Exponent(n: nat) returns (k: nat)
    requires PowerOfTwo(n)
    ensures n == Pow(2, k)
  {
    if n == 1 {
      k := 0;
    } else {
      var j := Exponent(n / 2);
      k := j + 1;
    }
  }

  lemma {:induction false} PowerPasses(k: nat)
    ensures PowerOfTwo(Pow(2, k))
  {
    if k > 0 { PowerPasses(k - 1); }
  }

  /** The alignments that pass are the powers of two. */
  lemma PowerOfTwoIff(n: nat)
    ensures PowerOfTwo(n) <==> exists k :: n == Pow(2, k)
  {
    if PowerOfTwo(n) { var _ := Exponent(n); }
    if k :| n == Pow(2, k) { PowerPasses(k); }
  }

  class ArcHeap {
    var heap: Heap
    ghost var ext: seq<nat>     // handles outside the heap, by object
    ghost var done: seq<nat>    // fields each destructor has released

    /** Between calls: counts exact, everything dead is freed, nothing half destroyed. */
    ghost predicate Valid()
      reads this
    {
      Inv(heap, ext, done, NULL) && AtRest(heap)
    }

    /** The sizes of a header with its slot, and the alignment blocks get at least. */
    const overhead: nat
    const defaultAlignment: nat

    constructor (overhead: nat, defaultAlignment: nat)
      requires defaultAlignment > 0
      ensures Valid() && |heap| == 1 && this.overhead == overhead && this.defaultAlignment == defaultAlignment
    {
      heap, ext, done := [Obj(0, [], true, true)], [0], [0];
      this.overhead, this.defaultAlignment := overhead, defaultAlignment;
    }

    /** Whether a block of that size and alignment (0 for the default) can be asked for: the size is not zero,
        the alignment is a power of two, and the sum does not run over. */
    predicate Requestable(size: nat, alignment: nat) {
      && size > 0 && (alignment == 0 || PowerOfTwo(alignment))
      && overhead + size + (if alignment < defaultAlignment then defaultAlignment else alignment) - 1 < WORD64
    }

    /** `arc_alloc_full_aligned`, with a destructor for the given number of fields, all NULL at first;
        `available` says whether the allocator delivers. */
    method Alloc(size: nat, alignment: nat, fieldCount: nat, available: bool) returns (p: Ptr)
      requires Valid() && |heap| > 0 && size < WORD64 && alignment < WORD64
      requires alignment == 0 ==> PowerOfTwo(defaultAlignment)
      modifies this
      ensures Valid() && (p != NULL <==> Requestable(size, alignment) && available)
      ensures p == NULL ==> heap == old(heap) && ext == old(ext)
      ensures p != NULL ==> p == |old(heap)| && Live(heap, p) && ext == old(ext) + [1]
      ensures p != NULL ==> heap == old(heap) + [Obj(1, seq(fieldCount, _ => NULL), false, false)]
    {
      if size == 0 { return NULL; }
      var align := if alignment == 0 then defaultAlignment else alignment;
      if !PowerOfTwo(align) { return NULL; }
      if align < defaultAlignment { align := defaultAlignment; }
      if overhead > WORD64 - 1 - size { return NULL; }
      var total := overhead + size;
      if total > WORD64 - 1 - (align - 1) { return NULL; }
      if !available { return NULL; }
      p := |heap|;
      AllocInv(heap, ext, done, fieldCount);
      heap := heap + [Obj(1, seq(fieldCount, _ => NULL), false, false)];
      ext, done := ext + [1], done + [0];
    }

    /** `arc_retain`: one handle more. */
    method Retain(p: Ptr)
      requires Valid() && Live(heap, p)
      modifies this
      ensures Valid() && heap == Counted(old(heap), p, 1) && ext == old(ext)[p := old(ext)[p] + 1]
    {
      RetainInv(heap, ext, done, p);
      heap := Counted(heap, p, 1);
      ext := ext[p := ext[p] + 1];
    }

    /** `arc_release` by the owner of an outside handle. */
    method Release(p: Ptr)
      requires Valid() && Object(heap, p) && ext[p] > 0
      modifies this
      ensures Valid() && ext == old(ext)[p := old(ext)[p] - 1]
      ensures Destroys(old(heap), old(done), heap, done)
    {
      HandleInv(heap, ext, done, p);
      ext := ext[p := ext[p] - 1];
      ReleaseCount(p);
      StillAtRest(old(heap), old(done), heap, done);
    }

    /** `obj_assign_ref` */
    method AssignRef(obj: Ptr, i: nat, v: Ptr)
      requires Valid() && Live(heap, obj) && i < |heap[obj].fields| && (v == NULL || Live(heap, v))
      modifies this
      ensures Valid() && ext == old(ext)
      ensures |heap| == |old(heap)| && forall p: Ptr | Object(heap, p) ::
        heap[p].fields == if p == obj then old(heap)[p].fields[i := v] else old(heap)[p].fields
      ensures forall p: Ptr | Object(heap, p) && !Live(old(heap), p) :: !Live(heap, p)
    {
      var previous := heap[obj].fields[i];
      assert ObjOk(heap, done, obj);
      if v != NULL { heap := Counted(heap, v, 1); }
      heap := Stored(heap, obj, i, v);
      AssignInv(old(heap), ext, done, obj, i, v);
      ghost var before := heap;
      if previous != NULL { ReleaseCount(previous); }
      StillAtRest(before, old(done), heap, done);
      forall p: Ptr | Object(heap, p)
        ensures heap[p].fields == before[p].fields && (!Live(before, p) ==> !Live(heap, p))
      {
        assert OneDestroys(before, old(done), heap, done, p);
      }
    }

    /** `arc_release_impl` on a reference that nobody counts as theirs any more. */
    method ReleaseCount(p: Ptr)
      requires Inv(heap, ext, done, p) && Object(heap, p)
      modifies `heap, `done
      ensures Inv(heap, ext, done, NULL) && Destroys(old(heap), old(done), heap, done)
      decreases LiveSet(heap), 1
    {
      PendingIsLive(heap, ext, done, p);
      if heap[p].strong == 1 {
        DyingInv(heap, ext, done, p);
        heap := Dying(heap, p);
        assert ObjOk(old(heap), old(done), p);
        RunDestructor(p);
        DestroyedWhole(old(heap), old(done), p, heap, done);
        FreedInv(heap, ext, done, p);
        heap := Freed(heap, p);
      } else {
        CountedInv(heap, ext, done, p);
        heap := Counted(heap, p, -1);
      }
    }

    /** The generated destructor: every field is released, in order. */
    method RunDestructor(p: Ptr)
      requires Inv(heap, ext, done, NULL) && Object(heap, p)
      requires heap[p].deallocating && !heap[p].freed && done[p] == 0
      modifies `heap, `done
      ensures Inv(heap, ext, done, NULL) && done[p] == |heap[p].fields|
      ensures Destroys(old(heap), old(done)[p := |old(heap)[p].fields|], heap, done)
      decreases LiveSet(heap), 2
    {
      var i := 0;
      while i < |heap[p].fields|
        invariant Inv(heap, ext, done, NULL) && Object(heap, p) && heap[p] == old(heap)[p]
        invariant i <= |heap[p].fields| && done[p] == i
        invariant Destroys(old(heap), old(done)[p := i], heap, done)
      {
        var f := heap[p].fields[i];
        NextFieldInv(heap, ext, done, p);
        done := done[p := i + 1];
        ghost var before, d := heap, done;
        DestroysShrinks(old(heap), old(done)[p := i], heap, done[p := i]);
        if f != NULL { ReleaseCount(f); }
        DestroyedNext(old(heap), old(done), p, i, before, d, heap, done);
        i := i + 1;
      }
    }
  }
}
