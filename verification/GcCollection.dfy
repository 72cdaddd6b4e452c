/** What one collection of the mark-sweep collector does to the whole heap, and what every operation keeps. */
module GcCollection {
  import opened Graphs
  import opened References
  import opened GcHeap

  ghost function Reachable(h: Heap, sources: set<Ptr>): set<Ptr> {
    Reach(Edges(h), sources)
  }

  ghost predicate ObjectOk(h: Heap, list: seq<Ptr>, p: Ptr) {
    p < |h| && !h[p].marked && h[p].survived < PROMOTE_AGE && (p != NULL ==> (h[p].freed <==> p !in list))
  }

  /** Nothing freed can be reached from `sources`. */
  ghost predicate Safe(h: Heap, list: seq<Ptr>, sources: set<Ptr>) {
    forall p | p in Reachable(h, sources) :: p in list
  }

  /** Between operations: a well-formed list of all live objects, clear marks, young ages below the limit,
      every root and all it reaches on the list, and statistics that match the list. */
  ghost predicate Consistent(h: Heap, objects: Ptr, list: seq<Ptr>, roots: seq<Ptr>, bytes: int, count: int) {
    && |h| > 0 && KidsInRange(h)
    && Chain(h, objects, list, NULL) && NoRepeats(list)
    && (forall p: Ptr | p < |h| :: ObjectOk(h, list, p))
    && (forall r | r in roots :: r in list)
    && Safe(h, list, RootSet(roots))
    && bytes == TotalSize(h, list) && count == |list|
  }

  /** One object across a collection: kept and aged, or freed. */
  ghost predicate CollectedAt(h: Heap, h': Heap, list: seq<Ptr>, list': seq<Ptr>, live: set<Ptr>, full: bool, generational: bool, p: Ptr) {
    && p < |h| && p < |h'|
    && if p !in list then p !in list' && h'[p] == h[p]
       else if p in live || Skipped(h[p], full, generational) then
         p in list' && h'[p] == Aged(h[p], full, generational).(next := h'[p].next)
       else p !in list' && h'[p] == h[p].(freed := true, next := h'[p].next)
  }

  ghost predicate Collected(h: Heap, h': Heap, list: seq<Ptr>, list': seq<Ptr>, live: set<Ptr>, full: bool, generational: bool) {
    |h| == |h'| && forall p: Ptr | p < |h| :: CollectedAt(h, h', list, list', live, full, generational, p)
  }

  ghost predicate MarkedExactly(h: Heap, hm: Heap, live: set<Ptr>) {
    OnlyMarked(h, hm) && forall p: Ptr | p < |hm| :: hm[p].marked <==> p in live
  }

  lemma MarksKeepChain(h: Heap, hm: Heap, objects: Ptr, list: seq<Ptr>)
    requires OnlyMarked(h, hm) && Chain(h, objects, list, NULL)
    ensures Chain(hm, objects, list, NULL) && TotalSize(hm, list) == TotalSize(h, list)
  {
    forall p: Ptr | p < |h| ensures hm[p].next == h[p].next && hm[p].size == h[p].size { assert OnlyMarkedAt(h, hm, p); }
    ChainFrame(h, hm, objects, list, NULL);
    SameSizes(h, hm, list);
  }

  lemma SweptIsCollected(h: Heap, hm: Heap, h': Heap, list: seq<Ptr>, live: set<Ptr>, full: bool, generational: bool)
    requires MarkedExactly(h, hm, live) && Swept(hm, h', list, full, generational)
    requires (forall p: Ptr | p < |h| :: ObjectOk(h, list, p)) && (forall p | p in live :: p in list)
    ensures Collected(h, h', list, Kept(hm, list, full, generational), live, full, generational)
  {
    KeptMembers(hm, list, full, generational);
    var list' := Kept(hm, list, full, generational);
    forall p: Ptr | p < |h| ensures CollectedAt(h, h', list, list', live, full, generational, p) {
      assert ObjectOk(h, list, p) && OnlyMarkedAt(h, hm, p);
      if p in list { assert SweptAt(hm, h', p, full, generational); } else { assert Untouched(hm, h', p); }
    }
  }

  lemma CollectedIsConsistent(h: Heap, h': Heap, objects': Ptr, list: seq<Ptr>, list': seq<Ptr>, roots: seq<Ptr>,
      objects: Ptr, bytes: int, count: int, bytes': int, full: bool, generational: bool)
    requires Consistent(h, objects, list, roots, bytes, count)
    requires Collected(h, h', list, list', Reachable(h, RootSet(roots)), full, generational)
    requires Chain(h', objects', list', NULL) && NoRepeats(list') && bytes' == TotalSize(h', list')
    ensures Consistent(h', objects', list', roots, bytes', |list'|)
  {
    var live := Reachable(h, RootSet(roots));
    forall p: Ptr | p < |h| ensures h'[p].kids == h[p].kids && ObjectOk(h', list', p) && (p in live ==> p in list') {
      assert CollectedAt(h, h', list, list', live, full, generational, p) && ObjectOk(h, list, p);
    }
    SameKidsSameEdges(h, h');
    ReachContainsSources(Edges(h), RootSet(roots));
    forall r | r in roots ensures r in list' { assert exists i :: 0 <= i < |list| && list[i] == r; }
  }

  /** The live objects of `h`, and no others, are marked in `hm`. */
  ghost predicate ReadyToSweep(h: Heap, hm: Heap, objects: Ptr, list: seq<Ptr>, roots: seq<Ptr>, bytes: int, count: int) {
    && Consistent(h, objects, list, roots, bytes, count) && MarkedExactly(h, hm, Reachable(h, RootSet(roots)))
    && Chain(hm, objects, list, NULL) && TotalSize(hm, list) == bytes
  }

  ghost predicate CollectionDone(h: Heap, h': Heap, objects': Ptr, list: seq<Ptr>, list': seq<Ptr>, roots: seq<Ptr>,
      bytes': int, count': int, full: bool, generational: bool)
  {
    && Consistent(h', objects', list', roots, bytes', count')
    && Collected(h, h', list, list', Reachable(h, RootSet(roots)), full, generational)
  }

  lemma SweepMayStart(h: Heap, hm: Heap, objects: Ptr, list: seq<Ptr>, roots: seq<Ptr>, bytes: int, count: int)
    requires ReadyToSweep(h, hm, objects, list, roots, bytes, count)
    ensures Chain(hm, objects, list, NULL) && NoRepeats(list) && bytes == TotalSize(hm, list) && count == |list|
  {
  }

  /** Marking, then sweeping: what that makes of the heap as a whole. */
  lemma MarkedAndSwept(h: Heap, hm: Heap, h': Heap, objects: Ptr, objects': Ptr, list: seq<Ptr>, list': seq<Ptr>, roots: seq<Ptr>,
      bytes: int, count: int, bytes': int, full: bool, generational: bool)
    requires ReadyToSweep(h, hm, objects, list, roots, bytes, count)
    requires Swept(hm, h', list, full, generational) && list' == Kept(hm, list, full, generational)
    requires Chain(h', objects', list', NULL) && bytes' == TotalSize(hm, list')
    ensures CollectionDone(h, h', objects', list, list', roots, bytes', |list'|, full, generational)
  {
    SweptIsCollected(h, hm, h', list, Reachable(h, RootSet(roots)), full, generational);
    KeptMembers(hm, list, full, generational);
    SweptSizes(hm, h', list, list', full, generational);
    CollectedIsConsistent(h, h', objects', list, list', roots, objects, bytes, count, bytes', full, generational);
  }

  /** The live objects of `h` are all still in `h'`, unfreed, with the references they had. */
  ghost predicate StillThere(h: Heap, h': Heap, list': seq<Ptr>, live: set<Ptr>) {
    forall q | q in live :: StillThereAt(h, h', list', q)
  }

  ghost predicate StillThereAt(h: Heap, h': Heap, list': seq<Ptr>, q: Ptr) {
    q < |h| && q < |h'| && q in list' && !h'[q].freed && h'[q].kids == h[q].kids && h'[q].size == h[q].size
  }

  lemma LiveIsThere(h: Heap, objects: Ptr, list: seq<Ptr>, roots: seq<Ptr>, bytes: int, count: int)
    requires Consistent(h, objects, list, roots, bytes, count)
    ensures StillThere(h, h, list, Reachable(h, RootSet(roots)))
  {
    ListInHeap(h, objects, list);
    forall q | q in Reachable(h, RootSet(roots)) ensures StillThereAt(h, h, list, q) { assert ObjectOk(h, list, q); }
  }

  /** No collection frees an object the roots reach. */
  lemma CollectionKeepsLive(h: Heap, h': Heap, objects: Ptr, list: seq<Ptr>, list': seq<Ptr>, roots: seq<Ptr>, bytes: int, count: int,
      full: bool, generational: bool)
    requires Consistent(h, objects, list, roots, bytes, count)
    requires Collected(h, h', list, list', Reachable(h, RootSet(roots)), full, generational)
    ensures StillThere(h, h', list', Reachable(h, RootSet(roots)))
  {
    LiveIsThere(h, objects, list, roots, bytes, count);
    var live := Reachable(h, RootSet(roots));
    forall q | q in live ensures StillThereAt(h, h', list', q) {
      assert StillThereAt(h, h, list, q) && CollectedAt(h, h', list, list', live, full, generational, q);
    }
  }

  ghost predicate FreedBy(h: Heap, h': Heap, p: Ptr) {
    p < |h| && p < |h'| && !h[p].freed && h'[p].freed
  }

  ghost predicate Dead(h: Heap, roots: seq<Ptr>, full: bool, generational: bool, p: Ptr)
    requires InHeap(h, p)
  {
    p !in Reachable(h, RootSet(roots)) && (full || !generational || !h[p].old_)
  }

  /** A full collection frees exactly the unreachable objects, a generational minor one exactly the
      unreachable young ones. */
  lemma CollectionFrees(h: Heap, h': Heap, objects: Ptr, list: seq<Ptr>, list': seq<Ptr>, roots: seq<Ptr>, bytes: int, count: int,
      full: bool, generational: bool)
    requires Consistent(h, objects, list, roots, bytes, count)
    requires Collected(h, h', list, list', Reachable(h, RootSet(roots)), full, generational)
    ensures forall p | p in list :: InHeap(h, p) && (FreedBy(h, h', p) <==> Dead(h, roots, full, generational, p))
  {
    ListInHeap(h, objects, list);
    forall p | p in list ensures FreedBy(h, h', p) <==> Dead(h, roots, full, generational, p) {
      assert ObjectOk(h, list, p);
      assert CollectedAt(h, h', list, list', Reachable(h, RootSet(roots)), full, generational, p);
    }
  }

  lemma CollectedSameReach(h: Heap, h': Heap, list: seq<Ptr>, list': seq<Ptr>, live: set<Ptr>, full: bool, generational: bool, sources: set<Ptr>)
    requires Collected(h, h', list, list', live, full, generational)
    ensures Reachable(h', sources) == Reachable(h, sources)
  {
    forall p: Ptr | p < |h| ensures h'[p].kids == h[p].kids {
      assert CollectedAt(h, h', list, list', live, full, generational, p);
    }
    SameKidsSameEdges(h, h');
  }

  lemma CleanMarks(h: Heap, list: seq<Ptr>)
    requires forall p: Ptr | p < |h| :: ObjectOk(h, list, p)
    ensures NoneMarked(h)
  {
    forall p: Ptr | p < |h| ensures !h[p].marked { assert ObjectOk(h, list, p); }
  }

  // --- Mutation ---

  lemma UnionReach(g: Graph, a: set<Ptr>, b: set<Ptr>)
    requires WellFormed(g)
    ensures Reach(g, a + b) <= Reach(g, a) + Reach(g, b)
  {
    ReachContainsSources(g, a);
    ReachContainsSources(g, b);
    ReachIsClosed(g, a);
    ReachIsClosed(g, b);
    ReachIsLeast(g, a + b, Reach(g, a) + Reach(g, b));
  }

  function Stored(h: Heap, p: Ptr, i: nat, v: Ptr): Heap
    requires p < |h| && i < |h[p].kids|
  {
    h[p := h[p].(kids := h[p].kids[i := v])]
  }

  /** Storing a reference makes nothing reachable but what the stored object reaches. */
  lemma StoredReach(h: Heap, p: Ptr, i: nat, v: Ptr, sources: set<Ptr>)
    requires KidsInRange(h) && p < |h| && i < |h[p].kids| && v < |h|
    ensures KidsInRange(Stored(h, p, i, v))
    ensures Reachable(Stored(h, p, i, v), sources) <= Reachable(h, sources) + (if v == NULL then {} else Reachable(h, {v}))
  {
    var h' := Stored(h, p, i, v);
    forall q: Ptr, w: Ptr | q < |h'| && w in h'[q].kids ensures w < |h'| {
      assert w == v || w in h[q].kids;
    }
    var g, g' := Edges(h), Edges(h');
    EdgesDraw(h);
    var all := Reach(g, sources) + (if v == NULL then {} else Reach(g, {v}));
    ReachContainsSources(g, sources);
    ReachContainsSources(g, {v});
    ReachIsClosed(g, sources);
    ReachIsClosed(g, {v});
    forall u, w | u in all && u < |g'| && w in g'[u] ensures w in all {
      if w !in g[u] { assert w == v; }
    }
    ReachIsLeast(g', sources, all);
  }

  // --- Allocation ---

  function Fresh(size: nat, fields: nat, next: Ptr): Header {
    Header(size, false, false, 0, next, seq(fields, _ => NULL), false)
  }

  /** A new object is on the list, reaches only itself, and changes nothing else that is reachable. */
  lemma FreshReach(h: Heap, size: nat, fields: nat, next: Ptr, sources: set<Ptr>)
    requires KidsInRange(h)
    ensures KidsInRange(h + [Fresh(size, fields, next)])
    ensures Reachable(h + [Fresh(size, fields, next)], sources) <= Reachable(h, sources) + {|h|}
  {
    var h' := h + [Fresh(size, fields, next)];
    var g, g' := Edges(h), Edges(h');
    EdgesDraw(h);
    ReachContainsSources(g, sources);
    ReachIsClosed(g, sources);
    forall u, w | u in Reach(g, sources) + {|h|} && u < |g'| && w in g'[u] ensures w in Reach(g, sources) {
      if u < |h| { assert w in g[u]; }
    }
    ReachIsLeast(g', sources, Reach(g, sources) + {|h|});
  }

  lemma StoredIsConsistent(h: Heap, objects: Ptr, list: seq<Ptr>, roots: seq<Ptr>, bytes: int, count: int, p: Ptr, i: nat, v: Ptr)
    requires Consistent(h, objects, list, roots, bytes, count) && p < |h| && i < |h[p].kids| && v < |h|
    requires v == NULL || Safe(h, list, {v})
    ensures Consistent(Stored(h, p, i, v), objects, list, roots, bytes, count)
  {
    var h' := Stored(h, p, i, v);
    StoredReach(h, p, i, v, RootSet(roots));
    ChainFrame(h, h', objects, list, NULL);
    SameSizes(h, h', list);
    forall q: Ptr | q < |h'| ensures ObjectOk(h', list, q) { assert ObjectOk(h, list, q); }
  }

  lemma FreshIsConsistent(h: Heap, objects: Ptr, list: seq<Ptr>, roots: seq<Ptr>, bytes: int, count: int, size: nat, fields: nat)
    requires Consistent(h, objects, list, roots, bytes, count)
    ensures Consistent(h + [Fresh(size, fields, objects)], |h|, [|h|] + list, roots, bytes + size, count + 1)
    ensures Safe(h + [Fresh(size, fields, objects)], [|h|] + list, {|h|})
  {
    var p: Ptr := |h|;
    var h', list' := h + [Fresh(size, fields, objects)], [p] + list;
    FreshReach(h, size, fields, objects, RootSet(roots));
    FreshAlone(h, size, fields, objects);
    FreshChain(h, objects, list, h');
    FreshTotal(h, list, h');
    forall q: Ptr | q < |h'| ensures ObjectOk(h', list', q) {
      if q < |h| { assert ObjectOk(h, list, q); } else { assert h'[q] == Fresh(size, fields, objects); }
    }
  }

  lemma FreshAlone(h: Heap, size: nat, fields: nat, next: Ptr)
    requires KidsInRange(h)
    ensures Reachable(h + [Fresh(size, fields, next)], {|h|}) == {|h|}
  {
    var h' := h + [Fresh(size, fields, next)];
    ReachContainsSources(Edges(h'), {|h|});
    ReachIsLeast(Edges(h'), {|h|}, {|h|});
  }

  lemma FreshChain(h: Heap, objects: Ptr, list: seq<Ptr>, h': Heap)
    requires |h| > 0 && |h'| == |h| + 1 && h <= h' && h'[|h|].next == objects
    requires Chain(h, objects, list, NULL) && NoRepeats(list)
    ensures Chain(h', |h|, [|h|] + list, NULL) && NoRepeats([|h|] + list)
  {
    var list' := [|h|] + list;
    forall i | 0 <= i < |list'| ensures InHeap(h', list'[i]) && (0 < i ==> list'[i] < |h|) {
      if i > 0 { assert InHeap(h, list[i - 1]); }
    }
    forall i, j | 0 <= i < j < |list'| ensures Apart(list', i, j) { assert i > 0 ==> Apart(list, i - 1, j - 1); }
    forall i | 0 <= i < |list'| - 1 ensures NextIs(h', list', i) {
      if i > 0 { assert NextIs(h, list, i - 1); }
    }
  }

  lemma {:induction false} FreshTotal(h: Heap, list: seq<Ptr>, h': Heap)
    requires |h'| == |h| + 1 && h <= h' && forall p | p in list :: p < |h|
    ensures TotalSize(h', [|h|] + list) == TotalSize(h, list) + h'[|h|].size
  {
    var list' := [|h|] + list;
    if list == [] {
      assert list'[..0] == [];
    } else {
      var init, last := list[..|list| - 1], list[|list| - 1];
      assert list'[..|list'| - 1] == [|h|] + init && last in list;
      assert forall p | p in init :: p in list;
      FreshTotal(h, init, h');
    }
  }

  lemma FreshKeepsLive(h0: Heap, h: Heap, list: seq<Ptr>, live: set<Ptr>, size: nat, fields: nat, next: Ptr)
    requires StillThere(h0, h, list, live)
    ensures StillThere(h0, h + [Fresh(size, fields, next)], [|h|] + list, live)
  {
    forall q | q in live ensures StillThereAt(h0, h + [Fresh(size, fields, next)], [|h|] + list, q) {
      assert StillThereAt(h0, h, list, q);
    }
  }

  // --- Roots ---

  lemma FewerRoots(h: Heap, objects: Ptr, list: seq<Ptr>, roots: seq<Ptr>, roots': seq<Ptr>, bytes: int, count: int)
    requires Consistent(h, objects, list, roots, bytes, count) && forall r | r in roots' :: r in roots
    ensures Consistent(h, objects, list, roots', bytes, count)
  {
    ReachMonotone(Edges(h), RootSet(roots'), RootSet(roots));
  }

  lemma MoreRoots(h: Heap, objects: Ptr, list: seq<Ptr>, roots: seq<Ptr>, r: Ptr, bytes: int, count: int)
    requires Consistent(h, objects, list, roots, bytes, count) && r in list && Safe(h, list, {r})
    ensures Consistent(h, objects, list, roots + [r], bytes, count)
  {
    assert RootSet(roots + [r]) == RootSet(roots) + {r};
    EdgesDraw(h);
    UnionReach(Edges(h), RootSet(roots), {r});
  }
}
