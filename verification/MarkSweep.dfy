/** The generational mark-sweep collector over an intrusive list of objects. */
module MarkSweep {
  import opened Graphs
  import opened References
  import opened GcCollection
  import opened GcHeap

  const INITIAL_ROOTS := 64

  class Collector {
    var heap: Heap
    var objects: Ptr              // head of the list of all objects
    var roots: seq<Ptr>
    var generational: bool
    var threshold: int
    var growth: real
    var bytesSinceGc: int
    var bytesInUse: int
    var numObjects: int
    var collections: int
    var objectsAllocated: int
    var objectsFreed: int
    var totalAllocated: int
    var totalFreed: int
    var collecting: bool
    var rootCapacity: nat
    ghost var list: seq<Ptr>      // the objects in list order

    /** `nuwan_gc_init`, with the collector's settings. */
    constructor (generational: bool, threshold: int, growth: real)
      ensures Valid() && roots == [] && list == [] && bytesSinceGc == 0 && !collecting && rootCapacity == 64
    {
      heap := [Header(0, false, false, 0, NULL, [], false)];
      objects, roots, list := NULL, [], [];
      this.generational, this.threshold, this.growth := generational, threshold, growth;
      bytesSinceGc, bytesInUse, numObjects, collections := 0, 0, 0, 0;
      objectsAllocated, objectsFreed, totalAllocated, totalFreed := 0, 0, 0, 0;
      collecting, rootCapacity := false, INITIAL_ROOTS;
      new;
      ReachIsLeast(Edges(heap), RootSet(roots), {});
    }

    // --- Marking ---

    /** `gc_mark_object`. */
    method MarkObject(p: Ptr, ghost g: Graph)
      requires Draws(g, heap) && p < |heap|
      modifies `heap
      ensures OnlyMarked(old(heap), heap) && Draws(g, heap)
      ensures if p == NULL then heap == old(heap) else heap[p].marked
      ensures !NewlyMarked(old(heap), heap, NULL)
      ensures Settled(g, old(heap), heap, NULL) && ReachedFrom(g, {p}, old(heap), heap)
      decreases |Unmarked(heap)|, 0
    {
      if p == NULL || heap[p].marked { return; }
      ghost var h0, h1 := heap, Marked(heap, p);
      MarkedOne(g, h0, p);
      heap := Marked(heap, p);
      ScanObject(p, g);
      MarkedMore(g, {p}, p, h0, h1, heap, p);
      SettledWith(g, h0, heap, p);
      assert OnlyMarkedAt(h1, heap, p);
    }

    /** The type's scanner: marks the children of `p` in order. */
    method ScanObject(p: Ptr, ghost g: Graph)
      requires Draws(g, heap) && p < |heap| && p != NULL
      modifies `heap
      ensures OnlyMarked(old(heap), heap) && Draws(g, heap)
      ensures KidsMarked(g, heap, p)
      ensures !NewlyMarked(old(heap), heap, NULL)
      ensures Settled(g, old(heap), heap, NULL) && ReachedFrom(g, {p}, old(heap), heap)
      decreases |Unmarked(heap)|, 1
    {
      var kids := heap[p].kids;
      ghost var h0 := heap;
      for i := 0 to |kids|
        invariant OnlyMarked(h0, heap) && Draws(g, heap) && !NewlyMarked(h0, heap, NULL)
        invariant Settled(g, h0, heap, NULL) && ReachedFrom(g, {p}, h0, heap)
        invariant FirstMarked(heap, kids, i)
        invariant |Unmarked(heap)| <= |Unmarked(h0)|
      {
        ghost var h1 := heap;
        assert DrawsAt(g, h0, p) && (kids[i] != NULL ==> kids[i] in g[p]);
        MarkObject(kids[i], g);
        if kids[i] != NULL {
          ChildReach(g, p, kids[i]);
          MarkedMore(g, {p}, kids[i], h0, h1, heap, NULL);
          FirstMarkedMore(h1, heap, kids, i);
        }
      }
      assert DrawsAt(g, h0, p);
    }

    /** `gc_mark_roots`. */
    method MarkRoots(ghost g: Graph)
      requires Draws(g, heap) && NoneMarked(heap) && NULL !in roots && forall r | r in roots :: r < |heap|
      modifies `heap
      ensures OnlyMarked(old(heap), heap)
      ensures forall p: Ptr | p < |heap| :: heap[p].marked <==> p in Reach(g, RootSet(roots))
    {
      ghost var h0, all := heap, RootSet(roots);
      for i := 0 to |roots|
        invariant OnlyMarked(h0, heap) && Draws(g, heap) && !NewlyMarked(h0, heap, NULL)
        invariant Settled(g, h0, heap, NULL) && ReachedFrom(g, all, h0, heap)
        invariant FirstMarked(heap, roots, i)
      {
        ghost var h1 := heap;
        assert roots[i] in roots;
        MarkObject(roots[i], g);
        ReachMonotone(g, {roots[i]}, all);
        MarkedMore(g, all, roots[i], h0, h1, heap, NULL);
        FirstMarkedMore(h1, heap, roots, i);
      }
      MarkedIsReach(g, roots, h0, heap);
    }

    // --- Sweeping ---

    /** One turn of the sweep's loop. */
    method SweepObject(full: bool, prev: Ptr, obj: Ptr, ghost h: Heap, ghost all: seq<Ptr>, ghost done: seq<Ptr>, ghost rest: seq<Ptr>)
      returns (prev': Ptr, next: Ptr)
      requires Midway(h, heap, objects, all, done, rest, prev, obj, bytesInUse, numObjects, full, generational)
      requires obj != NULL
      modifies `heap, `objects, `bytesInUse, `numObjects, `totalFreed, `objectsFreed
      ensures bytesInUse + totalFreed == old(bytesInUse + totalFreed) && numObjects + objectsFreed == old(numObjects + objectsFreed)
      ensures rest != [] && obj == rest[0]
      ensures Midway(h, heap, objects, all, done + [obj], rest[1..], prev', next, bytesInUse, numObjects, full, generational)
    {
      MidwayStep(h, heap, objects, all, done, rest, prev, obj, bytesInUse, numObjects, full, generational);
      next := heap[obj].next;
      prev' := prev;
      if Survives(heap[obj], full, generational) {
        heap := Ages(heap, obj, full, generational);
        prev' := obj;
      } else {
        if prev == NULL { objects := next; }
        totalFreed, objectsFreed := totalFreed + heap[obj].size, objectsFreed + 1;
        bytesInUse, numObjects := bytesInUse - heap[obj].size, numObjects - 1;
        heap := Unlinked(heap, prev, obj);
      }
    }

    method SweepAll(full: bool) returns (ghost prev: Ptr, ghost rest: seq<Ptr>, ghost done: seq<Ptr>)
      requires Chain(heap, objects, list, NULL) && NoRepeats(list)
      requires bytesInUse == TotalSize(heap, list) && numObjects == |list|
      modifies `heap, `objects, `bytesInUse, `numObjects, `totalFreed, `objectsFreed
      ensures Midway(old(heap), heap, objects, list, done, rest, prev, NULL, bytesInUse, numObjects, full, generational)
      ensures bytesInUse + totalFreed == old(bytesInUse + totalFreed) && numObjects + objectsFreed == old(numObjects + objectsFreed)
    {
      ghost var h := heap;
      done, rest := [], list;
      SweepStarts(h, objects, list, full, generational);
      var last, obj := NULL, objects;
      while obj != NULL
        invariant Midway(h, heap, objects, list, done, rest, last, obj, bytesInUse, numObjects, full, generational)
        invariant bytesInUse + totalFreed == old(bytesInUse + totalFreed)
        invariant numObjects + objectsFreed == old(numObjects + objectsFreed)
        decreases |rest|
      {
        ghost var was := obj;
        last, obj := SweepObject(full, last, obj, h, list, done, rest);
        done, rest := done + [was], rest[1..];
      }
      prev := last;
    }

    /** `gc_sweep`: the loop keeps the last survivor, NULL standing for the list head. */
    method Sweep(full: bool)
      requires Chain(heap, objects, list, NULL) && NoRepeats(list)
      requires bytesInUse == TotalSize(heap, list) && numObjects == |list|
      modifies `heap, `objects, `list, `bytesInUse, `numObjects, `totalFreed, `objectsFreed
      ensures bytesInUse + totalFreed == old(bytesInUse + totalFreed) && numObjects + objectsFreed == old(numObjects + objectsFreed)
      ensures list == Kept(old(heap), old(list), full, generational)
      ensures Swept(old(heap), heap, old(list), full, generational)
      ensures Chain(heap, objects, list, NULL)
      ensures bytesInUse == TotalSize(old(heap), list) && numObjects == |list|
    {
      ghost var prev, rest, done := SweepAll(full);
      SweepEnds(old(heap), heap, objects, list, done, rest, full, generational);
      list := Kept(old(heap), list, full, generational);
    }

    // --- The collector's interface ---

    /** What was allocated is in use or freed. */
    ghost predicate Balanced()
      reads `bytesInUse, `numObjects, `totalAllocated, `totalFreed, `objectsAllocated, `objectsFreed
    {
      totalAllocated == bytesInUse + totalFreed && objectsAllocated == numObjects + objectsFreed
    }

    ghost predicate Valid()
      reads `heap, `objects, `list, `roots, `bytesInUse, `numObjects
      reads `totalAllocated, `totalFreed, `objectsAllocated, `objectsFreed
    {
      Consistent(heap, objects, list, roots, bytesInUse, numObjects) && Balanced()
    }

    ghost function Live(): set<Ptr>
      reads `heap, `roots
    {
      Reachable(heap, RootSet(roots))
    }

    method MarkLive()
      requires Valid()
      modifies `heap
      ensures MarkedExactly(old(heap), heap, old(Live()))
      ensures Chain(heap, objects, list, NULL) && TotalSize(heap, list) == bytesInUse
    {
      ghost var h := heap;
      EdgesDraw(heap);
      assert forall r | r in roots :: r in list;
      ListInHeap(heap, objects, list);
      CleanMarks(heap, list);
      MarkRoots(Edges(heap));
      MarksKeepChain(h, heap, objects, list);
    }

    /** The sweep of a heap `h` whose live objects have been marked. */
    method SweepMarked(full: bool, ghost h: Heap)
      requires ReadyToSweep(h, heap, objects, list, roots, bytesInUse, numObjects) && Balanced()
      modifies `heap, `objects, `list, `bytesInUse, `numObjects, `totalFreed, `objectsFreed
      ensures CollectionDone(h, heap, objects, old(list), list, roots, bytesInUse, numObjects, full, generational) && Balanced()
    {
      ghost var hm, o, l, bytes, count := heap, objects, list, bytesInUse, numObjects;
      SweepMayStart(h, hm, o, l, roots, bytes, count);
      Sweep(full);
      assert Balanced();
      MarkedAndSwept(h, hm, heap, o, objects, l, list, roots, bytes, count, bytesInUse, full, generational);
    }

    /** Marks from the roots, then sweeps: the common part of both collections. */
    method MarkAndSweep(full: bool)
      requires Valid() && collecting
      modifies `heap, `objects, `list, `bytesInUse, `numObjects, `totalFreed, `objectsFreed
      ensures Valid()
      ensures Collected(old(heap), heap, old(list), list, old(Live()), full, generational)
    {
      ghost var h := heap;
      MarkLive();
      SweepMarked(full, h);
    }

    method SameLive(full: bool)
      requires Valid() && collecting
      modifies `heap, `objects, `list, `bytesInUse, `numObjects, `totalFreed, `objectsFreed
      ensures Valid() && Live() == old(Live())
      ensures Collected(old(heap), heap, old(list), list, old(Live()), full, generational)
    {
      MarkAndSweep(full);
      CollectedSameReach(old(heap), heap, old(list), list, old(Live()), full, generational, RootSet(roots));
    }

    /** A minor collection that leaves more than half of the threshold in use raises it by the growth factor. */
    method AdjustThreshold()
      requires Valid()
      modifies `threshold
      ensures Valid() && Live() == old(Live())
      ensures threshold == if bytesInUse > old(threshold) / 2 then (bytesInUse as real * growth).Floor else old(threshold)
    {
      if bytesInUse > threshold / 2 { threshold := (bytesInUse as real * growth).Floor; }
    }

    method BeginCollection()
      requires Valid() && !collecting
      modifies `collecting, `collections
      ensures Valid() && collecting && collections == old(collections) + 1 && Live() == old(Live())
    {
      collecting, collections := true, collections + 1;
    }

    method EndCollection()
      requires Valid()
      modifies `collecting, `bytesSinceGc
      ensures Valid() && !collecting && bytesSinceGc == 0 && Live() == old(Live())
    {
      bytesSinceGc, collecting := 0, false;
    }

    /** A collection; only a minor one adjusts the threshold. */
    method RunCollection(full: bool)
      requires Valid() && !collecting
      modifies `heap, `objects, `list, `bytesInUse, `numObjects, `totalFreed, `objectsFreed
      modifies `collecting, `collections, `threshold, `bytesSinceGc
      ensures Valid() && !collecting && Live() == old(Live())
      ensures Collected(old(heap), heap, old(list), list, old(Live()), full, generational)
      ensures bytesSinceGc == 0 && collections == old(collections) + 1
      ensures threshold == if !full && bytesInUse > old(threshold) / 2 then (bytesInUse as real * growth).Floor else old(threshold)
    {
      BeginCollection();
      SameLive(full);
      if !full { AdjustThreshold(); }
      EndCollection();
    }

    /** `nuwan_gc_collect`: a minor collection, unless generations are switched off; nothing while another is
        under way. */
    method Collect()
      requires !collecting ==> Valid()
      modifies `heap, `objects, `list, `bytesInUse, `numObjects, `totalFreed, `objectsFreed
      modifies `collecting, `collections, `threshold, `bytesSinceGc
      ensures old(collecting) ==> unchanged(this)
      ensures !old(collecting) ==>
                Valid() && !collecting && Live() == old(Live())
      ensures !old(collecting) ==> Collected(old(heap), heap, old(list), list, old(Live()), false, generational)
      ensures !old(collecting) ==>
                bytesSinceGc == 0 && collections == old(collections) + 1
      ensures !old(collecting) ==>
                threshold == if bytesInUse > old(threshold) / 2 then (bytesInUse as real * growth).Floor else old(threshold)
    {
      if collecting { return; }
      RunCollection(false);
    }

    /** `nuwan_gc_collect_full`. */
    method CollectFull()
      requires !collecting ==> Valid()
      modifies `heap, `objects, `list, `bytesInUse, `numObjects, `totalFreed, `objectsFreed
      modifies `collecting, `collections, `threshold, `bytesSinceGc
      ensures old(collecting) ==> unchanged(this)
      ensures !old(collecting) ==>
                Valid() && !collecting && Live() == old(Live())
      ensures !old(collecting) ==> Collected(old(heap), heap, old(list), list, old(Live()), true, generational)
      ensures !old(collecting) ==>
                bytesSinceGc == 0 && collections == old(collections) + 1 && threshold == old(threshold)
    {
      if collecting { return; }
      RunCollection(true);
    }

    predicate Due()
      reads `bytesSinceGc, `threshold, `collecting
    {
      bytesSinceGc >= threshold && !collecting
    }

    /** The collection that a due allocation starts with. */
    method CollectIfDue()
      requires Valid()
      modifies this
      ensures Valid() && roots == old(roots) && generational == old(generational) && collecting == old(collecting)
      ensures totalAllocated == old(totalAllocated) && objectsAllocated == old(objectsAllocated)
      ensures StillThere(old(heap), heap, list, old(Live()))
      ensures collections == old(collections) + (if old(bytesSinceGc >= threshold && !collecting) then 1 else 0)
      ensures if old(Due())
              then Collected(old(heap), heap, old(list), list, old(Live()), false, generational) && bytesSinceGc == 0
              else heap == old(heap) && list == old(list) && objects == old(objects) && bytesSinceGc == old(bytesSinceGc)
    {
      LiveIsThere(heap, objects, list, roots, bytesInUse, numObjects);
      if bytesSinceGc >= threshold {
        ghost var h, o, l, b, n := heap, objects, list, bytesInUse, numObjects;
        Collect();
        if !collecting && !old(collecting) { CollectionKeepsLive(h, heap, o, l, list, roots, b, n, false, generational); }
      }
    }

    /** `nuwan_gc_alloc`: `available` says whether the allocator delivers. The new object has `fields`
        reference fields, all NULL, and heads the list. */
    method Alloc(size: nat, fields: nat, available: bool) returns (p: Ptr)
      requires Valid()
      modifies this
      ensures Valid() && roots == old(roots)
      ensures p != NULL <==> size > 0 && available
      ensures StillThere(old(heap), heap, list, old(Live()))
      ensures p != NULL ==> p == |heap| - 1 >= |old(heap)| && objects == p && heap[p] == Fresh(size, fields, heap[p].next)
      ensures p != NULL ==> p in list && Safe(heap, list, {p})
      ensures p != NULL ==> var hd := heap[p];
                && hd.size == size && !hd.marked && !hd.old_ && hd.survived == 0 && !hd.freed
                && |hd.kids| == fields && forall i | 0 <= i < fields :: hd.kids[i] == NULL
      ensures size > 0 ==> collections == old(collections) + (if old(bytesSinceGc >= threshold && !collecting) then 1 else 0)
      ensures p != NULL && !old(Due()) ==> heap[..p] == old(heap) && list == [p] + old(list)
      ensures p != NULL && old(Due()) ==>
                list[0] == p && Collected(old(heap), heap[..p], old(list), list[1..], old(Live()), false, generational)
      ensures p != NULL ==> bytesSinceGc == (if old(Due()) then 0 else old(bytesSinceGc)) + size
      ensures totalAllocated == old(totalAllocated) + (if p != NULL then size else 0)
      ensures objectsAllocated == old(objectsAllocated) + (if p != NULL then 1 else 0)
    {
      LiveIsThere(heap, objects, list, roots, bytesInUse, numObjects);
      if size == 0 { return NULL; }
      CollectIfDue();
      if !available { return NULL; }
      FreshIsConsistent(heap, objects, list, roots, bytesInUse, numObjects, size, fields);
      FreshKeepsLive(old(heap), heap, list, old(Live()), size, fields, objects);
      p := |heap|;
      heap := heap + [Fresh(size, fields, objects)];
      objects := p;
      totalAllocated, objectsAllocated := totalAllocated + size, objectsAllocated + 1;
      bytesInUse, numObjects, bytesSinceGc := bytesInUse + size, numObjects + 1, bytesSinceGc + size;
      list := [p] + list;
    }

    /** `nuwan_gc_add_root`: registers any pointer, growing the array when it is full if `available` says the
        allocator delivers. The collector stays consistent if the object and all it reaches are its own. */
    method AddRoot(p: Ptr, available: bool)
      modifies `roots, `rootCapacity
      ensures roots == if p == NULL || (old(|roots| >= rootCapacity) && !available) then old(roots) else old(roots) + [p]
      ensures 0 < old(rootCapacity) && old(|roots| <= rootCapacity) ==> |roots| <= rootCapacity
      ensures old(Valid()) && (p == NULL || (p in list && Safe(heap, list, {p}))) ==> Valid()
    {
      if p == NULL { return; }
      if |roots| >= rootCapacity {
        if !available { return; }
        rootCapacity := rootCapacity * 2;
      }
      if Valid() && p in list && Safe(heap, list, {p}) { MoreRoots(heap, objects, list, roots, p, bytesInUse, numObjects); }
      roots := roots + [p];
    }

    /** The last root takes the place of one that goes. */
    method RemoveAt(i: nat)
      requires Valid() && i < |roots|
      modifies `roots
      ensures Valid() && multiset(roots) == multiset(old(roots)) - multiset{old(roots)[i]}
    {
      SwapAndShrink(roots, i);
      FewerRoots(heap, objects, list, roots, roots[i := roots[|roots| - 1]][..|roots| - 1], bytesInUse, numObjects);
      roots := roots[i := roots[|roots| - 1]][..|roots| - 1];
    }

    lemma NotThere(roots: seq<Ptr>, p: Ptr)
      requires forall j | 0 <= j < |roots| :: roots[j] != p
      ensures multiset(roots) == multiset(roots) - multiset{p}
    {
      assert p !in multiset(roots);
    }

    /** `nuwan_gc_remove_root`: one registration goes. */
    method RemoveRoot(p: Ptr)
      requires Valid()
      modifies `roots
      ensures Valid() && multiset(roots) == multiset(old(roots)) - multiset{p}
    {
      if p == NULL {
        NullIsNoRoot(heap, objects, list, roots);
        return;
      }
      for i := 0 to |roots|
        invariant roots == old(roots) && forall j | 0 <= j < i :: roots[j] != p
      {
        if roots[i] == p {
          RemoveAt(i);
          return;
        }
      }
      NotThere(roots, p);
    }

    /** A store by the program: field `i` of `p` refers to `v`, which the collector has not freed. */
    method Store(p: Ptr, i: nat, v: Ptr)
      requires Valid() && p < |heap| && i < |heap[p].kids| && v < |heap| && (v == NULL || Safe(heap, list, {v}))
      modifies `heap
      ensures Valid() && heap == Stored(old(heap), p, i, v)
      ensures |heap| == |old(heap)| && heap[p] == old(heap[p]).(kids := old(heap[p].kids)[i := v])
      ensures forall q: Ptr | q < |heap| && q != p :: heap[q] == old(heap)[q]
    {
      StoredIsConsistent(heap, objects, list, roots, bytesInUse, numObjects, p, i, v);
      heap := Stored(heap, p, i, v);
    }
  }

  lemma NullIsNoRoot(h: Heap, objects: Ptr, list: seq<Ptr>, roots: seq<Ptr>)
    requires Chain(h, objects, list, NULL) && forall r | r in roots :: r in list
    ensures NULL !in roots && multiset(roots) == multiset(roots) - multiset{NULL}
  {
    ListInHeap(h, objects, list);
  }

  lemma SwapAndShrink(s: seq<Ptr>, i: nat)
    requires i < |s|
    ensures var t := s[i := s[|s| - 1]][..|s| - 1];
      multiset(t) == multiset(s) - multiset{s[i]} && forall r | r in t :: r in s
  {
    var t := s[i := s[|s| - 1]][..|s| - 1];
    assert s == s[..|s| - 1] + [s[|s| - 1]];
    if i == |s| - 1 {
      assert t == s[..|s| - 1];
    } else {
      assert s[..|s| - 1][i := s[|s| - 1]] == t;
    }
  }
}
