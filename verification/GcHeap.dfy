/** The headers and the object list of the generational collector. */
module GcHeap {
  import opened Graphs
  import opened References

  const PROMOTE_AGE := 3

  /** `kids` is what the type's scanner marks, in order; it is empty without a scanner. */
  datatype Header = Header(size: nat, marked: bool, old_: bool, survived: nat, next: Ptr, kids: seq<Ptr>, freed: bool)

  /** Headers by object pointer; entry 0 stands for NULL and is never read. */
  type Heap = seq<Header>

  /** The edges marking follows. */
  ghost predicate Draws(g: Graph, h: Heap) {
    |g| == |h| && WellFormed(g) && forall p: Ptr | p < |h| :: DrawsAt(g, h, p)
  }

  ghost predicate DrawsAt(g: Graph, h: Heap, p: Ptr) {
    p < |h| && p < |g| && forall v: Ptr :: v in g[p] <==> v != NULL && v in h[p].kids
  }

  ghost predicate KidsInRange(h: Heap) {
    forall p: Ptr, v: Ptr | p < |h| && v in h[p].kids :: v < |h|
  }

  ghost function Edges(h: Heap): Graph {
    seq(|h|, p requires 0 <= p < |h| => set v | v in h[p].kids && v != NULL)
  }

  lemma EdgesDraw(h: Heap)
    requires KidsInRange(h)
    ensures Draws(Edges(h), h)
  {
    forall p: Ptr | p < |h| ensures DrawsAt(Edges(h), h, p) {}
  }

  lemma SameKidsSameEdges(h: Heap, h': Heap)
    requires |h| == |h'| && forall p: Ptr | p < |h| :: h[p].kids == h'[p].kids
    ensures Edges(h) == Edges(h')
  {
  }

  // --- Marking ---

  function Marked(h: Heap, p: Ptr): Heap
    requires p < |h|
  {
    h[p := h[p].(marked := true)]
  }

  ghost predicate OnlyMarkedAt(h: Heap, h': Heap, p: Ptr) {
    p < |h| && p < |h'| && h'[p] == h[p].(marked := h'[p].marked) && (h[p].marked ==> h'[p].marked)
  }

  /** Nothing but mark bits changed, and none was cleared. */
  ghost predicate OnlyMarked(h: Heap, h': Heap) {
    |h| == |h'| && forall p: Ptr | p < |h| :: OnlyMarkedAt(h, h', p)
  }

  predicate NewlyMarked(h: Heap, h': Heap, p: Ptr) {
    p < |h| && p < |h'| && h'[p].marked && !h[p].marked
  }

  ghost predicate KidsMarked(g: Graph, h: Heap, p: Ptr) {
    p < |g| && forall v: Ptr | v in g[p] :: v < |h| && h[v].marked
  }

  /** All marked since `h` have their children marked, but perhaps `except`. */
  ghost predicate Settled(g: Graph, h: Heap, h': Heap, except: Ptr) {
    forall p: Ptr | NewlyMarked(h, h', p) && p != except :: KidsMarked(g, h', p)
  }

  ghost predicate ReachedFrom(g: Graph, sources: set<Ptr>, h: Heap, h': Heap) {
    forall p: Ptr | NewlyMarked(h, h', p) :: p in Reach(g, sources)
  }

  ghost function Unmarked(h: Heap): set<Ptr> {
    set p: Ptr | p < |h| && !h[p].marked
  }

  lemma UnmarkedShrinks(h: Heap, h': Heap)
    requires OnlyMarked(h, h')
    ensures |Unmarked(h')| <= |Unmarked(h)|
    ensures forall p | NewlyMarked(h, h', p) :: |Unmarked(h')| < |Unmarked(h)|
  {
    forall p: Ptr | p in Unmarked(h') ensures p in Unmarked(h) { assert OnlyMarkedAt(h, h', p); }
    SmallerSet(Unmarked(h'), Unmarked(h));
    forall p | NewlyMarked(h, h', p) ensures |Unmarked(h')| < |Unmarked(h)| {
      SmallerSet(Unmarked(h'), Unmarked(h) - {p});
    }
  }

  lemma OnlyMarkedTwice(h0: Heap, h1: Heap, h2: Heap)
    requires OnlyMarked(h0, h1) && OnlyMarked(h1, h2)
    ensures OnlyMarked(h0, h2)
  {
    forall p: Ptr | p < |h0| ensures OnlyMarkedAt(h0, h2, p) { assert OnlyMarkedAt(h0, h1, p) && OnlyMarkedAt(h1, h2, p); }
  }

  lemma DrawsMarked(g: Graph, h: Heap, h': Heap)
    requires Draws(g, h) && OnlyMarked(h, h')
    ensures Draws(g, h')
  {
    forall p: Ptr | p < |h'| ensures DrawsAt(g, h', p) { assert OnlyMarkedAt(h, h', p) && DrawsAt(g, h, p); }
  }

  lemma SettledTwice(g: Graph, h0: Heap, h1: Heap, h2: Heap, except: Ptr)
    requires OnlyMarked(h0, h1) && OnlyMarked(h1, h2)
    requires Settled(g, h0, h1, except) && Settled(g, h1, h2, NULL)
    requires !NewlyMarked(h1, h2, NULL)
    ensures Settled(g, h0, h2, except)
  {
    forall p: Ptr | NewlyMarked(h0, h2, p) && p != except ensures KidsMarked(g, h2, p) {
      assert OnlyMarkedAt(h0, h1, p);
      if NewlyMarked(h0, h1, p) {
        assert KidsMarked(g, h1, p);
        forall v: Ptr | v in g[p] ensures v < |h2| && h2[v].marked { assert OnlyMarkedAt(h1, h2, v); }
      } else {
        assert NewlyMarked(h1, h2, p);
      }
    }
  }

  lemma ReachedTwice(g: Graph, sources: set<Ptr>, more: set<Ptr>, h0: Heap, h1: Heap, h2: Heap)
    requires OnlyMarked(h0, h1) && OnlyMarked(h1, h2)
    requires ReachedFrom(g, sources, h0, h1) && ReachedFrom(g, more, h1, h2) && Reach(g, more) <= Reach(g, sources)
    ensures ReachedFrom(g, sources, h0, h2)
  {
    forall p: Ptr | NewlyMarked(h0, h2, p) ensures p in Reach(g, sources) {
      assert OnlyMarkedAt(h0, h1, p);
      assert NewlyMarked(h0, h1, p) || NewlyMarked(h1, h2, p);
    }
  }

  lemma ChildReach(g: Graph, p: Ptr, v: Ptr)
    requires WellFormed(g) && p < |g| && v in g[p]
    ensures Reach(g, {v}) <= Reach(g, {p})
  {
    ReachContainsSources(g, {p});
    ReachIsClosed(g, {p});
    ReachIsLeast(g, {v}, Reach(g, {p}));
  }

  lemma MarkedOne(g: Graph, h: Heap, p: Ptr)
    requires Draws(g, h) && p < |h| && !h[p].marked
    ensures OnlyMarked(h, Marked(h, p)) && Draws(g, Marked(h, p))
    ensures |Unmarked(Marked(h, p))| < |Unmarked(h)|
    ensures Settled(g, h, Marked(h, p), p) && ReachedFrom(g, {p}, h, Marked(h, p))
  {
    var h' := Marked(h, p);
    DrawsMarked(g, h, h');
    UnmarkedShrinks(h, h');
    assert NewlyMarked(h, h', p);
    ReachContainsSources(g, {p});
  }

  /** One step of the marking: what happened up to `h1`, then what a call did up to `h2`. */
  lemma MarkedMore(g: Graph, sources: set<Ptr>, q: Ptr, h0: Heap, h1: Heap, h2: Heap, except: Ptr)
    requires WellFormed(g) && Reach(g, {q}) <= Reach(g, sources)
    requires OnlyMarked(h0, h1) && Settled(g, h0, h1, except) && ReachedFrom(g, sources, h0, h1) && !NewlyMarked(h0, h1, NULL)
    requires OnlyMarked(h1, h2) && Settled(g, h1, h2, NULL) && ReachedFrom(g, {q}, h1, h2) && !NewlyMarked(h1, h2, NULL)
    ensures OnlyMarked(h0, h2) && Settled(g, h0, h2, except) && ReachedFrom(g, sources, h0, h2) && !NewlyMarked(h0, h2, NULL)
    ensures |Unmarked(h2)| <= |Unmarked(h1)|
  {
    OnlyMarkedTwice(h0, h1, h2);
    SettledTwice(g, h0, h1, h2, except);
    ReachedTwice(g, sources, {q}, h0, h1, h2);
    UnmarkedShrinks(h1, h2);
    if NULL < |h0| { assert OnlyMarkedAt(h0, h1, NULL); }
  }

  lemma SettledWith(g: Graph, h: Heap, h': Heap, p: Ptr)
    requires Settled(g, h, h', p) && KidsMarked(g, h', p)
    ensures Settled(g, h, h', NULL)
  {
  }

  /** The first `n` entries of `kids` are marked, where they point anywhere. */
  ghost predicate FirstMarked(h: Heap, kids: seq<Ptr>, n: nat) {
    forall j | 0 <= j < n && j < |kids| && kids[j] != NULL :: kids[j] < |h| && h[kids[j]].marked
  }

  lemma FirstMarkedMore(h: Heap, h': Heap, kids: seq<Ptr>, n: nat)
    requires OnlyMarked(h, h') && FirstMarked(h, kids, n)
    ensures FirstMarked(h', kids, n)
  {
    forall j | 0 <= j < n && j < |kids| && kids[j] != NULL ensures kids[j] < |h'| && h'[kids[j]].marked {
      assert OnlyMarkedAt(h, h', kids[j]);
    }
  }

  ghost function RootSet(roots: seq<Ptr>): set<Ptr> {
    set p | p in roots
  }

  ghost predicate NoneMarked(h: Heap) {
    forall p: Ptr | p < |h| :: !h[p].marked
  }

  /** Started from a clean heap, marking all roots marks exactly what they reach. */
  lemma MarkedIsReach(g: Graph, roots: seq<Ptr>, h: Heap, h': Heap)
    requires Draws(g, h') && OnlyMarked(h, h') && NoneMarked(h) && NULL !in roots
    requires Settled(g, h, h', NULL) && ReachedFrom(g, RootSet(roots), h, h') && FirstMarked(h', roots, |roots|)
    requires !NewlyMarked(h, h', NULL)
    ensures forall p: Ptr | p < |h'| :: h'[p].marked <==> p in Reach(g, RootSet(roots))
  {
    var marks := set p: Ptr | p < |h'| && h'[p].marked;
    forall u | u in marks && u < |g| ensures g[u] <= marks {
      assert NewlyMarked(h, h', u);
      assert KidsMarked(g, h', u);
    }
    ReachIsLeast(g, RootSet(roots), marks);
    forall p: Ptr | p < |h'| && h'[p].marked ensures p in Reach(g, RootSet(roots)) { assert NewlyMarked(h, h', p); }
  }

  // --- The object list ---

  /** Following `next` from `a` goes through exactly `list` and then arrives at `b`. */
  ghost predicate Chain(h: Heap, a: Ptr, list: seq<Ptr>, b: Ptr) {
    && (forall i | 0 <= i < |list| :: InHeap(h, list[i]))
    && (if list == [] then a == b else a == list[0] && h[list[|list| - 1]].next == b)
    && forall i | 0 <= i < |list| - 1 :: NextIs(h, list, i)
  }

  predicate InHeap(h: Heap, p: Ptr) {
    p != NULL && p < |h|
  }

  ghost predicate NextIs(h: Heap, list: seq<Ptr>, i: int)
    requires 0 <= i < |list| - 1 && InHeap(h, list[i])
  {
    h[list[i]].next == list[i + 1]
  }

  ghost function TotalSize(h: Heap, list: seq<Ptr>): nat {
    if list == [] then 0
    else TotalSize(h, list[..|list| - 1]) + (if list[|list| - 1] < |h| then h[list[|list| - 1]].size else 0)
  }

  // --- Sweeping ---

  /** A minor collection leaves the old generation alone. */
  predicate Skipped(hd: Header, full: bool, generational: bool) {
    !full && generational && hd.old_
  }

  predicate Survives(hd: Header, full: bool, generational: bool) {
    hd.marked || Skipped(hd, full, generational)
  }

  /** A survivor: mark cleared and, if young, one collection older. */
  function Aged(hd: Header, full: bool, generational: bool): Header {
    if Skipped(hd, full, generational) || !generational || hd.old_ then hd.(marked := false)
    else if hd.survived + 1 >= PROMOTE_AGE then hd.(marked := false, old_ := true, survived := 0)
    else hd.(marked := false, survived := hd.survived + 1)
  }

  /** The pointers of `list` whose objects survive, in order. */
  ghost function Kept(h: Heap, list: seq<Ptr>, full: bool, generational: bool): seq<Ptr> {
    if list == [] then []
    else
      var p := list[|list| - 1];
      Kept(h, list[..|list| - 1], full, generational) + (if p < |h| && Survives(h[p], full, generational) then [p] else [])
  }

  lemma {:induction false} KeptMembers(h: Heap, list: seq<Ptr>, full: bool, generational: bool)
    ensures forall p :: p in Kept(h, list, full, generational) <==> p in list && p < |h| && Survives(h[p], full, generational)
    ensures NoRepeats(list) ==> NoRepeats(Kept(h, list, full, generational))
  {
    if list != [] {
      var init, last := list[..|list| - 1], list[|list| - 1];
      assert list == init + [last];
      KeptMembers(h, init, full, generational);
      NoRepeatsEnd(init, last);
      NoRepeatsEnd(Kept(h, init, full, generational), last);
      assert Kept(h, init, full, generational) + [] == Kept(h, init, full, generational);
    }
  }

  /** What the sweep makes of the header at `p`, the list links aside. */
  ghost predicate SweptAt(h: Heap, h': Heap, p: Ptr, full: bool, generational: bool) {
    && p < |h| && p < |h'|
    && if Survives(h[p], full, generational) then h'[p] == Aged(h[p], full, generational).(next := h'[p].next)
       else h'[p] == h[p].(freed := true, next := h'[p].next)
  }

  /** The list with `done` swept and `rest` to come: the survivors are linked through to `rest`. */
  ghost predicate Sweeping(h: Heap, h': Heap, head: Ptr, obj: Ptr, done: seq<Ptr>, rest: seq<Ptr>, full: bool, generational: bool) {
    && Swept(h, h', done, full, generational) && NoRepeats(done + rest)
    && Chain(h', head, Kept(h, done, full, generational), obj) && Chain(h', obj, rest, NULL)
  }

  ghost predicate Swept(h: Heap, h': Heap, done: seq<Ptr>, full: bool, generational: bool) {
    && |h| == |h'|
    && (forall p: Ptr | p in done :: SweptAt(h, h', p, full, generational))
    && forall p: Ptr | p < |h| && p !in done :: Untouched(h, h', p)
  }

  predicate Untouched(h: Heap, h': Heap, p: Ptr) {
    p < |h| && p < |h'| && h'[p] == h[p]
  }

  lemma ChainFrame(h: Heap, h': Heap, a: Ptr, list: seq<Ptr>, b: Ptr)
    requires Chain(h, a, list, b) && |h| == |h'|
    requires forall p: Ptr | p in list && p < |h| :: h'[p].next == h[p].next
    ensures Chain(h', a, list, b)
  {
    forall i | 0 <= i < |list| - 1 ensures InHeap(h', list[i]) && NextIs(h', list, i) { assert InHeap(h, list[i]) && NextIs(h, list, i); }
    if list != [] { assert InHeap(h, list[|list| - 1]); }
  }

  lemma ChainExtend(h: Heap, a: Ptr, list: seq<Ptr>, p: Ptr)
    requires Chain(h, a, list, p) && InHeap(h, p)
    ensures Chain(h, a, list + [p], h[p].next)
  {
    var longer := list + [p];
    forall i | 0 <= i < |longer| - 1 ensures InHeap(h, longer[i]) && NextIs(h, longer, i) {
      if i < |list| - 1 { assert NextIs(h, list, i); }
    }
  }

  lemma ChainTail(h: Heap, a: Ptr, list: seq<Ptr>, b: Ptr)
    requires Chain(h, a, list, b) && list != []
    ensures a == list[0] && InHeap(h, a) && Chain(h, h[a].next, list[1..], b)
  {
    var tail := list[1..];
    forall i | 0 <= i < |tail| - 1 ensures InHeap(h, tail[i]) && NextIs(h, tail, i) { assert NextIs(h, list, i + 1); }
    if tail != [] { assert NextIs(h, list, 0); }
  }

  function Relinked(h: Heap, p: Ptr, next: Ptr): Heap
    requires p < |h|
  {
    h[p := h[p].(next := next)]
  }

  lemma ChainRelink(h: Heap, a: Ptr, list: seq<Ptr>, b: Ptr, b': Ptr)
    requires Chain(h, a, list, b) && list != [] && NoRepeats(list)
    ensures InHeap(h, list[|list| - 1]) && Chain(Relinked(h, list[|list| - 1], b'), a, list, b')
  {
    var h' := Relinked(h, list[|list| - 1], b');
    forall i | 0 <= i < |list| - 1 ensures InHeap(h', list[i]) && NextIs(h', list, i) {
      assert NextIs(h, list, i) && Apart(list, i, |list| - 1);
    }
  }

  function Ages(h: Heap, p: Ptr, full: bool, generational: bool): Heap
    requires p < |h|
  {
    h[p := Aged(h[p], full, generational)]
  }

  function Frees(h: Heap, p: Ptr): Heap
    requires p < |h|
  {
    h[p := h[p].(freed := true)]
  }

  lemma KeptNext(h: Heap, done: seq<Ptr>, p: Ptr, full: bool, generational: bool)
    requires p < |h|
    ensures Kept(h, done + [p], full, generational)
            == Kept(h, done, full, generational) + (if Survives(h[p], full, generational) then [p] else [])
  {
    assert (done + [p])[..|done|] == done;
  }

  lemma RestIsNew(done: seq<Ptr>, rest: seq<Ptr>)
    requires NoRepeats(done + rest)
    ensures NoRepeats(done) && forall p | p in rest :: p !in done
    ensures rest != [] ==> rest[0] !in rest[1..]
  {
    forall i, j | 0 <= i < |done| && 0 <= j < |rest| ensures done[i] != rest[j] {
      assert Apart(done + rest, i, |done| + j);
    }
    forall i, j | 0 <= i < j < |done| ensures done[i] != done[j] { assert Apart(done + rest, i, j); }
    forall j | 0 < j < |rest| ensures rest[0] != rest[j] { assert Apart(done + rest, |done|, |done| + j); }
  }

  lemma SurvivorStep(h: Heap, h': Heap, head: Ptr, obj: Ptr, done: seq<Ptr>, rest: seq<Ptr>, full: bool, generational: bool)
    requires Sweeping(h, h', head, obj, done, rest, full, generational) && rest != []
    requires obj < |h| && Survives(h[obj], full, generational)
    ensures obj == rest[0] && Sweeping(h, Ages(h', obj, full, generational), head, h'[obj].next, done + [obj], rest[1..], full, generational)
  {
    var kept, after := Kept(h, done, full, generational), Ages(h', obj, full, generational);
    ChainTail(h', obj, rest, NULL);
    RestIsNew(done, rest);
    assert Untouched(h, h', obj);
    KeptNext(h, done, obj, full, generational);
    ChainFrame(h', after, head, kept, obj);
    ChainExtend(after, head, kept, obj);
    ChainFrame(h', after, h'[obj].next, rest[1..], NULL);
    assert (done + [obj]) + rest[1..] == done + rest;
    forall p: Ptr | p in done + [obj] ensures SweptAt(h, after, p, full, generational) {
      if p in done { assert SweptAt(h, h', p, full, generational); }
    }
    forall p: Ptr | p < |h| && p !in done + [obj] ensures Untouched(h, after, p) { assert Untouched(h, h', p); }
  }

  /** `*prev = next`: the last survivor, or the list head if there is none, skips the dead object. */
  function Bypassed(h: Heap, prev: Ptr, next: Ptr): Heap
    requires prev < |h|
  {
    if prev == NULL then h else Relinked(h, prev, next)
  }

  function LastOf(list: seq<Ptr>): Ptr {
    if list == [] then NULL else list[|list| - 1]
  }

  lemma BypassChain(h: Heap, a: Ptr, list: seq<Ptr>, b: Ptr, b': Ptr)
    requires Chain(h, a, list, b) && NoRepeats(list)
    ensures LastOf(list) < |h| || list == []
    ensures list != [] ==> Chain(Bypassed(h, LastOf(list), b'), a, list, b')
  {
    if list != [] { ChainRelink(h, a, list, b, b'); }
  }

  function Unlinked(h: Heap, prev: Ptr, obj: Ptr): Heap
    requires prev < |h| && obj < |h|
  {
    Frees(Bypassed(h, prev, h[obj].next), obj)
  }

  function HeadAfter(kept: seq<Ptr>, head: Ptr, next: Ptr): Ptr {
    if kept == [] then next else head
  }

  lemma DeadChains(h': Heap, head: Ptr, obj: Ptr, kept: seq<Ptr>, rest: seq<Ptr>)
    requires Chain(h', head, kept, obj) && Chain(h', obj, rest, NULL) && rest != [] && obj == rest[0]
    requires NoRepeats(kept) && rest[0] !in rest[1..] && forall p | p in rest :: p !in kept
    ensures LastOf(kept) < |h'| && obj < |h'|
    ensures var after, next := Unlinked(h', LastOf(kept), obj), h'[obj].next;
      Chain(after, HeadAfter(kept, head, next), kept, next) && Chain(after, next, rest[1..], NULL)
  {
    ChainTail(h', obj, rest, NULL);
    var next := h'[obj].next;
    BypassChain(h', head, kept, obj, next);
    var bypassed, after := Bypassed(h', LastOf(kept), next), Unlinked(h', LastOf(kept), obj);
    if kept != [] {
      assert kept[|kept| - 1] in kept;
      ChainFrame(bypassed, after, head, kept, next);
    }
    ChainFrame(h', after, next, rest[1..], NULL);
  }

  lemma DeadHeaders(h: Heap, h': Heap, prev: Ptr, obj: Ptr, done: seq<Ptr>, full: bool, generational: bool)
    requires Swept(h, h', done, full, generational) && prev < |h| && (prev == NULL || prev in done) && obj !in done
    requires obj < |h| && !Survives(h[obj], full, generational)
    ensures Swept(h, Unlinked(h', prev, obj), done + [obj], full, generational)
  {
    var after := Unlinked(h', prev, obj);
    assert Untouched(h, h', obj);
    forall p: Ptr | p in done + [obj] ensures SweptAt(h, after, p, full, generational) {
      if p in done { assert SweptAt(h, h', p, full, generational); }
    }
    forall p: Ptr | p < |h| && p !in done + [obj] ensures Untouched(h, after, p) { assert Untouched(h, h', p); }
  }

  lemma SweepingParts(h: Heap, h': Heap, head: Ptr, obj: Ptr, done: seq<Ptr>, rest: seq<Ptr>, kept: seq<Ptr>, full: bool, generational: bool)
    requires Swept(h, h', done, full, generational) && NoRepeats(done + rest) && kept == Kept(h, done, full, generational)
    requires Chain(h', head, kept, obj) && Chain(h', obj, rest, NULL)
    ensures Sweeping(h, h', head, obj, done, rest, full, generational)
  {
  }

  lemma DeadApart(h: Heap, h': Heap, head: Ptr, obj: Ptr, done: seq<Ptr>, rest: seq<Ptr>, full: bool, generational: bool)
    requires Sweeping(h, h', head, obj, done, rest, full, generational) && rest != []
    ensures obj == rest[0] && obj !in done && obj !in rest[1..] && NoRepeats((done + [obj]) + rest[1..])
    ensures var kept := Kept(h, done, full, generational);
      NoRepeats(kept) && (LastOf(kept) == NULL || LastOf(kept) in done) && forall p | p in rest :: p !in kept
  {
    RestIsNew(done, rest);
    KeptMembers(h, done, full, generational);
    ChainTail(h', obj, rest, NULL);
    assert (done + [obj]) + rest[1..] == done + rest;
  }

  lemma DeadStep(h: Heap, h': Heap, head: Ptr, obj: Ptr, done: seq<Ptr>, rest: seq<Ptr>, full: bool, generational: bool)
    requires Sweeping(h, h', head, obj, done, rest, full, generational) && rest != []
    requires obj < |h| && !Survives(h[obj], full, generational)
    ensures obj == rest[0] && LastOf(Kept(h, done, full, generational)) < |h|
    ensures var kept := Kept(h, done, full, generational);
      Sweeping(h, Unlinked(h', LastOf(kept), obj), HeadAfter(kept, head, h'[obj].next), h'[obj].next,
               done + [obj], rest[1..], full, generational)
  {
    var kept := Kept(h, done, full, generational);
    DeadApart(h, h', head, obj, done, rest, full, generational);
    KeptNext(h, done, obj, full, generational);
    DeadChains(h', head, obj, kept, rest);
    DeadHeaders(h, h', LastOf(kept), obj, done, full, generational);
    SweepingParts(h, Unlinked(h', LastOf(kept), obj), HeadAfter(kept, head, h'[obj].next), h'[obj].next,
      done + [obj], rest[1..], kept, full, generational);
  }

  lemma TotalNext(h: Heap, list: seq<Ptr>, p: Ptr)
    requires p < |h|
    ensures TotalSize(h, list + [p]) == TotalSize(h, list) + h[p].size
  {
    assert (list + [p])[..|list|] == list;
  }

  lemma {:induction false} SameSizes(h: Heap, h': Heap, list: seq<Ptr>)
    requires |h| == |h'| && forall p | p in list && p < |h| :: h[p].size == h'[p].size
    ensures TotalSize(h, list) == TotalSize(h', list)
  {
    if list != [] { SameSizes(h, h', list[..|list| - 1]); }
  }

  /** The statistics midway through a sweep of `all`: `done` decided, the rest still counted. */
  ghost predicate Counted(h: Heap, all: seq<Ptr>, done: seq<Ptr>, bytes: int, objects: int, full: bool, generational: bool) {
    && bytes == TotalSize(h, all) - TotalSize(h, done) + TotalSize(h, Kept(h, done, full, generational))
    && objects == |all| - |done| + |Kept(h, done, full, generational)|
  }

  lemma CountedNext(h: Heap, all: seq<Ptr>, done: seq<Ptr>, obj: Ptr, bytes: int, objects: int, full: bool, generational: bool)
    requires Counted(h, all, done, bytes, objects, full, generational) && obj < |h|
    ensures Survives(h[obj], full, generational) ==> Counted(h, all, done + [obj], bytes, objects, full, generational)
    ensures !Survives(h[obj], full, generational) ==>
      Counted(h, all, done + [obj], bytes - h[obj].size, objects - 1, full, generational)
  {
    KeptNext(h, done, obj, full, generational);
    TotalNext(h, done, obj);
    TotalNext(h, Kept(h, done, full, generational), obj);
    assert !Survives(h[obj], full, generational) ==>
      Kept(h, done + [obj], full, generational) == Kept(h, done, full, generational);
  }

  /** The object the sweep looks at next. */
  lemma NextObject(h: Heap, h': Heap, head: Ptr, obj: Ptr, done: seq<Ptr>, rest: seq<Ptr>, full: bool, generational: bool)
    requires Sweeping(h, h', head, obj, done, rest, full, generational) && obj != NULL
    ensures rest != [] && obj == rest[0] && obj < |h| && h'[obj] == h[obj]
    ensures var kept := Kept(h, done, full, generational);
      && LastOf(kept) < |h| && (LastOf(kept) == NULL <==> kept == [])
      && Kept(h, done + [obj], full, generational) == kept + (if Survives(h[obj], full, generational) then [obj] else [])
  {
    var kept := Kept(h, done, full, generational);
    ChainTail(h', obj, rest, NULL);
    RestIsNew(done, rest);
    assert Untouched(h, h', obj);
    assert forall i | 0 <= i < |kept| :: InHeap(h', kept[i]);
    KeptNext(h, done, obj, full, generational);
  }

  /** Midway through a sweep: `done` has been decided, `obj` is the next object, `prev` the last survivor. */
  ghost predicate Midway(h: Heap, h': Heap, head: Ptr, all: seq<Ptr>, done: seq<Ptr>, rest: seq<Ptr>, prev: Ptr, obj: Ptr,
      bytes: int, objects: int, full: bool, generational: bool)
  {
    && Sweeping(h, h', head, obj, done, rest, full, generational) && done + rest == all
    && prev == LastOf(Kept(h, done, full, generational))
    && Counted(h, all, done, bytes, objects, full, generational)
  }

  /** The two ways a turn of the sweep can go. */
  lemma MidwayStep(h: Heap, h': Heap, head: Ptr, all: seq<Ptr>, done: seq<Ptr>, rest: seq<Ptr>, prev: Ptr, obj: Ptr,
      bytes: int, objects: int, full: bool, generational: bool)
    requires Midway(h, h', head, all, done, rest, prev, obj, bytes, objects, full, generational) && obj != NULL
    ensures rest != [] && obj == rest[0] && obj < |h'| && prev < |h'|
    ensures var next := h'[obj].next;
      if Survives(h'[obj], full, generational) then
        Midway(h, Ages(h', obj, full, generational), head, all, done + [obj], rest[1..], obj, next, bytes, objects, full, generational)
      else
        Midway(h, Unlinked(h', prev, obj), if prev == NULL then next else head, all, done + [obj], rest[1..], prev, next,
          bytes - h'[obj].size, objects - 1, full, generational)
  {
    NextObject(h, h', head, obj, done, rest, full, generational);
    CountedNext(h, all, done, obj, bytes, objects, full, generational);
    assert done + [obj] + rest[1..] == all;
    if Survives(h'[obj], full, generational) {
      SurvivorStep(h, h', head, obj, done, rest, full, generational);
    } else {
      DeadStep(h, h', head, obj, done, rest, full, generational);
    }
  }

  lemma SweepStarts(h: Heap, head: Ptr, list: seq<Ptr>, full: bool, generational: bool)
    requires Chain(h, head, list, NULL) && NoRepeats(list)
    ensures Sweeping(h, h, head, head, [], list, full, generational)
  {
    assert [] + list == list;
    assert NoRepeats(list);
    forall p: Ptr | p < |h| ensures Untouched(h, h, p) {}
  }

  lemma SweepEnds(h: Heap, h': Heap, head: Ptr, all: seq<Ptr>, done: seq<Ptr>, rest: seq<Ptr>, full: bool, generational: bool)
    requires Sweeping(h, h', head, NULL, done, rest, full, generational) && done + rest == all
    ensures done == all && Swept(h, h', all, full, generational) && Chain(h', head, Kept(h, all, full, generational), NULL)
  {
    ChainEnds(h', rest);
  }

  lemma ChainEnds(h: Heap, list: seq<Ptr>)
    requires Chain(h, NULL, list, NULL)
    ensures list == []
  {
    assert list != [] ==> InHeap(h, list[0]);
  }

  lemma ListInHeap(h: Heap, a: Ptr, list: seq<Ptr>)
    requires Chain(h, a, list, NULL)
    ensures forall p | p in list :: InHeap(h, p)
  {
    assert forall i | 0 <= i < |list| :: InHeap(h, list[i]);
  }

  lemma SweptSizes(h: Heap, h': Heap, done: seq<Ptr>, list: seq<Ptr>, full: bool, generational: bool)
    requires Swept(h, h', done, full, generational)
    ensures TotalSize(h', list) == TotalSize(h, list)
  {
    forall p: Ptr | p < |h| ensures h'[p].size == h[p].size {
      if p in done { assert SweptAt(h, h', p, full, generational); } else { assert Untouched(h, h', p); }
    }
    SameSizes(h, h', list);
  }
}
