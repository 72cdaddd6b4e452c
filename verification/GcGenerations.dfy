/** Ages and generations over any sequence of collections and mutations. */
module GcGenerations {
  import opened References
  import opened Words
  import opened GcHeap
  import opened GcCollection

  // --- One collection ---

  /** What a collection with generations makes of the age of an object it keeps. */
  lemma SurvivorAges(h: Heap, h': Heap, list: seq<Ptr>, list': seq<Ptr>, live: set<Ptr>, full: bool, p: Ptr)
    requires Collected(h, h', list, list', live, full, true) && p < |h| && p in list && p in list' && h[p].survived < 3
    ensures !h'[p].marked && h'[p].size == h[p].size && h'[p].kids == h[p].kids
    ensures h[p].old_ ==> h'[p].old_ && h'[p].survived == h[p].survived
    ensures !h[p].old_ && h[p].survived == 2 ==> h'[p].old_ && h'[p].survived == 0
    ensures !h[p].old_ && h[p].survived < 2 ==> !h'[p].old_ && h'[p].survived == h[p].survived + 1
  {
    assert CollectedAt(h, h', list, list', live, full, true, p);
  }

  /** Without generations ages stand still. */
  lemma SurvivorUnchanged(h: Heap, h': Heap, list: seq<Ptr>, list': seq<Ptr>, live: set<Ptr>, full: bool, p: Ptr)
    requires Collected(h, h', list, list', live, full, false) && p < |h| && p in list && p in list'
    ensures !h'[p].marked && h'[p].old_ == h[p].old_ && h'[p].survived == h[p].survived
    ensures h'[p].size == h[p].size && h'[p].kids == h[p].kids
  {
    assert CollectedAt(h, h', list, list', live, full, false, p);
  }

  // --- Runs ---

  /** `live` is what the roots reach at the time of the collection. */
  datatype Turn = Mutation | Collection(full: bool, live: set<Ptr>)

  datatype Moment = Moment(heap: Heap, list: seq<Ptr>)

  /** What the program does between collections: it leaves ages alone and takes nothing off the list. */
  ghost predicate Mutates(a: Moment, b: Moment) {
    && |a.heap| <= |b.heap| && (forall p | p in a.list :: p in b.list)
    && forall p: Ptr | p < |a.heap| :: SameAge(a.heap, b.heap, p)
  }

  predicate SameAge(h: Heap, h': Heap, p: Ptr) {
    p < |h| && p < |h'| && h'[p].old_ == h[p].old_ && h'[p].survived == h[p].survived
  }

  lemma StoreMutates(h: Heap, list: seq<Ptr>, p: Ptr, i: nat, v: Ptr)
    requires p < |h| && i < |h[p].kids|
    ensures Mutates(Moment(h, list), Moment(Stored(h, p, i, v), list))
  {
    forall q: Ptr | q < |h| ensures SameAge(h, Stored(h, p, i, v), q) {}
  }

  lemma AllocMutates(h: Heap, list: seq<Ptr>, size: nat, fields: nat, next: Ptr)
    ensures Mutates(Moment(h, list), Moment(h + [Fresh(size, fields, next)], [|h|] + list))
  {
    forall q: Ptr | q < |h| ensures SameAge(h, h + [Fresh(size, fields, next)], q) {}
  }

  ghost predicate TurnAt(moments: seq<Moment>, turns: seq<Turn>, i: int) {
    && 0 <= i < |turns| && i + 1 < |moments|
    && match turns[i]
       case Mutation => Mutates(moments[i], moments[i + 1])
       case Collection(full, live) =>
         Collected(moments[i].heap, moments[i + 1].heap, moments[i].list, moments[i + 1].list, live, full, true)
  }

  ghost predicate Run(moments: seq<Moment>, turns: seq<Turn>) {
    |moments| == |turns| + 1 && forall i {:trigger TurnAt(moments, turns, i)} | 0 <= i < |turns| :: TurnAt(moments, turns, i)
  }

  /** The collections among turns `m` to `n`. */
  ghost function Collections(turns: seq<Turn>, m: nat, n: nat): nat
    requires m <= n <= |turns|
  {
    if m == n then 0 else Collections(turns, m, n - 1) + (if turns[n - 1].Collection? then 1 else 0)
  }

  /** Each collection among turns `m` to `n` finds `p` reachable. */
  predicate AlwaysLive(turns: seq<Turn>, m: nat, n: nat, p: Ptr)
    requires m <= n <= |turns|
  {
    forall i | m <= i < n :: turns[i].Collection? ==> p in turns[i].live
  }

  predicate OnlyMinor(turns: seq<Turn>, m: nat, n: nat)
    requires m <= n <= |turns|
  {
    forall i | m <= i < n :: turns[i].Collection? ==> !turns[i].full
  }

  ghost predicate Listed(a: Moment, p: Ptr) {
    p in a.list && p < |a.heap| && a.heap[p].survived < 3
  }

  /** An object that every collection finds reachable is old after three of them. */
  lemma {:induction false} GrowsOld(moments: seq<Moment>, turns: seq<Turn>, m: nat, n: nat, p: Ptr)
    requires Run(moments, turns) && m <= n <= |turns| && Listed(moments[m], p) && AlwaysLive(turns, m, n, p)
    ensures Listed(moments[n], p)
    ensures moments[n].heap[p].old_ || moments[n].heap[p].survived >= Min(3, Collections(turns, m, n))
    ensures Collections(turns, m, n) >= 3 ==> moments[n].heap[p].old_
    decreases n
  {
    if m < n {
      GrowsOld(moments, turns, m, n - 1, p);
      assert TurnAt(moments, turns, n - 1);
      var a, b := moments[n - 1], moments[n];
      match turns[n - 1]
      case Mutation => assert SameAge(a.heap, b.heap, p);
      case Collection(full, live) =>
        assert CollectedAt(a.heap, b.heap, a.list, b.list, live, full, true, p);
        SurvivorAges(a.heap, b.heap, a.list, b.list, live, full, p);
    }
  }

  /** And no minor collection frees an old object, reachable or not. */
  lemma {:induction false} OldIsKept(moments: seq<Moment>, turns: seq<Turn>, m: nat, n: nat, p: Ptr)
    requires Run(moments, turns) && m <= n <= |turns| && Listed(moments[m], p) && moments[m].heap[p].old_ && OnlyMinor(turns, m, n)
    ensures Listed(moments[n], p) && moments[n].heap[p].old_
    decreases n
  {
    if m < n {
      OldIsKept(moments, turns, m, n - 1, p);
      assert TurnAt(moments, turns, n - 1);
      var a, b := moments[n - 1], moments[n];
      match turns[n - 1]
      case Mutation => assert SameAge(a.heap, b.heap, p);
      case Collection(full, live) =>
        assert CollectedAt(a.heap, b.heap, a.list, b.list, live, full, true, p);
        SurvivorAges(a.heap, b.heap, a.list, b.list, live, full, p);
    }
  }

  /** So an object that three collections have found reachable is kept by every later minor one. */
  lemma ThreeThenKept(moments: seq<Moment>, turns: seq<Turn>, l: nat, m: nat, n: nat, p: Ptr)
    requires Run(moments, turns) && l <= m <= n <= |turns| && Listed(moments[l], p)
    requires AlwaysLive(turns, l, m, p) && Collections(turns, l, m) == 3 && OnlyMinor(turns, m, n)
    ensures p in moments[n].list
  {
    GrowsOld(moments, turns, l, m, p);
    OldIsKept(moments, turns, m, n, p);
  }

  /** A young object that a collection does not find reachable is freed. */
  lemma YoungIsFreed(moments: seq<Moment>, turns: seq<Turn>, n: nat, p: Ptr)
    requires Run(moments, turns) && n < |turns| && turns[n].Collection? && Listed(moments[n], p)
    requires p !in turns[n].live && (!moments[n].heap[p].old_ || turns[n].full)
    ensures p !in moments[n + 1].list && |moments[n + 1].heap| > p && moments[n + 1].heap[p].freed
  {
    assert TurnAt(moments, turns, n);
    var a, b := moments[n], moments[n + 1];
    assert CollectedAt(a.heap, b.heap, a.list, b.list, turns[n].live, turns[n].full, true, p);
  }
}
