/** Which suspects are still flagged as buffered when a collection is over. A flagged object is never suspected again,
    so a flag left on an object off the list keeps a later cycle through it from being collected. */
module CycleFlags {
  import opened Graphs
  import opened References
  import opened CycleHeap
  import opened CycleTrial
  import opened CycleScan
  import opened CycleTheorems
  import opened CycleIslands
  import opened CycleOutcome

  /** The list is empty after a collection, and still a survivor can be flagged: exactly one that was, and that at its
      place on the list was a suspect like any other, not led to by those kept before it, and in its turn of phase 2 not
      led to by an object held from elsewhere that it or they lead to. */
  lemma FlagLeftIff(h0: Heap, s0: seq<Ptr>, releasing: set<Ptr>, h: Heap, out: seq<Ptr>, dead: set<Ptr>, p: Ptr)
    requires CleanStart(h0, s0) && Outcome(h0, s0, releasing, h, out, dead) && Object(h0, p)
    ensures h[p].buffered <==>
      && h0[p].buffered && p !in Garbage(h0, s0) && p !in dead
      && forall j: nat | j < |s0| && s0[j] == p :: NewAt(h0, s0, j) && !HeldAbove(h0, s0, j)
  {
    ListedIsPart(h0, s0, |s0|);
    forall j: nat | j < |s0| && s0[j] == p ensures StaysListed(h0, s0, j) <==> NewAt(h0, s0, j) && !HeldAbove(h0, s0, j) {
      ListedAt(h0, s0, |s0|, j);
    }
  }

  /** A purple suspect with a count that the ones kept before it do not lead to. */
  ghost predicate NewAt(h: Heap, s: seq<Ptr>, j: nat) {
    && j < |s| && Eligible(h, s[j]) && h[s[j]].color == Purple && h[s[j]].strong > 0
    && s[j] !in Reach(Edges(h), KeptUpTo(KeptRoots(h, s, j), j))
  }

  /** Some object that keeps a count of its own leads to the suspect, and one kept up to place `j` leads to that. */
  ghost predicate HeldAbove(h: Heap, s: seq<Ptr>, j: nat) {
    j < |s| && s[j] in Early(h, Traced(h, s), KeptRoots(h, s, |s|), j + 1)
  }

  lemma {:induction false} ListedAt(h: Heap, s: seq<Ptr>, i: nat, j: nat)
    requires j < i <= |s| && forall p | p in s :: p < |h|
    ensures s[j] != NULL ==> (KeptRoots(h, s, i)[j] == s[j] <==> NewAt(h, s, j))
  {
    if j < i - 1 { ListedAt(h, s, i - 1, j); }
  }

  /** A suspect that keeps a count after trial deletion is never left flagged. */
  lemma HeldIsUnflagged(h0: Heap, s0: seq<Ptr>, releasing: set<Ptr>, h: Heap, out: seq<Ptr>, dead: set<Ptr>, j: nat)
    requires CleanStart(h0, s0) && Outcome(h0, s0, releasing, h, out, dead)
    requires j < |s0| && Object(h0, s0[j]) && s0[j] in Held(h0, Traced(h0, s0))
    ensures !h[s0[j]].buffered
  {
    var g, p, kept := Edges(h0), s0[j], KeptRoots(h0, s0, |s0|);
    FlagLeftIff(h0, s0, releasing, h, out, dead, p);
    if NewAt(h0, s0, j) {
      ListedAt(h0, s0, |s0|, j);
      assert kept[j] == p && p in KeptUpTo(kept, j + 1);
      ReachContainsSources(g, KeptUpTo(kept, j + 1));
      ReachContainsSources(g, Held(h0, Traced(h0, s0)) * Reach(g, KeptUpTo(kept, j + 1)));
      assert HeldAbove(h0, s0, j);
    }
  }

  /** With a single suspect none is. */
  lemma SingleIsUnflagged(h0: Heap, p: Ptr, releasing: set<Ptr>, h: Heap, out: seq<Ptr>, dead: set<Ptr>)
    requires CleanStart(h0, [p]) && Outcome(h0, [p], releasing, h, out, dead) && Object(h0, p)
    ensures !h[p].buffered
  {
    var s0 := [p];
    var kept := KeptRoots(h0, s0, 1);
    FlagLeftIff(h0, s0, releasing, h, out, dead, p);
    ListedAt(h0, s0, 1, 0);
    if NewAt(h0, s0, 0) {
      assert s0[0] == p && kept[0] == p;
      assert KeptUpTo(kept, 1) == Roots(h0, s0) == {p};
      var traced := Traced(h0, s0);
      assert Held(h0, traced) * traced == Held(h0, traced);
      ReachContainsSources(Edges(h0), {p});
      assert p in traced && (p in Garbage(h0, s0) || HeldAbove(h0, s0, 0));
    } else {
      assert s0[0] == p;
    }
  }

  // --- A suspect that comes too late ---

  /** With a full list the collection that makes room comes first, and the new suspect is listed after it, destroyed or
      not: it is destroyed exactly if it is garbage or loses its last count. */
  lemma ListedThoughDestroyedIff(h0: Heap, s0: seq<Ptr>, releasing: set<Ptr>, h: Heap, out: seq<Ptr>, dead: set<Ptr>, p: Ptr)
    requires Object(h0, p) && !h0[p].deallocating && CleanStart(h0, s0)
    requires Outcome(Purpled(h0, p), s0, releasing, h, out, dead)
    ensures h[p].deallocating <==> p in Garbage(Purpled(h0, p), s0) || p in dead
  {
  }

  /** Two objects that refer to each other, one of them on a full list: suspecting the other lists a destroyed object. */
  lemma ListedThoughDestroyed(h: Heap)
    requires |h| == 3 && h[1] == Header(1, Purple, false, true, [2]) && h[2] == Header(1, Black, false, false, [1])
    ensures CleanStart(h, [1]) && 2 in Garbage(Purpled(h, 2), [1])
  {
    var t, x := Purpled(h, 2), {1, 2};
    RingRefs(t, FieldsOf(t, x));
    RingRefs(h, FieldsOf(h, Objects(h)));
    PurpledIsClean(h, [1], 2);
    assert Way(t, [1], x, [1]) && Way(t, [1], x, [1, 2]);
    assert OnIsland(t, [1], x, 1) && OnIsland(t, [1], x, 2);
    IslandsAreCollected(t, [1], x);
  }

  lemma RingRefs(h: Heap, d: seq<nat>)
    requires |h| == 3 && h[1].scan == [2] && h[2].scan == [1] && |d| == 3 && d[1] == d[2] == 1
    ensures Refs(h, d, 1, 3) == 1 && Refs(h, d, 2, 3) == 1
  {
    assert Occurrences([1], 1, 1) == 1 && Occurrences([1], 1, 2) == 0 && Occurrences([2], 1, 1) == 0 && Occurrences([2], 1, 2) == 1;
    assert Refs(h, d, 1, 2) == 0 && Refs(h, d, 2, 2) == 1;
  }

  // --- A flag left on ---

  /** A live object comes out flagged and off the list: its only reference is from the second suspect, which is held from
      elsewhere, but its own turn comes first. */
  lemma FlagLeft()
    ensures var h, s := [Header(0, Black, false, false, []), Header(1, Purple, false, true, []), Header(1, Purple, false, true, [1])], [1, 2];
      && CleanStart(h, s) && 1 in Saved(h, s) && 2 in Saved(h, s) && h[1].buffered && KeepsFlag(h, s, 1) && !KeepsFlag(h, s, 2)
  {
    TwoSuspects([Header(0, Black, false, false, []), Header(1, Purple, false, true, []), Header(1, Purple, false, true, [1])], [1, 2]);
  }

  /** A suspect without fields, and one that refers to it. */
  predicate Two(h: Heap) {
    |h| == 3 && h[1] == Header(1, Purple, false, true, []) && h[2] == Header(1, Purple, false, true, [1])
  }

  predicate BothIn(s: seq<Ptr>) {
    |s| == 2 && s[0] == 1 && s[1] == 2
  }

  lemma TwoSuspects(h: Heap, s: seq<Ptr>)
    requires Two(h) && BothIn(s)
    ensures CleanStart(h, s) && 1 in Saved(h, s) && 2 in Saved(h, s) && KeepsFlag(h, s, 1) && !KeepsFlag(h, s, 2)
  {
    TwoStart(h, s);
    TwoTraced(h, s);
    TwoHeld(h, s);
    FirstListed(h, s);
    SecondListed(h, s);
    FirstTurn(h, s);
    SecondTurn(h, s);
    assert StaysListed(h, s, 0);
    assert s[1] == 2 && !StaysListed(h, s, 1);
  }

  lemma TwoStart(h: Heap, s: seq<Ptr>)
    requires Two(h) && BothIn(s)
    ensures CleanStart(h, s)
  {
    TwoRefs(h, FieldsOf(h, Objects(h)));
  }

  lemma TwoRefs(h: Heap, d: seq<nat>)
    requires Two(h) && |d| == 3 && d[1] == 0 && d[2] == 1
    ensures Refs(h, d, 1, 3) == 1 && Refs(h, d, 2, 3) == 0
  {
    assert Occurrences([1], 1, 1) == 1 && Occurrences([1], 1, 2) == 0;
    assert Refs(h, d, 1, 2) == Refs(h, d, 1, 1) && Refs(h, d, 2, 2) == Refs(h, d, 2, 1);
  }

  lemma TwoTraced(h: Heap, s: seq<Ptr>)
    requires Two(h) && BothIn(s)
    ensures 1 in Traced(h, s) && 2 in Traced(h, s) && forall n | n in Traced(h, s) :: n == 1 || n == 2
  {
    assert 1 in s && 2 in s;
    ReachContainsSources(Edges(h), Roots(h, s));
    ReachIsLeast(Edges(h), Roots(h, s), {1, 2});
  }

  /** Only the second keeps a count, and it leads to the first. */
  lemma TwoHeld(h: Heap, s: seq<Ptr>)
    requires Two(h) && 1 in Traced(h, s) && 2 in Traced(h, s) && forall n | n in Traced(h, s) :: n == 1 || n == 2
    ensures 2 in Held(h, Traced(h, s)) && forall n | n in Held(h, Traced(h, s)) :: n == 2
    ensures 1 in Saved(h, s) && 2 in Saved(h, s)
  {
    var g, held := Edges(h), Held(h, Traced(h, s));
    TwoRefs(h, FieldsOf(h, Traced(h, s)));
    ReachContainsSources(g, held);
    ReachIsClosed(g, held);
    assert 1 in g[2];
  }

  lemma FirstListed(h: Heap, s: seq<Ptr>)
    requires Two(h) && BothIn(s)
    ensures |Listed(h, s)| == 2 && Listed(h, s)[0] == 1 && KeptRoots(h, s, 1)[0] == 1
  {
    ReachIsLeast(Edges(h), KeptUpTo(KeptRoots(h, s, 0), 0), {});
    ListedAt(h, s, 1, 0);
    ListedAt(h, s, 2, 0);
  }

  lemma SecondListed(h: Heap, s: seq<Ptr>)
    requires Two(h) && BothIn(s) && KeptRoots(h, s, 1)[0] == 1
    ensures |Listed(h, s)| == 2 && Listed(h, s)[1] == 2
  {
    ReachIsLeast(Edges(h), KeptUpTo(KeptRoots(h, s, 1), 1), {1});
    ListedAt(h, s, 2, 1);
  }

  lemma FirstTurn(h: Heap, s: seq<Ptr>)
    requires Two(h) && BothIn(s) && |Listed(h, s)| == 2 && Listed(h, s)[0] == 1
    requires forall n | n in Held(h, Traced(h, s)) :: n == 2
    ensures 1 !in Early(h, Traced(h, s), Listed(h, s), 1)
  {
    var g, kept := Edges(h), KeptUpTo(Listed(h, s), 1);
    ReachIsLeast(g, kept, {1});
    ReachIsLeast(g, Held(h, Traced(h, s)) * Reach(g, kept), {});
  }

  lemma SecondTurn(h: Heap, s: seq<Ptr>)
    requires Two(h) && BothIn(s) && |Listed(h, s)| == 2 && Listed(h, s)[1] == 2
    requires 2 in Held(h, Traced(h, s))
    ensures 2 in Early(h, Traced(h, s), Listed(h, s), 2)
  {
    var g, kept := Edges(h), KeptUpTo(Listed(h, s), 2);
    assert 2 in kept;
    ReachContainsSources(g, kept);
    ReachContainsSources(g, Held(h, Traced(h, s)) * Reach(g, kept));
  }
}
