/** Virtual tables: creation with inheritance, type ids, and the instance test. */
module ObjectSystem {
  import opened Division
  import opened References
  import opened Words
  import opened Wrapping

  const TYPE_ID_OBJECT := 1

  datatype VTable = VTable(typeId: nat, parent: Ptr, methods: seq<Ptr>)

  /** Tables by pointer; entry 0 stands for NULL. */
  type Tables = seq<VTable>

  predicate IsTable(t: Tables, p: Ptr) {
    p != NULL && p < |t|
  }

  /** A parent is created before its children. */
  ghost predicate RootedAt(t: Tables, p: Ptr) {
    IsTable(t, p) ==> t[p].parent != NULL ==> t[p].parent < p
  }

  ghost predicate Rooted(t: Tables) {
    |t| > 0 && forall p: Ptr :: RootedAt(t, p)
  }

  /** And has a smaller id. */
  ghost predicate TableOk(t: Tables, p: Ptr) {
    IsTable(t, p) ==>
      && t[p].typeId > TYPE_ID_OBJECT
      && (IsTable(t, t[p].parent) ==> t[t[p].parent].typeId < t[p].typeId)
  }

  ghost predicate IdsDiffer(t: Tables, p: Ptr, q: Ptr) {
    IsTable(t, p) && IsTable(t, q) && p != q ==> t[p].typeId != t[q].typeId
  }

  ghost predicate Hierarchy(t: Tables) {
    && Rooted(t)
    && (forall p: Ptr :: TableOk(t, p))
    && forall p: Ptr, q: Ptr :: IdsDiffer(t, p, q)
  }

  /** The class of `p` and all it inherits from, nearest first. */
  ghost function Lineage(t: Tables, p: Ptr): (l: seq<Ptr>)
    requires Rooted(t)
    ensures forall k | 0 <= k < |l| :: IsTable(t, l[k])
    decreases p
  {
    if !IsTable(t, p) then []
    else
      assert RootedAt(t, p);
      [p] + Lineage(t, t[p].parent)
  }

  /** Along the lineage ids strictly decrease, so no class inherits from itself. */
  lemma {:induction false} IdsDecrease(t: Tables, p: Ptr, i: nat, j: nat)
    requires Hierarchy(t) && i < j < |Lineage(t, p)|
    ensures t[Lineage(t, p)[j]].typeId < t[Lineage(t, p)[i]].typeId
    decreases p, j
  {
    assert RootedAt(t, p) && TableOk(t, p);
    var parent := t[p].parent;
    assert Lineage(t, p)[1..] == Lineage(t, parent);
    if i > 0 {
      IdsDecrease(t, parent, i - 1, j - 1);
    } else if j > 1 {
      IdsDecrease(t, parent, 0, j - 1);
    }
  }

  /** Some class in the lineage has the id. */
  ghost predicate HasId(t: Tables, p: Ptr, typeId: nat)
    requires Rooted(t)
  {
    exists k :: 0 <= k < |Lineage(t, p)| && t[Lineage(t, p)[k]].typeId == typeId
  }

  /** What an ancestor inherits from, its descendants inherit from. */
  lemma {:induction false} LineageIsTransitive(t: Tables, p: Ptr, q: Ptr, target: Ptr)
    requires Rooted(t) && q in Lineage(t, p) && target in Lineage(t, q)
    ensures target in Lineage(t, p)
    decreases p
  {
    assert RootedAt(t, p);
    if q != p { LineageIsTransitive(t, t[p].parent, q, target); }
  }

  /** `target` is the only class with its id, those that inherit from it aside. */
  ghost predicate IdIsItsOwn(t: Tables, target: Ptr)
    requires Rooted(t) && IsTable(t, target)
  {
    forall q: Ptr | IsTable(t, q) && t[q].typeId == t[target].typeId :: target in Lineage(t, q)
  }

  ghost predicate TestIsRight(t: Tables, target: Ptr, p: Ptr)
    requires Rooted(t) && IsTable(t, target)
  {
    HasId(t, p, t[target].typeId) <==> target in Lineage(t, p)
  }

  /** Testing for an id tests for the class that has it if and only if the id is the class's own. */
  lemma IdTestsRightIff(t: Tables, target: Ptr)
    requires Rooted(t) && IsTable(t, target)
    ensures (forall p: Ptr :: TestIsRight(t, target, p)) <==> IdIsItsOwn(t, target)
  {
    if forall p: Ptr :: TestIsRight(t, target, p) {
      forall q: Ptr | IsTable(t, q) && t[q].typeId == t[target].typeId ensures target in Lineage(t, q) {
        assert TestIsRight(t, target, q) && RootedAt(t, q);
        assert Lineage(t, q)[0] == q;
      }
    }
    if IdIsItsOwn(t, target) {
      forall p: Ptr ensures TestIsRight(t, target, p) { OwnIdTestsRight(t, target, p); }
    }
  }

  lemma OwnIdTestsRight(t: Tables, target: Ptr, p: Ptr)
    requires Rooted(t) && IsTable(t, target) && IdIsItsOwn(t, target)
    ensures TestIsRight(t, target, p)
  {
    if target in Lineage(t, p) {
      var k :| 0 <= k < |Lineage(t, p)| && Lineage(t, p)[k] == target;
    }
    if HasId(t, p, t[target].typeId) {
      var k :| 0 <= k < |Lineage(t, p)| && t[Lineage(t, p)[k]].typeId == t[target].typeId;
      LineageIsTransitive(t, p, Lineage(t, p)[k], target);
    }
  }

  /** In a hierarchy an id stands in a lineage exactly if its table does. */
  lemma IdInLineage(t: Tables, p: Ptr, target: Ptr)
    requires Hierarchy(t) && IsTable(t, target)
    ensures HasId(t, p, t[target].typeId) <==> target in Lineage(t, p)
  {
    forall q: Ptr | IsTable(t, q) && t[q].typeId == t[target].typeId ensures target in Lineage(t, q) {
      assert IdsDiffer(t, q, target);
      assert Lineage(t, q)[0] == q;
    }
    OwnIdTestsRight(t, target, p);
    assert TestIsRight(t, target, p);
  }

  // --- Creation ---

  function NoMethods(n: nat): seq<Ptr> {
    seq(n, _ => NULL)
  }

  /** The parent's methods as far as there are slots for them. */
  function Inherited(t: Tables, parent: Ptr, numMethods: nat): (methods: seq<Ptr>)
    ensures |methods| == numMethods
    ensures forall i: nat | i < numMethods :: methods[i] == VirtualMethod(t, parent, i)
  {
    if IsTable(t, parent) then
      var n := Min(|t[parent].methods|, numMethods);
      t[parent].methods[..n] + NoMethods(numMethods - n)
    else NoMethods(numMethods)
  }

  /** The tables with one more. */
  function WithTable(t: Tables, typeId: nat, parent: Ptr, numMethods: nat): Tables {
    t + [VTable(typeId, parent, Inherited(t, parent, numMethods))]
  }

  /** An id that keeps the hierarchy in order. */
  ghost predicate FreshId(t: Tables, parent: Ptr, typeId: nat) {
    && typeId > 1
    && (IsTable(t, parent) ==> t[parent].typeId < typeId)
    && forall p: Ptr | IsTable(t, p) :: t[p].typeId != typeId
  }

  /** A new table keeps the hierarchy in order if and only if its id is fresh. */
  lemma HierarchyKeptIff(t: Tables, typeId: nat, parent: Ptr, numMethods: nat)
    requires Hierarchy(t) && (parent == NULL || IsTable(t, parent))
    ensures Hierarchy(WithTable(t, typeId, parent, numMethods)) <==> FreshId(t, parent, typeId)
  {
    var t' := WithTable(t, typeId, parent, numMethods);
    RootedWith(t, typeId, parent, numMethods);
    if Hierarchy(t') {
      assert TableOk(t', |t|);
      forall p: Ptr | IsTable(t, p) ensures t[p].typeId != typeId { assert IdsDiffer(t', p, |t|); }
    }
    if FreshId(t, parent, typeId) {
      forall p: Ptr ensures TableOk(t', p) { assert TableOk(t, p) && RootedAt(t, p); }
      forall p: Ptr, q: Ptr ensures IdsDiffer(t', p, q) { assert IdsDiffer(t, p, q); }
    }
  }

  lemma RootedWith(t: Tables, typeId: nat, parent: Ptr, numMethods: nat)
    requires Rooted(t) && (parent == NULL || IsTable(t, parent))
    ensures Rooted(WithTable(t, typeId, parent, numMethods))
  {
    forall p: Ptr ensures RootedAt(WithTable(t, typeId, parent, numMethods), p) { assert RootedAt(t, p); }
  }

  /** `obj_virtual_method`: the plain dispatch. */
  function VirtualMethod(t: Tables, vt: Ptr, i: nat): Ptr {
    if IsTable(t, vt) && i < |t[vt].methods| then t[vt].methods[i] else NULL
  }

  class ObjectSystem {
    var tables: Tables
    var nextTypeId: nat

    ghost predicate Valid()
      reads this
    {
      && Hierarchy(tables) && TYPE_ID_OBJECT < nextTypeId < WORD32
      && forall p: Ptr | IsTable(tables, p) :: tables[p].typeId < nextTypeId
    }

    constructor ()
      ensures Valid() && |tables| == 1
    {
      tables, nextTypeId := [VTable(0, NULL, [])], TYPE_ID_OBJECT + 1;
    }

    /** `vtable_create`: the next id, and the parent's methods as far as there are slots for them. Ids are 32
        bits wide: until the counter starts over they are fresh. */
    method CreateTable(parent: Ptr, numMethods: nat) returns (vt: Ptr)
      requires |tables| > 0 && (parent == NULL || IsTable(tables, parent))
      modifies this
      ensures vt == |old(tables)| && tables == WithTable(old(tables), old(nextTypeId), parent, numMethods)
      ensures nextTypeId == (old(nextTypeId) + 1) % 0x1_0000_0000
      ensures forall i: nat | i < numMethods :: VirtualMethod(tables, vt, i) == VirtualMethod(old(tables), parent, i)
      ensures old(Rooted(tables)) ==> Rooted(tables)
      ensures old(Hierarchy(tables)) ==> (Hierarchy(tables) <==> FreshId(old(tables), parent, old(nextTypeId)))
      ensures old(Valid()) ==> FreshId(old(tables), parent, old(nextTypeId))
      ensures old(Valid()) ==> forall p: Ptr | IsTable(old(tables), p) :: tables[p].typeId < tables[vt].typeId
      ensures old(Valid()) ==> (Valid() <==> old(nextTypeId) < 0xffff_ffff)
    {
      var methods := NoMethods(numMethods);
      if parent != NULL {
        var n := Min(|tables[parent].methods|, numMethods);
        methods := tables[parent].methods[..n] + NoMethods(numMethods - n);
      }
      if Rooted(tables) { RootedWith(tables, nextTypeId, parent, numMethods); }
      if Hierarchy(tables) { HierarchyKeptIff(tables, nextTypeId, parent, numMethods); }
      vt := |tables|;
      tables := tables + [VTable(nextTypeId, parent, methods)];
      nextTypeId := (nextTypeId + 1) % WORD32;
    }

    /** `vtable_set_method`. */
    method SetMethod(vt: Ptr, i: nat, m: Ptr)
      modifies `tables
      ensures |tables| == |old(tables)| && (old(Valid()) ==> Valid())
      ensures forall p: Ptr | p < |tables| :: tables[p].typeId == old(tables)[p].typeId && tables[p].parent == old(tables)[p].parent
      ensures forall p: Ptr, j: nat :: VirtualMethod(tables, p, j) ==
                if IsTable(old(tables), vt) && i < |old(tables)[vt].methods| && p == vt && j == i then m
                else VirtualMethod(old(tables), p, j)
    {
      if !IsTable(tables, vt) || i >= |tables[vt].methods| { return; }
      ghost var before := tables;
      tables := tables[vt := tables[vt].(methods := tables[vt].methods[i := m])];
      if Hierarchy(before) {
        forall p: Ptr ensures RootedAt(tables, p) && TableOk(tables, p) { assert RootedAt(before, p) && TableOk(before, p); }
        forall p: Ptr, q: Ptr ensures IdsDiffer(tables, p, q) { assert IdsDiffer(before, p, q); }
      }
    }

    /** `obj_is_instance`, for an object whose table is `vt`: walks the inheritance chain. */
    method IsInstance(vt: Ptr, typeId: nat) returns (r: bool)
      requires Rooted(tables) && vt < |tables|
      ensures r == HasId(tables, vt, typeId)
    {
      var p: Ptr := vt;
      ghost var passed := 0;
      while p != NULL
        invariant p < |tables| && passed <= |Lineage(tables, vt)|
        invariant Lineage(tables, vt)[passed..] == Lineage(tables, p)
        invariant forall k | 0 <= k < passed :: tables[Lineage(tables, vt)[k]].typeId != typeId
        decreases p
      {
        assert RootedAt(tables, p);
        assert Lineage(tables, vt)[passed] == p;
        if tables[p].typeId == typeId { return true; }
        p := tables[p].parent;
        passed := passed + 1;
      }
      r := false;
    }
  }

  // --- The counter starts over ---

  /** The counter after `n` tables. */
  function Counter(n: nat): nat {
    if n == 0 then TYPE_ID_OBJECT + 1 else (Counter(n - 1) + 1) % WORD32
  }

  /** The tables after `n` calls for classes without parents and methods. */
  function Plain(n: nat): Tables {
    if n == 0 then [VTable(0, NULL, [])] else WithTable(Plain(n - 1), Counter(n - 1), NULL, 0)
  }

  lemma {:induction false} CounterIs(n: nat)
    ensures Counter(n) == (n + 2) % WORD32
  {
    if n > 0 {
      CounterIs(n - 1);
      ReduceFirst(n + 1, 1, WORD32);
    }
  }

  lemma {:induction false} PlainIs(n: nat)
    ensures |Plain(n)| == n + 1 && Rooted(Plain(n))
    ensures forall i: Ptr | 1 <= i <= n :: Plain(n)[i] == VTable(Counter(i - 1), NULL, [])
  {
    if n > 0 {
      PlainIs(n - 1);
      RootedWith(Plain(n - 1), Counter(n - 1), NULL, 0);
    }
  }

  lemma PlainIdAt(n: nat, i: Ptr)
    requires 1 <= i <= n
    ensures |Plain(n)| == n + 1 && Plain(n)[i] == VTable((i + 1) % WORD32, NULL, [])
  {
    PlainIs(n);
    CounterIs(i - 1);
  }

  lemma PlainIds(n: nat)
    ensures |Plain(n)| == n + 1 && Rooted(Plain(n))
    ensures forall i: Ptr | 1 <= i <= n :: Plain(n)[i] == VTable((i + 1) % WORD32, NULL, [])
  {
    PlainIs(n);
    forall i: Ptr | 1 <= i <= n ensures Plain(n)[i] == VTable((i + 1) % WORD32, NULL, []) { PlainIdAt(n, i); }
  }

  /** The hierarchy is in order up to the call that uses the last id, and not after the next. */
  lemma OrderEnds(n: nat)
    requires n == WORD32 - 2
    ensures Hierarchy(Plain(n)) && !Hierarchy(Plain(n + 1))
  {
    var t := Plain(n);
    PlainIds(n);
    PlainIds(n + 1);
    forall p: Ptr ensures TableOk(t, p) { assert IsTable(t, p) ==> t[p].typeId == p + 1; }
    forall p: Ptr, q: Ptr ensures IdsDiffer(t, p, q) {
      assert IsTable(t, p) && IsTable(t, q) ==> t[p].typeId == p + 1 && t[q].typeId == q + 1;
    }
    assert !TableOk(Plain(n + 1), n + 1);
  }

  /** Two tables on, an object of the newest class passes for one of the first, to which it is not related. */
  lemma WrongInstance(n: nat)
    requires n == 0x1_0000_0001
    ensures Rooted(Plain(n)) && IsTable(Plain(n), n) && IsTable(Plain(n), 1)
    ensures HasId(Plain(n), n, Plain(n)[1].typeId) && 1 !in Lineage(Plain(n), n) && !IdIsItsOwn(Plain(n), 1)
  {
    PlainIs(n);
    SameIds(n);
    SameIdApart(Plain(n), n, 1);
  }

  lemma SameIds(n: nat)
    requires n == 0x1_0000_0001 && |Plain(n)| == n + 1
    ensures Plain(n)[n] == Plain(n)[1] == VTable(2, NULL, [])
  {
    PlainIdAt(n, n);
    PlainIdAt(n, 1);
    UniqueQuotient(n + 1, WORD32, 1, 2);
  }

  /** A class without a parent passes for another that has its id. */
  lemma SameIdApart(t: Tables, vt: Ptr, other: Ptr)
    requires Rooted(t) && IsTable(t, vt) && IsTable(t, other) && vt != other
    requires t[vt].parent == NULL && t[vt].typeId == t[other].typeId
    ensures HasId(t, vt, t[other].typeId) && other !in Lineage(t, vt) && !IdIsItsOwn(t, other)
  {
    assert Lineage(t, vt) == [vt];
    assert Lineage(t, vt)[0] == vt;
  }
}
