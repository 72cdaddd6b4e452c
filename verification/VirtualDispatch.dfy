/** Compressed virtual tables and inline caches, against the plain table lookup. */
module VirtualDispatch {
  import opened ObjectSystem
  import opened References
  import opened Words

  const POLY_SIZE := 4

  // --- Compressed tables ---

  datatype Override = Override(index: nat, method_: Ptr)

  datatype Compressed = NoTable | Compressed(base: Ptr, parent: Compressed, overrides: seq<Override>)

  /** Slot `i` of a child's table has to be recorded: it is new, or not the parent's. */
  predicate Differs(child: seq<Ptr>, parent: seq<Ptr>, i: nat)
    requires i < |child|
  {
    i >= |parent| || child[i] != parent[i]
  }

  /** The recorded slots below `n`, in order. */
  function Diff(child: seq<Ptr>, parent: seq<Ptr>, n: nat): seq<Override>
    requires n <= |child|
  {
    if n == 0 then []
    else Diff(child, parent, n - 1) + (if Differs(child, parent, n - 1) then [Override(n - 1, child[n - 1])] else [])
  }

  /** Exactly the differing slots are recorded, each once. */
  lemma {:induction false} DiffIsExact(child: seq<Ptr>, parent: seq<Ptr>, n: nat)
    requires n <= |child|
    ensures forall o | o in Diff(child, parent, n) :: o.index < n && Differs(child, parent, o.index) && o.method_ == child[o.index]
    ensures forall i: nat | i < n && Differs(child, parent, i) :: Override(i, child[i]) in Diff(child, parent, n)
    ensures forall a, b | 0 <= a < b < |Diff(child, parent, n)| :: Diff(child, parent, n)[a].index < Diff(child, parent, n)[b].index
  {
    if n > 0 { DiffIsExact(child, parent, n - 1); }
  }

  /** `cvtable_lookup`. */
  function Lookup(t: Tables, cv: Compressed, i: nat): Ptr {
    match cv
    case NoTable => NULL
    case Compressed(base, parent, overrides) =>
      var found := Find(overrides, i, 0);
      if found < |overrides| then overrides[found].method_
      else if parent.Compressed? then Lookup(t, parent, i)
      else VirtualMethod(t, base, i)
  }

  /** The first override of slot `i`, from `k` on. */
  function Find(overrides: seq<Override>, i: nat, k: nat): (r: nat)
    requires k <= |overrides|
    ensures k <= r <= |overrides| && (r < |overrides| ==> overrides[r].index == i)
    ensures forall j | k <= j < r :: overrides[j].index != i
    decreases |overrides| - k
  {
    if k == |overrides| then k else if overrides[k].index == i then k else Find(overrides, i, k + 1)
  }

  /** A compressed table over `base`: what is recorded is the difference from the table its parent wraps. */
  ghost predicate Wraps(t: Tables, cv: Compressed) {
    cv.Compressed? ==>
      && IsTable(t, cv.base)
      && (cv.parent.NoTable? ==> cv.overrides == [])
      && (cv.parent.Compressed? ==>
            && IsTable(t, cv.parent.base) && Wraps(t, cv.parent)
            && cv.overrides == Diff(t[cv.base].methods, t[cv.parent.base].methods, |t[cv.base].methods|))
  }

  /** What a lookup of any slot number gives: the nearest table in the chain that is long enough. */
  function Nearest(t: Tables, cv: Compressed, i: nat): Ptr {
    match cv
    case NoTable => NULL
    case Compressed(base, parent, _) =>
      if IsTable(t, base) && i < |t[base].methods| then t[base].methods[i] else Nearest(t, parent, i)
  }

  lemma {:induction false} LookupIsNearest(t: Tables, cv: Compressed, i: nat)
    requires Wraps(t, cv)
    ensures Lookup(t, cv, i) == Nearest(t, cv, i)
  {
    if cv.Compressed? && cv.parent.Compressed? {
      var child, parent := t[cv.base].methods, t[cv.parent.base].methods;
      LookupIsNearest(t, cv.parent, i);
      DiffIsExact(child, parent, |child|);
      var found := Find(cv.overrides, i, 0);
      if found < |cv.overrides| {
        assert cv.overrides[found] in cv.overrides;
      } else if i < |child| {
        assert forall o | o in cv.overrides :: o.index != i;
        assert !Differs(child, parent, i);
      }
    }
  }

  /** At any inheritance depth a lookup in range gives the full table's entry. */
  lemma LookupIsFullTable(t: Tables, cv: Compressed, i: nat)
    requires Wraps(t, cv) && cv.Compressed? && i < |t[cv.base].methods|
    ensures Lookup(t, cv, i) == VirtualMethod(t, cv.base, i)
  {
    LookupIsNearest(t, cv, i);
  }

  function Count(child: seq<Ptr>, parent: seq<Ptr>, n: nat): nat
    requires n <= |child| && n <= |parent|
  {
    if n == 0 then 0 else Count(child, parent, n - 1) + (if child[n - 1] != parent[n - 1] then 1 else 0)
  }

  /** The first pass counts what the second pass records. */
  lemma {:induction false} CountIsDiff(child: seq<Ptr>, parent: seq<Ptr>, n: nat)
    requires n <= |child|
    ensures n <= |parent| ==> |Diff(child, parent, n)| == Count(child, parent, n)
    ensures n >= |parent| ==> |Diff(child, parent, n)| == Count(child, parent, |parent|) + (n - |parent|)
  {
    if n > 0 { CountIsDiff(child, parent, n - 1); }
  }

  /** The second pass: fills the allocated array exactly. */
  method Record(child: seq<Ptr>, parent: seq<Ptr>, count: nat) returns (overrides: array<Override>)
    requires count == |Diff(child, parent, |child|)|
    ensures overrides[..] == Diff(child, parent, |child|)
  {
    overrides := new Override[count](_ => Override(0, NULL));
    var shared := Min(|parent|, |child|);
    var idx := 0;
    for i := 0 to shared
      invariant idx == |Diff(child, parent, i)| <= count && overrides[..idx] == Diff(child, parent, i)
    {
      DiffGrows(child, parent, i + 1, |child|);
      if child[i] != parent[i] {
        overrides[idx] := Override(i, child[i]);
        idx := idx + 1;
      }
    }
    for i := shared to |child|
      invariant idx == |Diff(child, parent, i)| <= count && overrides[..idx] == Diff(child, parent, i)
    {
      DiffGrows(child, parent, i + 1, |child|);
      overrides[idx] := Override(i, child[i]);
      idx := idx + 1;
    }
  }

  lemma {:induction false} DiffGrows(child: seq<Ptr>, parent: seq<Ptr>, i: nat, n: nat)
    requires i <= n <= |child|
    ensures |Diff(child, parent, i)| <= |Diff(child, parent, n)|
    decreases n
  {
    if i < n { DiffGrows(child, parent, i, n - 1); }
  }

  /** What is recorded: the difference, but nothing for a class without a parent. */
  function Recorded(t: Tables, full: Ptr, parent: Compressed): seq<Override>
    requires IsTable(t, full) && (parent.Compressed? ==> IsTable(t, parent.base))
  {
    if parent.NoTable? || t[full].parent == NULL then []
    else Diff(t[full].methods, t[parent.base].methods, |t[full].methods|)
  }

  /** `cvtable_create`, over any compressed parent, also one that does not belong to the table's own parent. */
  method CreateCompressed(t: Tables, full: Ptr, parent: Compressed) returns (cv: Compressed)
    requires full == NULL || IsTable(t, full)
    requires parent.Compressed? ==> IsTable(t, parent.base)
    ensures cv.NoTable? <==> full == NULL
    ensures full != NULL ==> cv.base == full && cv.parent == parent
    ensures full != NULL ==> cv.overrides == Recorded(t, full, parent)
    ensures full != NULL && Wraps(t, parent) ==>
              (Wraps(t, cv) <==> parent.NoTable? || t[full].parent != NULL
                                 || Diff(t[full].methods, t[parent.base].methods, |t[full].methods|) == [])
  {
    if full == NULL { return NoTable; }
    if parent.NoTable? || t[full].parent == NULL { return Compressed(full, parent, []); }
    var child, inherited := t[full].methods, t[parent.base].methods;
    var shared := Min(|inherited|, |child|);
    var count := 0;
    for i := 0 to shared
      invariant count == Count(child, inherited, i)
    {
      if child[i] != inherited[i] { count := count + 1; }
    }
    if |child| > |inherited| { count := count + (|child| - |inherited|); }
    CountIsDiff(child, inherited, |child|);
    if count == 0 { return Compressed(full, parent, []); }
    var overrides := Record(child, inherited, count);
    cv := Compressed(full, parent, overrides[..]);
  }

  /** The slots that are recorded, and so found without asking the parent. */
  predicate RecordedAt(t: Tables, full: Ptr, parent: Compressed, i: nat)
    requires IsTable(t, full) && i < |t[full].methods|
  {
    parent.Compressed? && IsTable(t, parent.base) && t[full].parent != NULL && Differs(t[full].methods, t[parent.base].methods, i)
  }

  /** In range, lookups give the table's own methods. */
  ghost predicate Right(t: Tables, cv: Compressed) {
    cv.Compressed? ==> IsTable(t, cv.base) && forall i: nat | i < |t[cv.base].methods| :: Lookup(t, cv, i) == t[cv.base].methods[i]
  }

  /** A slot a new compressed table answers rightly: there is no compressed parent to ask, or it is recorded, or the
      parent's answer is the right one. */
  ghost predicate Answered(t: Tables, full: Ptr, parent: Compressed, i: nat)
    requires IsTable(t, full) && i < |t[full].methods|
  {
    parent.NoTable? || RecordedAt(t, full, parent, i) || Lookup(t, parent, i) == t[full].methods[i]
  }

  lemma LookupInNew(t: Tables, full: Ptr, parent: Compressed, i: nat)
    requires IsTable(t, full) && (parent.Compressed? ==> IsTable(t, parent.base)) && i < |t[full].methods|
    ensures Lookup(t, Compressed(full, parent, Recorded(t, full, parent)), i) ==
            if parent.NoTable? || RecordedAt(t, full, parent, i) then t[full].methods[i] else Lookup(t, parent, i)
  {
    var recorded := Recorded(t, full, parent);
    var found := Find(recorded, i, 0);
    if parent.Compressed? && t[full].parent != NULL {
      var child := t[full].methods;
      DiffIsExact(child, t[parent.base].methods, |child|);
      if found < |recorded| {
        assert recorded[found] in recorded;
      } else {
        assert forall o | o in recorded :: o.index != i;
      }
    }
  }

  /** Whatever the compressed parent is, a new compressed table looks up the right methods if and only if every slot
      that is not recorded is answered rightly by the parent. */
  lemma RightIff(t: Tables, full: Ptr, parent: Compressed)
    requires IsTable(t, full) && (parent.Compressed? ==> IsTable(t, parent.base))
    ensures Right(t, Compressed(full, parent, Recorded(t, full, parent))) <==>
            forall i: nat | i < |t[full].methods| :: Answered(t, full, parent, i)
  {
    var cv := Compressed(full, parent, Recorded(t, full, parent));
    forall i: nat | i < |t[full].methods|
      ensures Lookup(t, cv, i) == t[full].methods[i] <==> Answered(t, full, parent, i)
    {
      LookupInNew(t, full, parent, i);
    }
  }

  /** Over a right one it is right, unless the class has no parent: then every method has to be the compressed
      parent's. */
  lemma RightOverRight(t: Tables, full: Ptr, parent: Compressed)
    requires IsTable(t, full) && Right(t, parent)
    ensures Right(t, Compressed(full, parent, Recorded(t, full, parent))) <==>
            parent.NoTable? || t[full].parent != NULL
            || forall i: nat | i < |t[full].methods| :: Lookup(t, parent, i) == t[full].methods[i]
  {
    RightIff(t, full, parent);
    if parent.Compressed? && t[full].parent != NULL {
      forall i: nat | i < |t[full].methods| ensures Answered(t, full, parent, i) {
        assert !RecordedAt(t, full, parent, i) ==> i < |t[parent.base].methods|;
      }
    }
  }

  /** Over a parent that wraps its table those are the methods of the nearest table that is long enough. */
  lemma OrphanRightIff(t: Tables, full: Ptr, parent: Compressed)
    requires IsTable(t, full) && Wraps(t, parent) && parent.Compressed? && t[full].parent == NULL
    ensures Right(t, Compressed(full, parent, Recorded(t, full, parent))) <==>
            forall i: nat | i < |t[full].methods| :: Nearest(t, parent, i) == t[full].methods[i]
  {
    forall i: nat ensures Lookup(t, parent, i) == Nearest(t, parent, i) { LookupIsNearest(t, parent, i); }
    forall i: nat | i < |t[parent.base].methods| ensures Lookup(t, parent, i) == t[parent.base].methods[i] {
      LookupIsFullTable(t, parent, i);
    }
    RightOverRight(t, full, parent);
  }

  /** Two classes without parents, with a method each. */
  function TwoClasses(): Tables {
    [VTable(0, NULL, []), VTable(2, NULL, [5]), VTable(3, NULL, [7])]
  }

  /** Given the first one's compressed table as parent, the second's looks up the first one's method. */
  lemma OrphanIsWrong()
    ensures var t, first := TwoClasses(), Compressed(1, NoTable, []);
      var second := Compressed(2, first, Recorded(t, 2, first));
      Wraps(t, first) && Right(t, first) && Lookup(t, second, 0) == 5 != VirtualMethod(t, 2, 0) && !Right(t, second)
  {
    var t, first := TwoClasses(), Compressed(1, NoTable, []);
    LookupInNew(t, 2, first, 0);
  }

  // --- Inline caches ---

  datatype CacheState = Empty | Monomorphic | Polymorphic | Megamorphic

  datatype Entry = Entry(vtable: Ptr, method_: Ptr)

  /** The entry says what the plain table says. */
  predicate EntryOk(t: Tables, index: nat, e: Entry) {
    IsTable(t, e.vtable) && e.method_ != NULL && e.method_ == VirtualMethod(t, e.vtable, index)
  }

  ghost predicate Holds(es: seq<Entry>, vt: Ptr) {
    exists i :: 0 <= i < |es| && es[i].vtable == vt
  }

  /** Every entry is good, no table stands twice, and the state tells the number of entries: none, one, two
      to four, or four with the cache given up. */
  ghost predicate CacheOk(t: Tables, index: nat, es: seq<Entry>, state: CacheState) {
    && |es| <= POLY_SIZE
    && (forall i | 0 <= i < |es| :: EntryOk(t, index, es[i]))
    && (forall i, j | 0 <= i < j < |es| :: es[i].vtable != es[j].vtable)
    && match state
       case Empty => |es| == 0
       case Monomorphic => |es| == 1
       case Polymorphic => 2 <= |es|
       case Megamorphic => |es| == POLY_SIZE
  }

  class InlineCache {
    var state: CacheState
    var methodIndex: nat
    const entries: array<Entry>
    var numEntries: nat
    var hits: nat
    var misses: nat

    ghost predicate Valid(t: Tables)
      reads this, entries
    {
      && entries.Length == POLY_SIZE && numEntries <= POLY_SIZE
      && CacheOk(t, methodIndex, entries[..numEntries], state)
    }

    /** `icache_init`. */
    constructor (methodIndex: nat)
      ensures forall t: Tables :: Valid(t)
      ensures state == Empty && this.methodIndex == methodIndex && hits == misses == 0 && fresh(entries)
    {
      state, this.methodIndex, numEntries, hits, misses := Empty, methodIndex, 0, 0, 0;
      entries := new Entry[POLY_SIZE](_ => Entry(NULL, NULL));
    }

    ghost predicate Cached(vt: Ptr)
      requires numEntries <= entries.Length
      reads this, entries
    {
      Holds(entries[..numEntries], vt)
    }

    /** The fast path: the first entry for `vt`. */
    method FindEntry(t: Tables, vt: Ptr) returns (i: nat)
      requires Valid(t)
      ensures i <= numEntries && (i < numEntries <==> Cached(vt))
      ensures i < numEntries ==> entries[i].vtable == vt && EntryOk(t, methodIndex, entries[i])
    {
      ghost var es := entries[..numEntries];
      i := 0;
      while i < numEntries
        invariant i <= numEntries && forall j | 0 <= j < i :: es[j].vtable != vt
      {
        assert es[i] == entries[i];
        if entries[i].vtable == vt { return; }
        i := i + 1;
      }
    }

    /** `icache_dispatch` on an object whose table is `vt`, NULL for no object: always the answer of the
        plain table. A new table is remembered while there is room. */
    method Dispatch(t: Tables, vt: Ptr) returns (m: Ptr)
      requires Valid(t) && (vt == NULL || IsTable(t, vt))
      modifies this, entries
      ensures Valid(t) && methodIndex == old(methodIndex)
      ensures m == VirtualMethod(t, vt, methodIndex)
      ensures hits == old(hits) + (if vt != NULL && old(Cached(vt)) then 1 else 0)
      ensures misses == old(misses) + (if vt != NULL && !old(Cached(vt)) then 1 else 0)
      ensures entries[..numEntries] == old(entries[..numEntries]) +
                (if m != NULL && !old(Cached(vt)) && old(numEntries) < 4 then [Entry(vt, m)] else [])
      ensures state.Megamorphic? <==>
                old(state).Megamorphic? || (m != NULL && !old(Cached(vt)) && old(numEntries) == 4)
    {
      if vt == NULL { return NULL; }
      var i := FindEntry(t, vt);
      if i < numEntries {
        hits := hits + 1;
        return entries[i].method_;
      }
      misses := misses + 1;
      m := NULL;
      if methodIndex < |t[vt].methods| { m := t[vt].methods[methodIndex]; }
      if m == NULL { return; }
      if state.Empty? {
        entries[0] := Entry(vt, m);
        numEntries := 1;
        state := Monomorphic;
      } else if !state.Megamorphic? {
        if numEntries < POLY_SIZE {
          entries[numEntries] := Entry(vt, m);
          numEntries := numEntries + 1;
          state := Polymorphic;
        } else {
          state := Megamorphic;
        }
      }
    }

    /** `icache_reset`: the cache is good for any tables again. */
    method Reset()
      requires entries.Length == POLY_SIZE
      modifies this, entries
      ensures forall t: Tables :: Valid(t)
      ensures state == Empty && methodIndex == old(methodIndex) && hits == misses == numEntries == 0
      ensures forall j | 0 <= j < entries.Length :: entries[j] == Entry(NULL, NULL)
    {
      for i := 0 to entries.Length
        modifies entries
        invariant forall j | 0 <= j < i :: entries[j] == Entry(NULL, NULL)
      {
        entries[i] := Entry(NULL, NULL);
      }
      state, numEntries, hits, misses := Empty, 0, 0, 0;
    }
  }
}
