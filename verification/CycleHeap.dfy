/** The object graph a cycle collection works on, and what one collection has to do to it. */
module CycleHeap {
  import opened Graphs
  import opened References

  datatype Color = Black | Purple | Gray | White | Green

  /** `scan` is what the registered scanner visits, in order; it is empty without a scanner. */
  datatype Header = Header(strong: int, color: Color, deallocating: bool, buffered: bool, scan: seq<Ptr>)

  /** Headers by object pointer; entry 0 stands for NULL and is never read. */
  type Heap = seq<Header>

  predicate Object(h: Heap, p: Ptr) {
    p != NULL && p < |h|
  }

  /** An object trial deletion may touch: not finalized, not known acyclic. */
  predicate Eligible(h: Heap, p: Ptr) {
    Object(h, p) && !h[p].deallocating && h[p].color != Green
  }

  ghost predicate PointersValid(h: Heap) {
    forall u: Ptr, i: nat | Object(h, u) && i < |h[u].scan| :: h[u].scan[i] < |h|
  }

  /** The edges trial deletion follows. */
  ghost function Edges(h: Heap): (g: Graph)
    ensures |g| == |h|
    ensures WellFormed(g)
  {
    seq(|h|, u requires 0 <= u < |h| => if u == NULL then {} else set v | v in h[u].scan && Eligible(h, v))
  }

  // --- Counting references ---

  /** The references to `n` among the first `d[u]` fields of each object `u < k`. */
  ghost function Refs(h: Heap, d: seq<nat>, n: Ptr, k: nat): nat
    requires k <= |h| == |d|
  {
    if k <= 1 then 0
    else Refs(h, d, n, k - 1) + Occurrences(h[k - 1].scan, d[k - 1], n)
  }

  /** All fields of the objects in `s`, none of the others. */
  ghost function FieldsOf(h: Heap, s: set<Ptr>): (d: seq<nat>)
    ensures |d| == |h|
  {
    seq(|h|, u requires 0 <= u < |h| => if u in s then |h[u].scan| else 0)
  }

  ghost function RefsFrom(h: Heap, s: set<Ptr>, n: Ptr): nat {
    Refs(h, FieldsOf(h, s), n, |h|)
  }

  ghost function Objects(h: Heap): set<Ptr> {
    set p: Ptr | p < |h| && Object(h, p)
  }

  /** Every reference to `n` from any object. */
  ghost function InRefs(h: Heap, n: Ptr): nat {
    RefsFrom(h, Objects(h), n)
  }

  /** Reference counting never lets a count drop below the references that are there. */
  ghost predicate CountsCoverRefs(h: Heap) {
    forall n: Ptr | Object(h, n) && !h[n].deallocating :: h[n].strong >= InRefs(h, n)
  }

  lemma {:induction false} RefsBump(h: Heap, d: seq<nat>, u: Ptr, n: Ptr, k: nat)
    requires 0 < u < |h| == |d| && k <= |h|
    requires d[u] < |h[u].scan|
    ensures Refs(h, d[u := d[u] + 1], n, k) == Refs(h, d, n, k) + (if u < k && h[u].scan[d[u]] == n then 1 else 0)
  {
    if k > 1 {
      RefsBump(h, d, u, n, k - 1);
    }
  }

  lemma {:induction false} RefsMonotone(h: Heap, d: seq<nat>, e: seq<nat>, n: Ptr, k: nat)
    requires k <= |h| == |d| == |e|
    requires forall u | 0 < u < |h| :: d[u] <= e[u]
    ensures Refs(h, d, n, k) <= Refs(h, e, n, k)
  {
    if k > 1 {
      RefsMonotone(h, d, e, n, k - 1);
      OccurrencesMonotone(h[k - 1].scan, d[k - 1], e[k - 1], n);
    }
  }

  lemma {:induction false} RefsZero(h: Heap, d: seq<nat>, n: Ptr, k: nat)
    requires k <= |h| == |d|
    requires forall u, i | 0 < u < |h| && 0 <= i < d[u] && i < |h[u].scan| :: h[u].scan[i] != n
    ensures Refs(h, d, n, k) == 0
  {
    if k > 1 {
      RefsZero(h, d, n, k - 1);
      OccurrencesZero(h[k - 1].scan, d[k - 1], n);
    }
  }

  lemma {:induction false} RefsAgree(h: Heap, d: seq<nat>, e: seq<nat>, n: Ptr, k: nat)
    requires k <= |h| == |d| == |e|
    requires forall u | 0 < u < k :: d[u] == e[u] 
    ensures Refs(h, d, n, k) == Refs(h, e, n, k)
  {
    if k > 1 {
      RefsAgree(h, d, e, n, k - 1);
    }
  }

  /** An unscanned field that holds `n` is one reference not counted yet. */
  lemma RefsLeaveRoom(h: Heap, d: seq<nat>, u: Ptr)
    requires 0 < u < |h| == |d| && d[u] < |h[u].scan|
    requires forall v | 0 < v < |h| :: d[v] <= |h[v].scan|
    ensures Refs(h, d, h[u].scan[d[u]], |h|) < InRefs(h, h[u].scan[d[u]])
  {
    var n := h[u].scan[d[u]];
    RefsBump(h, d, u, n, |h|);
    RefsMonotone(h, d[u := d[u] + 1], FieldsOf(h, Objects(h)), n, |h|);
  }

  // --- What one collection decides ---

  /** The suspects trial deletion starts from. */
  ghost function Roots(h: Heap, suspects: seq<Ptr>): set<Ptr> {
    set p | p in suspects && Eligible(h, p) && h[p].color == Purple && h[p].strong > 0
  }

  /** The objects turned gray: all that the roots reach. */
  ghost function Traced(h: Heap, suspects: seq<Ptr>): set<Ptr> {
    Reach(Edges(h), Roots(h, suspects))
  }

  /** The count left once every reference out of the traced objects is taken away. */
  ghost function Trial(h: Heap, traced: set<Ptr>, n: Ptr): int
    requires n < |h|
  {
    h[n].strong - RefsFrom(h, traced, n)
  }

  ghost function Held(h: Heap, traced: set<Ptr>): set<Ptr> {
    set n | n in traced && n < |h| && Trial(h, traced, n) > 0
  }

  /** The traced objects that a traced object held from elsewhere reaches. */
  ghost function Saved(h: Heap, suspects: seq<Ptr>): set<Ptr> {
    Reach(Edges(h), Held(h, Traced(h, suspects)))
  }

  ghost function Garbage(h: Heap, suspects: seq<Ptr>): set<Ptr> {
    Traced(h, suspects) - Saved(h, suspects)
  }

  function Finalized(hd: Header): Header {
    hd.(color := Black, deallocating := true, buffered := false, scan := [])
  }

  /** The header of `p` after a collection, the buffered flag aside. */
  ghost function After(h: Heap, suspects: seq<Ptr>, p: Ptr): Header
    requires p < |h|
  {
    var traced := Traced(h, suspects);
    if p in Garbage(h, suspects) then Finalized(h[p].(strong := 0))
    else if p in traced then h[p].(strong := Trial(h, traced, p) + 1, color := Black)
    else h[p]
  }

  predicate SameButBuffered(a: Header, b: Header) {
    a.(buffered := false) == b.(buffered := false)
  }

  /** `header->flags &= ~ARC_FLAG_BUFFERED` */
  function Unbuffered(h: Heap, p: Ptr): (h': Heap)
    requires Object(h, p)
    ensures |h'| == |h|
  {
    h[p := h[p].(buffered := false)]
  }
}
