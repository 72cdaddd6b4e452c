/** Phase 2 of a cycle collection: what holds while traced objects are turned white or restored. */
module CycleScan {
  import opened Graphs
  import opened References
  import opened CycleHeap
  import opened CycleTrial

  ghost function SavedBy(h0: Heap, traced: set<Ptr>): set<Ptr> {
    Reach(Edges(h0), Held(h0, traced))
  }

  /** A traced object is gray or white with its trial count, or black with one more. */
  ghost predicate StateOk(h0: Heap, traced: set<Ptr>, h: Heap, p: Ptr)
    requires p < |h0| == |h|
  {
    if p !in traced then SameButBuffered(h[p], h0[p])
    else
      && (h[p].color == Gray || h[p].color == White || h[p].color == Black)
      && (h[p].color == White ==> Trial(h0, traced, p) <= 0)
      && (h[p].color == Black ==> p in SavedBy(h0, traced))
      && SameButBuffered(h[p], h0[p].(color := h[p].color,
                                      strong := Trial(h0, traced, p) + if h[p].color == Black then 1 else 0))
  }

  ghost predicate BlackBelow(h0: Heap, h: Heap, u: Ptr) {
    u < |h0| == |h| && forall v | v in Edges(h0)[u] :: h[v].color == Black
  }

  ghost predicate PrefixBlack(h0: Heap, h: Heap, fields: seq<Ptr>, i: nat) {
    |h| == |h0| && forall j | 0 <= j < i && j < |fields| && Eligible(h0, fields[j]) :: h[fields[j]].color == Black
  }

  lemma PrefixBlackStep(h0: Heap, h: Heap, h': Heap, fields: seq<Ptr>, i: nat, b: set<Ptr>)
    requires PrefixBlack(h0, h, fields, i) && i < |fields| && Blackens(h, h', b)
    requires Eligible(h0, fields[i]) ==> h'[fields[i]].color == Black
    ensures PrefixBlack(h0, h', fields, i + 1)
  {
    forall j | 0 <= j < i + 1 && Eligible(h0, fields[j]) ensures h'[fields[j]].color == Black {
      if j < i { assert h[fields[j]].color == Black && Object(h, fields[j]); }
    }
  }

  ghost predicate PrefixNotGray(h0: Heap, h: Heap, fields: seq<Ptr>, i: nat) {
    |h| == |h0| && forall j | 0 <= j < i && j < |fields| && Eligible(h0, fields[j]) :: h[fields[j]].color != Gray
  }

  lemma PrefixNotGrayStep(h0: Heap, h: Heap, h': Heap, fields: seq<Ptr>, i: nat, b: set<Ptr>)
    requires PrefixNotGray(h0, h, fields, i) && i < |fields| && Recolors(h, h', b)
    requires Eligible(h0, fields[i]) ==> h'[fields[i]].color != Gray
    ensures PrefixNotGray(h0, h', fields, i + 1)
  {
    forall j | 0 <= j < i + 1 && Eligible(h0, fields[j]) ensures h'[fields[j]].color != Gray {
      if j < i { assert h[fields[j]].color != Gray && Object(h, fields[j]); }
    }
  }

  lemma GraysShrink(h: Heap, h': Heap, b: set<Ptr>)
    requires Recolors(h, h', b)
    ensures Grays(h') <= Grays(h)
  {
  }

  lemma NotBlackShrinks(h: Heap, h': Heap, b: set<Ptr>)
    requires Blackens(h, h', b)
    ensures NotBlack(h') <= NotBlack(h)
  {
  }

  ghost predicate NoGrayBelow(h0: Heap, h: Heap, u: Ptr) {
    u < |h0| == |h| && forall v | v in Edges(h0)[u] :: h[v].color != Gray
  }

  /** `restoring` and `whitening` are the objects whose fields are being visited right now. */
  ghost predicate ScanInv(h0: Heap, traced: set<Ptr>, h: Heap, restoring: set<Ptr>, whitening: set<Ptr>) {
    && |h| == |h0| && PointersValid(h0)
    && (forall p | p in traced :: Eligible(h0, p))
    && Closed(Edges(h0), traced)
    && (forall p: Ptr | Object(h0, p) :: h0[p].color != Gray && h0[p].color != White)
    && (forall p: Ptr | Object(h0, p) :: StateOk(h0, traced, h, p))
    && (forall u | u in traced && u !in restoring && h[u].color == Black :: BlackBelow(h0, h, u))
    && (forall u | u in traced && u !in whitening && h[u].color == White :: NoGrayBelow(h0, h, u))
  }

  /** Colors only move on: gray to white, and those of objects in `b` to black. Flags stay. */
  ghost predicate Recolors(h: Heap, h': Heap, b: set<Ptr>) {
    |h| == |h'| && forall p: Ptr | Object(h, p) ::
      && h'[p].buffered == h[p].buffered
      && (h'[p].color == h[p].color || (h'[p].color == Black && p in b) || (h[p].color == Gray && h'[p].color == White))
  }

  ghost predicate Blackens(h: Heap, h': Heap, b: set<Ptr>) {
    |h| == |h'| && forall p: Ptr | Object(h, p) ::
      (h'[p].color == h[p].color || (h'[p].color == Black && p in b)) && h'[p].buffered == h[p].buffered
  }

  /** What the scan may look at and what it may turn black: with a held object all that it reaches. */
  ghost predicate Bounds(h0: Heap, traced: set<Ptr>, r: set<Ptr>, b: set<Ptr>) {
    Closed(Edges(h0), r) && Closed(Edges(h0), b) && forall p | p in Held(h0, traced) && p in r :: p in b
  }

  ghost function NotBlack(h: Heap): set<Ptr> {
    set p: Ptr | p < |h| && Object(h, p) && h[p].color != Black
  }

  /** Header of `p` after phase 2. */
  ghost function ScannedHeader(h0: Heap, traced: set<Ptr>, p: Ptr): Header
    requires p < |h0|
  {
    if p !in traced then h0[p]
    else if p in SavedBy(h0, traced) then h0[p].(color := Black, strong := Trial(h0, traced, p) + 1)
    else h0[p].(color := White, strong := 0)
  }

  ghost predicate Scanned(h0: Heap, traced: set<Ptr>, h: Heap) {
    |h| == |h0| && forall p: Ptr | Object(h0, p) :: SameButBuffered(h[p], ScannedHeader(h0, traced, p))
  }

  /** Phase 2 takes only saved objects off the list of suspects. */
  ghost predicate StillListed(h0: Heap, traced: set<Ptr>, before: seq<Ptr>, after: seq<Ptr>) {
    |before| == |after| && forall j | 0 <= j < |before| ::
      after[j] == before[j] || (after[j] == NULL && before[j] in SavedBy(h0, traced))
  }

  // --- What is black, and who loses its flag, along the way ---

  /** The objects saved by what the first `i` listed suspects lead to. */
  ghost function Early(h0: Heap, traced: set<Ptr>, s: seq<Ptr>, i: nat): set<Ptr>
    requires i <= |s|
  {
    Reach(Edges(h0), Held(h0, traced) * Reach(Edges(h0), KeptUpTo(s, i)))
  }

  /** The object at place `j` of the list is black when its turn is over. */
  ghost predicate BlackAtTurn(h0: Heap, traced: set<Ptr>, s: seq<Ptr>, j: nat) {
    j < |s| && s[j] != NULL && s[j] in Early(h0, traced, s, j + 1)
  }

  ghost predicate Dropped(h0: Heap, traced: set<Ptr>, s: seq<Ptr>, i: nat, p: Ptr) {
    exists j: nat :: j < i && BlackAtTurn(h0, traced, s, j) && s[j] == p
  }

  /** After `i` turns the objects dropped have lost their flags, and no others. */
  ghost predicate FlagsDropped(h0: Heap, traced: set<Ptr>, s: seq<Ptr>, i: nat, h: Heap, h': Heap) {
    && |h| == |h'| == |h0|
    && forall p: Ptr | Object(h0, p) :: h'[p].buffered == (h[p].buffered && !Dropped(h0, traced, s, i, p))
  }

  ghost predicate BlackWithin(h0: Heap, traced: set<Ptr>, h: Heap, b: set<Ptr>) {
    |h| == |h0| && forall p | p in traced && p < |h| && h[p].color == Black :: p in b
  }

  lemma EarlyGrows(h0: Heap, traced: set<Ptr>, s: seq<Ptr>, i: nat)
    requires i < |s|
    ensures Early(h0, traced, s, i) <= Early(h0, traced, s, i + 1)
    ensures Bounds(h0, traced, Reach(Edges(h0), KeptUpTo(s, i + 1)), Early(h0, traced, s, i + 1))
    ensures s[i] != NULL && s[i] < |h0| ==> s[i] in Reach(Edges(h0), KeptUpTo(s, i + 1))
  {
    var g, held := Edges(h0), Held(h0, traced);
    var few, many := Reach(g, KeptUpTo(s, i)), Reach(g, KeptUpTo(s, i + 1));
    assert KeptUpTo(s, i) <= KeptUpTo(s, i + 1);
    ReachMonotone(g, KeptUpTo(s, i), KeptUpTo(s, i + 1));
    ReachMonotone(g, held * few, held * many);
    ReachIsClosed(g, KeptUpTo(s, i + 1));
    ReachIsClosed(g, held * many);
    ReachContainsSources(g, held * many);
    ReachContainsSources(g, KeptUpTo(s, i + 1));
  }

  lemma EarlyIsSaved(h0: Heap, traced: set<Ptr>, s: seq<Ptr>, i: nat)
    requires i <= |s|
    ensures Early(h0, traced, s, i) <= SavedBy(h0, traced)
  {
    ReachMonotone(Edges(h0), Held(h0, traced) * Reach(Edges(h0), KeptUpTo(s, i)), Held(h0, traced));
  }

  /** What is reached from scanned suspects is not gray, so the held ones among it are black with all below them. */
  lemma EarlyIsBlack(h0: Heap, traced: set<Ptr>, h: Heap, s: seq<Ptr>, i: nat)
    requires ScanInv(h0, traced, h, {}, {}) && i <= |s|
    requires forall j | 0 <= j < i && s[j] != NULL :: s[j] in traced && h[s[j]].color != Gray
    ensures forall p | p in Early(h0, traced, s, i) :: p in traced && h[p].color == Black
  {
    var kept := KeptUpTo(s, i);
    var settled := set p | p in traced && h[p].color != Gray;
    forall u, v | u in settled && v in Edges(h0)[u] ensures v in settled {
      assert StateOk(h0, traced, h, u);
      if h[u].color == Black { assert BlackBelow(h0, h, u); } else { assert NoGrayBelow(h0, h, u); }
    }
    ReachIsLeast(Edges(h0), kept, settled);
    var black := set p | p in traced && h[p].color == Black;
    forall u, v | u in black && v in Edges(h0)[u] ensures v in black { assert BlackBelow(h0, h, u); }
    forall p | p in Held(h0, traced) * Reach(Edges(h0), kept) ensures p in black { assert StateOk(h0, traced, h, p); }
    ReachIsLeast(Edges(h0), Held(h0, traced) * Reach(Edges(h0), kept), black);
  }

  /** One more turn: the suspect is dropped exactly if it is black now. */
  lemma DroppedStep(h0: Heap, traced: set<Ptr>, s: seq<Ptr>, i: nat, h1: Heap, h: Heap, h': Heap)
    requires FlagsDropped(h0, traced, s, i, h1, h) && i < |s| && |h'| == |h|
    requires if BlackAtTurn(h0, traced, s, i) && Object(h0, s[i]) then SameFlagsBut(h, h', s[i]) else SameFlags(h, h')
    ensures FlagsDropped(h0, traced, s, i + 1, h1, h')
  {
    forall p: Ptr | Object(h0, p) ensures h'[p].buffered == (h1[p].buffered && !Dropped(h0, traced, s, i + 1, p)) {
      assert Dropped(h0, traced, s, i, p) ==> Dropped(h0, traced, s, i + 1, p);
      if Dropped(h0, traced, s, i + 1, p) && !Dropped(h0, traced, s, i, p) {
        var j: nat :| j < i + 1 && BlackAtTurn(h0, traced, s, j) && s[j] == p;
        assert j == i;
      }
    }
  }

  ghost predicate SameFlagsBut(h: Heap, h': Heap, q: Ptr) {
    |h| == |h'| && forall p: Ptr | Object(h, p) :: h'[p].buffered == (h[p].buffered && p != q)
  }

  lemma SavedIsTraced(h0: Heap, traced: set<Ptr>)
    requires Closed(Edges(h0), traced)
    ensures SavedBy(h0, traced) <= traced && Closed(Edges(h0), SavedBy(h0, traced))
    ensures forall p | p in Held(h0, traced) :: p in SavedBy(h0, traced)
  {
    ReachIsLeast(Edges(h0), Held(h0, traced), traced);
    ReachIsClosed(Edges(h0), Held(h0, traced));
    ReachContainsSources(Edges(h0), Held(h0, traced));
  }

  lemma ScanStart(h0: Heap, traced: set<Ptr>, h: Heap, suspects: seq<Ptr>)
    requires Marked(h0, traced, h, suspects)
    ensures ScanInv(h0, traced, h, {}, {})
  {
    ReachIsClosed(Edges(h0), Kept(suspects));
  }

  /** `header->strong_count++; header->color = ARC_COLOR_BLACK` */
  function Blackened(h: Heap, p: Ptr): (h': Heap)
    requires Object(h, p)
    ensures |h'| == |h| && h'[p].color == Black
  {
    h[p := h[p].(strong := h[p].strong + 1, color := Black)]
  }

  lemma BlackStates(h0: Heap, traced: set<Ptr>, h: Heap, restoring: set<Ptr>, whitening: set<Ptr>, p: Ptr)
    requires ScanInv(h0, traced, h, restoring, whitening)
    requires p in SavedBy(h0, traced) && p in traced && h[p].color != Black
    ensures forall q: Ptr | Object(h0, q) :: StateOk(h0, traced, Blackened(h, p), q)
  {
    forall q: Ptr | Object(h0, q) ensures StateOk(h0, traced, Blackened(h, p), q) {
      assert StateOk(h0, traced, h, q);
    }
  }

  lemma BlackStep(h0: Heap, traced: set<Ptr>, h: Heap, restoring: set<Ptr>, whitening: set<Ptr>, p: Ptr)
    requires ScanInv(h0, traced, h, restoring, whitening)
    requires p in SavedBy(h0, traced) && p in traced && h[p].color != Black
    ensures ScanInv(h0, traced, Blackened(h, p), restoring + {p}, whitening)
    ensures Blackens(h, Blackened(h, p), {p}) && NotBlack(Blackened(h, p)) == NotBlack(h) - {p}
  {
    var h' := Blackened(h, p);
    BlackStates(h0, traced, h, restoring, whitening, p);
    forall u | u in traced && u !in restoring + {p} && h'[u].color == Black ensures BlackBelow(h0, h', u) {
      assert BlackBelow(h0, h, u);
    }
    forall u | u in traced && u !in whitening && h'[u].color == White ensures NoGrayBelow(h0, h', u) {
      assert NoGrayBelow(h0, h, u);
    }
  }

  /** A traced object that came out black is a saved one, and dropping its flag changes nothing else. */
  lemma SuspectScanned(h0: Heap, traced: set<Ptr>, h: Heap, p: Ptr)
    requires ScanInv(h0, traced, h, {}, {}) && p in traced
    ensures h[p].color == Black ==> p in SavedBy(h0, traced) && ScanInv(h0, traced, Unbuffered(h, p), {}, {})
  {
    var h' := Unbuffered(h, p);
    assert StateOk(h0, traced, h, p);
    forall q: Ptr | Object(h0, q) ensures StateOk(h0, traced, h', q) && h'[q].color == h[q].color {
      assert StateOk(h0, traced, h, q);
    }
    forall u | u in traced && h'[u].color == Black ensures BlackBelow(h0, h', u) {
      assert BlackBelow(h0, h, u);
    }
    forall u | u in traced && h'[u].color == White ensures NoGrayBelow(h0, h', u) {
      assert NoGrayBelow(h0, h, u);
    }
  }

  function Whitened(h: Heap, p: Ptr): (h': Heap)
    requires Object(h, p)
    ensures |h'| == |h| && h'[p].color == White
  {
    h[p := h[p].(color := White)]
  }

  lemma WhiteStep(h0: Heap, traced: set<Ptr>, h: Heap, whitening: set<Ptr>, p: Ptr)
    requires ScanInv(h0, traced, h, {}, whitening)
    requires Object(h, p) && h[p].color == Gray && h[p].strong <= 0
    ensures ScanInv(h0, traced, Whitened(h, p), {}, whitening + {p})
    ensures Recolors(h, Whitened(h, p), {}) && Grays(Whitened(h, p)) == Grays(h) - {p}
  {
    var h' := Whitened(h, p);
    assert StateOk(h0, traced, h, p);
    forall q: Ptr | Object(h0, q) ensures StateOk(h0, traced, h', q) {
      assert StateOk(h0, traced, h, q);
    }
    forall u | u in traced && h'[u].color == Black ensures BlackBelow(h0, h', u) {
      assert BlackBelow(h0, h, u);
    }
    forall u | u in traced && u !in whitening + {p} && h'[u].color == White ensures NoGrayBelow(h0, h', u) {
      assert NoGrayBelow(h0, h, u);
    }
  }

  lemma FieldOfSaved(h0: Heap, traced: set<Ptr>, u: Ptr, f: Ptr, b: set<Ptr>)
    requires u in SavedBy(h0, traced) && Object(h0, u) && f in h0[u].scan && Eligible(h0, f)
    requires Closed(Edges(h0), b) && u in b
    ensures f in SavedBy(h0, traced) && f in b
  {
    ReachIsClosed(Edges(h0), Held(h0, traced));
    assert f in Edges(h0)[u];
  }

  lemma FieldInReach(h0: Heap, r: set<Ptr>, u: Ptr, i: nat)
    requires Closed(Edges(h0), r) && Object(h0, u) && u in r && i < |h0[u].scan|
    ensures Eligible(h0, h0[u].scan[i]) ==> h0[u].scan[i] in r
  {
    if Eligible(h0, h0[u].scan[i]) { assert h0[u].scan[i] in Edges(h0)[u]; }
  }

  lemma ShapeKept(h0: Heap, traced: set<Ptr>, h: Heap, restoring: set<Ptr>, whitening: set<Ptr>, p: Ptr)
    requires ScanInv(h0, traced, h, restoring, whitening) && Object(h, p)
    ensures h[p].scan == h0[p].scan && h[p].deallocating == h0[p].deallocating
    ensures h[p].color == Green <==> h0[p].color == Green
    ensures forall i | 0 <= i < |h0[p].scan| :: h0[p].scan[i] < |h|
  {
    assert StateOk(h0, traced, h, p);
  }

  lemma RestoreDone(h0: Heap, traced: set<Ptr>, h: Heap, restoring: set<Ptr>, whitening: set<Ptr>, p: Ptr)
    requires ScanInv(h0, traced, h, restoring + {p}, whitening) && BlackBelow(h0, h, p)
    ensures ScanInv(h0, traced, h, restoring, whitening)
  {
    forall u | u in traced && u !in restoring && h[u].color == Black ensures BlackBelow(h0, h, u) {
      if u != p { assert u !in restoring + {p}; }
    }
  }

  lemma NoGrayLeft(h0: Heap, traced: set<Ptr>, h: Heap, kept: seq<Ptr>)
    requires ScanInv(h0, traced, h, {}, {})
    requires traced == Reach(Edges(h0), Kept(kept)) && Kept(kept) <= traced
    requires forall p | p in Kept(kept) :: h[p].color != Gray
    ensures forall p | p in traced :: h[p].color != Gray
  {
    var settled := set p | p in traced && h[p].color != Gray;
    forall u, v | u in settled && v in Edges(h0)[u] ensures v in settled {
      assert StateOk(h0, traced, h, u);
      if h[u].color == Black { assert BlackBelow(h0, h, u); } else { assert NoGrayBelow(h0, h, u); }
    }
    ReachIsLeast(Edges(h0), Kept(kept), settled);
  }

  lemma SavedIsBlack(h0: Heap, traced: set<Ptr>, h: Heap)
    requires ScanInv(h0, traced, h, {}, {})
    requires forall p | p in traced :: h[p].color != Gray
    ensures forall p | p in SavedBy(h0, traced) :: p in traced && h[p].color == Black
  {
    var black := set p | p in traced && h[p].color == Black;
    forall u, v | u in black && v in Edges(h0)[u] ensures v in black {
      assert BlackBelow(h0, h, u);
    }
    forall p | p in Held(h0, traced) ensures p in black {
      assert StateOk(h0, traced, h, p);
    }
    ReachIsLeast(Edges(h0), Held(h0, traced), black);
  }

  /** At the end nothing is gray, and black means saved. */
  lemma PhaseTwoDone(h0: Heap, traced: set<Ptr>, h: Heap, kept: seq<Ptr>)
    requires ScanInv(h0, traced, h, {}, {}) && CountsCoverRefs(h0)
    requires traced == Reach(Edges(h0), Kept(kept)) && Kept(kept) <= traced
    requires forall p | p in Kept(kept) :: h[p].color != Gray
    ensures Scanned(h0, traced, h)
  {
    NoGrayLeft(h0, traced, h, kept);
    SavedIsBlack(h0, traced, h);
    forall p: Ptr | Object(h0, p) ensures SameButBuffered(h[p], ScannedHeader(h0, traced, p)) {
      assert StateOk(h0, traced, h, p);
      if p in traced { TrialNotNegative(h0, traced, p); }
    }
  }

  lemma TrialNotNegative(h0: Heap, traced: set<Ptr>, p: Ptr)
    requires CountsCoverRefs(h0) && Eligible(h0, p)
    requires forall q | q in traced :: Eligible(h0, q)
    ensures Trial(h0, traced, p) >= 0
  {
    RefsMonotone(h0, FieldsOf(h0, traced), FieldsOf(h0, Objects(h0)), p, |h0|);
  }

  /** The suspects below `i` have been scanned: none is gray, and only saved ones have been struck out. */
  ghost predicate ScannedUpTo(h0: Heap, traced: set<Ptr>, s0: seq<Ptr>, h: Heap, s: seq<Ptr>, i: nat) {
    && i <= |s| == |s0| && (forall j | i <= j < |s0| :: s[j] == s0[j])
    && Kept(s0) <= traced && (forall p | p in s0 :: p < |h|)
    && (forall j | 0 <= j < i && s0[j] != NULL :: s0[j] in traced && s0[j] < |h| && h[s0[j]].color != Gray)
    && (forall j | 0 <= j < i :: s[j] == s0[j] || (s[j] == NULL && s0[j] in SavedBy(h0, traced)))
  }

  ghost predicate NoNewGray(h: Heap, h': Heap) {
    |h| == |h'| && forall p: Ptr | Object(h, p) && h'[p].color == Gray :: h[p].color == Gray
  }

  /** After the scan of suspect `i` none up to it is gray, and black is still what the bound allows. */
  lemma ScannedBelow(h0: Heap, traced: set<Ptr>, s0: seq<Ptr>, h: Heap, h': Heap, s: seq<Ptr>, i: nat, b: set<Ptr>)
    requires ScannedUpTo(h0, traced, s0, h, s, i) && i < |s0| && |h| == |h0| && Recolors(h, h', b)
    requires BlackWithin(h0, traced, h, b) && NULL !in traced
    requires s0[i] != NULL ==> s0[i] in traced && s0[i] < |h'| && h'[s0[i]].color != Gray
    ensures forall j | 0 <= j < i + 1 && s0[j] != NULL :: s0[j] in traced && s0[j] < |h'| && h'[s0[j]].color != Gray
    ensures BlackWithin(h0, traced, h', b)
  {
    forall j | 0 <= j < i && s0[j] != NULL ensures h'[s0[j]].color != Gray { assert Object(h, s0[j]); }
  }

  lemma ScannedOneMore(h0: Heap, traced: set<Ptr>, s0: seq<Ptr>, h: Heap, s: seq<Ptr>, h': Heap, s': seq<Ptr>, i: nat)
    requires ScannedUpTo(h0, traced, s0, h, s, i) && i < |s| && NoNewGray(h, h')
    requires s' == s || (s' == s[i := NULL] && s0[i] in SavedBy(h0, traced))
    requires s0[i] != NULL ==> s0[i] in traced && s0[i] < |h'| && h'[s0[i]].color != Gray
    ensures ScannedUpTo(h0, traced, s0, h', s', i + 1)
  {
    forall j | 0 <= j < i && s0[j] != NULL ensures h'[s0[j]].color != Gray { assert Object(h, s0[j]); }
  }

  /** The second loop after `i` turns; `h1` is the heap and `s0` the list that it starts from. */
  ghost predicate ScanState(h0: Heap, traced: set<Ptr>, s0: seq<Ptr>, h1: Heap, h: Heap, s: seq<Ptr>, i: nat) {
    && ScanInv(h0, traced, h, {}, {}) && NULL !in traced && ScannedUpTo(h0, traced, s0, h, s, i)
    && BlackWithin(h0, traced, h, Early(h0, traced, s0, i)) && FlagsDropped(h0, traced, s0, i, h1, h)
  }

  /** What the turn of suspect `i` does to the heap. */
  ghost predicate TurnOver(h0: Heap, traced: set<Ptr>, s0: seq<Ptr>, i: nat, h: Heap, h': Heap, black: bool) {
    && i < |s0| && s0[i] in traced && s0[i] < |h'| && h'[s0[i]].color != Gray
    && ScanInv(h0, traced, h', {}, {}) && NoNewGray(h, h') && BlackWithin(h0, traced, h', Early(h0, traced, s0, i + 1))
    && (black <==> BlackAtTurn(h0, traced, s0, i)) && if black then SameFlagsBut(h, h', s0[i]) else SameFlags(h, h')
  }

  lemma RootScanned(h0: Heap, traced: set<Ptr>, s0: seq<Ptr>, h1: Heap, h: Heap, s: seq<Ptr>, i: nat, h': Heap)
    requires ScanState(h0, traced, s0, h1, h, s, i) && i < |s0| && s0[i] != NULL && s0[i] in traced
    requires ScanInv(h0, traced, h', {}, {}) && Recolors(h, h', Early(h0, traced, s0, i + 1)) && h'[s0[i]].color != Gray
    ensures h'[s0[i]].color == Black <==> BlackAtTurn(h0, traced, s0, i)
    ensures BlackWithin(h0, traced, h', Early(h0, traced, s0, i + 1))
  {
    EarlyGrows(h0, traced, s0, i);
    ScannedBelow(h0, traced, s0, h, h', s, i, Early(h0, traced, s0, i + 1));
    EarlyIsBlack(h0, traced, h', s0, i + 1);
  }

  lemma FlagTakenOff(h0: Heap, traced: set<Ptr>, h: Heap, h': Heap, p: Ptr, b: set<Ptr>)
    requires Object(h', p) && Recolors(h, h', b) && BlackWithin(h0, traced, h', b)
    ensures var t := Unbuffered(h', p);
      NoNewGray(h, t) && BlackWithin(h0, traced, t, b) && SameFlagsBut(h, t, p) && t[p].color == h'[p].color
    ensures NoNewGray(h, h') && SameFlags(h, h')
  {
  }

  lemma RootTurn(h0: Heap, traced: set<Ptr>, s0: seq<Ptr>, h1: Heap, h: Heap, s: seq<Ptr>, i: nat, h': Heap)
    requires ScanState(h0, traced, s0, h1, h, s, i) && i < |s0| && s0[i] != NULL && s0[i] in traced
    requires ScanInv(h0, traced, h', {}, {}) && Recolors(h, h', Early(h0, traced, s0, i + 1)) && h'[s0[i]].color != Gray
    ensures var black := h'[s0[i]].color == Black;
      TurnOver(h0, traced, s0, i, h, if black then Unbuffered(h', s0[i]) else h', black)
  {
    var p, b := s0[i], Early(h0, traced, s0, i + 1);
    assert p < |h'| by { assert Eligible(h0, p); }
    RootScanned(h0, traced, s0, h1, h, s, i, h');
    FlagTakenOff(h0, traced, h, h', p, b);
    if h'[p].color == Black {
      SuspectScanned(h0, traced, h', p);
      assert TurnOver(h0, traced, s0, i, h, Unbuffered(h', p), true);
    } else {
      assert TurnOver(h0, traced, s0, i, h, h', false);
    }
  }

  lemma TurnStep(h0: Heap, traced: set<Ptr>, s0: seq<Ptr>, h1: Heap, h: Heap, s: seq<Ptr>, i: nat, h': Heap, black: bool)
    requires ScanState(h0, traced, s0, h1, h, s, i) && TurnOver(h0, traced, s0, i, h, h', black)
    ensures ScanState(h0, traced, s0, h1, h', if black then s[i := NULL] else s, i + 1)
  {
    TurnFlags(h0, traced, s0, h1, h, i, h', black);
    if black {
      EarlyIsSaved(h0, traced, s0, i + 1);
      ScannedOneMore(h0, traced, s0, h, s, h', s[i := NULL], i);
    } else {
      ScannedOneMore(h0, traced, s0, h, s, h', s, i);
    }
  }

  lemma TurnFlags(h0: Heap, traced: set<Ptr>, s0: seq<Ptr>, h1: Heap, h: Heap, i: nat, h': Heap, black: bool)
    requires FlagsDropped(h0, traced, s0, i, h1, h) && TurnOver(h0, traced, s0, i, h, h', black)
    ensures FlagsDropped(h0, traced, s0, i + 1, h1, h')
  {
    if black { assert Object(h0, s0[i]); }
    DroppedStep(h0, traced, s0, i, h1, h, h');
  }

  /** Nothing happens where a suspect has been struck off before. */
  lemma EmptyTurn(h0: Heap, traced: set<Ptr>, s0: seq<Ptr>, h1: Heap, h: Heap, s: seq<Ptr>, i: nat)
    requires ScanState(h0, traced, s0, h1, h, s, i) && i < |s0| && s0[i] == NULL
    ensures ScanState(h0, traced, s0, h1, h, s, i + 1)
  {
    EarlyGrows(h0, traced, s0, i);
    DroppedStep(h0, traced, s0, i, h1, h, h);
    ScannedOneMore(h0, traced, s0, h, s, h, s, i);
  }
}
