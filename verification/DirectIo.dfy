/** Gathered writing under short writes: whatever the kernel does, what has been emitted is a prefix of the
    concatenated vectors. */
module DirectIo {
  import opened Words

  type Bytes = seq<bv8>

  const WINDOW := 32

  /** The kernel's answer to one `writev`: it takes some bytes, no more than it is offered, is
      interrupted, or fails. */
  datatype Reply = Took(n: nat) | Interrupted | Failed

  /** `Waiting`: the replies given ran out and the call has not returned yet. */
  datatype Outcome = Complete | Error | Waiting

  function Flat(v: seq<Bytes>): Bytes {
    if v == [] then [] else Flat(v[..|v| - 1]) + v[|v| - 1]
  }

  lemma {:induction false} FlatAppend(a: seq<Bytes>, b: seq<Bytes>)
    ensures Flat(a + b) == Flat(a) + Flat(b)
  {
    if b == [] {
      assert a + b == a;
    } else {
      var init := b[..|b| - 1];
      assert (a + b)[..|a + b| - 1] == a + init;
      FlatAppend(a, init);
    }
  }

  lemma FlatOne(x: Bytes)
    ensures Flat([x]) == x
  {
    assert [x][..0] == [];
  }

  /** The bytes up to offset `skip` of vector `cur`. */
  function Before(iov: seq<Bytes>, cur: nat, skip: nat): nat
    requires cur <= |iov|
  {
    |Flat(iov[..cur])| + skip
  }

  ghost predicate Position(iov: seq<Bytes>, cur: nat, skip: nat) {
    cur <= |iov| && (skip > 0 ==> cur < |iov| && skip < |iov[cur]|)
  }

  /** The vectors offered to the kernel: up to 32 from `cur` on, the first without what is already out. */
  function Offered(iov: seq<Bytes>, cur: nat, skip: nat): seq<Bytes>
    requires cur < |iov| && skip <= |iov[cur]|
  {
    [iov[cur][skip..]] + iov[cur + 1..Min(cur + WINDOW, |iov|)]
  }

  lemma FlatNext(iov: seq<Bytes>, cur: nat)
    requires cur < |iov|
    ensures Flat(iov[..cur + 1]) == Flat(iov[..cur]) + iov[cur]
  {
    assert iov[..cur + 1][..cur] == iov[..cur];
  }

  lemma Cut(iov: seq<Bytes>, cur: nat)
    requires cur <= |iov|
    ensures Flat(iov) == Flat(iov[..cur]) + Flat(iov[cur..])
  {
    assert iov == iov[..cur] + iov[cur..];
    FlatAppend(iov[..cur], iov[cur..]);
  }

  /** A stretch of a concatenation, by its surroundings. */
  lemma Stretch(all: Bytes, left: Bytes, skipped: Bytes, o: Bytes, right: Bytes)
    requires all == left + ((skipped + o) + right)
    ensures |left| + |skipped| + |o| <= |all|
    ensures o == all[|left| + |skipped|..|left| + |skipped| + |o|]
  {
  }

  lemma OfferedFlat(iov: seq<Bytes>, cur: nat, skip: nat)
    requires cur < |iov| && skip <= |iov[cur]|
    ensures Flat(iov[cur..Min(cur + WINDOW, |iov|)]) == iov[cur][..skip] + Flat(Offered(iov, cur, skip))
  {
    var hi := Min(cur + WINDOW, |iov|);
    var x, middle := iov[cur], iov[cur + 1..hi];
    FlatAppend([x[skip..]], middle);
    FlatOne(x[skip..]);
    FlatAppend([x], middle);
    FlatOne(x);
    assert iov[cur..hi] == [x] + middle;
    assert x == x[..skip] + x[skip..];
  }

  /** What is offered is the stretch of the whole right after what is out. */
  lemma OfferedIsNext(iov: seq<Bytes>, cur: nat, skip: nat)
    requires Position(iov, cur, skip) && cur < |iov|
    ensures var p, o := Before(iov, cur, skip), Flat(Offered(iov, cur, skip));
      p + |o| <= |Flat(iov)| && o == Flat(iov)[p..p + |o|]
  {
    var hi: nat := Min(cur + WINDOW, |iov|);
    Cut(iov, cur);
    Cut(iov[cur..], hi - cur);
    assert iov[cur..][..hi - cur] == iov[cur..hi];
    OfferedFlat(iov, cur, skip);
    Stretch(Flat(iov), Flat(iov[..cur]), iov[cur][..skip], Flat(Offered(iov, cur, skip)), Flat(iov[cur..][hi - cur..]));
  }

  lemma EmptyOffer(iov: seq<Bytes>, cur: nat, skip: nat)
    requires Position(iov, cur, skip) && cur < |iov|
    ensures Flat(Offered(iov, cur, skip)) == [] <==> EmptyWindow(iov, cur)
  {
    var hi := Min(cur + WINDOW, |iov|);
    FlatAppend([iov[cur][skip..]], iov[cur + 1..hi]);
    FlatOne(iov[cur][skip..]);
    var rest := iov[cur + 1..hi];
    EmptyFlat(rest);
    forall i | cur < i < hi && rest[i - cur - 1] == [] ensures iov[i] == [] {}
    forall i | 0 <= i < |rest| && iov[i + cur + 1] == [] ensures rest[i] == [] {}
  }

  lemma {:induction false} EmptyFlat(v: seq<Bytes>)
    ensures Flat(v) == [] <==> forall i | 0 <= i < |v| :: v[i] == []
  {
    if v != [] {
      EmptyFlat(v[..|v| - 1]);
      assert forall i | 0 <= i < |v| - 1 :: v[..|v| - 1][i] == v[i];
    }
  }

  /** Nothing to write in the whole window at `cur`. */
  ghost predicate EmptyWindow(iov: seq<Bytes>, cur: nat) {
    cur < |iov| && forall i | cur <= i < Min(cur + WINDOW, |iov|) :: iov[i] == []
  }

  method FillWindow(iov: seq<Bytes>, cur: nat, skip: nat) returns (tmp: seq<Bytes>)
    requires Position(iov, cur, skip) && cur < |iov|
    ensures tmp == Offered(iov, cur, skip)
  {
    tmp := [];
    var i := cur;
    while i < |iov| && |tmp| < WINDOW
      invariant cur <= i <= |iov| && |tmp| == i - cur <= WINDOW && tmp == iov[cur..i]
    {
      tmp := tmp + [iov[i]];
      i := i + 1;
    }
    assert i == Min(cur + WINDOW, |iov|);
    assert tmp == [iov[cur]] + iov[cur + 1..i] && iov[cur][0..] == iov[cur];
    if skip > 0 && |tmp| > 0 { tmp := tmp[0 := tmp[0][skip..]]; }
    assert tmp == [iov[cur][skip..]] + iov[cur + 1..i];
  }

  /** Where the loop gets stuck: a vector that begins a window of nothing, right after a byte. */
  ghost predicate StallsAt(iov: seq<Bytes>, c: nat) {
    c < |iov| && EmptyWindow(iov, c) && (c == 0 || iov[c - 1] != [])
  }

  ghost predicate Stalls(iov: seq<Bytes>) {
    exists c: nat :: StallsAt(iov, c)
  }

  /** The empty vectors from `c` on follow on a byte from some `b` on. */
  lemma StartOfRun(iov: seq<Bytes>, c: nat) returns (b: nat)
    requires c < |iov|
    ensures b <= c && (b == 0 || iov[b - 1] != []) && forall i | b <= i < c :: iov[i] == []
  {
    b := c;
    while b > 0 && iov[b - 1] == []
      invariant b <= c && forall i | b <= i < c :: iov[i] == []
    {
      b := b - 1;
    }
  }

  /** An argument stalls exactly if its last vector is empty or 32 empty vectors stand in a row. */
  lemma StallsIff(iov: seq<Bytes>)
    ensures Stalls(iov) <==>
              (iov != [] && iov[|iov| - 1] == [])
              || exists c: nat :: c + 32 <= |iov| && EmptyWindow(iov, c)
  {
    if iov != [] && iov[|iov| - 1] == [] {
      var b := StartOfRun(iov, |iov| - 1);
      assert StallsAt(iov, b);
    }
    if c: nat :| c + 32 <= |iov| && EmptyWindow(iov, c) {
      var b := StartOfRun(iov, c);
      assert StallsAt(iov, b);
    }
    if c: nat :| StallsAt(iov, c) {
      if |iov| < c + WINDOW { assert iov[|iov| - 1] == []; }
    }
  }

  lemma {:induction false} FlatMonotone(iov: seq<Bytes>, a: nat, b: nat)
    requires a <= b <= |iov|
    ensures |Flat(iov[..a])| <= |Flat(iov[..b])|
    ensures (forall i | a <= i < b :: iov[i] == []) ==> |Flat(iov[..a])| == |Flat(iov[..b])|
    decreases b
  {
    if a < b {
      FlatMonotone(iov, a, b - 1);
      FlatNext(iov, b - 1);
    }
  }

  /** What is offered before a stall does not go beyond it. */
  lemma OfferStopsAtStall(iov: seq<Bytes>, cur: nat, skip: nat, c: nat)
    requires Position(iov, cur, skip) && StallsAt(iov, c) && cur <= c
    ensures Before(iov, cur, skip) + |Flat(Offered(iov, cur, skip))| <= |Flat(iov[..c])|
  {
    var hi: nat := Min(cur + WINDOW, |iov|);
    var to: nat := if hi <= c then c else hi;
    Cut(iov[..hi], cur);
    assert iov[..hi][..cur] == iov[..cur] && iov[..hi][cur..] == iov[cur..hi];
    OfferedFlat(iov, cur, skip);
    FlatMonotone(iov, hi, to);
    FlatMonotone(iov, c, to);
  }

  /** So the position does not go beyond it either. */
  lemma NotPastStall(iov: seq<Bytes>, cur: nat, skip: nat, c: nat)
    requires Position(iov, cur, skip) && StallsAt(iov, c)
    requires skip == 0 && cur > 0 ==> iov[cur - 1] != []
    requires Before(iov, cur, skip) <= |Flat(iov[..c])|
    ensures cur <= c
  {
    if c < cur {
      FlatMonotone(iov, c, cur);
      if skip == 0 {
        FlatMonotone(iov, c, cur - 1);
        FlatNext(iov, cur - 1);
      }
    }
  }

  /** Moves the position past `count` bytes. */
  method Advance(iov: seq<Bytes>, cur: nat, skip: nat, count: nat) returns (cur': nat, skip': nat)
    requires Position(iov, cur, skip) && Before(iov, cur, skip) + count <= |Flat(iov)|
    ensures Position(iov, cur', skip') && Before(iov, cur', skip') == Before(iov, cur, skip) + count
    ensures cur <= cur' && (skip' == 0 && count > 0 ==> cur < cur' && iov[cur' - 1] != [])
  {
    cur', skip' := cur, skip;
    var consumed: nat := count;
    while cur' < |iov| && consumed > 0
      invariant Position(iov, cur', skip') && cur <= cur'
      invariant skip' == 0 && consumed == 0 && count > 0 ==> cur < cur' && iov[cur' - 1] != []
      invariant Before(iov, cur', skip') + consumed == Before(iov, cur, skip) + count
      decreases |iov| - cur', consumed
    {
      FlatNext(iov, cur');
      var rem := |iov[cur']| - skip';
      if consumed < rem {
        skip' := skip' + consumed;
        consumed := 0;
      } else {
        assert consumed == rem ==> |iov[cur']| > 0;
        consumed := consumed - rem;
        cur', skip' := cur' + 1, 0;
      }
    }
    if cur' == |iov| { assert iov[..cur'] == iov; }
  }

  /** A reply with which the loop goes on, if there is anything to write. */
  predicate Good(reply: Reply) {
    reply.Interrupted? || (reply.Took? && reply.n > 0)
  }

  function Writes(replies: seq<Reply>): nat {
    if replies == [] then 0
    else Writes(replies[..|replies| - 1]) + (if replies[|replies| - 1].Took? then 1 else 0)
  }

  /** Where every reply is to a write that took something, all of them count. */
  lemma {:induction false} WritesOfTaken(replies: seq<Reply>)
    ensures (forall i | 0 <= i < |replies| :: replies[i].Took?) ==> Writes(replies) == |replies|
    ensures (forall i | 0 <= i < |replies| :: !replies[i].Took?) ==> Writes(replies) == 0
  {
    if replies != [] {
      var last := replies[|replies| - 1];
      assert last in replies;
      WritesOfTaken(replies[..|replies| - 1]);
    }
  }

  /** The state between two system calls: everything before the position is out, and no stall is passed. */
  ghost predicate Reached(iov: seq<Bytes>, cur: nat, skip: nat, out: Bytes) {
    && Position(iov, cur, skip)
    && (skip == 0 && cur > 0 ==> iov[cur - 1] != [])
    && |out| == Before(iov, cur, skip) && out <= Flat(iov)
    && forall c: nat | StallsAt(iov, c) :: cur <= c && |out| <= |Flat(iov[..c])|
  }

  lemma TakenIsReached(iov: seq<Bytes>, cur: nat, skip: nat, out: Bytes, w: nat, cur': nat, skip': nat)
    requires Reached(iov, cur, skip, out) && cur < |iov| && w <= |Flat(Offered(iov, cur, skip))|
    requires Position(iov, cur', skip') && Before(iov, cur', skip') == Before(iov, cur, skip) + w
    requires skip' == 0 && cur' > 0 ==> iov[cur' - 1] != []
    ensures Reached(iov, cur', skip', out + Flat(Offered(iov, cur, skip))[..w])
  {
    var p, offer := Before(iov, cur, skip), Flat(Offered(iov, cur, skip));
    OfferedIsNext(iov, cur, skip);
    assert Flat(iov)[..p + w] == Flat(iov)[..p] + Flat(iov)[p..p + |offer|][..w];
    forall c: nat | StallsAt(iov, c) ensures cur' <= c && p + w <= |Flat(iov[..c])| {
      OfferStopsAtStall(iov, cur, skip, c);
      NotPastStall(iov, cur', skip', c);
    }
  }

  /** A position with nothing to offer is a stall. */
  lemma StuckHere(iov: seq<Bytes>, cur: nat, skip: nat, out: Bytes)
    requires Reached(iov, cur, skip, out) && EmptyWindow(iov, cur)
    ensures StallsAt(iov, cur) && out == Flat(iov[..cur])
  {
    assert iov[cur] == [];
    Cut(iov, cur);
  }

  /** `cpx_io_writev_all_fd`. `out` is everything the kernel took, `used` the number of its replies. */
  method WriteAll(iov: seq<Bytes>, replies: seq<Reply>) returns (r: Outcome, out: Bytes, ghost used: nat)
    ensures out <= Flat(iov) && forall c: nat | StallsAt(iov, c) :: |out| <= |Flat(iov[..c])|
    ensures used <= |replies| && forall i | 0 <= i < used - 1 :: Good(replies[i])
    ensures r.Complete? ==> out == Flat(iov) && !Stalls(iov)
    ensures r.Error? ==>
              used > 0
              && (!Good(replies[used - 1]) || exists c: nat :: StallsAt(iov, c) && out == Flat(iov[..c]))
    ensures r.Waiting? ==> used == |replies| && Writes(replies) <= |out|
    ensures (forall i | 0 <= i < |replies| :: Good(replies[i])) && Writes(replies) > |Flat(iov)| ==>
              r == if Stalls(iov) then Error else Complete
  {
    out, used := [], 0;
    var cur: nat, skip: nat, k: nat := 0, 0, 0;
    assert iov[..0] == [];
    while cur < |iov|
      invariant k <= |replies| && used == k && forall i | 0 <= i < k :: Good(replies[i])
      invariant Writes(replies[..k]) <= |out|
      invariant Reached(iov, cur, skip, out)
      decreases |replies| - k
    {
      if k == |replies| {
        assert replies[..k] == replies;
        return Waiting, out, used;
      }
      var tmp := FillWindow(iov, cur, skip);
      var reply := replies[k];
      assert replies[..k + 1][..k] == replies[..k];
      k, used := k + 1, k + 1;
      if reply.Interrupted? { continue; }
      if reply.Failed? { return Error, out, used; }
      var offer := Flat(tmp);
      var w: nat := Min(reply.n, |offer|);
      if w == 0 {
        EmptyOffer(iov, cur, skip);
        if offer == [] { StuckHere(iov, cur, skip, out); }
        return Error, out, used;
      }
      OfferedIsNext(iov, cur, skip);
      ghost var before := out;
      out := out + offer[..w];
      var cur': nat, skip': nat := Advance(iov, cur, skip, w);
      TakenIsReached(iov, cur, skip, before, w, cur', skip');
      cur, skip := cur', skip';
    }
    assert iov[..cur] == iov;
    r := Complete;
  }

  /** A last vector that is empty: everything is out and yet no success. */
  lemma EmptyLast(x: Bytes)
    requires x != []
    ensures StallsAt([x, []], 1) && Flat([x, []][..1]) == Flat([x, []])
  {
    FlatOne(x);
    assert [x, []][..1] == [x];
    assert Flat([x, []]) == Flat([x]) + [];
  }

  /** A window of empty vectors before the last: the last is never written. */
  lemma EmptyMiddle(x: Bytes, y: Bytes)
    requires x != [] && y != []
    ensures var iov: seq<Bytes> := [x] + seq(32, i => []) + [y];
      StallsAt(iov, 1) && Flat(iov[..1]) == x && x < Flat(iov)
  {
    var gap: seq<Bytes> := seq(32, i => []);
    var iov: seq<Bytes> := [x] + gap + [y];
    assert iov[..1] == [x];
    FlatOne(x);
    FlatOne(y);
    FlatAppend([x], gap);
    FlatAppend([x] + gap, [y]);
    EmptyFlat(gap);
  }

  /** Without empty vectors nothing stalls. */
  lemma NonEmptyVectors(iov: seq<Bytes>)
    requires forall i | 0 <= i < |iov| :: iov[i] != []
    ensures !Stalls(iov)
  {
    forall c: nat ensures !StallsAt(iov, c) {
      assert c < |iov| ==> iov[c] != [] && c < Min(c + WINDOW, |iov|);
    }
  }
}
