/** One producer, one consumer, a ring of slots and two wrapping indices, as shared-memory steps. */
module SpscRing {
  import opened Words
  import opened Wrapping

  /** `produced` and `consumed` are history: all published elements, and how many have been given back. The
      stored indices are their lengths modulo `modulus` (2^64 for the byte ring, 2^32 for telemetry). */
  datatype Ring<T> = Ring(modulus: int, buf: seq<T>, writeIdx: int, readIdx: int, produced: seq<T>, consumed: nat)

  /** `seen` is history: the unwrapped value of the index that was loaded. */
  datatype Producer<T> =
    | Away
    | HasRead(data: seq<T>, r: int, seen: nat)
    | Filling(data: seq<T>, w: int, n: nat, done: nat, seen: nat)

  datatype Consumer<T> =
    | Gone
    | HasWrite(len: nat, w: int, seen: nat)
    | Copying(r: int, n: nat, out: seq<T>)

  datatype State<T> = State(ring: Ring<T>, producer: Producer<T>, consumer: Consumer<T>)

  datatype Action<T> = StartWrite(data: seq<T>) | ProducerMoves | StartRead(len: nat) | ConsumerMoves

  datatype Label<T> = Silent | Wrote(data: seq<T>) | Got(data: seq<T>)

  /** Subtraction of unsigned words. */
  function Sub(x: int, y: int, modulus: int): int
    requires modulus > 0
  {
    (x - y) % modulus
  }

  /** Where the two-part copy of `n` elements from slot `start` on puts element `i`. */
  function CopySlot(capacity: int, start: int, n: int, i: int): int {
    var first := Min(n, capacity - start);
    if i < first then start + i else i - first
  }

  predicate RingShape<T>(r: Ring<T>) {
    0 < |r.buf| < r.modulus && r.modulus % |r.buf| == 0
  }

  predicate Enabled<T>(s: State<T>, a: Action<T>) {
    && RingShape(s.ring)
    && match a
       case StartWrite(data) => s.producer.Away? && data != []
       case ProducerMoves => !s.producer.Away? && MayFill(s)
       case StartRead(len) => s.consumer.Gone? && len > 0
       case ConsumerMoves => !s.consumer.Gone?
  }

  /** The copy stays inside the data and the buffer; the invariant implies it. */
  predicate MayFill<T>(s: State<T>) {
    s.producer.Filling? ==> s.producer.n <= |s.producer.data|
  }

  function Store<T>(r: Ring<T>, slot: int, x: T): Ring<T> {
    if 0 <= slot < |r.buf| then r.(buf := r.buf[slot := x]) else r
  }

  /** `cx_ringbuf_write`. */
  function ProducerStep<T>(s: State<T>): (State<T>, Label<T>)
    requires RingShape(s.ring) && !s.producer.Away? && MayFill(s)
  {
    var c := |s.ring.buf|;
    match s.producer
    case HasRead(data, r, seen) =>
      var n := Min(|data|, c - Sub(s.ring.writeIdx, r, s.ring.modulus));
      (s.(producer := Filling(data, s.ring.writeIdx, if n < 0 then 0 else n, 0, seen)), Silent)
    case Filling(data, w, n, done, seen) =>
      if done < n then
        (s.(ring := Store(s.ring, CopySlot(c, w % c, n, done), data[done]), producer := Filling(data, w, n, done + 1, seen)), Silent)
      else
        (s.(ring := s.ring.(writeIdx := (w + n) % s.ring.modulus, produced := s.ring.produced + data[..n]), producer := Away),
         Wrote(data[..n]))
  }

  /** `cx_ringbuf_read`. */
  function ConsumerStep<T>(s: State<T>): (State<T>, Label<T>)
    requires RingShape(s.ring) && !s.consumer.Gone?
  {
    var c := |s.ring.buf|;
    match s.consumer
    case HasWrite(len, w, seen) =>
      var used := Sub(w, s.ring.readIdx, s.ring.modulus);
      if used == 0 then (s.(consumer := Gone), Got([]))
      else (s.(consumer := Copying(s.ring.readIdx, Min(len, used), [])), Silent)
    case Copying(r, n, out) =>
      var slot := CopySlot(c, r % c, n, |out|);
      if |out| < n && 0 <= slot < c then (s.(consumer := Copying(r, n, out + [s.ring.buf[slot]])), Silent)
      else (s.(ring := s.ring.(readIdx := (r + n) % s.ring.modulus, consumed := s.ring.consumed + n), consumer := Gone), Got(out))
  }

  function Apply<T>(s: State<T>, a: Action<T>): (State<T>, Label<T>)
    requires Enabled(s, a)
  {
    match a
    case StartWrite(data) => (s.(producer := HasRead(data, s.ring.readIdx, s.ring.consumed)), Silent)
    case ProducerMoves => ProducerStep(s)
    case StartRead(len) => (s.(consumer := HasWrite(len, s.ring.writeIdx, |s.ring.produced|)), Silent)
    case ConsumerMoves => ConsumerStep(s)
  }

  /** `cx_ringbuf_create`. */
  predicate Initial<T>(s: State<T>) {
    && RingShape(s.ring) && s.ring.writeIdx == s.ring.readIdx == 0 && s.ring.produced == [] && s.ring.consumed == 0
    && s.producer.Away? && s.consumer.Gone?
  }

  // --- Wrapping indices behave as unbounded counters ---

  lemma RemainderDifference(w: int, r: int, modulus: int)
    requires modulus > 0
    ensures w % modulus - r % modulus == w - r + modulus * (r / modulus - w / modulus)
  {
    assert w == modulus * (w / modulus) + w % modulus;
    assert r == modulus * (r / modulus) + r % modulus;
    assert modulus * (r / modulus - w / modulus) == modulus * (r / modulus) - modulus * (w / modulus);
  }

  /** The difference of two wrapped counters is the difference of the counters. */
  lemma WrappedDifference(w: int, r: int, modulus: int)
    requires modulus > 0 && 0 <= w - r < modulus
    ensures Sub(w % modulus, r % modulus, modulus) == w - r
  {
    var laps := r / modulus - w / modulus;
    RemainderDifference(w, r, modulus);
    AddLaps(w - r, laps, modulus);
    SmallRemainder(w - r, modulus);
  }

  /** A wrapped counter names the same slot as the counter, as the capacity divides the modulus. */
  lemma WrappedSlot(p: int, modulus: int, c: int)
    requires 0 < c <= modulus && modulus % c == 0
    ensures (p % modulus) % c == p % c
  {
    var laps := modulus / c;
    assert modulus == c * laps;
    var q := p / modulus;
    assert p == p % modulus + c * (laps * q) by {
      assert p == modulus * q + p % modulus;
      assert (c * laps) * q == c * (laps * q);
    }
    AddLaps(p % modulus, laps * q, c);
  }

  lemma WrappedSum(p: int, n: int, modulus: int)
    requires modulus > 0
    ensures (p % modulus + n) % modulus == (p + n) % modulus
  {
    ReduceFirst(p, n, modulus);
  }

  lemma SmallRemainder(x: int, c: int)
    requires 0 <= x < c
    ensures x % c == x
  {
  }

  /** The two-part copy puts element `i` where one element after the other around the ring would. */
  lemma CopySlotWraps(c: int, p: int, n: int, i: int)
    requires 0 < c && 0 <= i < n <= c
    ensures CopySlot(c, p % c, n, i) == (p + i) % c && 0 <= (p + i) % c < c
  {
    ReduceFirst(p, i, c);
    var start := p % c;
    if start + i < c {
      SmallRemainder(start + i, c);
    } else {
      SmallRemainder(start + i - c, c);
      NextLap(start + i - c, c);
    }
  }

  // --- Invariant ---

  ghost predicate Unread<T>(r: Ring<T>, p: int) {
    |r.buf| > 0 && 0 <= p < |r.produced| && r.buf[p % |r.buf|] == r.produced[p]
  }

  ghost predicate RingOk<T>(r: Ring<T>) {
    && RingShape(r) && r.consumed <= |r.produced| <= r.consumed + |r.buf|
    && r.writeIdx == |r.produced| % r.modulus && r.readIdx == r.consumed % r.modulus
    && forall p: int | r.consumed <= p < |r.produced| :: Unread(r, p)
  }

  ghost predicate Filled<T>(r: Ring<T>, data: seq<T>, j: int) {
    |r.buf| > 0 && 0 <= j < |data| && r.buf[(|r.produced| + j) % |r.buf|] == data[j]
  }

  predicate Wraps(index: int, counter: nat, modulus: int) {
    modulus > 0 && index == counter % modulus
  }

  ghost predicate ProducerOk<T>(r: Ring<T>, p: Producer<T>) {
    match p
    case Away => true
    case HasRead(data, ri, seen) => Wraps(ri, seen, r.modulus) && seen <= r.consumed && |r.produced| <= seen + |r.buf|
    case Filling(data, w, n, done, seen) =>
      && Wraps(w, |r.produced|, r.modulus) && done <= n <= |data| && |r.produced| + n <= seen + |r.buf| && seen <= r.consumed
      && forall j: int | 0 <= j < done :: Filled(r, data, j)
  }

  ghost predicate ConsumerOk<T>(r: Ring<T>, c: Consumer<T>) {
    match c
    case Gone => true
    case HasWrite(len, w, seen) => Wraps(w, seen, r.modulus) && r.consumed <= seen <= |r.produced|
    case Copying(ri, n, out) =>
      && Wraps(ri, r.consumed, r.modulus) && |out| <= n && r.consumed + n <= |r.produced|
      && out == r.produced[r.consumed..r.consumed + |out|]
  }

  ghost predicate Inv<T>(s: State<T>) {
    RingOk(s.ring) && ProducerOk(s.ring, s.producer) && ConsumerOk(s.ring, s.consumer)
  }

  lemma BeginFill<T>(s: State<T>)
    requires Inv(s) && s.producer.HasRead?
    ensures Inv(ProducerStep(s).0)
    ensures Sub(s.ring.writeIdx, s.producer.r, s.ring.modulus) <= |s.ring.buf|    // the assertion in the code
  {
    WrappedDifference(|s.ring.produced|, s.producer.seen, s.ring.modulus);
  }

  /** Filling the next free slot leaves every unread element, and what is already filled, in place. */
  lemma StoreOk<T>(r: Ring<T>, data: seq<T>, i: int, seen: nat)
    requires RingOk(r) && 0 <= i < |data| && |r.produced| + i < seen + |r.buf| && seen <= r.consumed
    requires forall j: int | 0 <= j < i :: Filled(r, data, j)
    ensures var r' := r.(buf := r.buf[(|r.produced| + i) % |r.buf| := data[i]]);
      RingOk(r') && forall j: int | 0 <= j < i + 1 :: Filled(r', data, j)
  {
    var c, w := |r.buf|, |r.produced|;
    var r' := r.(buf := r.buf[(w + i) % c := data[i]]);
    forall p: int | r'.consumed <= p < |r'.produced| ensures Unread(r', p) {
      assert Unread(r, p);
      SlotsDiffer(p, w + i, c);
    }
    forall j: int | 0 <= j < i + 1 ensures Filled(r', data, j) {
      if j < i {
        assert Filled(r, data, j);
        SlotsDiffer(w + j, w + i, c);
      }
    }
  }

  lemma FillNext<T>(s: State<T>)
    requires Inv(s) && s.producer.Filling? && s.producer.done < s.producer.n
    ensures Inv(ProducerStep(s).0)
  {
    var r, p := s.ring, s.producer;
    WrappedSlot(|r.produced|, r.modulus, |r.buf|);
    CopySlotWraps(|r.buf|, |r.produced|, p.n, p.done);
    StoreOk(r, p.data, p.done, p.seen);
  }

  lemma PublishedAt<T>(r: Ring<T>, r': Ring<T>, data: seq<T>, n: nat, p: int)
    requires RingOk(r) && n <= |data| && r'.buf == r.buf && r'.produced == r.produced + data[..n]
    requires r.consumed <= p < |r.produced| + n
    requires forall j: int | 0 <= j < n :: Filled(r, data, j)
    ensures Unread(r', p)
  {
    if p < |r.produced| {
      assert Unread(r, p);
    } else {
      assert Filled(r, data, p - |r.produced|);
      assert |r.produced| + (p - |r.produced|) == p;
    }
  }

  lemma Publish<T>(s: State<T>)
    requires Inv(s) && s.producer.Filling? && s.producer.done == s.producer.n
    ensures Inv(ProducerStep(s).0)
  {
    var r, p := s.ring, s.producer;
    WrappedSum(|r.produced|, p.n, r.modulus);
    PublishedUnread(s);
    if s.consumer.Copying? { SliceOfLonger(r.produced, p.data[..p.n], r.consumed, r.consumed + |s.consumer.out|); }
  }

  lemma PublishedUnread<T>(s: State<T>)
    requires Inv(s) && s.producer.Filling? && s.producer.done == s.producer.n
    ensures var r := ProducerStep(s).0.ring; forall q: int | r.consumed <= q < |r.produced| :: Unread(r, q)
  {
    var r := ProducerStep(s).0.ring;
    forall q: int | r.consumed <= q < |r.produced| ensures Unread(r, q) {
      PublishedAt(s.ring, r, s.producer.data, s.producer.n, q);
    }
  }

  lemma SliceOfLonger<T>(s: seq<T>, more: seq<T>, a: int, b: int)
    requires 0 <= a <= b <= |s|
    ensures (s + more)[a..b] == s[a..b]
  {
  }

  lemma BeginCopy<T>(s: State<T>)
    requires Inv(s) && s.consumer.HasWrite?
    ensures Inv(ConsumerStep(s).0)
    ensures ConsumerStep(s).1 == Got([]) || ConsumerStep(s).1 == Silent
  {
    WrappedDifference(s.consumer.seen, s.ring.consumed, s.ring.modulus);
  }

  lemma CopyNext<T>(s: State<T>)
    requires Inv(s) && s.consumer.Copying? && |s.consumer.out| < s.consumer.n
    ensures Inv(ConsumerStep(s).0) && ConsumerStep(s).1 == Silent
  {
    var r, c := s.ring, s.consumer;
    var p := r.consumed + |c.out|;
    WrappedSlot(r.consumed, r.modulus, |r.buf|);
    CopySlotWraps(|r.buf|, r.consumed, c.n, |c.out|);
    assert Unread(r, p);
    assert r.produced[r.consumed..p + 1] == r.produced[r.consumed..p] + [r.produced[p]];
  }

  lemma GiveBack<T>(s: State<T>)
    requires Inv(s) && s.consumer.Copying? && |s.consumer.out| == s.consumer.n
    ensures Inv(ConsumerStep(s).0)
    ensures ConsumerStep(s).1 == Got(s.ring.produced[s.ring.consumed..s.ring.consumed + s.consumer.n])
  {
    var r, c, s' := s.ring, s.consumer, ConsumerStep(s).0;
    WrappedSum(r.consumed, c.n, r.modulus);
    forall p: int | s'.ring.consumed <= p < |s'.ring.produced| ensures Unread(s'.ring, p) { assert Unread(r, p); }
    if s.producer.Filling? {
      forall j: int | 0 <= j < s.producer.done ensures Filled(s'.ring, s.producer.data, j) { assert Filled(r, s.producer.data, j); }
    }
  }

  lemma ActionInv<T>(s: State<T>, a: Action<T>)
    requires Inv(s) && Enabled(s, a)
    ensures Inv(Apply(s, a).0)
  {
    match a
    case StartWrite(data) =>
    case ProducerMoves =>
      if s.producer.HasRead? { BeginFill(s); }
      else if s.producer.done < s.producer.n { FillNext(s); }
      else { Publish(s); }
    case StartRead(len) =>
    case ConsumerMoves =>
      if s.consumer.HasWrite? { BeginCopy(s); }
      else if |s.consumer.out| < s.consumer.n { CopyNext(s); }
      else { GiveBack(s); }
  }

  // --- Whole runs ---

  ghost predicate StepAt<T>(states: seq<State<T>>, acts: seq<Action<T>>, i: int) {
    && 0 <= i < |acts| && i + 1 < |states|
    && Enabled(states[i], acts[i]) && states[i + 1] == Apply(states[i], acts[i]).0
  }

  ghost predicate Run<T>(states: seq<State<T>>, acts: seq<Action<T>>) {
    && |states| == |acts| + 1 && Initial(states[0])
    && forall i {:trigger StepAt(states, acts, i)} | 0 <= i < |acts| :: StepAt(states, acts, i)
  }

  ghost function LabelAt<T>(states: seq<State<T>>, acts: seq<Action<T>>, i: nat): Label<T>
    requires Run(states, acts) && i < |acts|
  {
    assert StepAt(states, acts, i);
    Apply(states[i], acts[i]).1
  }

  lemma {:induction false} RunInv<T>(states: seq<State<T>>, acts: seq<Action<T>>, n: nat)
    requires Run(states, acts) && n <= |acts|
    ensures Inv(states[n])
  {
    if n > 0 {
      RunInv(states, acts, n - 1);
      assert StepAt(states, acts, n - 1);
      ActionInv(states[n - 1], acts[n - 1]);
    }
  }

  function DataIn<T>(l: Label<T>): seq<T> {
    if l.Wrote? then l.data else []
  }

  function DataOut<T>(l: Label<T>): seq<T> {
    if l.Got? then l.data else []
  }

  /** What the completed writes of the first `n` steps accepted, in order. */
  ghost function WrittenIn<T>(states: seq<State<T>>, acts: seq<Action<T>>, n: nat): seq<T>
    requires Run(states, acts) && n <= |acts|
  {
    if n == 0 then [] else WrittenIn(states, acts, n - 1) + DataIn(LabelAt(states, acts, n - 1))
  }

  ghost function ReadIn<T>(states: seq<State<T>>, acts: seq<Action<T>>, n: nat): seq<T>
    requires Run(states, acts) && n <= |acts|
  {
    if n == 0 then [] else ReadIn(states, acts, n - 1) + DataOut(LabelAt(states, acts, n - 1))
  }

  ghost predicate RecordedBy<T>(s: State<T>, u: State<T>, l: Label<T>) {
    && u.ring.produced == s.ring.produced + DataIn(l)
    && s.ring.consumed <= |s.ring.produced| && u.ring.consumed <= |u.ring.produced|
    && u.ring.produced[..u.ring.consumed] == s.ring.produced[..s.ring.consumed] + DataOut(l)
  }

  lemma ConsumerRecorded<T>(s: State<T>)
    requires Inv(s) && Enabled(s, ConsumerMoves)
    ensures RecordedBy(s, Apply(s, ConsumerMoves).0, Apply(s, ConsumerMoves).1)
  {
    var r := s.ring;
    if s.consumer.HasWrite? { BeginCopy(s); }
    else if |s.consumer.out| < s.consumer.n { CopyNext(s); }
    else {
      GiveBack(s);
      var upto := r.consumed + s.consumer.n;
      assert r.produced[..upto] == r.produced[..r.consumed] + r.produced[r.consumed..upto];
    }
  }

  lemma OthersRecorded<T>(s: State<T>, a: Action<T>)
    requires Inv(s) && Enabled(s, a) && !a.ConsumerMoves?
    ensures RecordedBy(s, Apply(s, a).0, Apply(s, a).1)
  {
    ActionInv(s, a);
    var u := Apply(s, a).0;
    assert u.ring.produced[..s.ring.consumed] == s.ring.produced[..s.ring.consumed];
  }

  lemma Recorded<T>(s: State<T>, a: Action<T>)
    requires Inv(s) && Enabled(s, a)
    ensures RecordedBy(s, Apply(s, a).0, Apply(s, a).1)
  {
    if a.ConsumerMoves? { ConsumerRecorded(s); } else { OthersRecorded(s, a); }
  }

  lemma {:induction false} History<T>(states: seq<State<T>>, acts: seq<Action<T>>, n: nat)
    requires Run(states, acts) && n <= |acts|
    ensures WrittenIn(states, acts, n) == states[n].ring.produced
    ensures states[n].ring.consumed <= |states[n].ring.produced|
    ensures ReadIn(states, acts, n) == states[n].ring.produced[..states[n].ring.consumed]
  {
    if n > 0 {
      History(states, acts, n - 1);
      RunInv(states, acts, n - 1);
      assert StepAt(states, acts, n - 1);
      Recorded(states[n - 1], acts[n - 1]);
    }
  }

  /** In every interleaving what has been read is a prefix of what has been written. */
  lemma ReadIsPrefixOfWritten<T>(states: seq<State<T>>, acts: seq<Action<T>>, n: nat)
    requires Run(states, acts) && n <= |acts|
    ensures ReadIn(states, acts, n) <= WrittenIn(states, acts, n)
    ensures |WrittenIn(states, acts, n)| - |ReadIn(states, acts, n)| <= |states[n].ring.buf|
  {
    History(states, acts, n);
    RunInv(states, acts, n);
  }
}
