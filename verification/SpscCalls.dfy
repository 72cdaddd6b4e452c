/** How much the calls of the byte ring transfer, and what they do undisturbed. */
module SpscCalls {
  import opened SpscRing
  import opened Words

  // --- In every interleaving ---

  /** The write under way at step `n` began at step `i`; the room it saw is what the ring had then. */
  ghost predicate WriteBegunAt<T(!new)>(states: seq<State<T>>, acts: seq<Action<T>>, i: nat, n: nat, data: seq<T>, seen: nat) {
    && i < n < |states| && n <= |acts| && acts[i] == StartWrite(data) && seen == states[i].ring.consumed
    && states[n].ring.produced == states[i].ring.produced && states[n].ring.buf != [] && |states[n].ring.buf| == |states[i].ring.buf|
    && forall j | i < j < n :: !acts[j].StartWrite?
  }

  /** As much as there was room for when the read index was loaded. */
  function Accepted<T>(r: Ring<T>, data: seq<T>): int {
    Min(|data|, |r.buf| - (|r.produced| - r.consumed))
  }

  lemma {:induction false} WriteOf<T(!new)>(states: seq<State<T>>, acts: seq<Action<T>>, n: nat) returns (i: nat)
    requires Run(states, acts) && n <= |acts| && !states[n].producer.Away?
    ensures WriteBegunAt(states, acts, i, n, states[n].producer.data, states[n].producer.seen)
    ensures states[n].producer.Filling? ==> states[n].producer.n == Accepted(states[i].ring, states[n].producer.data)
    decreases n
  {
    assert n > 0;
    assert StepAt(states, acts, n - 1);
    RunInv(states, acts, n - 1);
    if acts[n - 1].StartWrite? {
      i := n - 1;
    } else {
      i := WriteOf(states, acts, n - 1);
      if acts[n - 1].ProducerMoves? { WriteGoesOn(states[n - 1]); }
    }
  }

  lemma WriteGoesOn<T>(s: State<T>)
    requires Inv(s) && !s.producer.Away? && MayFill(s) && !ProducerStep(s).0.producer.Away?
    ensures var t := ProducerStep(s).0;
      && t.ring.produced == s.ring.produced && |t.ring.buf| == |s.ring.buf|
      && t.producer.Filling? && t.producer.data == s.producer.data && t.producer.seen == s.producer.seen
      && t.producer.n == if s.producer.Filling? then s.producer.n
                         else Min(|s.producer.data|, |s.ring.buf| - (|s.ring.produced| - s.producer.seen))
  {
    if s.producer.HasRead? { WrappedDifference(|s.ring.produced|, s.producer.seen, s.ring.modulus); }
  }

  /** In every interleaving a write accepts the longest prefix of its argument for which there was room when its call
      loaded the read index. */
  lemma WroteIsPrefix<T(!new)>(states: seq<State<T>>, acts: seq<Action<T>>, n: nat) returns (i: nat, data: seq<T>)
    requires Run(states, acts) && n < |acts| && LabelAt(states, acts, n).Wrote?
    ensures i < n && acts[i] == StartWrite(data) && forall j | i < j < n :: !acts[j].StartWrite?
    ensures 0 <= Accepted(states[i].ring, data) <= |data|
    ensures LabelAt(states, acts, n).data == data[..Accepted(states[i].ring, data)]
  {
    assert StepAt(states, acts, n);
    RunInv(states, acts, n);
    data := states[n].producer.data;
    i := WriteOf(states, acts, n);
  }

  ghost predicate ReadBegunAt<T(!new)>(states: seq<State<T>>, acts: seq<Action<T>>, i: nat, n: nat, len: nat) {
    && i < n < |states| && n <= |acts| && acts[i] == StartRead(len) && states[n].ring.consumed == states[i].ring.consumed
    && forall j | i < j < n :: !acts[j].StartRead?
  }

  /** What was unread when the write index was loaded, up to the length asked for. */
  function Taken<T>(r: Ring<T>, len: nat): int {
    Min(len, |r.produced| - r.consumed)
  }

  lemma {:induction false} ReadOf<T(!new)>(states: seq<State<T>>, acts: seq<Action<T>>, n: nat) returns (i: nat, len: nat)
    requires Run(states, acts) && n <= |acts| && !states[n].consumer.Gone?
    ensures ReadBegunAt(states, acts, i, n, len)
    ensures states[n].consumer.HasWrite? ==> states[n].consumer.len == len && states[n].consumer.seen == |states[i].ring.produced|
    ensures states[n].consumer.Copying? ==> states[n].consumer.n == Taken(states[i].ring, len)
    decreases n
  {
    assert n > 0;
    assert StepAt(states, acts, n - 1);
    RunInv(states, acts, n - 1);
    if acts[n - 1].StartRead? {
      i, len := n - 1, acts[n - 1].len;
    } else {
      i, len := ReadOf(states, acts, n - 1);
      if acts[n - 1].ConsumerMoves? { ReadGoesOn(states[n - 1]); }
    }
  }

  lemma ReadGoesOn<T>(s: State<T>)
    requires Inv(s) && !s.consumer.Gone? && !ConsumerStep(s).0.consumer.Gone?
    ensures var t := ConsumerStep(s).0;
      && t.ring.consumed == s.ring.consumed && t.consumer.Copying?
      && t.consumer.n == if s.consumer.Copying? then s.consumer.n else Min(s.consumer.len, s.consumer.seen - s.ring.consumed)
  {
    if s.consumer.HasWrite? { WrappedDifference(s.consumer.seen, s.ring.consumed, s.ring.modulus); }
  }

  lemma ReadSays<T>(s: State<T>)
    requires Inv(s) && !s.consumer.Gone? && ConsumerStep(s).1.Got?
    ensures |ConsumerStep(s).1.data| == if s.consumer.Copying? then s.consumer.n else 0
    ensures s.consumer.HasWrite? ==> s.consumer.seen == s.ring.consumed
  {
    if s.consumer.HasWrite? {
      WrappedDifference(s.consumer.seen, s.ring.consumed, s.ring.modulus);
    } else if |s.consumer.out| < s.consumer.n {
      CopyNext(s);
    } else {
      GiveBack(s);
    }
  }

  /** In every interleaving a read hands out as much as there was when its call loaded the write index, up to the length
      it asks for; which elements these are is `ReadIsPrefixOfWritten`. */
  lemma GotIsAvailable<T(!new)>(states: seq<State<T>>, acts: seq<Action<T>>, n: nat) returns (i: nat, len: nat)
    requires Run(states, acts) && n < |acts| && LabelAt(states, acts, n).Got?
    ensures i < n && acts[i] == StartRead(len) && forall j | i < j < n :: !acts[j].StartRead?
    ensures |LabelAt(states, acts, n).data| == Taken(states[i].ring, len)
  {
    assert StepAt(states, acts, n);
    RunInv(states, acts, n);
    i, len := ReadOf(states, acts, n);
    RunInv(states, acts, i);
    assert StepAt(states, acts, i);
    ReadSays(states[n]);
  }

  // --- Each call ends ---

  /** A bound on the steps a write, or a read, still takes. */
  function WriteLeft<T>(p: Producer<T>): int {
    match p
    case Away => 0
    case HasRead(data, _, _) => |data| + 2
    case Filling(_, _, n, done, _) => n - done + 1
  }

  function ReadLeft<T>(c: Consumer<T>): int {
    match c
    case Gone => 0
    case HasWrite(len, _, _) => len + 2
    case Copying(_, n, out) => n - |out| + 1
  }

  /** Every step of a call brings it nearer to its end, whatever the other side does. */
  lemma WriteGetsOn<T>(s: State<T>)
    requires Inv(s) && !s.producer.Away? && MayFill(s)
    ensures 0 <= WriteLeft(ProducerStep(s).0.producer) < WriteLeft(s.producer)
    ensures ProducerStep(s).0.producer.Away? <==> ProducerStep(s).1.Wrote?
  {
    if s.producer.HasRead? { WrappedDifference(|s.ring.produced|, s.producer.seen, s.ring.modulus); }
  }

  lemma ReadGetsOn<T>(s: State<T>)
    requires Inv(s) && !s.consumer.Gone? && (s.consumer.HasWrite? ==> s.consumer.len > 0)
    ensures 0 <= ReadLeft(ConsumerStep(s).0.consumer) < ReadLeft(s.consumer)
    ensures ConsumerStep(s).0.consumer.Gone? <==> ConsumerStep(s).1.Got?
  {
    if s.consumer.HasWrite? {
      WrappedDifference(s.consumer.seen, s.ring.consumed, s.ring.modulus);
    } else if |s.consumer.out| < s.consumer.n {
      CopyNext(s);
    }
  }

  // --- Undisturbed calls ---

  /** `n` steps of the producer, or of the consumer, lead to `t`, the last of them with label `l`. */
  ghost predicate WritesTo<T(!new)>(s: State<T>, n: nat, l: Label<T>, t: State<T>)
    decreases n
  {
    && Enabled(s, ProducerMoves) && n > 0
    && if n == 1 then ProducerStep(s) == (t, l) else ProducerStep(s).1 == Silent && WritesTo(ProducerStep(s).0, n - 1, l, t)
  }

  ghost predicate ReadsTo<T(!new)>(s: State<T>, n: nat, l: Label<T>, t: State<T>)
    decreases n
  {
    && Enabled(s, ConsumerMoves) && n > 0
    && if n == 1 then ConsumerStep(s) == (t, l) else ConsumerStep(s).1 == Silent && ReadsTo(ConsumerStep(s).0, n - 1, l, t)
  }

  /** How much the write under way is going to accept. */
  function Accepting<T>(s: State<T>): int
    requires !s.producer.Away?
  {
    if s.producer.Filling? then s.producer.n else Min(|s.producer.data|, |s.ring.buf| - (|s.ring.produced| - s.producer.seen))
  }

  lemma WriteStep<T>(s: State<T>)
    requires Inv(s) && !s.producer.Away?
    ensures Enabled(s, ProducerMoves) && Inv(ProducerStep(s).0) && 0 <= Accepting(s) <= |s.producer.data|
    ensures var t, l := ProducerStep(s).0, ProducerStep(s).1;
      && t.consumer == s.consumer && t.ring.consumed == s.ring.consumed
      && if t.producer.Away? then
           l == Wrote(s.producer.data[..Accepting(s)]) && t.ring.produced == s.ring.produced + s.producer.data[..Accepting(s)]
         else
           && l == Silent && t.ring.produced == s.ring.produced && t.producer.data == s.producer.data
           && Accepting(t) == Accepting(s) && 0 <= WriteLeft(t.producer) < WriteLeft(s.producer)
  {
    ActionInv(s, ProducerMoves);
    if s.producer.HasRead? { WrappedDifference(|s.ring.produced|, s.producer.seen, s.ring.modulus); }
  }

  lemma {:induction false} FinishWrite<T(!new)>(s: State<T>) returns (n: nat, t: State<T>)
    requires Inv(s) && !s.producer.Away?
    ensures 0 <= Accepting(s) <= |s.producer.data| && WritesTo(s, n, Wrote(s.producer.data[..Accepting(s)]), t)
    ensures Inv(t) && t.producer.Away? && t.consumer == s.consumer && t.ring.consumed == s.ring.consumed
    ensures t.ring.produced == s.ring.produced + s.producer.data[..Accepting(s)]
    decreases WriteLeft(s.producer)
  {
    WriteStep(s);
    if ProducerStep(s).0.producer.Away? {
      n, t := 1, ProducerStep(s).0;
    } else {
      n, t := FinishWrite(ProducerStep(s).0);
      n := n + 1;
    }
  }

  /** A write that nobody disturbs puts in as much of its argument as there is room for. */
  lemma WriteAlone<T(!new)>(s: State<T>, data: seq<T>) returns (n: nat, t: State<T>)
    requires Inv(s) && s.producer.Away? && data != []
    ensures Enabled(s, StartWrite(data)) && 0 <= Accepted(s.ring, data) <= |data|
    ensures WritesTo(Apply(s, StartWrite(data)).0, n, Wrote(data[..Accepted(s.ring, data)]), t)
    ensures Inv(t) && t.producer.Away? && t.consumer == s.consumer
    ensures t.ring.produced == s.ring.produced + data[..Accepted(s.ring, data)] && t.ring.consumed == s.ring.consumed
  {
    ActionInv(s, StartWrite(data));
    n, t := FinishWrite(Apply(s, StartWrite(data)).0);
  }

  /** How much the read under way is going to hand out. */
  function Taking<T>(s: State<T>): int
    requires !s.consumer.Gone?
  {
    if s.consumer.Copying? then s.consumer.n else Min(s.consumer.len, s.consumer.seen - s.ring.consumed)
  }

  ghost predicate MayTake<T>(s: State<T>) {
    !s.consumer.Gone? && 0 <= Taking(s) <= |s.ring.produced| - s.ring.consumed
  }

  lemma ReadStep<T>(s: State<T>)
    requires Inv(s) && !s.consumer.Gone?
    ensures Enabled(s, ConsumerMoves) && Inv(ConsumerStep(s).0) && MayTake(s)
    ensures var t, l := ConsumerStep(s).0, ConsumerStep(s).1;
      && t.producer == s.producer && t.ring.produced == s.ring.produced
      && if t.consumer.Gone? then
           && l == Got(s.ring.produced[s.ring.consumed..s.ring.consumed + Taking(s)])
           && t.ring.consumed == s.ring.consumed + Taking(s)
         else
           && l == Silent && t.ring.consumed == s.ring.consumed
           && Taking(t) == Taking(s) && (t.consumer.Copying? && 0 <= ReadLeft(t.consumer) < ReadLeft(s.consumer))
  {
    ActionInv(s, ConsumerMoves);
    if s.consumer.HasWrite? {
      WrappedDifference(s.consumer.seen, s.ring.consumed, s.ring.modulus);
    } else if |s.consumer.out| < s.consumer.n {
      CopyNext(s);
    } else {
      GiveBack(s);
    }
  }

  lemma {:induction false} FinishRead<T(!new)>(s: State<T>) returns (n: nat, t: State<T>)
    requires Inv(s) && !s.consumer.Gone?
    ensures MayTake(s) && ReadsTo(s, n, Got(s.ring.produced[s.ring.consumed..s.ring.consumed + Taking(s)]), t)
    ensures Inv(t) && t.consumer.Gone? && t.producer == s.producer
    ensures t.ring.produced == s.ring.produced && t.ring.consumed == s.ring.consumed + Taking(s)
    decreases ReadLeft(s.consumer)
  {
    ReadStep(s);
    if ConsumerStep(s).0.consumer.Gone? {
      n, t := 1, ConsumerStep(s).0;
    } else {
      n, t := FinishRead(ConsumerStep(s).0);
      n := n + 1;
    }
  }

  /** A read that nobody disturbs hands out the oldest unread elements, as many as there are up to the length. */
  lemma ReadAlone<T(!new)>(s: State<T>, len: nat) returns (n: nat, t: State<T>)
    requires Inv(s) && s.consumer.Gone? && len > 0
    ensures Enabled(s, StartRead(len)) && 0 <= Taken(s.ring, len) <= |s.ring.produced| - s.ring.consumed
    ensures ReadsTo(Apply(s, StartRead(len)).0, n, Got(s.ring.produced[s.ring.consumed..s.ring.consumed + Taken(s.ring, len)]), t)
    ensures Inv(t) && t.consumer.Gone? && t.producer == s.producer
    ensures t.ring.produced == s.ring.produced && t.ring.consumed == s.ring.consumed + Taken(s.ring, len)
  {
    ActionInv(s, StartRead(len));
    n, t := FinishRead(Apply(s, StartRead(len)).0);
  }
}
