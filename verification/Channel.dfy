/** The channel over its ring buffer. Each method is one stretch under the lock; together they are the
    steps of the protocol. */
module Channel {
  import opened ChannelProtocol
  import opened Wrapping

  /** The ring `b` holds the queue `q`, its oldest message at `r`. */
  ghost predicate RingHolds(b: seq<Message>, r: nat, q: seq<Message>) {
    r < |b| && |q| <= |b| && forall k | 0 <= k < |q| :: RingHoldsAt(b, r, q, k)
  }

  ghost predicate RingHoldsAt(b: seq<Message>, r: nat, q: seq<Message>, k: int) {
    0 <= k < |q| && |b| > 0 && b[(r + k) % |b|] == q[k]
  }

  /** With its read and write positions and its size. */
  ghost predicate RingOk(b: seq<Message>, r: nat, w: nat, n: nat, q: seq<Message>) {
    0 < |b| && n == |q| && RingHolds(b, r, q) && w == (r + n) % |b|
  }

  lemma RingPut(b: seq<Message>, r: nat, w: nat, q: seq<Message>, msg: Message)
    requires RingOk(b, r, w, |q|, q) && |q| < |b|
    ensures RingOk(b[w := msg], r, (w + 1) % |b|, |q| + 1, q + [msg])
  {
    ReduceFirst(r + |q|, 1, |b|);
    var b', q' := b[(r + |q|) % |b| := msg], q + [msg];
    forall k | 0 <= k < |q'| ensures RingHoldsAt(b', r, q', k) {
      if k < |q| {
        assert RingHoldsAt(b, r, q, k);
        SlotsDiffer(r + k, r + |q|, |b|);
      }
    }
  }

  lemma RingTakeAt(b: seq<Message>, r: nat, q: seq<Message>, k: int)
    requires r < |b| && 0 <= k < |q| - 1 && RingHoldsAt(b, r, q, k + 1)
    ensures RingHoldsAt(b, (r + 1) % |b|, q[1..], k)
  {
    ReduceFirst(r + 1, k, |b|);
    assert r + 1 + k == r + (k + 1);
  }

  lemma RingFirst(b: seq<Message>, r: nat, q: seq<Message>)
    requires r < |b| && RingHoldsAt(b, r, q, 0)
    ensures b[r] == q[0]
  {
  }

  lemma RingEnd(r: nat, n: nat, c: nat)
    requires c > 0 && n > 0
    ensures 0 <= (r + 1) % c < c && ((r + 1) % c + (n - 1)) % c == (r + n) % c
  {
    ReduceFirst(r + 1, n - 1, c);
    assert r + 1 + (n - 1) == r + n;
  }

  lemma RingTake(b: seq<Message>, r: nat, q: seq<Message>)
    requires RingHolds(b, r, q) && q != []
    ensures b[r] == q[0] && RingHolds(b, (r + 1) % |b|, q[1..])
  {
    assert RingHoldsAt(b, r, q, 0);
    RingFirst(b, r, q);
    var r', q' := (r + 1) % |b|, q[1..];
    forall k | 0 <= k < |q'| ensures RingHoldsAt(b, r', q', k) {
      assert RingHoldsAt(b, r, q, k + 1);
      RingTakeAt(b, r, q, k);
    }
  }

  lemma RingTaken(b: seq<Message>, r: nat, w: nat, q: seq<Message>)
    requires RingOk(b, r, w, |q|, q) && q != []
    ensures b[r] == q[0] && RingOk(b, (r + 1) % |b|, w, |q| - 1, q[1..])
  {
    RingTake(b, r, q);
    RingEnd(r, |q|, |b|);
  }

  class Channel {
    const capacity: nat
    const buffer: array<Message>
    var size: nat
    var readPos: nat
    var writePos: nat
    var closed: bool
    var waitingSenders: int
    var waitingReceivers: int
    ghost var state: State

    ghost predicate Ring()
      reads this, buffer
    {
      capacity == buffer.Length && RingOk(buffer[..], readPos, writePos, size, state.queue)
    }

    ghost predicate Flags()
      reads this
    {
      && state.capacity == capacity && state.closed == closed
      && state.waitingSenders == waitingSenders && state.waitingReceivers == waitingReceivers
    }

    ghost predicate Valid()
      reads this, buffer
    {
      Ring() && Flags()
    }

    /** `channel_create`. */
    constructor (capacity: nat)
      requires capacity > 0
      ensures Valid() && Initial(state) && this.capacity == capacity && fresh(buffer)
    {
      this.capacity := capacity;
      buffer := new Message[capacity](_ => 0);
      size, readPos, writePos, closed, waitingSenders, waitingReceivers := 0, 0, 0, false, 0, 0;
      state := State(capacity, [], false, {}, {}, {}, {}, map[], 0, 0, [], []);
    }

    method Append(msg: Message, ghost wake: set<Thread>)
      requires Valid() && size < capacity
      modifies this, buffer
      ensures Valid() && state == Put(old(state), msg, wake)
    {
      RingPut(buffer[..], readPos, writePos, state.queue, msg);
      ghost var ring := buffer[..][writePos := msg];
      buffer[writePos] := msg;
      assert buffer[..] == ring;
      writePos := (writePos + 1) % capacity;
      size := size + 1;
      state := Put(state, msg, wake);
    }

    method TakeOldest(ghost wake: set<Thread>) returns (msg: Message)
      requires Valid() && size > 0
      modifies this
      ensures Valid() && state == Take(old(state), wake) && msg == old(state).queue[0]
    {
      RingTaken(buffer[..], readPos, writePos, state.queue);
      msg := buffer[readPos];
      readPos := (readPos + 1) % capacity;
      size := size - 1;
      state := Take(state, wake);
    }

    /** `channel_send` from the test of its wait loop on; `Waits` is the call to the wait. */
    method SendFromTest(ghost t: Thread, msg: Message, ghost wake: set<Thread>) returns (r: Result)
      requires Valid()
      modifies this, buffer
      ensures Valid() && (state, r) == SendTurn(old(state), t, msg, wake)
    {
      if size >= capacity && !closed {
        waitingSenders := waitingSenders + 1;
        state := SleepSend(state, t, msg);
        return Waits;
      }
      if closed { return Refused; }
      Append(msg, wake);
      r := Sent(msg);
    }

    /** `channel_send` up to its first wait. */
    method Send(ghost t: Thread, msg: Message, ghost wake: set<Thread>) returns (r: Result)
      requires Valid() && Enabled(state, Action.Send(t, msg, wake))
      modifies this, buffer
      ensures Valid() && (state, r) == Apply(old(state), Action.Send(t, msg, wake))
      ensures r == if old(closed) then Refused else if old(size) < capacity then Sent(msg) else Waits
    {
      if closed { return Refused; }
      r := SendFromTest(t, msg, wake);
    }

    /** `channel_send` back from a wait, with the lock. */
    method ResumeSend(ghost t: Thread, msg: Message, ghost wake: set<Thread>) returns (r: Result)
      requires Valid() && Enabled(state, Action.ResumeSend(t, wake)) && state.pending[t] == msg
      modifies this, buffer
      ensures Valid() && (state, r) == Apply(old(state), Action.ResumeSend(t, wake))
    {
      waitingSenders := waitingSenders - 1;
      state := LeaveSend(state, t);
      r := SendFromTest(t, msg, wake);
    }

    /** `channel_try_send`. */
    method TrySend(ghost t: Thread, msg: Message, ghost wake: set<Thread>) returns (r: Result)
      requires Valid() && Enabled(state, Action.TrySend(t, msg, wake))
      modifies this, buffer
      ensures Valid() && (state, r) == Apply(old(state), Action.TrySend(t, msg, wake))
      ensures r == if !old(closed) && old(size) < capacity then Sent(msg) else Refused
    {
      if closed || size >= capacity { return Refused; }
      Append(msg, wake);
      r := Sent(msg);
    }

    /** `channel_recv` from the test of its wait loop on. */
    method ReceiveFromTest(ghost t: Thread, ghost wake: set<Thread>) returns (r: Result)
      requires Valid()
      modifies this, buffer
      ensures Valid() && (state, r) == ReceiveTurn(old(state), t, wake)
    {
      if size == 0 && !closed {
        waitingReceivers := waitingReceivers + 1;
        state := SleepReceive(state, t);
        return Waits;
      }
      if size == 0 && closed { return Null; }
      var msg := TakeOldest(wake);
      r := Received(msg);
    }

    /** `channel_recv` up to its first wait. */
    method Receive(ghost t: Thread, ghost wake: set<Thread>) returns (r: Result)
      requires Valid() && Enabled(state, Action.Receive(t, wake))
      modifies this, buffer
      ensures Valid() && (state, r) == Apply(old(state), Action.Receive(t, wake))
      ensures r == if old(size) > 0 then Received(old(state).queue[0]) else if old(closed) then Null else Waits
    {
      r := ReceiveFromTest(t, wake);
    }

    /** `channel_recv` back from a wait, with the lock. */
    method ResumeReceive(ghost t: Thread, ghost wake: set<Thread>) returns (r: Result)
      requires Valid() && Enabled(state, Action.ResumeReceive(t, wake))
      modifies this, buffer
      ensures Valid() && (state, r) == Apply(old(state), Action.ResumeReceive(t, wake))
    {
      waitingReceivers := waitingReceivers - 1;
      state := LeaveReceive(state, t);
      r := ReceiveFromTest(t, wake);
    }

    /** `channel_try_recv`. */
    method TryReceive(ghost t: Thread, ghost wake: set<Thread>) returns (r: Result)
      requires Valid() && Enabled(state, Action.TryReceive(t, wake))
      modifies this, buffer
      ensures Valid() && (state, r) == Apply(old(state), Action.TryReceive(t, wake))
      ensures r == if old(size) > 0 then Received(old(state).queue[0]) else Nothing
    {
      if size == 0 { return Nothing; }
      var msg := TakeOldest(wake);
      r := Received(msg);
    }

    /** `channel_close`: everyone asleep is woken. */
    method Close()
      requires Valid()
      modifies this
      ensures Valid() && state == Apply(old(state), Action.Close).0
    {
      closed := true;
      state := Apply(state, Action.Close).0;
    }
  }
}
