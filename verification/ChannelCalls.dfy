/** What each call on a channel answers and leaves, by the fields of the channel it finds. */
module ChannelCalls {
  import opened ChannelProtocol

  // --- One turn under the lock ---

  /** The message is in, at the end, and everybody the signal let go is awake. */
  ghost predicate Appended(s: State, u: State, msg: Message, wake: set<Thread>) {
    && u.queue == s.queue + [msg] && u.sent == s.sent + [msg] && u.received == s.received
    && u.asleepReceivers == s.asleepReceivers - wake && u.wokenReceivers == s.wokenReceivers + wake
    && u.asleepSenders == s.asleepSenders && u.wokenSenders == s.wokenSenders && u.pending == s.pending
    && u.capacity == s.capacity && u.closed == s.closed
  }

  /** The oldest message is out. */
  ghost predicate Removed(s: State, u: State, msg: Message, wake: set<Thread>) {
    && s.queue == [msg] + u.queue && u.received == s.received + [msg] && u.sent == s.sent
    && u.asleepSenders == s.asleepSenders - wake && u.wokenSenders == s.wokenSenders + wake
    && u.asleepReceivers == s.asleepReceivers && u.wokenReceivers == s.wokenReceivers && u.pending == s.pending
    && u.capacity == s.capacity && u.closed == s.closed
  }

  /** A send that does not wait succeeds if and only if the channel is open and has room. */
  lemma TrySendAnswers(s: State, t: Thread, msg: Message, wake: set<Thread>)
    requires Enabled(s, TrySend(t, msg, wake))
    ensures var u, r := Apply(s, TrySend(t, msg, wake)).0, Apply(s, TrySend(t, msg, wake)).1;
      if !s.closed && |s.queue| < s.capacity then r == Sent(msg) && Appended(s, u, msg, wake) else r == Refused && u == s
  {
  }

  /** A receive that does not wait succeeds if and only if there is a message, and hands out the oldest. */
  lemma TryReceiveAnswers(s: State, t: Thread, wake: set<Thread>)
    requires Enabled(s, TryReceive(t, wake))
    ensures var u, r := Apply(s, TryReceive(t, wake)).0, Apply(s, TryReceive(t, wake)).1;
      if s.queue != [] then r == Received(s.queue[0]) && Removed(s, u, s.queue[0], wake) else r == Nothing && u == s
  {
  }

  /** What a sender, with its place among the waiting given up, finds: a wait on a full open channel and on no other. */
  ghost predicate SendAnswers(s: State, t: Thread, msg: Message, wake: set<Thread>, u: State, r: Result) {
    if s.closed then r == Refused && u == s
    else if |s.queue| < s.capacity then r == Sent(msg) && Appended(s, u, msg, wake)
    else
      && r == Waits && u.asleepSenders == s.asleepSenders + {t} && t in u.pending && u.pending[t] == msg
      && u.waitingSenders == s.waitingSenders + 1 && u.queue == s.queue && u.sent == s.sent && u.received == s.received
  }

  /** A send waits exactly on a full open channel. */
  lemma SendTurns(s: State, t: Thread, msg: Message, wake: set<Thread>)
    requires Enabled(s, Send(t, msg, wake))
    ensures SendAnswers(s, t, msg, wake, Apply(s, Send(t, msg, wake)).0, Apply(s, Send(t, msg, wake)).1)
  {
  }

  /** Back from the wait it finds out anew, with the message it came with. */
  lemma ResumeSendTurns(s: State, t: Thread, wake: set<Thread>)
    requires Enabled(s, ResumeSend(t, wake))
    ensures var left := s.(wokenSenders := s.wokenSenders - {t}, pending := s.pending - {t}, waitingSenders := s.waitingSenders - 1);
      SendAnswers(left, t, s.pending[t], wake, Apply(s, ResumeSend(t, wake)).0, Apply(s, ResumeSend(t, wake)).1)
  {
  }

  ghost predicate ReceiveAnswers(s: State, t: Thread, wake: set<Thread>, u: State, r: Result) {
    if s.queue != [] then r == Received(s.queue[0]) && Removed(s, u, s.queue[0], wake)
    else if s.closed then r == Null && u == s
    else
      && r == Waits && u.asleepReceivers == s.asleepReceivers + {t} && u.waitingReceivers == s.waitingReceivers + 1
      && u.queue == s.queue && u.sent == s.sent && u.received == s.received
  }

  /** A receive waits exactly on an empty open channel. */
  lemma ReceiveTurns(s: State, t: Thread, wake: set<Thread>)
    requires Enabled(s, Receive(t, wake))
    ensures ReceiveAnswers(s, t, wake, Apply(s, Receive(t, wake)).0, Apply(s, Receive(t, wake)).1)
  {
  }

  lemma ResumeReceiveTurns(s: State, t: Thread, wake: set<Thread>)
    requires Enabled(s, ResumeReceive(t, wake))
    ensures var left := s.(wokenReceivers := s.wokenReceivers - {t}, waitingReceivers := s.waitingReceivers - 1);
      ReceiveAnswers(left, t, wake, Apply(s, ResumeReceive(t, wake)).0, Apply(s, ResumeReceive(t, wake)).1)
  {
  }

  /** Closing wakes everybody and changes nothing else. */
  lemma CloseTurns(s: State)
    ensures var u := Apply(s, Close).0;
      && u.closed && u.asleepReceivers == u.asleepSenders == {} && u.queue == s.queue && u.sent == s.sent && u.received == s.received
      && u.wokenReceivers == s.wokenReceivers + s.asleepReceivers && u.wokenSenders == s.wokenSenders + s.asleepSenders
      && u.pending == s.pending && u.capacity == s.capacity
      && u.waitingSenders == s.waitingSenders && u.waitingReceivers == s.waitingReceivers
  {
  }

  // --- Whole calls ---

  /** With room and nobody waiting, a send and then a receive hand over the argument and leave the channel as it was. */
  lemma SendThenReceive(s: State, t: Thread, u: Thread, msg: Message)
    requires Inv(s) && s.queue == [] && !s.closed && Outside(s, t) && Outside(s, u)
    requires s.asleepReceivers == s.asleepSenders == {}
    ensures Enabled(s, Send(t, msg, {})) && Apply(s, Send(t, msg, {})).1 == Sent(msg)
    ensures var s' := Apply(s, Send(t, msg, {})).0;
      && Enabled(s', Receive(u, {})) && Apply(s', Receive(u, {})).1 == Received(msg)
      && Apply(s', Receive(u, {})).0 == s.(sent := s.sent + [msg], received := s.received + [msg])
  {
    SendTurns(s, t, msg, {});
  }

  /** The message a waiting sender has is that of its call. */
  lemma {:induction false} PendingOf(states: seq<State>, acts: seq<Action>, n: nat, t: Thread) returns (i: nat)
    requires Run(states, acts) && n <= |acts| && t in states[n].pending
    ensures i < n && acts[i].Send? && acts[i].t == t && acts[i].msg == states[n].pending[t]
    ensures forall j | i < j < n :: !(acts[j].Send? && acts[j].t == t)
    decreases n
  {
    assert n > 0;
    assert StepAt(states, acts, n - 1);
    if acts[n - 1].Send? && acts[n - 1].t == t {
      RunInv(states, acts, n - 1);
      assert ThreadOk(states[n - 1], t);
      i := n - 1;
    } else {
      PendingStays(states[n - 1], acts[n - 1], t);
      i := PendingOf(states, acts, n - 1, t);
    }
  }

  lemma PendingStays(s: State, a: Action, t: Thread)
    requires Enabled(s, a) && !(a.Send? && a.t == t) && t in Apply(s, a).0.pending
    ensures t in s.pending && s.pending[t] == Apply(s, a).0.pending[t]
  {
  }

  /** What a send puts in, at once or after any number of waits, is the argument of its call. */
  lemma SentIsArgument(states: seq<State>, acts: seq<Action>, n: nat) returns (i: nat)
    requires Run(states, acts) && n < |acts| && ResultAt(states, acts, n).Sent?
    ensures i <= n && (acts[n].Send? || acts[n].TrySend? || acts[n].ResumeSend?) && (acts[i].Send? || acts[i].TrySend?)
    ensures acts[i].t == acts[n].t && acts[i].msg == ResultAt(states, acts, n).msg && (i == n <==> !acts[n].ResumeSend?)
    ensures forall j | i < j < n :: !(acts[j].Send? && acts[j].t == acts[n].t)
  {
    assert StepAt(states, acts, n);
    if acts[n].ResumeSend? {
      i := PendingOf(states, acts, n, acts[n].t);
    } else {
      i := n;
    }
  }

  /** So every message received was the argument of a send. */
  lemma {:induction false} SentFrom(states: seq<State>, acts: seq<Action>, n: nat, j: nat) returns (i: nat)
    requires Run(states, acts) && n <= |acts| && j < |SentIn(states, acts, n)|
    ensures i < n && (acts[i].Send? || acts[i].TrySend?) && acts[i].msg == SentIn(states, acts, n)[j]
    decreases n
  {
    if j < |SentIn(states, acts, n - 1)| {
      i := SentFrom(states, acts, n - 1, j);
    } else {
      i := SentIsArgument(states, acts, n - 1);
    }
  }

  lemma ReceivedFrom(states: seq<State>, acts: seq<Action>, n: nat, j: nat) returns (i: nat)
    requires Run(states, acts) && n <= |acts| && j < |ReceivedIn(states, acts, n)|
    ensures i < n && (acts[i].Send? || acts[i].TrySend?) && acts[i].msg == ReceivedIn(states, acts, n)[j]
  {
    ReceivedIsPrefixOfSent(states, acts, n);
    i := SentFrom(states, acts, n, j);
  }
}
