/** The channel as a monitor: each step is what one thread does between taking the lock and giving it up. */
module ChannelProtocol {

  type Thread = nat
  type Message = nat        // an untyped pointer

  datatype State = State(
    capacity: nat, queue: seq<Message>, closed: bool,
    asleepReceivers: set<Thread>, wokenReceivers: set<Thread>,   // in the wait; out of it but not yet resumed
    asleepSenders: set<Thread>, wokenSenders: set<Thread>, pending: map<Thread, Message>,
    waitingReceivers: int, waitingSenders: int,
    sent: seq<Message>, received: seq<Message>)                  // history

  datatype Result = Waits | Sent(msg: Message) | Refused | Received(msg: Message) | Null | Nothing | Done

  /** `wake` is the set of threads a signal lets go: at least one if any sleeps. */
  datatype Action =
    | Send(t: Thread, msg: Message, wake: set<Thread>) | ResumeSend(t: Thread, wake: set<Thread>)
    | TrySend(t: Thread, msg: Message, wake: set<Thread>)
    | Receive(t: Thread, wake: set<Thread>) | ResumeReceive(t: Thread, wake: set<Thread>)
    | TryReceive(t: Thread, wake: set<Thread>)
    | Close
    | WakeReceiver(t: Thread) | WakeSender(t: Thread)            // spurious wakeups

  predicate Signal(asleep: set<Thread>, wake: set<Thread>) {
    wake <= asleep && (asleep != {} ==> wake != {})
  }

  predicate Outside(s: State, t: Thread) {
    t !in s.asleepReceivers && t !in s.wokenReceivers && t !in s.asleepSenders && t !in s.wokenSenders
  }

  predicate Enabled(s: State, a: Action) {
    match a
    case Send(t, _, wake) => Outside(s, t) && Signal(s.asleepReceivers, wake)
    case TrySend(t, _, wake) => Outside(s, t) && Signal(s.asleepReceivers, wake)
    case ResumeSend(t, wake) => t in s.wokenSenders && t in s.pending && Signal(s.asleepReceivers, wake)
    case Receive(t, wake) => Outside(s, t) && Signal(s.asleepSenders, wake)
    case TryReceive(t, wake) => Outside(s, t) && Signal(s.asleepSenders, wake)
    case ResumeReceive(t, wake) => t in s.wokenReceivers && Signal(s.asleepSenders, wake)
    case Close => true
    case WakeReceiver(t) => t in s.asleepReceivers
    case WakeSender(t) => t in s.asleepSenders
  }

  /** Append, then signal `not_empty`. */
  function Put(s: State, msg: Message, wake: set<Thread>): State {
    WakeReceivers(s.(queue := s.queue + [msg], sent := s.sent + [msg]), wake)
  }

  /** Take the oldest, then signal `not_full`. */
  function Take(s: State, wake: set<Thread>): State
    requires s.queue != []
  {
    WakeSenders(s.(queue := s.queue[1..], received := s.received + [s.queue[0]]), wake)
  }

  function SleepSend(s: State, t: Thread, msg: Message): State {
    s.(asleepSenders := s.asleepSenders + {t}, pending := s.pending[t := msg], waitingSenders := s.waitingSenders + 1)
  }

  function SleepReceive(s: State, t: Thread): State {
    s.(asleepReceivers := s.asleepReceivers + {t}, waitingReceivers := s.waitingReceivers + 1)
  }

  function LeaveSend(s: State, t: Thread): State {
    s.(wokenSenders := s.wokenSenders - {t}, pending := s.pending - {t}, waitingSenders := s.waitingSenders - 1)
  }

  function LeaveReceive(s: State, t: Thread): State {
    s.(wokenReceivers := s.wokenReceivers - {t}, waitingReceivers := s.waitingReceivers - 1)
  }

  function WakeReceivers(s: State, wake: set<Thread>): State {
    s.(asleepReceivers := s.asleepReceivers - wake, wokenReceivers := s.wokenReceivers + wake)
  }

  function WakeSenders(s: State, wake: set<Thread>): State {
    s.(asleepSenders := s.asleepSenders - wake, wokenSenders := s.wokenSenders + wake)
  }

  /** `channel_send` from the test of its wait loop on. */
  function SendTurn(s: State, t: Thread, msg: Message, wake: set<Thread>): (State, Result) {
    if |s.queue| >= s.capacity && !s.closed then (SleepSend(s, t, msg), Waits)
    else if s.closed then (s, Refused)
    else (Put(s, msg, wake), Sent(msg))
  }

  /** `channel_recv` from the test of its wait loop on. */
  function ReceiveTurn(s: State, t: Thread, wake: set<Thread>): (State, Result) {
    if s.queue == [] && !s.closed then (SleepReceive(s, t), Waits)
    else if s.queue == [] then (s, Null)
    else (Take(s, wake), Received(s.queue[0]))
  }

  function Apply(s: State, a: Action): (State, Result)
    requires Enabled(s, a)
  {
    match a
    case Send(t, msg, wake) => if s.closed then (s, Refused) else SendTurn(s, t, msg, wake)
    case ResumeSend(t, wake) => SendTurn(LeaveSend(s, t), t, s.pending[t], wake)
    case TrySend(t, msg, wake) =>
      if s.closed || |s.queue| >= s.capacity then (s, Refused) else (Put(s, msg, wake), Sent(msg))
    case Receive(t, wake) => ReceiveTurn(s, t, wake)
    case ResumeReceive(t, wake) => ReceiveTurn(LeaveReceive(s, t), t, wake)
    case TryReceive(t, wake) => if s.queue == [] then (s, Nothing) else (Take(s, wake), Received(s.queue[0]))
    case Close =>
      (WakeSenders(WakeReceivers(s.(closed := true), s.asleepReceivers), s.asleepSenders), Done)
    case WakeReceiver(t) => (WakeReceivers(s, {t}), Done)
    case WakeSender(t) => (WakeSenders(s, {t}), Done)
  }

  /** `channel_create`, for a buffered channel. */
  predicate Initial(s: State) {
    && s.capacity > 0 && s.queue == [] && !s.closed
    && s.asleepReceivers == s.wokenReceivers == s.asleepSenders == s.wokenSenders == {} && s.pending == map[]
    && s.waitingReceivers == s.waitingSenders == 0 && s.sent == s.received == []
  }

  // --- Invariant ---

  /** A thread is in one place at a time; a message is kept for the senders that wait. */
  predicate ThreadOk(s: State, t: Thread) {
    && (t in s.asleepReceivers ==> t !in s.wokenReceivers && t !in s.asleepSenders && t !in s.wokenSenders)
    && (t in s.wokenReceivers ==> t !in s.asleepSenders && t !in s.wokenSenders)
    && (t in s.asleepSenders ==> t !in s.wokenSenders)
    && (t in s.pending <==> t in s.asleepSenders || t in s.wokenSenders)
  }

  ghost predicate Apart(s: State) {
    forall t: Thread :: ThreadOk(s, t)
  }

  /** No wakeup is lost: a sleeping receiver means enough woken ones for all messages, a sleeping sender
      enough woken ones for all free slots. A thread that has resumed and holds the lock counts as
      `receiving` or `sending`. */
  predicate Awake(s: State, receiving: nat, sending: nat) {
    && (s.asleepReceivers != {} ==> |s.wokenReceivers| + receiving >= |s.queue|)
    && (s.asleepSenders != {} ==> |s.wokenSenders| + sending >= s.capacity - |s.queue|)
    && (s.closed ==> s.asleepReceivers == {} == s.asleepSenders)
  }

  predicate Counters(s: State) {
    && s.waitingReceivers == |s.asleepReceivers| + |s.wokenReceivers|
    && s.waitingSenders == |s.asleepSenders| + |s.wokenSenders|
  }

  predicate Contents(s: State) {
    s.capacity > 0 && |s.queue| <= s.capacity && s.received + s.queue == s.sent
  }

  ghost predicate Holding(s: State, receiving: nat, sending: nat) {
    Contents(s) && Apart(s) && Awake(s, receiving, sending) && Counters(s)
  }

  ghost predicate Inv(s: State) {
    Holding(s, 0, 0)
  }

  lemma Moved(a: set<Thread>, b: set<Thread>, w: set<Thread>)
    requires a !! b && w <= a
    ensures |a - w| + |b + w| == |a| + |b| && |b + w| == |b| + |w| && (w != {} ==> |w| >= 1)
  {
    assert a == (a - w) + w;
    if w != {} { OneLess(w); }
  }

  lemma OneLess(w: set<Thread>)
    requires w != {}
    ensures |w| >= 1
  {
  }

  lemma ReceiversWokenApart(s: State, wake: set<Thread>)
    requires Apart(s) && Counters(s) && wake <= s.asleepReceivers
    ensures Apart(WakeReceivers(s, wake)) && Counters(WakeReceivers(s, wake))
    ensures |WakeReceivers(s, wake).wokenReceivers| == |s.wokenReceivers| + |wake|
  {
    forall t: Thread ensures ThreadOk(WakeReceivers(s, wake), t) { assert ThreadOk(s, t); }
    assert forall t | t in s.asleepReceivers :: ThreadOk(s, t);
    Moved(s.asleepReceivers, s.wokenReceivers, wake);
  }

  lemma SendersWokenApart(s: State, wake: set<Thread>)
    requires Apart(s) && Counters(s) && wake <= s.asleepSenders
    ensures Apart(WakeSenders(s, wake)) && Counters(WakeSenders(s, wake))
    ensures |WakeSenders(s, wake).wokenSenders| == |s.wokenSenders| + |wake|
  {
    forall t: Thread ensures ThreadOk(WakeSenders(s, wake), t) { assert ThreadOk(s, t); }
    assert forall t | t in s.asleepSenders :: ThreadOk(s, t);
    Moved(s.asleepSenders, s.wokenSenders, wake);
  }

  lemma SameThreads(s: State, s': State)
    requires Apart(s) && s'.asleepReceivers == s.asleepReceivers && s'.wokenReceivers == s.wokenReceivers
    requires s'.asleepSenders == s.asleepSenders && s'.wokenSenders == s.wokenSenders && s'.pending == s.pending
    ensures Apart(s')
  {
    forall t: Thread ensures ThreadOk(s', t) { assert ThreadOk(s, t); }
  }

  /** A put takes up a free slot: the sender that did it need not be counted any more. */
  lemma PutInv(s: State, msg: Message, wake: set<Thread>, sending: nat)
    requires Holding(s, 0, sending) && sending <= 1 && |s.queue| < s.capacity && !s.closed && Signal(s.asleepReceivers, wake)
    ensures Inv(Put(s, msg, wake))
  {
    assert s.received + (s.queue + [msg]) == s.sent + [msg];
    if wake != {} { OneLess(wake); }
    var r := s.(queue := s.queue + [msg], sent := s.sent + [msg]);
    SameThreads(s, r);
    ReceiversWokenApart(r, wake);
  }

  lemma TakeInv(s: State, wake: set<Thread>, receiving: nat)
    requires Holding(s, receiving, 0) && receiving <= 1 && s.queue != [] && Signal(s.asleepSenders, wake)
    ensures Inv(Take(s, wake))
  {
    assert (s.received + [s.queue[0]]) + s.queue[1..] == s.received + s.queue;
    if wake != {} { OneLess(wake); }
    var r := s.(queue := s.queue[1..], received := s.received + [s.queue[0]]);
    SameThreads(s, r);
    SendersWokenApart(r, wake);
  }

  lemma LeaveSendInv(s: State, t: Thread)
    requires Inv(s) && t in s.wokenSenders
    ensures t in s.pending && Holding(LeaveSend(s, t), 0, 1) && Outside(LeaveSend(s, t), t)
  {
    assert s.wokenSenders == (s.wokenSenders - {t}) + {t};
    assert ThreadOk(s, t);
    forall u: Thread ensures ThreadOk(LeaveSend(s, t), u) { assert ThreadOk(s, u); }
  }

  lemma LeaveReceiveInv(s: State, t: Thread)
    requires Inv(s) && t in s.wokenReceivers
    ensures Holding(LeaveReceive(s, t), 1, 0) && Outside(LeaveReceive(s, t), t)
  {
    assert s.wokenReceivers == (s.wokenReceivers - {t}) + {t};
    assert ThreadOk(s, t);
    forall u: Thread ensures ThreadOk(LeaveReceive(s, t), u) { assert ThreadOk(s, u); }
  }

  lemma SleepSendInv(s: State, t: Thread, msg: Message, sending: nat)
    requires Holding(s, 0, sending) && |s.queue| == s.capacity && !s.closed && Outside(s, t)
    ensures Inv(SleepSend(s, t, msg))
  {
    forall u: Thread ensures ThreadOk(SleepSend(s, t, msg), u) { assert ThreadOk(s, u); }
  }

  lemma SleepReceiveInv(s: State, t: Thread, receiving: nat)
    requires Holding(s, receiving, 0) && s.queue == [] && !s.closed && Outside(s, t)
    ensures Inv(SleepReceive(s, t))
  {
    assert ThreadOk(s, t);
    forall u: Thread ensures ThreadOk(SleepReceive(s, t), u) { assert ThreadOk(s, u); }
  }

  lemma SendTurnInv(s: State, t: Thread, msg: Message, wake: set<Thread>, sending: nat)
    requires Holding(s, 0, sending) && sending <= 1 && Outside(s, t) && Signal(s.asleepReceivers, wake)
    ensures Inv(SendTurn(s, t, msg, wake).0)
  {
    if !s.closed {
      if |s.queue| < s.capacity { PutInv(s, msg, wake, sending); } else { SleepSendInv(s, t, msg, sending); }
    }
  }

  lemma ReceiveTurnInv(s: State, t: Thread, wake: set<Thread>, receiving: nat)
    requires Holding(s, receiving, 0) && receiving <= 1 && Outside(s, t) && Signal(s.asleepSenders, wake)
    ensures Inv(ReceiveTurn(s, t, wake).0)
  {
    if s.queue != [] { TakeInv(s, wake, receiving); } else if !s.closed { SleepReceiveInv(s, t, receiving); }
  }

  lemma CloseInv(s: State)
    requires Inv(s)
    ensures Inv(Apply(s, Close).0)
  {
    var r := s.(closed := true);
    SameThreads(s, r);
    ReceiversWokenApart(r, s.asleepReceivers);
    SendersWokenApart(WakeReceivers(r, s.asleepReceivers), s.asleepSenders);
  }

  lemma ActionInv(s: State, a: Action)
    requires Inv(s) && Enabled(s, a)
    ensures Inv(Apply(s, a).0)
  {
    match a
    case Send(t, msg, wake) => SendTurnInv(s, t, msg, wake, 0);
    case TrySend(t, msg, wake) => SendTurnInv(s, t, msg, wake, 0);
    case ResumeSend(t, wake) =>
      LeaveSendInv(s, t);
      SendTurnInv(LeaveSend(s, t), t, s.pending[t], wake, 1);
    case Receive(t, wake) => ReceiveTurnInv(s, t, wake, 0);
    case TryReceive(t, wake) => ReceiveTurnInv(s, t, wake, 0);
    case ResumeReceive(t, wake) =>
      LeaveReceiveInv(s, t);
      ReceiveTurnInv(LeaveReceive(s, t), t, wake, 1);
    case Close => CloseInv(s);
    case WakeReceiver(t) => ReceiversWokenApart(s, {t});
    case WakeSender(t) => SendersWokenApart(s, {t});
  }

  // --- Whole runs ---

  ghost predicate StepAt(states: seq<State>, acts: seq<Action>, i: int) {
    && 0 <= i < |acts| && i + 1 < |states|
    && Enabled(states[i], acts[i]) && states[i + 1] == Apply(states[i], acts[i]).0
  }

  ghost predicate Run(states: seq<State>, acts: seq<Action>) {
    && |states| == |acts| + 1 && Initial(states[0])
    && forall i {:trigger StepAt(states, acts, i)} | 0 <= i < |acts| :: StepAt(states, acts, i)
  }

  lemma {:induction false} RunInv(states: seq<State>, acts: seq<Action>, n: nat)
    requires Run(states, acts) && n <= |acts|
    ensures Inv(states[n])
  {
    if n > 0 {
      RunInv(states, acts, n - 1);
      assert StepAt(states, acts, n - 1);
      ActionInv(states[n - 1], acts[n - 1]);
    }
  }

  ghost function ResultAt(states: seq<State>, acts: seq<Action>, i: nat): Result
    requires Run(states, acts) && i < |acts|
  {
    assert StepAt(states, acts, i);
    Apply(states[i], acts[i]).1
  }

  function PutIn(r: Result): seq<Message> {
    if r.Sent? then [r.msg] else []
  }

  function TakenOut(r: Result): seq<Message> {
    if r.Received? then [r.msg] else []
  }

  /** The messages of the sends that returned true in the first `n` steps, in lock order. */
  ghost function SentIn(states: seq<State>, acts: seq<Action>, n: nat): seq<Message>
    requires Run(states, acts) && n <= |acts|
  {
    if n == 0 then [] else SentIn(states, acts, n - 1) + PutIn(ResultAt(states, acts, n - 1))
  }

  ghost function ReceivedIn(states: seq<State>, acts: seq<Action>, n: nat): seq<Message>
    requires Run(states, acts) && n <= |acts|
  {
    if n == 0 then [] else ReceivedIn(states, acts, n - 1) + TakenOut(ResultAt(states, acts, n - 1))
  }

  lemma Recorded(s: State, a: Action)
    requires Enabled(s, a)
    ensures var u, r := Apply(s, a).0, Apply(s, a).1; u.sent == s.sent + PutIn(r) && u.received == s.received + TakenOut(r)
  {
  }

  lemma {:induction false} History(states: seq<State>, acts: seq<Action>, n: nat)
    requires Run(states, acts) && n <= |acts|
    ensures SentIn(states, acts, n) == states[n].sent && ReceivedIn(states, acts, n) == states[n].received
  {
    if n > 0 {
      History(states, acts, n - 1);
      assert StepAt(states, acts, n - 1);
      Recorded(states[n - 1], acts[n - 1]);
    }
  }

  /** In every interleaving the messages received are a prefix of the messages sent; what is missing is
      what the buffer holds. */
  lemma ReceivedIsPrefixOfSent(states: seq<State>, acts: seq<Action>, n: nat)
    requires Run(states, acts) && n <= |acts|
    ensures ReceivedIn(states, acts, n) + states[n].queue == SentIn(states, acts, n)
    ensures ReceivedIn(states, acts, n) <= SentIn(states, acts, n)
  {
    History(states, acts, n);
    RunInv(states, acts, n);
  }

  /** Once every woken thread has resumed, whoever still sleeps has reason to: receivers only on an empty
      channel, senders only on a full one, nobody on a closed one. */
  lemma NobodySleepsInVain(states: seq<State>, acts: seq<Action>, n: nat)
    requires Run(states, acts) && n <= |acts|
    ensures var s := states[n];
      && (s.asleepReceivers != {} && s.wokenReceivers == {} ==> s.queue == [])
      && (s.asleepSenders != {} && s.wokenSenders == {} ==> |s.queue| == s.capacity)
      && (s.closed ==> s.asleepReceivers == {} == s.asleepSenders)
      && s.waitingReceivers == |s.asleepReceivers| + |s.wokenReceivers|
      && s.waitingSenders == |s.asleepSenders| + |s.wokenSenders|
  {
    RunInv(states, acts, n);
  }

  /** Once closed the channel stays closed, and no send succeeds any more. */
  lemma {:induction false} ClosedForGood(states: seq<State>, acts: seq<Action>, i: nat, n: nat)
    requires Run(states, acts) && i <= n <= |acts| && states[i].closed
    ensures states[n].closed && SentIn(states, acts, n) == SentIn(states, acts, i)
    decreases n
  {
    if i < n {
      ClosedForGood(states, acts, i, n - 1);
      assert StepAt(states, acts, n - 1);
      ClosedStep(states[n - 1], acts[n - 1]);
    }
  }

  /** On a closed channel nothing is sent and nobody goes to sleep. */
  lemma ClosedStep(s: State, a: Action)
    requires Enabled(s, a) && s.closed
    ensures Apply(s, a).0.closed && !Apply(s, a).1.Sent? && !Apply(s, a).1.Waits?
  {
  }

  /** A receiver gets NULL only from a closed channel all of whose messages, now and ever after, have
      been received; and a closed channel with messages left never answers NULL. */
  lemma NullMeansDrained(states: seq<State>, acts: seq<Action>, i: nat, n: nat)
    requires Run(states, acts) && i < |acts| && i <= n <= |acts|
    ensures ResultAt(states, acts, i) == Null ==>
      states[i].closed && ReceivedIn(states, acts, i) == SentIn(states, acts, i) == SentIn(states, acts, n)
    ensures ResultAt(states, acts, i) == Null ==> ReceivedIn(states, acts, n) == SentIn(states, acts, n)
  {
    if ResultAt(states, acts, i) == Null {
      ReceivedIsPrefixOfSent(states, acts, i);
      ReceivedIsPrefixOfSent(states, acts, n);
      ClosedForGood(states, acts, i, n);
      MoreReceived(states, acts, i, n);
    }
  }

  lemma {:induction false} MoreReceived(states: seq<State>, acts: seq<Action>, i: nat, n: nat)
    requires Run(states, acts) && i <= n <= |acts|
    ensures ReceivedIn(states, acts, i) <= ReceivedIn(states, acts, n)
    decreases n
  {
    if i < n { MoreReceived(states, acts, i, n - 1); }
  }

  /** After the close every receive hands out the next remaining message, until none is left. */
  lemma ReceiveAfterClose(states: seq<State>, acts: seq<Action>, n: nat)
    requires Run(states, acts) && n < |acts| && states[n].closed && (acts[n].Receive? || acts[n].ResumeReceive?)
    ensures |ReceivedIn(states, acts, n)| <= |SentIn(states, acts, n)|
    ensures ResultAt(states, acts, n) ==
      if |ReceivedIn(states, acts, n)| < |SentIn(states, acts, n)| then Received(SentIn(states, acts, n)[|ReceivedIn(states, acts, n)|])
      else Null
  {
    ReceivedIsPrefixOfSent(states, acts, n);
  }
}
