/** What a push on the log queue does with its arguments, when it goes round, and what it achieves undisturbed. */
module LogQueueCalls {
  import opened LogQueue
  import opened Words

  // --- Arguments, in every interleaving ---

  /** The message is what a call with these arguments asks for: the level, and the first 240 characters. */
  predicate Made(msg: Message, level: nat, text: string) {
    msg.level == level && msg.text <= text && |msg.text| == Min(|text|, 240)
  }

  /** The call of producer `k` that is under way at step `n` began at step `i`. */
  ghost predicate BegunAt(acts: seq<Action>, i: nat, n: nat, k: nat, msg: Message) {
    && i < n <= |acts| && acts[i].BeginPush? && acts[i].k == k && Made(msg, acts[i].level, acts[i].text)
    && forall j | i < j < n :: !(acts[j].BeginPush? && acts[j].k == k)
  }

  lemma {:induction false} PushOf(states: seq<State>, acts: seq<Action>, n: nat, k: nat) returns (i: nat)
    requires Run(states, acts) && n <= |acts| && k in states[n].producers && !states[n].producers[k].Away?
    ensures BegunAt(acts, i, n, k, states[n].producers[k].msg)
    decreases n
  {
    assert n > 0;
    assert StepAt(states, acts, n - 1);
    if acts[n - 1].BeginPush? && acts[n - 1].k == k {
      i := n - 1;
    } else {
      StepKeepsMessage(states[n - 1], acts[n - 1], k);
      i := PushOf(states, acts, n - 1, k);
    }
  }

  lemma StepKeepsMessage(s: State, a: Action, k: nat)
    requires Enabled(s, a) && !(a.BeginPush? && a.k == k)
    requires k in Apply(s, a).0.producers && !Apply(s, a).0.producers[k].Away?
    ensures k in s.producers && !s.producers[k].Away? && s.producers[k].msg == Apply(s, a).0.producers[k].msg
  {
  }

  /** What is accepted is what the call of that producer asked for. */
  lemma AcceptedIsArgument(states: seq<State>, acts: seq<Action>, n: nat) returns (i: nat)
    requires Run(states, acts) && n < |acts| && LabelAt(states, acts, n).Accepted?
    ensures acts[n].ProducerMoves? && BegunAt(acts, i, n, acts[n].k, LabelAt(states, acts, n).msg)
  {
    assert StepAt(states, acts, n);
    AcceptedHolds(states[n], acts[n]);
    i := PushOf(states, acts, n, acts[n].k);
  }

  lemma AcceptedHolds(s: State, a: Action)
    requires Enabled(s, a) && Apply(s, a).1.Accepted?
    ensures a.ProducerMoves? && !s.producers[a.k].Away? && Apply(s, a).1.msg == s.producers[a.k].msg
  {
  }

  /** Every accepted message is that of a call. */
  lemma {:induction false} AcceptedFrom(states: seq<State>, acts: seq<Action>, n: nat, j: nat) returns (i: nat)
    requires Run(states, acts) && n <= |acts| && j < |AcceptedIn(states, acts, n)|
    ensures i < n && acts[i].BeginPush? && Made(AcceptedIn(states, acts, n)[j], acts[i].level, acts[i].text)
    decreases n
  {
    if j < |AcceptedIn(states, acts, n - 1)| {
      i := AcceptedFrom(states, acts, n - 1, j);
    } else {
      i := AcceptedIsArgument(states, acts, n - 1);
    }
  }

  /** With two slots or more every line written is what some call asked for: its level, and its text up to 240
      characters. */
  lemma WrittenFrom(states: seq<State>, acts: seq<Action>, n: nat, j: nat) returns (i: nat)
    requires Run(states, acts) && n <= |acts| && Capacity(states[0]) >= 2 && j < |WrittenIn(states, acts, n)|
    ensures i < n && acts[i].BeginPush? && Made(WrittenIn(states, acts, n)[j], acts[i].level, acts[i].text)
  {
    WrittenIsPrefixOfAccepted(states, acts, n);
    i := AcceptedFrom(states, acts, n, j);
  }

  /** A push goes round once more only because another took its position, or because the exchange failed for no
      reason. */
  lemma RetryHasReason(s: State, a: Action, k: nat)
    requires Inv(s) && Enabled(s, a) && k in s.producers && s.producers[k].SeqLoaded? && Apply(s, a).0.producers[k].Trying?
    ensures s.enq > s.producers[k].pos || a == PushCasFails(k)
  {
    assert ProducerOk(s, k, s.producers[k]);
  }

  /** What may fail for no reason is the exchange that takes a position, and nothing else. */
  lemma FailsInstead(s: State, k: nat)
    requires Enabled(s, ProducerMoves(k)) && s.producers[k].SeqLoaded?
    ensures ProducerStep(s, k).1.Accepted? ==> Enabled(s, PushCasFails(k))
    ensures Enabled(s, PushCasFails(k)) && s.enq == s.producers[k].pos ==> ProducerStep(s, k).1.Accepted?
  {
  }

  lemma PopFailsInstead(s: State)
    requires Enabled(s, DrainMoves)
    ensures DrainStep(s).0.deq > s.deq ==> Enabled(s, PopCasFails)
    ensures Enabled(s, PopCasFails) && s.deq == s.drain.pos ==> DrainStep(s).0.deq == s.deq + 1
  {
  }

  // --- An undisturbed push ---

  predicate PushGoes(s: State, k: nat) {
    && k in s.producers
    && match s.producers[k]
       case Away => false
       case PosLoaded(_, pos) => pos == s.enq
       case SeqLoaded(_, pos, sq, full) => pos == s.enq && (if s.enq - s.released < Capacity(s) then sq == pos else sq < pos)
       case _ => true
  }

  function PushLeft(pr: Producer): nat {
    match pr
    case Trying(_) => 5
    case PosLoaded(_, _) => 4
    case SeqLoaded(_, _, _, _) => 3
    case Claimed(_, _) => 2
    case Filled(_, _) => 1
    case Away => 0
  }

  predicate Claims(pr: Producer) {
    pr.Claimed? || pr.Filled?
  }

  /** How the counts stand once the push is through. */
  ghost predicate PushedTo(s: State, k: nat, t: State)
    requires k in s.producers && !s.producers[k].Away?
  {
    && t.producers == s.producers[k := Away] && t.drain == s.drain && t.released == s.released && t.deq == s.deq
    && t.drained == s.drained && Capacity(t) == Capacity(s)
    && if Claims(s.producers[k]) then t.accepted == s.accepted && t.dropped == s.dropped && t.writing == s.writing - {s.producers[k].pos}
       else if s.enq - s.released < Capacity(s) then
         t.accepted == s.accepted + [s.producers[k].msg] && t.dropped == s.dropped && t.writing == s.writing
       else t.accepted == s.accepted && t.dropped == s.dropped + 1 && t.writing == s.writing
  }

  lemma NotTakenYet(s: State)
    requires Inv(s)
    ensures s.enq !in s.writing
  {
    assert forall p | p in s.writing :: WriterOk(s, p);
  }

  lemma PushStepGoesOn(s: State, k: nat)
    requires Inv(s) && PushGoes(s, k)
    ensures var t := ProducerStep(s, k).0;
      && Inv(t) && k in t.producers && PushLeft(t.producers[k]) < PushLeft(s.producers[k])
      && if t.producers[k].Away? then PushedTo(s, k, t) else PushGoes(t, k)
  {
    ProducerInv(s, k);
    assert ProducerOk(s, k, s.producers[k]);
    if s.producers[k].PosLoaded? { SequenceRead(s, s.enq); HeadReady(s); }
  }

  /** At the head the sequence is the position exactly if the queue is not full. */
  lemma HeadReady(s: State)
    requires Inv(s)
    ensures s.slots[At(s, s.enq)].seq_ == s.enq <==> s.enq - s.released < Capacity(s)
  {
    HeadSlot(s);
  }

  /** What comes of the rest of a push comes of the push. */
  lemma PushedFromNext(s: State, k: nat, u: State)
    requires Inv(s) && PushGoes(s, k) && k in ProducerStep(s, k).0.producers && !ProducerStep(s, k).0.producers[k].Away?
    requires PushedTo(ProducerStep(s, k).0, k, u)
    ensures PushedTo(s, k, u)
  {
    var t := ProducerStep(s, k).0;
    NotTakenYet(s);
    assert s.producers[k := t.producers[k]][k := Away] == s.producers[k := Away];
    if s.producers[k].SeqLoaded? { assert s.writing[s.enq := k] - {s.enq} == s.writing; }
  }

  lemma {:induction false} FinishPush(s: State, k: nat) returns (acts: seq<Action>, t: State)
    requires Inv(s) && PushGoes(s, k)
    ensures Leads(s, acts, t) && (forall i | 0 <= i < |acts| :: acts[i] == ProducerMoves(k)) && |acts| <= PushLeft(s.producers[k])
    ensures Inv(t) && PushedTo(s, k, t)
    decreases PushLeft(s.producers[k])
  {
    PushStepGoesOn(s, k);
    var s' := ProducerStep(s, k).0;
    if s'.producers[k].Away? {
      acts, t := [], s';
    } else {
      acts, t := FinishPush(s', k);
      PushedFromNext(s, k, t);
    }
    assert ([ProducerMoves(k)] + acts)[1..] == acts;
    acts := [ProducerMoves(k)] + acts;
  }

  /** A push that nobody disturbs, from any state of the others: it is accepted if and only if the queue is not full, as
      the message of its arguments; a refused one is counted. */
  lemma PushAlone(s: State, k: nat, level: nat, text: string) returns (acts: seq<Action>, t: State, msg: Message)
    requires Inv(s) && Enabled(s, BeginPush(k, level, text))
    ensures Leads(s, [BeginPush(k, level, text)] + acts, t) && |acts| <= 5 && forall i | 0 <= i < |acts| :: acts[i] == ProducerMoves(k)
    ensures Inv(t) && Made(msg, level, text) && t.producers == s.producers && t.writing == s.writing
    ensures s.enq - s.released < Capacity(s) ==> t.accepted == s.accepted + [msg] && t.dropped == s.dropped
    ensures s.enq - s.released >= Capacity(s) ==> t.accepted == s.accepted && t.dropped == s.dropped + 1
  {
    var s' := Apply(s, BeginPush(k, level, text)).0;
    ActionInv(s, BeginPush(k, level, text));
    acts, t := FinishPush(s', k);
    msg := s'.producers[k].msg;
    assert ([BeginPush(k, level, text)] + acts)[1..] == acts;
    assert s'.producers[k := Away] == s.producers;
  }

  // --- Every push ends ---

  /** The steps a push still takes at most if nobody takes a position from it. */
  function Left(enq: int, pr: Producer): (n: nat)
    ensures n <= 7 && (n == 0 <==> pr.Away?)
  {
    match pr
    case Trying(_) => 5
    case PosLoaded(_, pos) => if pos == enq then 4 else 7
    case SeqLoaded(_, pos, _, _) => if pos == enq then 3 else 6
    case Claimed(_, _) => 2
    case Filled(_, _) => 1
    case Away => 0
  }

  ghost function LeftOf(s: State, k: nat): nat {
    if k in s.producers then Left(s.enq, s.producers[k]) else 0
  }

  /** Every step of a push brings it nearer to its end. */
  lemma PushGetsOn(s: State, k: nat)
    requires Inv(s) && Enabled(s, ProducerMoves(k))
    ensures k in ProducerStep(s, k).0.producers && LeftOf(ProducerStep(s, k).0, k) < LeftOf(s, k)
  {
    assert ProducerOk(s, k, s.producers[k]);
  }

  /** Whether step `a` may make the push of `k` longer: another takes a position, or its own exchange fails. */
  predicate Delays(s: State, a: Action, k: nat)
    requires Enabled(s, a)
  {
    a == PushCasFails(k) || Apply(s, a).0.enq != s.enq
  }

  /** Nobody else puts it back in any other way, and by no more than three steps. */
  lemma OthersDelay(s: State, a: Action, k: nat)
    requires Enabled(s, a) && k in s.producers && !s.producers[k].Away? && a != ProducerMoves(k)
    ensures k in Apply(s, a).0.producers
    ensures LeftOf(Apply(s, a).0, k) <= LeftOf(s, k) + (if Delays(s, a, k) then 3 else 0)
  {
  }

  ghost function Own(acts: seq<Action>, k: nat, m: nat, n: nat): nat
    requires m <= n <= |acts|
  {
    if m == n then 0 else Own(acts, k, m, n - 1) + (if acts[n - 1] == ProducerMoves(k) then 1 else 0)
  }

  ghost predicate DelayedAt(states: seq<State>, acts: seq<Action>, k: nat, i: int) {
    && 0 <= i < |acts| < |states|
    && acts[i] != ProducerMoves(k) && (acts[i] == PushCasFails(k) || states[i + 1].enq != states[i].enq)
  }

  /** How often another takes a position, or an exchange of `k` fails for no reason. */
  ghost function Delayed(states: seq<State>, acts: seq<Action>, k: nat, m: nat, n: nat): nat
    requires m <= n <= |acts| < |states|
  {
    if m == n then 0 else Delayed(states, acts, k, m, n - 1) + (if DelayedAt(states, acts, k, n - 1) then 1 else 0)
  }

  ghost predicate InPush(states: seq<State>, k: nat, i: int) {
    0 <= i < |states| && k in states[i].producers && !states[i].producers[k].Away?
  }

  lemma StepUsed(states: seq<State>, acts: seq<Action>, k: nat, i: nat)
    requires Run(states, acts) && Capacity(states[0]) >= 2 && i < |acts| && InPush(states, k, i)
    ensures LeftOf(states[i + 1], k) + (if acts[i] == ProducerMoves(k) then 1 else 0)
         <= LeftOf(states[i], k) + (if DelayedAt(states, acts, k, i) then 3 else 0)
  {
    RunInv(states, acts, i);
    assert StepAt(states, acts, i);
    if acts[i] == ProducerMoves(k) { PushGetsOn(states[i], k); } else { OthersDelay(states[i], acts[i], k); }
  }

  lemma {:induction false} StepsUsed(states: seq<State>, acts: seq<Action>, k: nat, m: nat, n: nat)
    requires Run(states, acts) && Capacity(states[0]) >= 2 && m <= n <= |acts|
    requires forall i {:trigger InPush(states, k, i)} | m <= i < n :: InPush(states, k, i)
    ensures LeftOf(states[n], k) + Own(acts, k, m, n) <= LeftOf(states[m], k) + 3 * Delayed(states, acts, k, m, n)
    decreases n
  {
    if m < n {
      StepsUsed(states, acts, k, m, n - 1);
      assert InPush(states, k, n - 1);
      StepUsed(states, acts, k, n - 1);
    }
  }

  /** With two slots or more, in every interleaving: a push takes five steps of its own at most, and three more for every position that another takes
      and every exchange that fails for no reason: the queue as a whole gets on. */
  lemma PushIsBounded(states: seq<State>, acts: seq<Action>, k: nat, m: nat, n: nat)
    requires Run(states, acts) && Capacity(states[0]) >= 2 && m < n <= |acts| && acts[m].BeginPush? && acts[m].k == k
    requires forall i {:trigger InPush(states, k, i)} | m < i < n :: InPush(states, k, i)
    ensures Own(acts, k, m + 1, n) <= 5 + 3 * Delayed(states, acts, k, m + 1, n)
  {
    StepsUsed(states, acts, k, m + 1, n);
    assert StepAt(states, acts, m);
  }
}
