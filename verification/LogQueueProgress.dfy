/** What a pass of the drain thread achieves: with two slots or more it always ends, and writes what was ready. */
module LogQueueProgress {
  import opened LogQueue
  import opened Words

  /** The positions from the tail up to `goal` hold filled slots. */
  ghost predicate ReadyUpTo(s: State, goal: int) {
    goal <= s.enq && forall p | s.deq <= p < goal :: p !in s.writing
  }

  /** A pass under way cannot stop before `goal`. */
  ghost predicate Bound(s: State, goal: int) {
    && ReadyUpTo(s, goal) && goal - s.released <= BATCH
    && match s.drain
       case Popping => true
       case PopPosLoaded(_) => true
       case PopSeqLoaded(pos, sq) => pos < goal ==> sq == pos + 1
       case _ => goal <= s.deq
  }

  lemma BoundStep(s: State, a: Action, goal: int)
    requires Inv(s) && Enabled(s, a) && Bound(s, goal)
    ensures Bound(Apply(s, a).0, goal)
  {
    match a
    case DrainMoves => BoundDrainStep(s, goal);
    case ProducerMoves(k) =>
      ProducersLeaveDrain(s, k);
      ReadyStaysReady(s, k, goal);
    case _ =>
  }

  lemma BoundDrainStep(s: State, goal: int)
    requires Inv(s) && !s.drain.Resting? && Bound(s, goal)
    ensures Bound(DrainStep(s).0, goal)
  {
    if s.drain.PopPosLoaded? { TailRead(s); }
  }

  lemma ProducersLeaveDrain(s: State, k: nat)
    requires Capacity(s) > 0 && k in s.producers && !s.producers[k].Away?
    ensures var t := ProducerStep(s, k).0;
      t.drain == s.drain && t.deq == s.deq && t.released == s.released && t.drained == s.drained
  {
  }

  lemma ReadyStaysReady(s: State, k: nat, goal: int)
    requires Inv(s) && k in s.producers && !s.producers[k].Away? && ReadyUpTo(s, goal)
    ensures ReadyUpTo(ProducerStep(s, k).0, goal)
  {
  }

  lemma {:induction false} StaysBound(states: seq<State>, acts: seq<Action>, goal: int, m: nat, n: nat)
    requires Run(states, acts) && m <= n <= |acts| && Capacity(states[0]) >= 2 && Bound(states[m], goal)
    ensures Bound(states[n], goal)
    decreases n
  {
    if m < n {
      StaysBound(states, acts, goal, m, n - 1);
      RunInv(states, acts, n - 1);
      assert StepAt(states, acts, n - 1);
      BoundStep(states[n - 1], acts[n - 1], goal);
    }
  }

  lemma {:induction false} AcceptedGrows(states: seq<State>, acts: seq<Action>, m: nat, n: nat)
    requires Run(states, acts) && m <= n <= |acts|
    ensures states[m].accepted <= states[n].accepted
    decreases n
  {
    if m < n {
      AcceptedGrows(states, acts, m, n - 1);
      assert StepAt(states, acts, n - 1);
      Recorded(states[n - 1], acts[n - 1]);
    }
  }

  /** Whatever the producers do meanwhile, a pass that has come to its end has written all the messages that were
      ready when it began, up to a batch of them. */
  lemma PassWritesReady(states: seq<State>, acts: seq<Action>, m: nat, n: nat, goal: nat)
    requires Run(states, acts) && m < n <= |acts| && Capacity(states[0]) >= 2
    requires acts[m].BeginDrain? && states[n].drain.Resting?
    requires ReadyUpTo(states[m], goal) && goal <= states[m].deq + 32
    ensures goal <= |AcceptedIn(states, acts, m)|
    ensures AcceptedIn(states, acts, m)[..goal] <= WrittenIn(states, acts, n)
  {
    RunInv(states, acts, m);
    RunInv(states, acts, n);
    assert StepAt(states, acts, m);
    StaysBound(states, acts, goal, m + 1, n);
    AcceptedGrows(states, acts, m, n);
    History(states, acts, m);
    History(states, acts, n);
  }

  // --- How long a pass takes ---

  ghost predicate BatchOk(s: State) {
    && 0 <= s.deq - s.released <= BATCH
    && (s.drain.PopPosLoaded? || s.drain.PopSeqLoaded? ==> s.deq - s.released < BATCH)
    && (s.drain.PopSeqLoaded? ==> s.drain.seq_ <= s.deq + 1)
  }

  lemma BatchStep(s: State, a: Action)
    requires Inv(s) && Enabled(s, a) && BatchOk(s)
    ensures BatchOk(Apply(s, a).0)
  {
    if a.DrainMoves? && s.drain.PopPosLoaded? { TailRead(s); }
  }

  lemma {:induction false} RunBatch(states: seq<State>, acts: seq<Action>, n: nat)
    requires Run(states, acts) && n <= |acts| && Capacity(states[0]) >= 2
    ensures BatchOk(states[n])
  {
    if n > 0 {
      RunBatch(states, acts, n - 1);
      RunInv(states, acts, n - 1);
      assert StepAt(states, acts, n - 1);
      BatchStep(states[n - 1], acts[n - 1]);
    }
  }

  /** A bound on the steps the drain thread still has to take in this pass. */
  ghost function StepsLeft(s: State): int {
    var picked := s.deq - s.released;
    match s.drain
    case Resting => 0
    case Popping => 5 * (BATCH - picked) + 2 * picked + 5
    case PopPosLoaded(_) => 5 * (BATCH - picked) + 2 * picked + 4
    case PopSeqLoaded(_, _) => 5 * (BATCH - picked) + 2 * picked + 3
    case Writing => s.deq - |s.drained| + picked + 2
    case Releasing => picked + 1
  }

  lemma DrainStepCounts(s: State)
    requires Inv(s) && BatchOk(s) && !s.drain.Resting?
    ensures 0 <= StepsLeft(DrainStep(s).0) < StepsLeft(s)
  {
    if s.drain.PopPosLoaded? { TailRead(s); }
  }

  /** What an action adds to the steps left. */
  function Gain(a: Action): int {
    if a.DrainMoves? then -1 else if a.PopCasFails? then 2 else 0
  }

  lemma StepCounts(s: State, a: Action)
    requires Inv(s) && BatchOk(s) && Enabled(s, a) && !s.drain.Resting?
    ensures StepsLeft(Apply(s, a).0) <= StepsLeft(s) + Gain(a)
  {
    match a
    case DrainMoves => DrainStepCounts(s);
    case ProducerMoves(k) => ProducersLeaveDrain(s, k);
    case _ =>
  }

  lemma StepCountsAt(states: seq<State>, acts: seq<Action>, i: nat)
    requires Run(states, acts) && i < |acts| && Capacity(states[0]) >= 2 && !states[i].drain.Resting?
    ensures StepsLeft(states[i + 1]) <= StepsLeft(states[i]) + Gain(acts[i])
  {
    RunInv(states, acts, i);
    RunBatch(states, acts, i);
    assert StepAt(states, acts, i);
    StepCounts(states[i], acts[i]);
  }

  /** How often the drain thread moved, and how often its compare-exchange failed for no reason. */
  ghost function Moves(acts: seq<Action>, m: nat, n: nat): nat
    requires m <= n <= |acts|
  {
    if m == n then 0 else Moves(acts, m, n - 1) + (if acts[n - 1].DrainMoves? then 1 else 0)
  }

  ghost function Failures(acts: seq<Action>, m: nat, n: nat): nat
    requires m <= n <= |acts|
  {
    if m == n then 0 else Failures(acts, m, n - 1) + (if acts[n - 1].PopCasFails? then 1 else 0)
  }

  ghost predicate GainAt(left: seq<int>, acts: seq<Action>, i: nat) {
    i + 1 < |left| && i < |acts| && left[i + 1] <= left[i] + Gain(acts[i])
  }

  lemma {:induction false} GainsAddUp(left: seq<int>, acts: seq<Action>, m: nat, n: nat)
    requires m <= n <= |acts| && n < |left| && forall i: nat | m <= i < n :: GainAt(left, acts, i)
    ensures left[n] + Moves(acts, m, n) <= left[m] + 2 * Failures(acts, m, n)
    decreases n
  {
    if m < n {
      GainsAddUp(left, acts, m, n - 1);
      assert GainAt(left, acts, n - 1);
    }
  }

  lemma StepsUsed(states: seq<State>, acts: seq<Action>, m: nat, n: nat)
    requires Run(states, acts) && m <= n <= |acts| && Capacity(states[0]) >= 2
    requires forall i | m <= i < n :: !states[i].drain.Resting?
    ensures StepsLeft(states[n]) + Moves(acts, m, n) <= StepsLeft(states[m]) + 2 * Failures(acts, m, n)
  {
    var left := seq(|states|, i requires 0 <= i < |states| => StepsLeft(states[i]));
    forall i: nat | m <= i < n ensures GainAt(left, acts, i) { StepCountsAt(states, acts, i); }
    GainsAddUp(left, acts, m, n);
  }

  /** A pass ends after a bounded number of the drain thread's own steps, whatever the producers do: five for
      each message of a full batch and five more, and two for every failure of its compare-exchange. */
  lemma PassIsBounded(states: seq<State>, acts: seq<Action>, m: nat, n: nat)
    requires Run(states, acts) && m < n <= |acts| && Capacity(states[0]) >= 2
    requires acts[m].BeginDrain? && forall i | m < i <= n :: !states[i].drain.Resting?
    ensures Moves(acts, m + 1, n) < 165 + 2 * Failures(acts, m + 1, n)
  {
    StepsUsed(states, acts, m + 1, n);
    RunInv(states, acts, m);
    RunInv(states, acts, n);
    RunBatch(states, acts, n);
    DrainStepCounts(states[n]);
    assert StepAt(states, acts, m);
  }

  // --- A pass by itself ---

  /** The filled slots end at `limit`, and this pass, begun with the tail at `base`, takes no more than a batch. */
  ghost predicate Limited(s: State, base: int, limit: int) {
    && s.deq <= limit && (limit == s.enq || limit in s.writing) && s.deq <= base + BATCH
    && (s.drain.Popping? || s.drain.PopPosLoaded? || s.drain.PopSeqLoaded? ==> s.released == base)
  }

  lemma LimitedStep(s: State, base: int, limit: int)
    requires Inv(s) && BatchOk(s) && !s.drain.Resting? && Limited(s, base, limit)
    ensures Limited(DrainStep(s).0, base, limit)
  {
  }

  lemma DrainLeavesProducers(s: State)
    requires Inv(s) && !s.drain.Resting?
    ensures var t := DrainStep(s).0;
      t.enq == s.enq && t.writing == s.writing && t.accepted == s.accepted && t.producers == s.producers
  {
  }

  /** The drain thread alone comes to rest. */
  lemma {:induction false} DrainAlone(s: State, base: int, goal: int, limit: int) returns (acts: seq<Action>, t: State)
    requires Inv(s) && BatchOk(s) && Bound(s, goal) && Limited(s, base, limit)
    ensures Leads(s, acts, t) && (forall i | 0 <= i < |acts| :: acts[i].DrainMoves?) && |acts| <= StepsLeft(s)
    ensures Inv(t) && t.drain.Resting? && goal <= t.deq <= limit && t.deq <= base + BATCH
    ensures t.enq == s.enq && t.writing == s.writing && t.accepted == s.accepted && t.producers == s.producers
    decreases StepsLeft(s)
  {
    if s.drain.Resting? {
      acts, t := [], s;
    } else {
      var s' := Apply(s, DrainMoves).0;
      DrainStepCounts(s);
      DrainInv(s);
      BatchStep(s, DrainMoves);
      BoundStep(s, DrainMoves, goal);
      LimitedStep(s, base, limit);
      DrainLeavesProducers(s);
      var rest;
      rest, t := DrainAlone(s', base, goal, limit);
      acts := [DrainMoves] + rest;
      assert acts[1..] == rest;
    }
  }

  /** The pass of an undisturbed drain thread, from any state a run can reach: it writes the messages that are ready,
      up to a batch, gives their slots back, and rests again. */
  lemma DrainPass(states: seq<State>, acts: seq<Action>, n: nat, limit: int) returns (pass: seq<Action>, t: State)
    requires Run(states, acts) && n <= |acts| && Capacity(states[0]) >= 2 && states[n].drain.Resting?
    requires states[n].deq <= limit && ReadyUpTo(states[n], limit) && (limit == states[n].enq || limit in states[n].writing)
    ensures Leads(states[n], [BeginDrain] + pass, t) && (forall i | 0 <= i < |pass| :: pass[i].DrainMoves?)
    ensures |pass| <= 165
    ensures t.drain.Resting? && 0 <= t.released == t.deq == Min(limit, states[n].deq + 32) <= |t.accepted|
    ensures t.accepted == states[n].accepted && t.drained == t.accepted[..t.deq] && t.producers == states[n].producers
  {
    var s := states[n];
    RunInv(states, acts, n);
    RunBatch(states, acts, n);
    var s' := Apply(s, BeginDrain).0;
    ActionInv(s, BeginDrain);
    pass, t := DrainAlone(s', s.deq, Min(limit, s.deq + BATCH), limit);
    assert ([BeginDrain] + pass)[1..] == pass;
  }

  /** With no producer in the middle of a push the next batch is written. */
  lemma NextBatch(states: seq<State>, acts: seq<Action>, n: nat) returns (pass: seq<Action>, t: State)
    requires Run(states, acts) && n <= |acts| && Capacity(states[0]) >= 2 && states[n].drain.Resting?
    requires forall k | k in states[n].producers :: !states[n].producers[k].Claimed? && !states[n].producers[k].Filled?
    ensures Leads(states[n], [BeginDrain] + pass, t) && (forall i | 0 <= i < |pass| :: pass[i].DrainMoves?)
    ensures t.drain.Resting? && t.drained <= t.accepted == states[n].accepted
    ensures |t.drained| == |states[n].drained| + Min(32, states[n].enq - states[n].deq)
  {
    var s := states[n];
    RunInv(states, acts, n);
    assert forall p | p in s.writing :: WriterOk(s, p);
    pass, t := DrainPass(states, acts, n, s.enq);
  }
}
