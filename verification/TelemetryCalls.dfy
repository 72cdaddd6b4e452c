/** What a telemetry push does with its event, and how long a drain takes. */
module TelemetryCalls {
  import SpscRing
  import opened Telemetry
  import opened Words

  // --- Arguments, in every interleaving ---

  /** The event is the argument of a call, its text cut after 96 characters. */
  predicate Made(ev: Event, arg: Event) {
    ev.step == arg.step && ev.worker == arg.worker && ev.text <= arg.text && |ev.text| == Min(|arg.text|, 96)
  }

  ghost predicate BegunAt(acts: seq<Action>, i: nat, n: nat, k: nat) {
    && i < n <= |acts| && acts[i].StartPush? && acts[i].k == k && forall j | i < j < n :: !(acts[j].StartPush? && acts[j].k == k)
  }

  /** The push of shard `k` that is under way at step `n` began at step `i`, with the read index loaded there. */
  lemma {:induction false} PushOf(states: seq<State>, acts: seq<Action>, n: nat, k: nat) returns (i: nat)
    requires Run(states, acts) && n <= |acts| && k < |states[n].pushers| && !states[n].pushers[k].Idle?
    ensures BegunAt(acts, i, n, k)
    ensures states[n].pushers[k].Loaded? ==> states[n].pushers[k].ev == acts[i].ev
    ensures states[n].pushers[k].Stored? ==> Made(states[n].pushers[k].ev, acts[i].ev)
    decreases n
  {
    assert n > 0;
    assert StepAt(states, acts, n - 1);
    if acts[n - 1].StartPush? && acts[n - 1].k == k {
      i := n - 1;
    } else {
      StepKeepsEvent(states[n - 1], acts[n - 1], k);
      i := PushOf(states, acts, n - 1, k);
    }
  }

  lemma StepKeepsEvent(s: State, a: Action, k: nat)
    requires Enabled(s, a) && !(a.StartPush? && a.k == k)
    requires k < |Apply(s, a).0.pushers| && !Apply(s, a).0.pushers[k].Idle?
    ensures k < |s.pushers| && !s.pushers[k].Idle?
    ensures var p, q := s.pushers[k], Apply(s, a).0.pushers[k]; q == p || (p.Loaded? && q.Stored? && Made(q.ev, p.ev))
  {
  }

  /** What is pushed is the argument of the call on that shard. */
  lemma PushedIsArgument(states: seq<State>, acts: seq<Action>, n: nat) returns (i: nat)
    requires Run(states, acts) && n < |acts| && LabelAt(states, acts, n).Pushed?
    ensures acts[n].PushMoves? && LabelAt(states, acts, n).line.shard == acts[n].k
    ensures BegunAt(acts, i, n, acts[n].k) && Made(LabelAt(states, acts, n).line.ev, acts[i].ev)
  {
    assert StepAt(states, acts, n);
    i := PushOf(states, acts, n, acts[n].k);
  }

  lemma {:induction false} PushedFrom(states: seq<State>, acts: seq<Action>, n: nat, k: nat, j: nat) returns (i: nat)
    requires Run(states, acts) && n <= |acts| && j < |PushedIn(states, acts, n, k)|
    ensures i < n && acts[i].StartPush? && acts[i].k == k && Made(PushedIn(states, acts, n, k)[j], acts[i].ev)
    decreases n
  {
    var before, l := PushedIn(states, acts, n - 1, k), LabelAt(states, acts, n - 1);
    assert PushedIn(states, acts, n, k) == before + PushedOf(l, k);
    if j < |before| {
      i := PushedFrom(states, acts, n - 1, k, j);
    } else {
      assert l.Pushed? && l.line.shard == k;
      i := PushedIsArgument(states, acts, n - 1);
    }
  }

  /** So every line written for a shard is the event of a push to it. */
  lemma LineFrom(states: seq<State>, acts: seq<Action>, n: nat, k: nat, j: nat) returns (i: nat)
    requires Run(states, acts) && n <= |acts| && k < |states[0].rings| && j < |Of(WrittenIn(states, acts, n), k)|
    ensures i < n && acts[i].StartPush? && acts[i].k == k && Made(Of(WrittenIn(states, acts, n), k)[j], acts[i].ev)
  {
    LinesArePrefixes(states, acts, n, k);
    i := PushedFrom(states, acts, n, k, j);
  }

  // --- A push takes two steps ---

  /** A push is refused exactly if the ring was full when its read index was loaded, and takes two steps otherwise. */
  lemma PushDecides(s: State, k: nat)
    requires Inv(s) && k < |s.rings| && s.pushers[k].Loaded?
    ensures Shape(s)
    ensures var t, l := PushStep(s, k).0, PushStep(s, k).1;
      if |s.rings[k].produced| == s.pushers[k].seen + |s.rings[k].buf|
      then l == Refused(true) && t.pushers[k].Idle? && t.dropped == s.dropped + 1 && t.rings == s.rings
      else l == Quiet && t.pushers[k].Stored? && Made(t.pushers[k].ev, s.pushers[k].ev) && t.dropped == s.dropped
           && |t.rings| == |s.rings| && t.rings[k].produced == s.rings[k].produced
  {
    ShapeOf(s);
    assert ShardOk(s, k);
    SpscRing.WrappedDifference(|s.rings[k].produced|, s.pushers[k].seen, s.rings[k].modulus);
  }

  lemma PushPublishes(s: State, k: nat)
    requires Inv(s) && k < |s.rings| && s.pushers[k].Stored?
    ensures Shape(s)
    ensures var t, l := PushStep(s, k).0, PushStep(s, k).1;
      && l == Pushed(Line(k, s.pushers[k].ev)) && t.pushers[k].Idle? && t.dropped == s.dropped
      && |t.rings| == |s.rings| && t.rings[k].produced == s.rings[k].produced + [s.pushers[k].ev]
  {
    ShapeOf(s);
  }

  /** While there is more to come lines are written out sixteen at a time, and at the end of a drain those left over. */
  lemma FlushIsBatch(s: State, a: Action)
    requires Inv(s) && Enabled(s, a) && Apply(s, a).1.Flushed?
    ensures a.DrainMoves? && Apply(s, a).0.batch == []
    ensures if Apply(s, a).0.drain.Resting? then |Apply(s, a).1.lines| < 16 else |Apply(s, a).1.lines| == 16
  {
  }

  // --- A drain ends ---

  /** Twice the room of the shards from `i` on, and two steps for each. */
  ghost function Ahead(rings: seq<SpscRing.Ring<Event>>, i: nat): nat
    decreases |rings| - i
  {
    if i >= |rings| then 0 else 2 * |rings[i].buf| + 2 + Ahead(rings, i + 1)
  }

  /** A bound on the steps the drain thread still has to take. */
  ghost function DrainLeft(s: State): int {
    match s.drain
    case Resting => 0
    case AtShard(i) => Ahead(s.rings, i) + 1
    case Emptying(i, _, _, snap) =>
      (if i < |s.rings| then 2 * (snap - s.rings[i].consumed) else 0) + 1 + Ahead(s.rings, i + 1) + 1
    case Copied(i, _, _, snap) =>
      (if i < |s.rings| then 2 * (snap - s.rings[i].consumed) else 0) + Ahead(s.rings, i + 1) + 1
  }

  lemma {:induction false} AheadSame(a: seq<SpscRing.Ring<Event>>, b: seq<SpscRing.Ring<Event>>, i: nat)
    requires |a| == |b| && forall j | 0 <= j < |a| :: |a[j].buf| == |b[j].buf|
    ensures Ahead(a, i) == Ahead(b, i)
    decreases |a| - i
  {
    if i < |a| { AheadSame(a, b, i + 1); }
  }

  lemma SameRoom(s: State, a: Action)
    requires Enabled(s, a)
    ensures var t := Apply(s, a).0; |t.rings| == |s.rings| && forall j | 0 <= j < |s.rings| :: |t.rings[j].buf| == |s.rings[j].buf|
  {
  }

  /** Every step of the drain thread brings it nearer to its end. */
  lemma DrainGetsOn(s: State)
    requires Inv(s) && !s.drain.Resting?
    ensures Enabled(s, DrainMoves)
    ensures 0 <= DrainLeft(DrainStep(s).0) < DrainLeft(s)
  {
    ShapeOf(s);
    var t := DrainStep(s).0;
    SameRoom(s, DrainMoves);
    AheadSame(s.rings, t.rings, s.drain.i + 1);
    if s.drain.i < |s.rings| { assert ShardOk(s, s.drain.i); }
    if s.drain.Emptying? && s.drain.r != s.drain.w { CopiesNext(s); SnapAhead(s); }
  }

  /** The read index differs from the loaded write index only while events of the snapshot are left. */
  lemma SnapAhead(s: State)
    requires Inv(s) && s.drain.Emptying? && s.drain.r != s.drain.w
    ensures s.drain.i < |s.rings| && s.rings[s.drain.i].consumed < s.drain.snap
  {
    assert ShardOk(s, s.drain.i);
  }

  /** And nobody else takes it further away. */
  lemma OthersLeaveDrain(s: State, a: Action)
    requires Inv(s) && Enabled(s, a) && !s.drain.Resting? && !a.DrainMoves?
    ensures DrainLeft(Apply(s, a).0) == DrainLeft(s)
  {
    var t := Apply(s, a).0;
    SameRoom(s, a);
    AheadSame(s.rings, t.rings, s.drain.i);
    AheadSame(s.rings, t.rings, s.drain.i + 1);
    SameConsumed(s, a);
  }

  lemma SameConsumed(s: State, a: Action)
    requires Enabled(s, a) && !a.DrainMoves? && !a.BeginDrain?
    ensures var t := Apply(s, a).0;
      t.drain == s.drain && |t.rings| == |s.rings| && forall j | 0 <= j < |s.rings| :: t.rings[j].consumed == s.rings[j].consumed
  {
  }

  ghost function Moves(acts: seq<Action>, m: nat, n: nat): nat
    requires m <= n <= |acts|
  {
    if m == n then 0 else Moves(acts, m, n - 1) + (if acts[n - 1].DrainMoves? then 1 else 0)
  }

  lemma {:induction false} StepsUsed(states: seq<State>, acts: seq<Action>, m: nat, n: nat)
    requires Run(states, acts) && m <= n <= |acts| && forall i | m <= i < n :: !states[i].drain.Resting?
    ensures DrainLeft(states[n]) + Moves(acts, m, n) <= DrainLeft(states[m])
    decreases n
  {
    if m < n {
      StepsUsed(states, acts, m, n - 1);
      StepCounts(states, acts, n - 1);
    }
  }

  lemma StepCounts(states: seq<State>, acts: seq<Action>, i: nat)
    requires Run(states, acts) && i < |acts| && !states[i].drain.Resting?
    ensures DrainLeft(states[i + 1]) <= DrainLeft(states[i]) - (if acts[i].DrainMoves? then 1 else 0)
  {
    RunInv(states, acts, i);
    assert StepAt(states, acts, i);
    if acts[i].DrainMoves? { DrainGetsOn(states[i]); } else { OthersLeaveDrain(states[i], acts[i]); }
  }

  /** A drain ends after a bounded number of the drain thread's own steps, whatever the producers do: two for every slot
      of every shard, two for every shard, and one. */
  lemma DrainIsBounded(states: seq<State>, acts: seq<Action>, m: nat, n: nat)
    requires Run(states, acts) && m < n <= |acts|
    requires acts[m].BeginDrain? && forall i | m < i <= n :: !states[i].drain.Resting?
    ensures Moves(acts, m + 1, n) <= Ahead(states[m].rings, 0)
  {
    StepsUsed(states, acts, m + 1, n);
    assert StepAt(states, acts, m);
    RunInv(states, acts, n);
    DrainGetsOn(states[n]);
    AheadSame(states[m].rings, states[m + 1].rings, 0);
  }

  // --- An undisturbed drain ---

  /** `n` steps of the drain thread lead to `t`. */
  ghost predicate DrainsTo(s: State, n: nat, t: State)
    decreases n
  {
    if n == 0 then t == s else Enabled(s, DrainMoves) && DrainsTo(DrainStep(s).0, n - 1, t)
  }

  /** Nothing is pushed between the two. */
  ghost predicate SamePushed(s: State, t: State) {
    && |t.rings| == |s.rings| && t.pushers == s.pushers && t.dropped == s.dropped
    && forall j | 0 <= j < |s.rings| :: t.rings[j].produced == s.rings[j].produced
  }

  lemma DrainPushesNothing(s: State)
    requires Inv(s) && !s.drain.Resting?
    ensures Enabled(s, DrainMoves) && SamePushed(s, DrainStep(s).0) && Inv(DrainStep(s).0)
    ensures DrainStep(s).0.begun == s.begun && (DrainStep(s).0.drain.Resting? <==> Ends(s, DrainMoves))
  {
    DrainGetsOn(s);
    ActionInv(s, DrainMoves);
  }

  lemma {:induction false} FinishDrain(s: State) returns (n: nat, t: State)
    requires Inv(s) && !s.drain.Resting?
    ensures DrainsTo(s, n, t) && Inv(t) && t.drain.Resting? && t.batch == [] && SamePushed(s, t)
    ensures forall k: nat | k < |s.rings| && k < |s.begun| :: s.begun[k] <= |Of(t.flushed, k)|
    decreases DrainLeft(s)
  {
    DrainPushesNothing(s);
    DrainGetsOn(s);
    var s' := DrainStep(s).0;
    if s'.drain.Resting? {
      n, t := 1, s';
      assert DrainsTo(s', 0, t);
      forall k: nat | k < |s.rings| && k < |s.begun| ensures s.begun[k] <= |Of(t.flushed, k)| { DrainEnds(s, DrainMoves, k); }
      assert t.batch == [];
    } else {
      n, t := FinishDrain(s');
      n := n + 1;
    }
  }

  /** A drain that no push disturbs writes out every event there is, shard by shard in order. */
  lemma DrainAlone(s: State) returns (n: nat, t: State)
    requires Inv(s) && s.drain.Resting?
    ensures Enabled(s, BeginDrain) && DrainsTo(Apply(s, BeginDrain).0, n, t) && t.drain.Resting? && t.batch == []
    ensures SamePushed(s, t) && forall k: nat | k < |s.rings| :: Of(t.flushed, k) == s.rings[k].produced
  {
    BeginInv(s);
    var s' := Apply(s, BeginDrain).0;
    n, t := FinishDrain(s');
    forall k: nat | k < |s.rings| ensures Of(t.flushed, k) == s.rings[k].produced {
      WrittenOfShard(t, k);
      assert s'.begun[k] == |s.rings[k].produced|;
    }
  }
}
