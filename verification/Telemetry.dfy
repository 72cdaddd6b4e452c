/** Sharded telemetry: one ring to a shard, each with one producer, and one drain thread over all shards. */
module Telemetry {
  import opened SpscRing
  import opened Words

  const TEXT_MAX := 96
  const BATCH := 16

  datatype Event = Event(step: nat, worker: nat, text: string)

  datatype Pusher =
    | Idle
    | Loaded(ev: Event, r: int, seen: nat)    // both indices read
    | Stored(ev: Event)                       // slot written; write index not stored yet

  /** `start` and `snap` are history: the counters behind the indices that were loaded. */
  datatype Drain =
    | Resting
    | AtShard(i: nat)
    | Emptying(i: nat, r: int, w: int, snap: nat)
    | Copied(i: nat, r: int, w: int, snap: nat)   // line formatted; read index not stored yet

  datatype Line = Line(shard: nat, ev: Event)

  /** `begun` and `snaps` are history: what each shard had published when the drain began, and when it
      loaded the shard's write index. */
  datatype State = State(
    rings: seq<Ring<Event>>, pushers: seq<Pusher>, dropped: nat,
    drain: Drain, batch: seq<Line>, flushed: seq<Line>, begun: seq<nat>, snaps: seq<nat>)

  datatype Action = StartPush(k: nat, ev: Event) | PushMoves(k: nat) | BeginDrain | DrainMoves

  datatype Label = Quiet | Pushed(line: Line) | Refused(full: bool) | Flushed(lines: seq<Line>)

  function Clip(ev: Event): Event {
    if |ev.text| > TEXT_MAX then ev.(text := ev.text[..TEXT_MAX]) else ev
  }

  predicate Shape(s: State) {
    |s.pushers| == |s.rings| && forall k | 0 <= k < |s.rings| :: RingShape(s.rings[k])
  }

  predicate Enabled(s: State, a: Action) {
    && Shape(s)
    && match a
       case StartPush(k, _) => k < |s.rings| && s.pushers[k].Idle?
       case PushMoves(k) => k < |s.rings| && !s.pushers[k].Idle?
       case BeginDrain => s.drain.Resting?
       case DrainMoves => !s.drain.Resting? && (!s.drain.AtShard? ==> s.drain.i < |s.rings|)
  }

  function SetRing(s: State, k: nat, r: Ring<Event>, p: Pusher): State
    requires k < |s.rings| == |s.pushers|
  {
    s.(rings := s.rings[k := r], pushers := s.pushers[k := p])
  }

  /** `cpx_tlm_try_push`. */
  function PushStep(s: State, k: nat): (State, Label)
    requires Shape(s) && k < |s.rings| && !s.pushers[k].Idle?
  {
    var ring := s.rings[k];
    match s.pushers[k]
    case Loaded(ev, r, seen) =>
      if Sub(ring.writeIdx, r, ring.modulus) >= |ring.buf| then
        (s.(pushers := s.pushers[k := Idle], dropped := s.dropped + 1), Refused(|ring.produced| == seen + |ring.buf|))
      else (SetRing(s, k, Store(ring, ring.writeIdx % |ring.buf|, Clip(ev)), Stored(Clip(ev))), Quiet)
    case Stored(ev) =>
      (SetRing(s, k, ring.(writeIdx := (ring.writeIdx + 1) % ring.modulus, produced := ring.produced + [ev]), Idle),
       Pushed(Line(k, ev)))
  }

  function Flush(s: State): State {
    s.(flushed := s.flushed + s.batch, batch := [])
  }

  /** `cpx_tlm_drain_once`. */
  function DrainStep(s: State): (State, Label)
    requires Shape(s) && !s.drain.Resting? && (!s.drain.AtShard? ==> s.drain.i < |s.rings|)
  {
    match s.drain
    case AtShard(i) =>
      if i >= |s.rings| then (Flush(s).(drain := Resting), Flushed(s.batch))
      else
        var ring := s.rings[i];
        (s.(drain := Emptying(i, ring.readIdx, ring.writeIdx, |ring.produced|), snaps := s.snaps + [|ring.produced|]), Quiet)
    case Emptying(i, r, w, snap) =>
      if r != w && |s.batch| < BATCH then
        (s.(batch := s.batch + [Line(i, s.rings[i].buf[r % |s.rings[i].buf|])], drain := Copied(i, r, w, snap)), Quiet)
      else (s.(drain := AtShard(i + 1)), Quiet)
    case Copied(i, r, w, snap) =>
      var r' := (r + 1) % s.rings[i].modulus;
      var s' := SetRing(s, i, s.rings[i].(readIdx := r', consumed := s.rings[i].consumed + 1), s.pushers[i])
                .(drain := Emptying(i, r', w, snap));
      if |s.batch| >= BATCH then (Flush(s'), Flushed(s.batch)) else (s', Quiet)
  }

  function Apply(s: State, a: Action): (State, Label)
    requires Enabled(s, a)
  {
    match a
    case StartPush(k, ev) =>
      (s.(pushers := s.pushers[k := Loaded(ev, s.rings[k].readIdx, s.rings[k].consumed)]), Quiet)
    case PushMoves(k) => PushStep(s, k)
    case BeginDrain =>
      (s.(drain := AtShard(0), batch := [], snaps := [], begun := seq(|s.rings|, k requires 0 <= k < |s.rings| => |s.rings[k].produced|)),
       Quiet)
    case DrainMoves => DrainStep(s)
  }

  /** `cpx_tlm_init`. */
  predicate Initial(s: State) {
    && Shape(s) && s.dropped == 0 && s.drain.Resting? && s.batch == s.flushed == []
    && (forall k | 0 <= k < |s.pushers| :: s.pushers[k].Idle?)
    && forall k | 0 <= k < |s.rings| ::
         s.rings[k].modulus == WORD32 && s.rings[k].writeIdx == s.rings[k].readIdx == 0
         && s.rings[k].produced == [] && s.rings[k].consumed == 0
  }

  // --- Invariant ---

  /** The events of shard `k` among the lines. */
  function Of(lines: seq<Line>, k: nat): seq<Event> {
    if lines == [] then []
    else Of(lines[..|lines| - 1], k) + (if lines[|lines| - 1].shard == k then [lines[|lines| - 1].ev] else [])
  }

  ghost predicate PusherOk(r: Ring<Event>, p: Pusher) {
    match p
    case Idle => true
    case Loaded(ev, ri, seen) => Wraps(ri, seen, r.modulus) && seen <= r.consumed && |r.produced| <= seen + |r.buf|
    case Stored(ev) => |r.produced| < r.consumed + |r.buf| && |r.buf| > 0 && r.buf[|r.produced| % |r.buf|] == ev
  }

  /** How many events of shard `k` have been turned into lines. */
  function Taken(s: State, k: nat): nat
    requires k < |s.rings|
  {
    s.rings[k].consumed + (if s.drain.Copied? && s.drain.i == k then 1 else 0)
  }

  ghost predicate ShardOk(s: State, k: nat) {
    && k < |s.rings| && k < |s.pushers| && RingOk(s.rings[k]) && PusherOk(s.rings[k], s.pushers[k])
    && Taken(s, k) <= |s.rings[k].produced|
    && Of(s.flushed + s.batch, k) == s.rings[k].produced[..Taken(s, k)]
  }

  /** Shards the drain has been through are empty up to its snapshot, and the snapshot covers all that was
      there when it began. */
  ghost predicate PassedAt(s: State, j: nat) {
    && j < |s.rings| && j < |s.snaps| && j < |s.begun|
    && s.begun[j] <= s.snaps[j] && (!s.drain.Resting? && j < s.drain.i ==> s.rings[j].consumed == s.snaps[j])
  }

  ghost predicate DrainOk(s: State) {
    match s.drain
    case Resting => s.batch == []
    case AtShard(i) => |s.batch| < BATCH && i <= |s.rings| && |s.snaps| == i
    case Emptying(i, r, w, snap) => |s.batch| < BATCH && Visiting(s, i, r, w, snap) && s.rings[i].consumed <= snap
    case Copied(i, r, w, snap) => |s.batch| <= BATCH && Visiting(s, i, r, w, snap) && s.rings[i].consumed < snap
  }

  ghost predicate Visiting(s: State, i: nat, r: int, w: int, snap: nat) {
    && i < |s.rings| && |s.snaps| == i + 1 && s.snaps[i] == snap
    && Wraps(r, s.rings[i].consumed, s.rings[i].modulus) && Wraps(w, snap, s.rings[i].modulus)
    && snap <= |s.rings[i].produced|
  }

  ghost predicate Progress(s: State) {
    !s.drain.Resting? ==>
      && |s.begun| == |s.rings|
      && (forall j: nat | j < |s.rings| :: s.begun[j] <= |s.rings[j].produced|)
      && forall j: nat | j < |s.snaps| :: PassedAt(s, j)
  }

  ghost predicate Inv(s: State) {
    |s.rings| == |s.pushers| && (forall k: nat | k < |s.rings| :: ShardOk(s, k)) && DrainOk(s) && Progress(s)
  }

  lemma OfNext(lines: seq<Line>, l: Line, k: nat)
    ensures Of(lines + [l], k) == Of(lines, k) + (if l.shard == k then [l.ev] else [])
  {
    assert (lines + [l])[..|lines|] == lines;
  }

  lemma ShapeOf(s: State)
    requires Inv(s)
    ensures Shape(s)
  {
    forall k | 0 <= k < |s.rings| ensures RingShape(s.rings[k]) { assert ShardOk(s, k); }
  }

  // --- Producers ---

  /** A step of shard `k`'s producer that publishes nothing. */
  lemma PusherInv(s: State, k: nat, r: Ring<Event>, p: Pusher, dropped: nat)
    requires Inv(s) && k < |s.rings| && RingOk(r) && PusherOk(r, p)
    requires r.produced == s.rings[k].produced && r.consumed == s.rings[k].consumed
    requires r.modulus == s.rings[k].modulus && |r.buf| == |s.rings[k].buf|
    ensures Inv(SetRing(s, k, r, p).(dropped := dropped))
  {
    var s' := SetRing(s, k, r, p).(dropped := dropped);
    forall j: nat | j < |s'.rings| ensures ShardOk(s', j) { assert ShardOk(s, j); }
    if !s.drain.Resting? {
      forall j: nat | j < |s'.snaps| ensures PassedAt(s', j) { assert PassedAt(s, j); }
    }
  }

  lemma StoreEventInv(s: State, k: nat)
    requires Inv(s) && k < |s.rings| && s.pushers[k].Loaded?
    ensures Shape(s) && Inv(PushStep(s, k).0)
    ensures PushStep(s, k).1.Refused? ==> PushStep(s, k).1.full
  {
    var r, p := s.rings[k], s.pushers[k];
    ShapeOf(s);
    assert ShardOk(s, k);
    WrappedDifference(|r.produced|, p.seen, r.modulus);
    WrappedSlot(|r.produced|, r.modulus, |r.buf|);
    if |r.produced| - p.seen >= |r.buf| {
      PusherInv(s, k, r, Idle, s.dropped + 1);
      assert PushStep(s, k).0 == SetRing(s, k, r, Idle).(dropped := s.dropped + 1);
    } else {
      StoreOk(r, [Clip(p.ev)], 0, p.seen);
      var r' := Store(r, r.writeIdx % |r.buf|, Clip(p.ev));
      assert Filled(r', [Clip(p.ev)], 0);
      PusherInv(s, k, r', Stored(Clip(p.ev)), s.dropped);
      assert PushStep(s, k).0 == SetRing(s, k, r', Stored(Clip(p.ev))).(dropped := s.dropped);
    }
  }

  lemma PublishRing(r: Ring<Event>, ev: Event)
    requires RingOk(r) && PusherOk(r, Stored(ev))
    ensures RingOk(r.(writeIdx := (r.writeIdx + 1) % r.modulus, produced := r.produced + [ev]))
  {
    var r' := r.(writeIdx := (r.writeIdx + 1) % r.modulus, produced := r.produced + [ev]);
    WrappedSum(|r.produced|, 1, r.modulus);
    forall p: int | r'.consumed <= p < |r'.produced| ensures Unread(r', p) {
      if p < |r.produced| { assert Unread(r, p); }
    }
  }

  lemma PublishInv(s: State, k: nat)
    requires Inv(s) && k < |s.rings| && s.pushers[k].Stored?
    ensures Shape(s) && Inv(PushStep(s, k).0)
  {
    ShapeOf(s);
    assert ShardOk(s, k);
    PublishRing(s.rings[k], s.pushers[k].ev);
    var s' := PushStep(s, k).0;
    forall j: nat | j < |s'.rings| ensures ShardOk(s', j) {
      assert ShardOk(s, j);
      assert s'.rings[j].produced[..Taken(s, j)] == s.rings[j].produced[..Taken(s, j)];
    }
    if !s.drain.Resting? {
      forall j: nat | j < |s'.snaps| ensures PassedAt(s', j) { assert PassedAt(s, j); }
    }
  }

  // --- The drain ---

  lemma BeginInv(s: State)
    requires Inv(s) && s.drain.Resting?
    ensures Shape(s) && Inv(Apply(s, BeginDrain).0)
  {
    ShapeOf(s);
    var s' := Apply(s, BeginDrain).0;
    forall j: nat | j < |s'.rings| ensures ShardOk(s', j) { assert ShardOk(s, j); }
  }

  lemma EnterInv(s: State)
    requires Inv(s) && s.drain.AtShard?
    ensures Shape(s) && Inv(DrainStep(s).0)
  {
    ShapeOf(s);
    var s' := DrainStep(s).0;
    if s.drain.i < |s.rings| { assert ShardOk(s, s.drain.i); }
    if s.drain.i >= |s.rings| { assert (s.flushed + s.batch) + [] == s.flushed + s.batch; }
    forall j: nat | j < |s'.rings| ensures ShardOk(s', j) { assert ShardOk(s, j); }
    if !s'.drain.Resting? {
      forall j: nat | j < |s'.snaps| ensures PassedAt(s', j) {
        if j < |s.snaps| { assert PassedAt(s, j); }
      }
    }
  }

  /** Reading an event gives the one pushed at that place. */
  lemma CopiesNext(s: State)
    requires Inv(s) && s.drain.Emptying? && s.drain.r != s.drain.w
    ensures var i := s.drain.i;
      && i < |s.rings| && Shape(s) && s.rings[i].consumed < |s.rings[i].produced|
      && DrainStep(s).0 == s.(batch := s.batch + [Line(i, s.rings[i].produced[s.rings[i].consumed])],
                              drain := Copied(i, s.drain.r, s.drain.w, s.drain.snap))
  {
    ShapeOf(s);
    assert ShardOk(s, s.drain.i);
    var ring := s.rings[s.drain.i];
    WrappedSlot(ring.consumed, ring.modulus, |ring.buf|);
    assert Unread(ring, ring.consumed);
  }

  lemma CopiedShard(s: State, j: nat)
    requires Inv(s) && s.drain.Emptying? && s.drain.r != s.drain.w && j < |s.rings|
    ensures s.drain.i < |s.rings| && Shape(s) && ShardOk(DrainStep(s).0, j)
  {
    CopiesNext(s);
    var i, s' := s.drain.i, DrainStep(s).0;
    var l := Line(i, s.rings[i].produced[s.rings[i].consumed]);
    assert s'.flushed + s'.batch == (s.flushed + s.batch) + [l];
    assert ShardOk(s, j);
    OfNext(s.flushed + s.batch, l, j);
  }

  lemma CopyInv(s: State)
    requires Inv(s) && s.drain.Emptying? && s.drain.r != s.drain.w
    ensures s.drain.i < |s.rings| && Shape(s) && Inv(DrainStep(s).0)
  {
    CopiesNext(s);
    var s' := DrainStep(s).0;
    forall j: nat | j < |s'.rings| ensures ShardOk(s', j) { CopiedShard(s, j); }
    forall j: nat | j < |s'.snaps| ensures PassedAt(s', j) { assert PassedAt(s, j); }
  }

  lemma LeaveInv(s: State)
    requires Inv(s) && s.drain.Emptying? && s.drain.r == s.drain.w
    ensures s.drain.i < |s.rings| && Shape(s) && Inv(DrainStep(s).0)
  {
    ShapeOf(s);
    assert ShardOk(s, s.drain.i);
    var i, ring, s' := s.drain.i, s.rings[s.drain.i], DrainStep(s).0;
    WrappedDifference(s.drain.snap, ring.consumed, ring.modulus);
    forall j: nat | j < |s'.rings| ensures ShardOk(s', j) { assert ShardOk(s, j); }
    forall j: nat | j < |s'.snaps| ensures PassedAt(s', j) { assert PassedAt(s, j); }
  }

  lemma GiveBackRing(r: Ring<Event>, p: Pusher)
    requires RingOk(r) && PusherOk(r, p) && r.consumed < |r.produced|
    ensures var r' := r.(readIdx := (r.readIdx + 1) % r.modulus, consumed := r.consumed + 1); RingOk(r') && PusherOk(r', p)
  {
    var r' := r.(readIdx := (r.readIdx + 1) % r.modulus, consumed := r.consumed + 1);
    WrappedSum(r.consumed, 1, r.modulus);
    forall p: int | r'.consumed <= p < |r'.produced| ensures Unread(r', p) { assert Unread(r, p); }
  }

  lemma GiveBackInv(s: State)
    requires Inv(s) && s.drain.Copied?
    ensures s.drain.i < |s.rings| && Shape(s) && Inv(DrainStep(s).0)
  {
    ShapeOf(s);
    assert ShardOk(s, s.drain.i);
    var i, ring, s' := s.drain.i, s.rings[s.drain.i], DrainStep(s).0;
    GiveBackRing(ring, s.pushers[i]);
    WrappedSum(ring.consumed, 1, ring.modulus);
    assert s'.flushed + s'.batch == s.flushed + s.batch;
    forall j: nat | j < |s'.rings| ensures ShardOk(s', j) { assert ShardOk(s, j); }
    forall j: nat | j < |s'.snaps| ensures PassedAt(s', j) { assert PassedAt(s, j); }
  }

  lemma ActionInv(s: State, a: Action)
    requires Inv(s) && Enabled(s, a)
    ensures Inv(Apply(s, a).0)
    ensures Apply(s, a).1.Refused? ==> Apply(s, a).1.full
  {
    match a
    case StartPush(k, ev) =>
      assert ShardOk(s, k);
      var p := Loaded(ev, s.rings[k].readIdx, s.rings[k].consumed);
      PusherInv(s, k, s.rings[k], p, s.dropped);
      assert Apply(s, a).0 == SetRing(s, k, s.rings[k], p).(dropped := s.dropped);
    case PushMoves(k) => if s.pushers[k].Loaded? { StoreEventInv(s, k); } else { PublishInv(s, k); }
    case BeginDrain => BeginInv(s);
    case DrainMoves =>
      if s.drain.AtShard? { EnterInv(s); }
      else if s.drain.Copied? { GiveBackInv(s); }
      else if s.drain.r != s.drain.w { CopyInv(s); }
      else { LeaveInv(s); }
  }

  lemma InitialInv(s: State)
    requires Initial(s)
    ensures Inv(s)
  {
    forall k: nat | k < |s.rings| ensures ShardOk(s, k) {
      assert s.rings[k].modulus == WORD32;
      assert s.pushers[k].Idle?;
    }
  }

  // --- Whole runs ---

  ghost predicate StepAt(states: seq<State>, acts: seq<Action>, i: int) {
    && 0 <= i < |acts| && i + 1 < |states|
    && Enabled(states[i], acts[i]) && states[i + 1] == Apply(states[i], acts[i]).0
  }

  ghost predicate Run(states: seq<State>, acts: seq<Action>) {
    && |states| == |acts| + 1 && Initial(states[0])
    && forall i {:trigger StepAt(states, acts, i)} | 0 <= i < |acts| :: StepAt(states, acts, i)
  }

  lemma {:induction false} RunInv(states: seq<State>, acts: seq<Action>, n: nat)
    requires Run(states, acts) && n <= |acts|
    ensures Inv(states[n])
  {
    if n == 0 {
      InitialInv(states[0]);
    } else {
      RunInv(states, acts, n - 1);
      assert StepAt(states, acts, n - 1);
      ActionInv(states[n - 1], acts[n - 1]);
    }
  }

  /** The step that ends a drain. */
  predicate Ends(s: State, a: Action) {
    a.DrainMoves? && s.drain.AtShard? && s.drain.i >= |s.rings|
  }

  // --- What the calls did ---

  function PushedOf(l: Label, k: nat): seq<Event> {
    if l.Pushed? && l.line.shard == k then [l.line.ev] else []
  }

  function FlushedOf(l: Label): seq<Line> {
    if l.Flushed? then l.lines else []
  }

  ghost function LabelAt(states: seq<State>, acts: seq<Action>, i: nat): Label
    requires Run(states, acts) && i < |acts|
  {
    assert StepAt(states, acts, i);
    Apply(states[i], acts[i]).1
  }

  /** The events pushed to shard `k` in the first `n` steps. */
  ghost function PushedIn(states: seq<State>, acts: seq<Action>, n: nat, k: nat): seq<Event>
    requires Run(states, acts) && n <= |acts|
  {
    if n == 0 then [] else PushedIn(states, acts, n - 1, k) + PushedOf(LabelAt(states, acts, n - 1), k)
  }

  /** The lines written out in the first `n` steps. */
  ghost function WrittenIn(states: seq<State>, acts: seq<Action>, n: nat): seq<Line>
    requires Run(states, acts) && n <= |acts|
  {
    if n == 0 then [] else WrittenIn(states, acts, n - 1) + FlushedOf(LabelAt(states, acts, n - 1))
  }

  ghost function RefusedIn(states: seq<State>, acts: seq<Action>, n: nat): nat
    requires Run(states, acts) && n <= |acts|
  {
    if n == 0 then 0 else RefusedIn(states, acts, n - 1) + (if LabelAt(states, acts, n - 1).Refused? then 1 else 0)
  }

  /** The state records what the labels say, and nothing else. */
  lemma Recorded(s: State, a: Action, k: nat)
    requires Enabled(s, a) && k < |s.rings|
    ensures var t, l := Apply(s, a).0, Apply(s, a).1;
      && |t.rings| == |s.rings| && t.rings[k].produced == s.rings[k].produced + PushedOf(l, k)
      && t.flushed == s.flushed + FlushedOf(l) && t.dropped == s.dropped + (if l.Refused? then 1 else 0)
  {
  }

  lemma {:induction false} History(states: seq<State>, acts: seq<Action>, n: nat, k: nat)
    requires Run(states, acts) && n <= |acts| && k < |states[0].rings|
    ensures |states[n].rings| == |states[0].rings| && states[n].rings[k].produced == PushedIn(states, acts, n, k)
    ensures states[n].flushed == WrittenIn(states, acts, n) && states[n].dropped == RefusedIn(states, acts, n)
  {
    if n > 0 {
      History(states, acts, n - 1, k);
      assert StepAt(states, acts, n - 1);
      Recorded(states[n - 1], acts[n - 1], k);
    }
  }

  lemma {:induction false} OfAppend(a: seq<Line>, b: seq<Line>, k: nat)
    ensures Of(a + b, k) == Of(a, k) + Of(b, k)
  {
    if b == [] {
      assert a + b == a;
    } else {
      var init := b[..|b| - 1];
      assert (a + b)[..|a + b| - 1] == a + init;
      OfAppend(a, init, k);
    }
  }

  lemma WrittenOfShard(s: State, k: nat)
    requires Inv(s) && k < |s.rings|
    ensures Of(s.flushed, k) <= s.rings[k].produced
  {
    assert ShardOk(s, k);
    OfAppend(s.flushed, s.batch, k);
  }

  lemma RefusedWhenFull(states: seq<State>, acts: seq<Action>, n: nat)
    requires Run(states, acts) && n < |acts| && LabelAt(states, acts, n).Refused?
    ensures LabelAt(states, acts, n).full
  {
    RunInv(states, acts, n);
    assert StepAt(states, acts, n);
    ActionInv(states[n], acts[n]);
  }

  /** At every moment the lines written out for a shard are a prefix of the events pushed to it, in order and
      unaltered; the dropped counter counts the refused pushes; and a push is refused only when the ring was
      full as the read index was loaded. */
  lemma LinesArePrefixes(states: seq<State>, acts: seq<Action>, n: nat, k: nat)
    requires Run(states, acts) && n <= |acts| && k < |states[0].rings|
    ensures Of(WrittenIn(states, acts, n), k) <= PushedIn(states, acts, n, k)
    ensures states[n].dropped == RefusedIn(states, acts, n)
    ensures n < |acts| && LabelAt(states, acts, n).Refused? ==> LabelAt(states, acts, n).full
  {
    RunInv(states, acts, n);
    History(states, acts, n, k);
    WrittenOfShard(states[n], k);
    if n < |acts| && LabelAt(states, acts, n).Refused? { RefusedWhenFull(states, acts, n); }
  }

  /** Step `m` begins a drain, and no step after it and before `n` does. */
  predicate Begins(acts: seq<Action>, m: nat, n: nat) {
    m < n <= |acts| && acts[m].BeginDrain? && forall i | m < i < n :: !acts[i].BeginDrain?
  }

  lemma {:induction false} BegunAt(states: seq<State>, acts: seq<Action>, m: nat, n: nat, k: nat)
    requires Run(states, acts) && Begins(acts, m, n) && k < |states[0].rings|
    ensures k < |states[n].begun| && states[n].begun[k] == |PushedIn(states, acts, m, k)|
    decreases n
  {
    assert StepAt(states, acts, n - 1);
    if m < n - 1 {
      BegunAt(states, acts, m, n - 1, k);
      BegunStays(states[n - 1], acts[n - 1]);
    } else {
      History(states, acts, m, k);
      BegunNow(states[m], acts[m], k);
    }
  }

  lemma BegunNow(s: State, a: Action, k: nat)
    requires Enabled(s, a) && a.BeginDrain? && k < |s.rings|
    ensures k < |Apply(s, a).0.begun| && Apply(s, a).0.begun[k] == |s.rings[k].produced|
  {
  }

  lemma BegunStays(s: State, a: Action)
    requires Enabled(s, a) && !a.BeginDrain?
    ensures Apply(s, a).0.begun == s.begun
  {
  }

  /** When a drain ends, everything pushed before it began has been written out, in order, and every line
      formatted is: for each shard the lines are exactly the events published when its write index was loaded. */
  lemma OneDrainEmptiesAll(states: seq<State>, acts: seq<Action>, m: nat, n: nat, k: nat)
    requires Run(states, acts) && n < |acts| && Begins(acts, m, n) && Ends(states[n], acts[n]) && k < |states[0].rings|
    ensures PushedIn(states, acts, m, k) <= Of(WrittenIn(states, acts, n + 1), k) <= PushedIn(states, acts, n, k)
    ensures k < |states[n].snaps| && |Of(WrittenIn(states, acts, n + 1), k)| == states[n].snaps[k]
    ensures states[n + 1].drain.Resting? && states[n + 1].batch == []
  {
    RunInv(states, acts, n);
    History(states, acts, n, k);
    History(states, acts, n + 1, k);
    BegunAt(states, acts, m, n, k);
    PushedGrows(states, acts, m, n, k);
    assert StepAt(states, acts, n);
    DrainEnds(states[n], acts[n], k);
  }

  /** The end of a drain: all that was published when a shard's write index was loaded is written out. */
  lemma DrainEnds(s: State, a: Action, k: nat)
    requires Inv(s) && Enabled(s, a) && Ends(s, a) && k < |s.rings| && k < |s.begun|
    ensures var t := Apply(s, a).0;
      && t.drain.Resting? && t.batch == [] && Of(t.flushed, k) <= s.rings[k].produced
      && k < |s.snaps| && s.begun[k] <= |Of(t.flushed, k)| == s.snaps[k]
  {
    var t := Apply(s, a).0;
    ActionInv(s, a);
    assert PassedAt(s, k) && ShardOk(s, k) && ShardOk(t, k);
    assert t.flushed + [] == t.flushed;
  }

  lemma {:induction false} ProducedGrows(states: seq<State>, acts: seq<Action>, m: nat, n: nat, k: nat)
    requires Run(states, acts) && m <= n <= |acts| && k < |states[m].rings|
    ensures k < |states[n].rings| && states[m].rings[k].produced <= states[n].rings[k].produced
    decreases n
  {
    if m < n {
      ProducedGrows(states, acts, m, n - 1, k);
      assert StepAt(states, acts, n - 1);
      Recorded(states[n - 1], acts[n - 1], k);
    }
  }

  lemma PushedGrows(states: seq<State>, acts: seq<Action>, m: nat, n: nat, k: nat)
    requires Run(states, acts) && m <= n <= |acts| && k < |states[0].rings|
    ensures PushedIn(states, acts, m, k) <= PushedIn(states, acts, n, k)
  {
    History(states, acts, m, k);
    History(states, acts, n, k);
    ProducedGrows(states, acts, m, n, k);
  }
}
