/** The life of one reference-counted object under any number of threads, one atomic access at a time.
    Threads use only handles they own, and may pass them on. The header's color stays black here: the
    cycle collector, which runs by itself, is modelled elsewhere. */
module ArcLifecycle {

  type Thread = nat
  type Handle = nat

  const INT32_MAX := 0x7fff_ffff

  datatype Pc =
    | Idle
    // arc_retain
    | RetainCheckDead(h: Handle) | RetainCheckMoved(h: Handle) | RetainLoad(h: Handle) | RetainCas(h: Handle, cur: int)
    // arc_release_impl
    | ReleaseLoad(h: Handle) | ReleaseCas(h: Handle, cur: int)
    // arc_start_deallocation, arc_finalize_zero_strong
    | MarkDeallocating | RunDestructor | DropShare | FreeBlock | ZeroPayload
    // arc_weak_create
    | WeakCheckDead(h: Handle) | WeakCheckStrong(h: Handle) | WeakLoad(h: Handle) | WeakCas(h: Handle, cur: int)
    // arc_weak_upgrade
    | UpgradeLoad(w: Handle) | UpgradeCheck(w: Handle, cur: int) | UpgradeCas(w: Handle, cur: int)
    // arc_weak_release
    | WeakDrop(w: Handle) | WeakFreeCheck

  datatype AbortReason = RetainDead | RetainMoved | Underflow | StrongOverflow | WeakOverflow | OverRelease | WeakUnderflow | WeakOfDead

  datatype Run = Running | Aborted(reason: AbortReason)

  /** How far the object's end has come (a history variable). */
  datatype Stage = Alive | Emptied(thread: Thread) | Marked(thread: Thread) | Destroyed(thread: Thread) | Finalized

  /** Whether somebody has taken the weak count to zero, and so must free the block (a history variable). */
  datatype Block = Held | Freeing(thread: Thread) | Freed

  datatype State = State(
    strong: int, weak: int, deallocating: bool, moved: bool,
    strongHandles: map<Handle, Thread>, weakHandles: map<Handle, Thread>,
    pcs: map<Thread, Pc>, run: Run,
    destructorRuns: nat, frees: nat, stage: Stage, block: Block)

  datatype Action =
    | BeginRetain(t: Thread, h: Handle) | BeginRelease(t: Thread, h: Handle)
    | BeginWeakCreate(t: Thread, h: Handle) | BeginUpgrade(t: Thread, w: Handle) | BeginWeakRelease(t: Thread, w: Handle)
    | MarkMoved(t: Thread, h: Handle)
    | Give(t: Thread, h: Handle, to: Thread) | GiveWeak(t: Thread, w: Handle, to: Thread)
    | Move(t: Thread, made: Handle)

  predicate Owns(s: State, t: Thread, h: Handle) {
    h in s.strongHandles && s.strongHandles[h] == t
  }

  predicate OwnsWeak(s: State, t: Thread, w: Handle) {
    w in s.weakHandles && s.weakHandles[w] == t
  }

  predicate IsIdle(s: State, t: Thread) {
    t in s.pcs && s.pcs[t].Idle?
  }

  predicate Enabled(s: State, a: Action) {
    && s.run.Running?
    && match a
       case BeginRetain(t, h) => IsIdle(s, t) && Owns(s, t, h)
       case BeginRelease(t, h) => IsIdle(s, t) && Owns(s, t, h)
       case BeginWeakCreate(t, h) => IsIdle(s, t) && Owns(s, t, h)
       case BeginUpgrade(t, w) => IsIdle(s, t) && OwnsWeak(s, t, w)
       case BeginWeakRelease(t, w) => IsIdle(s, t) && OwnsWeak(s, t, w)
       case MarkMoved(t, h) => IsIdle(s, t) && Owns(s, t, h)
       case Give(t, h, to) => IsIdle(s, t) && Owns(s, t, h) && to in s.pcs
       case GiveWeak(t, w, to) => IsIdle(s, t) && OwnsWeak(s, t, w) && to in s.pcs
       case Move(t, made) =>
         t in s.pcs && !s.pcs[t].Idle? && made !in s.strongHandles && made !in s.weakHandles
  }

  function At(s: State, t: Thread, pc: Pc): State {
    s.(pcs := s.pcs[t := pc])
  }

  function Abort(s: State, reason: AbortReason): State {
    s.(run := Aborted(reason))
  }

  function TakeStrong(s: State, t: Thread, made: Handle): State {
    At(s, t, Idle).(strong := s.strong + 1, strongHandles := s.strongHandles[made := t])
  }

  function TakeWeak(s: State, t: Thread, made: Handle): State {
    At(s, t, Idle).(weak := s.weak + 1, weakHandles := s.weakHandles[made := t])
  }

  /** One access by thread `t`; a handle made by it is called `made`. */
  function Step(s: State, t: Thread, made: Handle): State
    requires t in s.pcs && !s.pcs[t].Idle?
  {
    match s.pcs[t]
    case RetainCheckDead(h) => if s.deallocating then Abort(s, RetainDead) else At(s, t, RetainCheckMoved(h))
    case RetainCheckMoved(h) => if s.moved then Abort(s, RetainMoved) else At(s, t, RetainLoad(h))
    case RetainLoad(h) => At(s, t, RetainCas(h, s.strong))
    case RetainCas(h, cur) =>
      if cur < 0 then Abort(s, Underflow)
      else if cur == INT32_MAX then Abort(s, StrongOverflow)
      else if s.strong == cur then TakeStrong(s.(strong := cur), t, made)
      else At(s, t, RetainCas(h, s.strong))
    case ReleaseLoad(h) => At(s, t, ReleaseCas(h, s.strong))
    case ReleaseCas(h, cur) =>
      if cur <= 0 then (if s.deallocating then At(s, t, Idle) else Abort(s, OverRelease))
      else if s.strong == cur then
        At(s, t, if cur == 1 then MarkDeallocating else Idle)
          .(strong := cur - 1, strongHandles := s.strongHandles - {h}, stage := if cur == 1 then Emptied(t) else s.stage)
      else At(s, t, ReleaseCas(h, s.strong))
    case MarkDeallocating =>
      if s.deallocating then At(s, t, Idle) else At(s, t, RunDestructor).(deallocating := true, stage := Marked(t))
    case RunDestructor => At(s, t, DropShare).(destructorRuns := s.destructorRuns + 1, stage := Destroyed(t))
    case DropShare =>
      if s.weak <= 0 then Abort(s, WeakUnderflow)
      else At(s, t, if s.weak == 1 then FreeBlock else ZeroPayload)
             .(weak := s.weak - 1, stage := Finalized, block := if s.weak == 1 then Freeing(t) else s.block)
    case FreeBlock => At(s, t, Idle).(frees := s.frees + 1, block := Freed)
    case ZeroPayload => At(s, t, Idle)
    case WeakCheckDead(h) => if s.deallocating then Abort(s, WeakOfDead) else At(s, t, WeakCheckStrong(h))
    case WeakCheckStrong(h) => if s.strong <= 0 then Abort(s, WeakOfDead) else At(s, t, WeakLoad(h))
    case WeakLoad(h) => At(s, t, WeakCas(h, s.weak))
    case WeakCas(h, cur) =>
      if cur < 0 then Abort(s, Underflow)
      else if cur == INT32_MAX then Abort(s, WeakOverflow)
      else if s.weak == cur then TakeWeak(s.(weak := cur), t, made)
      else At(s, t, WeakCas(h, s.weak))
    case UpgradeLoad(w) => At(s, t, UpgradeCheck(w, s.strong))
    case UpgradeCheck(w, cur) => At(s, t, if cur <= 0 || s.deallocating then Idle else UpgradeCas(w, cur))
    case UpgradeCas(w, cur) =>
      if cur == INT32_MAX then Abort(s, StrongOverflow)
      else if s.strong == cur then TakeStrong(s.(strong := cur), t, made)
      else At(s, t, UpgradeCheck(w, s.strong))
    case WeakDrop(w) =>
      if s.weak <= 0 then Abort(s, WeakUnderflow)
      else At(s, t, if s.weak == 1 then WeakFreeCheck else Idle)
             .(weak := s.weak - 1, weakHandles := s.weakHandles - {w}, block := if s.weak == 1 then Freeing(t) else s.block)
    case WeakFreeCheck => At(s, t, if s.strong <= 0 then FreeBlock else Idle)
  }

  function Apply(s: State, a: Action): State
    requires Enabled(s, a)
  {
    match a
    case BeginRetain(t, h) => At(s, t, RetainCheckDead(h))
    case BeginRelease(t, h) => At(s, t, ReleaseLoad(h))
    case BeginWeakCreate(t, h) => At(s, t, WeakCheckDead(h))
    case BeginUpgrade(t, w) => At(s, t, UpgradeLoad(w))
    case BeginWeakRelease(t, w) => At(s, t, WeakDrop(w))
    case MarkMoved(t, h) => s.(moved := true)
    case Give(t, h, to) => s.(strongHandles := s.strongHandles[h := to])
    case GiveWeak(t, w, to) => s.(weakHandles := s.weakHandles[w := to])
    case Move(t, made) => Step(s, t, made)
  }

  /** What `arc_alloc` hands to thread `t` as handle `h`. */
  ghost predicate Initial(s: State) {
    && s.strong == 1 && s.weak == 1 && !s.deallocating && !s.moved && s.run.Running?
    && |s.strongHandles| == 1 && s.weakHandles == map[]
    && (forall h | h in s.strongHandles :: s.strongHandles[h] in s.pcs)
    && (forall t | t in s.pcs :: s.pcs[t].Idle?)
    && s.destructorRuns == 0 && s.frees == 0 && s.stage.Alive? && s.block.Held?
  }

  // --- Invariant ---

  /** A thread in the middle of a call still owns the handle the call is about, and the stages of the
      object's end belong to the thread that is at the matching point. */
  ghost predicate PcOk(s: State, t: Thread, pc: Pc) {
    && (s.stage == Emptied(t) <==> pc.MarkDeallocating?)
    && (s.stage == Marked(t) <==> pc.RunDestructor?)
    && (s.stage == Destroyed(t) <==> pc.DropShare?)
    && (s.block == Freeing(t) <==> pc.FreeBlock? || pc.WeakFreeCheck?)
    && match pc
       case RetainCheckDead(h) => Owns(s, t, h)
       case RetainCheckMoved(h) => Owns(s, t, h)
       case RetainLoad(h) => Owns(s, t, h)
       case RetainCas(h, cur) => Owns(s, t, h) && cur > 0
       case ReleaseLoad(h) => Owns(s, t, h)
       case ReleaseCas(h, cur) => Owns(s, t, h) && cur > 0
       case WeakCheckDead(h) => Owns(s, t, h)
       case WeakCheckStrong(h) => Owns(s, t, h)
       case WeakLoad(h) => Owns(s, t, h)
       case WeakCas(h, cur) => Owns(s, t, h) && cur > 0
       case UpgradeLoad(w) => OwnsWeak(s, t, w)
       case UpgradeCheck(w, cur) => OwnsWeak(s, t, w) && cur >= 0 && (cur == 0 ==> s.strong == 0)
       case UpgradeCas(w, cur) => OwnsWeak(s, t, w) && cur > 0
       case WeakDrop(w) => OwnsWeak(s, t, w)
       case _ => true
  }

  ghost predicate CountsOk(s: State) {
    && s.strong == |s.strongHandles|
    && s.weak == |s.weakHandles| + (if s.stage.Finalized? then 0 else 1)
  }

  ghost predicate StageOk(s: State) {
    && (s.stage.Alive? <==> s.strong > 0)
    && (s.deallocating <==> s.stage.Marked? || s.stage.Destroyed? || s.stage.Finalized?)
    && s.destructorRuns == (if s.stage.Destroyed? || s.stage.Finalized? then 1 else 0)
    && (s.weak == 0 <==> !s.block.Held?)
    && s.frees == (if s.block.Freed? then 1 else 0)
    && (s.stage.Emptied? || s.stage.Marked? || s.stage.Destroyed? ==> s.stage.thread in s.pcs)
    && (s.block.Freeing? ==> s.block.thread in s.pcs)
  }

  ghost predicate Inv(s: State) {
    && CountsOk(s) && StageOk(s)
    && (forall h | h in s.strongHandles :: s.strongHandles[h] in s.pcs)
    && (forall w | w in s.weakHandles :: s.weakHandles[w] in s.pcs)
    && forall t | t in s.pcs :: PcOk(s, t, s.pcs[t])
  }

  /** The only ways a program that uses its own handles can be stopped. */
  ghost predicate AbortJustified(s: State) {
    s.run.Aborted? ==> s.run.reason == RetainMoved || s.run.reason == StrongOverflow || s.run.reason == WeakOverflow
  }

  lemma Removed(m: map<Handle, Thread>, h: Handle)
    requires h in m
    ensures |m - {h}| == |m| - 1
  {
    assert m == (m - {h})[h := m[h]];
  }

  lemma HasHandle(m: map<Handle, Thread>, h: Handle)
    requires h in m
    ensures |m| > 0
  {
    Removed(m, h);
  }

  lemma OnlyHandle(m: map<Handle, Thread>, h: Handle)
    requires |m| == 1 && h in m
    ensures forall g | g in m :: g == h
  {
    Removed(m, h);
    forall g | g in m ensures g == h {
      if g != h { HasHandle(m - {h}, g); }
    }
  }

  // --- Every step keeps it ---

  /** A step that only moves the thread on. */
  lemma PcMoved(s: State, t: Thread, pc: Pc)
    requires Inv(s) && t in s.pcs && PcOk(s, t, pc)
    ensures Inv(At(s, t, pc))
  {
    var s' := At(s, t, pc);
    forall u | u in s'.pcs ensures PcOk(s', u, s'.pcs[u]) {
      if u != t { assert PcOk(s, u, s.pcs[u]); }
    }
  }

  lemma Added(m: map<Handle, Thread>, made: Handle, t: Thread)
    requires made !in m
    ensures |m[made := t]| == |m| + 1
  {
    Removed(m[made := t], made);
    assert m[made := t] - {made} == m;
  }

  lemma Aborts(s: State, reason: AbortReason)
    requires Inv(s)
    ensures Inv(Abort(s, reason))
  {
    forall u | u in s.pcs ensures PcOk(Abort(s, reason), u, s.pcs[u]) { assert PcOk(s, u, s.pcs[u]); }
  }

  /** A handle is added by thread `t`, which ends its call. */
  lemma StrongAdded(s: State, t: Thread, made: Handle)
    requires Inv(s) && t in s.pcs && PcOk(s, t, Idle) && s.strong > 0 && made !in s.strongHandles
    ensures Inv(TakeStrong(s, t, made))
  {
    var s' := TakeStrong(s, t, made);
    Added(s.strongHandles, made, t);
    forall u | u in s'.pcs ensures PcOk(s', u, s'.pcs[u]) {
      if u != t { assert PcOk(s, u, s.pcs[u]); }
    }
  }

  lemma WeakAdded(s: State, t: Thread, made: Handle)
    requires Inv(s) && t in s.pcs && PcOk(s, t, Idle) && s.weak > 0 && made !in s.weakHandles
    ensures Inv(TakeWeak(s, t, made))
  {
    var s' := TakeWeak(s, t, made);
    Added(s.weakHandles, made, t);
    forall u | u in s'.pcs ensures PcOk(s', u, s'.pcs[u]) {
      if u != t { assert PcOk(s, u, s.pcs[u]); }
    }
  }

  lemma StrongDropped(s: State, t: Thread, h: Handle, made: Handle)
    requires Inv(s) && t in s.pcs && s.pcs[t] == ReleaseCas(h, s.strong)
    ensures Inv(Step(s, t, made)) && Step(s, t, made).run == s.run
  {
    var s' := Step(s, t, made);
    assert PcOk(s, t, s.pcs[t]);
    Removed(s.strongHandles, h);
    if s.strong == 1 { OnlyHandle(s.strongHandles, h); }
    forall u | u in s'.pcs ensures PcOk(s', u, s'.pcs[u]) {
      if u != t { assert PcOk(s, u, s.pcs[u]); }
    }
  }

  lemma WeakDropped(s: State, t: Thread, w: Handle, made: Handle)
    requires Inv(s) && t in s.pcs && s.pcs[t] == WeakDrop(w)
    ensures Inv(Step(s, t, made)) && Step(s, t, made).run == s.run
  {
    var s' := Step(s, t, made);
    assert PcOk(s, t, s.pcs[t]);
    Removed(s.weakHandles, w);
    if s.weak == 1 { OnlyHandle(s.weakHandles, w); }
    forall u | u in s'.pcs ensures PcOk(s', u, s'.pcs[u]) {
      if u != t { assert PcOk(s, u, s.pcs[u]); }
    }
  }

  lemma NoHandles(s: State)
    requires CountsOk(s) && StageOk(s)
    ensures !s.stage.Alive? ==> forall h :: h !in s.strongHandles
    ensures !s.block.Held? ==> forall w :: w !in s.weakHandles
    ensures !s.block.Held? ==> s.stage.Finalized?
  {
    if h :| !s.stage.Alive? && h in s.strongHandles { HasHandle(s.strongHandles, h); assert false; }
    if w :| !s.block.Held? && w in s.weakHandles { HasHandle(s.weakHandles, w); assert false; }
  }

  /** The steps by which the last owner takes the object apart. */
  lemma EndKeepsInv(s: State, t: Thread, made: Handle)
    requires Inv(s) && t in s.pcs
    requires var pc := s.pcs[t]; pc.MarkDeallocating? || pc.RunDestructor? || pc.DropShare? || pc.FreeBlock? || pc.WeakFreeCheck?
    ensures Inv(Step(s, t, made)) && Step(s, t, made).run == s.run
  {
    var s' := Step(s, t, made);
    assert PcOk(s, t, s.pcs[t]);
    NoHandles(s);
    forall u | u in s'.pcs ensures PcOk(s', u, s'.pcs[u]) {
      if u != t { EndKeepsOther(s, t, made, u); }
    }
  }

  lemma EndKeepsOther(s: State, t: Thread, made: Handle, u: Thread)
    requires Inv(s) && t in s.pcs && u in s.pcs && u != t
    requires var pc := s.pcs[t]; pc.MarkDeallocating? || pc.RunDestructor? || pc.DropShare? || pc.FreeBlock? || pc.WeakFreeCheck?
    ensures PcOk(Step(s, t, made), u, s.pcs[u])
  {
    NoHandles(s);
    assert PcOk(s, t, s.pcs[t]) && PcOk(s, u, s.pcs[u]);
  }

  predicate InRetain(pc: Pc) {
    pc.RetainCheckDead? || pc.RetainCheckMoved? || pc.RetainLoad? || pc.RetainCas?
  }

  predicate InWeakCreate(pc: Pc) {
    pc.WeakCheckDead? || pc.WeakCheckStrong? || pc.WeakLoad? || pc.WeakCas?
  }

  predicate InUpgrade(pc: Pc) {
    pc.UpgradeLoad? || pc.UpgradeCheck? || pc.UpgradeCas?
  }

  lemma RetainCasInv(s: State, t: Thread, made: Handle, h: Handle, cur: int)
    requires Inv(s) && t in s.pcs && s.pcs[t] == RetainCas(h, cur) && made !in s.strongHandles && s.run.Running?
    ensures Inv(Step(s, t, made)) && AbortJustified(Step(s, t, made))
  {
    assert PcOk(s, t, s.pcs[t]);
    HasHandle(s.strongHandles, h);
    if cur == INT32_MAX { Aborts(s, StrongOverflow); }
    else if s.strong == cur { StrongAdded(s, t, made); }
    else { PcMoved(s, t, RetainCas(h, s.strong)); }
  }

  lemma RetainInv(s: State, t: Thread, made: Handle)
    requires Inv(s) && t in s.pcs && InRetain(s.pcs[t]) && made !in s.strongHandles && s.run.Running?
    ensures Inv(Step(s, t, made)) && AbortJustified(Step(s, t, made))
  {
    assert PcOk(s, t, s.pcs[t]);
    HasHandle(s.strongHandles, s.pcs[t].h);
    match s.pcs[t]
    case RetainCheckDead(h) => PcMoved(s, t, RetainCheckMoved(h));
    case RetainCheckMoved(h) => if !s.moved { PcMoved(s, t, RetainLoad(h)); }
    case RetainLoad(h) => PcMoved(s, t, RetainCas(h, s.strong));
    case RetainCas(h, cur) => RetainCasInv(s, t, made, h, cur);
  }

  lemma ReleaseInv(s: State, t: Thread, made: Handle)
    requires Inv(s) && t in s.pcs && (s.pcs[t].ReleaseLoad? || s.pcs[t].ReleaseCas?) && s.run.Running?
    ensures Inv(Step(s, t, made)) && Step(s, t, made).run.Running?
  {
    assert PcOk(s, t, s.pcs[t]);
    HasHandle(s.strongHandles, s.pcs[t].h);
    if s.pcs[t] == ReleaseCas(s.pcs[t].h, s.strong) {
      StrongDropped(s, t, s.pcs[t].h, made);
    } else {
      PcMoved(s, t, ReleaseCas(s.pcs[t].h, s.strong));
    }
  }

  lemma WeakCasInv(s: State, t: Thread, made: Handle, h: Handle, cur: int)
    requires Inv(s) && t in s.pcs && s.pcs[t] == WeakCas(h, cur) && made !in s.weakHandles && s.run.Running?
    ensures Inv(Step(s, t, made)) && AbortJustified(Step(s, t, made))
  {
    assert PcOk(s, t, s.pcs[t]);
    HasHandle(s.strongHandles, h);
    if cur == INT32_MAX { Aborts(s, WeakOverflow); }
    else if s.weak == cur { WeakAdded(s, t, made); }
    else { PcMoved(s, t, WeakCas(h, s.weak)); }
  }

  lemma WeakCreateInv(s: State, t: Thread, made: Handle)
    requires Inv(s) && t in s.pcs && InWeakCreate(s.pcs[t]) && made !in s.weakHandles && s.run.Running?
    ensures Inv(Step(s, t, made)) && AbortJustified(Step(s, t, made))
  {
    assert PcOk(s, t, s.pcs[t]);
    HasHandle(s.strongHandles, s.pcs[t].h);
    match s.pcs[t]
    case WeakCheckDead(h) => PcMoved(s, t, WeakCheckStrong(h));
    case WeakCheckStrong(h) => PcMoved(s, t, WeakLoad(h));
    case WeakLoad(h) => PcMoved(s, t, WeakCas(h, s.weak));
    case WeakCas(h, cur) => WeakCasInv(s, t, made, h, cur);
  }

  lemma UpgradeCasInv(s: State, t: Thread, made: Handle, w: Handle, cur: int)
    requires Inv(s) && t in s.pcs && s.pcs[t] == UpgradeCas(w, cur) && made !in s.strongHandles && s.run.Running?
    ensures Inv(Step(s, t, made)) && AbortJustified(Step(s, t, made))
  {
    assert PcOk(s, t, s.pcs[t]);
    if cur == INT32_MAX { Aborts(s, StrongOverflow); }
    else if s.strong == cur { StrongAdded(s, t, made); }
    else { PcMoved(s, t, UpgradeCheck(w, s.strong)); }
  }

  lemma UpgradeInv(s: State, t: Thread, made: Handle)
    requires Inv(s) && t in s.pcs && InUpgrade(s.pcs[t]) && made !in s.strongHandles && s.run.Running?
    ensures Inv(Step(s, t, made)) && AbortJustified(Step(s, t, made))
  {
    assert PcOk(s, t, s.pcs[t]);
    match s.pcs[t]
    case UpgradeLoad(w) => PcMoved(s, t, UpgradeCheck(w, s.strong));
    case UpgradeCheck(w, cur) => PcMoved(s, t, if cur <= 0 || s.deallocating then Idle else UpgradeCas(w, cur));
    case UpgradeCas(w, cur) => UpgradeCasInv(s, t, made, w, cur);
  }

  lemma MoveInv(s: State, t: Thread, made: Handle)
    requires Inv(s) && Enabled(s, Move(t, made))
    ensures Inv(Step(s, t, made)) && AbortJustified(Step(s, t, made))
  {
    var pc := s.pcs[t];
    assert PcOk(s, t, pc);
    if InRetain(pc) { RetainInv(s, t, made); }
    else if InWeakCreate(pc) { WeakCreateInv(s, t, made); }
    else if InUpgrade(pc) { UpgradeInv(s, t, made); }
    else if pc.ReleaseLoad? || pc.ReleaseCas? { ReleaseInv(s, t, made); }
    else if pc.WeakDrop? { WeakDropped(s, t, pc.w, made); }
    else if pc.ZeroPayload? { PcMoved(s, t, Idle); }
    else { EndKeepsInv(s, t, made); }
  }

  lemma HandedOver(s: State, t: Thread, h: Handle, to: Thread)
    requires Inv(s) && IsIdle(s, t) && Owns(s, t, h) && to in s.pcs
    ensures Inv(s.(strongHandles := s.strongHandles[h := to]))
  {
    var s' := s.(strongHandles := s.strongHandles[h := to]);
    forall u | u in s'.pcs ensures PcOk(s', u, s'.pcs[u]) {
      assert PcOk(s, u, s.pcs[u]);
    }
  }

  lemma WeakHandedOver(s: State, t: Thread, w: Handle, to: Thread)
    requires Inv(s) && IsIdle(s, t) && OwnsWeak(s, t, w) && to in s.pcs
    ensures Inv(s.(weakHandles := s.weakHandles[w := to]))
  {
    var s' := s.(weakHandles := s.weakHandles[w := to]);
    forall u | u in s'.pcs ensures PcOk(s', u, s'.pcs[u]) {
      assert PcOk(s, u, s.pcs[u]);
    }
  }

  lemma ActionInv(s: State, a: Action)
    requires Inv(s) && Enabled(s, a)
    ensures Inv(Apply(s, a)) && AbortJustified(Apply(s, a))
  {
    assert !a.Move? ==> PcOk(s, a.t, s.pcs[a.t]);
    match a
    case Move(t, made) => MoveInv(s, t, made);
    case BeginRetain(t, h) => PcMoved(s, t, RetainCheckDead(h));
    case BeginRelease(t, h) => PcMoved(s, t, ReleaseLoad(h));
    case BeginWeakCreate(t, h) => PcMoved(s, t, WeakCheckDead(h));
    case BeginUpgrade(t, w) => PcMoved(s, t, UpgradeLoad(w));
    case BeginWeakRelease(t, w) => PcMoved(s, t, WeakDrop(w));
    case MarkMoved(t, h) =>
      forall u | u in s.pcs ensures PcOk(Apply(s, a), u, s.pcs[u]) { assert PcOk(s, u, s.pcs[u]); }
    case Give(t, h, to) => HandedOver(s, t, h, to);
    case GiveWeak(t, w, to) => WeakHandedOver(s, t, w, to);
  }

  // --- Whole runs ---

  ghost predicate StepAt(states: seq<State>, acts: seq<Action>, i: int) {
    && 0 <= i < |acts| && i + 1 < |states|
    && Enabled(states[i], acts[i]) && states[i + 1] == Apply(states[i], acts[i])
  }

  ghost predicate History(states: seq<State>, acts: seq<Action>) {
    && |states| == |acts| + 1 && Initial(states[0])
    && forall i {:trigger StepAt(states, acts, i)} | 0 <= i < |acts| :: StepAt(states, acts, i)
  }

  lemma InitialInv(s: State)
    requires Initial(s)
    ensures Inv(s) && AbortJustified(s)
  {
    forall t | t in s.pcs ensures PcOk(s, t, s.pcs[t]) { assert s.pcs[t].Idle?; }
  }

  lemma {:induction false} HistoryInv(states: seq<State>, acts: seq<Action>, n: nat)
    requires History(states, acts) && n <= |acts|
    ensures Inv(states[n]) && AbortJustified(states[n])
  {
    if n > 0 {
      HistoryInv(states, acts, n - 1);
      assert StepAt(states, acts, n - 1);
      StepInv(states, acts, n - 1);
    } else {
      InitialInv(states[0]);
    }
  }

  lemma StepInv(states: seq<State>, acts: seq<Action>, n: int)
    requires StepAt(states, acts, n) && Inv(states[n])
    ensures Inv(states[n + 1]) && AbortJustified(states[n + 1])
  {
    ActionInv(states[n], acts[n]);
  }

  /** At every moment of every interleaving: the strong count is the number of strong handles, the weak
      count that of weak handles and one more until the finalization drops its share; the destructor has
      not run twice nor the block been freed twice, nor either of them too early; nothing but a moved object
      or an overflowing count stops the program. */
  lemma CountsAreHandles(states: seq<State>, acts: seq<Action>, n: nat)
    requires History(states, acts) && n <= |acts|
    ensures var s := states[n];
      && s.strong == |s.strongHandles|
      && s.weak == |s.weakHandles| + (if s.stage.Finalized? then 0 else 1)
      && s.destructorRuns <= 1 && s.frees <= 1
      && (s.destructorRuns == 1 ==> s.strongHandles == map[])
      && (s.frees == 1 ==> s.destructorRuns == 1 && s.strongHandles == map[] && s.weakHandles == map[])
      && AbortJustified(s)
  {
    HistoryInv(states, acts, n);
    NoHandles(states[n]);
  }

  /** An end that has begun and is not complete has its thread in the middle of a call. */
  lemma SomeoneIsAtIt(s: State)
    requires Inv(s)
    ensures s.stage.Emptied? || s.stage.Marked? || s.stage.Destroyed? ==> !s.pcs[s.stage.thread].Idle?
    ensures s.block.Freeing? ==> !s.pcs[s.block.thread].Idle?
  {
    if s.stage.Emptied? || s.stage.Marked? || s.stage.Destroyed? {
      assert PcOk(s, s.stage.thread, s.pcs[s.stage.thread]);
    }
    if s.block.Freeing? { assert PcOk(s, s.block.thread, s.pcs[s.block.thread]); }
  }

  /** With no call in flight, the destructor has run if and only if no strong handle is left, and the block
      is freed if and only if no handle of either kind is left. */
  lemma QuietEnd(states: seq<State>, acts: seq<Action>, n: nat)
    requires History(states, acts) && n <= |acts|
    requires forall t | t in states[n].pcs :: states[n].pcs[t].Idle?
    ensures states[n].destructorRuns == if states[n].strongHandles == map[] then 1 else 0
    ensures states[n].frees == if states[n].strongHandles == map[] && states[n].weakHandles == map[] then 1 else 0
  {
    var s := states[n];
    HistoryInv(states, acts, n);
    NoHandles(s);
    SomeoneIsAtIt(s);
    assert s.strongHandles != map[] ==> s.stage.Alive?;
    if s.strongHandles == map[] && s.weakHandles == map[] { assert s.weak == 0; }
  }

  lemma NoResurrection(s: State, a: Action)
    requires Inv(s) && Enabled(s, a) && s.strong == 0
    ensures Apply(s, a).strong == 0
  {
    if a.Move? {
      assert PcOk(s, a.t, s.pcs[a.t]);
      NoHandles(s);
    }
  }

  lemma StepKeepsZero(states: seq<State>, acts: seq<Action>, n: nat)
    requires History(states, acts) && n < |acts| && states[n].strong == 0
    ensures states[n + 1].strong == 0
  {
    HistoryInv(states, acts, n);
    assert StepAt(states, acts, n);
    NoResurrection(states[n], acts[n]);
  }

  lemma {:induction false} ZeroStays(states: seq<State>, acts: seq<Action>, m: nat, n: nat)
    requires History(states, acts) && m <= n <= |acts| && states[m].strong == 0
    ensures states[n].strong == 0
    decreases n
  {
    if m < n {
      ZeroStays(states, acts, m, n - 1);
      StepKeepsZero(states, acts, n - 1);
    }
  }

  /** Once the last strong handle is gone none comes back: no retain and no upgrade succeeds. */
  lemma ZeroIsForever(states: seq<State>, acts: seq<Action>, m: nat, n: nat)
    requires History(states, acts) && m <= n <= |acts| && states[m].strong == 0
    ensures states[n].strong == 0 && states[n].strongHandles == map[]
  {
    ZeroStays(states, acts, m, n);
    HistoryInv(states, acts, n);
    NoHandles(states[n]);
  }

  /** A call of the object's own API other than the tail of the finalization never reads a freed header. */
  lemma NoAccessAfterFree(states: seq<State>, acts: seq<Action>, n: nat, t: Thread)
    requires History(states, acts) && n <= |acts| && t in states[n].pcs && states[n].frees > 0
    ensures states[n].pcs[t].Idle? || states[n].pcs[t].ZeroPayload?
  {
    var s := states[n];
    HistoryInv(states, acts, n);
    NoHandles(s);
    assert PcOk(s, t, s.pcs[t]);
  }
}
