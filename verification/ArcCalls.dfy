/** What the calls on one reference-counted object achieve: how each ends under any interference, and what one
    that nobody disturbs does. */
module ArcCalls {
  import opened ArcLifecycle

  // --- How a call ends ---

  predicate InRelease(pc: Pc) {
    pc.ReleaseLoad? || pc.ReleaseCas?
  }

  predicate Ends(s: State, t: Thread, s': State) {
    t in s.pcs && !s.pcs[t].Idle? && s'.run.Running? && t in s'.pcs && s'.pcs[t].Idle?
  }

  predicate OneMore(s: State, s': State, t: Thread, made: Handle) {
    && s'.strong == s.strong + 1 && s'.strongHandles == s.strongHandles[made := t]
    && s'.weak == s.weak && s'.weakHandles == s.weakHandles
  }

  predicate OneMoreWeak(s: State, s': State, t: Thread, made: Handle) {
    && s'.weak == s.weak + 1 && s'.weakHandles == s.weakHandles[made := t]
    && s'.strong == s.strong && s'.strongHandles == s.strongHandles
  }

  predicate SameHandles(s: State, s': State) {
    s'.strong == s.strong && s'.strongHandles == s.strongHandles && s'.weakHandles == s.weakHandles
  }

  /** A retain ends with a new handle. */
  lemma RetainEnds(s: State, t: Thread, made: Handle)
    requires Inv(s) && Enabled(s, Move(t, made)) && InRetain(s.pcs[t])
    ensures var s' := Step(s, t, made); if Ends(s, t, s') then OneMore(s, s', t, made) else SameHandles(s, s')
  {
    assert PcOk(s, t, s.pcs[t]);
  }

  lemma WeakCreateEnds(s: State, t: Thread, made: Handle)
    requires Inv(s) && Enabled(s, Move(t, made)) && InWeakCreate(s.pcs[t])
    ensures var s' := Step(s, t, made); if Ends(s, t, s') then OneMoreWeak(s, s', t, made) else SameHandles(s, s')
  {
    assert PcOk(s, t, s.pcs[t]);
  }

  /** An upgrade ends with a new handle, or, exactly at a test when no strong handle is left, without one. */
  lemma UpgradeEnds(s: State, t: Thread, made: Handle)
    requires Inv(s) && Enabled(s, Move(t, made)) && InUpgrade(s.pcs[t])
    ensures var s' := Step(s, t, made);
      if !Ends(s, t, s') then SameHandles(s, s')
      else OneMore(s, s', t, made) || (SameHandles(s, s') && s.strongHandles == map[] && s.pcs[t].UpgradeCheck?)
  {
    assert PcOk(s, t, s.pcs[t]);
    NoHandles(s);
  }

  /** A release takes away the handle it was called with. */
  lemma ReleaseEnds(s: State, t: Thread, made: Handle)
    requires Inv(s) && Enabled(s, Move(t, made)) && InRelease(s.pcs[t])
    ensures var s' := Step(s, t, made);
      if Ends(s, t, s') || s'.pcs[t].MarkDeallocating? then
        && s'.strong == s.strong - 1 && s'.strongHandles == s.strongHandles - {s.pcs[t].h} && s'.weakHandles == s.weakHandles
        && (s'.pcs[t].MarkDeallocating? <==> s'.strong == 0)
      else SameHandles(s, s')
  {
    assert PcOk(s, t, s.pcs[t]);
    HasHandle(s.strongHandles, s.pcs[t].h);
  }

  /** A call stops the program only on a moved object or a count that had reached its limit when it was loaded. */
  lemma AbortHasReason(s: State, t: Thread, made: Handle)
    requires Inv(s) && Enabled(s, Move(t, made)) && Step(s, t, made).run.Aborted?
    ensures match Step(s, t, made).run.reason
      case RetainMoved => s.moved && s.pcs[t].RetainCheckMoved?
      case StrongOverflow => (s.pcs[t].RetainCas? || s.pcs[t].UpgradeCas?) && s.pcs[t].cur == 0x7fff_ffff
      case WeakOverflow => s.pcs[t].WeakCas? && s.pcs[t].cur == 0x7fff_ffff
      case _ => false
  {
    var pc := s.pcs[t];
    assert PcOk(s, t, pc);
    if InRetain(pc) { OwnedIsAlive(s, t, pc.h); RetainAborts(s, t, made); }
    else if InWeakCreate(pc) { OwnedIsAlive(s, t, pc.h); WeakCreateAborts(s, t, made); }
    else if InUpgrade(pc) { UpgradeAborts(s, t, made); }
    else if InRelease(pc) { ReleaseInv(s, t, made); }
    else if pc.WeakDrop? { WeakDropped(s, t, pc.w, made); }
    else if !pc.ZeroPayload? { EndKeepsInv(s, t, made); }
  }

  lemma RetainAborts(s: State, t: Thread, made: Handle)
    requires t in s.pcs && InRetain(s.pcs[t]) && s.run.Running? && !s.deallocating && (s.pcs[t].RetainCas? ==> s.pcs[t].cur > 0)
    ensures Step(s, t, made).run == if s.pcs[t].RetainCheckMoved? && s.moved then Aborted(RetainMoved)
                                    else if s.pcs[t].RetainCas? && s.pcs[t].cur == 0x7fff_ffff then Aborted(StrongOverflow)
                                    else Running
  {
  }

  lemma WeakCreateAborts(s: State, t: Thread, made: Handle)
    requires t in s.pcs && InWeakCreate(s.pcs[t]) && s.run.Running? && !s.deallocating && s.strong > 0
    requires s.pcs[t].WeakCas? ==> s.pcs[t].cur > 0
    ensures Step(s, t, made).run == if s.pcs[t].WeakCas? && s.pcs[t].cur == 0x7fff_ffff then Aborted(WeakOverflow) else Running
  {
  }

  lemma UpgradeAborts(s: State, t: Thread, made: Handle)
    requires t in s.pcs && InUpgrade(s.pcs[t]) && s.run.Running?
    ensures Step(s, t, made).run == if s.pcs[t].UpgradeCas? && s.pcs[t].cur == 0x7fff_ffff then Aborted(StrongOverflow) else Running
  {
  }

  /** In every interleaving an upgrade answers NULL only at a moment when there is no strong handle. */
  lemma NullMeansGone(states: seq<State>, acts: seq<Action>, n: nat, t: Thread, made: Handle)
    requires History(states, acts) && n < |acts| && acts[n] == Move(t, made)
    requires t in states[n].pcs && InUpgrade(states[n].pcs[t]) && Ends(states[n], t, states[n + 1])
    ensures made !in states[n + 1].strongHandles ==> states[n].strongHandles == map[]
    ensures made in states[n + 1].strongHandles ==> OneMore(states[n], states[n + 1], t, made)
  {
    assert StepAt(states, acts, n);
    HistoryInv(states, acts, n);
    UpgradeEnds(states[n], t, made);
  }

  // --- Undisturbed calls ---

  /** From `s` the actions lead to `u`. */
  ghost predicate Leads(s: State, acts: seq<Action>, u: State)
    decreases |acts|
  {
    if acts == [] then u == s else Enabled(s, acts[0]) && Leads(Apply(s, acts[0]), acts[1..], u)
  }

  lemma LeadsFirst(s: State, a: Action, acts: seq<Action>, u: State)
    requires Enabled(s, a) && Leads(Apply(s, a), acts, u)
    ensures Leads(s, [a] + acts, u)
  {
    assert ([a] + acts)[1..] == acts;
  }

  /** `n` steps of thread `t`. */
  function Moves(t: Thread, made: Handle, n: nat): (acts: seq<Action>)
    ensures |acts| == n
  {
    if n == 0 then [] else [Move(t, made)] + Moves(t, made, n - 1)
  }

  lemma MovesFirst(s: State, t: Thread, made: Handle, n: nat, u: State)
    requires Enabled(s, Move(t, made)) && Leads(Step(s, t, made), Moves(t, made, n), u)
    ensures Leads(s, Moves(t, made, n + 1), u)
  {
    LeadsFirst(s, Move(t, made), Moves(t, made, n), u);
  }

  lemma Stays(s: State, t: Thread)
    requires IsIdle(s, t)
    ensures s.pcs[t := Idle] == s.pcs
  {
  }

  lemma OwnedIsAlive(s: State, t: Thread, h: Handle)
    requires Inv(s) && Owns(s, t, h)
    ensures s.strong > 0 && !s.deallocating
  {
    HasHandle(s.strongHandles, h);
  }

  predicate Fresh(s: State, made: Handle) {
    made !in s.strongHandles && made !in s.weakHandles
  }

  /** What only moves the thread makes no difference to what it does in the end. */
  lemma OnlyMoved(s: State, t: Thread, pc: Pc, made: Handle)
    ensures TakeStrong(At(s, t, pc), t, made) == TakeStrong(s, t, made)
    ensures TakeWeak(At(s, t, pc), t, made) == TakeWeak(s, t, made)
    ensures At(At(s, t, pc), t, Idle) == At(s, t, Idle)
  {
    assert s.pcs[t := pc][t := Idle] == s.pcs[t := Idle];
  }

  // --- Retaining ---

  /** Nothing stands in the way of a new strong handle: neither what the object is like nor what was loaded. */
  predicate RetainGoes(s: State, t: Thread) {
    && t in s.pcs && s.run.Running? && 0 < s.strong < 0x7fff_ffff && !s.deallocating
    && match s.pcs[t]
       case RetainCheckDead(_) => !s.moved
       case RetainCheckMoved(_) => !s.moved
       case RetainLoad(_) => true
       case RetainCas(_, cur) => cur == s.strong
       case UpgradeLoad(_) => true
       case UpgradeCheck(_, cur) => cur == s.strong
       case UpgradeCas(_, cur) => cur == s.strong
       case _ => false
  }

  function RetainLeft(pc: Pc): nat {
    match pc
    case RetainCheckDead(_) => 4
    case RetainCheckMoved(_) => 3
    case RetainLoad(_) => 2
    case UpgradeLoad(_) => 3
    case UpgradeCheck(_, _) => 2
    case _ => 1
  }

  lemma RetainGoesOn(s: State, t: Thread, made: Handle)
    requires RetainGoes(s, t)
    ensures var s', n := Step(s, t, made), RetainLeft(s.pcs[t]);
      if n == 1 then s' == TakeStrong(s, t, made)
      else t in s'.pcs && s' == At(s, t, s'.pcs[t]) && RetainGoes(s', t) && RetainLeft(s'.pcs[t]) == n - 1
  {
  }

  lemma {:induction false} FinishRetain(s: State, t: Thread, made: Handle)
    requires RetainGoes(s, t) && Fresh(s, made)
    ensures Leads(s, Moves(t, made, RetainLeft(s.pcs[t])), TakeStrong(s, t, made))
    decreases RetainLeft(s.pcs[t])
  {
    var s', n := Step(s, t, made), RetainLeft(s.pcs[t]);
    RetainGoesOn(s, t, made);
    if n == 1 {
      assert Leads(s', Moves(t, made, 0), s');
    } else {
      FinishRetain(s', t, made);
      OnlyMoved(s, t, s'.pcs[t], made);
    }
    MovesFirst(s, t, made, n - 1, TakeStrong(s, t, made));
  }

  /** The state with one strong handle more. */
  function WithStrong(s: State, t: Thread, made: Handle): State {
    s.(strong := s.strong + 1, strongHandles := s.strongHandles[made := t])
  }

  /** A retain that nobody disturbs adds a handle, unless the object is moved or the count at its limit. */
  lemma RetainAlone(s: State, t: Thread, h: Handle, made: Handle)
    requires Inv(s) && Enabled(s, BeginRetain(t, h)) && Fresh(s, made) && !s.moved && s.strong < 0x7fff_ffff
    ensures Leads(s, [BeginRetain(t, h)] + Moves(t, made, 4), WithStrong(s, t, made))
  {
    OwnedIsAlive(s, t, h);
    var s' := At(s, t, RetainCheckDead(h));
    FinishRetain(s', t, made);
    OnlyMoved(s, t, RetainCheckDead(h), made);
    Stays(s, t);
    LeadsFirst(s, BeginRetain(t, h), Moves(t, made, 4), WithStrong(s, t, made));
  }

  /** An upgrade that nobody disturbs adds a handle if there is a strong one, the count at its limit excepted. */
  lemma UpgradeAlone(s: State, t: Thread, w: Handle, made: Handle)
    requires Inv(s) && Enabled(s, BeginUpgrade(t, w)) && Fresh(s, made) && s.strongHandles != map[] && s.strong < 0x7fff_ffff
    ensures Leads(s, [BeginUpgrade(t, w)] + Moves(t, made, 3), WithStrong(s, t, made))
  {
    var h :| h in s.strongHandles;
    OwnedIsAlive(s, s.strongHandles[h], h);
    var s' := At(s, t, UpgradeLoad(w));
    FinishRetain(s', t, made);
    OnlyMoved(s, t, UpgradeLoad(w), made);
    Stays(s, t);
    LeadsFirst(s, BeginUpgrade(t, w), Moves(t, made, 3), WithStrong(s, t, made));
  }

  lemma FailedTest(s: State, t: Thread, made: Handle)
    requires t in s.pcs && s.pcs[t].UpgradeCheck? && s.pcs[t].cur == 0
    ensures Step(s, t, made) == At(s, t, Idle)
  {
  }

  lemma LoadsZero(s: State, t: Thread, made: Handle)
    requires t in s.pcs && s.pcs[t].UpgradeLoad? && s.strong == 0
    ensures Step(s, t, made) == At(s, t, UpgradeCheck(s.pcs[t].w, 0))
  {
  }

  /** Without a strong handle it ends where it began. */
  lemma UpgradeFails(s: State, t: Thread, w: Handle, made: Handle)
    requires Inv(s) && Enabled(s, BeginUpgrade(t, w)) && Fresh(s, made) && s.strongHandles == map[]
    ensures Leads(s, [BeginUpgrade(t, w)] + Moves(t, made, 2), s)
  {
    var s1 := At(s, t, UpgradeLoad(w));
    var s2 := At(s1, t, UpgradeCheck(w, 0));
    LoadsZero(s1, t, made);
    FailedTest(s2, t, made);
    OnlyMoved(s1, t, UpgradeCheck(w, 0), made);
    OnlyMoved(s, t, UpgradeLoad(w), made);
    Stays(s, t);
    assert Leads(s, Moves(t, made, 0), s);
    MovesFirst(s2, t, made, 0, s);
    MovesFirst(s1, t, made, 1, s);
    LeadsFirst(s, BeginUpgrade(t, w), Moves(t, made, 2), s);
  }

  // --- Weak handles ---

  predicate WeakCreateGoes(s: State, t: Thread) {
    && t in s.pcs && s.run.Running? && 0 < s.strong && 0 <= s.weak < 0x7fff_ffff && !s.deallocating
    && InWeakCreate(s.pcs[t]) && (s.pcs[t].WeakCas? ==> s.pcs[t].cur == s.weak)
  }

  function WeakCreateLeft(pc: Pc): nat {
    match pc
    case WeakCheckDead(_) => 4
    case WeakCheckStrong(_) => 3
    case WeakLoad(_) => 2
    case _ => 1
  }

  lemma WeakCreateGoesOn(s: State, t: Thread, made: Handle)
    requires WeakCreateGoes(s, t)
    ensures var s', n := Step(s, t, made), WeakCreateLeft(s.pcs[t]);
      if n == 1 then s' == TakeWeak(s, t, made)
      else t in s'.pcs && s' == At(s, t, s'.pcs[t]) && WeakCreateGoes(s', t) && WeakCreateLeft(s'.pcs[t]) == n - 1
  {
  }

  lemma {:induction false} FinishWeakCreate(s: State, t: Thread, made: Handle)
    requires WeakCreateGoes(s, t) && Fresh(s, made)
    ensures Leads(s, Moves(t, made, WeakCreateLeft(s.pcs[t])), TakeWeak(s, t, made))
    decreases WeakCreateLeft(s.pcs[t])
  {
    var s', n := Step(s, t, made), WeakCreateLeft(s.pcs[t]);
    WeakCreateGoesOn(s, t, made);
    if n == 1 {
      assert Leads(s', Moves(t, made, 0), s');
    } else {
      FinishWeakCreate(s', t, made);
      OnlyMoved(s, t, s'.pcs[t], made);
    }
    MovesFirst(s, t, made, n - 1, TakeWeak(s, t, made));
  }

  function WithWeak(s: State, t: Thread, made: Handle): State {
    s.(weak := s.weak + 1, weakHandles := s.weakHandles[made := t])
  }

  /** Making a weak handle, undisturbed. */
  lemma WeakCreateAlone(s: State, t: Thread, h: Handle, made: Handle)
    requires Inv(s) && Enabled(s, BeginWeakCreate(t, h)) && Fresh(s, made) && s.weak < 0x7fff_ffff
    ensures Leads(s, [BeginWeakCreate(t, h)] + Moves(t, made, 4), WithWeak(s, t, made))
  {
    OwnedIsAlive(s, t, h);
    var s' := At(s, t, WeakCheckDead(h));
    FinishWeakCreate(s', t, made);
    OnlyMoved(s, t, WeakCheckDead(h), made);
    Stays(s, t);
    LeadsFirst(s, BeginWeakCreate(t, h), Moves(t, made, 4), WithWeak(s, t, made));
  }

  // --- Releasing ---

  /** What a thread that takes something apart leaves behind when nobody disturbs it. */
  function Rest(s: State, t: Thread): State
    requires t in s.pcs
  {
    At(RestBody(s, t), t, Idle)
  }

  /** The weak share goes, and the block with it if it was the last. */
  function ShareDropped(s: State): State {
    s.(stage := Finalized, weak := s.weak - 1, frees := if s.weak == 1 then s.frees + 1 else s.frees,
       block := if s.weak == 1 then Freed else s.block)
  }

  function RestBody(s: State, t: Thread): State
    requires t in s.pcs
  {
    match s.pcs[t]
    case ReleaseLoad(h) => StrongGone(s, h)
    case ReleaseCas(h, _) => StrongGone(s, h)
    case MarkDeallocating => ShareDropped(s.(deallocating := true, destructorRuns := s.destructorRuns + 1))
    case RunDestructor => ShareDropped(s.(destructorRuns := s.destructorRuns + 1))
    case DropShare => ShareDropped(s)
    case WeakDrop(w) =>
      s.(weak := s.weak - 1, weakHandles := s.weakHandles - {w}, frees := if s.weak == 1 then s.frees + 1 else s.frees,
         block := if s.weak == 1 then Freed else s.block)
    case WeakFreeCheck => s.(frees := s.frees + 1, block := Freed)
    case FreeBlock => s.(frees := s.frees + 1, block := Freed)
    case _ => s
  }

  /** A strong handle goes; after the last the destructor runs and the share of the strong handles goes. */
  function StrongGone(s: State, h: Handle): State {
    var s' := s.(strong := s.strong - 1, strongHandles := s.strongHandles - {h});
    if s.strong > 1 then s' else ShareDropped(s'.(deallocating := true, destructorRuns := s.destructorRuns + 1))
  }

  predicate RestGoes(s: State, t: Thread) {
    && t in s.pcs && s.run.Running?
    && match s.pcs[t]
       case ReleaseLoad(_) => s.strong > 0 && s.weak > 0 && !s.deallocating
       case ReleaseCas(_, cur) => s.strong == cur > 0 && s.weak > 0 && !s.deallocating
       case MarkDeallocating => !s.deallocating && s.weak > 0
       case RunDestructor => s.weak > 0
       case DropShare => s.weak > 0
       case WeakDrop(_) => s.weak > 1 || (s.weak == 1 && s.strong == 0)
       case WeakFreeCheck => s.strong == 0
       case FreeBlock => true
       case ZeroPayload => true
       case _ => false
  }

  function RestLeft(s: State, t: Thread): nat
    requires t in s.pcs
  {
    match s.pcs[t]
    case ReleaseLoad(_) => if s.strong > 1 then 2 else 6
    case ReleaseCas(_, _) => if s.strong > 1 then 1 else 5
    case MarkDeallocating => 4
    case RunDestructor => 3
    case DropShare => 2
    case WeakDrop(_) => if s.weak > 1 then 1 else 3
    case WeakFreeCheck => 2
    case _ => 1
  }

  ghost predicate GoesOn(s: State, t: Thread, s': State)
    requires t in s.pcs
  {
    if RestLeft(s, t) == 1 then s' == Rest(s, t)
    else
      && RestGoes(s', t) && Rest(s', t) == Rest(s, t) && RestLeft(s', t) == RestLeft(s, t) - 1
      && s'.strongHandles.Keys <= s.strongHandles.Keys && s'.weakHandles.Keys <= s.weakHandles.Keys
  }

  lemma Twice(pcs: map<Thread, Pc>, t: Thread, pc: Pc)
    ensures pcs[t := pc][t := Idle] == pcs[t := Idle]
  {
  }

  lemma ReleaseGoesOn(s: State, t: Thread, made: Handle)
    requires RestGoes(s, t) && InRelease(s.pcs[t])
    ensures GoesOn(s, t, Step(s, t, made))
  {
    Twice(s.pcs, t, ReleaseCas(s.pcs[t].h, s.strong));
    Twice(s.pcs, t, MarkDeallocating);
  }

  lemma EndGoesOn(s: State, t: Thread, made: Handle)
    requires RestGoes(s, t) && (s.pcs[t].MarkDeallocating? || s.pcs[t].RunDestructor?)
    ensures GoesOn(s, t, Step(s, t, made))
  {
    Twice(s.pcs, t, RunDestructor);
    Twice(s.pcs, t, DropShare);
  }

  lemma ShareGoesOn(s: State, t: Thread, made: Handle)
    requires RestGoes(s, t) && s.pcs[t].DropShare?
    ensures GoesOn(s, t, Step(s, t, made))
  {
    Twice(s.pcs, t, FreeBlock);
    Twice(s.pcs, t, ZeroPayload);
  }

  lemma FreeGoesOn(s: State, t: Thread, made: Handle)
    requires RestGoes(s, t) && (s.pcs[t].WeakDrop? || s.pcs[t].WeakFreeCheck? || s.pcs[t].FreeBlock? || s.pcs[t].ZeroPayload?)
    ensures GoesOn(s, t, Step(s, t, made))
  {
    Twice(s.pcs, t, WeakFreeCheck);
    Twice(s.pcs, t, FreeBlock);
  }

  lemma RestGoesOn(s: State, t: Thread, made: Handle)
    requires RestGoes(s, t)
    ensures GoesOn(s, t, Step(s, t, made))
  {
    var pc := s.pcs[t];
    if InRelease(pc) { ReleaseGoesOn(s, t, made); }
    else if pc.MarkDeallocating? || pc.RunDestructor? { EndGoesOn(s, t, made); }
    else if pc.DropShare? { ShareGoesOn(s, t, made); }
    else { FreeGoesOn(s, t, made); }
  }

  lemma {:induction false} FinishRest(s: State, t: Thread, made: Handle)
    requires RestGoes(s, t) && Fresh(s, made)
    ensures Leads(s, Moves(t, made, RestLeft(s, t)), Rest(s, t))
    decreases RestLeft(s, t)
  {
    var s', n := Step(s, t, made), RestLeft(s, t);
    RestGoesOn(s, t, made);
    if n == 1 { assert Leads(s', Moves(t, made, 0), s'); } else { FinishRest(s', t, made); }
    MovesFirst(s, t, made, n - 1, Rest(s, t));
  }

  /** The object at the end of the release of its last strong handle. */
  function TakenApart(s: State, h: Handle): State {
    s.(strong := 0, strongHandles := s.strongHandles - {h}, deallocating := true, destructorRuns := 1, stage := Finalized,
       weak := s.weak - 1, frees := if s.weak == 1 then 1 else 0, block := if s.weak == 1 then Freed else s.block)
  }

  /** A release that nobody disturbs takes its handle away; with the last one the destructor runs, and the block is
      freed if no weak handle is left. */
  lemma ReleaseAlone(s: State, t: Thread, h: Handle, made: Handle)
    requires Inv(s) && Enabled(s, BeginRelease(t, h)) && Fresh(s, made)
    ensures s.strong > 1 ==>
      Leads(s, [BeginRelease(t, h)] + Moves(t, made, 2), s.(strong := s.strong - 1, strongHandles := s.strongHandles - {h}))
    ensures s.strong == 1 ==> Leads(s, [BeginRelease(t, h)] + Moves(t, made, 6), TakenApart(s, h))
  {
    OwnedIsAlive(s, t, h);
    var s' := At(s, t, ReleaseLoad(h));
    FinishRest(s', t, made);
    Twice(s.pcs, t, ReleaseLoad(h));
    Stays(s, t);
    LeadsFirst(s, BeginRelease(t, h), Moves(t, made, RestLeft(s', t)), Rest(s', t));
  }

  /** The last weak count is a weak handle's only once the object is finalized. */
  lemma LastShare(s: State, w: Handle)
    requires Inv(s) && w in s.weakHandles
    ensures s.weak > 0 && (s.weak == 1 ==> s.strong == 0 && s.frees == 0)
  {
    HasHandle(s.weakHandles, w);
  }

  /** A weak release that nobody disturbs takes its handle away. */
  lemma WeakReleaseAlone(s: State, t: Thread, w: Handle, made: Handle)
    requires Inv(s) && Enabled(s, BeginWeakRelease(t, w)) && Fresh(s, made) && s.weak > 1
    ensures Leads(s, [BeginWeakRelease(t, w)] + Moves(t, made, 1), s.(weak := s.weak - 1, weakHandles := s.weakHandles - {w}))
  {
    var s' := At(s, t, WeakDrop(w));
    FinishRest(s', t, made);
    Twice(s.pcs, t, WeakDrop(w));
    Stays(s, t);
    LeadsFirst(s, BeginWeakRelease(t, w), Moves(t, made, 1), Rest(s', t));
  }

  /** And it frees the block if nothing else is left. */
  lemma LastWeakReleaseAlone(s: State, t: Thread, w: Handle, made: Handle)
    requires Inv(s) && Enabled(s, BeginWeakRelease(t, w)) && Fresh(s, made) && s.weak == 1
    ensures Leads(s, [BeginWeakRelease(t, w)] + Moves(t, made, 3),
              s.(weak := 0, weakHandles := s.weakHandles - {w}, frees := 1, block := Freed))
  {
    LastShare(s, w);
    var s' := At(s, t, WeakDrop(w));
    FinishRest(s', t, made);
    Twice(s.pcs, t, WeakDrop(w));
    Stays(s, t);
    LeadsFirst(s, BeginWeakRelease(t, w), Moves(t, made, 3), Rest(s', t));
  }

  // --- Handles passed on, and moved objects ---

  /** A handle given to another thread is that thread's, and nothing else changes. */
  lemma GivenAway(s: State, t: Thread, h: Handle, to: Thread)
    requires Enabled(s, Give(t, h, to))
    ensures var s' := Apply(s, Give(t, h, to));
      && Owns(s', to, h) && (to != t ==> !Owns(s', t, h)) && s'.strongHandles.Keys == s.strongHandles.Keys
      && s' == s.(strongHandles := s'.strongHandles) && forall g | g in s.strongHandles && g != h :: s'.strongHandles[g] == s.strongHandles[g]
  {
  }

  lemma WeakGivenAway(s: State, t: Thread, w: Handle, to: Thread)
    requires Enabled(s, GiveWeak(t, w, to))
    ensures var s' := Apply(s, GiveWeak(t, w, to));
      && OwnsWeak(s', to, w) && (to != t ==> !OwnsWeak(s', t, w)) && s'.weakHandles.Keys == s.weakHandles.Keys
      && s' == s.(weakHandles := s'.weakHandles) && forall g | g in s.weakHandles && g != w :: s'.weakHandles[g] == s.weakHandles[g]
  {
  }

  /** Once an object is marked as moved every retain that nobody disturbs stops the program. */
  lemma MovedStops(s: State, t: Thread, h: Handle, u: Thread, g: Handle, made: Handle)
    requires Inv(s) && Enabled(s, MarkMoved(t, h)) && Enabled(Apply(s, MarkMoved(t, h)), BeginRetain(u, g)) && Fresh(s, made)
    ensures var s' := Apply(s, MarkMoved(t, h));
      exists v :: Leads(s', [BeginRetain(u, g)] + Moves(u, made, 2), v) && v.run == Aborted(RetainMoved)
  {
    OwnedIsAlive(s, u, g);
    var s' := Apply(s, MarkMoved(t, h));
    var s1 := At(s', u, RetainCheckDead(g));
    var s2 := At(s1, u, RetainCheckMoved(g));
    var v := Abort(s2, RetainMoved);
    assert Leads(v, Moves(u, made, 0), v);
    MovesFirst(s2, u, made, 0, v);
    MovesFirst(s1, u, made, 1, v);
    LeadsFirst(s', BeginRetain(u, g), Moves(u, made, 2), v);
  }

  // --- Calls without a handle of one's own ---

  /** The checks that no thread runs into as long as it uses its own handles stop the program otherwise. */
  lemma RetainMisused(s: State, t: Thread, made: Handle)
    requires t in s.pcs && !s.pcs[t].Idle?
    ensures s.pcs[t].RetainCheckDead? && s.deallocating ==> Step(s, t, made).run == Aborted(RetainDead)
    ensures s.pcs[t].RetainCas? && s.pcs[t].cur < 0 ==> Step(s, t, made).run == Aborted(Underflow)
  {
  }

  lemma WeakMisused(s: State, t: Thread, made: Handle)
    requires t in s.pcs && !s.pcs[t].Idle?
    ensures s.pcs[t].WeakCheckDead? && s.deallocating ==> Step(s, t, made).run == Aborted(WeakOfDead)
    ensures s.pcs[t].WeakCheckStrong? && s.strong <= 0 ==> Step(s, t, made).run == Aborted(WeakOfDead)
    ensures s.pcs[t].WeakCas? && s.pcs[t].cur < 0 ==> Step(s, t, made).run == Aborted(Underflow)
  {
  }

  /** An over-release stops the program, unless the object is destroyed already, when it does nothing. */
  lemma OverReleased(s: State, t: Thread, made: Handle)
    requires t in s.pcs && s.pcs[t].ReleaseCas? && s.pcs[t].cur <= 0
    ensures Step(s, t, made) == if s.deallocating then At(s, t, Idle) else Abort(s, OverRelease)
  {
  }

  /** A weak count of zero stops the program where it is to go down; an object is destroyed once, and freed only without
      strong count. */
  lemma EndMisused(s: State, t: Thread, made: Handle)
    requires t in s.pcs && !s.pcs[t].Idle?
    ensures (s.pcs[t].DropShare? || s.pcs[t].WeakDrop?) && s.weak <= 0 ==> Step(s, t, made).run == Aborted(WeakUnderflow)
    ensures s.pcs[t].MarkDeallocating? && s.deallocating ==> Step(s, t, made) == At(s, t, Idle)
    ensures s.pcs[t].WeakFreeCheck? && s.strong > 0 ==> Step(s, t, made) == At(s, t, Idle)
  {
  }
}
