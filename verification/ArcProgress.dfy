/** How long a call on a reference-counted object takes: its loops go round again only when a count has changed. */
module ArcProgress {
  import opened ArcLifecycle

  /** The steps a call still takes at most if no count changes from what it is. */
  function Left(strong: int, weak: int, pc: Pc): (n: nat)
    ensures n <= 6 && (n == 0 <==> pc.Idle?)
  {
    match pc
    case Idle => 0
    case RetainCheckDead(_) => 4
    case RetainCheckMoved(_) => 3
    case RetainLoad(_) => 2
    case RetainCas(_, cur) => if cur == strong then 1 else 2
    case ReleaseLoad(_) => 6
    case ReleaseCas(_, cur) => if cur == strong then 5 else 6
    case MarkDeallocating => 4
    case RunDestructor => 3
    case DropShare => 2
    case FreeBlock => 1
    case ZeroPayload => 1
    case WeakCheckDead(_) => 4
    case WeakCheckStrong(_) => 3
    case WeakLoad(_) => 2
    case WeakCas(_, cur) => if cur == weak then 1 else 2
    case UpgradeLoad(_) => 3
    case UpgradeCheck(_, cur) => if cur == strong then 2 else 4
    case UpgradeCas(_, cur) => if cur == strong then 1 else 3
    case WeakDrop(_) => 3
    case WeakFreeCheck => 2
  }

  ghost function LeftOf(s: State, t: Thread): nat {
    if t in s.pcs then Left(s.strong, s.weak, s.pcs[t]) else 0
  }

  predicate InFinalize(pc: Pc) {
    pc.MarkDeallocating? || pc.RunDestructor? || pc.DropShare? || pc.FreeBlock? || pc.ZeroPayload?
  }

  predicate InWeakRelease(pc: Pc) {
    pc.WeakDrop? || pc.WeakFreeCheck?
  }

  /** The call of `t` is nearer to its end, and other threads are where they were. */
  ghost predicate Nearer(s: State, s': State, t: Thread)
    requires t in s.pcs
  {
    && (forall u | u in s.pcs && u != t :: u in s'.pcs && s'.pcs[u] == s.pcs[u])
    && (s'.run.Running? ==> t in s'.pcs && Left(s'.strong, s'.weak, s'.pcs[t]) < Left(s.strong, s.weak, s.pcs[t]))
  }

  lemma RetainGetsOn(s: State, t: Thread, made: Handle)
    requires t in s.pcs && InRetain(s.pcs[t])
    ensures Nearer(s, Step(s, t, made), t)
  {
  }

  lemma UpgradeGetsOn(s: State, t: Thread, made: Handle)
    requires t in s.pcs && InUpgrade(s.pcs[t]) && !s.pcs[t].UpgradeCas?
    ensures Nearer(s, Step(s, t, made), t)
  {
  }

  lemma WeakCreateGetsOn(s: State, t: Thread, made: Handle)
    requires t in s.pcs && InWeakCreate(s.pcs[t]) && !s.pcs[t].WeakCas?
    ensures Nearer(s, Step(s, t, made), t)
  {
  }

  lemma ExchangeGetsOn(s: State, t: Thread, made: Handle)
    requires t in s.pcs && (s.pcs[t].WeakCas? || s.pcs[t].UpgradeCas?)
    ensures Nearer(s, Step(s, t, made), t)
  {
  }

  lemma ReleaseGetsOn(s: State, t: Thread, made: Handle)
    requires t in s.pcs && (s.pcs[t].ReleaseLoad? || s.pcs[t].ReleaseCas?)
    ensures Nearer(s, Step(s, t, made), t)
  {
  }

  lemma FinalizeGetsOn(s: State, t: Thread, made: Handle)
    requires t in s.pcs && InFinalize(s.pcs[t])
    ensures Nearer(s, Step(s, t, made), t)
  {
  }

  lemma WeakReleaseGetsOn(s: State, t: Thread, made: Handle)
    requires t in s.pcs && InWeakRelease(s.pcs[t])
    ensures Nearer(s, Step(s, t, made), t)
  {
  }

  /** Every step of a thread brings its call nearer to its end. */
  lemma GetsOn(s: State, t: Thread, made: Handle)
    requires t in s.pcs && !s.pcs[t].Idle?
    ensures Nearer(s, Step(s, t, made), t)
  {
    var pc := s.pcs[t];
    if InRetain(pc) { RetainGetsOn(s, t, made); }
    else if pc.WeakCas? || pc.UpgradeCas? { ExchangeGetsOn(s, t, made); }
    else if InUpgrade(pc) { UpgradeGetsOn(s, t, made); }
    else if InWeakCreate(pc) { WeakCreateGetsOn(s, t, made); }
    else if InFinalize(pc) { FinalizeGetsOn(s, t, made); }
    else if InWeakRelease(pc) { WeakReleaseGetsOn(s, t, made); }
    else { ReleaseGetsOn(s, t, made); }
  }

  predicate SameCounts(s: State, s': State) {
    s'.strong == s.strong && s'.weak == s.weak
  }

  lemma CountsMatter(strong: int, weak: int, strong': int, weak': int, pc: Pc)
    ensures Left(strong', weak', pc) <= Left(strong, weak, pc) + 2
  {
  }

  lemma OthersLeave(s: State, a: Action, t: Thread)
    requires Enabled(s, a) && t in s.pcs && !s.pcs[t].Idle? && !(a.Move? && a.t == t)
    ensures t in Apply(s, a).pcs && Apply(s, a).pcs[t] == s.pcs[t]
  {
    if a.Move? { GetsOn(s, a.t, a.made); }
  }

  /** The steps of thread `t` from the `m`-th action on. */
  ghost function Own(acts: seq<Action>, t: Thread, m: nat, n: nat): nat
    requires m <= n <= |acts|
  {
    if m == n then 0 else Own(acts, t, m, n - 1) + (if acts[n - 1].Move? && acts[n - 1].t == t then 1 else 0)
  }

  /** How often another thread changes a count. */
  ghost function Changes(states: seq<State>, acts: seq<Action>, t: Thread, m: nat, n: nat): nat
    requires m <= n <= |acts| < |states|
  {
    if m == n then 0
    else Changes(states, acts, t, m, n - 1) +
         (if (acts[n - 1].Move? && acts[n - 1].t == t) || SameCounts(states[n - 1], states[n]) then 0 else 1)
  }

  ghost predicate InCall(states: seq<State>, t: Thread, i: int) {
    0 <= i < |states| && t in states[i].pcs && !states[i].pcs[t].Idle? && states[i].run.Running?
  }

  /** The others put a call back only by changing a count, and by no more than two steps. */
  lemma StepUsed(states: seq<State>, acts: seq<Action>, t: Thread, i: nat)
    requires History(states, acts) && i < |acts| && InCall(states, t, i) && InCall(states, t, i + 1)
    ensures LeftOf(states[i + 1], t) + Own(acts, t, i, i + 1) <= LeftOf(states[i], t) + 2 * Changes(states, acts, t, i, i + 1)
  {
    assert StepAt(states, acts, i);
    var s, a := states[i], acts[i];
    assert Own(acts, t, i, i) == 0 && Changes(states, acts, t, i, i) == 0;
    if a.Move? && a.t == t {
      GetsOn(s, t, a.made);
    } else {
      OthersLeave(s, a, t);
      CountsMatter(s.strong, s.weak, states[i + 1].strong, states[i + 1].weak, s.pcs[t]);
    }
  }

  lemma {:induction false} StepsUsed(states: seq<State>, acts: seq<Action>, t: Thread, m: nat, n: nat)
    requires History(states, acts) && m <= n <= |acts| && forall i {:trigger InCall(states, t, i)} | m <= i <= n :: InCall(states, t, i)
    ensures LeftOf(states[n], t) + Own(acts, t, m, n) <= LeftOf(states[m], t) + 2 * Changes(states, acts, t, m, n)
    decreases n
  {
    if m < n {
      StepsUsed(states, acts, t, m, n - 1);
      assert InCall(states, t, n - 1) && InCall(states, t, n);
      StepUsed(states, acts, t, n - 1);
      assert Own(acts, t, n - 1, n - 1) == 0 && Changes(states, acts, t, n - 1, n - 1) == 0;
    }
  }

  /** In every interleaving: a call that has not come to its end has taken fewer than six steps of its thread, and two more
      for every time that another thread has changed a count. */
  lemma CallIsBounded(states: seq<State>, acts: seq<Action>, t: Thread, m: nat, n: nat)
    requires History(states, acts) && m < n <= |acts| && t in states[m].pcs && states[m].pcs[t].Idle?
    requires forall i {:trigger InCall(states, t, i)} | m < i <= n :: InCall(states, t, i)
    ensures Own(acts, t, m + 1, n) < 6 + 2 * Changes(states, acts, t, m + 1, n)
  {
    StepsUsed(states, acts, t, m + 1, n);
    assert InCall(states, t, n);
  }
}
