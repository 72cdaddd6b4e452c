/** What the calls of the deque do: which task a push puts in, when a steal may fail, and what a call that nobody
    disturbs achieves. */
module WorkDequeCalls {
  import opened WorkDeque

  // --- Arguments and reasons, in every interleaving ---

  predicate StartsOwner(a: Action) {
    a.StartPush? || a.StartPop? || a.AllocationFails?
  }

  /** The push under way at step `n` is that of the owner's last call. */
  lemma {:induction false} PushOf(states: seq<State>, acts: seq<Action>, n: nat) returns (i: nat)
    requires Run(states, acts) && n <= |acts| && Pushing(states[n].owner)
    ensures i < n && acts[i] == StartPush(states[n].owner.task)
    ensures forall j | i < j < n :: !StartsOwner(acts[j])
    decreases n
  {
    assert n > 0;
    assert StepAt(states, acts, n - 1);
    if acts[n - 1].StartPush? {
      i := n - 1;
    } else {
      i := PushOf(states, acts, n - 1);
    }
  }

  /** What a push puts in is the argument of its call. */
  lemma PushedIsArgument(states: seq<State>, acts: seq<Action>, n: nat) returns (i: nat)
    requires Run(states, acts) && n < |acts| && LabelAt(states, acts, n).Pushed?
    ensures i < n && acts[i] == StartPush(LabelAt(states, acts, n).task)
    ensures forall j | i < j < n :: !StartsOwner(acts[j])
  {
    assert StepAt(states, acts, n);
    i := PushOf(states, acts, n);
  }

  /** The thief's index is what `top` was when its call began. */
  lemma {:induction false} StealOf(states: seq<State>, acts: seq<Action>, n: nat, k: nat) returns (i: nat)
    requires Run(states, acts) && n <= |acts| && k in states[n].thieves && !states[n].thieves[k].Away?
    ensures i < n && acts[i] == StartSteal(k) && states[n].thieves[k].t == states[i].top
    ensures forall j | i < j < n :: acts[j] != StartSteal(k)
    decreases n
  {
    assert n > 0;
    assert StepAt(states, acts, n - 1);
    if acts[n - 1] == StartSteal(k) {
      i := n - 1;
    } else {
      i := StealOf(states, acts, n - 1, k);
    }
  }

  predicate Popping(o: Owner) {
    !o.Resting? && !Pushing(o)
  }

  /** A steal fails only on an empty deque, or against a pop of the last task, or after another took the task. */
  lemma MissedStep(s: State, k: nat)
    requires Inv(s) && Enabled(s, ThiefMoves(k)) && ThiefStep(s, k).1 == Missed
    ensures Tasks(s) == [] || (|Tasks(s)| == 1 && Popping(s.owner)) || s.top > s.thieves[k].t
  {
    assert ThiefOk(s, s.thieves[k]);
  }

  /** In every interleaving: a steal answers NULL only if, at that step, nothing is left, or the owner is popping the
      one task that is left, or `top` has moved since the call began. */
  lemma MissedHasReason(states: seq<State>, acts: seq<Action>, n: nat) returns (i: nat)
    requires Run(states, acts) && n < |acts| && LabelAt(states, acts, n) == Missed
    ensures i < n && acts[n].ThiefMoves? && acts[i] == StartSteal(acts[n].k) && forall j | i < j < n :: acts[j] != StartSteal(acts[n].k)
    ensures var s := states[n];
      Tasks(s) == [] || (|Tasks(s)| == 1 && Popping(s.owner)) || s.top > states[i].top
  {
    assert StepAt(states, acts, n);
    RunInv(states, acts, n);
    i := StealOf(states, acts, n, acts[n].k);
    MissedStep(states[n], acts[n].k);
  }

  // --- Undisturbed calls ---

  /** From `s` the actions lead to `t`, with these labels. */
  ghost predicate Leads(s: State, acts: seq<Action>, labels: seq<Label>, t: State)
    decreases |acts|
  {
    if acts == [] then labels == [] && t == s
    else
      && labels != [] && BuffersUsable(s) && Enabled(s, acts[0]) && labels[0] == Apply(s, acts[0]).1
      && Leads(Apply(s, acts[0]).0, acts[1..], labels[1..], t)
  }

  lemma LeadsFirst(s: State, a: Action, acts: seq<Action>, labels: seq<Label>, t: State)
    requires BuffersUsable(s) && Enabled(s, a) && Leads(Apply(s, a).0, acts, labels, t)
    ensures Leads(s, [a] + acts, [Apply(s, a).1] + labels, t)
  {
    assert ([a] + acts)[1..] == acts && ([Apply(s, a).1] + labels)[1..] == labels;
  }

  /** The labels that say something. */
  function Told(labels: seq<Label>): seq<Label> {
    if labels == [] then [] else (if labels[0].Silent? then [] else [labels[0]]) + Told(labels[1..])
  }

  lemma ToldFirst(l: Label, labels: seq<Label>)
    ensures Told([l] + labels) == (if l.Silent? then [] else [l]) + Told(labels)
  {
    assert ([l] + labels)[1..] == labels;
  }

  /** The step that begins a call says nothing yet. */
  lemma CallFirst(s: State, a: Action, acts: seq<Action>, labels: seq<Label>, t: State) returns (labels': seq<Label>)
    requires BuffersUsable(s) && Enabled(s, a) && Apply(s, a).1 == Silent && Leads(Apply(s, a).0, acts, labels, t)
    ensures Leads(s, [a] + acts, labels', t) && Told(labels') == Told(labels)
  {
    LeadsFirst(s, a, acts, labels, t);
    ToldFirst(Silent, labels);
    labels' := [Silent] + labels;
  }

  predicate OwnerOnly(acts: seq<Action>) {
    forall i | 0 <= i < |acts| :: acts[i].OwnerMoves?
  }

  /** The owner's next step, and what comes after it. */
  lemma OwnerFirst(s: State, acts: seq<Action>, labels: seq<Label>, t: State) returns (acts': seq<Action>, labels': seq<Label>)
    requires BuffersUsable(s) && !s.owner.Resting? && Leads(OwnerStep(s).0, acts, labels, t) && OwnerOnly(acts)
    ensures Leads(s, acts', labels', t) && OwnerOnly(acts') && |acts'| == |acts| + 1
    ensures Told(labels') == (if OwnerStep(s).1.Silent? then [] else [OwnerStep(s).1]) + Told(labels)
  {
    acts', labels' := [OwnerMoves] + acts, [OwnerStep(s).1] + labels;
    LeadsFirst(s, OwnerMoves, acts, labels, t);
    ToldFirst(OwnerStep(s).1, labels);
  }

  /** How many steps a push has yet to take at most. */
  ghost function PushLeft(s: State): int {
    match s.owner
    case PushLoaded(_, b) => b - s.top + 6
    case GrowStart(_, b) => b - s.top + 5
    case Growing(_, b, _, i, _) => b - i + 4
    case PushChecked(_, _) => 3
    case PushWritten(_, _) => 2
    case _ => 0
  }

  /** The buffer's size once the push is through: doubled if there was room for no more than one task. */
  ghost function Roomy(s: State): int
    requires BuffersUsable(s)
  {
    match s.owner
    case GrowStart(_, _) => 2 * |Buf(s)|
    case Growing(_, _, _, _, _) => 2 * |Buf(s)|
    case PushLoaded(_, _) => if |Tasks(s)| + 1 >= |Buf(s)| then 2 * |Buf(s)| else |Buf(s)|
    case _ => |Buf(s)|
  }

  lemma PushStepGoesOn(s: State)
    requires Inv(s) && Pushing(s.owner)
    ensures var t, l := OwnerStep(s).0, OwnerStep(s).1;
      && Inv(t) && t.thieves == s.thieves && t.top == s.top && PushLeft(s) >= 0
      && (s.owner.PushWritten? ==>
            t.owner.Resting? && l == Pushed(s.owner.task) && Tasks(t) == Tasks(s) + [s.owner.task] && |Buf(t)| == Roomy(s))
      && (!s.owner.PushWritten? ==>
            && Pushing(t.owner) && t.owner.task == s.owner.task && l == Silent && Tasks(t) == Tasks(s)
            && PushLeft(t) < PushLeft(s) && Roomy(t) == Roomy(s))
  {
    PushKeepsInv(s);
  }

  lemma {:induction false} FinishPush(s: State) returns (acts: seq<Action>, labels: seq<Label>, t: State)
    requires Inv(s) && Pushing(s.owner)
    ensures Leads(s, acts, labels, t) && OwnerOnly(acts) && Told(labels) == [Pushed(s.owner.task)]
    ensures Inv(t) && t.owner.Resting? && Tasks(t) == Tasks(s) + [s.owner.task] && t.thieves == s.thieves && |Buf(t)| == Roomy(s)
    decreases PushLeft(s)
  {
    PushStepGoesOn(s);
    var s' := OwnerStep(s).0;
    if s.owner.PushWritten? {
      t := s';
      acts, labels := OwnerFirst(s, [], [], t);
    } else {
      acts, labels, t := FinishPush(s');
      acts, labels := OwnerFirst(s, acts, labels, t);
    }
  }

  /** A push that nobody disturbs, and whose allocation succeeds if it needs one, puts its task at the right end. */
  lemma PushAlone(s: State, task: Task) returns (acts: seq<Action>, labels: seq<Label>, t: State)
    requires Inv(s) && s.owner.Resting?
    ensures Leads(s, [StartPush(task)] + acts, labels, t) && OwnerOnly(acts) && Told(labels) == [Pushed(task)]
    ensures Inv(t) && t.owner.Resting? && Tasks(t) == Tasks(s) + [task] && t.thieves == s.thieves
    ensures |Buf(t)| == if |Tasks(s)| + 1 >= |Buf(s)| then 2 * |Buf(s)| else |Buf(s)|
  {
    StepRefinesDeque(s, StartPush(task));
    acts, labels, t := FinishPush(Apply(s, StartPush(task)).0);
    labels := CallFirst(s, StartPush(task), acts, labels, t);
  }

  /** The owner is in a pop that has not met a thief: there is a task where it looks, or none at all. */
  predicate PopUndisturbed(s: State) {
    match s.owner
    case PopLoaded(_) => true
    case PopStored(_) => true
    case PopRead(b) => s.top < b
    case PopLast(b) => s.top == b
    case PopRace(b, _) => s.top == b
    case _ => false
  }

  ghost function PopLeft(s: State): int {
    match s.owner
    case PopLoaded(_) => 6
    case PopStored(_) => 5
    case PopLast(_) => 4
    case PopRace(_, _) => 3
    case PopRead(_) => 2
    case PopUndo(_) => 1
    case _ => 0
  }

  /** What the pop of these tasks says, and what it leaves. */
  function PopSays(tasks: seq<Task>): Label {
    if tasks == [] then FoundEmpty else Popped(tasks[|tasks| - 1])
  }

  function PopLeaves(tasks: seq<Task>): seq<Task> {
    if tasks == [] then [] else tasks[..|tasks| - 1]
  }

  lemma PopStepGoesOn(s: State)
    requires Inv(s) && PopUndisturbed(s)
    ensures var t, l := OwnerStep(s).0, OwnerStep(s).1;
      && Inv(t) && t.thieves == s.thieves && PopLeft(t) < PopLeft(s)
      && (l == Silent ==> PopUndisturbed(t) && Tasks(t) == Tasks(s))
      && (l != Silent ==>
            l == PopSays(Tasks(s)) && Tasks(t) == PopLeaves(Tasks(s)) && (t.owner.Resting? || t.owner.PopUndo?))
  {
    PopKeepsInv(s);
    if s.owner.PopStored? && s.top < s.owner.b { assert |Tasks(s)| > 1; }
  }

  lemma UndoStep(s: State)
    requires Inv(s) && s.owner.PopUndo?
    ensures var t := OwnerStep(s).0;
      Inv(t) && t.owner.Resting? && Tasks(t) == Tasks(s) && t.thieves == s.thieves && OwnerStep(s).1 == Silent
  {
    PopKeepsInv(s);
  }

  lemma FinishUndo(s: State) returns (acts: seq<Action>, labels: seq<Label>, t: State)
    requires Inv(s) && (s.owner.Resting? || s.owner.PopUndo?)
    ensures Leads(s, acts, labels, t) && OwnerOnly(acts) && Told(labels) == []
    ensures Inv(t) && t.owner.Resting? && Tasks(t) == Tasks(s) && t.thieves == s.thieves
  {
    acts, labels, t := [], [], s;
    if s.owner.PopUndo? {
      UndoStep(s);
      t := OwnerStep(s).0;
      acts, labels := OwnerFirst(s, [], [], t);
    }
  }

  lemma {:induction false} FinishPop(s: State) returns (acts: seq<Action>, labels: seq<Label>, t: State)
    requires Inv(s) && PopUndisturbed(s)
    ensures Leads(s, acts, labels, t) && OwnerOnly(acts) && Told(labels) == [PopSays(Tasks(s))]
    ensures Inv(t) && t.owner.Resting? && Tasks(t) == PopLeaves(Tasks(s)) && t.thieves == s.thieves
    decreases PopLeft(s)
  {
    PopStepGoesOn(s);
    var s' := OwnerStep(s).0;
    if OwnerStep(s).1 == Silent {
      acts, labels, t := FinishPop(s');
    } else {
      acts, labels, t := FinishUndo(s');
    }
    acts, labels := OwnerFirst(s, acts, labels, t);
  }

  lemma PopStarts(s: State)
    requires Inv(s) && s.owner.Resting?
    ensures var s' := Apply(s, StartPop).0; Inv(s') && PopUndisturbed(s') && Tasks(s') == Tasks(s) && s'.thieves == s.thieves
  {
    StepRefinesDeque(s, StartPop);
  }

  /** A pop that nobody disturbs takes the newest task, and answers NULL exactly if there is none. */
  lemma PopAlone(s: State) returns (acts: seq<Action>, labels: seq<Label>, t: State)
    requires Inv(s) && s.owner.Resting?
    ensures Leads(s, [StartPop] + acts, labels, t) && OwnerOnly(acts)
    ensures Inv(t) && t.owner.Resting? && t.thieves == s.thieves
    ensures Tasks(s) == [] ==> Told(labels) == [FoundEmpty] && Tasks(t) == []
    ensures Tasks(s) != [] ==> Told(labels) == [Popped(Tasks(s)[|Tasks(s)| - 1])] && Tasks(t) == Tasks(s)[..|Tasks(s)| - 1]
  {
    PopStarts(s);
    acts, labels, t := FinishPop(Apply(s, StartPop).0);
    labels := CallFirst(s, StartPop, acts, labels, t);
  }

  /** A steal that nobody disturbs takes the oldest task, and answers NULL exactly if there is none. */
  lemma StealAlone(s: State, k: nat) returns (acts: seq<Action>, labels: seq<Label>, t: State)
    requires Inv(s) && s.owner.Resting? && k in s.thieves && s.thieves[k].Away?
    ensures Leads(s, [StartSteal(k)] + acts, labels, t) && forall i | 0 <= i < |acts| :: acts[i] == ThiefMoves(k)
    ensures Inv(t) && t.owner == s.owner && t.thieves == s.thieves
    ensures Tasks(s) == [] ==> Told(labels) == [Missed] && Tasks(t) == []
    ensures Tasks(s) != [] ==> Told(labels) == [Stolen(Tasks(s)[0])] && Tasks(t) == Tasks(s)[1..]
  {
    StealStarts(s, k);
    acts, labels, t := FinishSteal(Apply(s, StartSteal(k)).0, k);
    labels := CallFirst(s, StartSteal(k), acts, labels, t);
  }

  lemma StealStarts(s: State, k: nat)
    requires Inv(s) && s.owner.Resting? && k in s.thieves && s.thieves[k].Away?
    ensures BuffersUsable(s) && Enabled(s, StartSteal(k)) && Apply(s, StartSteal(k)).1 == Silent
    ensures var s' := Apply(s, StartSteal(k)).0;
      && Inv(s') && s'.owner == s.owner && Tasks(s') == Tasks(s)
      && k in s'.thieves && !s'.thieves[k].Away? && s'.thieves[k].t == s'.top && s'.thieves[k := Away] == s.thieves
  {
    StepRefinesDeque(s, StartSteal(k));
    assert s.thieves[k := Away] == s.thieves;
  }

  function StealSays(tasks: seq<Task>): Label {
    if tasks == [] then Missed else Stolen(tasks[0])
  }

  function StealLeaves(tasks: seq<Task>): seq<Task> {
    if tasks == [] then [] else tasks[1..]
  }

  ghost function StealLeft(th: Thief): int {
    match th
    case TopLoaded(_) => 4
    case BottomPassed(_) => 3
    case PairLoaded(_, _) => 2
    case SlotRead(_, _) => 1
    case Away => 0
  }

  lemma StealStepGoesOn(s: State, k: nat)
    requires Inv(s) && s.owner.Resting? && k in s.thieves && !s.thieves[k].Away? && s.thieves[k].t == s.top
    ensures var t, l := ThiefStep(s, k).0, ThiefStep(s, k).1;
      && Inv(t) && t.owner == s.owner && k in t.thieves && t.thieves == s.thieves[k := t.thieves[k]]
      && StealLeft(t.thieves[k]) < StealLeft(s.thieves[k])
      && (l == Silent ==> Tasks(t) == Tasks(s) && !t.thieves[k].Away? && t.thieves[k].t == t.top)
      && (l != Silent ==> t.thieves[k].Away? && l == StealSays(Tasks(s)) && Tasks(t) == StealLeaves(Tasks(s)))
  {
    assert ThiefOk(s, s.thieves[k]);
    match s.thieves[k]
    case TopLoaded(_) => BottomReadInv(s, k);
    case BottomPassed(_) => PairReadInv(s, k);
    case PairLoaded(_, _) => SlotReadInv(s, k);
    case SlotRead(_, _) => ExchangeInv(s, k);
  }

  /** The thief's next step, and what comes after it. */
  lemma ThiefFirst(s: State, k: nat, acts: seq<Action>, labels: seq<Label>, t: State) returns (acts': seq<Action>, labels': seq<Label>)
    requires BuffersUsable(s) && Enabled(s, ThiefMoves(k)) && Leads(ThiefStep(s, k).0, acts, labels, t)
    requires forall i | 0 <= i < |acts| :: acts[i] == ThiefMoves(k)
    ensures Leads(s, acts', labels', t) && forall i | 0 <= i < |acts'| :: acts'[i] == ThiefMoves(k)
    ensures Told(labels') == (if ThiefStep(s, k).1.Silent? then [] else [ThiefStep(s, k).1]) + Told(labels)
  {
    acts', labels' := [ThiefMoves(k)] + acts, [ThiefStep(s, k).1] + labels;
    LeadsFirst(s, ThiefMoves(k), acts, labels, t);
    ToldFirst(ThiefStep(s, k).1, labels);
  }

  lemma {:induction false} FinishSteal(s: State, k: nat) returns (acts: seq<Action>, labels: seq<Label>, t: State)
    requires Inv(s) && s.owner.Resting? && k in s.thieves && !s.thieves[k].Away? && s.thieves[k].t == s.top
    ensures Leads(s, acts, labels, t) && forall i | 0 <= i < |acts| :: acts[i] == ThiefMoves(k)
    ensures Inv(t) && t.owner == s.owner && t.thieves == s.thieves[k := Away]
    ensures Told(labels) == [StealSays(Tasks(s))] && Tasks(t) == StealLeaves(Tasks(s))
    decreases StealLeft(s.thieves[k])
  {
    StealStepGoesOn(s, k);
    var s' := ThiefStep(s, k).0;
    if ThiefStep(s, k).1 == Silent {
      acts, labels, t := FinishSteal(s', k);
    } else {
      acts, labels, t := [], [], s';
    }
    acts, labels := ThiefFirst(s, k, acts, labels, t);
  }

  // --- Every call ends ---

  /** Every step of a pop brings it nearer to its end, whatever the thieves do. For a push this is `PushStepGoesOn`. */
  lemma PopGetsOn(s: State)
    requires BuffersUsable(s) && Popping(s.owner)
    ensures var t, l := OwnerStep(s).0, OwnerStep(s).1;
      && 0 <= PopLeft(t) < PopLeft(s) && !Pushing(t.owner) && (t.owner.Resting? <==> PopLeft(t) == 0)
      && (t.owner.Resting? ==> s.owner.PopUndo? || l.Popped?)
  {
  }

  /** It answers NULL only on an empty deque, and then has bottom to put back. */
  lemma PopMissed(s: State)
    requires Inv(s) && Popping(s.owner) && OwnerStep(s).1 == FoundEmpty
    ensures Tasks(s) == [] && OwnerStep(s).0.owner.PopUndo?
  {
    PopKeepsInv(s);
  }

  /** The same for a steal, which no one else can make longer. */
  lemma StealGetsOn(s: State, k: nat)
    requires Inv(s) && Enabled(s, ThiefMoves(k))
    ensures var t, l := ThiefStep(s, k).0, ThiefStep(s, k).1;
      && k in t.thieves && 0 <= StealLeft(t.thieves[k]) < StealLeft(s.thieves[k])
      && (t.thieves[k].Away? <==> l == Missed || l.Stolen?)
  {
  }

  /** Thieves leave the owner's call where it is, and everyone leaves a steal. */
  lemma OthersLeave(s: State, a: Action, k: nat)
    requires BuffersUsable(s) && Enabled(s, a) && k in s.thieves && !s.thieves[k].Away? && a != ThiefMoves(k)
    ensures k in Apply(s, a).0.thieves && Apply(s, a).0.thieves[k] == s.thieves[k]
    ensures (a.ThiefMoves? || a.StartSteal?) ==>
      Apply(s, a).0.owner == s.owner && PopLeft(Apply(s, a).0) == PopLeft(s) && PushLeft(Apply(s, a).0) <= PushLeft(s)
  {
  }
}
