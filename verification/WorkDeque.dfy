/** The Chase-Lev work-stealing deque as interleaved atomic steps of one owner and any number of
    thieves. A buffer and its capacity are published and loaded as one pair; old buffers stay in the
    arena, so a slow thief may still read one. */
module WorkDeque {
  import opened Wrapping

  type Task = int
  type Buffer = seq<Task>

  /** Where the owner is: what it has loaded so far. */
  datatype Owner =
    | Resting
    | PushLoaded(task: Task, b: int)               // bottom loaded
    | PushChecked(task: Task, b: int)              // room found, or made
    | PushWritten(task: Task, b: int)              // slot written, bottom not stored yet
    | GrowStart(task: Task, b: int)
    | Growing(task: Task, b: int, t: int, i: int, next: Buffer)  // copying index i
    | PopLoaded(b: int)                            // bottom - 1
    | PopStored(b: int)                            // bottom := b done
    | PopRead(b: int)                              // top was below b
    | PopLast(b: int)                              // top was b
    | PopRace(b: int, task: Task)                  // about to CAS for the last task
    | PopUndo(b: int)                              // about to store bottom := b + 1

  datatype Thief =
    | Away
    | TopLoaded(t: int)
    | BottomPassed(t: int)
    | PairLoaded(t: int, buf: nat)
    | SlotRead(t: int, task: Task)

  /** `view` is a history variable: the tasks by index, up to the owner's logical bottom. */
  datatype State = State(top: int, bottom: int, arena: seq<Buffer>, cur: nat,
                         owner: Owner, thieves: map<nat, Thief>, view: seq<Task>)

  /** `Missed` is a steal that answers NULL, `NotPushed` a push that answers -1. */
  datatype Label = Silent | Pushed(task: Task) | NotPushed | Popped(task: Task) | FoundEmpty | Stolen(task: Task) | Missed

  datatype Action =
    | StartPush(task: Task) | StartPop | OwnerMoves | AllocationFails
    | StartSteal(k: nat) | ThiefMoves(k: nat)

  function Slot(i: int, buf: Buffer): nat
    requires |buf| > 0
  {
    i % |buf|
  }

  predicate BuffersUsable(s: State) {
    && s.cur < |s.arena|
    && (forall k | 0 <= k < |s.arena| :: |s.arena[k]| > 0)
    && (s.owner.Growing? ==> |s.owner.next| > 0)
    && (forall k | k in s.thieves :: s.thieves[k].PairLoaded? ==> s.thieves[k].buf < |s.arena|)
  }

  function Buf(s: State): Buffer
    requires s.cur < |s.arena|
  {
    s.arena[s.cur]
  }

  predicate Enabled(s: State, a: Action) {
    match a
    case StartPush(_) => s.owner.Resting?
    case StartPop => s.owner.Resting?
    case OwnerMoves => !s.owner.Resting?
    case AllocationFails => s.owner.GrowStart?
    case StartSteal(k) => k in s.thieves && s.thieves[k].Away?
    case ThiefMoves(k) => k in s.thieves && !s.thieves[k].Away?
  }

  /** `cx_deque_push`, `cx_deque_grow` and `cx_deque_pop`, one shared access at a time. */
  function OwnerStep(s: State): (State, Label)
    requires BuffersUsable(s) && !s.owner.Resting?
  {
    match s.owner
    case PushLoaded(task, b) =>
      // (size_t)(b - t) >= cap - 1
      (s.(owner := if b - s.top >= |Buf(s)| - 1 then GrowStart(task, b) else PushChecked(task, b)), Silent)
    case GrowStart(task, b) =>
      (s.(owner := Growing(task, b, s.top, s.top, seq(2 * |Buf(s)|, _ => 0))), Silent)
    case Growing(task, b, t, i, next) =>
      if i < b then
        (s.(owner := Growing(task, b, t, i + 1, next[Slot(i, next) := Buf(s)[Slot(i, Buf(s))]])), Silent)
      else
        (s.(arena := s.arena + [next], cur := |s.arena|, owner := PushChecked(task, b)), Silent)
    case PushChecked(task, b) =>
      (s.(arena := s.arena[s.cur := Buf(s)[Slot(b, Buf(s)) := task]], owner := PushWritten(task, b)), Silent)
    case PushWritten(task, b) =>
      (s.(bottom := b + 1, view := s.view + [task], owner := Resting), Pushed(task))
    case PopLoaded(b) =>
      (s.(bottom := b, owner := PopStored(b)), Silent)
    case PopStored(b) =>
      if s.top < b then (s.(owner := PopRead(b)), Silent)
      else if s.top == b then (s.(owner := PopLast(b)), Silent)
      else (s.(owner := PopUndo(b)), FoundEmpty)
    case PopRead(b) =>
      (s.(view := if |s.view| > 0 then s.view[..|s.view| - 1] else [], owner := Resting), Popped(Buf(s)[Slot(b, Buf(s))]))
    case PopLast(b) =>
      (s.(owner := PopRace(b, Buf(s)[Slot(b, Buf(s))])), Silent)
    case PopRace(b, task) =>
      if s.top == b then (s.(top := b + 1, owner := PopUndo(b)), Popped(task))
      else (s.(owner := PopUndo(b)), FoundEmpty)
    case PopUndo(b) =>
      (s.(bottom := b + 1, owner := Resting), Silent)
  }

  /** `cx_deque_steal`, one shared access at a time. */
  function ThiefStep(s: State, k: nat): (State, Label)
    requires BuffersUsable(s) && k in s.thieves && !s.thieves[k].Away?
  {
    match s.thieves[k]
    case TopLoaded(t) =>
      if t >= s.bottom then (s.(thieves := s.thieves[k := Away]), Missed)
      else (s.(thieves := s.thieves[k := BottomPassed(t)]), Silent)
    case BottomPassed(t) =>
      (s.(thieves := s.thieves[k := PairLoaded(t, s.cur)]), Silent)
    case PairLoaded(t, buf) =>
      (s.(thieves := s.thieves[k := SlotRead(t, s.arena[buf][Slot(t, s.arena[buf])])]), Silent)
    case SlotRead(t, task) =>
      if s.top == t then (s.(top := t + 1, thieves := s.thieves[k := Away]), Stolen(task))
      else (s.(thieves := s.thieves[k := Away]), Missed)
  }

  function Apply(s: State, a: Action): (State, Label)
    requires BuffersUsable(s) && Enabled(s, a)
  {
    match a
    case StartPush(task) => (s.(owner := PushLoaded(task, s.bottom)), Silent)
    case StartPop => (s.(owner := PopLoaded(s.bottom - 1)), Silent)
    case AllocationFails => (s.(owner := Resting), NotPushed)
    case OwnerMoves => OwnerStep(s)
    case StartSteal(k) => (s.(thieves := s.thieves[k := TopLoaded(s.top)]), Silent)
    case ThiefMoves(k) => ThiefStep(s, k)
  }

  ghost predicate Initial(s: State) {
    && s.top == 0 && s.bottom == 0 && s.view == []
    && |s.arena| == 1 && |s.arena[0]| > 0 && s.cur == 0
    && s.owner.Resting? && forall k | k in s.thieves :: s.thieves[k].Away?
  }

  // --- The deque this implements ---

  /** The tasks not yet handed out, oldest first. */
  function Tasks(s: State): seq<Task> {
    if 0 <= s.top <= |s.view| then s.view[s.top..] else []
  }

  /** A sequential deque: the owner works at the right end, thieves at the left. */
  predicate DequeStep(before: seq<Task>, l: Label, after: seq<Task>) {
    match l
    case Silent => after == before
    case NotPushed => after == before
    case Missed => after == before
    case Pushed(x) => after == before + [x]
    case Popped(x) => before == after + [x]
    case Stolen(x) => before == [x] + after
    case FoundEmpty => before == after == []
  }

  // --- The invariant ---

  ghost predicate Holds(buf: Buffer, view: seq<Task>, from: int) {
    |buf| > 0 && forall i | from <= i < |view| && 0 <= i :: buf[Slot(i, buf)] == view[i]
  }

  ghost predicate OwnerOk(s: State)
    requires BuffersUsable(s)
  {
    match s.owner
    case Resting => s.bottom == |s.view|
    case PushLoaded(_, b) => s.bottom == b == |s.view|
    case GrowStart(_, b) => s.bottom == b == |s.view|
    case PushChecked(_, b) => s.bottom == b == |s.view| && b - s.top < |Buf(s)| - 1
    case PushWritten(task, b) =>
      s.bottom == b == |s.view| && b - s.top < |Buf(s)| - 1 && Buf(s)[Slot(b, Buf(s))] == task
    case Growing(_, b, t, i, next) =>
      && s.bottom == b == |s.view| && 0 <= t <= s.top && t <= i <= b && b - t <= |Buf(s)| - 1
      && |next| == 2 * |Buf(s)| && Holds(Buf(s), s.view, t)
      && forall j | t <= j < i :: next[Slot(j, next)] == s.view[j]
    case PopLoaded(b) => s.bottom == |s.view| == b + 1
    case PopStored(b) => s.bottom == b && |s.view| == b + 1
    case PopRead(b) => s.bottom == b && |s.view| == b + 1 && s.top <= b
    case PopLast(b) => s.bottom == b && |s.view| == b + 1 && b <= s.top && 0 <= b
    case PopRace(b, task) =>
      s.bottom == b && |s.view| == b + 1 && b <= s.top && 0 <= b && (s.top == b ==> task == s.view[b])
    case PopUndo(b) => s.bottom == b && |s.view| == b + 1 == s.top
  }

  /** A thief past the bottom check may win index `t` only while nobody else has, and cannot meet the
      owner there unless both go through the CAS. */
  ghost predicate MayWin(s: State, t: int) {
    && 0 <= t <= s.top
    && (t == s.top ==> t < |s.view|)
    && (s.owner.PopRead? ==> t < s.owner.b)
  }

  ghost predicate ThiefOk(s: State, th: Thief)
    requires BuffersUsable(s)
  {
    match th
    case Away => true
    case TopLoaded(t) => 0 <= t <= s.top
    case BottomPassed(t) => MayWin(s, t)
    case PairLoaded(t, buf) =>
      MayWin(s, t) && buf < |s.arena| && (t == s.top ==> s.arena[buf][Slot(t, s.arena[buf])] == s.view[t])
    case SlotRead(t, task) =>
      MayWin(s, t) && (t == s.top ==> task == s.view[t])
  }

  ghost predicate Inv(s: State) {
    && BuffersUsable(s)
    && 0 <= s.top <= |s.view| && |s.view| - s.top <= |Buf(s)| - 1
    && Holds(Buf(s), s.view, s.top)
    && OwnerOk(s)
    && forall k | k in s.thieves :: ThiefOk(s, s.thieves[k])
  }

  lemma InitialInv(s: State)
    requires Initial(s)
    ensures Inv(s) && Tasks(s) == []
  {
  }

  function ThiefMoved(s: State, k: nat, th: Thief, top: int): State {
    s.(thieves := s.thieves[k := th], top := top)
  }

  /** A thief's move disturbs neither the owner nor the other thieves. */
  lemma ThiefMovedInv(s: State, k: nat, th: Thief, top: int)
    requires Inv(s) && k in s.thieves
    requires top == s.top || (top == s.top + 1 && MayWin(s, s.top))
    requires BuffersUsable(ThiefMoved(s, k, th, top)) && ThiefOk(ThiefMoved(s, k, th, top), th)
    ensures Inv(ThiefMoved(s, k, th, top))
  {
    var s' := ThiefMoved(s, k, th, top);
    forall j | j in s'.thieves ensures ThiefOk(s', s'.thieves[j]) {
      assert ThiefOk(s, s.thieves[j]) || j == k;
    }
  }

  lemma BottomReadInv(s: State, k: nat)
    requires Inv(s) && k in s.thieves && s.thieves[k].TopLoaded?
    ensures Inv(ThiefStep(s, k).0) && DequeStep(Tasks(s), ThiefStep(s, k).1, Tasks(ThiefStep(s, k).0))
  {
    var t := s.thieves[k].t;
    assert ThiefOk(s, s.thieves[k]);
    ThiefMovedInv(s, k, if t >= s.bottom then Away else BottomPassed(t), s.top);
  }

  lemma PairReadInv(s: State, k: nat)
    requires Inv(s) && k in s.thieves && s.thieves[k].BottomPassed?
    ensures Inv(ThiefStep(s, k).0) && DequeStep(Tasks(s), ThiefStep(s, k).1, Tasks(ThiefStep(s, k).0))
  {
    assert ThiefOk(s, s.thieves[k]);
    ThiefMovedInv(s, k, PairLoaded(s.thieves[k].t, s.cur), s.top);
  }

  lemma SlotReadInv(s: State, k: nat)
    requires Inv(s) && k in s.thieves && s.thieves[k].PairLoaded?
    ensures Inv(ThiefStep(s, k).0) && DequeStep(Tasks(s), ThiefStep(s, k).1, Tasks(ThiefStep(s, k).0))
  {
    var PairLoaded(t, buf) := s.thieves[k];
    assert ThiefOk(s, s.thieves[k]);
    ThiefMovedInv(s, k, SlotRead(t, s.arena[buf][Slot(t, s.arena[buf])]), s.top);
  }

  /** A CAS that succeeds takes the oldest task. */
  lemma ExchangeInv(s: State, k: nat)
    requires Inv(s) && k in s.thieves && s.thieves[k].SlotRead?
    ensures Inv(ThiefStep(s, k).0) && DequeStep(Tasks(s), ThiefStep(s, k).1, Tasks(ThiefStep(s, k).0))
  {
    var SlotRead(t, task) := s.thieves[k];
    assert ThiefOk(s, s.thieves[k]);
    ThiefMovedInv(s, k, Away, if s.top == t then t + 1 else s.top);
  }

  /** What a thief may load next is right, and a CAS that succeeds takes the oldest task. */
  lemma ThiefKeepsInv(s: State, k: nat)
    requires Inv(s) && k in s.thieves && !s.thieves[k].Away?
    ensures Inv(ThiefStep(s, k).0) && DequeStep(Tasks(s), ThiefStep(s, k).1, Tasks(ThiefStep(s, k).0))
  {
    match s.thieves[k]
    case TopLoaded(_) => BottomReadInv(s, k);
    case BottomPassed(_) => PairReadInv(s, k);
    case PairLoaded(_, _) => SlotReadInv(s, k);
    case SlotRead(_, _) => ExchangeInv(s, k);
  }

  /** An owner's move that leaves buffers, `top` and `view` alone disturbs no thief, provided that, when it
      goes for a task below the last, no thief can be after that one. */
  lemma OwnerMovedInv(s: State, o: Owner, bottom: int)
    requires Inv(s) && BuffersUsable(s.(owner := o, bottom := bottom)) && OwnerOk(s.(owner := o, bottom := bottom))
    requires o.PopRead? ==> s.top < o.b
    ensures Inv(s.(owner := o, bottom := bottom))
  {
    var s' := s.(owner := o, bottom := bottom);
    forall j | j in s'.thieves ensures ThiefOk(s', s'.thieves[j]) {
      assert ThiefOk(s, s.thieves[j]);
    }
  }

  lemma WriteSlotInv(s: State)
    requires Inv(s) && s.owner.PushChecked?
    ensures Inv(OwnerStep(s).0)
  {
    var b, buf, s' := s.owner.b, Buf(s), OwnerStep(s).0;
    forall i | s.top <= i < |s.view| ensures Slot(i, buf) != Slot(b, buf) { SlotsDiffer(i, b, |buf|); }
    forall j | j in s'.thieves ensures ThiefOk(s', s'.thieves[j]) {
      assert ThiefOk(s, s.thieves[j]);
    }
  }

  lemma CopySlotInv(s: State)
    requires Inv(s) && s.owner.Growing? && s.owner.i < s.owner.b
    ensures Inv(OwnerStep(s).0)
  {
    var Growing(task, b, t, i, next) := s.owner;
    forall j | t <= j < i ensures Slot(j, next) != Slot(i, next) { SlotsDiffer(j, i, |next|); }
    OwnerMovedInv(s, OwnerStep(s).0.owner, s.bottom);
  }

  /** Growing keeps the view from indices to tasks. */
  lemma PublishInv(s: State)
    requires Inv(s) && s.owner.Growing? && s.owner.i >= s.owner.b
    ensures Inv(OwnerStep(s).0)
  {
    var s' := OwnerStep(s).0;
    assert Buf(s') == s.owner.next;
    forall j | j in s'.thieves ensures ThiefOk(s', s'.thieves[j]) {
      assert ThiefOk(s, s.thieves[j]);
    }
  }

  lemma PublishBottomInv(s: State)
    requires Inv(s) && s.owner.PushWritten?
    ensures Inv(OwnerStep(s).0) && DequeStep(Tasks(s), OwnerStep(s).1, Tasks(OwnerStep(s).0))
  {
    var s' := OwnerStep(s).0;
    forall j | j in s'.thieves ensures ThiefOk(s', s'.thieves[j]) {
      assert ThiefOk(s, s.thieves[j]);
    }
  }

  lemma TakeNewestInv(s: State)
    requires Inv(s) && s.owner.PopRead?
    ensures Inv(OwnerStep(s).0) && DequeStep(Tasks(s), OwnerStep(s).1, Tasks(OwnerStep(s).0))
  {
    var s' := OwnerStep(s).0;
    assert s.view == s'.view + [s.view[s.owner.b]];
    forall j | j in s'.thieves ensures ThiefOk(s', s'.thieves[j]) {
      assert ThiefOk(s, s.thieves[j]);
    }
  }

  lemma TakeLastInv(s: State)
    requires Inv(s) && s.owner.PopRace?
    ensures Inv(OwnerStep(s).0) && DequeStep(Tasks(s), OwnerStep(s).1, Tasks(OwnerStep(s).0))
  {
    var s' := OwnerStep(s).0;
    forall j | j in s'.thieves ensures ThiefOk(s', s'.thieves[j]) {
      assert ThiefOk(s, s.thieves[j]);
    }
  }

  predicate Pushing(o: Owner) {
    o.PushLoaded? || o.PushChecked? || o.PushWritten? || o.GrowStart? || o.Growing?
  }

  lemma PushKeepsInv(s: State)
    requires Inv(s) && Pushing(s.owner)
    ensures Inv(OwnerStep(s).0) && DequeStep(Tasks(s), OwnerStep(s).1, Tasks(OwnerStep(s).0))
  {
    match s.owner
    case PushChecked(_, _) => WriteSlotInv(s);
    case PushWritten(_, _) => PublishBottomInv(s);
    case Growing(_, b, _, i, _) => if i < b { CopySlotInv(s); } else { PublishInv(s); }
    case PushLoaded(task, b) =>
      OwnerMovedInv(s, if b - s.top >= |Buf(s)| - 1 then GrowStart(task, b) else PushChecked(task, b), s.bottom);
    case GrowStart(task, b) =>
      OwnerMovedInv(s, Growing(task, b, s.top, s.top, seq(2 * |Buf(s)|, _ => 0)), s.bottom);
  }

  lemma PopKeepsInv(s: State)
    requires Inv(s) && !Pushing(s.owner) && !s.owner.Resting?
    ensures Inv(OwnerStep(s).0) && DequeStep(Tasks(s), OwnerStep(s).1, Tasks(OwnerStep(s).0))
  {
    match s.owner
    case PopRead(_) => TakeNewestInv(s);
    case PopRace(_, _) => TakeLastInv(s);
    case PopLoaded(b) => OwnerMovedInv(s, PopStored(b), b);
    case PopStored(b) =>
      OwnerMovedInv(s, if s.top < b then PopRead(b) else if s.top == b then PopLast(b) else PopUndo(b), s.bottom);
    case PopLast(b) => OwnerMovedInv(s, PopRace(b, Buf(s)[Slot(b, Buf(s))]), s.bottom);
    case PopUndo(b) => OwnerMovedInv(s, Resting, b + 1);
  }

  /** Every atomic step, by anyone, keeps the invariant and is a step of the sequential deque. */
  lemma StepRefinesDeque(s: State, a: Action)
    requires Inv(s) && Enabled(s, a)
    ensures Inv(Apply(s, a).0) && DequeStep(Tasks(s), Apply(s, a).1, Tasks(Apply(s, a).0))
  {
    match a
    case OwnerMoves => if Pushing(s.owner) { PushKeepsInv(s); } else { PopKeepsInv(s); }
    case ThiefMoves(k) => ThiefKeepsInv(s, k);
    case StartSteal(k) => ThiefMovedInv(s, k, TopLoaded(s.top), s.top);
    case StartPush(task) => OwnerMovedInv(s, PushLoaded(task, s.bottom), s.bottom);
    case StartPop => OwnerMovedInv(s, PopLoaded(s.bottom - 1), s.bottom);
    case AllocationFails => OwnerMovedInv(s, Resting, s.bottom);
  }

  // --- Whole runs ---

  ghost predicate StepAt(states: seq<State>, acts: seq<Action>, i: int) {
    && 0 <= i < |acts| && i + 1 < |states|
    && BuffersUsable(states[i]) && Enabled(states[i], acts[i]) && states[i + 1] == Apply(states[i], acts[i]).0
  }

  ghost predicate Run(states: seq<State>, acts: seq<Action>) {
    && |states| == |acts| + 1 && Initial(states[0])
    && forall i {:trigger StepAt(states, acts, i)} | 0 <= i < |acts| :: StepAt(states, acts, i)
  }

  ghost function LabelAt(states: seq<State>, acts: seq<Action>, i: nat): Label
    requires Run(states, acts) && i < |acts|
  {
    assert StepAt(states, acts, i);
    Apply(states[i], acts[i]).1
  }

  function TaskIn(l: Label): multiset<Task> {
    if l.Pushed? then multiset{l.task} else multiset{}
  }

  function TaskOut(l: Label): multiset<Task> {
    if l.Popped? || l.Stolen? then multiset{l.task} else multiset{}
  }

  ghost function Given(states: seq<State>, acts: seq<Action>, n: nat): multiset<Task>
    requires Run(states, acts) && n <= |acts|
  {
    if n == 0 then multiset{} else Given(states, acts, n - 1) + TaskIn(LabelAt(states, acts, n - 1))
  }

  ghost function Returned(states: seq<State>, acts: seq<Action>, n: nat): multiset<Task>
    requires Run(states, acts) && n <= |acts|
  {
    if n == 0 then multiset{} else Returned(states, acts, n - 1) + TaskOut(LabelAt(states, acts, n - 1))
  }

  lemma {:induction false} RunInv(states: seq<State>, acts: seq<Action>, n: nat)
    requires Run(states, acts) && n <= |acts|
    ensures Inv(states[n])
  {
    if n == 0 {
      InitialInv(states[0]);
    } else {
      RunInv(states, acts, n - 1);
      assert StepAt(states, acts, n - 1);
      StepRefinesDeque(states[n - 1], acts[n - 1]);
    }
  }

  /** What the deque holds after the first `n` steps. */
  ghost function Left(states: seq<State>, acts: seq<Action>, n: nat): seq<Task>
    requires Run(states, acts) && n <= |acts|
  {
    Tasks(states[n])
  }

  lemma StepsAreDequeSteps(states: seq<State>, acts: seq<Action>, n: nat)
    requires Run(states, acts) && n < |acts|
    ensures DequeStep(Left(states, acts, n), LabelAt(states, acts, n), Left(states, acts, n + 1))
  {
    RunInv(states, acts, n);
    assert StepAt(states, acts, n);
    StepRefinesDeque(states[n], acts[n]);
  }

  lemma DequeStepConserves(before: seq<Task>, l: Label, after: seq<Task>)
    requires DequeStep(before, l, after)
    ensures multiset(before) + TaskIn(l) == multiset(after) + TaskOut(l)
  {
  }

  lemma LeftAtStart(states: seq<State>, acts: seq<Action>)
    requires Run(states, acts)
    ensures Left(states, acts, 0) == [] && Given(states, acts, 0) == Returned(states, acts, 0) + multiset(Left(states, acts, 0))
  {
  }

  lemma Balance(given: multiset<Task>, returned: multiset<Task>, before: multiset<Task>, into: multiset<Task>,
                after: multiset<Task>, out: multiset<Task>)
    requires given == returned + before && before + into == after + out
    ensures given + into == returned + out + after
  {
    forall x: Task ensures (given + into)[x] == (returned + out + after)[x] {
      assert (before + into)[x] == (after + out)[x] && given[x] == (returned + before)[x];
    }
  }

  /** What was pushed is what was returned plus what is left. */
  ghost predicate Balanced(states: seq<State>, acts: seq<Action>, n: nat)
    requires Run(states, acts) && n <= |acts|
  {
    Given(states, acts, n) == Returned(states, acts, n) + multiset(Left(states, acts, n))
  }

  lemma StaysBalanced(states: seq<State>, acts: seq<Action>, n: nat)
    requires Run(states, acts) && 0 < n <= |acts| && Balanced(states, acts, n - 1)
    ensures Balanced(states, acts, n)
  {
    var l := LabelAt(states, acts, n - 1);
    var before, after := Left(states, acts, n - 1), Left(states, acts, n);
    StepsAreDequeSteps(states, acts, n - 1);
    DequeStepConserves(before, l, after);
    Balance(Given(states, acts, n - 1), Returned(states, acts, n - 1), multiset(before), TaskIn(l), multiset(after), TaskOut(l));
  }

  lemma {:induction false} BalancedUpTo(states: seq<State>, acts: seq<Action>, n: nat)
    requires Run(states, acts) && n <= |acts|
    ensures forall i: nat | i <= n :: Balanced(states, acts, i)
  {
    if n == 0 {
      LeftAtStart(states, acts);
    } else {
      BalancedUpTo(states, acts, n - 1);
      StaysBalanced(states, acts, n);
    }
  }

  /** In every interleaving, at every moment, what was pushed is what was returned plus what is left:
      no task is lost and none is returned more often than it was pushed. */
  lemma NothingLostOrDoubled(states: seq<State>, acts: seq<Action>, n: nat)
    requires Run(states, acts) && n <= |acts|
    ensures Given(states, acts, n) == Returned(states, acts, n) + multiset(Left(states, acts, n))
  {
    BalancedUpTo(states, acts, n);
    assert Balanced(states, acts, n);
  }

  lemma RestingTasks(s: State)
    requires Inv(s) && s.owner.Resting?
    ensures 0 <= s.top <= s.bottom && BuffersUsable(s)
    ensures Tasks(s) == seq(s.bottom - s.top, i requires 0 <= i => Buf(s)[Slot(s.top + i, Buf(s))])
  {
  }

  /** At rest the tasks left are exactly those the current buffer holds at the indices [top, bottom). */
  lemma QuiescentContents(states: seq<State>, acts: seq<Action>, n: nat)
    requires Run(states, acts) && n <= |acts| && states[n].owner.Resting?
    ensures var s := states[n];
      && 0 <= s.top <= s.bottom && BuffersUsable(s)
      && Left(states, acts, n) == seq(s.bottom - s.top, i requires 0 <= i => Buf(s)[Slot(s.top + i, Buf(s))])
      && Given(states, acts, n) == Returned(states, acts, n) + multiset(Left(states, acts, n))
  {
    NothingLostOrDoubled(states, acts, n);
    RunInv(states, acts, n);
    RestingTasks(states[n]);
  }

  /** A thief that read something other than the task now at its index loses the CAS. */
  lemma StaleStealFails(states: seq<State>, acts: seq<Action>, n: nat, k: nat)
    requires Run(states, acts) && n <= |acts| && k in states[n].thieves && states[n].thieves[k].SlotRead?
    requires var SlotRead(t, task) := states[n].thieves[k]; t >= |states[n].view| || t < 0 || states[n].view[t] != task
    ensures BuffersUsable(states[n]) && ThiefStep(states[n], k).1 == Missed
  {
    RunInv(states, acts, n);
    assert ThiefOk(states[n], states[n].thieves[k]);
  }
}
