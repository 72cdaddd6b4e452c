/** The bounded log queue: any number of producers, one drain thread, a sequence number per slot. */
module LogQueue {
  import opened Wrapping

  const MSG_MAX := 240
  const BATCH := 32

  datatype Message = Message(level: nat, text: string)

  datatype Slot = Slot(seq_: int, msg: Message)

  datatype Producer =
    | Away
    | Trying(msg: Message)                                      // top of the retry loop
    | PosLoaded(msg: Message, pos: int)
    | SeqLoaded(msg: Message, pos: int, seq_: int, full: bool)  // `full`: what was so when the sequence was read
    | Claimed(msg: Message, pos: int)                           // the CAS succeeded; slot not written yet
    | Filled(msg: Message, pos: int)                            // slot written; sequence not stored yet

  datatype Drain =
    | Resting
    | Popping                       // top of the batch loop
    | PopPosLoaded(pos: int)
    | PopSeqLoaded(pos: int, seq_: int)
    | Writing                       // handing the picked slots to writev
    | Releasing

  /** `released`, `writing`, `accepted` and `drained` are history variables: how many positions have been
      given back, which producer is filling which position, and the messages by position. */
  datatype State = State(
    slots: seq<Slot>, enq: int, deq: int, dropped: nat,
    producers: map<nat, Producer>, drain: Drain,
    released: int, writing: map<int, nat>, accepted: seq<Message>, drained: seq<Message>)

  datatype Label = Silent | Accepted(msg: Message) | Dropped(full: bool) | Wrote(msg: Message)

  datatype Action =
    | BeginPush(k: nat, level: nat, text: string) | ProducerMoves(k: nat)
    | BeginDrain | DrainMoves
    | PushCasFails(k: nat) | PopCasFails       // a weak compare-exchange may fail for no reason

  function Capacity(s: State): nat {
    |s.slots|
  }

  function At(s: State, p: int): nat
    requires Capacity(s) > 0
  {
    p % Capacity(s)
  }

  function Clip(text: string): string {
    if |text| > MSG_MAX then text[..MSG_MAX] else text
  }

  predicate Enabled(s: State, a: Action) {
    && Capacity(s) > 0
    && match a
       case BeginPush(k, _, _) => k in s.producers && s.producers[k].Away?
       case ProducerMoves(k) => k in s.producers && !s.producers[k].Away?
       case BeginDrain => s.drain.Resting?
       case DrainMoves => !s.drain.Resting?
       case PushCasFails(k) => k in s.producers && s.producers[k].SeqLoaded? && s.producers[k].seq_ == s.producers[k].pos
       case PopCasFails => s.drain.PopSeqLoaded? && s.drain.seq_ == s.drain.pos + 1
  }

  function Goes(s: State, k: nat, p: Producer): State {
    s.(producers := s.producers[k := p])
  }

  function SetSlot(s: State, p: int, slot: Slot): State
    requires Capacity(s) > 0
  {
    s.(slots := s.slots[At(s, p) := slot])
  }

  /** `cpx_logq_try_push`, one shared access at a time. */
  function ProducerStep(s: State, k: nat): (State, Label)
    requires Capacity(s) > 0 && k in s.producers && !s.producers[k].Away?
  {
    match s.producers[k]
    case Trying(msg) => (Goes(s, k, PosLoaded(msg, s.enq)), Silent)
    case PosLoaded(msg, pos) =>
      (Goes(s, k, SeqLoaded(msg, pos, s.slots[At(s, pos)].seq_, pos == s.enq && s.enq - s.released == Capacity(s))), Silent)
    case SeqLoaded(msg, pos, sq, full) =>
      if sq == pos then
        if s.enq == pos then
          (Goes(s, k, Claimed(msg, pos)).(enq := pos + 1, writing := s.writing[pos := k], accepted := s.accepted + [msg]),
           Accepted(msg))
        else (Goes(s, k, Trying(msg)), Silent)
      else if sq < pos then (Goes(s, k, Away).(dropped := s.dropped + 1), Dropped(full))
      else (Goes(s, k, Trying(msg)), Silent)
    case Claimed(msg, pos) =>
      (SetSlot(Goes(s, k, Filled(msg, pos)), pos, s.slots[At(s, pos)].(msg := msg)), Silent)
    case Filled(msg, pos) =>
      (SetSlot(Goes(s, k, Away), pos, s.slots[At(s, pos)].(seq_ := pos + 1)).(writing := s.writing - {pos}), Silent)
  }

  /** `cpx_log_drain_once` with `cpx_logq_pop_one`, one shared access at a time. */
  function DrainStep(s: State): (State, Label)
    requires Capacity(s) > 0 && !s.drain.Resting?
  {
    match s.drain
    case Popping =>
      (s.(drain := if s.deq - s.released < BATCH then PopPosLoaded(s.deq) else Writing), Silent)
    case PopPosLoaded(pos) =>
      (s.(drain := PopSeqLoaded(pos, s.slots[At(s, pos)].seq_)), Silent)
    case PopSeqLoaded(pos, sq) =>
      if sq == pos + 1 then
        if s.deq == pos then (s.(deq := pos + 1, drain := Popping), Silent)
        else (s.(drain := PopPosLoaded(s.deq)), Silent)
      else if sq < pos + 1 then (s.(drain := if s.deq == s.released then Resting else Writing), Silent)
      else (s.(drain := PopPosLoaded(s.deq)), Silent)
    case Writing =>
      if |s.drained| < s.deq then
        (s.(drained := s.drained + [s.slots[At(s, |s.drained|)].msg]), Wrote(s.slots[At(s, |s.drained|)].msg))
      else (s.(drain := Releasing), Silent)
    case Releasing =>
      if s.released < s.deq then
        (SetSlot(s, s.released, s.slots[At(s, s.released)].(seq_ := s.released + Capacity(s))).(released := s.released + 1),
         Silent)
      else (s.(drain := Resting), Silent)
  }

  function Apply(s: State, a: Action): (State, Label)
    requires Enabled(s, a)
  {
    match a
    case BeginPush(k, level, text) => (Goes(s, k, Trying(Message(level, Clip(text)))), Silent)
    case ProducerMoves(k) => ProducerStep(s, k)
    case BeginDrain => (s.(drain := Popping), Silent)
    case DrainMoves => DrainStep(s)
    case PushCasFails(k) => (Goes(s, k, Trying(s.producers[k].msg)), Silent)
    case PopCasFails => (s.(drain := Popping), Silent)
  }

  /** `cpx_logq_init`: slot i starts with sequence i. */
  ghost predicate Initial(s: State) {
    && (forall i | 0 <= i < |s.slots| :: s.slots[i].seq_ == i)
    && s.enq == 0 && s.deq == 0 && s.dropped == 0 && s.released == 0
    && (forall k | k in s.producers :: s.producers[k].Away?) && s.drain.Resting?
    && s.writing == map[] && s.accepted == [] && s.drained == []
  }

  // --- Invariant ---

  /** What the slot of position `p` says, for the last lap of positions. */
  ghost predicate SlotOk(s: State, p: int)
    requires Capacity(s) > 0
  {
    var slot := s.slots[At(s, p)];
    if p < s.released then slot.seq_ == p + Capacity(s)
    else if p in s.writing then slot.seq_ == p
    else slot.seq_ == p + 1 && 0 <= p < |s.accepted| && slot.msg == s.accepted[p]
  }

  ghost predicate ProducerOk(s: State, k: nat, pr: Producer)
    requires Capacity(s) > 0
  {
    match pr
    case Away => true
    case Trying(_) => true
    case PosLoaded(_, pos) => pos <= s.enq
    case SeqLoaded(_, pos, sq, full) =>
      && pos <= s.enq && (sq < pos <==> full) && (sq > pos ==> pos < s.enq)
      && (sq == pos && pos == s.enq ==> pos - Capacity(s) < s.released)
    case Claimed(msg, pos) =>
      pos in s.writing && s.writing[pos] == k && 0 <= pos < |s.accepted| && s.accepted[pos] == msg
    case Filled(msg, pos) =>
      && pos in s.writing && s.writing[pos] == k && 0 <= pos < |s.accepted| && s.accepted[pos] == msg
      && s.slots[At(s, pos)].msg == msg
  }

  ghost predicate WriterOk(s: State, p: int) {
    && p in s.writing && s.deq <= p < s.enq
    && s.writing[p] in s.producers
    && var pr := s.producers[s.writing[p]]; (pr.Claimed? || pr.Filled?) && pr.pos == p
  }

  ghost predicate DrainOk(s: State) {
    match s.drain
    case Resting => |s.drained| == s.released == s.deq
    case Popping => |s.drained| == s.released
    case PopPosLoaded(pos) => |s.drained| == s.released && pos == s.deq
    case PopSeqLoaded(pos, sq) =>
      |s.drained| == s.released && pos == s.deq && (sq == pos + 1 ==> pos < s.enq && pos !in s.writing)
    case Writing => s.released <= |s.drained| <= s.deq
    case Releasing => |s.drained| == s.deq
  }

  ghost predicate Inv(s: State) {
    && Capacity(s) >= 2
    && 0 <= s.released <= s.deq <= s.enq == |s.accepted| && s.enq - Capacity(s) <= s.released
    && |s.drained| <= |s.accepted| && s.drained == s.accepted[..|s.drained|]
    && DrainOk(s)
    && (forall p | s.enq - Capacity(s) <= p < s.enq :: SlotOk(s, p))
    && (forall p | p in s.writing :: WriterOk(s, p))
    && forall k | k in s.producers :: ProducerOk(s, k, s.producers[k])
  }

  lemma SlotsApart(s: State, p: int, q: int)
    requires Capacity(s) > 0 && p != q && p - q < Capacity(s) && q - p < Capacity(s)
    ensures At(s, p) != At(s, q)
  {
    if p < q { SlotsDiffer(p, q, Capacity(s)); } else { SlotsDiffer(q, p, Capacity(s)); }
  }

  /** At the head of the queue the slot is that of the position one lap before. */
  lemma HeadSlot(s: State)
    requires Inv(s)
    ensures At(s, s.enq) == At(s, s.enq - Capacity(s)) && SlotOk(s, s.enq - Capacity(s))
  {
    NextLap(s.enq - Capacity(s), Capacity(s));
  }

  /** The slot read for a stale position belongs to some position of the last lap, not an earlier one. */
  lemma SequenceRead(s: State, pos: int)
    requires Inv(s) && pos <= s.enq
    ensures var sq := s.slots[At(s, pos)].seq_;
      && (sq < pos <==> pos == s.enq && s.enq - s.released == Capacity(s))
      && (sq == pos && pos == s.enq ==> pos - Capacity(s) < s.released) && (sq > pos ==> pos < s.enq)
  {
    if pos == s.enq {
      HeadSlot(s);
    } else if pos >= s.enq - Capacity(s) {
      assert SlotOk(s, pos);
    } else {
      NextLap(pos, Capacity(s));
      StaleSequence(s, pos + Capacity(s));
    }
  }

  lemma StaleSequence(s: State, pos: int)
    requires Inv(s) && pos < s.enq
    ensures s.slots[At(s, pos)].seq_ >= pos
    decreases s.enq - pos
  {
    if pos >= s.enq - Capacity(s) {
      assert SlotOk(s, pos);
    } else {
      NextLap(pos, Capacity(s));
      StaleSequence(s, pos + Capacity(s));
    }
  }

  // --- Producers ---

  lemma GoesInv(s: State, k: nat, pr: Producer, dropped: nat)
    requires Inv(s) && k in s.producers && ProducerOk(s, k, pr)
    requires !s.producers[k].Claimed? && !s.producers[k].Filled?
    ensures Inv(Goes(s, k, pr).(dropped := dropped))
  {
    var s' := Goes(s, k, pr).(dropped := dropped);
    forall p | s'.enq - Capacity(s') <= p < s'.enq ensures SlotOk(s', p) { assert SlotOk(s, p); }
    forall p | p in s'.writing ensures WriterOk(s', p) { assert WriterOk(s, p); }
    forall j | j in s'.producers ensures ProducerOk(s', j, s'.producers[j]) {
      if j != k { assert ProducerOk(s, j, s.producers[j]); }
    }
  }

  lemma ClaimInv(s: State, k: nat)
    requires Inv(s) && k in s.producers
    requires s.producers[k].SeqLoaded? && s.producers[k].seq_ == s.producers[k].pos == s.enq
    ensures Inv(ProducerStep(s, k).0)
  {
    var s', pos := ProducerStep(s, k).0, s.enq;
    assert ProducerOk(s, k, s.producers[k]);
    HeadSlot(s);
    forall p | s'.enq - Capacity(s') <= p < s'.enq ensures SlotOk(s', p) {
      if p < pos { assert SlotOk(s, p); }
    }
    forall p | p in s'.writing ensures WriterOk(s', p) { if p != pos { assert WriterOk(s, p); } }
    forall j | j in s'.producers ensures ProducerOk(s', j, s'.producers[j]) {
      if j != k { assert ProducerOk(s, j, s.producers[j]); }
      if j != k && (s.producers[j].Claimed? || s.producers[j].Filled?) { assert WriterOk(s, s.producers[j].pos); }
    }
    assert s'.accepted[..|s'.drained|] == s.accepted[..|s.drained|];
  }

  lemma FillInv(s: State, k: nat)
    requires Inv(s) && k in s.producers && s.producers[k].Claimed?
    ensures Inv(ProducerStep(s, k).0)
  {
    var s', pos := ProducerStep(s, k).0, s.producers[k].pos;
    assert ProducerOk(s, k, s.producers[k]) && WriterOk(s, pos);
    forall p | s'.enq - Capacity(s') <= p < s'.enq ensures SlotOk(s', p) {
      assert SlotOk(s, p);
      if p != pos { SlotsApart(s, p, pos); }
    }
    forall p | p in s'.writing ensures WriterOk(s', p) { assert WriterOk(s, p); }
    forall j | j in s'.producers ensures ProducerOk(s', j, s'.producers[j]) {
      if j != k {
        assert ProducerOk(s, j, s.producers[j]);
        if s.producers[j].Filled? {
          assert WriterOk(s, s.producers[j].pos);
          SlotsApart(s, s.producers[j].pos, pos);
        }
      }
    }
  }

  lemma PublishInv(s: State, k: nat)
    requires Inv(s) && k in s.producers && s.producers[k].Filled?
    ensures Inv(ProducerStep(s, k).0)
  {
    var s', pos := ProducerStep(s, k).0, s.producers[k].pos;
    assert ProducerOk(s, k, s.producers[k]) && WriterOk(s, pos);
    forall p | s'.enq - Capacity(s') <= p < s'.enq ensures SlotOk(s', p) {
      assert SlotOk(s, p);
      if p != pos { SlotsApart(s, p, pos); }
    }
    forall p | p in s'.writing ensures WriterOk(s', p) { assert WriterOk(s, p); }
    forall j | j in s'.producers ensures ProducerOk(s', j, s'.producers[j]) {
      if j != k {
        assert ProducerOk(s, j, s.producers[j]);
        if s.producers[j].Filled? { assert WriterOk(s, s.producers[j].pos); }
        if s.producers[j].Claimed? { assert WriterOk(s, s.producers[j].pos); }
      }
    }
  }

  lemma ProducerInv(s: State, k: nat)
    requires Inv(s) && k in s.producers && !s.producers[k].Away?
    ensures Inv(ProducerStep(s, k).0)
    ensures ProducerStep(s, k).1.Dropped? ==> ProducerStep(s, k).1.full
  {
    assert ProducerOk(s, k, s.producers[k]);
    match s.producers[k]
    case Trying(msg) => GoesInv(s, k, PosLoaded(msg, s.enq), s.dropped);
    case PosLoaded(msg, pos) =>
      SequenceRead(s, pos);
      GoesInv(s, k, ProducerStep(s, k).0.producers[k], s.dropped);
    case SeqLoaded(msg, pos, sq, full) =>
      if sq == pos && s.enq == pos { ClaimInv(s, k); }
      else if sq < pos { GoesInv(s, k, Away, s.dropped + 1); }
      else { GoesInv(s, k, Trying(msg), s.dropped); }
    case Claimed(_, _) => FillInv(s, k);
    case Filled(_, _) => PublishInv(s, k);
  }

  // --- The drain thread ---

  /** The slot at the tail is ready exactly when its position is taken and filled. */
  lemma TailRead(s: State)
    requires Inv(s)
    ensures s.slots[At(s, s.deq)].seq_ == s.deq + 1 <==> s.deq < s.enq && s.deq !in s.writing
    ensures s.slots[At(s, s.deq)].seq_ <= s.deq + 1
  {
    if s.deq == s.enq { HeadSlot(s); } else { assert SlotOk(s, s.deq); }
  }

  lemma DrainMovedInv(s: State, d: Drain, deq: int, drained: seq<Message>)
    requires Inv(s) && DrainOk(s.(drain := d, deq := deq, drained := drained))
    requires deq == s.deq || (deq == s.deq + 1 && s.deq < s.enq && s.deq !in s.writing)
    requires |drained| <= s.enq && drained == s.accepted[..|drained|]
    ensures Inv(s.(drain := d, deq := deq, drained := drained))
  {
    var s' := s.(drain := d, deq := deq, drained := drained);
    forall p | s'.enq - Capacity(s') <= p < s'.enq ensures SlotOk(s', p) { assert SlotOk(s, p); }
    forall p | p in s'.writing ensures WriterOk(s', p) { assert WriterOk(s, p); }
    forall k | k in s'.producers ensures ProducerOk(s', k, s'.producers[k]) { assert ProducerOk(s, k, s.producers[k]); }
  }

  lemma ReleaseInv(s: State)
    requires Inv(s) && s.drain.Releasing? && s.released < s.deq
    ensures Inv(DrainStep(s).0)
  {
    var s', r := DrainStep(s).0, s.released;
    forall p | s'.enq - Capacity(s') <= p < s'.enq ensures SlotOk(s', p) {
      assert SlotOk(s, p);
      if p != r { SlotsApart(s, p, r); }
    }
    forall p | p in s'.writing ensures WriterOk(s', p) { assert WriterOk(s, p); }
    forall k | k in s'.producers ensures ProducerOk(s', k, s'.producers[k]) {
      assert ProducerOk(s, k, s.producers[k]);
      if s.producers[k].Filled? {
        assert WriterOk(s, s.producers[k].pos);
        SlotsApart(s, s.producers[k].pos, r);
      }
    }
  }

  /** A picked slot is read with the content it was accepted with. */
  lemma ReadInv(s: State)
    requires Inv(s) && s.drain.Writing? && |s.drained| < s.deq
    ensures Inv(DrainStep(s).0) && DrainStep(s).1 == Wrote(s.accepted[|s.drained|])
  {
    var p := |s.drained|;
    assert SlotOk(s, p);
    assert forall q | q in s.writing :: WriterOk(s, q);
    DrainMovedInv(s, Writing, s.deq, s.drained + [s.accepted[p]]);
  }

  lemma DrainInv(s: State)
    requires Inv(s) && !s.drain.Resting?
    ensures Inv(DrainStep(s).0)
  {
    match s.drain
    case Popping =>
      DrainMovedInv(s, if s.deq - s.released < BATCH then PopPosLoaded(s.deq) else Writing, s.deq, s.drained);
    case PopPosLoaded(pos) =>
      TailRead(s);
      DrainMovedInv(s, PopSeqLoaded(pos, s.slots[At(s, pos)].seq_), s.deq, s.drained);
    case PopSeqLoaded(pos, sq) =>
      if sq == pos + 1 { DrainMovedInv(s, Popping, s.deq + 1, s.drained); }
      else if sq < pos + 1 { DrainMovedInv(s, if s.deq == s.released then Resting else Writing, s.deq, s.drained); }
      else { DrainMovedInv(s, PopPosLoaded(s.deq), s.deq, s.drained); }
    case Writing =>
      if |s.drained| < s.deq { ReadInv(s); } else { DrainMovedInv(s, Releasing, s.deq, s.drained); }
    case Releasing =>
      if s.released < s.deq { ReleaseInv(s); } else { DrainMovedInv(s, Resting, s.deq, s.drained); }
  }

  lemma ActionInv(s: State, a: Action)
    requires Inv(s) && Enabled(s, a)
    ensures Inv(Apply(s, a).0)
    ensures Apply(s, a).1.Dropped? ==> Apply(s, a).1.full
  {
    match a
    case BeginPush(k, level, text) => GoesInv(s, k, Trying(Message(level, Clip(text))), s.dropped);
    case ProducerMoves(k) => ProducerInv(s, k);
    case BeginDrain => DrainMovedInv(s, Popping, s.deq, s.drained);
    case DrainMoves => DrainInv(s);
    case PushCasFails(k) => GoesInv(s, k, Trying(s.producers[k].msg), s.dropped);
    case PopCasFails => DrainMovedInv(s, Popping, s.deq, s.drained);
  }

  // --- Whole runs ---

  ghost predicate StepAt(states: seq<State>, acts: seq<Action>, i: int) {
    && 0 <= i < |acts| && i + 1 < |states|
    && Enabled(states[i], acts[i]) && states[i + 1] == Apply(states[i], acts[i]).0
  }

  ghost predicate Run(states: seq<State>, acts: seq<Action>) {
    && |states| == |acts| + 1 && Initial(states[0])
    && forall i {:trigger StepAt(states, acts, i)} | 0 <= i < |acts| :: StepAt(states, acts, i)
  }

  /** The slots stand as if the lap before had been given back. */
  lemma InitialSlot(s: State, p: int)
    requires Initial(s) && Capacity(s) > 0 && 0 <= p + Capacity(s) && p < 0
    ensures SlotOk(s, p)
  {
    NextLap(p, Capacity(s));
    assert At(s, p) == p + Capacity(s);
  }

  lemma InitialInv(s: State)
    requires Initial(s) && Capacity(s) >= 2
    ensures Inv(s)
  {
    forall p | s.enq - Capacity(s) <= p < s.enq ensures SlotOk(s, p) { InitialSlot(s, p); }
  }

  lemma {:induction false} RunInv(states: seq<State>, acts: seq<Action>, n: nat)
    requires Run(states, acts) && n <= |acts| && Capacity(states[0]) >= 2
    ensures Inv(states[n])
  {
    if n == 0 {
      InitialInv(states[0]);
    } else {
      RunInv(states, acts, n - 1);
      assert StepAt(states, acts, n - 1);
      ActionInv(states[n - 1], acts[n - 1]);
    }
  }

  function TakenIn(l: Label): seq<Message> {
    if l.Accepted? then [l.msg] else []
  }

  function TakenOut(l: Label): seq<Message> {
    if l.Wrote? then [l.msg] else []
  }

  ghost function LabelAt(states: seq<State>, acts: seq<Action>, i: nat): Label
    requires Run(states, acts) && i < |acts|
  {
    assert StepAt(states, acts, i);
    Apply(states[i], acts[i]).1
  }

  ghost function AcceptedIn(states: seq<State>, acts: seq<Action>, n: nat): seq<Message>
    requires Run(states, acts) && n <= |acts|
  {
    if n == 0 then [] else AcceptedIn(states, acts, n - 1) + TakenIn(LabelAt(states, acts, n - 1))
  }

  ghost function WrittenIn(states: seq<State>, acts: seq<Action>, n: nat): seq<Message>
    requires Run(states, acts) && n <= |acts|
  {
    if n == 0 then [] else WrittenIn(states, acts, n - 1) + TakenOut(LabelAt(states, acts, n - 1))
  }

  ghost function DropsIn(states: seq<State>, acts: seq<Action>, n: nat): nat
    requires Run(states, acts) && n <= |acts|
  {
    if n == 0 then 0 else DropsIn(states, acts, n - 1) + (if LabelAt(states, acts, n - 1).Dropped? then 1 else 0)
  }

  /** In every interleaving the messages written out are a prefix of the accepted ones in the order of
      their enqueue positions: none twice, none altered, none out of order. The dropped counter counts
      exactly the refused pushes. */
  lemma {:induction false} WrittenIsPrefixOfAccepted(states: seq<State>, acts: seq<Action>, n: nat)
    requires Run(states, acts) && n <= |acts| && Capacity(states[0]) >= 2
    ensures WrittenIn(states, acts, n) <= AcceptedIn(states, acts, n)
    ensures |AcceptedIn(states, acts, n)| == states[n].enq
    ensures DropsIn(states, acts, n) == states[n].dropped
  {
    History(states, acts, n);
    RunInv(states, acts, n);
  }

  /** The history variables record what the labels say, and nothing else. */
  lemma Recorded(s: State, a: Action)
    requires Enabled(s, a)
    ensures var t, l := Apply(s, a).0, Apply(s, a).1;
      && t.accepted == s.accepted + TakenIn(l) && t.drained == s.drained + TakenOut(l)
      && t.dropped == s.dropped + (if l.Dropped? then 1 else 0)
  {
  }

  lemma {:induction false} History(states: seq<State>, acts: seq<Action>, n: nat)
    requires Run(states, acts) && n <= |acts|
    ensures AcceptedIn(states, acts, n) == states[n].accepted && WrittenIn(states, acts, n) == states[n].drained
    ensures DropsIn(states, acts, n) == states[n].dropped
  {
    if n > 0 {
      History(states, acts, n - 1);
      assert StepAt(states, acts, n - 1);
      Recorded(states[n - 1], acts[n - 1]);
    }
  }

  /** A push is refused only when, at the moment it read the slot's sequence, every slot was still
      held from the lap before. */
  lemma DroppedOnlyWhenFull(states: seq<State>, acts: seq<Action>, n: nat)
    requires Run(states, acts) && n < |acts| && Capacity(states[0]) >= 2 && LabelAt(states, acts, n).Dropped?
    ensures LabelAt(states, acts, n).full
  {
    assert StepAt(states, acts, n);
    RunInv(states, acts, n);
    ActionInv(states[n], acts[n]);
  }

  predicate Writes(s: State, k: nat, p: int) {
    k in s.producers && (s.producers[k].Claimed? || s.producers[k].Filled?) && s.producers[k].pos == p
  }

  predicate Picked(s: State, p: int) {
    s.released <= p < s.deq
  }

  /** One writer or one reader to a slot: two producers never write to the same one, and none writes to
      a slot the drain thread has picked and not given back. */
  lemma SlotsAreExclusive(states: seq<State>, acts: seq<Action>, n: nat, k: nat, p: int)
    requires Run(states, acts) && n <= |acts| && Capacity(states[0]) >= 2
    requires Capacity(states[n]) > 0 && Writes(states[n], k, p)
    ensures forall j, q | Writes(states[n], j, q) && j != k :: At(states[n], q) != At(states[n], p)
    ensures forall q | Picked(states[n], q) :: At(states[n], q) != At(states[n], p)
  {
    var s := states[n];
    RunInv(states, acts, n);
    assert ProducerOk(s, k, s.producers[k]) && WriterOk(s, p);
    forall j, q | Writes(s, j, q) && j != k ensures At(s, q) != At(s, p) {
      assert ProducerOk(s, j, s.producers[j]) && WriterOk(s, q);
      SlotsApart(s, p, q);
    }
    forall q | Picked(s, q) ensures At(s, q) != At(s, p) { SlotsApart(s, p, q); }
  }

  // --- A single slot ---

  ghost predicate Leads(s: State, acts: seq<Action>, t: State)
    decreases |acts|
  {
    if acts == [] then s == t else Enabled(s, acts[0]) && Leads(Apply(s, acts[0]).0, acts[1..], t)
  }

  lemma {:induction false} LeadsThen(s: State, acts: seq<Action>, t: State, more: seq<Action>, u: State)
    requires Leads(s, acts, t) && Leads(t, more, u)
    ensures Leads(s, acts + more, u)
    decreases |acts|
  {
    if acts == [] {
      assert acts + more == more;
    } else {
      LeadsThen(Apply(s, acts[0]).0, acts[1..], t, more, u);
      assert (acts + more)[1..] == acts[1..] + more;
    }
  }

  lemma LeadsOn(s: State, acts: seq<Action>, t: State, a: Action)
    requires Leads(s, acts, t) && Enabled(t, a)
    ensures Leads(s, acts + [a], Apply(t, a).0)
  {
    assert [a][1..] == [];
    assert Leads(Apply(t, a).0, [], Apply(t, a).0);
    LeadsThen(s, acts, t, [a], Apply(t, a).0);
  }

  lemma {:induction false} StatesOf(s: State, acts: seq<Action>, t: State) returns (states: seq<State>)
    requires Leads(s, acts, t)
    ensures |states| == |acts| + 1 && states[0] == s && states[|acts|] == t
    ensures forall i | 0 <= i < |acts| :: Enabled(states[i], acts[i]) && states[i + 1] == Apply(states[i], acts[i]).0
    decreases |acts|
  {
    if acts == [] {
      states := [s];
    } else {
      var rest := StatesOf(Apply(s, acts[0]).0, acts[1..], t);
      states := [s] + rest;
      forall i | 0 <= i < |acts| ensures Enabled(states[i], acts[i]) && states[i + 1] == Apply(states[i], acts[i]).0 {
        if i > 0 { assert Enabled(rest[i - 1], acts[1..][i - 1]) && rest[i] == Apply(rest[i - 1], acts[1..][i - 1]).0; }
      }
    }
  }

  /** One slot, which looks free to a push that finds it with the sequence of the head. */
  predicate LooksFree(s: State) {
    |s.slots| == 1 && s.slots[0].seq_ == s.enq && s.producers == map[0 := Away]
  }

  /** The producer up to the point where the slot is written and its sequence not stored yet. */
  function Filling(s: State, msg: Message): State {
    s.(slots := [Slot(s.enq, msg)], enq := s.enq + 1, producers := map[0 := Filled(msg, s.enq)],
       writing := s.writing[s.enq := 0], accepted := s.accepted + [msg])
  }

  function Tried(s: State, pr: Producer): State {
    s.(producers := map[0 := pr])
  }

  lemma PushReads(s: State, level: nat, text: string)
    requires LooksFree(s)
    ensures var msg, a := Message(level, Clip(text)), ProducerMoves(0);
      && Enabled(s, BeginPush(0, level, text)) && Apply(s, BeginPush(0, level, text)).0 == Tried(s, Trying(msg))
      && Enabled(Tried(s, Trying(msg)), a) && Apply(Tried(s, Trying(msg)), a).0 == Tried(s, PosLoaded(msg, s.enq))
  {
  }

  function Claiming(s: State, msg: Message): State {
    Filling(s, msg).(slots := s.slots, producers := map[0 := Claimed(msg, s.enq)])
  }

  lemma PushClaims(s: State, msg: Message)
    requires LooksFree(s)
    ensures var a, s2 := ProducerMoves(0), Tried(s, PosLoaded(msg, s.enq));
      var s3 := Tried(s, SeqLoaded(msg, s.enq, s.enq, s.enq - s.released == 1));
      Enabled(s2, a) && Apply(s2, a).0 == s3 && Enabled(s3, a) && Apply(s3, a).0 == Claiming(s, msg)
  {
    assert At(s, s.enq) == 0;
  }

  lemma PushWrites(s: State, msg: Message)
    requires LooksFree(s)
    ensures Enabled(Claiming(s, msg), ProducerMoves(0)) && Apply(Claiming(s, msg), ProducerMoves(0)).0 == Filling(s, msg)
  {
    assert At(Claiming(s, msg), s.enq) == 0;
  }

  lemma LeadsTwo(s: State, a: Action, t: State, b: Action)
    requires Enabled(s, a) && Apply(s, a).0 == t && Enabled(t, b)
    ensures Leads(s, [a, b], Apply(t, b).0)
  {
    assert [a, b][1..] == [b] && [b][1..] == [];
  }

  lemma PushFills(s: State, level: nat, text: string) returns (acts: seq<Action>)
    requires LooksFree(s)
    ensures Leads(s, acts, Filling(s, Message(level, Clip(text))))
  {
    var msg, a := Message(level, Clip(text)), ProducerMoves(0);
    var s2 := Tried(s, PosLoaded(msg, s.enq));
    PushReads(s, level, text);
    LeadsTwo(s, BeginPush(0, level, text), Tried(s, Trying(msg)), a);
    PushClaims(s, msg);
    LeadsTwo(s2, a, Tried(s, SeqLoaded(msg, s.enq, s.enq, s.enq - s.released == 1)), a);
    LeadsThen(s, [BeginPush(0, level, text), a], s2, [a, a], Claiming(s, msg));
    PushWrites(s, msg);
    acts := [BeginPush(0, level, text), a] + [a, a];
    LeadsOn(s, acts, Claiming(s, msg), a);
    acts := acts + [a];
  }

  /** A whole push. */
  function Pushed(s: State, msg: Message): State {
    s.(slots := [Slot(s.enq + 1, msg)], enq := s.enq + 1, accepted := s.accepted + [msg])
  }

  lemma PushDone(s: State, level: nat, text: string) returns (acts: seq<Action>)
    requires LooksFree(s) && s.enq !in s.writing
    ensures Leads(s, acts, Pushed(s, Message(level, Clip(text))))
  {
    var msg := Message(level, Clip(text));
    var t := Filling(s, msg);
    acts := PushFills(s, level, text);
    assert At(t, s.enq) == 0;
    assert Apply(t, ProducerMoves(0)).0 == Pushed(s, msg);
    LeadsOn(s, acts, t, ProducerMoves(0));
    acts := acts + [ProducerMoves(0)];
  }

  /** The drain thread picks the one slot that is ready and finds no second. */
  lemma DrainPicks(s: State) returns (acts: seq<Action>)
    requires |s.slots| == 1 && s.drain.Resting? && s.deq == s.released && s.slots[0].seq_ == s.deq + 1
    ensures Leads(s, acts, s.(deq := s.deq + 1, drain := Writing))
  {
    var a := DrainMoves;
    assert At(s, s.deq) == At(s, s.deq + 1) == 0;
    LeadsOn(s, [], s, BeginDrain);
    acts := [] + [BeginDrain];
    LeadsOn(s, acts, s.(drain := Popping), a);
    acts := acts + [a];
    LeadsOn(s, acts, s.(drain := PopPosLoaded(s.deq)), a);
    acts := acts + [a];
    LeadsOn(s, acts, s.(drain := PopSeqLoaded(s.deq, s.deq + 1)), a);
    acts := acts + [a];
    var t := s.(deq := s.deq + 1);
    LeadsOn(s, acts, t.(drain := Popping), a);
    acts := acts + [a];
    LeadsOn(s, acts, t.(drain := PopPosLoaded(t.deq)), a);
    acts := acts + [a];
    LeadsOn(s, acts, t.(drain := PopSeqLoaded(t.deq, t.deq)), a);
    acts := acts + [a];
  }

  function OneSlot(slot: Slot): State {
    State([slot], 0, 0, 0, map[0 := Away], Resting, 0, map[], [], [])
  }

  lemma DrainWrites(s: State)
    requires |s.slots| == 1 && s.drain.Writing? && |s.drained| < s.deq
    ensures Enabled(s, DrainMoves) && Apply(s, DrainMoves).0 == s.(drained := s.drained + [s.slots[0].msg])
  {
    assert At(s, |s.drained|) == 0;
  }

  lemma PickedThenOverwritten(s1: State, level: nat, text: string) returns (acts: seq<Action>, t: State)
    requires |s1.slots| == 1 && s1.slots[0].seq_ == 1 && s1.enq == 1 && s1.deq == s1.released == 0 && s1.drain.Resting?
    requires s1.producers == map[0 := Away] && s1.drained == []
    ensures Leads(s1, acts, t) && t.drained == [Message(level, Clip(text))] && t.accepted == s1.accepted + t.drained
  {
    var msg := Message(level, Clip(text));
    var picks := DrainPicks(s1);
    var s2 := s1.(deq := 1, drain := Writing);
    var fills := PushFills(s2, level, text);
    var s3 := Filling(s2, msg);
    LeadsThen(s1, picks, s2, fills, s3);
    DrainWrites(s3);
    acts, t := picks + fills + [DrainMoves], s3.(drained := [] + [msg]);
    LeadsOn(s1, picks + fills, s3, DrainMoves);
  }

  lemma SecondAlone(a: Message, b: Message)
    requires a != b
    ensures !([b] <= [a, b])
  {
    assert [b][0] != [a, b][0];
  }

  /** With a single slot, which the initialization accepts, a filled slot looks free to the next push. A run
      from the start in which the drain thread picks the first message and writes the second: what is written
      is no prefix of what was accepted. */
  lemma SingleSlotOverwrites(level: nat, first: string, second: string) returns (states: seq<State>, acts: seq<Action>)
    requires Clip(first) != Clip(second)
    ensures Run(states, acts) && Capacity(states[0]) == 1
    ensures AcceptedIn(states, acts, |acts|) == [Message(level, Clip(first)), Message(level, Clip(second))]
    ensures WrittenIn(states, acts, |acts|) == [Message(level, Clip(second))]
    ensures !(WrittenIn(states, acts, |acts|) <= AcceptedIn(states, acts, |acts|))
  {
    var a := Message(level, Clip(first));
    var s0 := OneSlot(Slot(0, a));
    var push := PushDone(s0, level, first);
    var more, t := PickedThenOverwritten(Pushed(s0, a), level, second);
    LeadsThen(s0, push, Pushed(s0, a), more, t);
    acts := push + more;
    states := StatesOf(s0, acts, t);
    History(states, acts, |acts|);
    SecondAlone(a, Message(level, Clip(second)));
  }

  /** The slot is ahead of what the drain thread waits for. */
  ghost predicate Wedged(s: State) {
    && Capacity(s) == 1 && s.slots[0].seq_ >= s.deq + 2 && s.enq > s.deq && s.released == s.deq == |s.drained|
    && (forall k | k in s.producers :: AheadOfDrain(s, s.producers[k]))
    && match s.drain
       case PopPosLoaded(pos) => pos == s.deq
       case PopSeqLoaded(pos, sq) => pos == s.deq && sq >= s.deq + 2
       case _ => s.drain.Resting? || s.drain.Popping?
  }

  predicate AheadOfDrain(s: State, pr: Producer) {
    pr.Claimed? || pr.Filled? ==> pr.pos > s.deq
  }

  lemma WedgedStep(s: State, a: Action)
    requires Wedged(s) && Enabled(s, a)
    ensures Wedged(Apply(s, a).0) && Apply(s, a).0.drained == s.drained
  {
    assert forall k | k in s.producers :: AheadOfDrain(s, s.producers[k]);
    assert forall p: int :: At(s, p) == 0;
  }

  lemma {:induction false} WedgedOn(states: seq<State>, acts: seq<Action>, m: nat, n: nat)
    requires Run(states, acts) && m <= n <= |acts| && Wedged(states[m])
    ensures Wedged(states[n]) && states[n].drained == states[m].drained
    decreases n
  {
    if m < n {
      WedgedOn(states, acts, m, n - 1);
      assert StepAt(states, acts, n - 1);
      WedgedStep(states[n - 1], acts[n - 1]);
    }
  }

  /** Then the drain thread goes round and round: whatever the threads do, nothing is written any more. */
  lemma WedgedForever(states: seq<State>, acts: seq<Action>, m: nat, n: nat)
    requires Run(states, acts) && m <= n <= |acts| && Wedged(states[m])
    ensures Wedged(states[n]) && WrittenIn(states, acts, n) == WrittenIn(states, acts, m)
  {
    WedgedOn(states, acts, m, n);
    History(states, acts, m);
    History(states, acts, n);
  }

  /** Two pushes before the first drain are enough. */
  lemma SingleSlotWedges(level: nat, first: string, second: string) returns (states: seq<State>, acts: seq<Action>)
    ensures Run(states, acts) && Capacity(states[0]) == 1 && Wedged(states[|acts|])
    ensures AcceptedIn(states, acts, |acts|) == [Message(level, Clip(first)), Message(level, Clip(second))]
    ensures WrittenIn(states, acts, |acts|) == []
  {
    var a, b := Message(level, Clip(first)), Message(level, Clip(second));
    var s0 := OneSlot(Slot(0, a));
    var acts1 := PushDone(s0, level, first);
    var s1 := Pushed(s0, a);
    var acts2 := PushDone(s1, level, second);
    LeadsThen(s0, acts1, s1, acts2, Pushed(s1, b));
    acts := acts1 + acts2;
    states := StatesOf(s0, acts, Pushed(s1, b));
    History(states, acts, |acts|);
  }
}
