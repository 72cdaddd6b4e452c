/** The linked queue with many producers and one consumer: producers exchange the head, then link. */
module MpscQueue {
  import opened References

  const STUB: Ptr := 1
  const BACKOFF := 8

  type Value = nat

  datatype Node = Node(next: Ptr, value: Value)

  /** `at` is history: the place of the new node in the order of the exchanges. */
  datatype Producer =
    | Away
    | Allocated(node: Ptr)
    | Exchanged(node: Ptr, prev: Ptr, at: nat)

  datatype Consumer =
    | Gone
    | Looking(backoff: nat)     // about to load `tail->next`, `backoff` retries made
    | Found(next: Ptr)

  /** `order`, `values`, `taken` and `linking` are history: the nodes in exchange order, the stub first;
      their values, the stub's left out; how many have been dequeued; who has yet to link the node at
      which place. */
  datatype State = State(
    nodes: seq<Node>, head: Ptr, tail: Ptr,
    producers: map<nat, Producer>, consumer: Consumer,
    order: seq<Ptr>, values: seq<Value>, taken: nat, linking: map<nat, nat>)

  datatype Action = Allocate(k: nat, value: Value) | ProducerMoves(k: nat) | BeginDequeue | ConsumerMoves

  datatype Label = Silent | Enqueued(value: Value) | Got(value: Value) | GotNull

  predicate IsNode(s: State, p: Ptr) {
    p != NULL && p < |s.nodes|
  }

  predicate Enabled(s: State, a: Action) {
    match a
    case Allocate(k, _) => k in s.producers && s.producers[k].Away?
    case ProducerMoves(k) =>
      && k in s.producers && !s.producers[k].Away? && IsNode(s, s.producers[k].node)
      && (s.producers[k].Exchanged? ==> IsNode(s, s.producers[k].prev))
    case BeginDequeue => s.consumer.Gone?
    case ConsumerMoves => !s.consumer.Gone? && IsNode(s, s.tail) && (s.consumer.Found? ==> IsNode(s, s.consumer.next))
  }

  function Goes(s: State, k: nat, p: Producer): State {
    s.(producers := s.producers[k := p])
  }

  /** `cx_mpsc_enqueue`. */
  function ProducerStep(s: State, k: nat): (State, Label)
    requires Enabled(s, ProducerMoves(k))
  {
    match s.producers[k]
    case Allocated(node) =>
      (Goes(s, k, Exchanged(node, s.head, |s.order|))
         .(head := node, order := s.order + [node], values := s.values + [s.nodes[node].value],
           linking := s.linking[|s.order| := k]),
       Enqueued(s.nodes[node].value))
    case Exchanged(node, prev, at) =>
      (Goes(s, k, Away).(nodes := s.nodes[prev := s.nodes[prev].(next := node)], linking := s.linking - {at}), Silent)
  }

  /** `cx_mpsc_dequeue`. */
  function ConsumerStep(s: State): (State, Label)
    requires Enabled(s, ConsumerMoves)
  {
    match s.consumer
    case Looking(backoff) =>
      var next := s.nodes[s.tail].next;
      if next != NULL then (s.(consumer := Found(next)), Silent)
      else if backoff < BACKOFF then (s.(consumer := Looking(backoff + 1)), Silent)
      else (s.(consumer := Gone), GotNull)
    case Found(next) => (s.(tail := next, taken := s.taken + 1, consumer := Gone), Got(s.nodes[next].value))
  }

  function Apply(s: State, a: Action): (State, Label)
    requires Enabled(s, a)
  {
    match a
    case Allocate(k, value) => (Goes(s, k, Allocated(|s.nodes|)).(nodes := s.nodes + [Node(NULL, value)]), Silent)
    case ProducerMoves(k) => ProducerStep(s, k)
    case BeginDequeue => (s.(consumer := Looking(0)), Silent)
    case ConsumerMoves => ConsumerStep(s)
  }

  /** `cx_mpsc_queue_create`. */
  predicate Initial(s: State) {
    && s.nodes == [Node(NULL, 0), Node(NULL, 0)] && s.head == s.tail == STUB
    && (forall k | k in s.producers :: s.producers[k].Away?) && s.consumer.Gone?
    && s.order == [STUB] && s.values == [] && s.taken == 0 && s.linking == map[]
  }

  // --- Invariant ---

  /** The node before place `i` points to the node at `i`, unless that link is still to be made. */
  predicate LinkOk(s: State, i: int) {
    && 0 < i < |s.order| && IsNode(s, s.order[i]) && IsNode(s, s.order[i - 1])
    && s.nodes[s.order[i - 1]].next == (if i in s.linking then NULL else s.order[i])
    && i <= |s.values| && s.nodes[s.order[i]].value == s.values[i - 1]
  }

  predicate LinkerOk(s: State, i: nat) {
    && i in s.linking && 0 < i < |s.order|
    && s.linking[i] in s.producers && s.producers[s.linking[i]] == Exchanged(s.order[i], s.order[i - 1], i)
  }

  predicate ProducerOk(s: State, k: nat) {
    && k in s.producers
    && match s.producers[k]
       case Away => true
       case Allocated(node) => IsNode(s, node) && s.nodes[node].next == NULL && node !in s.order
       case Exchanged(_, _, at) => at in s.linking && s.linking[at] == k
  }

  predicate OwnNode(s: State, k: nat, j: nat) {
    k in s.producers && j in s.producers && k != j && s.producers[k].Allocated? && s.producers[j].Allocated? ==>
      s.producers[k].node != s.producers[j].node
  }

  predicate ConsumerOk(s: State) {
    && s.taken < |s.order| && s.tail == s.order[s.taken]
    && (s.consumer.Looking? ==> s.consumer.backoff <= BACKOFF)
    && (s.consumer.Found? ==>
          s.taken + 1 < |s.order| && s.taken + 1 !in s.linking && s.consumer.next == s.order[s.taken + 1])
  }

  ghost predicate Inv(s: State) {
    && |s.order| == |s.values| + 1 && NoRepeats(s.order) && IsNode(s, s.order[0])
    && (forall i | 0 < i < |s.order| :: LinkOk(s, i))
    && s.head == s.order[|s.order| - 1] && IsNode(s, s.head) && s.nodes[s.head].next == NULL
    && (forall i: nat | i in s.linking :: LinkerOk(s, i))
    && (forall k | k in s.producers :: ProducerOk(s, k))
    && (forall k: nat, j: nat :: OwnNode(s, k, j))
    && ConsumerOk(s)
  }

  lemma AllocateInv(s: State, k: nat, value: Value)
    requires Inv(s) && Enabled(s, Allocate(k, value))
    ensures Inv(Apply(s, Allocate(k, value)).0)
  {
    var s' := Apply(s, Allocate(k, value)).0;
    forall i | 0 < i < |s'.order| ensures LinkOk(s', i) { assert LinkOk(s, i); }
    forall i: nat | i in s'.linking ensures LinkerOk(s', i) { assert LinkerOk(s, i) && ProducerOk(s, k); }
    forall j | j in s'.producers ensures ProducerOk(s', j) {
      if j != k { assert ProducerOk(s, j); } else { InOrder(s, |s.nodes|); }
    }
    forall a: nat, b: nat ensures OwnNode(s', a, b) {
      assert OwnNode(s, a, b);
      assert a in s.producers ==> ProducerOk(s, a);
      assert b in s.producers ==> ProducerOk(s, b);
    }
  }

  lemma InOrder(s: State, p: Ptr)
    requires Inv(s) && p >= |s.nodes|
    ensures p !in s.order
  {
    forall i | 0 <= i < |s.order| ensures s.order[i] != p { if i > 0 { assert LinkOk(s, i); } }
  }

  lemma ExchangeInv(s: State, k: nat)
    requires Inv(s) && Enabled(s, ProducerMoves(k)) && s.producers[k].Allocated?
    ensures Inv(ProducerStep(s, k).0)
  {
    var s', node := ProducerStep(s, k).0, s.producers[k].node;
    assert ProducerOk(s, k);
    NoRepeatsEnd(s.order, node);
    assert forall i: nat | i in s.linking :: LinkerOk(s, i);
    forall i | 0 < i < |s'.order| ensures LinkOk(s', i) { if i < |s.order| { assert LinkOk(s, i); } }
    forall i: nat | i in s'.linking ensures LinkerOk(s', i) { if i < |s.order| { assert LinkerOk(s, i); } }
    forall j | j in s'.producers ensures ProducerOk(s', j) {
      assert ProducerOk(s, j) && OwnNode(s, j, k);
    }
    forall a: nat, b: nat ensures OwnNode(s', a, b) { assert OwnNode(s, a, b); }
  }

  lemma LinkInv(s: State, k: nat)
    requires Inv(s) && Enabled(s, ProducerMoves(k)) && s.producers[k].Exchanged?
    ensures Inv(ProducerStep(s, k).0)
  {
    var s', at := ProducerStep(s, k).0, s.producers[k].at;
    assert ProducerOk(s, k) && LinkerOk(s, at);
    forall i | 0 < i < |s'.order| ensures LinkOk(s', i) {
      assert LinkOk(s, i);
      assert i < at ==> Apart(s.order, i - 1, at - 1);
      assert i > at ==> Apart(s.order, at - 1, i - 1);
    }
    forall i: nat | i in s'.linking ensures LinkerOk(s', i) { assert LinkerOk(s, i); }
    forall j | j in s'.producers ensures ProducerOk(s', j) {
      assert ProducerOk(s, j);
      if j != k && s.producers[j].Exchanged? { assert LinkerOk(s, s.producers[j].at); }
      if j != k && s.producers[j].Allocated? { assert s.order[at - 1] in s.order; }
    }
    forall a: nat, b: nat ensures OwnNode(s', a, b) { assert OwnNode(s, a, b); }
    assert Apart(s.order, at - 1, |s.order| - 1);
  }

  lemma ConsumerInv(s: State, c: Consumer, taken: nat, tail: Ptr)
    requires Inv(s) && ConsumerOk(s.(consumer := c, taken := taken, tail := tail))
    ensures Inv(s.(consumer := c, taken := taken, tail := tail))
  {
    var s' := s.(consumer := c, taken := taken, tail := tail);
    forall i | 0 < i < |s'.order| ensures LinkOk(s', i) { assert LinkOk(s, i); }
    forall i: nat | i in s'.linking ensures LinkerOk(s', i) { assert LinkerOk(s, i); }
    forall j | j in s'.producers ensures ProducerOk(s', j) { assert ProducerOk(s, j); }
    forall a: nat, b: nat ensures OwnNode(s', a, b) { assert OwnNode(s, a, b); }
  }

  /** What the load of `tail->next` says: nothing there exactly if nothing is left, or the next node is
      not linked yet. */
  lemma TailNext(s: State)
    requires Inv(s)
    ensures IsNode(s, s.tail)
    ensures s.nodes[s.tail].next == NULL <==> s.taken + 1 == |s.order| || s.taken + 1 in s.linking
    ensures s.nodes[s.tail].next != NULL ==> s.nodes[s.tail].next == s.order[s.taken + 1]
  {
    if s.taken + 1 < |s.order| { assert LinkOk(s, s.taken + 1); }
    if s.taken + 1 in s.linking { assert LinkerOk(s, s.taken + 1); }
  }

  lemma DequeueInv(s: State)
    requires Inv(s) && Enabled(s, ConsumerMoves)
    ensures Inv(ConsumerStep(s).0)
    ensures ConsumerStep(s).1.Got? ==> s.taken + 1 < |s.order| && s.consumer.next == s.order[s.taken + 1]
  {
    TailNext(s);
    match s.consumer
    case Looking(backoff) => ConsumerInv(s, ConsumerStep(s).0.consumer, s.taken, s.tail);
    case Found(next) => ConsumerInv(s, Gone, s.taken + 1, next);
  }

  lemma ActionInv(s: State, a: Action)
    requires Inv(s) && Enabled(s, a)
    ensures Inv(Apply(s, a).0)
  {
    match a
    case Allocate(k, value) => AllocateInv(s, k, value);
    case ProducerMoves(k) => if s.producers[k].Allocated? { ExchangeInv(s, k); } else { LinkInv(s, k); }
    case BeginDequeue => ConsumerInv(s, Looking(0), s.taken, s.tail);
    case ConsumerMoves => DequeueInv(s);
  }

  // --- Whole runs ---

  ghost predicate StepAt(states: seq<State>, acts: seq<Action>, i: int) {
    && 0 <= i < |acts| && i + 1 < |states|
    && Enabled(states[i], acts[i]) && states[i + 1] == Apply(states[i], acts[i]).0
  }

  ghost predicate Run(states: seq<State>, acts: seq<Action>) {
    && |states| == |acts| + 1 && Initial(states[0])
    && forall i {:trigger StepAt(states, acts, i)} | 0 <= i < |acts| :: StepAt(states, acts, i)
  }

  ghost function LabelAt(states: seq<State>, acts: seq<Action>, i: nat): Label
    requires Run(states, acts) && i < |acts|
  {
    assert StepAt(states, acts, i);
    Apply(states[i], acts[i]).1
  }

  lemma InitialInv(s: State)
    requires Initial(s)
    ensures Inv(s)
  {
    forall j | j in s.producers ensures ProducerOk(s, j) {}
    forall a: nat, b: nat ensures OwnNode(s, a, b) {}
  }

  lemma {:induction false} RunInv(states: seq<State>, acts: seq<Action>, n: nat)
    requires Run(states, acts) && n <= |acts|
    ensures Inv(states[n])
  {
    if n == 0 {
      InitialInv(states[0]);
    } else {
      RunInv(states, acts, n - 1);
      assert StepAt(states, acts, n - 1);
      ActionInv(states[n - 1], acts[n - 1]);
    }
  }

  function ValueIn(l: Label): seq<Value> {
    if l.Enqueued? then [l.value] else []
  }

  function ValueOut(l: Label): seq<Value> {
    if l.Got? then [l.value] else []
  }

  /** The values of the first `n` steps' exchanges, in order. */
  ghost function EnqueuedIn(states: seq<State>, acts: seq<Action>, n: nat): seq<Value>
    requires Run(states, acts) && n <= |acts|
  {
    if n == 0 then [] else EnqueuedIn(states, acts, n - 1) + ValueIn(LabelAt(states, acts, n - 1))
  }

  ghost function DequeuedIn(states: seq<State>, acts: seq<Action>, n: nat): seq<Value>
    requires Run(states, acts) && n <= |acts|
  {
    if n == 0 then [] else DequeuedIn(states, acts, n - 1) + ValueOut(LabelAt(states, acts, n - 1))
  }

  lemma Recorded(s: State, a: Action)
    requires Inv(s) && Enabled(s, a)
    ensures var t, l := Apply(s, a).0, Apply(s, a).1;
      && t.values == s.values + ValueIn(l) && t.taken == s.taken + |ValueOut(l)| <= |t.values|
      && t.values[..t.taken] == s.values[..s.taken] + ValueOut(l)
  {
    ActionInv(s, a);
    if a.ConsumerMoves? && s.consumer.Found? {
      DequeueInv(s);
      assert LinkOk(s, s.taken + 1);
    }
  }

  lemma {:induction false} History(states: seq<State>, acts: seq<Action>, n: nat)
    requires Run(states, acts) && n <= |acts|
    ensures EnqueuedIn(states, acts, n) == states[n].values
    ensures states[n].taken <= |states[n].values| && DequeuedIn(states, acts, n) == states[n].values[..states[n].taken]
  {
    if n > 0 {
      History(states, acts, n - 1);
      RunInv(states, acts, n - 1);
      assert StepAt(states, acts, n - 1);
      Recorded(states[n - 1], acts[n - 1]);
    }
  }

  /** In every interleaving the dequeued values are a prefix of the enqueued ones, in the order of the
      head exchanges: each taken once. */
  lemma DequeuedIsPrefix(states: seq<State>, acts: seq<Action>, n: nat)
    requires Run(states, acts) && n <= |acts|
    ensures DequeuedIn(states, acts, n) <= EnqueuedIn(states, acts, n)
  {
    History(states, acts, n);
  }

  /** An enqueue that has exchanged the head but not made its link. */
  ghost predicate InFlight(s: State) {
    exists k :: k in s.producers && s.producers[k].Exchanged?
  }

  /** NULL is answered only when all that was exchanged in has been dequeued, or the next node's producer
      sits between exchange and link; so with no enqueue in flight NULL means empty. */
  lemma NullMeansEmpty(states: seq<State>, acts: seq<Action>, n: nat)
    requires Run(states, acts) && n < |acts| && LabelAt(states, acts, n).GotNull?
    ensures states[n].taken + 1 in states[n].linking || DequeuedIn(states, acts, n) == EnqueuedIn(states, acts, n)
    ensures !InFlight(states[n]) ==> DequeuedIn(states, acts, n) == EnqueuedIn(states, acts, n)
  {
    History(states, acts, n);
    RunInv(states, acts, n);
    var s := states[n];
    assert StepAt(states, acts, n);
    TailNext(s);
    if s.taken + 1 in s.linking { assert LinkerOk(s, s.taken + 1); }
  }

  /** The converse: on an empty queue the consumer finds no node at any of its looks. */
  lemma EmptyLook(s: State)
    requires Inv(s) && s.consumer.Looking? && s.taken + 1 == |s.order|
    ensures Enabled(s, ConsumerMoves) && (ConsumerStep(s).0.consumer.Looking? || ConsumerStep(s).1 == GotNull)
  {
    TailNext(s);
  }
}
