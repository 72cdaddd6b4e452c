/** What the calls of the linked queue do with their arguments, and what they achieve undisturbed. */
module MpscCalls {
  import opened References
  import opened MpscQueue

  // --- Arguments, in every interleaving ---

  /** The enqueue of producer `k` that is under way at step `n` began at step `i`. */
  ghost predicate BegunAt(acts: seq<Action>, i: nat, n: nat, k: nat, value: Value) {
    && i < n <= |acts| && acts[i] == Allocate(k, value) && forall j | i < j < n :: !(acts[j].Allocate? && acts[j].k == k)
  }

  /** The node a producer holds still has the value of its call. */
  lemma {:induction false} EnqueueOf(states: seq<State>, acts: seq<Action>, n: nat, k: nat) returns (i: nat)
    requires Run(states, acts) && n <= |acts| && k in states[n].producers && !states[n].producers[k].Away?
    ensures IsNode(states[n], states[n].producers[k].node)
    ensures BegunAt(acts, i, n, k, states[n].nodes[states[n].producers[k].node].value)
    decreases n
  {
    assert n > 0;
    assert StepAt(states, acts, n - 1);
    if acts[n - 1].Allocate? && acts[n - 1].k == k {
      RunInv(states, acts, n - 1);
      i := n - 1;
    } else {
      i := EnqueueOf(states, acts, n - 1, k);
      ValuesStay(states[n - 1], acts[n - 1], states[n - 1].producers[k].node);
    }
  }

  /** A node keeps its value. */
  lemma ValuesStay(s: State, a: Action, p: Ptr)
    requires Enabled(s, a) && IsNode(s, p)
    ensures IsNode(Apply(s, a).0, p) && Apply(s, a).0.nodes[p].value == s.nodes[p].value
  {
  }

  /** What is enqueued is the argument of the call of that producer. */
  lemma EnqueuedIsArgument(states: seq<State>, acts: seq<Action>, n: nat) returns (i: nat)
    requires Run(states, acts) && n < |acts| && LabelAt(states, acts, n).Enqueued?
    ensures acts[n].ProducerMoves? && BegunAt(acts, i, n, acts[n].k, LabelAt(states, acts, n).value)
  {
    assert StepAt(states, acts, n);
    i := EnqueueOf(states, acts, n, acts[n].k);
  }

  /** So every value that comes out was the argument of an enqueue. */
  lemma {:induction false} EnqueuedFrom(states: seq<State>, acts: seq<Action>, n: nat, j: nat) returns (i: nat)
    requires Run(states, acts) && n <= |acts| && j < |EnqueuedIn(states, acts, n)|
    ensures i < n && acts[i].Allocate? && acts[i].value == EnqueuedIn(states, acts, n)[j]
    decreases n
  {
    if j < |EnqueuedIn(states, acts, n - 1)| {
      i := EnqueuedFrom(states, acts, n - 1, j);
    } else {
      i := EnqueuedIsArgument(states, acts, n - 1);
    }
  }

  lemma DequeuedFrom(states: seq<State>, acts: seq<Action>, n: nat, j: nat) returns (i: nat)
    requires Run(states, acts) && n <= |acts| && j < |DequeuedIn(states, acts, n)|
    ensures i < n && acts[i].Allocate? && acts[i].value == DequeuedIn(states, acts, n)[j]
  {
    DequeuedIsPrefix(states, acts, n);
    i := EnqueuedFrom(states, acts, n, j);
  }

  // --- Undisturbed calls ---

  /** From `s` the actions lead to `t`; `out` is what dequeues answered. */
  ghost predicate Leads(s: State, acts: seq<Action>, out: seq<Label>, t: State)
    decreases |acts|
  {
    if acts == [] then out == [] && t == s
    else
      && Enabled(s, acts[0])
      && var u, l := Apply(s, acts[0]).0, Apply(s, acts[0]).1;
         var answer := if l.Got? || l.GotNull? then [l] else [];
         answer <= out && Leads(u, acts[1..], out[|answer|..], t)
  }

  lemma LeadsFirst(s: State, a: Action, acts: seq<Action>, out: seq<Label>, t: State)
    requires Enabled(s, a) && Leads(Apply(s, a).0, acts, out, t)
    ensures !Apply(s, a).1.Got? && !Apply(s, a).1.GotNull? ==> Leads(s, [a] + acts, out, t)
    ensures Apply(s, a).1.Got? || Apply(s, a).1.GotNull? ==> Leads(s, [a] + acts, [Apply(s, a).1] + out, t)
  {
    assert ([a] + acts)[1..] == acts;
    assert ([Apply(s, a).1] + out)[1..] == out && out[0..] == out;
  }

  /** The three steps of an enqueue. */
  lemma EnqueueSteps(s: State, k: nat, value: Value, s1: State, s2: State, t: State)
    requires Enabled(s, Allocate(k, value)) && s1 == Apply(s, Allocate(k, value)).0
    requires Enabled(s1, ProducerMoves(k)) && s2 == Apply(s1, ProducerMoves(k)).0 && Apply(s1, ProducerMoves(k)).1.Enqueued?
    requires Enabled(s2, ProducerMoves(k)) && t == Apply(s2, ProducerMoves(k)).0 && Apply(s2, ProducerMoves(k)).1 == Silent
    ensures Leads(s, [Allocate(k, value)] + ([ProducerMoves(k)] + [ProducerMoves(k)]), [], t)
  {
    assert Leads(t, [], [], t);
    LeadsFirst(s2, ProducerMoves(k), [], [], t);
    assert [ProducerMoves(k)] + [] == [ProducerMoves(k)];
    LeadsFirst(s1, ProducerMoves(k), [ProducerMoves(k)], [], t);
    LeadsFirst(s, Allocate(k, value), [ProducerMoves(k)] + [ProducerMoves(k)], [], t);
  }

  /** An enqueue that nobody disturbs puts its value at the end, linked. */
  lemma EnqueueAlone(s: State, k: nat, value: Value) returns (t: State)
    requires Inv(s) && Enabled(s, Allocate(k, value))
    ensures Leads(s, [Allocate(k, value)] + ([ProducerMoves(k)] + [ProducerMoves(k)]), [], t)
    ensures Inv(t) && t.values == s.values + [value] && t.taken == s.taken
    ensures t.producers == s.producers && t.linking == s.linking && t.consumer == s.consumer
  {
    var s1 := AllocateAlone(s, k, value);
    var s2 := ExchangeAlone(s1, k);
    t := LinkAlone(s2, k);
    EnqueueSteps(s, k, value, s1, s2, t);
    SameProducers(s.producers, k, s1.producers[k], s2.producers[k]);
  }

  lemma SameProducers(m: map<nat, Producer>, k: nat, a: Producer, b: Producer)
    requires k in m && m[k] == Away
    ensures m[k := a][k := b][k := Away] == m
  {
  }

  lemma AllocateAlone(s: State, k: nat, value: Value) returns (t: State)
    requires Inv(s) && Enabled(s, Allocate(k, value))
    ensures t == Apply(s, Allocate(k, value)).0 && Inv(t) && t.values == s.values && t.taken == s.taken && t.consumer == s.consumer
    ensures k in t.producers && t.producers == s.producers[k := t.producers[k]] && t.linking == s.linking && t.order == s.order
    ensures t.producers[k].Allocated? && IsNode(t, t.producers[k].node) && t.nodes[t.producers[k].node].value == value
  {
    AllocateInv(s, k, value);
    t := Apply(s, Allocate(k, value)).0;
  }

  lemma ExchangeAlone(s: State, k: nat) returns (t: State)
    requires Inv(s) && k in s.producers && s.producers[k].Allocated?
    ensures Enabled(s, ProducerMoves(k)) && t == ProducerStep(s, k).0 && ProducerStep(s, k).1.Enqueued?
    ensures Inv(t) && IsNode(s, s.producers[k].node) && t.values == s.values + [s.nodes[s.producers[k].node].value]
    ensures t.taken == s.taken && t.consumer == s.consumer && k in t.producers && t.producers[k].Exchanged?
    ensures t.producers == s.producers[k := t.producers[k]] && t.linking == s.linking[|s.order| := k]
    ensures t.producers[k].at == |s.order| && |s.order| !in s.linking
  {
    assert ProducerOk(s, k);
    ExchangeInv(s, k);
    assert forall i: nat | i in s.linking :: LinkerOk(s, i);
    t := ProducerStep(s, k).0;
  }

  lemma LinkAlone(s: State, k: nat) returns (t: State)
    requires Inv(s) && k in s.producers && s.producers[k].Exchanged?
    ensures Enabled(s, ProducerMoves(k)) && t == ProducerStep(s, k).0 && ProducerStep(s, k).1 == Silent
    ensures Inv(t) && t.values == s.values && t.taken == s.taken && t.consumer == s.consumer
    ensures t.producers == s.producers[k := Away] && t.linking == s.linking - {s.producers[k].at}
  {
    assert ProducerOk(s, k) && LinkerOk(s, s.producers[k].at);
    assert LinkOk(s, s.producers[k].at);
    LinkInv(s, k);
    t := ProducerStep(s, k).0;
  }

  function Looks(n: nat): seq<Action> {
    if n == 0 then [] else [ConsumerMoves] + Looks(n - 1)
  }

  /** A dequeue that nobody disturbs takes the oldest value that is linked. */
  lemma DequeueAlone(s: State) returns (t: State)
    requires Inv(s) && s.consumer.Gone? && s.taken < |s.values| && s.taken + 1 !in s.linking
    ensures Leads(s, [BeginDequeue] + ([ConsumerMoves] + [ConsumerMoves]), [Got(s.values[s.taken])], t)
    ensures Inv(t) && t.taken == s.taken + 1 && t.values == s.values && t.consumer.Gone?
    ensures t.producers == s.producers && t.linking == s.linking
  {
    var s1 := Apply(s, BeginDequeue).0;
    ActionInv(s, BeginDequeue);
    var s2 := LookFinds(s1);
    t := TakesOldest(s2);
    assert Leads(t, [], [], t);
    LeadsFirst(s2, ConsumerMoves, [], [], t);
    assert [ConsumerMoves] + [] == [ConsumerMoves] && [Got(s.values[s.taken])] + [] == [Got(s.values[s.taken])];
    LeadsFirst(s1, ConsumerMoves, [ConsumerMoves], [Got(s.values[s.taken])], t);
    LeadsFirst(s, BeginDequeue, [ConsumerMoves] + [ConsumerMoves], [Got(s.values[s.taken])], t);
  }

  lemma LookFinds(s: State) returns (t: State)
    requires Inv(s) && s.consumer.Looking? && s.taken < |s.values| && s.taken + 1 !in s.linking
    ensures Enabled(s, ConsumerMoves) && ConsumerStep(s) == (t, Silent) && Inv(t) && t.consumer.Found?
    ensures t.taken == s.taken && t.values == s.values && t.producers == s.producers && t.linking == s.linking
  {
    TailNext(s);
    DequeueInv(s);
    assert LinkOk(s, s.taken + 1);
    t := ConsumerStep(s).0;
  }

  lemma TakesOldest(s: State) returns (t: State)
    requires Inv(s) && s.consumer.Found? && s.taken < |s.values|
    ensures Enabled(s, ConsumerMoves) && ConsumerStep(s) == (t, Got(s.values[s.taken])) && Inv(t) && t.consumer.Gone?
    ensures t.taken == s.taken + 1 && t.values == s.values && t.producers == s.producers && t.linking == s.linking
  {
    assert LinkOk(s, s.taken + 1);
    DequeueInv(s);
    t := ConsumerStep(s).0;
  }

  /** With nothing to take it answers NULL after nine looks, and leaves the queue as it was. */
  lemma DequeueOfNothing(s: State)
    requires Inv(s) && s.consumer.Gone? && (s.taken == |s.values| || s.taken + 1 in s.linking)
    ensures Leads(s, [BeginDequeue] + Looks(9), [GotNull], s)
  {
    var s1 := s.(consumer := Looking(0));
    ActionInv(s, BeginDequeue);
    LooksInVain(s1, 0);
    assert s1.(consumer := Gone) == s;
    LeadsFirst(s, BeginDequeue, Looks(9), [GotNull], s);
  }

  lemma {:induction false} LooksInVain(s: State, n: nat)
    requires Inv(s) && s.consumer == Looking(n) && n <= 8 && (s.taken == |s.values| || s.taken + 1 in s.linking)
    ensures Leads(s, Looks(9 - n), [GotNull], s.(consumer := Gone))
    decreases 9 - n
  {
    TailNext(s);
    DequeueInv(s);
    var s' := ConsumerStep(s).0;
    if n == 8 {
      assert Leads(s', [], [], s');
      LeadsFirst(s, ConsumerMoves, [], [], s');
      assert [GotNull] + [] == [GotNull];
    } else {
      LooksInVain(s', n + 1);
      LeadsFirst(s, ConsumerMoves, Looks(8 - n), [GotNull], s.(consumer := Gone));
    }
  }

  // --- Every call ends ---

  function EnqueueLeft(p: Producer): nat {
    match p
    case Away => 0
    case Allocated(_) => 2
    case Exchanged(_, _, _) => 1
  }

  function DequeueLeft(c: Consumer): int {
    match c
    case Gone => 0
    case Looking(backoff) => 10 - backoff
    case Found(_) => 1
  }

  /** An enqueue ends after two more steps, whatever the others do. */
  lemma EnqueueGetsOn(s: State, k: nat)
    requires Enabled(s, ProducerMoves(k))
    ensures var t := ProducerStep(s, k).0;
      k in t.producers && EnqueueLeft(t.producers[k]) == EnqueueLeft(s.producers[k]) - 1
  {
  }

  /** A dequeue ends after ten steps at most. */
  lemma DequeueGetsOn(s: State)
    requires Inv(s) && Enabled(s, ConsumerMoves)
    ensures var t, l := ConsumerStep(s).0, ConsumerStep(s).1;
      0 <= DequeueLeft(t.consumer) < DequeueLeft(s.consumer) <= 10 && (t.consumer.Gone? <==> l == GotNull || l.Got?)
  {
  }
}
