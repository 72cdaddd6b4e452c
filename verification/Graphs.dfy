/** Reachability in a finite directed graph, shared by the memory-management models.
    A graph lists, for every node `u < |g|`, the set of its successors. */
module Graphs {

  type Graph = seq<set<nat>>

  ghost predicate WellFormed(g: Graph) {
    forall u, v | 0 <= u < |g| && v in g[u] :: v < |g|
  }

  ghost predicate Path(g: Graph, p: seq<nat>) {
    && |p| > 0
    && (forall i | 0 <= i < |p| :: p[i] < |g|)
    && (forall i | 0 < i < |p| :: p[i] in g[p[i - 1]])
  }

  ghost predicate Connects(g: Graph, sources: set<nat>, p: seq<nat>, n: nat) {
    Path(g, p) && p[0] in sources && p[|p| - 1] == n
  }

  /** The nodes that some path reaches from `sources`. */
  ghost function Reach(g: Graph, sources: set<nat>): set<nat> {
    set n: nat | n < |g| && Reached(g, sources, n)
  }

  ghost predicate Reached(g: Graph, sources: set<nat>, n: nat) {
    exists p :: Connects(g, sources, p, n)
  }

  ghost predicate Closed(g: Graph, nodes: set<nat>) {
    forall u | u in nodes && u < |g| :: g[u] <= nodes
  }

  lemma ReachContainsSources(g: Graph, sources: set<nat>)
    ensures forall n | n in sources && n < |g| :: n in Reach(g, sources)
  {
    forall n | n in sources && n < |g| ensures n in Reach(g, sources) {
      assert Connects(g, sources, [n], n);
      assert Reached(g, sources, n);
    }
  }

  lemma ReachIsClosed(g: Graph, sources: set<nat>)
    requires WellFormed(g)
    ensures Closed(g, Reach(g, sources))
  {
    forall u, v | u in Reach(g, sources) && v in g[u] ensures v in Reach(g, sources) {
      var p :| Connects(g, sources, p, u);
      assert Connects(g, sources, p + [v], v);
      assert Reached(g, sources, v);
    }
  }

  /** Every closed set that holds the sources holds all that is reachable. */
  lemma ReachIsLeast(g: Graph, sources: set<nat>, nodes: set<nat>)
    requires Closed(g, nodes)
    requires forall n | n in sources && n < |g| :: n in nodes
    ensures Reach(g, sources) <= nodes
  {
    forall n | n in Reach(g, sources) ensures n in nodes {
      var p :| Connects(g, sources, p, n);
      PathStaysInside(g, nodes, p);
    }
  }

  lemma {:induction false} PathStaysInside(g: Graph, nodes: set<nat>, p: seq<nat>)
    requires Path(g, p) && Closed(g, nodes) && p[0] in nodes
    ensures p[|p| - 1] in nodes
  {
    if |p| > 1 {
      var q := p[..|p| - 1];
      PathStaysInside(g, nodes, q);
      assert p[|p| - 1] in g[q[|q| - 1]];
    }
  }

  lemma ReachMonotone(g: Graph, a: set<nat>, b: set<nat>)
    requires a <= b
    ensures Reach(g, a) <= Reach(g, b)
  {
    forall n | n in Reach(g, a) ensures n in Reach(g, b) {
      var p :| Connects(g, a, p, n);
      assert Connects(g, b, p, n);
      assert Reached(g, b, n);
    }
  }

  /** A closed set between some sources and what fewer of them reach is what they all reach. */
  lemma ReachPinned(g: Graph, few: set<nat>, many: set<nat>, nodes: set<nat>)
    requires few <= many && Closed(g, nodes) && nodes <= Reach(g, few)
    requires forall n | n in many && n < |g| :: n in nodes
    ensures nodes == Reach(g, few) == Reach(g, many)
  {
    ReachMonotone(g, few, many);
    ReachIsLeast(g, many, nodes);
  }

  lemma PathReaches(g: Graph, p: seq<nat>, i: nat)
    requires Path(g, p) && i < |p|
    ensures p[i] in Reach(g, {p[0]})
  {
    assert Connects(g, {p[0]}, p[..i + 1], p[i]);
    assert Reached(g, {p[0]}, p[i]);
  }

  lemma PathPrepend(g: Graph, u: nat, p: seq<nat>)
    requires Path(g, p) && u < |g| && p[0] in g[u]
    ensures Path(g, [u] + p)
  {
    var q := [u] + p;
    forall i | 0 < i < |q| ensures q[i] in g[q[i - 1]] { assert i > 1 ==> p[i - 1] in g[p[(i - 1) - 1]]; }
  }
}
