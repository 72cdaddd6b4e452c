/** The accessibility view of a scene tree: the nodes worth announcing, with everything between them
    contracted away. */
module AccessTree {
  import opened Wrappers

  datatype Node = Node(id: nat, visible: bool, hidden: bool, hasRole: bool, interactive: bool, hasText: bool, children: seq<Node>)

  /** Identifies the one element there is without a tree. */
  const FALLBACK_ROOT_ID := 0

  /** A node of the virtual forest. */
  datatype Virtual = Virtual(id: nat, children: seq<Virtual>)

  /** `node_is_surfaced`. */
  predicate Surfaced(n: Node) {
    n.visible && !n.hidden && (n.hasRole || n.interactive || n.hasText)
  }

  /** The contraction: invisible subtrees dropped, other unsurfaced nodes replaced by what is below them. */
  function Contract(nodes: seq<Node>): seq<Virtual> {
    if nodes == [] then []
    else
      var n := nodes[0];
      var below := Contract(n.children);
      (if !n.visible then [] else if Surfaced(n) then [Virtual(n.id, below)] else below) + Contract(nodes[1..])
  }

  function Preorder(forest: seq<Virtual>): seq<nat> {
    if forest == [] then []
    else [forest[0].id] + Preorder(forest[0].children) + Preorder(forest[1..])
  }

  function RootIds(forest: seq<Virtual>): seq<nat> {
    if forest == [] then [] else [forest[0].id] + RootIds(forest[1..])
  }

  lemma {:induction false} PreorderAppend(a: seq<Virtual>, b: seq<Virtual>)
    ensures Preorder(a + b) == Preorder(a) + Preorder(b)
    decreases |a|
  {
    if a == [] {
      assert a + b == b;
    } else {
      var head := [a[0].id] + Preorder(a[0].children);
      assert (a + b)[1..] == a[1..] + b;
      PreorderAppend(a[1..], b);
      assert Preorder(a + b) == head + (Preorder(a[1..]) + Preorder(b));
    }
  }

  lemma {:induction false} RootIdsAppend(a: seq<Virtual>, b: seq<Virtual>)
    ensures RootIds(a + b) == RootIds(a) + RootIds(b)
    decreases |a|
  {
    if a == [] {
      assert a + b == b;
    } else {
      assert (a + b)[1..] == a[1..] + b;
      RootIdsAppend(a[1..], b);
    }
  }

  lemma PreorderOne(v: Virtual)
    ensures Preorder([v]) == [v.id] + Preorder(v.children) && RootIds([v]) == [v.id]
  {
    assert [v][1..] == [];
  }

  // --- The walk over surfaced nodes ---

  /** What the walk meets, in order. */
  function Walk(nodes: seq<Node>): seq<nat> {
    if nodes == [] then [] else WalkNode(nodes[0]) + Walk(nodes[1..])
  }

  function WalkNode(n: Node): seq<nat> {
    if !n.visible then [] else (if Surfaced(n) then [n.id] else []) + Walk(n.children)
  }

  /** The walk is the preorder of the contraction. */
  lemma {:induction false} WalkIsPreorder(nodes: seq<Node>)
    ensures Walk(nodes) == Preorder(Contract(nodes))
  {
    if nodes != [] {
      var n := nodes[0];
      var below := Contract(n.children);
      WalkIsPreorder(n.children);
      WalkIsPreorder(nodes[1..]);
      PreorderAppend(if !n.visible then [] else if Surfaced(n) then [Virtual(n.id, below)] else below, Contract(nodes[1..]));
      PreorderOne(Virtual(n.id, below));
    }
  }

  /** What a counter makes of `ids`: stop at the one wanted, or count them all. */
  function Scanned(want: int, seen: nat, ids: seq<nat>): (nat, int) {
    if seen <= want < seen + |ids| then (want, ids[want - seen]) else (seen + |ids|, -1)
  }

  lemma ScanAppend(want: int, seen: nat, a: seq<nat>, b: seq<nat>)
    ensures Scanned(want, seen, a + b) ==
      if Scanned(want, seen, a).1 == -1 then Scanned(want, seen + |a|, b) else Scanned(want, seen, a)
    ensures Scanned(want, seen, a).1 == -1 ==> Scanned(want, seen, a).0 == seen + |a|
  {
  }

  /** The counter of a walk: `want` is the index looked for, negative to count only. */
  class Context {
    const want: int
    var seen: nat
    var found: int

    constructor (want: int)
      ensures this.want == want && seen == 0 && found == -1
    {
      this.want, seen, found := want, 0, -1;
    }

    /** `visit_surfaced` with the index callback: true to stop. */
    method Visit(n: Node) returns (stop: bool)
      requires found == -1
      modifies this
      ensures (seen, found) == Scanned(want, old(seen), WalkNode(n)) && (stop <==> found != -1)
      decreases n
    {
      if !n.visible { return false; }
      ghost var first := if Surfaced(n) then [n.id] else [];
      ScanAppend(want, seen, first, Walk(n.children));
      if Surfaced(n) {
        if seen == want {
          found := n.id;
          return true;
        }
        seen := seen + 1;
      }
      assert n.children[0..] == n.children;
      for i := 0 to |n.children|
        invariant found == -1
        invariant Scanned(want, old(seen), WalkNode(n)) == Scanned(want, seen, Walk(n.children[i..]))
      {
        assert n.children[i..][1..] == n.children[i + 1..];
        ScanAppend(want, seen, WalkNode(n.children[i]), Walk(n.children[i + 1..]));
        stop := Visit(n.children[i]);
        if stop { return; }
      }
      stop := false;
    }

    /** `collect_children`. */
    method Collect(nodes: seq<Node>)
      requires found == -1
      modifies this
      ensures (seen, found) == Scanned(want, old(seen), ChildIds(nodes))
      decreases nodes
    {
      assert nodes[0..] == nodes;
      for i := 0 to |nodes|
        invariant found == -1
        invariant Scanned(want, old(seen), ChildIds(nodes)) == Scanned(want, seen, ChildIds(nodes[i..]))
      {
        var c := nodes[i];
        assert nodes[i..][1..] == nodes[i + 1..];
        ScanAppend(want, seen, ChildIdsOf(c), ChildIds(nodes[i + 1..]));
        if c.visible {
          if Surfaced(c) {
            if seen == want {
              found := c.id;
              return;
            }
            seen := seen + 1;
          } else {
            Collect(c.children);
            if found >= 0 { return; }
          }
        }
      }
    }
  }

  /** `cpx_a11y_node_count`. */
  method NodeCount(root: Option<Node>) returns (n: nat)
    ensures n == if root.None? then 1 else |Preorder(Contract([root.value]))|
  {
    if root.None? { return 1; }
    WalkOne(root.value);
    var ctx := new Context(-1);
    var _ := ctx.Visit(root.value);
    n := ctx.seen;
  }

  /** `cpx_a11y_node_id_at`. */
  method NodeIdAt(root: Option<Node>, index: int) returns (id: int)
    ensures var ids := if root.None? then [0] else Preorder(Contract([root.value]));
      id == if 0 <= index < |ids| then ids[index] else -1
  {
    if root.None? { return if index == 0 then FALLBACK_ROOT_ID else -1; }
    WalkOne(root.value);
    if index < 0 { return -1; }
    var ctx := new Context(index);
    var _ := ctx.Visit(root.value);
    id := ctx.found;
  }

  lemma WalkOne(root: Node)
    ensures WalkNode(root) == Preorder(Contract([root]))
  {
    assert [root][1..] == [];
    WalkIsPreorder([root]);
  }

  // --- The nearest surfaced nodes below ---

  /** The surfaced nodes nearest below. */
  function ChildIds(nodes: seq<Node>): seq<nat> {
    if nodes == [] then [] else ChildIdsOf(nodes[0]) + ChildIds(nodes[1..])
  }

  function ChildIdsOf(c: Node): seq<nat> {
    if !c.visible then [] else if Surfaced(c) then [c.id] else ChildIds(c.children)
  }

  /** The children reported are the children in the contraction, in order. */
  lemma {:induction false} ChildrenAreVirtualChildren(nodes: seq<Node>)
    ensures ChildIds(nodes) == RootIds(Contract(nodes))
  {
    if nodes != [] {
      var n := nodes[0];
      var below := Contract(n.children);
      ChildrenAreVirtualChildren(n.children);
      ChildrenAreVirtualChildren(nodes[1..]);
      RootIdsAppend(if !n.visible then [] else if Surfaced(n) then [Virtual(n.id, below)] else below, Contract(nodes[1..]));
      PreorderOne(Virtual(n.id, below));
    }
  }

  // --- Ways down the tree ---

  /** The child to take at each level, from the list of topmost nodes on. */
  predicate OnTree(nodes: seq<Node>, path: seq<nat>)
    decreases |path|
  {
    path != [] && path[0] < |nodes| && (|path| > 1 ==> OnTree(nodes[path[0]].children, path[1..]))
  }

  /** The `k`-th node on the way. */
  function Level(nodes: seq<Node>, path: seq<nat>, k: nat): Node
    requires OnTree(nodes, path) && 0 < k <= |path|
    decreases |path|
  {
    if k == 1 then nodes[path[0]] else Level(nodes[path[0]].children, path[1..], k - 1)
  }

  function NodeAt(nodes: seq<Node>, path: seq<nat>): Node
    requires OnTree(nodes, path)
  {
    Level(nodes, path, |path|)
  }

  /** The list the way goes on in after `j` levels. */
  function ListAt(nodes: seq<Node>, path: seq<nat>, j: nat): seq<Node>
    requires OnTree(nodes, path) && j < |path|
  {
    if j == 0 then nodes else Level(nodes, path, j).children
  }

  lemma {:induction false} RestOfWay(nodes: seq<Node>, path: seq<nat>, j: nat, k: nat)
    requires OnTree(nodes, path) && j < k <= |path|
    ensures OnTree(ListAt(nodes, path, j), path[j..])
    ensures Level(ListAt(nodes, path, j), path[j..], k - j) == Level(nodes, path, k)
    decreases j
  {
    if j == 0 {
      assert path[0..] == path;
    } else {
      RestOfWay(nodes[path[0]].children, path[1..], j - 1, k - 1);
      assert path[1..][j - 1..] == path[j..];
    }
  }

  lemma {:induction false} JoinedWay(nodes: seq<Node>, path: seq<nat>, j: nat, q: seq<nat>)
    requires OnTree(nodes, path) && j < |path| && OnTree(ListAt(nodes, path, j), q)
    ensures OnTree(nodes, path[..j] + q) && NodeAt(nodes, path[..j] + q) == NodeAt(ListAt(nodes, path, j), q)
    decreases j
  {
    var w := path[..j] + q;
    if j == 0 {
      assert w == q;
    } else {
      JoinedWay(nodes[path[0]].children, path[1..], j - 1, q);
      assert w[1..] == path[1..][..j - 1] + q;
    }
  }

  ghost predicate UniqueIds(nodes: seq<Node>) {
    forall p, q | OnTree(nodes, p) && OnTree(nodes, q) && NodeAt(nodes, p).id == NodeAt(nodes, q).id :: p == q
  }

  // --- Which nodes are announced ---

  /** The node on this way is visible with all above it, is not hidden, and has a role, takes input, or has text. */
  ghost predicate Announced(nodes: seq<Node>, path: seq<nat>) {
    && OnTree(nodes, path) && (forall k | 0 < k <= |path| :: Level(nodes, path, k).visible)
    && var n := NodeAt(nodes, path);
       !n.hidden && (n.hasRole || n.interactive || n.hasText)
  }

  lemma AnnouncedStep(nodes: seq<Node>, path: seq<nat>)
    requires OnTree(nodes, path) && |path| > 1
    ensures Announced(nodes, path) <==> nodes[path[0]].visible && Announced(nodes[path[0]].children, path[1..])
  {
    var below, rest := nodes[path[0]].children, path[1..];
    assert Level(nodes, path, 1) == nodes[path[0]];
    forall k: nat | 1 < k <= |path| ensures Level(nodes, path, k) == Level(below, rest, k - 1) {}
    forall k: nat | 0 < k <= |rest| ensures Level(below, rest, k) == Level(nodes, path, k + 1) {}
  }

  lemma {:induction false} AnnouncedIsMet(nodes: seq<Node>, path: seq<nat>)
    requires Announced(nodes, path)
    ensures NodeAt(nodes, path).id in Walk(nodes)
    decreases |path|
  {
    var n := nodes[path[0]];
    assert Level(nodes, path, 1) == n;
    if |path| > 1 {
      AnnouncedStep(nodes, path);
      AnnouncedIsMet(n.children, path[1..]);
    }
    InWalk(nodes, path[0], NodeAt(nodes, path).id);
  }

  lemma {:induction false} InWalk(nodes: seq<Node>, i: nat, id: nat)
    requires i < |nodes| && id in WalkNode(nodes[i])
    ensures id in Walk(nodes)
    decreases i
  {
    if i > 0 { InWalk(nodes[1..], i - 1, id); }
  }

  lemma {:induction false} MetIsAnnounced(nodes: seq<Node>, id: nat) returns (path: seq<nat>)
    requires id in Walk(nodes)
    ensures Announced(nodes, path) && NodeAt(nodes, path).id == id
    decreases nodes
  {
    var n := nodes[0];
    if id in WalkNode(n) {
      if Surfaced(n) && n.id == id {
        path := [0];
      } else {
        var rest := MetIsAnnounced(n.children, id);
        path := [0] + rest;
        assert path[1..] == rest;
        AnnouncedStep(nodes, path);
      }
    } else {
      var p := MetIsAnnounced(nodes[1..], id);
      path := [p[0] + 1] + p[1..];
      assert path[1..] == p[1..] && nodes[path[0]] == nodes[1..][p[0]];
      forall k: nat | 0 < k <= |path| ensures Level(nodes, path, k) == Level(nodes[1..], p, k) {}
    }
  }

  /** The elements reported are the announced nodes, and no others. */
  lemma AnnouncedIff(nodes: seq<Node>, id: nat)
    ensures id in Preorder(Contract(nodes)) <==> exists path :: Announced(nodes, path) && NodeAt(nodes, path).id == id
  {
    WalkIsPreorder(nodes);
    if id in Walk(nodes) { var _ := MetIsAnnounced(nodes, id); }
    forall path | Announced(nodes, path) && NodeAt(nodes, path).id == id ensures id in Walk(nodes) { AnnouncedIsMet(nodes, path); }
  }

  /** A node alone is counted exactly if it is visible, not hidden, and has a role, takes input, or has text. */
  lemma LoneNode(n: Node)
    requires n.children == []
    ensures Preorder(Contract([n])) == if n.visible && !n.hidden && (n.hasRole || n.interactive || n.hasText) then [n.id] else []
  {
    WalkOne(n);
    assert Walk(n.children) == [];
  }

  /** A parent comes before its children and the first child before the second; a child passed over for being hidden
      stands for its own children. */
  lemma InOrder(root: Node, first: Node, second: Node, below: Node)
    requires Surfaced(root) && root.children == [first, second] && Surfaced(first) && first.children == []
    requires second.visible && second.hidden && second.children == [below] && Surfaced(below) && below.children == []
    ensures Preorder(Contract([root])) == [root.id, first.id, below.id]
    ensures ChildIds(root.children) == [first.id, below.id]
  {
    WalkOne(root);
    assert [below][1..] == [second][1..] == [] && [first, second][1..] == [second];
    assert Walk([below]) == [below.id] && Walk([second]) == [below.id];
    assert Walk([first, second]) == [first.id] + [below.id];
    assert ChildIds([below]) == [below.id] && ChildIds([second]) == [below.id];
  }

  // --- Finding a node ---

  /** The way down from `n` to the first node with that id, in preorder. */
  function FindNode(n: Node, id: int): Option<seq<nat>>
    decreases n, 0
  {
    if n.id == id then Some([]) else FindList(n.children, 0, id)
  }

  function FindList(nodes: seq<Node>, i: nat, id: int): Option<seq<nat>>
    requires i <= |nodes|
    decreases nodes, |nodes| - i
  {
    if i == |nodes| then None
    else
      var hit := FindNode(nodes[i], id);
      if hit.Some? then Some([i as nat] + hit.value) else FindList(nodes, i + 1, id)
  }

  /** A node is found exactly if one in the list has the id, and the one found has it. */
  lemma {:induction false} FoundIff(nodes: seq<Node>, i: nat, id: int)
    requires i <= |nodes|
    ensures var hit := FindList(nodes, i, id);
      hit.Some? ==> OnTree(nodes, hit.value) && NodeAt(nodes, hit.value).id == id
    ensures forall p | OnTree(nodes, p) && p[0] >= i && NodeAt(nodes, p).id == id :: FindList(nodes, i, id).Some?
    decreases nodes, |nodes| - i
  {
    if i < |nodes| {
      var n := nodes[i];
      FoundIff(n.children, 0, id);
      FoundIff(nodes, i + 1, id);
      var hit := FindNode(n, id);
      if hit.Some? {
        var p := [i as nat] + hit.value;
        assert p[1..] == hit.value;
        assert n.id != id ==> NodeAt(nodes, p) == NodeAt(n.children, hit.value);
      }
      forall p | OnTree(nodes, p) && p[0] == i && NodeAt(nodes, p).id == id ensures hit.Some? {
        if |p| > 1 { assert NodeAt(nodes, p) == NodeAt(n.children, p[1..]); }
      }
    }
  }

  /** With unique ids it is the node looked for. */
  lemma FoundAt(root: Node, path: seq<nat>)
    requires OnTree([root], path) && UniqueIds([root])
    ensures FindNode(root, NodeAt([root], path).id) == Some(path[1..])
  {
    var id := NodeAt([root], path).id;
    FoundIff([root], 0, id);
    var hit := FindList([root], 0, id);
    assert FindList([root], 1, id) == None;
    assert hit.value == path;
  }

  /** `find_by_id`, answering with the way to the node. */
  method FindById(n: Node, id: int) returns (way: Option<seq<nat>>)
    ensures way == FindNode(n, id)
    decreases n
  {
    if n.id == id { return Some([]); }
    for i := 0 to |n.children|
      invariant FindList(n.children, 0, id) == FindList(n.children, i, id)
    {
      var hit := FindById(n.children[i], id);
      if hit.Some? { return Some([i as nat] + hit.value); }
    }
    way := None;
  }

  /** The node with an id in the registered tree. */
  function Lookup(root: Option<Node>, id: int): Option<Node> {
    if root.None? || FindNode(root.value, id).None? then None
    else
      var path := [0] + FindNode(root.value, id).value;
      FoundOnTree(root.value, id);
      Some(NodeAt([root.value], path))
  }

  lemma FoundOnTree(root: Node, id: int)
    requires FindNode(root, id).Some?
    ensures OnTree([root], [0] + FindNode(root, id).value) && NodeAt([root], [0] + FindNode(root, id).value).id == id
  {
    FoundIff([root], 0, id);
    assert FindList([root], 0, id).value == [0] + FindNode(root, id).value;
  }

  // --- Parents and children ---

  /** `cpx_a11y_node_child_count`. */
  method ChildCount(root: Option<Node>, id: int) returns (count: nat)
    ensures var n := Lookup(root, id);
      count == if n.Some? && Surfaced(n.value) then |RootIds(Contract(n.value.children))| else 0
  {
    if root.None? { return 0; }
    var way := FindById(root.value, id);
    if way.None? { return 0; }
    FoundOnTree(root.value, id);
    var n := NodeAt([root.value], [0] + way.value);
    if !Surfaced(n) { return 0; }
    ChildrenAreVirtualChildren(n.children);
    var ctx := new Context(-1);
    ctx.Collect(n.children);
    count := ctx.seen;
  }

  /** `cpx_a11y_node_child_at`. */
  method ChildAt(root: Option<Node>, id: int, index: int) returns (child: int)
    ensures var n := Lookup(root, id);
      var ids := if n.Some? && Surfaced(n.value) then RootIds(Contract(n.value.children)) else [];
      child == if 0 <= index < |ids| then ids[index] else -1
  {
    if root.None? || index < 0 { return -1; }
    var way := FindById(root.value, id);
    if way.None? { return -1; }
    FoundOnTree(root.value, id);
    var n := NodeAt([root.value], [0] + way.value);
    if !Surfaced(n) { return -1; }
    ChildrenAreVirtualChildren(n.children);
    var ctx := new Context(index);
    ctx.Collect(n.children);
    child := ctx.found;
  }

  /** The nearest surfaced node above the end of the way stands at level `j`, or nowhere if that is 0. */
  ghost predicate Nearest(nodes: seq<Node>, path: seq<nat>, j: nat)
    requires OnTree(nodes, path)
  {
    j < |path| && (j > 0 ==> Surfaced(Level(nodes, path, j)))
    && forall k: nat | j < k < |path| :: !Surfaced(Level(nodes, path, k))
  }

  /** `surfaced_ancestor`, from the end of the way upwards. */
  method SurfacedAncestor(nodes: seq<Node>, path: seq<nat>) returns (j: nat)
    requires OnTree(nodes, path)
    ensures Nearest(nodes, path, j)
  {
    j := |path| - 1;
    while j > 0 && !Surfaced(Level(nodes, path, j))
      invariant j < |path| && forall k: nat | j < k < |path| :: !Surfaced(Level(nodes, path, k))
    {
      j := j - 1;
    }
  }

  /** `cpx_a11y_node_parent`. */
  method NodeParent(root: Option<Node>, id: int) returns (parent: int)
    ensures Lookup(root, id).None? ==> parent == -1
    ensures Lookup(root, id).Some? ==>
              var path := [0] + FindNode(root.value, id).value;
              OnTree([root.value], path)
              && exists j :: Nearest([root.value], path, j)
                             && parent == if j == 0 then -1 else Level([root.value], path, j).id
  {
    if root.None? { return -1; }
    var way := FindById(root.value, id);
    if way.None? { return -1; }
    FoundOnTree(root.value, id);
    var path := [0] + way.value;
    var j := SurfacedAncestor([root.value], path);
    parent := if j == 0 then -1 else Level([root.value], path, j).id;
  }

  /** A way to a surfaced node on which all before it is visible but not surfaced. */
  ghost predicate Direct(nodes: seq<Node>, path: seq<nat>)
    requires OnTree(nodes, path)
  {
    && Surfaced(NodeAt(nodes, path))
    && forall k: nat | 0 < k < |path| :: Level(nodes, path, k).visible && !Surfaced(Level(nodes, path, k))
  }

  lemma DirectStep(nodes: seq<Node>, path: seq<nat>)
    requires OnTree(nodes, path) && |path| > 1
    ensures Direct(nodes, path) <==>
      nodes[path[0]].visible && !Surfaced(nodes[path[0]]) && Direct(nodes[path[0]].children, path[1..])
  {
    var below, rest := nodes[path[0]].children, path[1..];
    assert Level(nodes, path, 1) == nodes[path[0]];
    forall k: nat | 1 < k <= |path| ensures Level(nodes, path, k) == Level(below, rest, k - 1) {}
    forall k: nat | 0 < k < |rest| ensures Level(below, rest, k) == Level(nodes, path, k + 1) {}
  }

  lemma {:induction false} DirectIsChild(nodes: seq<Node>, path: seq<nat>)
    requires OnTree(nodes, path) && Direct(nodes, path)
    ensures NodeAt(nodes, path).id in ChildIds(nodes)
    decreases |path|
  {
    var n := nodes[path[0]];
    if |path| > 1 {
      DirectStep(nodes, path);
      DirectIsChild(n.children, path[1..]);
    }
    assert NodeAt(nodes, path).id in ChildIdsOf(n);
    InChildIds(nodes, path[0], NodeAt(nodes, path).id);
  }

  lemma {:induction false} InChildIds(nodes: seq<Node>, i: nat, id: nat)
    requires i < |nodes| && id in ChildIdsOf(nodes[i])
    ensures id in ChildIds(nodes)
    decreases i
  {
    if i > 0 { InChildIds(nodes[1..], i - 1, id); }
  }

  lemma {:induction false} ChildIsDirect(nodes: seq<Node>, id: nat) returns (path: seq<nat>)
    requires id in ChildIds(nodes)
    ensures OnTree(nodes, path) && Direct(nodes, path) && NodeAt(nodes, path).id == id
    decreases nodes
  {
    var n := nodes[0];
    if id in ChildIdsOf(n) {
      if Surfaced(n) {
        path := [0];
      } else {
        var rest := ChildIsDirect(n.children, id);
        path := [0] + rest;
        assert path[1..] == rest;
        DirectStep(nodes, path);
      }
    } else {
      var p := ChildIsDirect(nodes[1..], id);
      path := [p[0] + 1] + p[1..];
      Shifted(nodes, p, path);
    }
  }

  lemma Shifted(nodes: seq<Node>, p: seq<nat>, path: seq<nat>)
    requires nodes != [] && OnTree(nodes[1..], p) && Direct(nodes[1..], p) && path == [p[0] + 1] + p[1..]
    ensures OnTree(nodes, path) && Direct(nodes, path) && NodeAt(nodes, path) == NodeAt(nodes[1..], p)
  {
    assert path[1..] == p[1..] && nodes[path[0]] == nodes[1..][p[0]];
    forall k: nat | 0 < k <= |path| ensures Level(nodes, path, k) == Level(nodes[1..], p, k) {}
  }

  lemma LevelBelow(nodes: seq<Node>, path: seq<nat>, j: nat, k: nat)
    requires OnTree(nodes, path) && 0 < k && j + k <= |path|
    ensures OnTree(ListAt(nodes, path, j), path[j..])
    ensures Level(ListAt(nodes, path, j), path[j..], k) == Level(nodes, path, j + k)
  {
    RestOfWay(nodes, path, j, j + k);
  }

  /** All nodes strictly between level `j` and the end of the way are visible. */
  ghost predicate VisibleBetween(nodes: seq<Node>, path: seq<nat>, j: nat)
    requires OnTree(nodes, path)
  {
    forall k: nat | j < k < |path| :: Level(nodes, path, k).visible
  }

  /** The way on from the nearest surfaced ancestor is direct exactly if what lies between is visible. */
  lemma DirectIff(nodes: seq<Node>, path: seq<nat>, j: nat)
    requires OnTree(nodes, path) && Surfaced(NodeAt(nodes, path)) && Nearest(nodes, path, j)
    ensures OnTree(ListAt(nodes, path, j), path[j..])
    ensures Direct(ListAt(nodes, path, j), path[j..]) <==> VisibleBetween(nodes, path, j)
  {
    LevelBelow(nodes, path, j, |path| - j);
    var below, rest := ListAt(nodes, path, j), path[j..];
    assert NodeAt(below, rest) == NodeAt(nodes, path);
    if Direct(below, rest) {
      forall k: nat | j < k < |path| ensures Level(nodes, path, k).visible {
        LevelBelow(nodes, path, j, k - j);
        assert Level(below, rest, k - j).visible;
      }
    }
    if VisibleBetween(nodes, path, j) {
      forall k: nat | 0 < k < |rest| ensures Level(below, rest, k).visible && !Surfaced(Level(below, rest, k)) {
        LevelBelow(nodes, path, j, k);
        assert !Surfaced(Level(nodes, path, j + k));
      }
    }
  }

  lemma OneWay(nodes: seq<Node>, path: seq<nat>, j: nat, q: seq<nat>)
    requires UniqueIds(nodes) && OnTree(nodes, path) && j < |path| && OnTree(ListAt(nodes, path, j), q)
    requires NodeAt(ListAt(nodes, path, j), q).id == NodeAt(nodes, path).id
    ensures q == path[j..]
  {
    JoinedWay(nodes, path, j, q);
    assert (path[..j] + q)[j..] == q;
  }

  /** Parent and children agree on a surfaced node exactly if every node strictly between it and its
      nearest surfaced ancestor is visible; with no such ancestor the topmost list takes its place. */
  lemma ChildOfItsParent(nodes: seq<Node>, path: seq<nat>, j: nat)
    requires UniqueIds(nodes) && OnTree(nodes, path) && Surfaced(NodeAt(nodes, path)) && Nearest(nodes, path, j)
    ensures NodeAt(nodes, path).id in ChildIds(ListAt(nodes, path, j))
      <==> VisibleBetween(nodes, path, j)
  {
    DirectIff(nodes, path, j);
    LevelBelow(nodes, path, j, |path| - j);
    var below, rest, id := ListAt(nodes, path, j), path[j..], NodeAt(nodes, path).id;
    if id in ChildIds(below) {
      var q := ChildIsDirect(below, id);
      OneWay(nodes, path, j, q);
    }
    if Direct(below, rest) { DirectIsChild(below, rest); }
  }

  lemma {:induction false} PartOfWay(nodes: seq<Node>, path: seq<nat>, j: nat)
    requires OnTree(nodes, path) && 0 < j <= |path|
    ensures OnTree(nodes, path[..j]) && NodeAt(nodes, path[..j]) == Level(nodes, path, j)
    decreases j
  {
    if j > 1 {
      PartOfWay(nodes[path[0]].children, path[1..], j - 1);
      assert path[..j][1..] == path[1..][..j - 1];
    }
  }

  /** So, asked for the children of the parent that a surfaced node names, the bridge lists the node
      exactly if what lies between is visible. */
  lemma ParentListsChild(root: Node, path: seq<nat>, j: nat)
    requires UniqueIds([root]) && OnTree([root], path) && Surfaced(NodeAt([root], path))
    requires Nearest([root], path, j) && j > 0
    ensures var parent := Level([root], path, j);
      Lookup(Some(root), parent.id) == Some(parent)
      && (NodeAt([root], path).id in RootIds(Contract(parent.children)) <==> VisibleBetween([root], path, j))
  {
    PartOfWay([root], path, j);
    FoundAt(root, path[..j]);
    assert path[..j][0] == 0 && [0] + path[..j][1..] == path[..j];
    ChildOfItsParent([root], path, j);
    ChildrenAreVirtualChildren(Level([root], path, j).children);
  }

  /** Below an invisible node the two disagree: a node there can still be asked for its parent, but is no
      child of it. */
  lemma NotInView(root: Node, gap: Node, leaf: Node)
    requires Surfaced(root) && root.children == [gap] && !gap.visible && gap.children == [leaf] && Surfaced(leaf)
    requires leaf.id != root.id
    ensures OnTree([root], [0, 0, 0]) && NodeAt([root], [0, 0, 0]) == leaf
    ensures Nearest([root], [0, 0, 0], 1) && ListAt([root], [0, 0, 0], 1) == root.children
    ensures leaf.id !in ChildIds(root.children) && leaf.id !in Walk([root])
  {
    assert [0, 0, 0][1..] == [0, 0] && [0, 0][1..] == [0];
    assert Level([root], [0, 0, 0], 2) == gap;
    assert [gap][1..] == [] && [root][1..] == [];
    assert ChildIds(root.children) == [];
    assert Walk(root.children) == WalkNode(gap) + Walk([]);
    assert Walk([root]) == WalkNode(root) + Walk([]);
  }
}
