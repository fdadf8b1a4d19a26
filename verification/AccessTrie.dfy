/** The trie of accessed paths: nodes and states are objects updated in place. */
module AccessTrie {
  import opened Paths
  import opened HazardSpec

  class AccessState {
    ghost const at: Path  // the path this state belongs to
    var lastWriter: Option<Name>
    var readersSinceWrite: set<Name>

    constructor (ghost path: Path)
      ensures at == path && lastWriter == None && readersSinceWrite == {}
    {
      at := path;
      lastWriter, readersSinceWrite := None, {};
    }
  }

  /** The nodes of one trie, by the path that leads to them from the root. */
  type Nodes = map<Path, AccessTree>

  /** The path one component below. */
  function Step(p: Path, c: Component): Path {
    p + [c]
  }

  lemma PrefixStep(p: Path, i: nat)
    requires i < |p|
    ensures p[..i + 1] == Step(p[..i], p[i])
  {
  }

  /** A child sits one component below its node. */
  ghost predicate ChildrenIndexed(nodes: Nodes)
    reads nodes.Values`children
  {
    forall p, c :: p in nodes && c in nodes[p].children ==> Step(p, c) in nodes && nodes[Step(p, c)] == nodes[p].children[c]
  }

  /** Every node but the root is a child of the node above it. */
  ghost predicate ParentsIndexed(nodes: Nodes)
    reads nodes.Values`children
  {
    forall p, c :: Step(p, c) in nodes ==> p in nodes && c in nodes[p].children
  }

  /** Nodes and states know the path they stand for, so none is shared. */
  ghost predicate PathsIndexed(nodes: Nodes)
    reads nodes.Values`state
  {
    forall p :: p in nodes ==> nodes[p].at == p && (nodes[p].state != null ==> nodes[p].state.at == p)
  }

  /** The objects below `root` form exactly the tree that `nodes` describes, without sharing. */
  ghost predicate Indexed(root: AccessTree, nodes: Nodes)
    reads nodes.Values
  {
    && [] in nodes && nodes[[]] == root
    && PathsIndexed(nodes)
    && ChildrenIndexed(nodes)
    && ParentsIndexed(nodes)
  }

  lemma {:induction false} PrefixIndexed(nodes: Nodes, p: Path, n: nat)
    requires ParentsIndexed(nodes) && p in nodes && n <= |p|
    ensures p[..n] in nodes
    decreases |p|
  {
    if n < |p| {
      var up := p[..|p| - 1];
      assert p == Step(up, p[|p| - 1]);
      PrefixIndexed(nodes, up, n);
      assert up[..n] == p[..n];
    } else {
      assert p[..n] == p;
    }
  }

  /** The child of `node` on the way to `p`. */
  lemma NextComponent(nodes: Nodes, p: Path, node: AccessTree) returns (c: Component)
    requires ParentsIndexed(nodes) && p in nodes && node.at < p && node.at in nodes && nodes[node.at] == node
    ensures c in node.children && node.at + [c] <= p
  {
    c := p[|node.at|];
    assert p[..|node.at|] == node.at;
    PrefixIndexed(nodes, p, |node.at| + 1);
    PrefixStep(p, |node.at|);
  }

  /** The states stored at the given paths: each exactly once and no other. */
  ghost predicate Lists(states: seq<AccessState>, nodes: Nodes, paths: set<Path>)
    requires paths <= nodes.Keys
    reads nodes.Values`state
  {
    && (forall k :: 0 <= k < |states| ==> states[k].at in paths && nodes[states[k].at].state == states[k])
    && (forall k, l :: 0 <= k < l < |states| ==> states[k].at != states[l].at)
    && (forall p :: p in paths && nodes[p].state != null ==> nodes[p].state in states)
  }

  lemma ListsMore(states: seq<AccessState>, more: seq<AccessState>, nodes: Nodes, paths: set<Path>, others: set<Path>)
    requires paths <= nodes.Keys && others <= nodes.Keys && paths !! others
    requires Lists(states, nodes, paths) && Lists(more, nodes, others)
    ensures Lists(states + more, nodes, paths + others)
  {
    forall p | p in paths + others && nodes[p].state != null ensures nodes[p].state in states + more {
      assert p in paths || p in others;
    }
  }

  /** The state of one node, if it has one. */
  function StateAt(node: AccessTree): (states: seq<AccessState>)
    reads node`state
  {
    if node.state == null then [] else [node.state]
  }

  ghost function Above(nodes: Nodes, path: Path, n: nat): set<Path> {
    set p | p in nodes && p <= path && |p| < n
  }

  ghost function AtOrBelow(nodes: Nodes, path: Path): set<Path> {
    set p | p in nodes && path <= p
  }

  ghost function AllOverlapping(nodes: Nodes, path: Path): set<Path> {
    set p | p in nodes && Overlap(p, path)
  }

  /** The values a map has at distinct keys. */
  ghost predicate Values(children: map<Component, AccessTree>, keys: seq<Component>, kids: seq<AccessTree>) {
    && |kids| == |keys|
    && (forall i :: 0 <= i < |keys| ==> keys[i] in children && kids[i] == children[keys[i]])
    && (forall i, j :: 0 <= i < j < |keys| ==> keys[i] != keys[j])
  }

  // The open nodes of the descendant walk.

  ghost predicate Disjoint(open: seq<AccessTree>) {
    forall i, j :: 0 <= i < j < |open| ==> !Overlap(open[i].at, open[j].at)
  }

  ghost predicate Covered(open: seq<AccessTree>, p: Path) {
    exists i :: 0 <= i < |open| && open[i].at <= p
  }

  /** `kids` are the children of the node at `at`. */
  ghost predicate KidsOf(kids: seq<AccessTree>, at: Path) {
    && (forall i :: 0 <= i < |kids| ==> |kids[i].at| == |at| + 1 && at <= kids[i].at)
    && (forall i, j :: 0 <= i < j < |kids| ==> kids[i].at != kids[j].at)
  }

  /** Replacing an open node by its children keeps the open nodes disjoint. */
  lemma OpenKidsDisjoint(rest: seq<AccessTree>, node: AccessTree, kids: seq<AccessTree>)
    requires Disjoint(rest + [node]) && KidsOf(kids, node.at)
    ensures Disjoint(rest + kids)
  {
    var open := rest + kids;
    forall i, j | 0 <= i < j < |open| ensures !Overlap(open[i].at, open[j].at) {
      if j < |rest| {
        assert (rest + [node])[i] == rest[i] && (rest + [node])[j] == rest[j];
      } else if i < |rest| {
        assert (rest + [node])[i] == rest[i] && (rest + [node])[|rest|] == node;
        if rest[i].at <= open[j].at {
          OverlapOfCommonDescendant(rest[i].at, node.at, open[j].at);
        }
      }
    }
  }

  lemma OpenKidsCover(rest: seq<AccessTree>, node: AccessTree, kids: seq<AccessTree>, p: Path)
    requires Covered(rest + [node], p)
    requires node.at < p ==> Covered(kids, p)
    ensures p == node.at || Covered(rest + kids, p)
  {
    var open := rest + kids;
    var i :| 0 <= i < |rest + [node]| && (rest + [node])[i].at <= p;
    if i < |rest| {
      assert open[i].at <= p;
    } else if p != node.at {
      var k :| 0 <= k < |kids| && kids[k].at <= p;
      assert open[|rest| + k].at <= p;
    }
  }

  /** What the new open nodes cover was covered before, and is not the node just visited. */
  lemma OpenKidsBelow(rest: seq<AccessTree>, node: AccessTree, kids: seq<AccessTree>, p: Path)
    requires Disjoint(rest + [node]) && KidsOf(kids, node.at)
    requires Covered(rest + kids, p)
    ensures Covered(rest + [node], p) && p != node.at
  {
    var i :| 0 <= i < |rest + kids| && (rest + kids)[i].at <= p;
    if i < |rest| {
      assert (rest + [node])[i].at <= p;
      assert !Overlap((rest + [node])[i].at, (rest + [node])[|rest|].at);
    } else {
      assert (rest + [node])[|rest|].at <= p;
    }
  }

  /** The descendant walk has visited `done`; what remains at or below `start` lies under the open nodes. */
  ghost predicate Walk(nodes: Nodes, start: Path, open: seq<AccessTree>, done: set<Path>) {
    && (forall i :: 0 <= i < |open| ==> open[i].at in AtOrBelow(nodes, start) && nodes[open[i].at] == open[i])
    && Disjoint(open)
    && done <= AtOrBelow(nodes, start)
    && (forall p :: p in AtOrBelow(nodes, start) && p !in done ==> Covered(open, p))
    && (forall p :: p in done ==> !Covered(open, p))
  }

  lemma WalkStart(nodes: Nodes, node: AccessTree)
    requires node.at in nodes && nodes[node.at] == node
    ensures Walk(nodes, node.at, [node], {})
  {
    forall p | p in AtOrBelow(nodes, node.at) ensures Covered([node], p) {
      assert [node][0].at <= p;
    }
  }

  lemma WalkStep(nodes: Nodes, start: Path, open: seq<AccessTree>, done: set<Path>, kids: seq<AccessTree>)
    requires open != [] && Walk(nodes, start, open, done)
    requires KidsOf(kids, open[|open| - 1].at)
    requires forall i :: 0 <= i < |kids| ==> kids[i].at in nodes && nodes[kids[i].at] == kids[i]
    requires forall p :: p in nodes && open[|open| - 1].at < p ==> Covered(kids, p)
    ensures open[|open| - 1].at in AtOrBelow(nodes, start) - done
    ensures Walk(nodes, start, open[..|open| - 1] + kids, done + {open[|open| - 1].at})
  {
    var rest, node := open[..|open| - 1], open[|open| - 1];
    assert open == rest + [node];
    assert Covered(open, node.at);
    OpenKidsDisjoint(rest, node, kids);
    forall p | p in AtOrBelow(nodes, start) && p !in done ensures p == node.at || Covered(rest + kids, p) {
      OpenKidsCover(rest, node, kids, p);
    }
    forall p | Covered(rest + kids, p) ensures p !in done + {node.at} {
      OpenKidsBelow(rest, node, kids, p);
    }
  }

  lemma WalkEnd(nodes: Nodes, start: Path, done: set<Path>)
    requires Walk(nodes, start, [], done)
    ensures done == AtOrBelow(nodes, start)
  {
  }

  lemma KidsFromKeys(nodes: Nodes, node: AccessTree, keys: seq<Component>, kids: seq<AccessTree>)
    requires node.at in nodes && nodes[node.at] == node && ChildrenIndexed(nodes) && ParentsIndexed(nodes)
    requires forall p :: p in nodes ==> nodes[p].at == p
    requires Values(node.children, keys, kids) && forall c :: c in node.children ==> c in keys
    ensures KidsOf(kids, node.at)
    ensures forall i :: 0 <= i < |kids| ==> kids[i].at in nodes && nodes[kids[i].at] == kids[i]
    ensures forall p :: p in nodes && node.at < p ==> Covered(kids, p)
  {
    forall i | 0 <= i < |kids| ensures kids[i].at == Step(node.at, keys[i]) && nodes[kids[i].at] == kids[i] {
      assert Step(node.at, keys[i]) in nodes;
    }
    forall i, j | 0 <= i < j < |kids| ensures kids[i].at != kids[j].at {
      assert kids[i].at[|node.at|] == keys[i] && kids[j].at[|node.at|] == keys[j];
    }
    forall p | p in nodes && node.at < p ensures Covered(kids, p) {
      var c := NextComponent(nodes, p, node);
      var i :| 0 <= i < |keys| && keys[i] == c;
      assert kids[i].at <= p;
    }
  }

  class AccessTree {
    ghost const at: Path  // the path that leads here from the root
    var state: AccessState?
    var children: map<Component, AccessTree>

    constructor (ghost path: Path)
      ensures at == path && state == null && children == map[]
    {
      at := path;
      state, children := null, map[];
    }

    /** The child nodes, each once. */
    method Children(ghost nodes: Nodes) returns (kids: seq<AccessTree>)
      requires at in nodes && nodes[at] == this && ChildrenIndexed(nodes) && ParentsIndexed(nodes)
      requires forall p :: p in nodes ==> nodes[p].at == p
      ensures KidsOf(kids, at)
      ensures forall i :: 0 <= i < |kids| ==> kids[i].at in nodes && nodes[kids[i].at] == kids[i]
      ensures forall p :: p in nodes && at < p ==> Covered(kids, p)
    {
      kids := [];
      ghost var keys: seq<Component> := [];
      var left := children.Keys;
      while left != {}
        invariant left <= children.Keys
        invariant Values(children, keys, kids)
        invariant forall c :: c in keys ==> c !in left
        invariant forall c :: c in children && c !in left ==> c in keys
      {
        var c :| c in left;
        kids, keys, left := kids + [children[c]], keys + [c], left - {c};
      }
      KidsFromKeys(nodes, this, keys, kids);
    }

    /** Add an empty child under the component `c`. */
    method AddChild(c: Component, ghost root: AccessTree, ghost nodes: Nodes) returns (child: AccessTree)
      requires Indexed(root, nodes) && at in nodes && nodes[at] == this && c !in children
      modifies this`children
      ensures fresh(child) && child.state == null && children == old(children)[c := child]
      ensures Indexed(root, nodes[Step(at, c) := child])
    {
      child := new AccessTree(Step(at, c));
      assert Step(at, c) !in nodes;
      forall p, d | Step(p, d) == Step(at, c) ensures p == at && d == c {
        SnocInjective(p, d, at, c);
      }
      children := children[c := child];
    }

    /** Step to the child `c`, creating it when it is missing. */
    method Child(c: Component, ghost root: AccessTree, ghost nodes: Nodes) returns (child: AccessTree, ghost nodes': Nodes)
      requires Indexed(root, nodes) && at in nodes && nodes[at] == this
      modifies this`children
      ensures Indexed(root, nodes')
      ensures Step(at, c) in nodes' && nodes'[Step(at, c)] == child
      ensures if Step(at, c) in nodes then nodes' == nodes
              else nodes' == nodes[Step(at, c) := child] && fresh(child) && child.state == null
    {
      nodes' := nodes;
      if c !in children {
        assert Step(at, c) !in nodes;
        child := AddChild(c, root, nodes);
        nodes' := nodes[Step(at, c) := child];
      }
      child := children[c];
    }

    /** Walk down to the node of `path`, creating missing nodes; list the states of its proper ancestors. */
    method Descend(path: Path, ghost nodes: Nodes)
      returns (node: AccessTree, above: seq<AccessState>, ghost nodes': Nodes)
      requires Indexed(this, nodes)
      modifies nodes.Values`children
      ensures Indexed(this, nodes') && Grown(nodes', nodes)
      ensures path in nodes' && nodes'[path] == node
      ensures Lists(above, nodes, Above(nodes, path, |path|))
    {
      node, above, nodes' := this, [], nodes;
      for i := 0 to |path|
        invariant Indexed(this, nodes') && Grown(nodes', nodes)
        invariant path[..i] in nodes' && nodes'[path[..i]] == node
        invariant Lists(above, nodes, Above(nodes, path, i))
      {
        PrefixStep(path, i);
        ListsHere(above, nodes, nodes', path, i);
        above := above + StateAt(node);
        node, nodes' := node.Child(path[i], this, nodes');
      }
      assert path[..|path|] == path;
    }

    /** The states stored at or below this node. */
    method Below(ghost root: AccessTree, ghost nodes: Nodes) returns (below: seq<AccessState>)
      requires Indexed(root, nodes) && at in nodes && nodes[at] == this
      ensures Lists(below, nodes, AtOrBelow(nodes, at))
    {
      below := [];
      var pending := [this];
      ghost var done: set<Path> := {};
      WalkStart(nodes, this);
      while pending != []
        invariant Walk(nodes, at, pending, done)
        invariant Lists(below, nodes, done)
        decreases nodes.Keys - done
      {
        var last := |pending| - 1;
        var descendant := pending[last];
        var kids := descendant.Children(nodes);
        WalkStep(nodes, at, pending, done, kids);
        ListsMore(below, StateAt(descendant), nodes, done, {descendant.at});
        below := below + StateAt(descendant);
        pending := pending[..last] + kids;
        done := done + {descendant.at};
      }
      WalkEnd(nodes, at, done);
    }

    /** This node's state, created on first use. */
    method OwnState(ghost root: AccessTree, ghost nodes: Nodes) returns (own: AccessState)
      requires Indexed(root, nodes) && at in nodes && nodes[at] == this
      modifies this`state
      ensures Indexed(root, nodes) && state == own
      ensures if old(state) != null then own == old(state) else fresh(own) && own.lastWriter == None && own.readersSinceWrite == {}
    {
      if state == null {
        state := new AccessState(at);
      }
      own := state;
    }

    /**
      * This path's state, created on first use, and every state stored at an ancestor, descendant
      * or equal path: each exactly once and no other.
      */
    method Resolve(path: Path, ghost nodes: Nodes)
      returns (own: AccessState, overlapping: seq<AccessState>, ghost nodes': Nodes)
      requires Indexed(this, nodes)
      modifies nodes.Values
      ensures Indexed(this, nodes') && fresh(nodes'.Values - nodes.Values)
      ensures forall p :: p in nodes ==> p in nodes' && nodes'[p] == nodes[p]
      ensures forall p :: p in nodes' && p !in nodes && p != path ==> nodes'[p].state == null
      ensures forall p :: p in nodes && p != path ==> nodes[p].state == old(nodes[p].state)
      ensures path in nodes' && nodes'[path].state == own
      ensures if path in nodes && old(nodes[path].state) != null then own == old(nodes[path].state)
              else fresh(own) && own.lastWriter == None && own.readersSinceWrite == {}
      ensures forall k :: 0 <= k < |overlapping| ==> old(allocated(overlapping[k]))
      ensures old(Lists(overlapping, nodes, AllOverlapping(nodes, path)))
    {
      var node, above;
      node, above, nodes' := Descend(path, nodes);
      var below := node.Below(this, nodes');
      overlapping := above + below;
      ListsAll(above, below, nodes, nodes', path);
      own := node.OwnState(this, nodes');
    }
  }

  /** `larger` adds nodes that are new and hold no state. */
  twostate predicate Grown(new larger: Nodes, nodes: Nodes)
    reads larger.Values`state
  {
    && (forall p :: p in nodes ==> p in larger && larger[p] == nodes[p])
    && (forall p :: p in larger && p !in nodes ==> larger[p].state == null && fresh(larger[p]))
  }

  /** One more ancestor on the way down. */
  lemma ListsHere(above: seq<AccessState>, nodes: Nodes, nodes': Nodes, path: Path, i: nat)
    requires i < |path| && PathsIndexed(nodes') && path[..i] in nodes'
    requires forall p :: p in nodes ==> p in nodes' && nodes'[p] == nodes[p]
    requires forall p :: p in nodes' && p !in nodes ==> nodes'[p].state == null
    requires Lists(above, nodes, Above(nodes, path, i))
    ensures Lists(above + StateAt(nodes'[path[..i]]), nodes, Above(nodes, path, i + 1))
  {
    var here := path[..i];
    assert forall p: Path :: p <= path && |p| == i ==> p == here;
    if here in nodes {
      assert Above(nodes, path, i + 1) == Above(nodes, path, i) + {here};
      ListsMore(above, StateAt(nodes[here]), nodes, Above(nodes, path, i), {here});
    } else {
      assert Above(nodes, path, i + 1) == Above(nodes, path, i);
      assert above + StateAt(nodes'[here]) == above;
    }
  }

  lemma ListsAll(above: seq<AccessState>, below: seq<AccessState>, nodes: Nodes, nodes': Nodes, path: Path)
    requires forall p :: p in nodes ==> p in nodes' && nodes'[p] == nodes[p]
    requires forall p :: p in nodes' && p !in nodes ==> nodes'[p].state == null
    requires Lists(above, nodes, Above(nodes, path, |path|)) && Lists(below, nodes', AtOrBelow(nodes', path))
    ensures Lists(above + below, nodes, AllOverlapping(nodes, path))
  {
    assert AllOverlapping(nodes, path) == Above(nodes, path, |path|) + AtOrBelow(nodes, path);
    forall k | 0 <= k < |below| ensures below[k].at in nodes {
      assert nodes'[below[k].at].state == below[k];
    }
    assert Lists(below, nodes, AtOrBelow(nodes, path));
    ListsMore(above, below, nodes, Above(nodes, path, |path|), AtOrBelow(nodes, path));
  }
}
