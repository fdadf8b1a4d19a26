/** Which steps an overwrite of some steps invalidates, and in which order. */
module Overwrite {
  import opened Collections
  import opened Paths
  import opened Graph

  /** A recipe's steps and their graph; an ordinary step has neither. */
  datatype Scope = Scope(names: seq<Component>, graph: RecipeGraph)

  /** The invoked recipe, every nested step under its path; the recipe itself is at the empty path. */
  type Recipes = map<Path, Scope>

  /** The graph is valid and acyclic, the names are unambiguous, and every step is there. */
  ghost predicate Sound(tree: Recipes, p: Path) {
    p in tree ==>
      && |tree[p].names| == |tree[p].graph.deps| && tree[p].graph.WellFormed() && Acyclic(tree[p].graph)
      && (forall i, j :: 0 <= i < j < |tree[p].names| ==> tree[p].names[i] != tree[p].names[j])
      && (forall i :: 0 <= i < |tree[p].names| ==> Child(tree, p, i) in tree)
      && (p != [] ==> Parent(p) in tree && p[|p| - 1] in tree[Parent(p)].names)
  }

  ghost predicate Valid(tree: Recipes) {
    [] in tree && forall p {:trigger Sound(tree, p)} :: Sound(tree, p)
  }

  function Child(tree: Recipes, p: Path, i: nat): Path
    requires p in tree && i < |tree[p].names|
  {
    p + [tree[p].names[i]]
  }

  function Within(tree: Recipes, p: Path): (s: set<Path>)
    ensures forall q :: q in s <==> q in tree && p <= q
  {
    set q | q in tree && p <= q
  }

  function Beneath(tree: Recipes, p: Path): (s: set<Path>)
    ensures forall q :: q in s <==> q in tree && p < q
  {
    assert forall q: Path {:trigger q in tree} :: p < q <==> p <= q && q != p;
    Within(tree, p) - {p}
  }

  lemma WithBeneath(tree: Recipes, p: Path)
    requires p in tree
    ensures {p} + Beneath(tree, p) == Within(tree, p)
  {
  }

  /** A path is or lies in step `i` of a recipe. */
  predicate In(tree: Recipes, p: Path, i: nat, a: Path) {
    p in tree && i < |tree[p].names| && p < a && a[|p|] == tree[p].names[i]
  }

  /** Step `i` of a recipe depends on step `j`. */
  predicate Uses(tree: Recipes, p: Path, i: nat, j: nat) {
    p in tree && i < |tree[p].graph.deps| && j in tree[p].graph.deps[i]
  }

  /** In some recipe, `b` is or lies in a step that depends on the step that `a` is or lies in. */
  ghost predicate FeedsIn(tree: Recipes, r: Path, j: nat, i: nat, a: Path, b: Path) {
    Uses(tree, r, i, j) && In(tree, r, j, a) && In(tree, r, i, b)
  }

  ghost predicate Feeds(tree: Recipes, a: Path, b: Path) {
    exists r, j: nat, i: nat :: FeedsIn(tree, r, j, i, a, b)
  }

  /** The consumers that are to follow a producer: with everything in them, and its own recipe. */
  ghost predicate Follows(tree: Recipes, a: Path, b: Path) {
    && a in tree && b in tree && a != []
    && (b == Parent(a) || exists j: nat, i: nat :: FeedsIn(tree, Parent(a), j, i, a, b))
  }

  /** What has to come earlier in the order of the walk. */
  ghost predicate Earlier(tree: Recipes, a: Path, b: Path) {
    Feeds(tree, a, b) || b < a
  }

  ghost predicate InOrder(tree: Recipes, s: seq<Path>) {
    forall x, y :: 0 <= x < |s| && 0 <= y < |s| && Earlier(tree, s[x], s[y]) ==> x < y
  }

  /** A walk of one subtree: everything in it once, in order. */
  ghost predicate Walks(tree: Recipes, p: Path, s: seq<Path>) {
    Distinct(s) && (forall q :: q in s <==> q in Within(tree, p)) && InOrder(tree, s)
  }

  // Facts about paths of one recipe.

  lemma NotSelfFed(tree: Recipes, r: Path, i: nat)
    requires Valid(tree)
    ensures !Uses(tree, r, i, i)
  {
    assert Sound(tree, r);
    if Uses(tree, r, i, i) {
      assert Cycle(tree[r].graph, [i, i]);
    }
  }

  /** Two paths through one step of a recipe cannot feed each other there or above. */
  lemma FeedsBelow(tree: Recipes, r: Path, j: nat, i: nat, a: Path, b: Path, p: Path)
    requires Valid(tree) && FeedsIn(tree, r, j, i, a, b) && p <= a && p <= b
    ensures p <= r
  {
    assert Sound(tree, r);
    if |r| < |p| {
      assert a[|r|] == p[|r|] == b[|r|];
      assert i == j;
      NotSelfFed(tree, r, i);
    }
    assert r == a[..|r|] && p == a[..|p|];
  }

  /** A recipe comes after everything in it. */
  lemma SelfLast(tree: Recipes, p: Path, b: Path)
    requires Valid(tree) && p <= b
    ensures !Earlier(tree, p, b)
  {
    forall r, j: nat, i: nat ensures !FeedsIn(tree, r, j, i, p, b) {
      if FeedsIn(tree, r, j, i, p, b) {
        FeedsBelow(tree, r, j, i, p, b, p);
      }
    }
  }

  /** Paths through two steps of a recipe can only feed each other there. */
  lemma FeedsThere(tree: Recipes, p: Path, a: Path, b: Path, r: Path, l: nat, k: nat)
    requires Valid(tree) && p < a && p < b && a[|p|] != b[|p|] && FeedsIn(tree, r, l, k, a, b)
    ensures r == p
  {
    FeedsBelow(tree, r, l, k, a, b, p);
    assert forall k :: 0 <= k < |r| ==> a[k] == r[k] == b[k];
  }

  /** Between two steps of a recipe only a dependency decides. */
  lemma SiblingsEarlier(tree: Recipes, p: Path, j: nat, i: nat, a: Path, b: Path)
    requires Valid(tree) && In(tree, p, j, a) && In(tree, p, i, b) && i != j && Earlier(tree, a, b)
    ensures Uses(tree, p, i, j)
  {
    assert Sound(tree, p);
    assert a[|p|] != b[|p|];
    assert !(b < a);
    var r, l: nat, k: nat :| FeedsIn(tree, r, l, k, a, b);
    FeedsThere(tree, p, a, b, r, l, k);
    assert tree[p].names[l] == tree[p].names[j] && tree[p].names[k] == tree[p].names[i];
  }

  /** Everything in one step, taken as a whole. */
  lemma InWithin(tree: Recipes, p: Path, i: nat, a: Path)
    requires p in tree && i < |tree[p].names|
    ensures a in Within(tree, Child(tree, p, i)) <==> a in tree && In(tree, p, i, a)
  {
  }

  /** Below a recipe there is nothing but what is in its steps. */
  lemma WithinSteps(tree: Recipes, p: Path, a: Path)
    requires Valid(tree) && p in tree && a in tree && p < a
    ensures exists i: nat :: In(tree, p, i, a)
    decreases |a|
  {
    assert Sound(tree, a);
    if Parent(a) == p {
      var i: nat :| i < |tree[p].names| && tree[p].names[i] == a[|p|];
      assert In(tree, p, i, a);
    } else {
      assert p < Parent(a);
      WithinSteps(tree, p, Parent(a));
      var i: nat :| In(tree, p, i, Parent(a));
      assert In(tree, p, i, a);
    }
  }

  // One recipe's walk: its steps in topological order, then itself.

  ghost predicate WalkedSteps(tree: Recipes, p: Path, order: seq<nat>, n: nat, s: seq<Path>)
    requires p in tree && n <= |order|
  {
    && Distinct(s) && InOrder(tree, s)
    && forall a :: a in s <==> a in tree && exists k :: 0 <= k < n && In(tree, p, order[k], a)
  }

  /** What comes later in the order is no dependency. */
  lemma LaterNoDependency(g: RecipeGraph, order: seq<nat>, k: nat, n: nat)
    requires Respects(g, order) && k < n < |order|
    ensures order[k] < |g.deps| && order[n] < |g.deps| && order[k] != order[n] && order[n] !in g.deps[order[k]]
  {
    RespectsShape(g, order);
    assert Ready(g, Elems(order[..k]), order[k]);
  }

  lemma InOrderAppend(tree: Recipes, s: seq<Path>, block: seq<Path>)
    requires Distinct(s) && InOrder(tree, s) && Distinct(block) && InOrder(tree, block)
    requires forall a, b :: a in block && b in s ==> a != b && !Earlier(tree, a, b)
    ensures Distinct(s + block) && InOrder(tree, s + block)
  {
    var t := s + block;
    assert forall x :: |s| <= x < |t| ==> t[x] in block;
    assert forall x :: 0 <= x < |s| ==> t[x] in s;
    forall x, y | 0 <= x < |t| && 0 <= y < |t| && Earlier(tree, t[x], t[y]) ensures x < y {
      assert x < |s| && y < |s| ==> Earlier(tree, s[x], s[y]);
      assert x >= |s| && y >= |s| ==> Earlier(tree, block[x - |s|], block[y - |s|]);
    }
  }

  lemma WalkStep(tree: Recipes, p: Path, order: seq<nat>, n: nat, s: seq<Path>, block: seq<Path>)
    requires Valid(tree) && p in tree && Respects(tree[p].graph, order) && n < |order|
    requires WalkedSteps(tree, p, order, n, s) && order[n] < |tree[p].names| && Walks(tree, Child(tree, p, order[n]), block)
    ensures WalkedSteps(tree, p, order, n + 1, s + block)
  {
    var i := order[n];
    assert Sound(tree, p);
    forall a ensures a in block <==> a in tree && In(tree, p, i, a) {
      InWithin(tree, p, i, a);
    }
    forall a, b | a in block && b in s ensures a != b && !Earlier(tree, a, b) {
      var k: nat :| k < n && In(tree, p, order[k], b);
      LaterNoDependency(tree[p].graph, order, k, n);
      assert Earlier(tree, a, b) ==> In(tree, p, i, a) && In(tree, p, order[k], b);
      if Earlier(tree, a, b) {
        SiblingsEarlier(tree, p, i, order[k], a, b);
      }
    }
    InOrderAppend(tree, s, block);
  }

  lemma WalkCloses(tree: Recipes, p: Path, s: seq<Path>)
    requires Valid(tree) && p in tree && Distinct(s) && InOrder(tree, s) && forall a :: a in s <==> a in tree && p < a
    ensures Walks(tree, p, s + [p])
  {
    forall a, b | a in [p] && b in s ensures a != b && !Earlier(tree, a, b) {
      SelfLast(tree, p, b);
    }
    SelfLast(tree, p, p);
    InOrderAppend(tree, s, [p]);
    WithinAppend(tree, p, s);
  }

  lemma WithinAppend(tree: Recipes, p: Path, s: seq<Path>)
    requires p in tree && forall a :: a in s <==> a in tree && p < a
    ensures forall a :: a in s + [p] <==> a in Within(tree, p)
  {
    forall a ensures a in s + [p] <==> a in Within(tree, p) {
      assert p <= a <==> a == p || p < a;
    }
  }

  lemma StepsCovered(tree: Recipes, p: Path, order: seq<nat>, s: seq<Path>)
    requires Valid(tree) && p in tree && TopologicalOrder(tree[p].graph, order) && WalkedSteps(tree, p, order, |order|, s)
    ensures forall a :: a in s <==> a in tree && p < a
  {
    OrderIsPermutation(tree[p].graph, order);
    assert Sound(tree, p);
    forall a | a in tree && p < a ensures a in s {
      WithinSteps(tree, p, a);
      var i: nat :| In(tree, p, i, a);
      assert i in Elems(order);
      var k :| 0 <= k < |order| && order[k] == i;
    }
  }

  ghost function Followers(tree: Recipes, a: Path): set<Path> {
    set b | b in tree && Follows(tree, a, b)
  }

  /** What the steps numbered below `m` that depend on step `j` contribute to its followers. */
  ghost function Fed(tree: Recipes, p: Path, j: nat, m: nat): set<Path> {
    set b | b in tree && exists i: nat :: i < m && Uses(tree, p, i, j) && In(tree, p, i, b)
  }

  lemma FollowersOfStep(tree: Recipes, p: Path, j: nat)
    requires Valid(tree) && p in tree && j < |tree[p].names|
    ensures Followers(tree, Child(tree, p, j)) == {p} + Fed(tree, p, j, |tree[p].names|)
  {
    var a := Child(tree, p, j);
    assert Sound(tree, p);
    assert Parent(a) == p && a in tree;
    forall b | b in Fed(tree, p, j, |tree[p].names|) ensures Follows(tree, a, b) {
      var i: nat :| i < |tree[p].names| && Uses(tree, p, i, j) && In(tree, p, i, b);
      assert FeedsIn(tree, p, j, i, a, b);
    }
    forall b | Follows(tree, a, b) && b != p ensures b in Fed(tree, p, j, |tree[p].names|) {
      var l: nat, i: nat :| FeedsIn(tree, p, l, i, a, b);
      assert tree[p].names[l] == a[|p|] == tree[p].names[j];
      assert Uses(tree, p, i, j) && In(tree, p, i, b);
    }
  }

  lemma FedNext(tree: Recipes, p: Path, j: nat, m: nat)
    requires p in tree && m < |tree[p].names|
    ensures Fed(tree, p, j, m + 1) == Fed(tree, p, j, m) + if Uses(tree, p, m, j) then Within(tree, Child(tree, p, m)) else {}
  {
    forall b ensures b in Within(tree, Child(tree, p, m)) <==> b in tree && In(tree, p, m, b) {
      InWithin(tree, p, m, b);
    }
  }

  /** What the walk records of every step: who follows it, and what is beneath it. */
  datatype Tables = Tables(dependents: map<Path, set<Path>>, descendants: map<Path, set<Path>>)

  ghost predicate SameAt(t: Tables, t0: Tables, q: Path) {
    && (q in t.dependents <==> q in t0.dependents) && (q in t0.dependents ==> t.dependents[q] == t0.dependents[q])
    && (q in t.descendants <==> q in t0.descendants) && (q in t0.descendants ==> t.descendants[q] == t0.descendants[q])
  }

  ghost predicate SetAt(tree: Recipes, t: Tables, q: Path, followers: set<Path>) {
    && q in t.descendants && t.descendants[q] == Beneath(tree, q)
    && q in t.dependents && t.dependents[q] == followers
  }

  /** After walking some steps of a recipe: followers within the recipe are still missing for the steps themselves. */
  ghost predicate FilledAt(tree: Recipes, p: Path, inside: set<Path>, t: Tables, t0: Tables, q: Path) {
    if q in inside then SetAt(tree, t, q, if Parent(q) == p then {p} else Followers(tree, q))
    else q == p || SameAt(t, t0, q)
  }

  /** After walking a whole subtree: its root's own followers are its recipe's to add. */
  ghost predicate EnteredAt(tree: Recipes, p: Path, t: Tables, t0: Tables, q: Path) {
    if q in Within(tree, p) then SetAt(tree, t, q, if q == p then {} else Followers(tree, q)) else SameAt(t, t0, q)
  }

  ghost predicate Filled(tree: Recipes, p: Path, inside: set<Path>, t: Tables, t0: Tables) {
    forall q :: FilledAt(tree, p, inside, t, t0, q)
  }

  ghost predicate Entered(tree: Recipes, p: Path, t: Tables, t0: Tables) {
    forall q :: EnteredAt(tree, p, t, t0, q)
  }

  function AddDependents(t: Tables, c: Path, more: set<Path>): Tables
    requires c in t.dependents
  {
    t.(dependents := t.dependents[c := t.dependents[c] + more])
  }

  /** Walking one more step of a recipe. */
  lemma FilledNext(tree: Recipes, p: Path, c: Path, inside: set<Path>, t: Tables, t0: Tables, t1: Tables)
    requires c in tree && c != [] && Parent(c) == p && inside !! Within(tree, c)
    requires Filled(tree, p, inside, t, t0) && Entered(tree, c, t1, t)
    ensures c in t1.dependents && Filled(tree, p, inside + Within(tree, c), AddDependents(t1, c, {p}), t0)
  {
    assert EnteredAt(tree, c, t1, t, c);
    forall q ensures FilledAt(tree, p, inside + Within(tree, c), AddDependents(t1, c, {p}), t0, q) {
      assert FilledAt(tree, p, inside, t, t0, q) && EnteredAt(tree, c, t1, t, q);
      if q in Within(tree, c) && q != c {
        assert |q| > |c| && Parent(q) != p;
      }
      assert p !in Within(tree, c);
    }
  }

  /** A step's followers after the recipe's dependencies below `m`, and those of `m` that are done. */
  ghost function LinkedTo(tree: Recipes, p: Path, m: nat, done: set<nat>, j: nat): set<Path>
    requires p in tree
  {
    {p} + Fed(tree, p, j, m) + if j in done && m < |tree[p].names| then Within(tree, Child(tree, p, m)) else {}
  }

  /** While the dependencies of step `m` are entered, only the followers of steps have changed. */
  ghost predicate Linking(tree: Recipes, p: Path, m: nat, done: set<nat>, t: Tables, t1: Tables)
    requires p in tree
  {
    && t.descendants == t1.descendants && t.dependents.Keys == t1.dependents.Keys
    && (forall q :: q in t1.dependents && !(q in tree && q != [] && Parent(q) == p) ==> t.dependents[q] == t1.dependents[q])
    && (forall j: nat :: j < |tree[p].names| ==>
                           Child(tree, p, j) in t1.dependents && t.dependents[Child(tree, p, j)] == LinkedTo(tree, p, m, done, j))
  }

  lemma ChildrenDiffer(tree: Recipes, p: Path, i: nat, j: nat)
    requires Valid(tree) && p in tree && i < |tree[p].names| && j < |tree[p].names|
    ensures Child(tree, p, i) in tree && Child(tree, p, i) != [] && Parent(Child(tree, p, i)) == p
    ensures i != j ==> Child(tree, p, i) != Child(tree, p, j)
  {
    assert Sound(tree, p);
    assert Child(tree, p, i)[|p|] == tree[p].names[i] && Child(tree, p, j)[|p|] == tree[p].names[j];
  }

  lemma LinkOne(tree: Recipes, p: Path, m: nat, done: set<nat>, t: Tables, t1: Tables, j: nat)
    requires Valid(tree) && p in tree && m < |tree[p].names| && j < |tree[p].names| && Linking(tree, p, m, done, t, t1)
    ensures Linking(tree, p, m, done + {j}, AddDependents(t, Child(tree, p, j), Within(tree, Child(tree, p, m))), t1)
  {
    ChildrenDiffer(tree, p, j, j);
    var t2 := AddDependents(t, Child(tree, p, j), Within(tree, Child(tree, p, m)));
    forall k: nat | k < |tree[p].names|
      ensures Child(tree, p, k) in t1.dependents && t2.dependents[Child(tree, p, k)] == LinkedTo(tree, p, m, done + {j}, k)
    {
      ChildrenDiffer(tree, p, j, k);
    }
  }

  lemma LinkNext(tree: Recipes, p: Path, m: nat, t: Tables, t1: Tables)
    requires p in tree && m < |tree[p].names| && m < |tree[p].graph.deps| && Linking(tree, p, m, tree[p].graph.deps[m], t, t1)
    ensures Linking(tree, p, m + 1, {}, t, t1)
  {
    forall j: nat | j < |tree[p].names| ensures t.dependents[Child(tree, p, j)] == LinkedTo(tree, p, m + 1, {}, j) {
      FedNext(tree, p, j, m);
    }
  }

  lemma LinkStarts(tree: Recipes, p: Path, t: Tables, t0: Tables)
    requires Valid(tree) && p in tree && Filled(tree, p, Beneath(tree, p), t, t0)
    ensures Linking(tree, p, 0, {}, t, t)
  {
    forall j: nat | j < |tree[p].names| ensures Child(tree, p, j) in t.dependents && t.dependents[Child(tree, p, j)] == LinkedTo(tree, p, 0, {}, j) {
      ChildrenDiffer(tree, p, j, j);
      assert FilledAt(tree, p, Beneath(tree, p), t, t0, Child(tree, p, j));
      assert Fed(tree, p, j, 0) == {};
    }
  }

  lemma StepLinked(tree: Recipes, p: Path, t: Tables, t1: Tables, j: nat)
    requires Valid(tree) && p in tree && j < |tree[p].names| && SetAt(tree, t1, Child(tree, p, j), {p})
    requires Linking(tree, p, |tree[p].names|, {}, t, t1)
    ensures SetAt(tree, t, Child(tree, p, j), Followers(tree, Child(tree, p, j)))
  {
    FollowersOfStep(tree, p, j);
  }

  /** All dependencies entered, every step beneath has its followers. */
  lemma LinkEnds(tree: Recipes, p: Path, t: Tables, t1: Tables, t0: Tables, q: Path)
    requires Valid(tree) && p in tree && Filled(tree, p, Beneath(tree, p), t1, t0) && Linking(tree, p, |tree[p].names|, {}, t, t1)
    ensures if q in Beneath(tree, p) then SetAt(tree, t, q, Followers(tree, q)) else q == p || SameAt(t, t0, q)
  {
    assert FilledAt(tree, p, Beneath(tree, p), t1, t0, q) && Sound(tree, q);
    assert q != [] && Parent(q) == p ==> p < q;
    if q in Beneath(tree, p) {
      if Parent(q) == p {
        var j: nat :| j < |tree[p].names| && tree[p].names[j] == q[|p|];
        assert q == Child(tree, p, j);
        StepLinked(tree, p, t, t1, j);
      }
    }
  }

  // The walk and the selection.

  class Selection {
    var tables: Tables
    var order: seq<Path>

    constructor ()
      ensures tables == Tables(map[], map[]) && order == []
    {
      tables, order := Tables(map[], map[]), [];
    }

    /** Everything in one step follows one step that it depends on. */
    method LinkSource(tree: Recipes, p: Path, m: nat, source: nat, ghost done: set<nat>, ghost t1: Tables)
      requires Valid(tree) && p in tree && m < |tree[p].names| && source < |tree[p].names| && Linking(tree, p, m, done, tables, t1)
      requires SetAt(tree, t1, Child(tree, p, m), {p})
      modifies this`tables
      ensures Linking(tree, p, m, done + {source}, tables, t1)
    {
      var consumer := Child(tree, p, m);
      ChildrenDiffer(tree, p, m, source);
      LinkOne(tree, p, m, done, tables, t1, source);
      WithBeneath(tree, consumer);
      tables := AddDependents(tables, Child(tree, p, source), {consumer} + tables.descendants[consumer]);
    }

    method LinkSources(tree: Recipes, p: Path, m: nat, ghost t1: Tables)
      requires Valid(tree) && p in tree && m < |tree[p].names| && Linking(tree, p, m, {}, tables, t1)
      requires SetAt(tree, t1, Child(tree, p, m), {p})
      modifies this`tables
      ensures Linking(tree, p, m + 1, {}, tables, t1)
    {
      assert Sound(tree, p);
      var left := tree[p].graph.deps[m];
      ghost var done: set<nat> := {};
      while left != {}
        invariant done + left == tree[p].graph.deps[m] && Linking(tree, p, m, done, tables, t1)
        decreases |left|
      {
        var source :| source in left;
        LinkSource(tree, p, m, source, done, t1);
        done, left := done + {source}, left - {source};
      }
      assert done == tree[p].graph.deps[m];
      LinkNext(tree, p, m, tables, t1);
    }

    /** Enter every dependency between the steps of one recipe. */
    method LinkSteps(tree: Recipes, p: Path, ghost t0: Tables)
      requires Valid(tree) && p in tree && Filled(tree, p, Beneath(tree, p), tables, t0)
      modifies this`tables
      ensures forall q :: if q in Beneath(tree, p) then SetAt(tree, tables, q, Followers(tree, q)) else q == p || SameAt(tables, t0, q)
      ensures p in old(tables).dependents ==> p in tables.dependents && tables.dependents[p] == old(tables).dependents[p]
    {
      ghost var t1 := tables;
      LinkStarts(tree, p, t1, t0);
      for m := 0 to |tree[p].names|
        invariant Linking(tree, p, m, {}, tables, t1)
      {
        ChildrenDiffer(tree, p, m, m);
        assert FilledAt(tree, p, Beneath(tree, p), t1, t0, Child(tree, p, m));
        LinkSources(tree, p, m, t1);
      }
      forall q ensures if q in Beneath(tree, p) then SetAt(tree, tables, q, Followers(tree, q)) else q == p || SameAt(tables, t0, q) {
        LinkEnds(tree, p, tables, t1, t0, q);
      }
    }

    /** Walk one subtree: record everything in it, and append it in order. */
    method Visit(tree: Recipes, p: Path) returns (ghost block: seq<Path>)
      requires Valid(tree) && p in tree
      modifies this
      ensures Walks(tree, p, block) && order == old(order) + block
      ensures Entered(tree, p, tables, old(tables))
      decreases |Within(tree, p)|, 2
    {
      ghost var t0 := tables;
      tables := Tables(tables.dependents[p := {}], tables.descendants);
      var children;
      children, block := VisitSteps(tree, p, t0);
      LinkSteps(tree, p, t0);
      ghost var t1 := tables;
      tables := tables.(descendants := tables.descendants[p := children]);
      forall q ensures EnteredAt(tree, p, tables, t0, q) {
        assert if q in Beneath(tree, p) then SetAt(tree, t1, q, Followers(tree, q)) else q == p || SameAt(t1, t0, q);
      }
      WalkCloses(tree, p, block);
      order, block := order + [p], block + [p];
    }

    /** Walk the steps of a recipe in topological order. */
    method VisitSteps(tree: Recipes, p: Path, ghost t0: Tables) returns (children: set<Path>, ghost s: seq<Path>)
      requires Valid(tree) && p in tree && tables == Tables(t0.dependents[p := {}], t0.descendants)
      modifies this
      ensures Distinct(s) && InOrder(tree, s) && (forall a :: a in s <==> a in tree && p < a)
      ensures children == Beneath(tree, p) && order == old(order) + s
      ensures Filled(tree, p, children, tables, t0) && p in tables.dependents && tables.dependents[p] == {}
      decreases |Within(tree, p)|, 1
    {
      assert Sound(tree, p);
      var ordered := TopologicalIndices(tree[p].graph);
      RespectsShape(tree[p].graph, ordered);
      children, s := {}, [];
      for t := 0 to |ordered|
        invariant WalkedSteps(tree, p, ordered, t, s) && (forall a :: a in children <==> a in s) && order == old(order) + s
        invariant Filled(tree, p, children, tables, t0) && p in tables.dependents && tables.dependents[p] == {}
      {
        ghost var block;
        children, block := VisitStep(tree, p, ordered, t, children, s, t0);
        s := s + block;
      }
      StepsCovered(tree, p, ordered, s);
      SameMembers(tree, p, children, s);
    }

    /** Walk one step of a recipe; it is followed by the recipe itself. */
    method VisitStep(tree: Recipes, p: Path, ordered: seq<nat>, t: nat, before: set<Path>, ghost s: seq<Path>, ghost t0: Tables)
      returns (children: set<Path>, ghost block: seq<Path>)
      requires Valid(tree) && p in tree && Respects(tree[p].graph, ordered) && t < |ordered| && ordered[t] < |tree[p].names|
      requires WalkedSteps(tree, p, ordered, t, s) && (forall a :: a in before <==> a in s)
      requires Filled(tree, p, before, tables, t0) && p in tables.dependents && tables.dependents[p] == {}
      modifies this
      ensures WalkedSteps(tree, p, ordered, t + 1, s + block) && (forall a :: a in children <==> a in s + block)
      ensures order == old(order) + block
      ensures Filled(tree, p, children, tables, t0) && p in tables.dependents && tables.dependents[p] == {}
      decreases |Within(tree, p)|, 0
    {
      var child := Child(tree, p, ordered[t]);
      ChildrenDiffer(tree, p, ordered[t], ordered[t]);
      SmallerWithin(tree, p, child);
      ghost var t1 := tables;
      block := Visit(tree, child);
      StepWalked(tree, p, ordered, t, s, block, before, t1, tables, t0);
      children := before + ({child} + tables.descendants[child]);
      tables := AddDependents(tables, child, {p});
    }
  }

  lemma SameMembers(tree: Recipes, p: Path, children: set<Path>, s: seq<Path>)
    requires (forall a :: a in children <==> a in s) && forall a :: a in s <==> a in tree && p < a
    ensures children == Beneath(tree, p)
  {
  }

  /** Everything that walking one more step establishes. */
  lemma StepWalked(tree: Recipes, p: Path, order: seq<nat>, n: nat, s: seq<Path>, block: seq<Path>, before: set<Path>, t1: Tables, t2: Tables, t0: Tables)
    requires Valid(tree) && p in tree && Respects(tree[p].graph, order) && n < |order| && order[n] < |tree[p].names|
    requires WalkedSteps(tree, p, order, n, s) && (forall a :: a in before <==> a in s)
    requires Filled(tree, p, before, t1, t0) && p in t1.dependents && t1.dependents[p] == {}
    requires Walks(tree, Child(tree, p, order[n]), block) && Entered(tree, Child(tree, p, order[n]), t2, t1)
    ensures
      var child := Child(tree, p, order[n]);
      && child in t2.dependents && child in t2.descendants
      && WalkedSteps(tree, p, order, n + 1, s + block)
      && (forall a :: a in before + ({child} + t2.descendants[child]) <==> a in s + block)
      && Filled(tree, p, before + ({child} + t2.descendants[child]), AddDependents(t2, child, {p}), t0)
      && p in t2.dependents && t2.dependents[p] == {} && p != child
  {
    var child := Child(tree, p, order[n]);
    ChildrenDiffer(tree, p, order[n], order[n]);
    NewStep(tree, p, order, n, s);
    FilledNext(tree, p, child, before, t1, t0, t2);
    assert EnteredAt(tree, child, t2, t1, p) && EnteredAt(tree, child, t2, t1, child);
    WalkStep(tree, p, order, n, s, block);
    WithBeneath(tree, child);
  }

  lemma NewStep(tree: Recipes, p: Path, order: seq<nat>, n: nat, s: seq<Path>)
    requires Valid(tree) && p in tree && Respects(tree[p].graph, order) && n < |order| && order[n] < |tree[p].names|
    requires WalkedSteps(tree, p, order, n, s)
    ensures forall a :: a in s ==> a !in Within(tree, Child(tree, p, order[n]))
  {
    assert Sound(tree, p);
    forall a | a in s ensures !In(tree, p, order[n], a) {
      var k: nat :| k < n && In(tree, p, order[k], a);
      LaterNoDependency(tree[p].graph, order, k, n);
    }
    forall a ensures a in Within(tree, Child(tree, p, order[n])) ==> In(tree, p, order[n], a) {
      InWithin(tree, p, order[n], a);
    }
  }

  lemma SmallerWithin(tree: Recipes, p: Path, c: Path)
    requires p in tree && p < c
    ensures |Within(tree, c)| < |Within(tree, p)|
  {
    assert Within(tree, c) <= Within(tree, p) - {p};
    SubsetSize(Within(tree, c), Within(tree, p) - {p});
  }

  // The selection.

  /** Every step is recorded with its followers and what is beneath it. */
  ghost predicate Complete(tree: Recipes, t: Tables) {
    t.dependents.Keys == tree.Keys && forall q :: q in tree ==> SetAt(tree, t, q, Followers(tree, q))
  }

  ghost predicate Selected(tree: Recipes, requested: seq<Path>, s: set<Path>) {
    forall x, q :: x in requested && q in tree && x <= q ==> q in s
  }

  ghost predicate Closed(tree: Recipes, s: set<Path>) {
    forall a, b :: a in s && Follows(tree, a, b) ==> b in s
  }

  /** The least set with the requested steps, everything in them, and whatever follows. */
  ghost predicate LeastAffected(tree: Recipes, requested: seq<Path>, s: set<Path>) {
    && s <= tree.Keys && Selected(tree, requested, s) && Closed(tree, s)
    && forall other: set<Path> :: Selected(tree, requested, other) && Closed(tree, other) ==> s <= other
  }

  method Listed(s: set<Path>) returns (xs: seq<Path>)
    ensures forall x :: x in xs <==> x in s
  {
    xs := [];
    var left := s;
    while left != {}
      invariant left <= s && forall x :: x in xs <==> x in s && x !in left
      decreases |left|
    {
      var x :| x in left;
      xs, left := xs + [x], left - {x};
    }
  }

  type Edges = map<Path, set<Path>>

  ghost predicate ClosedOver(next: Edges, s: set<Path>) {
    forall a :: a in s && a in next ==> next[a] <= s
  }

  /** What is affected so far and what is still to be followed is contained in every closed selection. */
  ghost predicate Growing(next: Edges, start: set<Path>, affected: set<Path>, pending: seq<Path>) {
    && affected <= next.Keys && (forall x :: x in pending ==> x in next)
    && (forall x :: x in start ==> x in affected || x in pending)
    && (forall a, b :: a in affected && b in next[a] ==> b in affected || b in pending)
    && (forall other: set<Path> :: start <= other && ClosedOver(next, other) ==> affected <= other && forall x :: x in pending ==> x in other)
  }

  lemma GrowsBy(next: Edges, start: set<Path>, affected: set<Path>, pending: seq<Path>, name: Path, more: seq<Path>)
    requires Growing(next, start, affected, pending + [name]) && name in next && forall b :: b in more <==> b in next[name]
    requires next[name] <= next.Keys
    ensures Growing(next, start, affected + {name}, pending + more)
  {
    assert name in pending + [name];
    assert forall x :: x in pending ==> x in pending + [name];
  }

  lemma GrowsSkip(next: Edges, start: set<Path>, affected: set<Path>, pending: seq<Path>, name: Path)
    requires Growing(next, start, affected, pending + [name]) && name in affected
    ensures Growing(next, start, affected, pending)
  {
    assert forall x :: x in pending ==> x in pending + [name];
  }

  /** Follow what is pending until nothing is: the least closed set. */
  method CloseOver(next: Edges, selected: seq<Path>, ghost start: set<Path>) returns (affected: set<Path>)
    requires (forall x :: x in selected <==> x in start) && start <= next.Keys && forall a :: a in next ==> next[a] <= next.Keys
    ensures start <= affected <= next.Keys && ClosedOver(next, affected)
    ensures forall other: set<Path> :: start <= other && ClosedOver(next, other) ==> affected <= other
  {
    affected := {};
    var pending := selected;
    while pending != []
      invariant Growing(next, start, affected, pending)
      decreases |next.Keys - affected|, |pending|
    {
      var name, rest := pending[|pending| - 1], pending[..|pending| - 1];
      assert pending == rest + [name];
      assert name in pending;
      if name in affected {
        GrowsSkip(next, start, affected, rest, name);
        pending := rest;
      } else {
        var more := Listed(next[name]);
        GrowsBy(next, start, affected, rest, name, more);
        assert next.Keys - (affected + {name}) < next.Keys - affected;
        affected, pending := affected + {name}, rest + more;
      }
    }
  }

  method SelectedSteps(tree: Recipes, t: Tables, requested: seq<Path>) returns (pending: seq<Path>)
    requires Complete(tree, t) && forall x :: x in requested ==> x in tree
    ensures forall x :: x in pending <==> x in tree && exists k :: 0 <= k < |requested| && requested[k] <= x
  {
    pending := [];
    for n := 0 to |requested|
      invariant forall x :: x in pending <==> x in tree && exists k :: 0 <= k < n && requested[k] <= x
    {
      var selected := requested[n];
      assert SetAt(tree, t, selected, Followers(tree, selected));
      WithBeneath(tree, selected);
      var more := Listed({selected} + t.descendants[selected]);
      pending := pending + more;
    }
  }

  lemma ClosedBoth(tree: Recipes, t: Tables, s: set<Path>)
    requires Complete(tree, t)
    ensures ClosedOver(t.dependents, s) <==> Closed(tree, s)
  {
    forall a, b ensures a in tree ==> (Follows(tree, a, b) <==> b in t.dependents[a]) {
      assert a in tree ==> SetAt(tree, t, a, Followers(tree, a));
    }
    if ClosedOver(t.dependents, s) {
      forall a, b | a in s && Follows(tree, a, b) ensures b in s {
        assert t.dependents[a] <= s;
      }
    }
  }

  method Affected(tree: Recipes, t: Tables, requested: seq<Path>) returns (affected: set<Path>)
    requires Complete(tree, t) && forall x :: x in requested ==> x in tree
    ensures LeastAffected(tree, requested, affected)
  {
    var selected := SelectedSteps(tree, t, requested);
    ghost var start := set x | x in selected;
    forall a | a in t.dependents ensures t.dependents[a] <= t.dependents.Keys {
      assert SetAt(tree, t, a, Followers(tree, a));
    }
    affected := CloseOver(t.dependents, selected, start);
    forall s: set<Path> ensures ClosedOver(t.dependents, s) <==> Closed(tree, s) {
      ClosedBoth(tree, t, s);
    }
    forall s: set<Path> ensures Selected(tree, requested, s) <==> start <= s {
      SelectedStart(tree, requested, start, s);
    }
  }

  lemma SelectedStart(tree: Recipes, requested: seq<Path>, start: set<Path>, s: set<Path>)
    requires forall q :: q in start <==> q in tree && exists k :: 0 <= k < |requested| && requested[k] <= q
    ensures Selected(tree, requested, s) <==> start <= s
  {
    if Selected(tree, requested, s) {
      forall q | q in start ensures q in s {
        var k :| 0 <= k < |requested| && requested[k] <= q;
        assert requested[k] in requested;
      }
    }
  }

  /** A processing order: everything affected, once, with followers before what they follow. */
  ghost predicate Processes(tree: Recipes, affected: set<Path>, plan: seq<Path>) {
    && Distinct(plan) && (forall x :: x in plan <==> x in affected)
    && forall x, y :: 0 <= x < |plan| && 0 <= y < |plan| && Earlier(tree, plan[x], plan[y]) ==> y < x
  }

  method Reversed(tree: Recipes, order: seq<Path>, affected: set<Path>) returns (plan: seq<Path>)
    requires Distinct(order) && InOrder(tree, order) && forall x :: x in affected ==> x in order
    ensures Processes(tree, affected, plan)
  {
    plan := [];
    for n := |order| downto 0
      invariant Distinct(plan) && forall x :: x in plan <==> x in affected && x in order[n..]
      invariant forall x, y :: 0 <= x < |plan| && 0 <= y < |plan| && Earlier(tree, plan[x], plan[y]) ==> y < x
    {
      assert order[n..] == [order[n]] + order[n + 1..];
      if order[n] in affected {
        forall x | x in order[n + 1..] ensures x != order[n] && !Earlier(tree, x, order[n]) {
          var k :| 0 <= k < |order[n + 1..]| && order[n + 1..][k] == x;
          assert order[n + 1 + k] == x;
        }
        assert !Earlier(tree, order[n], order[n]) by {
          assert Earlier(tree, order[n], order[n]) ==> n < n;
        }
        plan := plan + [order[n]];
      }
    }
    assert order[0..] == order;
  }

  datatype Plan = Unknown | Invalidates(steps: seq<Path>)

  /** Select and order the steps to invalidate; the invoked recipe itself cannot be named. */
  method OverwriteSteps(tree: Recipes, requested: seq<Path>) returns (r: Plan)
    requires Valid(tree)
    ensures r.Unknown? <==> exists x :: x in requested && (x !in tree || x == [])
    ensures r.Invalidates? ==> exists affected :: LeastAffected(tree, requested, affected) && Processes(tree, affected, r.steps)
  {
    var selection := new Selection();
    ghost var block := selection.Visit(tree, []);
    if exists x :: x in requested && (x !in tree || x == []) {
      return Unknown;
    }
    forall q | q in tree ensures SetAt(tree, selection.tables, q, Followers(tree, q)) {
      assert EnteredAt(tree, [], selection.tables, Tables(map[], map[]), q);
      assert Followers(tree, []) == {};
    }
    forall q ensures q in selection.tables.dependents <==> q in tree {
      assert EnteredAt(tree, [], selection.tables, Tables(map[], map[]), q);
    }
    var affected := Affected(tree, selection.tables, requested);
    assert forall x :: x in affected ==> x in Within(tree, []);
    var steps := Reversed(tree, selection.order, affected);
    r := Invalidates(steps);
  }

  /** In a plan, the whole subtree of a consumer comes before that of its producer. */
  lemma ConsumersFirst(tree: Recipes, affected: set<Path>, plan: seq<Path>, r: Path, j: nat, i: nat, x: nat, y: nat)
    requires Processes(tree, affected, plan) && Uses(tree, r, i, j) && x < |plan| && y < |plan|
    requires In(tree, r, j, plan[x]) && In(tree, r, i, plan[y])
    ensures y < x
  {
    assert FeedsIn(tree, r, j, i, plan[x], plan[y]);
    assert Earlier(tree, plan[x], plan[y]);
  }
}
