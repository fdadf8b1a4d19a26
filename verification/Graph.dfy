/** The recipe graph and its stable topological order. */
module Graph {
  import opened Collections
  import opened Lexicographic

  datatype RecipeGraph = RecipeGraph(deps: seq<set<nat>>, dependents: seq<set<nat>>) {
    /** Both edge directions describe one graph on the step indices. */
    ghost predicate WellFormed() {
      && |deps| == |dependents|
      && (forall i, j :: 0 <= i < |deps| && j in deps[i] ==> j < |deps|)
      && (forall i, j :: 0 <= i < |deps| && j in dependents[i] ==> j < |deps|)
      && (forall i, j :: 0 <= i < |deps| && 0 <= j < |deps| ==> (j in deps[i] <==> i in dependents[j]))
    }
  }

  function Elems(xs: seq<nat>): set<nat> {
    set x | x in xs
  }

  lemma ElemsSnoc(xs: seq<nat>, x: nat)
    ensures Elems(xs + [x]) == Elems(xs) + {x}
  {
  }

  /** A step not yet ordered whose dependencies all are. */
  ghost predicate Ready(g: RecipeGraph, done: set<nat>, k: nat) {
    k < |g.deps| && k !in done && g.deps[k] <= done
  }

  /** Every entry was ready when it was taken. */
  ghost predicate Respects(g: RecipeGraph, xs: seq<nat>) {
    forall i :: 0 <= i < |xs| ==> Ready(g, Elems(xs[..i]), xs[i])
  }

  /** A complete order of the steps in which dependencies come first. */
  ghost predicate TopologicalOrder(g: RecipeGraph, xs: seq<nat>) {
    Respects(g, xs) && |xs| == |g.deps|
  }

  /** Every entry was the least step that was ready. */
  ghost predicate Greedy(g: RecipeGraph, xs: seq<nat>) {
    forall i, k :: 0 <= i < |xs| && Ready(g, Elems(xs[..i]), k) ==> xs[i] <= k
  }

  ghost predicate Walk(g: RecipeGraph, p: seq<nat>) {
    && (forall i :: 0 <= i < |p| ==> p[i] < |g.deps|)
    && (forall i :: 0 <= i < |p| - 1 ==> p[i + 1] in g.deps[p[i]])
  }

  ghost predicate Cycle(g: RecipeGraph, p: seq<nat>) {
    |p| >= 2 && Walk(g, p) && p[0] == p[|p| - 1]
  }

  ghost predicate Acyclic(g: RecipeGraph) {
    forall p :: !Cycle(g, p)
  }

  lemma RespectsSnoc(g: RecipeGraph, xs: seq<nat>, x: nat)
    requires Respects(g, xs) && Ready(g, Elems(xs), x)
    ensures Respects(g, xs + [x])
  {
    forall i | 0 <= i < |xs + [x]| ensures Ready(g, Elems((xs + [x])[..i]), (xs + [x])[i]) {
      assert (xs + [x])[..i] == xs[..i];
      if i == |xs| {
        assert xs[..i] == xs;
      }
    }
  }

  lemma GreedySnoc(g: RecipeGraph, xs: seq<nat>, x: nat)
    requires Greedy(g, xs) && forall k :: Ready(g, Elems(xs), k) ==> x <= k
    ensures Greedy(g, xs + [x])
  {
    forall i, k | 0 <= i < |xs + [x]| && Ready(g, Elems((xs + [x])[..i]), k) ensures (xs + [x])[i] <= k {
      assert (xs + [x])[..i] == xs[..i];
      if i == |xs| {
        assert xs[..i] == xs;
      }
    }
  }

  /** The entries are distinct step indices. */
  lemma RespectsShape(g: RecipeGraph, xs: seq<nat>)
    requires Respects(g, xs)
    ensures forall i, j :: 0 <= i < j < |xs| ==> xs[i] != xs[j]
    ensures forall x :: x in xs ==> x < |g.deps|
  {
    forall i, j | 0 <= i < j < |xs| ensures xs[i] != xs[j] {
      assert xs[..j][i] == xs[i];
      assert Ready(g, Elems(xs[..j]), xs[j]);
    }
    forall x | x in xs ensures x < |g.deps| {
      var i :| 0 <= i < |xs| && xs[i] == x;
      assert Ready(g, Elems(xs[..i]), xs[i]);
    }
  }

  lemma {:induction false} DistinctCount(xs: seq<nat>, n: nat)
    requires forall i, j :: 0 <= i < j < |xs| ==> xs[i] != xs[j]
    requires forall x :: x in xs ==> x < n
    ensures |Elems(xs)| == |xs| <= n
  {
    BelowCount(n);
    DistinctElems(xs);
    assert Elems(xs) <= Below(n);
    SubsetSize(Elems(xs), Below(n));
  }

  lemma {:induction false} DistinctElems(xs: seq<nat>)
    requires forall i, j :: 0 <= i < j < |xs| ==> xs[i] != xs[j]
    ensures |Elems(xs)| == |xs|
  {
    if xs != [] {
      var init, last := xs[..|xs| - 1], xs[|xs| - 1];
      DistinctElems(init);
      assert xs == init + [last];
      ElemsSnoc(init, last);
      assert last !in Elems(init);
    }
  }

  function Below(n: nat): (r: set<nat>)
    ensures forall k: nat :: k in r <==> k < n
  {
    if n == 0 then {} else Below(n - 1) + {n - 1}
  }

  lemma {:induction false} BelowCount(n: nat)
    ensures |Below(n)| == n
  {
    if n > 0 {
      BelowCount(n - 1);
    }
  }

  /** A topological order lists every step. */
  lemma OrderIsPermutation(g: RecipeGraph, xs: seq<nat>)
    requires TopologicalOrder(g, xs)
    ensures Elems(xs) == Below(|g.deps|)
    ensures forall i, j :: 0 <= i < j < |xs| ==> xs[i] != xs[j]
  {
    RespectsShape(g, xs);
    DistinctElems(xs);
    BelowCount(|g.deps|);
    SubsetSize(Elems(xs), Below(|g.deps|));
  }

  // A complete order excludes cycles, and a stuck order exhibits one.

  lemma {:induction false} WalkDescends(g: RecipeGraph, xs: seq<nat>, p: seq<nat>, i: nat) returns (j: nat)
    requires TopologicalOrder(g, xs) && Walk(g, p) && |p| >= 2 && i < |xs| && xs[i] == p[0]
    ensures j < i && xs[j] == p[|p| - 1]
    decreases |p|
  {
    assert Ready(g, Elems(xs[..i]), xs[i]);
    assert p[1] in g.deps[p[0]];
    assert p[1] in Elems(xs[..i]);
    var k :| 0 <= k < i && xs[..i][k] == p[1];
    if |p| == 2 {
      j := k;
    } else {
      j := WalkDescends(g, xs, p[1..], k);
    }
  }

  lemma OrderExcludesCycles(g: RecipeGraph, xs: seq<nat>)
    requires TopologicalOrder(g, xs)
    ensures Acyclic(g)
  {
    forall p ensures !Cycle(g, p) {
      if Cycle(g, p) {
        OrderIsPermutation(g, xs);
        assert p[0] in Below(|g.deps|);
        assert p[0] in Elems(xs);
        var i :| 0 <= i < |xs| && xs[i] == p[0];
        var j := WalkDescends(g, xs, p, i);
        RespectsShape(g, xs);
      }
    }
  }

  /** Where every remaining step waits for a remaining step, walks of any length exist. */
  lemma {:induction false} StuckWalk(g: RecipeGraph, left: set<nat>, n: nat) returns (p: seq<nat>)
    requires left != {} && forall k :: k in left ==> k < |g.deps| && g.deps[k] * left != {}
    ensures |p| == n + 1 && Walk(g, p) && p[n] in left
  {
    if n == 0 {
      var k :| k in left;
      p := [k];
    } else {
      p := StuckWalk(g, left, n - 1);
      var next :| next in g.deps[p[n - 1]] * left;
      p := p + [next];
    }
  }

  lemma Pigeonhole(p: seq<nat>, n: nat) returns (i: nat, j: nat)
    requires |p| > n && forall x :: x in p ==> x < n
    ensures i < j < |p| && p[i] == p[j]
  {
    if i0, j0 :| 0 <= i0 < j0 < |p| && p[i0] == p[j0] {
      i, j := i0, j0;
    } else {
      DistinctCount(p, n);
      assert false;
    }
  }

  lemma Missing(xs: seq<nat>, n: nat) returns (k: nat)
    requires |xs| < n && forall i, j :: 0 <= i < j < |xs| ==> xs[i] != xs[j]
    ensures k < n && k !in xs
  {
    DistinctElems(xs);
    BelowCount(n);
    if Below(n) <= Elems(xs) {
      SubsetSize(Below(n), Elems(xs));
    }
    k :| k in Below(n) && k !in Elems(xs);
  }

  lemma StuckMeansCycle(g: RecipeGraph, xs: seq<nat>)
    requires g.WellFormed() && Respects(g, xs) && |xs| < |g.deps|
    requires forall k :: !Ready(g, Elems(xs), k)
    ensures !Acyclic(g)
  {
    var n := |g.deps|;
    RespectsShape(g, xs);
    var first := Missing(xs, n);
    var left := Below(n) - Elems(xs);
    assert first in left;
    forall k | k in left ensures g.deps[k] * left != {} {
      assert !Ready(g, Elems(xs), k);
      var d :| d in g.deps[k] && d !in Elems(xs);
      assert d in g.deps[k] * left;
    }
    var p := StuckWalk(g, left, n);
    var i, j := Pigeonhole(p, n);
    assert Cycle(g, p[i..j + 1]);
  }

  /** The greedy order is the least of all topological orders. */
  lemma {:induction false} GreedyIsLeast(g: RecipeGraph, xs: seq<nat>, ys: seq<nat>, k: nat)
    requires Greedy(g, xs) && TopologicalOrder(g, ys) && |xs| == |ys| && k <= |xs| && xs[..k] == ys[..k]
    ensures LexLe((x: nat, y: nat) => x <= y, xs[k..], ys[k..])
    decreases |xs| - k
  {
    if k < |xs| {
      assert Ready(g, Elems(ys[..k]), ys[k]);
      if xs[k] == ys[k] {
        assert xs[..k + 1] == xs[..k] + [xs[k]] && ys[..k + 1] == ys[..k] + [ys[k]];
        GreedyIsLeast(g, xs, ys, k + 1);
        assert xs[k..][1..] == xs[k + 1..] && ys[k..][1..] == ys[k + 1..];
      }
    }
  }

  /** The stable order is lexicographically least among all orders that respect the dependencies. */
  lemma StableOrderIsLeast(g: RecipeGraph, xs: seq<nat>, ys: seq<nat>)
    requires Greedy(g, xs) && TopologicalOrder(g, xs) && TopologicalOrder(g, ys)
    ensures LexLe((x: nat, y: nat) => x <= y, xs, ys)
  {
    GreedyIsLeast(g, xs, ys, 0);
    assert xs[0..] == xs && ys[0..] == ys;
  }

  /** When every dependency points to a lower index the stable order is declaration order. */
  lemma {:induction false} GreedyIsIdentity(g: RecipeGraph, xs: seq<nat>, k: nat)
    requires Greedy(g, xs) && TopologicalOrder(g, xs) && k <= |xs|
    requires forall i, d :: 0 <= i < |g.deps| && d in g.deps[i] ==> d < i
    ensures forall i :: 0 <= i < k ==> xs[i] == i
  {
    if k > 0 {
      GreedyIsIdentity(g, xs, k - 1);
      var done := Elems(xs[..k - 1]);
      forall i: nat | i < k - 1 ensures i in done {
        assert xs[..k - 1][i] == i;
      }
      forall x | x in done ensures x < k - 1 {
        var i :| 0 <= i < k - 1 && xs[..k - 1][i] == x;
      }
      assert Ready(g, done, k - 1);
      assert Ready(g, done, xs[k - 1]);
    }
  }

  /** Steps that no wait is left for, in a graph with the given remaining waits. */
  ghost function ReadySet(g: RecipeGraph, done: set<nat>): set<nat> {
    set k | k in Below(|g.deps|) && Ready(g, done, k)
  }

  /** The least element of the ready heap. */
  method Least(ready: set<nat>) returns (index: nat)
    requires ready != {}
    ensures index in ready && forall k :: k in ready ==> index <= k
  {
    index :| index in ready;
    var left := ready - {index};
    while left != {}
      invariant left <= ready && index in ready
      invariant forall k :: k in ready && k !in left ==> index <= k
    {
      var k :| k in left;
      left := left - {k};
      if k < index {
        index := k;
      }
    }
  }

  /** How many of `s` lie below `n`. */
  ghost function CountIn(s: set<nat>, n: nat): nat {
    if n == 0 then 0 else CountIn(s, n - 1) + if n - 1 in s then 1 else 0
  }

  lemma {:induction false} CountCard(s: set<nat>, n: nat)
    requires forall x :: x in s ==> x < n
    ensures CountIn(s, n) == |s|
    decreases n
  {
    if n > 0 {
      CountCard(s - {n - 1}, n - 1);
      CountAgrees(s, s - {n - 1}, n - 1);
    }
  }

  lemma {:induction false} CountAgrees(s: set<nat>, t: set<nat>, n: nat)
    requires forall x :: x < n ==> (x in s <==> x in t)
    ensures CountIn(s, n) == CountIn(t, n)
  {
    if n > 0 {
      CountAgrees(s, t, n - 1);
    }
  }

  lemma {:induction false} CountRemove(s: set<nat>, x: nat, n: nat)
    requires x in s && x < n
    ensures CountIn(s, n) == CountIn(s - {x}, n) + 1
  {
    if x == n - 1 {
      CountAgrees(s, s - {x}, n - 1);
    } else {
      CountRemove(s, x, n - 1);
    }
  }

  lemma {:induction false} CountZero(s: set<nat>, n: nat)
    ensures CountIn(s, n) == 0 <==> forall x :: x in s ==> x >= n
  {
    if n > 0 {
      CountZero(s, n - 1);
    }
  }

  /** The waits that remain for `k` once `done` is ordered. */
  ghost function Waits(g: RecipeGraph, done: set<nat>, k: nat): nat
    requires k < |g.deps|
  {
    CountIn(g.deps[k] - done, |g.deps|)
  }

  lemma WaitsDrop(g: RecipeGraph, done: set<nat>, index: nat, k: nat)
    requires g.WellFormed() && index < |g.deps| && index !in done && k < |g.deps|
    ensures Waits(g, done + {index}, k) == Waits(g, done, k) - if k in g.dependents[index] then 1 else 0
  {
    assert g.deps[k] - (done + {index}) == (g.deps[k] - done) - {index};
    if k in g.dependents[index] {
      CountRemove(g.deps[k] - done, index, |g.deps|);
    } else {
      CountAgrees(g.deps[k] - done, g.deps[k] - (done + {index}), |g.deps|);
    }
  }

  lemma NoWaitsIsReady(g: RecipeGraph, done: set<nat>, k: nat)
    requires g.WellFormed() && k < |g.deps| && k !in done
    ensures Waits(g, done, k) == 0 <==> Ready(g, done, k)
  {
    CountZero(g.deps[k] - done, |g.deps|);
    if d :| d in g.deps[k] && d !in done {
      assert d in g.deps[k] - done;
    }
  }

  /** In-degrees count the remaining waits. */
  ghost predicate Counts(g: RecipeGraph, done: set<nat>, indegree: seq<int>) {
    |indegree| == |g.deps| && forall k :: 0 <= k < |indegree| ==> indegree[k] == Waits(g, done, k)
  }

  lemma NothingDone(g: RecipeGraph, indegree: seq<int>, ready: set<nat>)
    requires g.WellFormed() && |indegree| == |g.deps| && forall k :: 0 <= k < |indegree| ==> indegree[k] == |g.deps[k]|
    requires ready == set k | 0 <= k < |indegree| && indegree[k] == 0
    ensures Counts(g, {}, indegree) && ready == ReadySet(g, {})
  {
    forall k | 0 <= k < |g.deps| ensures indegree[k] == Waits(g, {}, k) && (k in ready <==> k in ReadySet(g, {})) {
      assert g.deps[k] - {} == g.deps[k];
      CountCard(g.deps[k], |g.deps|);
      NoWaitsIsReady(g, {}, k);
    }
  }

  /** With no step ready, the order is complete exactly on an acyclic graph. */
  lemma NoneReady(g: RecipeGraph, ordered: seq<nat>)
    requires g.WellFormed() && Respects(g, ordered) && ReadySet(g, Elems(ordered)) == {}
    ensures |ordered| == |g.deps| <==> Acyclic(g)
  {
    var done := Elems(ordered);
    assert forall k :: Ready(g, done, k) ==> k in ReadySet(g, done);
    if |ordered| == |g.deps| {
      OrderExcludesCycles(g, ordered);
    } else {
      RespectsShape(g, ordered);
      DistinctCount(ordered, |g.deps|);
      StuckMeansCycle(g, ordered);
    }
  }

  /** The state of the ordering loop after `ordered` has been taken. */
  ghost predicate Progress(g: RecipeGraph, ordered: seq<nat>, indegree: seq<int>, ready: set<nat>) {
    && Respects(g, ordered) && Greedy(g, ordered)
    && Counts(g, Elems(ordered), indegree)
    && ready == ReadySet(g, Elems(ordered))
  }

  /** What was taken is closed under dependencies. */
  ghost predicate Closed(g: RecipeGraph, done: set<nat>) {
    forall k :: k in done ==> k < |g.deps| && g.deps[k] <= done
  }

  lemma {:induction false} RespectsClosed(g: RecipeGraph, xs: seq<nat>)
    requires Respects(g, xs)
    ensures Closed(g, Elems(xs))
  {
    forall k | k in Elems(xs) ensures k < |g.deps| && g.deps[k] <= Elems(xs) {
      var i :| 0 <= i < |xs| && xs[i] == k;
      assert Ready(g, Elems(xs[..i]), xs[i]);
    }
  }

  lemma Taken(g: RecipeGraph, ordered: seq<nat>, indegree: seq<int>, ready: set<nat>, index: nat)
    requires Progress(g, ordered, indegree, ready) && index in ready && forall k :: k in ready ==> index <= k
    ensures Ready(g, Elems(ordered), index) && index in Below(|g.deps|) - Elems(ordered)
    ensures Respects(g, ordered + [index]) && Greedy(g, ordered + [index])
    ensures Elems(ordered + [index]) == Elems(ordered) + {index}
    ensures Closed(g, Elems(ordered))
  {
    forall k | Ready(g, Elems(ordered), k) ensures index <= k {
      assert k in ready;
    }
    RespectsSnoc(g, ordered, index);
    GreedySnoc(g, ordered, index);
    RespectsClosed(g, ordered);
  }

  /**
    * A stable topological order preferring declaration order. It lists every step exactly when
    * the graph has no cycle.
    */
  method TopologicalIndices(g: RecipeGraph) returns (ordered: seq<nat>)
    requires g.WellFormed()
    ensures Respects(g, ordered) && Greedy(g, ordered)
    ensures |ordered| == |g.deps| <==> Acyclic(g)
  {
    var n := |g.deps|;
    var indegree := new int[n](i requires 0 <= i < n => |g.deps[i]|);
    var ready: set<nat> := set k | 0 <= k < n && indegree[k] == 0;
    NothingDone(g, indegree[..], ready);
    ordered := [];
    assert Elems(ordered) == {};
    while ready != {}
      invariant Progress(g, ordered, indegree[..], ready)
      decreases Below(n) - Elems(ordered)
    {
      var index := Least(ready);
      Taken(g, ordered, indegree[..], ready, index);
      ready := Release(g, index, Elems(ordered), indegree, ready - {index});
      ordered := ordered + [index];
    }
    NoneReady(g, ordered);
  }

  /** In-degrees while the dependents of `index` not in `left` have been lowered. */
  ghost predicate Lowered(g: RecipeGraph, done: set<nat>, indegree: seq<int>, lowered: set<nat>) {
    |indegree| == |g.deps| && forall k :: 0 <= k < |indegree| ==> indegree[k] == Waits(g, done, k) - if k in lowered then 1 else 0
  }

  lemma AllLowered(g: RecipeGraph, index: nat, done: set<nat>, indegree: seq<int>)
    requires g.WellFormed() && index < |g.deps| && index !in done
    requires Lowered(g, done, indegree, g.dependents[index])
    ensures Counts(g, done + {index}, indegree)
  {
    forall k | 0 <= k < |g.deps| ensures indegree[k] == Waits(g, done + {index}, k) {
      WaitsDrop(g, done, index, k);
    }
  }

  /** A dependent of a step just taken becomes ready exactly when that was its last wait. */
  lemma Unblocked(g: RecipeGraph, index: nat, done: set<nat>, dependent: nat)
    requires g.WellFormed() && Closed(g, done) && Ready(g, done, index) && dependent in g.dependents[index]
    ensures dependent < |g.deps| && dependent !in done + {index}
    ensures Waits(g, done, dependent) == 1 <==> dependent in ReadySet(g, done + {index})
  {
    WaitsDrop(g, done, index, dependent);
    assert index in g.deps[dependent];
    NoWaitsIsReady(g, done + {index}, dependent);
  }

  lemma OthersStayReady(g: RecipeGraph, index: nat, done: set<nat>)
    requires g.WellFormed() && Closed(g, done) && Ready(g, done, index)
    ensures ReadySet(g, done) - {index} == ReadySet(g, done + {index}) - g.dependents[index]
  {
    forall k | k in g.dependents[index] ensures k !in ReadySet(g, done) {
      assert index in g.deps[k];
    }
  }

  lemma LowerOne(g: RecipeGraph, index: nat, done: set<nat>, indegree: seq<int>, left: set<nat>, lowered: set<nat>, dependent: nat)
    requires g.WellFormed() && Closed(g, done) && Ready(g, done, index)
    requires left !! lowered && left + lowered == g.dependents[index] && dependent in left
    requires Lowered(g, done, indegree, lowered)
    ensures Lowered(g, done, indegree[dependent := indegree[dependent] - 1], lowered + {dependent})
    ensures
      var ready := ReadySet(g, done + {index});
      ready - (left - {dependent}) == (ready - left) + if indegree[dependent] == 1 then {dependent} else {}
  {
    Unblocked(g, index, done, dependent);
  }

  /** Lower the in-degree of every dependent of `index`; those that reach zero become ready. */
  method Release(g: RecipeGraph, index: nat, ghost done: set<nat>, indegree: array<int>, ready: set<nat>) returns (ready': set<nat>)
    requires g.WellFormed() && Closed(g, done) && Ready(g, done, index)
    requires Counts(g, done, indegree[..]) && ready == ReadySet(g, done) - {index}
    modifies indegree
    ensures Counts(g, done + {index}, indegree[..]) && ready' == ReadySet(g, done + {index})
  {
    ready' := ready;
    var left: set<nat> := g.dependents[index];
    ghost var lowered: set<nat> := {};
    OthersStayReady(g, index, done);
    while left != {}
      invariant left !! lowered && left + lowered == g.dependents[index]
      invariant Lowered(g, done, indegree[..], lowered)
      invariant ready' == ReadySet(g, done + {index}) - left
    {
      var dependent :| dependent in left;
      LowerOne(g, index, done, indegree[..], left, lowered, dependent);
      ghost var before := indegree[..];
      indegree[dependent] := indegree[dependent] - 1;
      assert indegree[..] == before[dependent := before[dependent] - 1];
      if indegree[dependent] == 0 {
        ready' := ready' + {dependent};
      }
      left, lowered := left - {dependent}, lowered + {dependent};
    }
    assert lowered == g.dependents[index];
    AllLowered(g, index, done, indegree[..]);
  }

  /** Add the reverse of every dependency, so both edge directions describe one graph. */
  method Pair(deps: seq<set<nat>>) returns (g: RecipeGraph)
    requires forall i, j :: 0 <= i < |deps| && j in deps[i] ==> j < |deps|
    ensures g.WellFormed() && g.deps == deps
  {
    var dependents := new set<nat>[|deps|](_ => {});
    for child := 0 to |deps|
      invariant forall j :: 0 <= j < |deps| ==> forall c :: c in dependents[j] <==> 0 <= c < child && j in deps[c]
    {
      var left: set<nat> := deps[child];
      while left != {}
        invariant left <= deps[child]
        invariant forall j :: 0 <= j < |deps| ==>
                                forall c :: c in dependents[j] <==> (0 <= c < child && j in deps[c]) || (c == child && j in deps[child] - left)
      {
        var parent :| parent in left;
        left := left - {parent};
        dependents[parent] := dependents[parent] + {child};
      }
    }
    g := RecipeGraph(deps, dependents[..]);
  }
}
