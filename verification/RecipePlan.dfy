/** Planning a whole recipe: hazard edges are added to the declared graph before dispatch. */
module RecipePlan {
  import opened Paths
  import opened HazardSpec
  import opened HazardPlanner
  import opened ScatterSweep
  import opened Graph
  import opened Schedule

  /** What one call of the planner is given. */
  datatype Slice = Slice(datasets: seq<DatasetAccess>, generic: seq<Access>)

  /** A step is planned as a whole, or slice by slice when it scatters a dataset reader. */
  datatype StepWork = Whole(slice: Slice) | Scattered(slices: seq<Slice>) {
    function Slices(): seq<Slice> {
      if Whole? then [slice] else slices
    }
  }

  function PlannedSlices(slices: seq<Slice>): seq<Access> {
    if slices == [] then []
    else
      var last := slices[|slices| - 1];
      PlannedSlices(slices[..|slices| - 1]) + PlannedAccesses(last.datasets, last.generic)
  }

  /** All accesses a step asked for, before generic paths under a dataset resource are dropped. */
  function Requested(slice: Slice): seq<Access> {
    slice.generic + DatasetResources(slice.datasets)
  }

  function RequestedSlices(slices: seq<Slice>): seq<Access> {
    if slices == [] then [] else RequestedSlices(slices[..|slices| - 1]) + Requested(slices[|slices| - 1])
  }

  /** The requested accesses of every slice of a scattered step, one list per slice. */
  function PerSlice(slices: seq<Slice>): (r: seq<seq<Access>>)
    ensures |r| == |slices| && forall i :: 0 <= i < |slices| ==> r[i] == Requested(slices[i])
  {
    seq(|slices|, i requires 0 <= i < |slices| => Requested(slices[i]))
  }

  /** None of the first `n` slices hides a write. */
  predicate CleanSlices(slices: seq<Slice>, n: nat)
    requires n <= |slices|
  {
    n == 0 || (CleanSlices(slices, n - 1) && !HidesWrite(slices[n - 1].datasets, slices[n - 1].generic))
  }

  lemma CleanMore(slices: seq<Slice>, n: nat)
    requires n < |slices| && CleanSlices(slices, n) && !HidesWrite(slices[n].datasets, slices[n].generic)
    ensures CleanSlices(slices, n + 1)
  {
  }

  ghost predicate Acceptable(w: StepWork) {
    && CleanSlices(w.Slices(), |w.Slices()|)
    && (w.Scattered? ==> !Collision(PerSlice(w.slices)))
  }

  // Merging a slice's dataset resources for the collision check.

  /** Flatten resolved resources to one entry per path, exclusive when any declaration is. */
  method WorkspaceAccesses(datasets: seq<DatasetAccess>) returns (accesses: seq<Access>)
    ensures (forall a :: a in accesses ==> a in DatasetResources(datasets)) && Summarizes(accesses, DatasetResources(datasets))
    ensures forall i, j :: 0 <= i < j < |accesses| ==> accesses[i].path != accesses[j].path
  {
    var merged: map<Path, bool> := map[];
    for i := 0 to |datasets|
      invariant Merged(merged, DatasetResources(datasets[..i]))
    {
      var d := datasets[i];
      ghost var before := DatasetResources(datasets[..i]);
      ghost var mine := seq(|d.resources|, k requires 0 <= k < |d.resources| => Access(d.resources[k], d.RequiresExclusive()));
      assert mine[..0] == [] && before + [] == before;
      for k := 0 to |d.resources|
        invariant Merged(merged, before + mine[..k])
      {
        var r := d.resources[k];
        PrefixSnoc(mine, k);
        MergeOne(merged, before + mine[..k], mine[k]);
        assert before + mine[..k + 1] == (before + mine[..k]) + [mine[k]];
        merged := merged[r := (r in merged && merged[r]) || d.RequiresExclusive()];
      }
      assert mine[..|mine|] == mine;
      assert datasets[..i + 1][..i] == datasets[..i];
    }
    assert datasets[..|datasets|] == datasets;
    accesses := Items(merged);
    forall a | a in DatasetResources(datasets) ensures Matched(a, accesses) {
      assert Access(a.path, merged[a.path]) in accesses;
    }
    forall a | a in accesses ensures a in DatasetResources(datasets) && Matched(a, DatasetResources(datasets)) {
      assert a == Access(a.path, merged[a.path]);
    }
  }

  ghost predicate Merged(merged: map<Path, bool>, all: seq<Access>) {
    && (forall p :: p in merged ==> Access(p, merged[p]) in all)
    && (forall a :: a in all ==> a.path in merged && (a.writes ==> merged[a.path]))
  }

  lemma MergeOne(merged: map<Path, bool>, all: seq<Access>, a: Access)
    requires Merged(merged, all)
    ensures Merged(merged[a.path := (a.path in merged && merged[a.path]) || a.writes], all + [a])
  {
  }

  method Items(merged: map<Path, bool>) returns (items: seq<Access>)
    ensures forall a :: a in items <==> a.path in merged && merged[a.path] == a.writes
    ensures forall i, j :: 0 <= i < j < |items| ==> items[i].path != items[j].path
  {
    items := [];
    var left := merged.Keys;
    while left != {}
      invariant left <= merged.Keys
      invariant forall a :: a in items <==> a.path in merged && a.path !in left && merged[a.path] == a.writes
      invariant forall i, j :: 0 <= i < j < |items| ==> items[i].path != items[j].path
    {
      var p :| p in left;
      items, left := items + [Access(p, merged[p])], left - {p};
    }
  }

  /** Some access of `xs` is at the same path and at least as strong. */
  ghost predicate Matched(a: Access, xs: seq<Access>) {
    exists b :: b in xs && b.path == a.path && (a.writes ==> b.writes)
  }

  lemma MatchedConflict(xs: seq<Access>, ys: seq<Access>, xs': seq<Access>, ys': seq<Access>)
    requires (forall a :: a in xs ==> Matched(a, ys)) && (forall a :: a in xs' ==> Matched(a, ys'))
    requires AnyConflict(xs, xs')
    ensures AnyConflict(ys, ys')
  {
    var a, b :| a in xs && b in xs' && Conflict(a, b);
    assert Matched(a, ys) && Matched(b, ys');
    var c :| c in ys && c.path == a.path && (a.writes ==> c.writes);
    var d :| d in ys' && d.path == b.path && (b.writes ==> d.writes);
    assert Conflict(c, d);
  }

  /** Each list matches every access of the other. */
  ghost predicate Summarizes(xs: seq<Access>, ys: seq<Access>) {
    (forall a :: a in xs ==> Matched(a, ys)) && (forall a :: a in ys ==> Matched(a, xs))
  }

  lemma SummaryKeepsConflict(xs: seq<Access>, ys: seq<Access>, xs': seq<Access>, ys': seq<Access>)
    requires Summarizes(xs, ys) && Summarizes(xs', ys')
    ensures AnyConflict(xs, xs') <==> AnyConflict(ys, ys')
  {
    if AnyConflict(xs, xs') {
      MatchedConflict(xs, ys, xs', ys');
    }
    if AnyConflict(ys, ys') {
      MatchedConflict(ys, xs, ys', xs');
    }
  }

  lemma SliceSummary(slice: Slice, merged: seq<Access>)
    requires Summarizes(merged, DatasetResources(slice.datasets))
    ensures Summarizes(slice.generic + merged, Requested(slice))
  {
    var xs, ys := slice.generic + merged, Requested(slice);
    forall a | a in xs ensures Matched(a, ys) {
      if a in slice.generic {
        assert a in ys;
      } else {
        var b :| b in DatasetResources(slice.datasets) && b.path == a.path && (a.writes ==> b.writes);
        assert b in ys;
      }
    }
    forall a | a in ys ensures Matched(a, xs) {
      if a in slice.generic {
        assert a in xs;
      } else {
        var b :| b in merged && b.path == a.path && (a.writes ==> b.writes);
        assert b in xs;
      }
    }
  }

  /** The collision check runs on merged resources; it decides the question for the requested ones. */
  method SlicesCollide(slices: seq<Slice>) returns (refused: bool)
    ensures refused <==> Collision(PerSlice(slices))
  {
    var resources: seq<seq<Access>> := [];
    for i := 0 to |slices|
      invariant |resources| == i
      invariant forall k :: 0 <= k < i ==> Summarizes(resources[k], Requested(slices[k]))
    {
      var merged := WorkspaceAccesses(slices[i].datasets);
      SliceSummary(slices[i], merged);
      resources := resources + [slices[i].generic + merged];
    }
    forall i, j | 0 <= i < |slices| && 0 <= j < |slices|
      ensures AnyConflict(resources[i], resources[j]) <==> AnyConflict(PerSlice(slices)[i], PerSlice(slices)[j])
    {
      SummaryKeepsConflict(resources[i], Requested(slices[i]), resources[j], Requested(slices[j]));
    }
    refused := ValidateScatterCollisions(resources);
  }

  // The history one recipe produces.

  /** The accesses recorded when the steps are planned in the given order. */
  ghost function RecipeHistory(names: seq<Name>, planned: seq<seq<Access>>, order: seq<nat>): seq<Event> {
    if order == [] then []
    else
      var i := order[|order| - 1];
      RecipeHistory(names, planned, order[..|order| - 1]) + StepEvents(names, planned, i)
  }

  function StepEvents(names: seq<Name>, planned: seq<seq<Access>>, i: nat): seq<Event> {
    if i < |names| && i < |planned| then EventsOf(names[i], planned[i]) else []
  }

  lemma HistoryMore(names: seq<Name>, planned: seq<seq<Access>>, init: seq<nat>, i: nat)
    ensures RecipeHistory(names, planned, init + [i]) == RecipeHistory(names, planned, init) + StepEvents(names, planned, i)
  {
    assert (init + [i])[..|init|] == init;
  }

  ghost function HazardDeps(names: seq<Name>, edges: Edges, i: nat): set<nat>
    requires i < |names|
  {
    set d | 0 <= d < |names| && (names[i], names[d]) in edges
  }

  /** The planned graph: the declared dependencies and the hazard edges of the planning order. */
  ghost predicate PlannedFrom(pg: RecipeGraph, g: RecipeGraph, names: seq<Name>, planned: seq<seq<Access>>, order: seq<nat>) {
    && pg.WellFormed() && |pg.deps| == |g.deps| == |names| == |planned|
    && forall i :: 0 <= i < |pg.deps| ==> pg.deps[i] == g.deps[i] + HazardDeps(names, EdgesAfter(RecipeHistory(names, planned, order)), i)
  }

  ghost predicate DistinctNames(names: seq<Name>) {
    forall i, j :: 0 <= i < j < |names| ==> names[i] != names[j]
  }

  /** Every event of the history belongs to one of the planned steps. */
  lemma {:induction false} HistorySteps(names: seq<Name>, planned: seq<seq<Access>>, order: seq<nat>, history: seq<Event>, t: nat) returns (k: nat)
    requires |names| == |planned| && history == RecipeHistory(names, planned, order) && t < |history|
    ensures k < |order| && order[k] < |names| && history[t].name == names[order[k]]
    decreases |order|
  {
    var init, i := order[..|order| - 1], order[|order| - 1];
    assert order == init + [i];
    HistoryMore(names, planned, init, i);
    var past := RecipeHistory(names, planned, init);
    if t < |past| {
      k := HistorySteps(names, planned, init, past, t);
    } else {
      k := |init|;
      assert history[t] == StepEvents(names, planned, i)[t - |past|];
    }
  }

  /** Every planned access of a planned step is in the history. */
  lemma {:induction false} StepsInHistory(names: seq<Name>, planned: seq<seq<Access>>, order: seq<nat>, history: seq<Event>, i: nat, a: Access) returns (t: nat)
    requires |names| == |planned| && i in order && i < |names| && a in planned[i]
    requires history == RecipeHistory(names, planned, order)
    ensures t < |history| && history[t] == Event(names[i], a)
    decreases |order|
  {
    var init, last := order[..|order| - 1], order[|order| - 1];
    assert order == init + [last];
    HistoryMore(names, planned, init, last);
    var past := RecipeHistory(names, planned, init);
    if i == last {
      var k := EventOfAccess(names[i], planned[i], a);
      t := |past| + k;
    } else {
      t := StepsInHistory(names, planned, init, past, i, a);
    }
  }

  lemma EventOfAccess(name: Name, accesses: seq<Access>, a: Access) returns (k: nat)
    requires a in accesses
    ensures k < |accesses| && EventsOf(name, accesses)[k] == Event(name, a)
  {
    k :| 0 <= k < |accesses| && accesses[k] == a;
  }

  /** An edge that planning one more step adds points from that step to an earlier one. */
  lemma LastHazard(names: seq<Name>, planned: seq<seq<Access>>, init: seq<nat>, past: seq<Event>, i: nat, a: Name, b: Name) returns (k: nat)
    requires |names| == |planned| && past == RecipeHistory(names, planned, init)
    requires (a, b) in EdgesAfter(past + StepEvents(names, planned, i)) && (a, b) !in EdgesAfter(past)
    ensures i < |names| && a == names[i] && k < |init| && init[k] < |names| && names[init[k]] == b
  {
    assert past + [] == past;
    var t := BatchEdgesLookBack(past, names[i], planned[i], a, b);
    k := HistorySteps(names, planned, init, past, t);
  }

  /** Hazard edges only point back along the planning order. */
  lemma {:induction false} HazardsPointBack(names: seq<Name>, planned: seq<seq<Access>>, order: seq<nat>, a: Name, b: Name) returns (j: nat, k: nat)
    requires |names| == |planned| && (a, b) in EdgesAfter(RecipeHistory(names, planned, order))
    ensures k < j < |order| && order[j] < |names| && order[k] < |names| && names[order[j]] == a && names[order[k]] == b
    decreases |order|
  {
    if order == [] {
      assert false;
    }
    var init, i := order[..|order| - 1], order[|order| - 1];
    assert order == init + [i];
    HistoryMore(names, planned, init, i);
    var past := RecipeHistory(names, planned, init);
    if (a, b) in EdgesAfter(past) {
      j, k := HazardsPointBack(names, planned, init, a, b);
    } else {
      k := LastHazard(names, planned, init, past, i, a, b);
      j := |init|;
    }
  }

  // What the planned graph guarantees.

  /**
    * Planning adds only edges that the stable order already satisfies: the graph stays acyclic, and the stable
    * order of the declared graph is also that of the planned one.
    */
  lemma PlannedKeepsOrder(pg: RecipeGraph, g: RecipeGraph, names: seq<Name>, planned: seq<seq<Access>>, order: seq<nat>)
    requires DistinctNames(names) && TopologicalOrder(g, order) && PlannedFrom(pg, g, names, planned, order)
    ensures TopologicalOrder(pg, order) && Acyclic(pg)
    ensures Greedy(g, order) ==> Greedy(pg, order)
  {
    OrderIsPermutation(g, order);
    assert forall done, i :: Ready(pg, done, i) ==> Ready(g, done, i);
    var history := RecipeHistory(names, planned, order);
    forall n | 0 <= n < |order| ensures Ready(pg, Elems(order[..n]), order[n]) {
      var i := order[n];
      assert Ready(g, Elems(order[..n]), i);
      forall d | d in HazardDeps(names, EdgesAfter(history), i) ensures d in Elems(order[..n]) {
        var j, k := HazardsPointBack(names, planned, order, names[i], names[d]);
        assert order[j] == i && order[k] == d;
        assert j == n;
        assert order[..n][k] == d;
      }
    }
    OrderExcludesCycles(pg, order);
  }

  /** Every hazard edge is a dependency of the planned graph. */
  ghost predicate EdgesInGraph(pg: RecipeGraph, names: seq<Name>, edges: Edges) {
    && |names| == |pg.deps|
    && (forall a, b :: (a, b) in edges ==> b in names)
    && (forall k, d :: 0 <= k < |names| && 0 <= d < |names| && (names[k], names[d]) in edges ==> d in pg.deps[k])
  }

  lemma PlannedHoldsEdges(pg: RecipeGraph, g: RecipeGraph, names: seq<Name>, planned: seq<seq<Access>>, order: seq<nat>)
    requires PlannedFrom(pg, g, names, planned, order)
    ensures EdgesInGraph(pg, names, EdgesAfter(RecipeHistory(names, planned, order)))
  {
    var edges := EdgesAfter(RecipeHistory(names, planned, order));
    forall a, b | (a, b) in edges ensures b in names {
      var j, k := HazardsPointBack(names, planned, order, a, b);
    }
    forall k, d | 0 <= k < |names| && 0 <= d < |names| && (names[k], names[d]) in edges ensures d in pg.deps[k] {
      assert d in HazardDeps(names, edges, k);
    }
  }

  lemma EventsOrdered(history: seq<Event>, s: nat, t: nat)
    requires s < |history| && t < |history| && s != t && Conflict(history[s].access, history[t].access)
    ensures Reaches(EdgesAfter(history), history[s].name, history[t].name) || Reaches(EdgesAfter(history), history[t].name, history[s].name)
  {
    if s < t {
      EveryConflictOrdered(history, s, t);
    } else {
      EveryConflictOrdered(history, t, s);
    }
  }

  /** A chain of hazard edges between two steps is a walk in the planned graph. */
  lemma {:induction false} ChainIsWalk(pg: RecipeGraph, names: seq<Name>, edges: Edges, i: nat, via: seq<Name>, j: nat) returns (p: seq<nat>)
    requires DistinctNames(names) && EdgesInGraph(pg, names, edges) && i < |names| && j < |names|
    requires Chain(edges, names[i], via, names[j])
    ensures |p| == |via| + 1 && Walk(pg, p) && p[0] == i && p[|p| - 1] == j
    decreases |via|
  {
    if via == [] {
      p := [i];
    } else {
      assert via[0] in names;
      var k :| 0 <= k < |names| && names[k] == via[0];
      var rest := ChainIsWalk(pg, names, edges, k, via[1..], j);
      p := [i] + rest;
    }
  }

  lemma ReachesIsWait(pg: RecipeGraph, names: seq<Name>, edges: Edges, i: nat, j: nat)
    requires DistinctNames(names) && EdgesInGraph(pg, names, edges) && i < |names| && j < |names| && i != j
    requires Reaches(edges, names[i], names[j])
    ensures WaitsFor(pg, i, j)
  {
    var via :| Chain(edges, names[i], via, names[j]);
    var p := ChainIsWalk(pg, names, edges, i, via, j);
  }

  /** Every two steps with conflicting planned accesses are ordered by the planned graph. */
  lemma PlannedOrdersConflicts(pg: RecipeGraph, g: RecipeGraph, names: seq<Name>, planned: seq<seq<Access>>, order: seq<nat>)
    requires DistinctNames(names) && TopologicalOrder(g, order) && PlannedFrom(pg, g, names, planned, order)
    ensures ConflictsOrdered(pg, planned)
  {
    OrderIsPermutation(g, order);
    var history := RecipeHistory(names, planned, order);
    PlannedHoldsEdges(pg, g, names, planned, order);
    forall i, j | 0 <= i < |planned| && 0 <= j < |planned| && i != j && AnyConflict(planned[i], planned[j])
      ensures WaitsFor(pg, i, j) || WaitsFor(pg, j, i)
    {
      var a, b :| a in planned[i] && b in planned[j] && Conflict(a, b);
      assert i in Elems(order) && j in Elems(order);
      var s := StepsInHistory(names, planned, order, history, i, a);
      var t := StepsInHistory(names, planned, order, history, j, b);
      assert names[i] != names[j];
      EventsOrdered(history, s, t);
      if Reaches(EdgesAfter(history), names[i], names[j]) {
        ReachesIsWait(pg, names, EdgesAfter(history), i, j);
      } else {
        ReachesIsWait(pg, names, EdgesAfter(history), j, i);
      }
    }
  }

  /** The planned accesses of every step. */
  function StepPlans(work: seq<StepWork>): (r: seq<seq<Access>>)
    ensures |r| == |work| && forall i :: 0 <= i < |work| ==> r[i] == PlannedSlices(work[i].Slices())
  {
    seq(|work|, i requires 0 <= i < |work| => PlannedSlices(work[i].Slices()))
  }

  /** Everything every step asked for. */
  function StepRequests(work: seq<StepWork>): (r: seq<seq<Access>>)
    ensures |r| == |work| && forall i :: 0 <= i < |work| ==> r[i] == RequestedSlices(work[i].Slices())
  {
    seq(|work|, i requires 0 <= i < |work| => RequestedSlices(work[i].Slices()))
  }

  lemma {:induction false} CleanInit(slices: seq<Slice>, n: nat)
    requires n < |slices| && CleanSlices(slices, n)
    ensures CleanSlices(slices[..|slices| - 1], n)
  {
    if n > 0 {
      CleanInit(slices, n - 1);
    }
  }

  lemma {:induction false} RequestsCovered(slices: seq<Slice>, a: Access)
    requires a in RequestedSlices(slices) && CleanSlices(slices, |slices|)
    ensures CoveredBy(a, PlannedSlices(slices))
  {
    var init, last := slices[..|slices| - 1], slices[|slices| - 1];
    if a in RequestedSlices(init) {
      CleanInit(slices, |init|);
      RequestsCovered(init, a);
      var b :| b in PlannedSlices(init) && Under(a.path, b.path) && (a.writes ==> b.writes);
      assert b in PlannedSlices(slices);
    } else {
      if a !in last.generic {
        DatasetResourcesOrigin(last.datasets, a);
      }
      FilterKeepsCoverage(last.datasets, last.generic, a);
      var b :| b in PlannedAccesses(last.datasets, last.generic) && Under(a.path, b.path) && (a.writes ==> b.writes);
      assert b in PlannedSlices(slices);
    }
  }

  ghost predicate AllAcceptable(work: seq<StepWork>) {
    forall i: nat {:trigger Acceptable(work[i])} :: i < |work| ==> Acceptable(work[i])
  }

  /** `ok` are the indices of the acceptable steps. */
  ghost predicate Accepts(ok: set<nat>, work: seq<StepWork>) {
    forall i: nat {:trigger Acceptable(work[i])} :: i < |work| ==> (i in ok <==> Acceptable(work[i]))
  }

  /** The filter in front of the planner loses no ordering either. */
  lemma RequestsOrdered(pg: RecipeGraph, work: seq<StepWork>)
    requires ConflictsOrdered(pg, StepPlans(work))
    requires AllAcceptable(work)
    ensures ConflictsOrdered(pg, StepRequests(work))
  {
    var requests := StepRequests(work);
    forall i, j | 0 <= i < |requests| && 0 <= j < |requests| && i != j && AnyConflict(requests[i], requests[j])
      ensures WaitsFor(pg, i, j) || WaitsFor(pg, j, i)
    {
      RequestsConflict(work, i, j);
    }
  }

  lemma RequestsConflict(work: seq<StepWork>, i: nat, j: nat)
    requires AllAcceptable(work)
    requires i < |work| && j < |work| && AnyConflict(StepRequests(work)[i], StepRequests(work)[j])
    ensures AnyConflict(StepPlans(work)[i], StepPlans(work)[j])
  {
    var a, b :| a in StepRequests(work)[i] && b in StepRequests(work)[j] && Conflict(a, b);
    assert Acceptable(work[i]) && Acceptable(work[j]);
    RequestsCovered(work[i].Slices(), a);
    RequestsCovered(work[j].Slices(), b);
    CoveredConflict(a, b, StepPlans(work)[i], StepPlans(work)[j]);
  }

  // The planner itself.

  datatype StepOutcome = ContractRefused | CollisionRefused | Ordered(dependencies: set<Name>)

  lemma {:induction false} DirtyStays(slices: seq<Slice>, i: nat, n: nat)
    requires i < n <= |slices| && HidesWrite(slices[i].datasets, slices[i].generic)
    ensures !CleanSlices(slices, n)
    decreases n
  {
    if i < n - 1 {
      DirtyStays(slices, i, n - 1);
    }
  }

  /** The planner has recorded the first `i` slices of a step, and `parents` is what it returned. */
  ghost predicate SlicesDone(history: seq<Event>, past: seq<Event>, name: Name, slices: seq<Slice>, i: nat, parents: set<Name>)
    requires i <= |slices|
  {
    && CleanSlices(slices, i)
    && history == past + EventsOf(name, PlannedSlices(slices[..i]))
    && parents == BatchRequires(past, name, PlannedSlices(slices[..i]))
  }

  method OrderSlice(planner: ResolvedAccessPlanner, ghost past: seq<Event>, name: Name, slices: seq<Slice>, i: nat, parents: set<Name>)
    returns (ok: bool, parents': set<Name>)
    requires planner.Valid() && planner.trackOrder && i < |slices| && SlicesDone(planner.history, past, name, slices, i, parents)
    modifies planner.Repr
    ensures planner.Valid() && fresh(planner.Repr - old(planner.Repr))
    ensures if ok then SlicesDone(planner.history, past, name, slices, i + 1, parents') else !CleanSlices(slices, |slices|)
  {
    NextSlice(past, name, slices, i);
    var decision := planner.OrderAfter(name, slices[i].datasets, slices[i].generic);
    if decision.Refused? {
      ok, parents' := false, parents;
      DirtyStays(slices, i, |slices|);
    } else {
      ok, parents' := true, parents + decision.dependencies;
      CleanMore(slices, i);
    }
  }

  /** One call of the planner per slice, all under one name. */
  method OrderSlices(planner: ResolvedAccessPlanner, name: Name, slices: seq<Slice>) returns (ok: bool, parents: set<Name>)
    requires planner.Valid() && planner.trackOrder
    modifies planner.Repr
    ensures planner.Valid() && fresh(planner.Repr - old(planner.Repr))
    ensures if ok then SlicesDone(planner.history, old(planner.history), name, slices, |slices|, parents) else !CleanSlices(slices, |slices|)
  {
    ok, parents := true, {};
    ghost var past := planner.history;
    assert past + EventsOf(name, PlannedSlices(slices[..0])) == past;
    for i := 0 to |slices|
      invariant planner.Valid() && fresh(planner.Repr - old(planner.Repr))
      invariant ok && SlicesDone(planner.history, past, name, slices, i, parents)
    {
      ok, parents := OrderSlice(planner, past, name, slices, i, parents);
      if !ok {
        break;
      }
    }
  }

  /** Plan one step: one call of the planner per slice, then the collision check across slices. */
  method OrderStep(planner: ResolvedAccessPlanner, name: Name, w: StepWork) returns (r: StepOutcome)
    requires planner.Valid() && planner.trackOrder
    modifies planner.Repr
    ensures planner.Valid() && fresh(planner.Repr - old(planner.Repr))
    ensures r.Ordered? <==> Acceptable(w)
    ensures r.ContractRefused? <==> !CleanSlices(w.Slices(), |w.Slices()|)
    ensures r.Ordered? ==>
              planner.history == old(planner.history) + EventsOf(name, PlannedSlices(w.Slices()))
              && r.dependencies == BatchRequires(old(planner.history), name, PlannedSlices(w.Slices()))
  {
    var slices := w.Slices();
    var ok, parents := OrderSlices(planner, name, slices);
    assert slices[..|slices|] == slices;
    var refused := false;
    if w.Scattered? {
      refused := SlicesCollide(w.slices);
    }
    r := if !ok then ContractRefused else if refused then CollisionRefused else Ordered(parents);
  }

  lemma NextSlice(past: seq<Event>, name: Name, slices: seq<Slice>, i: nat)
    requires i < |slices|
    ensures
      var done, next := PlannedSlices(slices[..i]), PlannedAccesses(slices[i].datasets, slices[i].generic);
      && past + EventsOf(name, PlannedSlices(slices[..i + 1])) == past + EventsOf(name, done) + EventsOf(name, next)
      && BatchRequires(past, name, PlannedSlices(slices[..i + 1]))
         == BatchRequires(past, name, done) + BatchRequires(past + EventsOf(name, done), name, next)
  {
    var done, next := PlannedSlices(slices[..i]), PlannedAccesses(slices[i].datasets, slices[i].generic);
    assert slices[..i + 1][..i] == slices[..i];
    assert PlannedSlices(slices[..i + 1]) == done + next;
    BatchConcat(past, name, done, next);
    EventsJoin(past, name, done, next);
  }

  datatype RecipeOutcome = StepRefused(step: nat, why: StepOutcome) | NonBackward | Planned(graph: RecipeGraph)

  /** Dependencies as planned so far: the declared ones and the hazard edges of the history. */
  ghost predicate DepsAfter(deps: seq<set<nat>>, g: RecipeGraph, names: seq<Name>, history: seq<Event>) {
    |deps| == |g.deps| == |names| && forall i :: 0 <= i < |deps| ==> deps[i] == g.deps[i] + HazardDeps(names, EdgesAfter(history), i)
  }

  /** One more planned step adds exactly its returned dependencies to its own entry. */
  lemma DepsNext(deps: seq<set<nat>>, g: RecipeGraph, names: seq<Name>, history: seq<Event>, i: nat, batch: seq<Access>, parents: set<nat>)
    requires DistinctNames(names) && DepsAfter(deps, g, names, history) && i < |deps|
    requires parents == set d | 0 <= d < |names| && names[d] in BatchRequires(history, names[i], batch)
    ensures DepsAfter(deps[i := deps[i] + parents], g, names, history + EventsOf(names[i], batch))
  {
    var edges := EdgesAfter(history + EventsOf(names[i], batch));
    BatchEdges(history, names[i], batch);
    forall k | 0 <= k < |deps| ensures HazardDeps(names, edges, k) == HazardDeps(names, EdgesAfter(history), k) + if k == i then parents else {} {
      forall d | 0 <= d < |names| && (names[k], names[d]) in edges && (names[k], names[d]) !in EdgesAfter(history) ensures k == i && d in parents {
        assert names[k] == names[i];
      }
    }
  }

  /** The names in a step's dependencies belong to steps that were planned before it. */
  lemma ParentsPlanned(names: seq<Name>, planned: seq<seq<Access>>, init: seq<nat>, name: Name, batch: seq<Access>, parent: Name) returns (k: nat)
    requires |names| == |planned| && parent in BatchRequires(RecipeHistory(names, planned, init), name, batch)
    ensures k < |init| && init[k] < |names| && names[init[k]] == parent
  {
    var past := RecipeHistory(names, planned, init);
    BatchLooksBack(past, name, batch, parent);
    var t :| 0 <= t < |past| && past[t].name == parent;
    k := HistorySteps(names, planned, init, past, t);
  }

  /** Map dependency names to indices, refusing any that does not come earlier in the order. */
  method ParentIndices(names: seq<Name>, byName: map<Name, nat>, rank: seq<nat>, index: nat, dependencies: set<Name>)
    returns (backward: bool, parents: set<nat>)
    requires DistinctNames(names) && |rank| == |names| && index < |names|
    requires (forall n :: n in byName ==> byName[n] < |names| && names[byName[n]] == n) && (forall i :: 0 <= i < |names| ==> names[i] in byName)
    requires forall n :: n in dependencies ==> n in byName
    ensures backward <==> forall n :: n in dependencies ==> rank[byName[n]] < rank[index]
    ensures backward ==> parents == set d | 0 <= d < |names| && names[d] in dependencies
  {
    backward, parents := true, {};
    var left := dependencies;
    while left != {}
      invariant left <= dependencies
      invariant backward <==> forall n :: n in dependencies - left ==> rank[byName[n]] < rank[index]
      invariant forall d :: d in parents <==> 0 <= d < |names| && names[d] in dependencies - left
    {
      var parent :| parent in left;
      left := left - {parent};
      if rank[byName[parent]] >= rank[index] {
        backward := false;
      }
      parents := parents + {byName[parent]};
    }
  }

  method IndexNames(names: seq<Name>) returns (byName: map<Name, nat>)
    requires DistinctNames(names)
    ensures forall n :: n in byName ==> byName[n] < |names| && names[byName[n]] == n
    ensures forall i :: 0 <= i < |names| ==> names[i] in byName
  {
    byName := map[];
    for i := 0 to |names|
      invariant forall n :: n in byName ==> byName[n] < i && names[byName[n]] == n
      invariant forall k :: 0 <= k < i ==> names[k] in byName
    {
      byName := byName[names[i] := i];
    }
  }

  method Ranks(order: seq<nat>, n: nat) returns (rank: seq<nat>)
    requires (forall i, j :: 0 <= i < j < |order| ==> order[i] != order[j]) && forall k :: 0 <= k < |order| ==> order[k] < n
    ensures |rank| == n && forall k :: 0 <= k < |order| ==> rank[order[k]] == k
  {
    rank := seq(n, _ => 0);
    for k := 0 to |order|
      invariant |rank| == n && forall l :: 0 <= l < k ==> rank[order[l]] == l
    {
      rank := rank[order[k] := k];
    }
  }

  /** The names and ranks the planning loop looks up. */
  ghost predicate Lookups(names: seq<Name>, byName: map<Name, nat>, order: seq<nat>, rank: seq<nat>) {
    && DistinctNames(names) && |rank| == |names|
    && (forall n :: n in byName ==> byName[n] < |names| && names[byName[n]] == n)
    && (forall i :: 0 <= i < |names| ==> names[i] in byName)
    && (forall k :: 0 <= k < |order| ==> order[k] < |names| && rank[order[k]] == k)
  }

  /** The first `n` steps of the order are planned. */
  ghost predicate StepsDone(history: seq<Event>, names: seq<Name>, g: RecipeGraph, plans: seq<seq<Access>>, ok: set<nat>, order: seq<nat>, n: nat,
                            deps: seq<set<nat>>)
    requires n <= |order|
  {
    && (forall k: nat :: k < n ==> order[k] in ok)
    && history == RecipeHistory(names, plans, order[..n])
    && DepsAfter(deps, g, names, history)
  }

  /** Add one planned step's hazard edges: they all point back in the order. */
  method LinkStep(names: seq<Name>, g: RecipeGraph, ghost plans: seq<seq<Access>>, ghost ok: set<nat>, order: seq<nat>, n: nat,
                  byName: map<Name, nat>, rank: seq<nat>, deps: seq<set<nat>>, dependencies: set<Name>, ghost past: seq<Event>)
    returns (backward: bool, deps': seq<set<nat>>)
    requires Lookups(names, byName, order, rank) && |plans| == |names| && n < |order| && StepsDone(past, names, g, plans, ok, order, n, deps)
    requires order[n] in ok && dependencies == BatchRequires(past, names[order[n]], plans[order[n]])
    ensures backward && StepsDone(past + EventsOf(names[order[n]], plans[order[n]]), names, g, plans, ok, order, n + 1, deps')
  {
    var index := order[n];
    forall parent | parent in dependencies ensures parent in byName && rank[byName[parent]] < rank[index] {
      var k := ParentsPlanned(names, plans, order[..n], names[index], plans[index], parent);
      assert order[k] == byName[parent];
    }
    var parents;
    backward, parents := ParentIndices(names, byName, rank, index, dependencies);
    PrefixSnoc(order, n);
    HistoryMore(names, plans, order[..n], index);
    DepsNext(deps, g, names, past, index, plans[index], parents);
    deps' := deps[index := deps[index] + parents];
  }

  /** Plan the next step of the order and add its hazard edges. */
  method PlanNext(planner: ResolvedAccessPlanner, names: seq<Name>, g: RecipeGraph, work: seq<StepWork>, ghost plans: seq<seq<Access>>,
                  ghost ok: set<nat>, order: seq<nat>, n: nat, byName: map<Name, nat>, rank: seq<nat>, deps: seq<set<nat>>)
    returns (r: StepOutcome, backward: bool, deps': seq<set<nat>>)
    requires planner.Valid() && planner.trackOrder && |work| == |names| && plans == StepPlans(work) && Accepts(ok, work)
    requires Lookups(names, byName, order, rank) && n < |order| && StepsDone(planner.history, names, g, plans, ok, order, n, deps)
    modifies planner.Repr
    ensures planner.Valid() && fresh(planner.Repr - old(planner.Repr))
    ensures backward
    ensures if r.Ordered? then StepsDone(planner.history, names, g, plans, ok, order, n + 1, deps') else order[n] !in ok
  {
    ghost var past := planner.history;
    r := OrderStep(planner, names[order[n]], work[order[n]]);
    backward, deps' := true, deps;
    if r.Ordered? {
      backward, deps' := LinkStep(names, g, plans, ok, order, n, byName, rank, deps, r.dependencies, past);
    }
  }

  /** Plan step after step until one is refused. */
  method PlanAll(planner: ResolvedAccessPlanner, names: seq<Name>, g: RecipeGraph, work: seq<StepWork>, ghost plans: seq<seq<Access>>,
                 ghost ok: set<nat>, order: seq<nat>, byName: map<Name, nat>, rank: seq<nat>)
    returns (outcome: StepOutcome, backward: bool, n: nat, deps: seq<set<nat>>)
    requires planner.Valid() && planner.trackOrder && |work| == |names| && plans == StepPlans(work) && Accepts(ok, work)
    requires Lookups(names, byName, order, rank) && StepsDone(planner.history, names, g, plans, ok, order, 0, g.deps)
    modifies planner.Repr
    ensures backward
    ensures if outcome.Ordered? then StepsDone(planner.history, names, g, plans, ok, order, |order|, deps) else n < |order| && order[n] !in ok
  {
    outcome, backward, n, deps := Ordered({}), true, 0, g.deps;
    while n < |order|
      invariant 0 <= n <= |order| && outcome.Ordered? && backward
      invariant planner.Valid() && fresh(planner.Repr - old(planner.Repr))
      invariant StepsDone(planner.history, names, g, plans, ok, order, n, deps)
    {
      outcome, backward, deps := PlanNext(planner, names, g, work, plans, ok, order, n, byName, rank, deps);
      if !outcome.Ordered? || !backward {
        return;
      }
      n := n + 1;
    }
  }

  /** A plan of an acceptable recipe, along this order of its steps. */
  ghost predicate IsPlan(pg: RecipeGraph, g: RecipeGraph, names: seq<Name>, work: seq<StepWork>, order: seq<nat>) {
    && DistinctNames(names) && |names| == |g.deps| == |work|
    && TopologicalOrder(g, order) && AllAcceptable(work)
    && PlannedFrom(pg, g, names, StepPlans(work), order)
  }

  /**
    * Plan a recipe whose declared graph is valid. The plan is refused exactly when a step's own
    * accesses are unacceptable; it never needs an edge against the stable order.
    */
  method PlanRecipe(names: seq<Name>, g: RecipeGraph, work: seq<StepWork>) returns (r: RecipeOutcome, ghost order: seq<nat>)
    requires g.WellFormed() && Acyclic(g) && DistinctNames(names) && |names| == |g.deps| == |work|
    ensures Greedy(g, order) && TopologicalOrder(g, order)
    ensures !r.NonBackward?
    ensures r.StepRefused? ==> r.step < |work| && !Acceptable(work[r.step])
    ensures r.Planned? <==> AllAcceptable(work)
    ensures r.Planned? ==> IsPlan(r.graph, g, names, work, order)
  {
    var topological := TopologicalIndices(g);
    order := topological;
    ghost var ok := set i: nat | i < |work| && Acceptable(work[i]);
    OrderCovers(g, order, ok);
    var byName := IndexNames(names);
    var rank := Ranks(topological, |names|);
    var planner := new ResolvedAccessPlanner(true);
    assert DepsAfter(g.deps, g, names, []);
    var outcome, backward, n, deps := PlanAll(planner, names, g, work, StepPlans(work), ok, topological, byName, rank);
    if !outcome.Ordered? {
      r := StepRefused(topological[n], outcome);
    } else if !backward {
      r := NonBackward;
    } else {
      var graph := Finish(planner.history, names, g, StepPlans(work), ok, topological, deps);
      r := Planned(graph);
    }
  }

  /** A topological order has valid, distinct entries, and covers every step. */
  lemma OrderCovers(g: RecipeGraph, order: seq<nat>, ok: set<nat>)
    requires TopologicalOrder(g, order)
    ensures (forall k: nat :: k < |order| ==> order[k] < |g.deps|) && forall i, j :: 0 <= i < j < |order| ==> order[i] != order[j]
    ensures (forall k: nat :: k < |order| ==> order[k] in ok) ==> forall i: nat :: i < |g.deps| ==> i in ok
  {
    OrderIsPermutation(g, order);
    forall k: nat | k < |order| ensures order[k] < |g.deps| {
      assert order[k] in Elems(order);
    }
    if forall k: nat :: k < |order| ==> order[k] in ok {
      forall i: nat | i < |g.deps| ensures i in ok {
        assert i in Elems(order);
        var k :| 0 <= k < |order| && order[k] == i;
      }
    }
  }

  method Finish(ghost history: seq<Event>, names: seq<Name>, g: RecipeGraph, ghost plans: seq<seq<Access>>, ghost ok: set<nat>,
                ghost order: seq<nat>, deps: seq<set<nat>>)
    returns (graph: RecipeGraph)
    requires g.WellFormed() && |names| == |g.deps| == |plans| && StepsDone(history, names, g, plans, ok, order, |order|, deps)
    ensures PlannedFrom(graph, g, names, plans, order)
  {
    assert order[..|order|] == order;
    graph := Pair(deps);
  }

  // Schedule independence of a planned recipe.

  lemma PlanOrdersRequests(pg: RecipeGraph, g: RecipeGraph, names: seq<Name>, work: seq<StepWork>, order: seq<nat>)
    requires IsPlan(pg, g, names, work, order)
    ensures ConflictsOrdered(pg, StepRequests(work))
  {
    PlannedOrdersConflicts(pg, g, names, StepPlans(work), order);
    RequestsOrdered(pg, work);
  }

  // The same in terms of what the steps declare.

  /** The slice declares this path. */
  ghost predicate Touches(slice: Slice, p: Path) {
    (exists g :: g in slice.generic && g.path == p) || exists d :: d in slice.datasets && p in d.resources
  }

  /** And allows nobody else to use it at the same time. */
  ghost predicate Reserves(slice: Slice, p: Path) {
    || (exists g :: g in slice.generic && g.path == p && g.writes)
    || exists d :: d in slice.datasets && p in d.resources && (d.mode != Read || d.exclusive)
  }

  ghost predicate ReservesFrom(x: Slice, y: Slice) {
    exists p, q :: Reserves(x, p) && Touches(y, q) && Overlap(p, q)
  }

  /** One of the slices reserves a path that overlaps one the other declares. */
  ghost predicate Clash(x: Slice, y: Slice) {
    ReservesFrom(x, y) || ReservesFrom(y, x)
  }

  lemma RequestedMeans(slice: Slice, p: Path)
    ensures Touches(slice, p) <==> exists a :: a in Requested(slice) && a.path == p
    ensures Reserves(slice, p) <==> exists a :: a in Requested(slice) && a.path == p && a.writes
  {
    forall a ensures a in Requested(slice) <==>
                     a in slice.generic || exists d :: d in slice.datasets && a.path in d.resources && (a.writes <==> d.mode != Read || d.exclusive)
    {
      DatasetResourcesAre(slice.datasets, a);
    }
    if d :| d in slice.datasets && p in d.resources {
      assert Access(p, d.mode != Read || d.exclusive) in Requested(slice);
    }
    if d :| d in slice.datasets && p in d.resources && (d.mode != Read || d.exclusive) {
      assert Access(p, true) in Requested(slice);
    }
  }

  lemma ReservesConflict(x: Slice, y: Slice)
    requires ReservesFrom(x, y)
    ensures AnyConflict(Requested(x), Requested(y)) && AnyConflict(Requested(y), Requested(x))
  {
    var p, q :| Reserves(x, p) && Touches(y, q) && Overlap(p, q);
    RequestedMeans(x, p);
    RequestedMeans(y, q);
    var a :| a in Requested(x) && a.path == p && a.writes;
    var b :| b in Requested(y) && b.path == q;
    assert Conflict(a, b) && Conflict(b, a);
  }

  /** Requested accesses conflict exactly when the declarations clash. */
  lemma ConflictIffClash(x: Slice, y: Slice)
    ensures AnyConflict(Requested(x), Requested(y)) <==> Clash(x, y)
  {
    if a, b :| a in Requested(x) && b in Requested(y) && Conflict(a, b) {
      RequestedMeans(x, a.path);
      RequestedMeans(y, b.path);
      assert Touches(x, a.path) && Touches(y, b.path);
      assert a.writes ==> ReservesFrom(x, y);
      assert b.writes ==> ReservesFrom(y, x);
    }
    if ReservesFrom(x, y) {
      ReservesConflict(x, y);
    }
    if ReservesFrom(y, x) {
      ReservesConflict(y, x);
    }
  }

  /** A step declares a READ dataset and a generic write at or below one of its resources. */
  ghost predicate Contradicts(slice: Slice) {
    exists d, g, r :: d in slice.datasets && d.mode == Read && g in slice.generic && g.writes && r in d.resources && Under(g.path, r)
  }

  lemma ContradictsHides(slice: Slice)
    ensures HidesWrite(slice.datasets, slice.generic) <==> Contradicts(slice)
  {
    HidesWriteIff(slice.datasets, slice.generic);
    if d, g :| d in slice.datasets && d.mode == Read && g in slice.generic && g.writes && UnderAny(g.path, d.resources) {
      var r :| r in d.resources && Under(g.path, r);
    }
    if d, g, r :| d in slice.datasets && d.mode == Read && g in slice.generic && g.writes && r in d.resources && Under(g.path, r) {
      assert UnderAny(g.path, d.resources);
    }
  }

  lemma {:induction false} CleanMeans(slices: seq<Slice>, n: nat)
    requires n <= |slices|
    ensures CleanSlices(slices, n) <==> forall k :: 0 <= k < n ==> !Contradicts(slices[k])
  {
    if n > 0 {
      CleanMeans(slices, n - 1);
      ContradictsHides(slices[n - 1]);
    }
  }

  /** A step is refused exactly when one of its slices contradicts itself or two of them clash. */
  lemma AcceptableMeans(w: StepWork)
    ensures Acceptable(w) <==>
            && (forall k :: 0 <= k < |w.Slices()| ==> !Contradicts(w.Slices()[k]))
            && (w.Scattered? ==> forall s, t :: 0 <= s < |w.slices| && 0 <= t < |w.slices| && s != t ==> !Clash(w.slices[s], w.slices[t]))
  {
    CleanMeans(w.Slices(), |w.Slices()|);
    if w.Scattered? {
      forall s, t | 0 <= s < |w.slices| && 0 <= t < |w.slices|
        ensures AnyConflict(PerSlice(w.slices)[s], PerSlice(w.slices)[t]) <==> Clash(w.slices[s], w.slices[t])
      {
        ConflictIffClash(w.slices[s], w.slices[t]);
      }
    }
  }

  lemma {:induction false} RequestedOfSlice(slices: seq<Slice>, x: Slice, a: Access)
    requires x in slices && a in Requested(x)
    ensures a in RequestedSlices(slices)
  {
    if x != slices[|slices| - 1] {
      RequestedOfSlice(slices[..|slices| - 1], x, a);
    }
  }

  /**
    * Whenever a dataset is written or read exclusively, or a generic path is written, the planned graph orders
    * the step before or after every other step that declares an overlapping path, in any of their slices.
    */
  lemma PlanOrdersClashes(pg: RecipeGraph, g: RecipeGraph, names: seq<Name>, work: seq<StepWork>, order: seq<nat>, i: nat, j: nat, x: Slice, y: Slice)
    requires IsPlan(pg, g, names, work, order) && i < |work| && j < |work| && i != j
    requires x in work[i].Slices() && y in work[j].Slices() && Clash(x, y)
    ensures WaitsFor(pg, i, j) || WaitsFor(pg, j, i)
  {
    PlanOrdersRequests(pg, g, names, work, order);
    ConflictIffClash(x, y);
    var a, b :| a in Requested(x) && b in Requested(y) && Conflict(a, b);
    RequestedOfSlice(work[i].Slices(), x, a);
    RequestedOfSlice(work[j].Slices(), y, b);
    assert AnyConflict(StepRequests(work)[i], StepRequests(work)[j]);
  }

  /** Nothing is reserved: every dataset is read and shared, every generic path read. */
  ghost predicate Shared(slice: Slice) {
    (forall d :: d in slice.datasets ==> d.mode == Read && !d.exclusive) && forall g :: g in slice.generic ==> !g.writes
  }

  lemma {:induction false} SharedReads(slices: seq<Slice>)
    requires forall x :: x in slices ==> Shared(x)
    ensures forall a :: a in PlannedSlices(slices) ==> !a.writes
  {
    if slices != [] {
      var last := slices[|slices| - 1];
      SharedReads(slices[..|slices| - 1]);
      assert last in slices && Shared(last);
      forall a | a in PlannedAccesses(last.datasets, last.generic) ensures !a.writes {
        PlannedAccessesAre(last.datasets, last.generic, a);
      }
    }
  }

  ghost predicate AllShared(work: seq<StepWork>) {
    forall i, x :: 0 <= i < |work| && x in work[i].Slices() ==> Shared(x)
  }

  lemma {:induction false} HistoryReads(names: seq<Name>, work: seq<StepWork>, order: seq<nat>)
    requires AllShared(work)
    ensures forall k :: 0 <= k < |RecipeHistory(names, StepPlans(work), order)| ==> !RecipeHistory(names, StepPlans(work), order)[k].access.writes
  {
    if order != [] {
      var i := order[|order| - 1];
      HistoryReads(names, work, order[..|order| - 1]);
      if i < |names| && i < |work| {
        SharedReads(work[i].Slices());
      }
    }
  }

  lemma SharedApart(x: Slice, y: Slice)
    requires Shared(x) && Shared(y)
    ensures !Contradicts(x) && !Clash(x, y)
  {
  }

  lemma SharedAccepted(w: StepWork)
    requires forall x :: x in w.Slices() ==> Shared(x)
    ensures Acceptable(w)
  {
    forall s, t | 0 <= s < |w.Slices()| && 0 <= t < |w.Slices()| ensures !Contradicts(w.Slices()[s]) && !Clash(w.Slices()[s], w.Slices()[t]) {
      SharedApart(w.Slices()[s], w.Slices()[t]);
    }
    AcceptableMeans(w);
  }

  /** Where nothing is reserved, no step is refused and no edge is added. */
  lemma SharedUnordered(pg: RecipeGraph, g: RecipeGraph, names: seq<Name>, work: seq<StepWork>, order: seq<nat>)
    requires AllShared(work)
    ensures AllAcceptable(work)
    ensures PlannedFrom(pg, g, names, StepPlans(work), order) ==> pg.deps == g.deps
  {
    forall i: nat | i < |work| ensures Acceptable(work[i]) {
      SharedAccepted(work[i]);
    }
    var history := RecipeHistory(names, StepPlans(work), order);
    HistoryReads(names, work, order);
    ReadsUnordered(history);
    if PlannedFrom(pg, g, names, StepPlans(work), order) {
      forall i | 0 <= i < |pg.deps| ensures pg.deps[i] == g.deps[i] {
        assert HazardDeps(names, {}, i) == {};
      }
    }
  }

  lemma ReadsUnordered(history: seq<Event>)
    requires forall k :: 0 <= k < |history| ==> !history[k].access.writes
    ensures EdgesAfter(history) == {}
  {
    if a, b :| (a, b) in EdgesAfter(history) {
      var i, j, k := EdgeOrigin(history, a, b);
    }
  }

  /**
    * However the executor interleaves the work of the steps, as long as it keeps the planned
    * graph and each step stays within what it asked for, the store and every step end up the same.
    */
  lemma PlannedInterleavingsAgree(pg: RecipeGraph, g: RecipeGraph, names: seq<Name>, work: seq<StepWork>, order: seq<nat>,
                                  actions: seq<Action>, xs: seq<nat>, ys: seq<nat>, w: World)
    requires IsPlan(pg, g, names, work, order) && Workload(pg, StepRequests(work), actions)
    requires Interleaving(pg, actions, xs) && Interleaving(pg, actions, ys)
    ensures Run(actions, xs, w) == Run(actions, ys, w)
  {
    PlanOrdersRequests(pg, g, names, work, order);
    InterleavingsAgree(pg, StepRequests(work), actions, xs, ys, w);
  }

  /** In particular every linear extension of the planned graph gives the result of the stable order. */
  lemma LinearExtensionsAgree(pg: RecipeGraph, g: RecipeGraph, names: seq<Name>, work: seq<StepWork>, order: seq<nat>,
                              actions: seq<Action>, xs: seq<nat>, w: World)
    requires IsPlan(pg, g, names, work, order) && Workload(pg, StepRequests(work), actions)
    requires |actions| == |pg.deps| && forall i :: 0 <= i < |actions| ==> actions[i].owner == i
    requires TopologicalOrder(pg, xs)
    ensures Run(actions, xs, w) == Run(actions, order, w)
  {
    PlannedKeepsOrder(pg, g, names, StepPlans(work), order);
    OrderIsInterleaving(pg, StepRequests(work), actions, xs);
    OrderIsInterleaving(pg, StepRequests(work), actions, order);
    PlannedInterleavingsAgree(pg, g, names, work, order, actions, xs, order, w);
  }
}
