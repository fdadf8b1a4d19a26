/**
  * Scattered steps run their slices concurrently. The units of work are then the slices, and one
  * completion per step that its consumers wait for; a planned recipe fixes the result at this level too.
  */
module SliceSchedule {
  import opened Collections
  import opened Paths
  import opened ScatterSweep
  import opened Graph
  import opened Schedule
  import opened HazardSpec
  import opened RecipePlan

  /** One slice of a step (the only one, for a step that is not scattered), or a step's completion. */
  datatype Unit = Part(step: nat, slice: nat) | Completion(step: nat)

  predicate IsUnit(work: seq<StepWork>, u: Unit) {
    u.step < |work| && (u.Part? ==> u.slice < |work[u.step].Slices()|)
  }

  /** A completion waits for its slices; slices and completions wait for the completions of dependencies. */
  predicate UnitWaits(pg: RecipeGraph, u: Unit, v: Unit) {
    && u.step < |pg.deps|
    && if v.Part? then u == Completion(v.step) else v.step in pg.deps[u.step]
  }

  /** What a unit asked for; completions touch nothing. */
  function UnitRequests(work: seq<StepWork>, u: Unit): seq<Access>
    requires IsUnit(work, u)
  {
    if u.Part? then Requested(work[u.step].Slices()[u.slice]) else []
  }

  ghost predicate UnitAt(units: seq<Unit>, u: Unit, k: nat) {
    k < |units| && units[k] == u
  }

  /** The units of a recipe, each once, and the graph of what they wait for. */
  ghost predicate IsUnitGraph(ug: RecipeGraph, units: seq<Unit>, pg: RecipeGraph, work: seq<StepWork>) {
    && |ug.deps| == |units| && |pg.deps| == |work| && Distinct(units)
    && (forall k: nat :: k < |units| ==> IsUnit(work, units[k]))
    && (forall u :: IsUnit(work, u) ==> exists k: nat :: UnitAt(units, u, k))
    && (forall j: nat, k: nat :: j < |units| && k < |units| ==> (k in ug.deps[j] <==> UnitWaits(pg, units[j], units[k])))
  }

  ghost function AllRequests(work: seq<StepWork>, units: seq<Unit>): (r: seq<seq<Access>>)
    requires forall k: nat :: k < |units| ==> IsUnit(work, units[k])
    ensures |r| == |units| && forall k: nat :: k < |units| ==> r[k] == UnitRequests(work, units[k])
  {
    seq(|units|, k requires 0 <= k < |units| => UnitRequests(work, units[k]))
  }

  lemma {:induction false} SliceIsRequested(slices: seq<Slice>, k: nat, a: Access)
    requires k < |slices| && a in Requested(slices[k])
    ensures a in RequestedSlices(slices)
  {
    if k < |slices| - 1 {
      SliceIsRequested(slices[..|slices| - 1], k, a);
    }
  }

  /** A walk of waiting steps lifts to a walk of units that ends with any unit of the last step. */
  lemma {:induction false} WalkLifts(ug: RecipeGraph, units: seq<Unit>, pg: RecipeGraph, work: seq<StepWork>, p: seq<nat>, u: nat, v: nat)
    requires IsUnitGraph(ug, units, pg, work) && Walk(pg, p) && |p| >= 2 && u < |units| && v < |units|
    requires units[u].step == p[0] && units[v].step == p[|p| - 1] && units[v].Part?
    ensures WaitsFor(ug, u, v)
    decreases |p|
  {
    assert p[1] in pg.deps[p[0]];
    assert IsUnit(work, Completion(p[1]));
    var c: nat :| UnitAt(units, Completion(p[1]), c);
    assert UnitWaits(pg, units[u], units[c]);
    if |p| == 2 {
      assert UnitWaits(pg, units[c], units[v]);
      assert Walk(ug, [u, c, v]);
    } else {
      assert Walk(pg, p[1..]);
      WalkLifts(ug, units, pg, work, p[1..], c, v);
      var q :| |q| >= 2 && Walk(ug, q) && q[0] == c && q[|q| - 1] == v;
      assert Walk(ug, [u] + q);
    }
  }

  /** Slices of an acceptable step do not conflict. */
  lemma SlicesApart(w: StepWork, s: nat, t: nat)
    requires Acceptable(w) && s < |w.Slices()| && t < |w.Slices()| && s != t
    ensures !AnyConflict(Requested(w.Slices()[s]), Requested(w.Slices()[t]))
  {
    var per := PerSlice(w.Slices());
    assert AnyConflict(per[s], per[t]) ==> Collision(per);
  }

  lemma PartsConflict(ug: RecipeGraph, units: seq<Unit>, pg: RecipeGraph, work: seq<StepWork>, u: nat, v: nat)
    requires IsUnitGraph(ug, units, pg, work) && AllAcceptable(work) && ConflictsOrdered(pg, StepRequests(work))
    requires u < |units| && v < |units| && u != v && AnyConflict(UnitRequests(work, units[u]), UnitRequests(work, units[v]))
    ensures WaitsFor(ug, u, v) || WaitsFor(ug, v, u)
  {
    var x, y := units[u], units[v];
    assert Acceptable(work[x.step]);
    var a, b :| a in UnitRequests(work, x) && b in UnitRequests(work, y) && Conflict(a, b);
    if x.step == y.step {
      SlicesApart(work[x.step], x.slice, y.slice);
    } else {
      SliceIsRequested(work[x.step].Slices(), x.slice, a);
      SliceIsRequested(work[y.step].Slices(), y.slice, b);
      assert AnyConflict(StepRequests(work)[x.step], StepRequests(work)[y.step]);
      if WaitsFor(pg, x.step, y.step) {
        var p :| |p| >= 2 && Walk(pg, p) && p[0] == x.step && p[|p| - 1] == y.step;
        WalkLifts(ug, units, pg, work, p, u, v);
      } else {
        var p :| |p| >= 2 && Walk(pg, p) && p[0] == y.step && p[|p| - 1] == x.step;
        WalkLifts(ug, units, pg, work, p, v, u);
      }
    }
  }

  /** Every conflict between units is ordered: slices of one step never conflict, steps are ordered. */
  lemma UnitConflictsOrdered(ug: RecipeGraph, units: seq<Unit>, pg: RecipeGraph, work: seq<StepWork>)
    requires IsUnitGraph(ug, units, pg, work) && AllAcceptable(work) && ConflictsOrdered(pg, StepRequests(work))
    ensures ConflictsOrdered(ug, AllRequests(work, units))
  {
    var requests := AllRequests(work, units);
    forall u: nat, v: nat | u < |requests| && v < |requests| && u != v && AnyConflict(requests[u], requests[v])
      ensures WaitsFor(ug, u, v) || WaitsFor(ug, v, u)
    {
      PartsConflict(ug, units, pg, work, u, v);
    }
  }

  /**
    * However the executor interleaves slices and completions, as long as it keeps the planned graph
    * and each slice stays within what it asked for, the store and every slice end up the same.
    */
  lemma SliceInterleavingsAgree(ug: RecipeGraph, units: seq<Unit>, pg: RecipeGraph, g: RecipeGraph, names: seq<Name>, work: seq<StepWork>,
                                order: seq<nat>, actions: seq<Action>, xs: seq<nat>, ys: seq<nat>, w: World)
    requires IsPlan(pg, g, names, work, order) && IsUnitGraph(ug, units, pg, work)
    requires Workload(ug, AllRequests(work, units), actions)
    requires Interleaving(ug, actions, xs) && Interleaving(ug, actions, ys)
    ensures Run(actions, xs, w) == Run(actions, ys, w)
  {
    PlanOrdersRequests(pg, g, names, work, order);
    UnitConflictsOrdered(ug, units, pg, work);
    InterleavingsAgree(ug, AllRequests(work, units), actions, xs, ys, w);
  }
}
