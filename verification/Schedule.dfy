/** Why a graph that orders every conflict fixes the result of a run, however it is scheduled. */
module Schedule {
  import opened Collections
  import opened Paths
  import opened Graph

  type Bytes = seq<nat>

  /** The store: what lies at each path. */
  type Files = map<Path, Bytes>

  /** Everything a run changes: the shared store and each step's private memory. */
  datatype World = World(files: Files, memory: map<nat, Bytes>) {
    function MemoryOf(owner: nat): Bytes {
      if owner in memory then memory[owner] else []
    }
  }

  type Effect = (Files, Bytes) -> (Files, Bytes)

  /** One atomic piece of one step's work. */
  datatype Action = Action(owner: nat, run: Effect)

  ghost predicate Covers(accesses: seq<Access>, p: Path) {
    exists a :: a in accesses && Under(p, a.path)
  }

  ghost predicate MayWrite(accesses: seq<Access>, p: Path) {
    exists a :: a in accesses && a.writes && Under(p, a.path)
  }

  ghost predicate SameAt(f: Files, g: Files, p: Path) {
    (p in f <==> p in g) && (p in f ==> f[p] == g[p])
  }

  /** Nothing outside the write subtrees changes. */
  ghost predicate WritesWithin(run: Effect, accesses: seq<Access>) {
    forall f: Files, m: Bytes, p: Path :: !MayWrite(accesses, p) ==> SameAt(run(f, m).0, f, p)
  }

  ghost predicate AgreeOn(f: Files, g: Files, accesses: seq<Access>) {
    forall p: Path :: Covers(accesses, p) ==> SameAt(f, g, p)
  }

  /** The outcome depends only on the recorded subtrees and the private memory. */
  ghost predicate ReadsWithin(run: Effect, accesses: seq<Access>) {
    forall f: Files, g: Files, m: Bytes :: AgreeOn(f, g, accesses) ==>
                                             run(f, m).1 == run(g, m).1 && AgreeOn(run(f, m).0, run(g, m).0, accesses)
  }

  ghost predicate Contained(run: Effect, accesses: seq<Access>) {
    WritesWithin(run, accesses) && ReadsWithin(run, accesses)
  }

  function Perform(w: World, a: Action): World {
    var out := a.run(w.files, w.MemoryOf(a.owner));
    World(out.0, w.memory[a.owner := out.1])
  }

  function Act(actions: seq<Action>, k: nat, w: World): World {
    if k < |actions| then Perform(w, actions[k]) else w
  }

  /** Perform the actions with the given ids in order. */
  function Run(actions: seq<Action>, ids: seq<nat>, w: World): World {
    if ids == [] then w else Run(actions, ids[1..], Act(actions, ids[0], w))
  }

  lemma SameEverywhere(f: Files, g: Files)
    requires forall p :: SameAt(f, g, p)
    ensures f == g
  {
    forall p ensures p in f <==> p in g {
      assert SameAt(f, g, p);
    }
    forall p | p in f ensures f[p] == g[p] {
      assert SameAt(f, g, p);
    }
  }

  /** A non-conflicting write leaves everything another step may look at as it was. */
  lemma OutsideTouch(f: Files, m: Bytes, run: Effect, mine: seq<Access>, theirs: seq<Access>)
    requires Contained(run, mine) && !AnyConflict(mine, theirs)
    ensures AgreeOn(run(f, m).0, f, theirs)
  {
    forall p | Covers(theirs, p) ensures SameAt(run(f, m).0, f, p) {
      if MayWrite(mine, p) {
        var a :| a in mine && a.writes && Under(p, a.path);
        var b :| b in theirs && Under(p, b.path);
        OverlapOfCommonDescendant(a.path, b.path, p);
        assert Conflict(a, b);
      }
    }
  }

  /** Actions of two steps without a conflict commute. */
  lemma ActionsCommute(w: World, a: Action, b: Action, mine: seq<Access>, theirs: seq<Access>)
    requires a.owner != b.owner && Contained(a.run, mine) && Contained(b.run, theirs)
    requires !AnyConflict(mine, theirs)
    ensures Perform(Perform(w, a), b) == Perform(Perform(w, b), a)
  {
    var f, ma, mb := w.files, w.MemoryOf(a.owner), w.MemoryOf(b.owner);
    var fa, fb := a.run(f, ma).0, b.run(f, mb).0;
    assert !AnyConflict(theirs, mine) by {
      if x, y :| x in theirs && y in mine && Conflict(x, y) {
        assert Conflict(y, x);
      }
    }
    OutsideTouch(f, ma, a.run, mine, theirs);
    OutsideTouch(f, mb, b.run, theirs, mine);
    var ab, ba := b.run(fa, mb), a.run(fb, ma);
    assert ab.1 == b.run(f, mb).1 && AgreeOn(ab.0, fb, theirs);
    assert ba.1 == a.run(f, ma).1 && AgreeOn(ba.0, fa, mine);
    forall p ensures SameAt(ab.0, ba.0, p) {
      OutsideTouch(fa, mb, b.run, theirs, mine);
      OutsideTouch(fb, ma, a.run, mine, theirs);
      if Covers(mine, p) {
        assert SameAt(ba.0, fa, p) && SameAt(ab.0, fa, p);
      } else if Covers(theirs, p) {
        assert SameAt(ab.0, fb, p) && SameAt(ba.0, fb, p);
      } else {
        assert !MayWrite(mine, p) && !MayWrite(theirs, p);
        assert SameAt(fa, f, p) && SameAt(fb, f, p) && SameAt(ab.0, fa, p) && SameAt(ba.0, fb, p);
      }
    }
    SameEverywhere(ab.0, ba.0);
    assert Perform(Perform(w, a), b).memory == Perform(Perform(w, b), a).memory;
  }

  // Two linear extensions of one order agree.

  ghost predicate Commute(actions: seq<Action>, a: nat, b: nat) {
    forall w :: Act(actions, b, Act(actions, a, w)) == Act(actions, a, Act(actions, b, w))
  }

  type Order = set<(nat, nat)>

  /** Nothing is listed after something that must follow it. */
  ghost predicate Extends(xs: seq<nat>, before: Order) {
    forall i, j :: 0 <= i < j < |xs| ==> (xs[j], xs[i]) !in before
  }

  ghost predicate UnorderedCommute(actions: seq<Action>, before: Order) {
    forall a: nat, b: nat :: a != b && (a, b) !in before && (b, a) !in before ==> Commute(actions, a, b)
  }

  lemma {:induction false} MoveToFront(actions: seq<Action>, skipped: seq<nat>, x: nat, rest: seq<nat>, w: World)
    requires forall k :: k in skipped ==> Commute(actions, k, x)
    ensures Run(actions, skipped + [x] + rest, w) == Run(actions, [x] + skipped + rest, w)
    decreases |skipped|
  {
    if skipped != [] {
      var k, more := skipped[0], skipped[1..];
      assert Commute(actions, k, x);
      MoveToFront(actions, more, x, rest, Act(actions, k, w));
      assert (skipped + [x] + rest)[1..] == more + [x] + rest;
      assert ([x] + more + rest)[1..] == more + rest;
      assert ([x] + skipped + rest)[1..] == skipped + rest;
      assert (skipped + rest)[1..] == more + rest;
    } else {
      assert skipped + [x] + rest == [x] + skipped + rest;
    }
  }

  lemma {:induction false} ExtensionsAgree(actions: seq<Action>, before: Order, xs: seq<nat>, ys: seq<nat>, w: World)
    requires UnorderedCommute(actions, before)
    requires Distinct(xs) && Distinct(ys) && Elems(xs) == Elems(ys)
    requires Extends(xs, before) && Extends(ys, before)
    ensures Run(actions, xs, w) == Run(actions, ys, w)
    decreases |xs|
  {
    if ys != [] {
      assert ys[0] in Elems(xs);
    }
    if xs != [] {
      assert xs[0] in Elems(ys);
      var k :| 0 <= k < |ys| && ys[k] == xs[0];
      RunsFirst(actions, before, xs, ys, k, w);
      WithoutFirst(xs, ys, k);
      StillExtends(before, xs, ys, k);
      ExtensionsAgree(actions, before, xs[1..], Without(ys, k), Act(actions, xs[0], w));
    }
  }

  function Without(ys: seq<nat>, k: nat): seq<nat>
    requires k < |ys|
  {
    ys[..k] + ys[k + 1..]
  }

  /** The first item of one extension may as well run first in the other. */
  lemma RunsFirst(actions: seq<Action>, before: Order, xs: seq<nat>, ys: seq<nat>, k: nat, w: World)
    requires UnorderedCommute(actions, before) && Distinct(ys) && Elems(xs) == Elems(ys) && Extends(xs, before) && Extends(ys, before)
    requires xs != [] && k < |ys| && ys[k] == xs[0]
    ensures Run(actions, ys, w) == Run(actions, Without(ys, k), Act(actions, xs[0], w))
  {
    SkippedCommute(actions, before, xs, ys, k);
    RunFromFront(actions, ys, k, w);
  }

  lemma StillExtends(before: Order, xs: seq<nat>, ys: seq<nat>, k: nat)
    requires Extends(xs, before) && Extends(ys, before) && xs != [] && k < |ys|
    ensures Extends(xs[1..], before) && Extends(Without(ys, k), before)
  {
    forall i, j | 0 <= i < j < |xs[1..]| ensures (xs[1..][j], xs[1..][i]) !in before {
      assert xs[1..][j] == xs[j + 1] && xs[1..][i] == xs[i + 1];
    }
    ExtendsWithout(ys, k, before);
  }

  /** An item that commutes with everything before it may as well run first. */
  lemma RunFromFront(actions: seq<Action>, ys: seq<nat>, k: nat, w: World)
    requires k < |ys| && forall y :: y in ys[..k] ==> Commute(actions, y, ys[k])
    ensures Run(actions, ys, w) == Run(actions, Without(ys, k), Act(actions, ys[k], w))
  {
    var skipped, x, rest := ys[..k], ys[k], ys[k + 1..];
    assert ys == skipped + [x] + rest;
    MoveToFront(actions, skipped, x, rest, w);
    assert ([x] + skipped + rest)[1..] == skipped + rest;
  }

  /** What another extension lists before our first item commutes with it. */
  lemma SkippedCommute(actions: seq<Action>, before: Order, xs: seq<nat>, ys: seq<nat>, k: nat)
    requires UnorderedCommute(actions, before)
    requires Distinct(ys) && Elems(xs) == Elems(ys) && Extends(xs, before) && Extends(ys, before)
    requires xs != [] && k < |ys| && ys[k] == xs[0]
    ensures forall y :: y in ys[..k] ==> Commute(actions, y, xs[0])
  {
    forall y | y in ys[..k] ensures Commute(actions, y, xs[0]) {
      var j :| 0 <= j < k && ys[j] == y;
      assert y in Elems(xs);
      var i :| 0 <= i < |xs| && xs[i] == y;
      assert (xs[i], xs[0]) !in before && (ys[k], ys[j]) !in before;
    }
  }

  lemma ExtendsWithout(ys: seq<nat>, k: nat, before: Order)
    requires k < |ys| && Extends(ys, before)
    ensures Extends(Without(ys, k), before)
  {
    var rest := Without(ys, k);
    forall i, j | 0 <= i < j < |rest| ensures (rest[j], rest[i]) !in before {
      assert rest[i] == ys[if i < k then i else i + 1] && rest[j] == ys[if j < k then j else j + 1];
    }
  }

  lemma WithoutFirst(xs: seq<nat>, ys: seq<nat>, k: nat)
    requires xs != [] && k < |ys| && ys[k] == xs[0]
    requires Distinct(xs) && Distinct(ys) && Elems(xs) == Elems(ys)
    ensures Distinct(xs[1..]) && Distinct(Without(ys, k)) && Elems(xs[1..]) == Elems(Without(ys, k))
  {
    var rest := Without(ys, k);
    forall y | y in Elems(xs[1..]) ensures y in Elems(rest) {
      var i :| 0 <= i < |xs[1..]| && xs[1..][i] == y;
      assert xs[i + 1] == y && y in Elems(ys);
      var j :| 0 <= j < |ys| && ys[j] == y;
      assert rest[if j < k then j else j - 1] == y;
    }
    forall y | y in Elems(rest) ensures y in Elems(xs[1..]) {
      var i :| 0 <= i < |rest| && rest[i] == y;
      var j := if i < k then i else i + 1;
      assert ys[j] == y && y in Elems(xs);
      var l :| 0 <= l < |xs| && xs[l] == y;
      assert xs[1..][l - 1] == y;
    }
  }

  // Steps made of actions, and the schedules an executor may choose.

  /** `p[0]` waits, through every step in between, for the last step of the walk. */
  ghost predicate WaitsFor(g: RecipeGraph, i: nat, d: nat) {
    exists p :: |p| >= 2 && Walk(g, p) && p[0] == i && p[|p| - 1] == d
  }

  ghost predicate HasAction(actions: seq<Action>, i: nat) {
    exists k :: 0 <= k < |actions| && actions[k].owner == i
  }

  /** Each step is some work of its own, kept within the accesses recorded for it. */
  ghost predicate Workload(g: RecipeGraph, accesses: seq<seq<Access>>, actions: seq<Action>) {
    && |accesses| == |g.deps|
    && (forall k :: 0 <= k < |actions| ==> actions[k].owner < |g.deps| && Contained(actions[k].run, accesses[actions[k].owner]))
    && (forall i :: 0 <= i < |g.deps| ==> HasAction(actions, i))
  }

  /** Every two conflicting steps are ordered by the graph. */
  ghost predicate ConflictsOrdered(g: RecipeGraph, accesses: seq<seq<Access>>) {
    && |accesses| == |g.deps|
    && forall i, j :: 0 <= i < |accesses| && 0 <= j < |accesses| && i != j && AnyConflict(accesses[i], accesses[j]) ==>
                        WaitsFor(g, i, j) || WaitsFor(g, j, i)
  }

  /**
    * An interleaving of all actions: each step's own actions stay in order, and a step starts
    * only after everything it directly depends on has finished.
    */
  ghost predicate Interleaving(g: RecipeGraph, actions: seq<Action>, xs: seq<nat>) {
    && Distinct(xs) && Elems(xs) == Below(|actions|)
    && (forall i, j :: 0 <= i < j < |xs| && xs[i] < |actions| && xs[j] < |actions| && actions[xs[i]].owner == actions[xs[j]].owner ==> xs[i] < xs[j])
    && (forall i, j :: 0 <= i < j < |xs| && xs[i] < |actions| && xs[j] < |actions| && actions[xs[i]].owner < |g.deps| ==>
                         actions[xs[j]].owner !in g.deps[actions[xs[i]].owner])
  }

  /** What every interleaving must keep: program order within a step, and waiting steps last. */
  ghost function MustPrecede(g: RecipeGraph, actions: seq<Action>): Order {
    set a, b | a in Below(|actions|) && b in Below(|actions|) && a != b &&
               (if actions[a].owner == actions[b].owner then a < b else WaitsFor(g, actions[b].owner, actions[a].owner)) :: (a, b)
  }

  /** Waiting is transitive, so a step also follows the steps it waits for indirectly. */
  lemma {:induction false} InterleavingWaits(g: RecipeGraph, accesses: seq<seq<Access>>, actions: seq<Action>, xs: seq<nat>, p: seq<nat>, i: nat, j: nat)
    requires Workload(g, accesses, actions) && Interleaving(g, actions, xs)
    requires |p| >= 2 && Walk(g, p)
    requires i < |xs| && j < |xs| && xs[i] < |actions| && xs[j] < |actions|
    requires actions[xs[i]].owner == p[0] && actions[xs[j]].owner == p[|p| - 1]
    requires i != j
    ensures j < i
    decreases |p|
  {
    assert p[1] in g.deps[p[0]];
    if |p| > 2 {
      assert HasAction(actions, p[1]);
      var k :| 0 <= k < |actions| && actions[k].owner == p[1];
      assert k in Elems(xs);
      var m :| 0 <= m < |xs| && xs[m] == k;
      if m == i {
        assert p[0] == p[1];
      }
      if m != j {
        InterleavingWaits(g, accesses, actions, xs, p[1..], m, j);
      }
    }
  }

  lemma InterleavingExtends(g: RecipeGraph, accesses: seq<seq<Access>>, actions: seq<Action>, xs: seq<nat>)
    requires Workload(g, accesses, actions) && Interleaving(g, actions, xs)
    ensures Extends(xs, MustPrecede(g, actions))
  {
    forall i, j | 0 <= i < j < |xs| ensures (xs[j], xs[i]) !in MustPrecede(g, actions) {
      if (xs[j], xs[i]) in MustPrecede(g, actions) && actions[xs[j]].owner != actions[xs[i]].owner {
        var p :| |p| >= 2 && Walk(g, p) && p[0] == actions[xs[i]].owner && p[|p| - 1] == actions[xs[j]].owner;
        InterleavingWaits(g, accesses, actions, xs, p, i, j);
      }
    }
  }

  /**
    * Schedule independence: when the graph orders every conflict, every interleaving that the
    * graph allows leaves the same store and the same step memories.
    */
  lemma InterleavingsAgree(g: RecipeGraph, accesses: seq<seq<Access>>, actions: seq<Action>, xs: seq<nat>, ys: seq<nat>, w: World)
    requires Workload(g, accesses, actions) && ConflictsOrdered(g, accesses)
    requires Interleaving(g, actions, xs) && Interleaving(g, actions, ys)
    ensures Run(actions, xs, w) == Run(actions, ys, w)
  {
    var before := MustPrecede(g, actions);
    forall a: nat, b: nat | a != b && (a, b) !in before && (b, a) !in before ensures Commute(actions, a, b) {
      if a < |actions| && b < |actions| {
        var i, j := actions[a].owner, actions[b].owner;
        assert i != j && !WaitsFor(g, i, j) && !WaitsFor(g, j, i);
        forall v: World ensures Perform(Perform(v, actions[a]), actions[b]) == Perform(Perform(v, actions[b]), actions[a]) {
          ActionsCommute(v, actions[a], actions[b], accesses[i], accesses[j]);
        }
      }
    }
    InterleavingExtends(g, accesses, actions, xs);
    InterleavingExtends(g, accesses, actions, ys);
    ExtensionsAgree(actions, before, xs, ys, w);
  }

  /** Running whole steps one after another is the interleaving with one action per step. */
  lemma OrderIsInterleaving(g: RecipeGraph, accesses: seq<seq<Access>>, actions: seq<Action>, xs: seq<nat>)
    requires g.WellFormed() && |actions| == |g.deps| && (forall i :: 0 <= i < |actions| ==> actions[i].owner == i)
    requires TopologicalOrder(g, xs)
    ensures Interleaving(g, actions, xs)
  {
    OrderIsPermutation(g, xs);
    forall i, j | 0 <= i < j < |xs| ensures xs[j] !in g.deps[xs[i]] {
      assert Ready(g, Elems(xs[..i]), xs[i]);
    }
  }
}
