/** The scatter collision sweep: sorted paths, a stack of ancestors, two witnesses per path. */
module ScatterSweep {
  import opened Lexicographic
  import opened Paths

  /** Two different slices hold overlapping paths, at least one of them written. */
  ghost predicate Collision(slices: seq<seq<Access>>) {
    exists i, j :: 0 <= i < |slices| && 0 <= j < |slices| && i != j && AnyConflict(slices[i], slices[j])
  }

  /** The slices that hold, or write, exactly this path. */
  ghost function OwnersAt(slices: seq<seq<Access>>, path: Path): set<nat> {
    set i | 0 <= i < |slices| && exists a :: a in slices[i] && a.path == path
  }

  ghost function WritersAt(slices: seq<seq<Access>>, path: Path): set<nat> {
    set i | 0 <= i < |slices| && exists a :: a in slices[i] && a.path == path && a.writes
  }

  /** At most two witnesses are kept, and all of them below two. */
  datatype Group = Group(owners: set<nat>, writers: set<nat>)

  predicate Capped(kept: set<nat>, all: set<nat>) {
    kept <= all && (kept == all || |kept| >= 2)
  }

  predicate Clash(writers: set<nat>, owners: set<nat>) {
    exists l, r :: l in writers && r in owners && l != r
  }

  lemma TwoElements(s: set<nat>, x: nat) returns (y: nat)
    requires |s| >= 2
    ensures y in s && y != x
  {
    y :| y in s;
    if y == x {
      assert |s - {y}| >= 1;
      y :| y in s - {x};
    }
  }

  /** Two witnesses decide whether different slices meet. */
  lemma CapsKeepClash(writers: set<nat>, allWriters: set<nat>, owners: set<nat>, allOwners: set<nat>)
    requires Capped(writers, allWriters) && Capped(owners, allOwners)
    ensures Clash(writers, owners) <==> Clash(allWriters, allOwners)
  {
    if Clash(allWriters, allOwners) {
      var l, r :| l in allWriters && r in allOwners && l != r;
      if writers == allWriters {
        if owners != allOwners {
          r := TwoElements(owners, l);
        }
      } else {
        if owners != allOwners {
          r :| r in owners;
        }
        l := TwoElements(writers, r);
      }
      assert l in writers && r in owners;
    }
  }

  predicate GroupsClash(a: Group, b: Group) {
    Clash(a.writers, b.owners) || Clash(b.writers, a.owners)
  }

  ghost predicate Grouped(groups: map<Path, Group>, slices: seq<seq<Access>>) {
    && (forall p :: p in groups ==> Capped(groups[p].owners, OwnersAt(slices, p)) && Capped(groups[p].writers, WritersAt(slices, p)))
    && (forall i, a :: 0 <= i < |slices| && a in slices[i] ==> a.path in groups)
  }

  /** Comparing the groups of a path and of its ancestors decides the quadratic question. */
  ghost predicate GroupCollision(groups: map<Path, Group>) {
    exists p, q :: p in groups && q in groups && p <= q && GroupsClash(groups[p], groups[q])
  }

  lemma GroupsDecide(groups: map<Path, Group>, slices: seq<seq<Access>>)
    requires Grouped(groups, slices)
    ensures GroupCollision(groups) <==> Collision(slices)
  {
    if Collision(slices) {
      var i, j :| 0 <= i < |slices| && 0 <= j < |slices| && i != j && AnyConflict(slices[i], slices[j]);
      var a, b :| a in slices[i] && b in slices[j] && Conflict(a, b);
      var p, q := a.path, b.path;
      assert i in OwnersAt(slices, p) && j in OwnersAt(slices, q);
      assert a.writes ==> i in WritersAt(slices, p);
      assert b.writes ==> j in WritersAt(slices, q);
      CapsKeepClash(groups[p].writers, WritersAt(slices, p), groups[q].owners, OwnersAt(slices, q));
      CapsKeepClash(groups[q].writers, WritersAt(slices, q), groups[p].owners, OwnersAt(slices, p));
      assert GroupsClash(groups[p], groups[q]) && GroupsClash(groups[q], groups[p]);
    }
    if GroupCollision(groups) {
      var p, q :| p in groups && q in groups && p <= q && GroupsClash(groups[p], groups[q]);
      CapsKeepClash(groups[p].writers, WritersAt(slices, p), groups[q].owners, OwnersAt(slices, q));
      CapsKeepClash(groups[q].writers, WritersAt(slices, q), groups[p].owners, OwnersAt(slices, p));
      if Clash(WritersAt(slices, p), OwnersAt(slices, q)) {
        ClashIsCollision(slices, p, q);
      } else {
        ClashIsCollision(slices, q, p);
      }
    }
  }

  lemma ClashIsCollision(slices: seq<seq<Access>>, p: Path, q: Path)
    requires Clash(WritersAt(slices, p), OwnersAt(slices, q)) && Overlap(p, q)
    ensures Collision(slices)
  {
    var i, j :| i in WritersAt(slices, p) && j in OwnersAt(slices, q) && i != j;
    var a :| a in slices[i] && a.path == p && a.writes;
    var b :| b in slices[j] && b.path == q;
    assert Conflict(a, b);
    assert AnyConflict(slices[i], slices[j]);
  }

  // Grouping.

  function AddCapped(kept: set<nat>, x: nat): set<nat> {
    if |kept| < 2 then kept + {x} else kept
  }

  /** The groups after one more access of slice `owner`. */
  function AddAccess(groups: map<Path, Group>, owner: nat, a: Access): map<Path, Group> {
    var g := if a.path in groups then groups[a.path] else Group({}, {});
    groups[a.path := Group(AddCapped(g.owners, owner), if a.writes then AddCapped(g.writers, owner) else g.writers)]
  }

  lemma CappedGrows(kept: set<nat>, all: set<nat>, x: nat)
    requires Capped(kept, all)
    ensures Capped(AddCapped(kept, x), all + {x})
  {
    if |kept| == 1 && x !in kept {
      assert |kept + {x}| == 2;
    }
  }

  lemma GroupsGrow(groups: map<Path, Group>, done: seq<seq<Access>>, owner: seq<Access>, a: Access)
    requires Grouped(groups, done + [owner])
    ensures Grouped(AddAccess(groups, |done|, a), done + [owner + [a]])
  {
    var before, after := done + [owner], done + [owner + [a]];
    var groups': map<Path, Group> := AddAccess(groups, |done|, a);
    forall p | p in groups' ensures Capped(groups'[p].owners, OwnersAt(after, p)) && Capped(groups'[p].writers, WritersAt(after, p)) {
      SliceGrows(done, owner, a, p);
      if p == a.path {
        GroupGrows(groups, before, |done|, a);
      }
    }
    assert before[|done|] == owner;
    forall i: nat, b: Access | i < |after| && b in after[i] ensures b.path in groups' {
      assert b in before[i] || b == a;
    }
  }

  lemma GroupGrows(groups: map<Path, Group>, before: seq<seq<Access>>, owner: nat, a: Access)
    requires Grouped(groups, before)
    ensures
      var g := AddAccess(groups, owner, a)[a.path];
      && Capped(g.owners, OwnersAt(before, a.path) + {owner})
      && Capped(g.writers, WritersAt(before, a.path) + if a.writes then {owner} else {})
  {
    var p := a.path;
    if p !in groups {
      assert OwnersAt(before, p) == {} && WritersAt(before, p) == {};
    }
    var g := if p in groups then groups[p] else Group({}, {});
    CappedGrows(g.owners, OwnersAt(before, p), owner);
    CappedGrows(g.writers, WritersAt(before, p), owner);
    assert WritersAt(before, p) + {} == WritersAt(before, p);
  }

  lemma SliceGrows(done: seq<seq<Access>>, owner: seq<Access>, a: Access, p: Path)
    ensures
      var before, after := done + [owner], done + [owner + [a]];
      && OwnersAt(after, p) == OwnersAt(before, p) + (if p == a.path then {|done|} else {})
      && WritersAt(after, p) == WritersAt(before, p) + (if p == a.path && a.writes then {|done|} else {})
  {
    var before, after := done + [owner], done + [owner + [a]];
    forall i | 0 <= i < |done| ensures before[i] == after[i] {
    }
    assert after[|done|] == owner + [a] && before[|done|] == owner;
    if p == a.path {
      assert a in after[|done|];
    }
    forall b | b in owner ensures b in after[|done|] {
    }
  }

  lemma EmptySlice(groups: map<Path, Group>, done: seq<seq<Access>>)
    requires Grouped(groups, done)
    ensures Grouped(groups, done + [[]])
  {
    var more: seq<seq<Access>> := done + [[]];
    forall p ensures OwnersAt(more, p) == OwnersAt(done, p) && WritersAt(more, p) == WritersAt(done, p) {
      forall i | 0 <= i < |done| ensures more[i] == done[i] {
      }
      assert more[|done|] == [];
    }
    forall i: nat, a: Access | i < |more| && a in more[i] ensures a.path in groups {
      assert a in done[i];
    }
  }

  method GroupSlices(slices: seq<seq<Access>>) returns (groups: map<Path, Group>)
    ensures Grouped(groups, slices)
  {
    groups := map[];
    for owner := 0 to |slices|
      invariant Grouped(groups, slices[..owner])
    {
      var accesses := slices[owner];
      EmptySlice(groups, slices[..owner]);
      assert accesses[..0] == [];
      for k := 0 to |accesses|
        invariant Grouped(groups, slices[..owner] + [accesses[..k]])
      {
        GroupsGrow(groups, slices[..owner], accesses[..k], accesses[k]);
        PrefixSnoc(accesses, k);
        groups := AddAccess(groups, owner, accesses[k]);
      }
      assert accesses[..|accesses|] == accesses;
      PrefixSnoc(slices, owner);
    }
    assert slices[..|slices|] == slices;
  }

  // Sorting by components.

  ghost predicate Sorted(xs: seq<Path>) {
    forall i, j :: 0 <= i < j < |xs| ==> PathLe(xs[i], xs[j]) && xs[i] != xs[j]
  }

  method LeastPath(paths: set<Path>) returns (least: Path)
    requires paths != {}
    ensures least in paths && forall p :: p in paths ==> PathLe(least, p)
  {
    PathOrder();
    least :| least in paths;
    var left := paths - {least};
    while left != {}
      invariant left <= paths && least in paths
      invariant forall p :: p in paths && p !in left ==> PathLe(least, p)
    {
      var p :| p in left;
      left := left - {p};
      if !PathLe(least, p) {
        least := p;
      }
    }
  }

  method SortPaths(paths: set<Path>) returns (xs: seq<Path>)
    ensures Sorted(xs) && (forall p :: p in xs <==> p in paths)
  {
    xs := [];
    var left := paths;
    while left != {}
      invariant left <= paths && Sorted(xs)
      invariant forall p :: p in xs <==> p in paths && p !in left
      invariant forall p, q :: p in xs && q in left ==> PathLe(p, q)
    {
      var p := LeastPath(left);
      xs, left := xs + [p], left - {p};
    }
  }

  // The sweep.

  /** A stack of paths, each below the one before. */
  ghost predicate Nested(stack: seq<Path>) {
    forall i, j :: 0 <= i < j < |stack| ==> stack[i] <= stack[j]
  }

  /** The stack holds exactly the swept paths that are ancestors of `p`. */
  ghost predicate AncestorsOf(stack: seq<Path>, xs: seq<Path>, n: nat, p: Path)
    requires n <= |xs|
  {
    Nested(stack) && forall a :: a in stack <==> a in xs[..n] && a <= p
  }

  /** No two of the first `n` paths clash. */
  ghost predicate NoClash(groups: map<Path, Group>, xs: seq<Path>, n: nat)
    requires n <= |xs|
  {
    forall p, q :: p in xs[..n] && q in xs[..n] && p <= q && p in groups && q in groups ==> !GroupsClash(groups[p], groups[q])
  }

  /** In sorted order an ancestor of the next path is the last swept path or one of its ancestors. */
  lemma AncestorsOnStack(stack: seq<Path>, xs: seq<Path>, i: nat, a: Path)
    requires Sorted(xs) && 0 < i < |xs| && AncestorsOf(stack, xs, i, xs[i - 1])
    requires a in xs[..i] && a <= xs[i]
    ensures a in stack
  {
    var j :| 0 <= j < i && xs[j] == a;
    if j < i - 1 {
      ComponentOrder();
      LexBetween(ComponentLe, a, xs[i - 1], xs[i]);
    }
  }

  /** Drop the swept paths that are not ancestors of the next one. */
  method PopTo(stack: seq<Path>, path: Path, ghost xs: seq<Path>, ghost i: nat) returns (ancestors: seq<Path>)
    requires Sorted(xs) && i < |xs| && xs[i] == path
    requires if i == 0 then stack == [] else AncestorsOf(stack, xs, i, xs[i - 1])
    ensures AncestorsOf(ancestors, xs, i, path)
  {
    ancestors := stack;
    while ancestors != [] && !Under(path, ancestors[|ancestors| - 1])
      invariant ancestors <= stack
      invariant forall a :: a in stack && a <= path ==> a in ancestors
    {
      var top := ancestors[|ancestors| - 1];
      assert ancestors == ancestors[..|ancestors| - 1] + [top];
      ancestors := ancestors[..|ancestors| - 1];
    }
    forall a | a in xs[..i] && a <= path ensures a in ancestors {
      AncestorsOnStack(stack, xs, i, a);
    }
    forall a | a in ancestors ensures a in xs[..i] && a <= path {
      var k :| 0 <= k < |ancestors| && ancestors[k] == a;
      assert a in stack && a <= ancestors[|ancestors| - 1];
    }
  }

  /** Whether the group at `path` clashes with itself or with an ancestor's group. */
  method ClashesAbove(groups: map<Path, Group>, path: Path, ancestors: seq<Path>) returns (found: bool)
    requires path in groups && forall a :: a in ancestors ==> a in groups
    ensures found <==> GroupsClash(groups[path], groups[path]) || exists a :: a in ancestors && GroupsClash(groups[a], groups[path])
  {
    found := Clash(groups[path].writers, groups[path].owners);
    for k := 0 to |ancestors|
      invariant found <==> GroupsClash(groups[path], groups[path]) || exists j :: 0 <= j < k && GroupsClash(groups[ancestors[j]], groups[path])
    {
      var parent := groups[ancestors[k]];
      if Clash(groups[path].writers, parent.owners) || Clash(parent.writers, groups[path].owners) {
        found := true;
      }
    }
  }

  /** What the sweep has settled about the first `i` paths. */
  ghost predicate Swept(groups: map<Path, Group>, xs: seq<Path>, i: nat, ancestors: seq<Path>)
    requires i <= |xs|
  {
    && (if i == 0 then ancestors == [] else AncestorsOf(ancestors, xs, i, xs[i - 1]))
    && NoClash(groups, xs, i)
  }

  lemma SweptNext(groups: map<Path, Group>, xs: seq<Path>, i: nat, ancestors: seq<Path>)
    requires Sorted(xs) && i < |xs| && NoClash(groups, xs, i) && AncestorsOf(ancestors, xs, i, xs[i])
    requires forall p :: p in xs ==> p in groups
    requires !GroupsClash(groups[xs[i]], groups[xs[i]]) && forall a :: a in ancestors ==> a in groups && !GroupsClash(groups[a], groups[xs[i]])
    ensures Swept(groups, xs, i + 1, ancestors + [xs[i]])
  {
    PrefixSnoc(xs, i);
    PathOrder();
    forall p, q | p in xs[..i + 1] && q in xs[..i + 1] && p <= q ensures !GroupsClash(groups[p], groups[q]) {
      if p == xs[i] && q != xs[i] {
        LexPrefix(ComponentLe, p, q);
      }
    }
    var stack := ancestors + [xs[i]];
    forall k, l | 0 <= k < l < |stack| ensures stack[k] <= stack[l] {
      assert stack[k] == ancestors[k] && ancestors[k] in ancestors;
    }
    forall a ensures a in stack <==> a in xs[..i + 1] && a <= xs[i] {
      assert a in stack <==> a in ancestors || a == xs[i];
    }
  }

  /** A clash with an ancestor is a clash of two indexed groups. */
  lemma FoundMeansCollision(groups: map<Path, Group>, path: Path, ancestors: seq<Path>)
    requires path in groups && forall a :: a in ancestors ==> a in groups && a <= path
    requires GroupsClash(groups[path], groups[path]) || exists a :: a in ancestors && GroupsClash(groups[a], groups[path])
    ensures GroupCollision(groups)
  {
    var a :| (a == path || a in ancestors) && GroupsClash(groups[a], groups[path]);
    assert a <= path;
  }

  /** Refuses exactly when two different slices hold overlapping paths with at least one write. */
  method ValidateScatterCollisions(slices: seq<seq<Access>>) returns (refused: bool)
    ensures refused <==> Collision(slices)
  {
    var groups := GroupSlices(slices);
    GroupsDecide(groups, slices);
    var xs := SortPaths(groups.Keys);
    refused := Sweep(groups, xs);
  }

  /** Sweep the sorted paths, keeping the ancestors of the last one on a stack. */
  method Sweep(groups: map<Path, Group>, xs: seq<Path>) returns (refused: bool)
    requires Sorted(xs) && forall p :: p in xs <==> p in groups
    ensures refused <==> GroupCollision(groups)
  {
    var ancestors: seq<Path> := [];
    for i := 0 to |xs|
      invariant Swept(groups, xs, i, ancestors)
    {
      var path := xs[i];
      ancestors := PopTo(ancestors, path, xs, i);
      forall a | a in ancestors ensures a in groups {
        assert a in xs;
      }
      var found := ClashesAbove(groups, path, ancestors);
      if found {
        FoundMeansCollision(groups, path, ancestors);
        return true;
      }
      SweptNext(groups, xs, i, ancestors);
      ancestors := ancestors + [path];
    }
    assert xs[..|xs|] == xs;
    return false;
  }
}
