/** Which parts of the filesystem a leaf's container may write. */
module Mounts {
  import opened Lexicographic
  import opened Paths

  datatype Root = Unresolved | Resolved(path: Path)

  /** One planned access of a workflow or of its current leaf. */
  datatype RootAccess = RootAccess(root: Root, resources: seq<Path>, writes: bool)

  datatype Mount = Mount(path: Path, writable: bool)

  datatype Plan = Refused | Mounted(mounts: seq<Mount>)

  /** What the filesystem looked like while planning. */
  datatype Disk = Disk(existing: set<Path>, directories: set<Path>)

  datatype Permission = Hidden | ReadOnly | ReadWrite

  /** Mounts shadow one another in order: the last one at or above a path decides. */
  function Effective(mounts: seq<Mount>, p: Path): Permission {
    if mounts == [] then Hidden
    else
      var last := mounts[|mounts| - 1];
      if Under(p, last.path) then (if last.writable then ReadWrite else ReadOnly) else Effective(mounts[..|mounts| - 1], p)
  }

  ghost predicate Ordered(mounts: seq<Mount>) {
    forall i, j :: 0 <= i < j < |mounts| ==> |mounts[i].path| <= |mounts[j].path|
  }

  /** The mounts are those of the map, shallow ones first. */
  ghost predicate Lists(mounts: seq<Mount>, modes: map<Path, bool>) {
    Ordered(mounts) && forall m :: m in mounts <==> m.path in modes && m.writable == modes[m.path]
  }

  /** In that order the deepest mount at or above a path decides. */
  lemma {:induction false} DeepestWins(mounts: seq<Mount>, p: Path, deepest: Mount)
    requires Ordered(mounts) && deepest in mounts && Under(p, deepest.path)
    requires forall m :: m in mounts && Under(p, m.path) && |m.path| >= |deepest.path| ==> m.writable == deepest.writable
    ensures Effective(mounts, p) == if deepest.writable then ReadWrite else ReadOnly
  {
    var last := |mounts| - 1;
    if Under(p, mounts[last].path) {
      var k :| 0 <= k <= last && mounts[k] == deepest;
      assert |mounts[k].path| <= |mounts[last].path|;
      assert mounts[last] in mounts;
    } else {
      assert deepest in mounts[..last];
      DeepestWins(mounts[..last], p, deepest);
    }
  }

  method SortMounts(modes: map<Path, bool>) returns (mounts: seq<Mount>)
    ensures Lists(mounts, modes)
  {
    mounts := [];
    var left := modes.Keys;
    while left != {}
      invariant left <= modes.Keys && Ordered(mounts)
      invariant forall m :: m in mounts <==> m.path in modes && m.path !in left && m.writable == modes[m.path]
      invariant forall m, q :: m in mounts && q in left ==> |m.path| <= |q|
      decreases |left|
    {
      var next := Shallowest(left);
      mounts := mounts + [Mount(next, modes[next])];
      left := left - {next};
    }
  }

  method Shallowest(paths: set<Path>) returns (next: Path)
    requires paths != {}
    ensures next in paths && forall q :: q in paths ==> |next| <= |q|
  {
    next :| next in paths;
    var left := paths - {next};
    while left != {}
      invariant left <= paths && next in paths
      invariant forall q :: q in paths && q !in left ==> |next| <= |q|
      decreases |left|
    {
      var q :| q in left;
      if |q| < |next| {
        next := q;
      }
      left := left - {q};
    }
  }

  // What both planners are given.

  ghost predicate RootIn(accesses: seq<RootAccess>, r: Path) {
    exists a :: a in accesses && a.root == Resolved(r)
  }

  ghost predicate WrittenIn(accesses: seq<RootAccess>, r: Path) {
    exists a :: a in accesses && a.root == Resolved(r) && a.writes
  }

  // Datasets: an existing root is mounted itself, one to be created through its parent.

  function DatasetMount(disk: Disk, r: Path): Path {
    if r in disk.existing then r else Parent(r)
  }

  ghost predicate Contained(a: RootAccess) {
    a.root.Resolved? && forall x :: x in a.resources ==> Under(x, a.root.path)
  }

  /** What a root must satisfy to be mounted. */
  ghost predicate DatasetRootOk(disk: Disk, leaf: seq<RootAccess>, r: Path) {
    && (r in disk.existing || (WrittenIn(leaf, r) && Parent(r) in disk.directories))
    && DatasetMount(disk, r) != []
  }

  ghost predicate DatasetsOk(accesses: seq<RootAccess>, leaf: seq<RootAccess>, disk: Disk) {
    && (forall a :: a in accesses ==> Contained(a))
    && (forall a :: a in leaf ==> a.root.Resolved? && RootIn(accesses, a.root.path))
    && (forall r :: RootIn(accesses, r) ==> DatasetRootOk(disk, leaf, r))
  }

  /** A mount is writable as soon as one of the roots mounted there is the leaf's to write. */
  ghost predicate DatasetModes(modes: map<Path, bool>, accesses: seq<RootAccess>, leaf: seq<RootAccess>, disk: Disk) {
    && (forall m :: m in modes <==> exists r :: RootIn(accesses, r) && DatasetMount(disk, r) == m)
    && (forall m :: m in modes ==> (modes[m] <==> exists r :: RootIn(accesses, r) && DatasetMount(disk, r) == m && WrittenIn(leaf, r)))
  }

  method CollectRoots(accesses: seq<RootAccess>) returns (ok: bool, roots: set<Path>)
    ensures ok <==> forall a :: a in accesses ==> Contained(a)
    ensures ok ==> forall q :: q in roots <==> RootIn(accesses, q)
  {
    ok, roots := true, {};
    for n := 0 to |accesses|
      invariant ok && forall q :: q in roots <==> RootIn(accesses[..n], q)
      invariant forall a :: a in accesses[..n] ==> Contained(a)
    {
      var access := accesses[n];
      if access.root.Unresolved? || exists x :: x in access.resources && !Under(x, access.root.path) {
        assert !Contained(access);
        ok := false;
        return;
      }
      roots := roots + {access.root.path};
      PrefixSnoc(accesses, n);
    }
    assert accesses[..|accesses|] == accesses;
  }

  method CollectWritable(leaf: seq<RootAccess>, roots: set<Path>) returns (ok: bool, writable: set<Path>)
    ensures ok <==> forall a :: a in leaf ==> a.root.Resolved? && a.root.path in roots
    ensures ok ==> forall q :: q in writable <==> WrittenIn(leaf, q)
    ensures ok ==> writable <= roots
  {
    ok, writable := true, {};
    for n := 0 to |leaf|
      invariant ok && writable <= roots && forall q :: q in writable <==> WrittenIn(leaf[..n], q)
      invariant forall a :: a in leaf[..n] ==> a.root.Resolved? && a.root.path in roots
    {
      var access := leaf[n];
      if access.root.Unresolved? || access.root.path !in roots {
        ok := false;
        return;
      }
      if access.writes {
        writable := writable + {access.root.path};
      }
      PrefixSnoc(leaf, n);
    }
    assert leaf[..|leaf|] == leaf;
  }

  /** Mount by mount, what the roots done so far ask for. */
  ghost predicate ModesOf(modes: map<Path, bool>, done: set<Path>, writable: set<Path>, disk: Disk) {
    && (forall m :: m in modes <==> exists q :: q in done && DatasetMount(disk, q) == m)
    && (forall m :: m in modes ==> (modes[m] <==> exists q :: q in done && DatasetMount(disk, q) == m && q in writable))
  }

  lemma ModesSnoc(modes: map<Path, bool>, done: set<Path>, writable: set<Path>, disk: Disk, root: Path)
    requires ModesOf(modes, done, writable, disk)
    ensures
      var mount := DatasetMount(disk, root);
      ModesOf(modes[mount := (mount in modes && modes[mount]) || root in writable], done + {root}, writable, disk)
  {
    var mount := DatasetMount(disk, root);
    var modes' := modes[mount := (mount in modes && modes[mount]) || root in writable];
    forall m | m in modes' && m != mount ensures modes'[m] <==> exists q :: q in done + {root} && DatasetMount(disk, q) == m && q in writable {
      assert m in modes;
    }
    assert root in done + {root};
    forall q | q in done ensures q in done + {root} {}
  }

  predicate Mountable(disk: Disk, writable: set<Path>, r: Path) {
    && (r in disk.existing || (r in writable && Parent(r) in disk.directories))
    && DatasetMount(disk, r) != []
  }

  method BuildModes(roots: set<Path>, writable: set<Path>, disk: Disk) returns (ok: bool, modes: map<Path, bool>)
    ensures ok <==> forall q :: q in roots ==> Mountable(disk, writable, q)
    ensures ok ==> ModesOf(modes, roots, writable, disk)
  {
    ok, modes := true, map[];
    var left := roots;
    while left != {}
      invariant ok && left <= roots && ModesOf(modes, roots - left, writable, disk)
      invariant forall q :: q in roots - left ==> Mountable(disk, writable, q)
      decreases |left|
    {
      var root :| root in left;
      if root !in disk.existing && !(root in writable && Parent(root) in disk.directories) {
        ok := false;
        return;
      }
      var mount := if root in disk.existing then root else Parent(root);
      if Parent(mount) == mount {
        ok := false;
        return;
      }
      ModesSnoc(modes, roots - left, writable, disk, root);
      modes := modes[mount := (mount in modes && modes[mount]) || root in writable];
      assert roots - (left - {root}) == roots - left + {root};
      left := left - {root};
    }
    assert roots - {} == roots;
  }

  method PlanDatasetBackend(accesses: seq<RootAccess>, leaf: seq<RootAccess>, disk: Disk) returns (r: Plan)
    ensures r.Mounted? <==> DatasetsOk(accesses, leaf, disk)
    ensures r.Mounted? ==> exists modes :: Lists(r.mounts, modes) && DatasetModes(modes, accesses, leaf, disk)
  {
    var ok, roots := CollectRoots(accesses);
    if !ok {
      return Refused;
    }
    var writable;
    ok, writable := CollectWritable(leaf, roots);
    if !ok {
      return Refused;
    }
    var modes;
    ok, modes := BuildModes(roots, writable, disk);
    assert forall q :: q in roots ==> (Mountable(disk, writable, q) <==> DatasetRootOk(disk, leaf, q));
    if !ok {
      return Refused;
    }
    assert DatasetModes(modes, accesses, leaf, disk);
    var mounts := SortMounts(modes);
    r := Mounted(mounts);
  }

  /** What a leaf should see at the paths of a planned root. */
  ghost function DatasetWant(leaf: seq<RootAccess>, r: Path): Permission {
    if WrittenIn(leaf, r) then ReadWrite else ReadOnly
  }

  /** A leaf sees every path of every planned root as it should. */
  ghost predicate DatasetGranted(mounts: seq<Mount>, accesses: seq<RootAccess>, leaf: seq<RootAccess>) {
    forall r, p :: RootIn(accesses, r) && Under(p, r) ==> Effective(mounts, p) == DatasetWant(leaf, r)
  }

  /** Overlapping planned roots are all written by the leaf, or all not. */
  ghost predicate DatasetsAgree(accesses: seq<RootAccess>, leaf: seq<RootAccess>) {
    forall q, r :: RootIn(accesses, q) && RootIn(accesses, r) && Overlap(q, r) ==> (WrittenIn(leaf, q) <==> WrittenIn(leaf, r))
  }

  /** A root whose mount lies in another root lies there itself. */
  lemma MountedInside(accesses: seq<RootAccess>, leaf: seq<RootAccess>, disk: Disk, r: Path, q: Path)
    requires DatasetsAgree(accesses, leaf) && RootIn(accesses, r) && RootIn(accesses, q) && Under(DatasetMount(disk, q), r)
    ensures WrittenIn(leaf, q) <==> WrittenIn(leaf, r)
  {
    assert r <= DatasetMount(disk, q) <= q;
  }

  /** A mount above a path of a root is as writable as the root, when it is no shallower than the root's own mount. */
  lemma DatasetDeepMount(accesses: seq<RootAccess>, leaf: seq<RootAccess>, disk: Disk, modes: map<Path, bool>, r: Path, p: Path, m: Path)
    requires DatasetsOk(accesses, leaf, disk) && DatasetModes(modes, accesses, leaf, disk) && DatasetsAgree(accesses, leaf)
    requires RootIn(accesses, r) && Under(p, r) && m in modes && Under(p, m) && |m| >= |DatasetMount(disk, r)|
    ensures modes[m] <==> WrittenIn(leaf, r)
  {
    var mr := DatasetMount(disk, r);
    assert DatasetRootOk(disk, leaf, r);
    if |m| < |r| {
      assert m == p[..|m|] && mr == p[..|mr|] && m == mr;
    } else {
      assert m == p[..|m|] && r == p[..|r|] && r <= m;
      forall q | RootIn(accesses, q) && DatasetMount(disk, q) == m ensures WrittenIn(leaf, q) <==> WrittenIn(leaf, r) {
        MountedInside(accesses, leaf, disk, r, q);
      }
    }
  }

  lemma DatasetPermission(accesses: seq<RootAccess>, leaf: seq<RootAccess>, disk: Disk, mounts: seq<Mount>, modes: map<Path, bool>, r: Path, p: Path)
    requires DatasetsOk(accesses, leaf, disk) && Lists(mounts, modes) && DatasetModes(modes, accesses, leaf, disk)
    requires DatasetsAgree(accesses, leaf) && RootIn(accesses, r) && Under(p, r)
    ensures Effective(mounts, p) == DatasetWant(leaf, r)
  {
    var mr := DatasetMount(disk, r);
    forall m | m in mounts && Under(p, m.path) && |m.path| >= |mr| ensures m.writable <==> WrittenIn(leaf, r) {
      DatasetDeepMount(accesses, leaf, disk, modes, r, p, m.path);
    }
    assert mr in modes && Mount(mr, modes[mr]) in mounts;
    DeepestWins(mounts, p, Mount(mr, modes[mr]));
  }

  /** The longer of two overlapping roots is a path of both. */
  lemma DatasetGrantedAgree(mounts: seq<Mount>, accesses: seq<RootAccess>, leaf: seq<RootAccess>)
    requires DatasetGranted(mounts, accesses, leaf)
    ensures DatasetsAgree(accesses, leaf)
  {
    forall q, r | RootIn(accesses, q) && RootIn(accesses, r) && Overlap(q, r) ensures WrittenIn(leaf, q) <==> WrittenIn(leaf, r) {
      assert Effective(mounts, if q <= r then r else q) == DatasetWant(leaf, q) == DatasetWant(leaf, r);
    }
  }

  /**
    * A plan lets a leaf write every path of a root it writes or creates, even below a parent mounted for
    * a created sibling, and no path of any other planned root, exactly when no root it writes overlaps one
    * that it does not write.
    */
  lemma DatasetPermissions(accesses: seq<RootAccess>, leaf: seq<RootAccess>, disk: Disk, mounts: seq<Mount>, modes: map<Path, bool>)
    requires DatasetsOk(accesses, leaf, disk) && Lists(mounts, modes) && DatasetModes(modes, accesses, leaf, disk)
    ensures DatasetGranted(mounts, accesses, leaf) <==> DatasetsAgree(accesses, leaf)
  {
    if DatasetsAgree(accesses, leaf) {
      forall r, p | RootIn(accesses, r) && Under(p, r) ensures Effective(mounts, p) == DatasetWant(leaf, r) {
        DatasetPermission(accesses, leaf, disk, mounts, modes, r, p);
      }
    } else if DatasetGranted(mounts, accesses, leaf) {
      DatasetGrantedAgree(mounts, accesses, leaf);
    }
  }

  /** So does every resource that an access lists, at and below it. */
  lemma ResourcesGranted(accesses: seq<RootAccess>, leaf: seq<RootAccess>, disk: Disk, mounts: seq<Mount>, a: RootAccess, x: Path, p: Path)
    requires DatasetsOk(accesses, leaf, disk) && DatasetGranted(mounts, accesses, leaf)
    requires a in accesses && x in a.resources && Under(p, x)
    ensures a.root.Resolved?
    ensures Effective(mounts, p) == if exists b :: b in leaf && b.root == a.root && b.writes then ReadWrite else ReadOnly
  {
    ResourceInRoot(accesses, leaf, disk, a, x);
    assert RootIn(accesses, a.root.path) && a.root.path <= x <= p;
    assert Effective(mounts, p) == DatasetWant(leaf, a.root.path);
  }

  lemma ResourceInRoot(accesses: seq<RootAccess>, leaf: seq<RootAccess>, disk: Disk, a: RootAccess, x: Path)
    requires DatasetsOk(accesses, leaf, disk) && a in accesses && x in a.resources
    ensures a.root.Resolved? && Under(x, a.root.path)
  {
    assert Contained(a);
  }

  /** Creating a root inside another, as the plan permits, opens the outer one for writing. */
  lemma NestedRootExposed()
    ensures
      var outer, inner := RootAccess(Resolved(["a"]), [["a"]], false), RootAccess(Resolved(["a", "b"]), [["a", "b"]], true);
      var disk, modes := Disk({["a"]}, {["a"]}), map[["a"] := true];
      && DatasetsOk([outer, inner], [inner], disk)
      && DatasetModes(modes, [outer, inner], [inner], disk)
      && !WrittenIn([inner], ["a"]) && Effective([Mount(["a"], true)], ["a"]) == ReadWrite
  {
    var outer, inner := RootAccess(Resolved(["a"]), [["a"]], false), RootAccess(Resolved(["a", "b"]), [["a", "b"]], true);
    var disk := Disk({["a"]}, {["a"]});
    assert Parent(["a", "b"]) == ["a"];
    assert outer in [outer, inner] && inner in [outer, inner] && inner in [inner];
    assert RootIn([outer, inner], ["a"]) && RootIn([outer, inner], ["a", "b"]) && WrittenIn([inner], ["a", "b"]);
    assert DatasetMount(disk, ["a", "b"]) == ["a"];
    assert DatasetMount(disk, ["a"]) == ["a"];
  }

  // FITS files: a replaced file needs its parent writable, other files are mounted themselves.

  /** Every FITS access has a root. */
  ghost predicate Rooted(accesses: seq<RootAccess>) {
    forall a :: a in accesses ==> a.root.Resolved?
  }

  /** What a root that the leaf does not write must satisfy beside one that it does. */
  ghost predicate FitsShielded(disk: Disk, r: Path, w: Path) {
    if r in disk.existing then r != Parent(w) else !Under(r, Parent(w))
  }

  ghost predicate FitsOk(accesses: seq<RootAccess>, leaf: seq<RootAccess>, disk: Disk) {
    && (forall w :: WrittenIn(leaf, w) ==> RootIn(accesses, w) && Parent(w) != [] && Parent(w) in disk.directories)
    && (forall r, w :: RootIn(accesses, r) && !WrittenIn(leaf, r) && WrittenIn(leaf, w) ==> FitsShielded(disk, r, w))
  }

  /** No absent root lies below an existing one, both not written: whether such a pair is refused depends on their order. */
  ghost predicate NoneAbsentBelow(accesses: seq<RootAccess>, leaf: seq<RootAccess>, disk: Disk) {
    forall r, m :: RootIn(accesses, r) && RootIn(accesses, m) && !WrittenIn(leaf, r) && !WrittenIn(leaf, m) && m in disk.existing && Under(r, m) ==>
                     r in disk.existing
  }

  ghost predicate FitsModes(modes: map<Path, bool>, accesses: seq<RootAccess>, leaf: seq<RootAccess>, disk: Disk) {
    && (forall m :: m in modes && modes[m] <==> exists w :: WrittenIn(leaf, w) && Parent(w) == m)
    && (forall m :: m in modes && !modes[m] <==> RootIn(accesses, m) && !WrittenIn(leaf, m) && m in disk.existing)
  }

  method ReplacementParents(writable: set<Path>, disk: Disk) returns (ok: bool, mounts: map<Path, bool>)
    ensures ok <==> forall w :: w in writable ==> Parent(w) != [] && Parent(w) in disk.directories
    ensures ok ==> (forall m :: m in mounts <==> exists w :: w in writable && Parent(w) == m) && forall m :: m in mounts ==> mounts[m]
  {
    ok, mounts := true, map[];
    var left := writable;
    while left != {}
      invariant ok && left <= writable
      invariant forall w :: w in writable && w !in left ==> Parent(w) != [] && Parent(w) in disk.directories
      invariant forall m :: m in mounts <==> exists w :: w in writable && w !in left && Parent(w) == m
      invariant forall m :: m in mounts ==> mounts[m]
      decreases |left|
    {
      var root :| root in left;
      var parent := Parent(root);
      if Parent(parent) == parent || parent !in disk.directories {
        ok := false;
        return;
      }
      mounts := mounts[parent := true];
      left := left - {root};
    }
  }

  /** Root `r` cannot be kept from being written, or seen, through `m`. */
  predicate Exposes(others: set<Path>, parents: map<Path, bool>, disk: Disk, r: Path, m: Path) {
    && r in others
    && if r in disk.existing then r == m && m in parents else Under(r, m) && (m in parents || (m in others && m in disk.existing))
  }

  /** Mount the other existing roots read-only; refuse one that could not be kept from being written. */
  method ShieldRoots(others: set<Path>, parents: map<Path, bool>, disk: Disk) returns (ok: bool, mounts: map<Path, bool>)
    requires forall m :: m in parents ==> parents[m]
    ensures ok ==> forall r, m :: r in others && m in parents ==> if r in disk.existing then r != m else !Under(r, m)
    ensures !ok ==> exists r, m :: Exposes(others, parents, disk, r, m)
    ensures ok ==> forall m :: m in mounts <==> m in parents || (m in others && m in disk.existing)
    ensures ok ==> forall m :: m in mounts ==> (mounts[m] <==> m in parents)
  {
    ok, mounts := true, parents;
    var left := others;
    while left != {}
      invariant ok && left <= others
      invariant forall m :: m in mounts <==> m in parents || (m in others && m !in left && m in disk.existing)
      invariant forall m :: m in mounts ==> (mounts[m] <==> m in parents)
      invariant forall r, m :: r in others && r !in left && m in parents ==> if r in disk.existing then r != m else !Under(r, m)
      decreases |left|
    {
      var root :| root in left;
      if root in disk.existing {
        if root in mounts {
          assert Exposes(others, parents, disk, root, root);
          ok := false;
          return;
        }
        mounts := mounts[root := false];
      } else if m :| m in mounts && Under(root, m) {
        assert Exposes(others, parents, disk, root, m);
        ok := false;
        return;
      }
      left := left - {root};
    }
  }

  /** A refusal while shielding has its reason in the plan. */
  lemma ExposedRoot(accesses: seq<RootAccess>, leaf: seq<RootAccess>, disk: Disk, others: set<Path>, parents: map<Path, bool>, r: Path, m: Path)
    requires forall q :: q in others <==> RootIn(accesses, q) && !WrittenIn(leaf, q)
    requires m in parents ==> exists w :: WrittenIn(leaf, w) && Parent(w) == m
    requires Exposes(others, parents, disk, r, m)
    ensures !FitsOk(accesses, leaf, disk) || !NoneAbsentBelow(accesses, leaf, disk)
  {
    if m in parents {
      var w :| WrittenIn(leaf, w) && Parent(w) == m;
      assert !FitsShielded(disk, r, w);
    }
  }

  method PlanFitsBackend(accesses: seq<RootAccess>, leaf: seq<RootAccess>, disk: Disk) returns (r: Plan)
    requires Rooted(accesses) && Rooted(leaf)
    ensures r.Mounted? ==> FitsOk(accesses, leaf, disk)
    ensures FitsOk(accesses, leaf, disk) && NoneAbsentBelow(accesses, leaf, disk) ==> r.Mounted?
    ensures r.Mounted? ==> exists modes :: Lists(r.mounts, modes) && FitsModes(modes, accesses, leaf, disk)
  {
    var roots := set a | a in accesses :: a.root.path;
    var writable := set a | a in leaf && a.writes :: a.root.path;
    assert forall q :: q in roots <==> RootIn(accesses, q);
    assert forall q :: q in writable <==> WrittenIn(leaf, q);
    if !(writable <= roots) {
      return Refused;
    }
    var ok, parents := ReplacementParents(writable, disk);
    if !ok {
      return Refused;
    }
    var modes;
    ok, modes := ShieldRoots(roots - writable, parents, disk);
    if !ok {
      ghost var q, m :| Exposes(roots - writable, parents, disk, q, m);
      ExposedRoot(accesses, leaf, disk, roots - writable, parents, q, m);
      return Refused;
    }
    FitsPlanned(accesses, leaf, disk, roots - writable, writable, parents);
    FitsPlannedModes(accesses, leaf, disk, roots - writable, writable, parents, modes);
    var mounts := SortMounts(modes);
    r := Mounted(mounts);
  }

  lemma FitsPlanned(accesses: seq<RootAccess>, leaf: seq<RootAccess>, disk: Disk, others: set<Path>, writable: set<Path>, parents: map<Path, bool>)
    requires forall q :: q in others <==> RootIn(accesses, q) && !WrittenIn(leaf, q)
    requires forall q :: q in writable <==> WrittenIn(leaf, q)
    requires forall w :: w in writable ==> RootIn(accesses, w) && Parent(w) != [] && Parent(w) in disk.directories && Parent(w) in parents
    requires forall r, m :: r in others && m in parents ==> if r in disk.existing then r != m else !Under(r, m)
    ensures FitsOk(accesses, leaf, disk)
  {
    forall r, w | RootIn(accesses, r) && !WrittenIn(leaf, r) && WrittenIn(leaf, w) ensures FitsShielded(disk, r, w) {
      assert r in others && w in writable;
    }
  }

  lemma FitsPlannedModes(
    accesses: seq<RootAccess>, leaf: seq<RootAccess>, disk: Disk, others: set<Path>, writable: set<Path>, parents: map<Path, bool>, modes: map<Path, bool>)
    requires forall q :: q in others <==> RootIn(accesses, q) && !WrittenIn(leaf, q)
    requires forall q :: q in writable <==> WrittenIn(leaf, q)
    requires forall m :: m in parents <==> exists w :: w in writable && Parent(w) == m
    requires forall m :: m in parents && m in disk.existing ==> m !in others
    requires forall m :: m in modes <==> m in parents || (m in others && m in disk.existing)
    requires forall m :: m in modes ==> (modes[m] <==> m in parents)
    ensures FitsModes(modes, accesses, leaf, disk)
  {
    forall m ensures (m in modes && modes[m]) == exists w :: WrittenIn(leaf, w) && Parent(w) == m {
      if w :| WrittenIn(leaf, w) && Parent(w) == m {
        assert w in writable;
      }
    }
  }

  /** What a leaf should see at a planned file: an absent file that it does not write stays hidden. */
  ghost function FitsWant(leaf: seq<RootAccess>, disk: Disk, r: Path): Permission {
    if WrittenIn(leaf, r) then ReadWrite else if r in disk.existing then ReadOnly else Hidden
  }

  ghost predicate FitsGranted(mounts: seq<Mount>, accesses: seq<RootAccess>, leaf: seq<RootAccess>, disk: Disk) {
    forall r, p :: RootIn(accesses, r) && Under(p, r) ==> Effective(mounts, p) == FitsWant(leaf, disk, r)
  }

  ghost predicate FilesAgree(accesses: seq<RootAccess>, leaf: seq<RootAccess>, disk: Disk) {
    forall q, r :: RootIn(accesses, q) && RootIn(accesses, r) && Overlap(q, r) ==> FitsWant(leaf, disk, q) == FitsWant(leaf, disk, r)
  }

  /** A writable mount above a path of a planned file that the leaf does not write lies above the file, which exists. */
  lemma FitsParentAbove(accesses: seq<RootAccess>, leaf: seq<RootAccess>, disk: Disk, w: Path, r: Path, p: Path)
    requires FitsOk(accesses, leaf, disk) && FilesAgree(accesses, leaf, disk)
    requires WrittenIn(leaf, w) && RootIn(accesses, r) && Under(p, r) && Under(p, Parent(w))
    ensures WrittenIn(leaf, r) || (|Parent(w)| < |r| && r in disk.existing)
  {
    var m := Parent(w);
    if !WrittenIn(leaf, r) {
      assert FitsShielded(disk, r, w) && RootIn(accesses, w);
      OverlapOfCommonDescendant(m, r, p);
      assert |m| >= |r| ==> r <= w;
    }
  }

  /** What a mount at or above a path of a planned file can be. */
  lemma FitsMountAbove(accesses: seq<RootAccess>, leaf: seq<RootAccess>, disk: Disk, modes: map<Path, bool>, r: Path, p: Path, m: Path)
    requires FitsOk(accesses, leaf, disk) && FitsModes(modes, accesses, leaf, disk) && FilesAgree(accesses, leaf, disk)
    requires RootIn(accesses, r) && Under(p, r) && m in modes && Under(p, m)
    ensures if modes[m] then WrittenIn(leaf, r) || (|m| < |r| && r in disk.existing) else !WrittenIn(leaf, r) && r in disk.existing
  {
    if modes[m] {
      var w :| WrittenIn(leaf, w) && Parent(w) == m;
      FitsParentAbove(accesses, leaf, disk, w, r, p);
    } else {
      OverlapOfCommonDescendant(m, r, p);
      assert FitsWant(leaf, disk, m) == FitsWant(leaf, disk, r);
    }
  }

  lemma FitsGrantedAgree(mounts: seq<Mount>, accesses: seq<RootAccess>, leaf: seq<RootAccess>, disk: Disk)
    requires FitsGranted(mounts, accesses, leaf, disk)
    ensures FilesAgree(accesses, leaf, disk)
  {
    forall q, r | RootIn(accesses, q) && RootIn(accesses, r) && Overlap(q, r) ensures FitsWant(leaf, disk, q) == FitsWant(leaf, disk, r) {
      assert Effective(mounts, if q <= r then r else q) == FitsWant(leaf, disk, q) == FitsWant(leaf, disk, r);
    }
  }

  /**
    * The same for files: written ones can be replaced, other existing ones only read, absent ones not seen,
    * exactly when overlapping planned files should be seen alike.
    */
  lemma FitsPermissions(accesses: seq<RootAccess>, leaf: seq<RootAccess>, disk: Disk, mounts: seq<Mount>, modes: map<Path, bool>)
    requires FitsOk(accesses, leaf, disk) && Lists(mounts, modes) && FitsModes(modes, accesses, leaf, disk)
    ensures FitsGranted(mounts, accesses, leaf, disk) <==> FilesAgree(accesses, leaf, disk)
  {
    if FilesAgree(accesses, leaf, disk) {
      forall r, p | RootIn(accesses, r) && Under(p, r) ensures Effective(mounts, p) == FitsWant(leaf, disk, r) {
        FitsPermission(accesses, leaf, disk, mounts, modes, r, p);
      }
    }
    if FitsGranted(mounts, accesses, leaf, disk) {
      FitsGrantedAgree(mounts, accesses, leaf, disk);
    }
  }

  lemma FitsPermission(accesses: seq<RootAccess>, leaf: seq<RootAccess>, disk: Disk, mounts: seq<Mount>, modes: map<Path, bool>, r: Path, p: Path)
    requires FitsOk(accesses, leaf, disk) && Lists(mounts, modes) && FitsModes(modes, accesses, leaf, disk) && FilesAgree(accesses, leaf, disk)
    requires RootIn(accesses, r) && Under(p, r)
    ensures Effective(mounts, p) == FitsWant(leaf, disk, r)
  {
    forall m | m in mounts && Under(p, m.path)
      ensures if m.writable then WrittenIn(leaf, r) || (|m.path| < |r| && r in disk.existing) else !WrittenIn(leaf, r) && r in disk.existing
    {
      FitsMountAbove(accesses, leaf, disk, modes, r, p, m.path);
    }
    if WrittenIn(leaf, r) {
      assert Under(p, Parent(r));
      DeepestWins(mounts, p, Mount(Parent(r), true));
    } else if r in disk.existing {
      assert r in modes && !modes[r];
      DeepestWins(mounts, p, Mount(r, false));
    } else {
      NotMounted(mounts, p);
    }
  }

  lemma {:induction false} NotMounted(mounts: seq<Mount>, p: Path)
    requires forall m :: m in mounts ==> !Under(p, m.path)
    ensures Effective(mounts, p) == Hidden
  {
    if mounts != [] {
      assert mounts[|mounts| - 1] in mounts;
      NotMounted(mounts[..|mounts| - 1], p);
    }
  }
}
