/** The metadata fingerprint of a boundary path: one record for each non-directory below it. */
module Fingerprint {
  import opened Lexicographic
  import opened Collections
  import opened Paths
  import opened FileTrees

  datatype Record = Record(name: string, mtime: nat, size: nat)

  /** What looking at the fingerprinted path itself gives, links followed. */
  datatype Look = Missing | Denied(errno: nat) | Seen

  datatype Result = Absent | Unreadable(errno: nat) | Records(records: seq<Record>)

  function Joined(p: Path): string {
    if p == [] then "" else if |p| == 1 then p[0] else Joined(p[..|p| - 1]) + "/" + p[|p| - 1]
  }

  /** Directories are walked, not recorded; links are recorded by the file they lead to. */
  predicate Recorded(node: Node) {
    node.File? || node.Special? || (node.Link? && node.lead.ToFile?)
  }

  function RecordOf(name: string, node: Node): Record
    requires Recorded(node)
  {
    match node
    case File(data, mtime) => Record(name, mtime, |data|)
    case Special(size, mtime) => Record(name, mtime, size)
    case Link(_, ToFile(size, mtime)) => Record(name, mtime, size)
  }

  predicate Listed(tree: Tree, p: Path) {
    p != [] && Reached(tree, p) && Recorded(tree[p])
  }

  function RecordAt(tree: Tree, p: Path): Record
    requires Listed(tree, p)
  {
    RecordOf(Joined(p), tree[p])
  }

  function RecordsAt(tree: Tree, paths: seq<Path>): seq<Record>
    requires forall i :: 0 <= i < |paths| ==> Listed(tree, paths[i])
  {
    seq(|paths|, i requires 0 <= i < |paths| => RecordAt(tree, paths[i]))
  }

  /** Every listed path exactly once. */
  ghost predicate Enumerates(tree: Tree, paths: seq<Path>) {
    Distinct(paths) && forall p :: p in paths <==> Listed(tree, p)
  }

  // Records in order.

  predicate RecordLe(a: Record, b: Record) {
    if a.name != b.name then ComponentLe(a.name, b.name)
    else if a.mtime != b.mtime then a.mtime <= b.mtime
    else a.size <= b.size
  }

  lemma RecordOrder()
    ensures TotalOrder(RecordLe)
  {
    ComponentOrder();
  }

  // The walk.

  /**
    * Where the walk stands: directories expanded, those still on the stack, and the paths recorded.
    * Of the directory `d` just taken from the stack, the children in `left` are still to be looked at.
    */
  ghost predicate Expanding(tree: Tree, expanded: set<Path>, stack: seq<Path>, paths: seq<Path>, d: Path, left: set<Path>) {
    var seen := (p: Path) => p != [] && (Parent(p) in expanded || (Parent(p) == d && p !in left));
    && Distinct(stack) && Distinct(paths) && expanded <= tree.Keys && d !in expanded && d !in stack && left <= Children(tree, d)
    && (forall q :: q in stack ==> Reached(tree, q) && tree[q].Directory? && q !in expanded)
    && (forall q :: q in stack || q in expanded || q == d ==> q == [] || seen(q))
    && ([] in expanded || [] in stack || d == [])
    && (forall c :: c in tree && seen(c) && Reached(tree, c) && tree[c].Directory? ==> c in expanded || c in stack || c == d)
    && (forall p :: p in paths <==> Listed(tree, p) && seen(p))
  }

  ghost predicate Walking(tree: Tree, expanded: set<Path>, stack: seq<Path>, paths: seq<Path>) {
    && Distinct(stack) && Distinct(paths) && expanded <= tree.Keys
    && (forall q :: q in stack ==> Reached(tree, q) && tree[q].Directory? && q !in expanded)
    && (forall q :: q in stack || q in expanded ==> q == [] || Parent(q) in expanded)
    && ([] in expanded || [] in stack)
    && (forall c :: c in tree && c != [] && Parent(c) in expanded && Reached(tree, c) && tree[c].Directory? ==> c in expanded || c in stack)
    && (forall p :: p in paths <==> Listed(tree, p) && Parent(p) in expanded)
  }

  /** When the stack is empty every directory that can be reached has been expanded. */
  lemma {:induction false} AllExpanded(tree: Tree, expanded: set<Path>, paths: seq<Path>, d: Path)
    requires Walking(tree, expanded, [], paths) && Reached(tree, d) && tree[d].Directory?
    ensures d in expanded
    decreases |d|
  {
    if d != [] {
      ParentReached(tree, d);
      AllExpanded(tree, expanded, paths, Parent(d));
    }
  }

  lemma WalkedAll(tree: Tree, expanded: set<Path>, paths: seq<Path>)
    requires Walking(tree, expanded, [], paths)
    ensures Enumerates(tree, paths)
  {
    forall p | Listed(tree, p) ensures Parent(p) in expanded {
      ParentReached(tree, p);
      AllExpanded(tree, expanded, paths, Parent(p));
    }
  }

  lemma LastOff(stack: seq<Path>)
    requires Distinct(stack) && stack != []
    ensures
      var d, front := stack[|stack| - 1], stack[..|stack| - 1];
      Distinct(front) && d !in front && forall q :: q in stack <==> q in front || q == d
  {
    assert stack == stack[..|stack| - 1] + [stack[|stack| - 1]];
  }

  lemma InParent(tree: Tree, c: Path)
    requires c in tree && c != []
    ensures c in Children(tree, Parent(c))
  {
    assert Parent(c) == c[..|Parent(c)|];
  }

  lemma Pop(tree: Tree, expanded: set<Path>, stack: seq<Path>, paths: seq<Path>)
    requires Walking(tree, expanded, stack, paths) && stack != []
    ensures var d := stack[|stack| - 1]; Expanding(tree, expanded, stack[..|stack| - 1], paths, d, Children(tree, d))
  {
    var d := stack[|stack| - 1];
    LastOff(stack);
    forall c | c in tree && c != [] && Parent(c) == d ensures c in Children(tree, d) {
      InParent(tree, c);
    }
  }

  /** An unreadable directory lists nothing; a readable one is done when nothing is left. */
  lemma Done(tree: Tree, expanded: set<Path>, stack: seq<Path>, paths: seq<Path>, d: Path, left: set<Path>)
    requires Expanding(tree, expanded, stack, paths, d, left) && d in tree && (left == {} || !Readable(tree, d))
    ensures Walking(tree, expanded + {d}, stack, paths)
  {
    forall c | c in tree && c != [] && Parent(c) == d && Reached(tree, c) ensures left == {} {
      ParentReached(tree, c);
    }
  }

  lemma LookAt(tree: Tree, expanded: set<Path>, stack: seq<Path>, paths: seq<Path>, d: Path, left: set<Path>, c: Path)
    requires Expanding(tree, expanded, stack, paths, d, left) && c in left && Reached(tree, d) && Readable(tree, d)
    ensures tree[c].Directory? ==> Expanding(tree, expanded, stack + [c], paths, d, left - {c})
    ensures Recorded(tree[c]) ==> Listed(tree, c) && Expanding(tree, expanded, stack, paths + [c], d, left - {c})
    ensures !tree[c].Directory? && !Recorded(tree[c]) ==> Expanding(tree, expanded, stack, paths, d, left - {c})
  {
    ChildReached(tree, d, c);
    assert Parent(c) == d;
  }

  /** The sorted records of every listed path, each once. */
  ghost predicate IsListing(tree: Tree, records: seq<Record>) {
    && OrderedBy(RecordLe, records)
    && exists paths :: Enumerates(tree, paths) && multiset(records) == multiset(RecordsAt(tree, paths))
  }

  /** The entries are the records of these paths, in the order in which the walk met them. */
  ghost predicate Keeps(tree: Tree, entries: seq<Record>, paths: seq<Path>) {
    (forall i :: 0 <= i < |paths| ==> Listed(tree, paths[i])) && entries == RecordsAt(tree, paths)
  }

  lemma KeepsSnoc(tree: Tree, entries: seq<Record>, paths: seq<Path>, c: Path)
    requires Keeps(tree, entries, paths) && Listed(tree, c)
    ensures Keeps(tree, entries + [RecordAt(tree, c)], paths + [c])
  {
  }

  /** Look at one entry of a directory: push it, record it, or pass over it. */
  method LookAtEntry(tree: Tree, d: Path, c: Path, stack: seq<Path>, entries: seq<Record>,
                     ghost expanded: set<Path>, ghost paths: seq<Path>, ghost left: set<Path>)
    returns (stack': seq<Path>, entries': seq<Record>, ghost paths': seq<Path>)
    requires Expanding(tree, expanded, stack, paths, d, left) && c in left && Reached(tree, d) && Readable(tree, d)
    requires Keeps(tree, entries, paths)
    ensures Expanding(tree, expanded, stack', paths', d, left - {c}) && Keeps(tree, entries', paths')
  {
    LookAt(tree, expanded, stack, paths, d, left, c);
    stack', entries', paths' := stack, entries, paths;
    var node := tree[c];
    if node.Directory? {
      stack' := stack + [c];
    } else if Recorded(node) {
      KeepsSnoc(tree, entries, paths, c);
      entries', paths' := entries + [RecordOf(Joined(c), node)], paths + [c];
    }
  }

  /** Look at every entry of one directory, in whatever order they come. */
  method Expand(tree: Tree, d: Path, before: seq<Path>, entries: seq<Record>, ghost expanded: set<Path>, ghost paths: seq<Path>)
    returns (stack: seq<Path>, longer: seq<Record>, ghost recorded: seq<Path>)
    requires Expanding(tree, expanded, before, paths, d, Children(tree, d)) && Reached(tree, d) && Readable(tree, d)
    requires Keeps(tree, entries, paths)
    ensures Expanding(tree, expanded, stack, recorded, d, {}) && Keeps(tree, longer, recorded)
  {
    stack, longer, recorded := before, entries, paths;
    var left := Children(tree, d);
    while left != {}
      invariant Expanding(tree, expanded, stack, recorded, d, left) && Keeps(tree, longer, recorded)
      decreases |left|
    {
      var c :| c in left;
      stack, longer, recorded := LookAtEntry(tree, d, c, stack, longer, expanded, recorded, left);
      left := left - {c};
    }
  }

  /** The walk below a directory; an unreadable subdirectory is passed over. */
  method WalkFingerprint(tree: Tree, look: Look) returns (r: Result)
    requires look.Seen? ==> [] in tree && (tree[[]].File? || tree[[]].Directory? || tree[[]].Special?)
    ensures look.Missing? ==> r == Absent
    ensures look.Denied? ==> r == Unreadable(look.errno)
    ensures look.Seen? && tree[[]].File? ==> r == Records([Record(".", tree[[]].mtime, |tree[[]].data|)])
    ensures look.Seen? && tree[[]].Special? ==> r == Records([])
    ensures look.Seen? && tree[[]].Directory? ==> r.Records? && IsListing(tree, r.records)
  {
    if look.Missing? {
      return Absent;
    }
    if look.Denied? {
      return Unreadable(look.errno);
    }
    if tree[[]].File? {
      return Records([Record(".", tree[[]].mtime, |tree[[]].data|)]);
    }
    if tree[[]].Special? {
      // Listing it fails like an unreadable directory.
      return Records([]);
    }
    var entries: seq<Record>, stack: seq<Path> := [], [[]];
    ghost var expanded: set<Path>, paths: seq<Path> := {}, [];
    while stack != []
      invariant Walking(tree, expanded, stack, paths) && Keeps(tree, entries, paths)
      decreases |tree.Keys - expanded|
    {
      Pop(tree, expanded, stack, paths);
      var d := stack[|stack| - 1];
      assert d in tree.Keys - expanded;
      stack := stack[..|stack| - 1];
      if Readable(tree, d) {
        stack, entries, paths := Expand(tree, d, stack, entries, expanded, paths);
        Done(tree, expanded, stack, paths, d, {});
      } else {
        Done(tree, expanded, stack, paths, d, Children(tree, d));
      }
      assert tree.Keys - (expanded + {d}) < tree.Keys - expanded;
      expanded := expanded + {d};
    }
    WalkedAll(tree, expanded, paths);
    RecordOrder();
    var sorted := Sort(RecordLe, entries);
    r := Records(sorted);
  }

  function Members(q: seq<Path>): (m: set<Path>)
    ensures forall x :: x in m <==> x in q
  {
    set x | x in q
  }

  lemma RecordsWithout(tree: Tree, paths: seq<Path>, k: nat, rest: seq<Path>)
    requires k < |paths| && (forall x :: x in Members(paths) ==> Listed(tree, x)) && rest == paths[..k] + paths[k + 1..]
    ensures multiset(RecordsAt(tree, paths)) == multiset(RecordsAt(tree, rest)) + multiset{RecordAt(tree, paths[k])}
  {
    var all := RecordsAt(tree, paths);
    assert all == all[..k] + [all[k]] + all[k + 1..];
    assert RecordsAt(tree, rest) == all[..k] + all[k + 1..];
  }

  lemma HasMember(q: seq<Path>)
    requires q != []
    ensures exists x :: x in q
  {
    assert q[0] in q;
  }

  lemma WithoutOne(q: seq<Path>, k: nat)
    requires Distinct(q) && k < |q|
    ensures var rest := q[..k] + q[k + 1..]; Distinct(rest) && Members(rest) == Members(q) - {q[k]}
  {
    var rest := q[..k] + q[k + 1..];
    forall x | x in q && x != q[k] ensures x in rest {
      var j :| 0 <= j < |q| && q[j] == x;
      assert x == if j < k then rest[j] else rest[j - 1];
    }
  }

  /** The first of the one is somewhere in the other; without it both still have the same members. */
  lemma MatchFirst(p: seq<Path>, q: seq<Path>) returns (k: nat)
    requires Distinct(p) && Distinct(q) && Members(p) == Members(q) && p != []
    ensures k < |q| && q[k] == p[0]
    ensures Distinct(p[1..]) && Distinct(q[..k] + q[k + 1..]) && Members(p[1..]) == Members(q[..k] + q[k + 1..]) == Members(p) - {p[0]}
  {
    assert p[0] in Members(q);
    k :| 0 <= k < |q| && q[k] == p[0];
    assert p[..0] + p[1..] == p[1..];
    WithoutOne(p, 0);
    WithoutOne(q, k);
  }

  /** Two enumerations of the same paths give the same records, in some order. */
  lemma {:induction false} SameRecords(tree: Tree, p: seq<Path>, q: seq<Path>)
    requires Distinct(p) && Distinct(q) && Members(p) == Members(q)
    requires forall x :: x in Members(p) ==> Listed(tree, x)
    ensures multiset(RecordsAt(tree, p)) == multiset(RecordsAt(tree, q))
    decreases |p|
  {
    if q != [] {
      HasMember(q);
    }
    if p != [] {
      var k := MatchFirst(p, q);
      SameRecords(tree, p[1..], q[..k] + q[k + 1..]);
      RecordsWithout(tree, p, 0, p[1..]);
      RecordsWithout(tree, q, k, q[..k] + q[k + 1..]);
    }
  }

  /** The listing depends on the tree alone, not on the order in which directories list their entries. */
  lemma ListingUnique(tree: Tree, a: seq<Record>, b: seq<Record>)
    requires IsListing(tree, a) && IsListing(tree, b)
    ensures a == b
  {
    var p :| Enumerates(tree, p) && multiset(a) == multiset(RecordsAt(tree, p));
    var q :| Enumerates(tree, q) && multiset(b) == multiset(RecordsAt(tree, q));
    assert Members(p) == Members(q);
    SameRecords(tree, p, q);
    RecordOrder();
    OrderedUnique(RecordLe, a, b);
  }

  // What the listing says of the tree.

  /** Names hold no separator. */
  ghost predicate Named(tree: Tree) {
    forall p, k :: p in tree && 0 <= k < |p| ==> '/' !in p[k]
  }

  lemma LastSlash(a: string, x: string, b: string, y: string)
    requires '/' !in x && '/' !in y && a + "/" + x == b + "/" + y
    ensures a == b && x == y
  {
    var s, t := a + "/" + x, b + "/" + y;
    assert |a| + 1 + |x| == |s| == |t| == |b| + 1 + |y|;
    assert s[|a|] == '/' && t[|b|] == '/';
    forall k | |a| < k < |s| ensures s[k] != '/' {
      assert s[k] == x[k - |a| - 1];
    }
    forall k | |b| < k < |t| ensures t[k] != '/' {
      assert t[k] == y[k - |b| - 1];
    }
    assert |a| == |b|;
    assert a == s[..|a|] && b == t[..|b|] && x == s[|a| + 1..] && y == t[|b| + 1..];
  }

  lemma JoinedHasSlash(p: Path)
    requires |p| > 1
    ensures '/' in Joined(p)
  {
    assert Joined(p)[|Joined(p[..|p| - 1])|] == '/';
  }

  /** Different paths are recorded under different names. */
  lemma {:induction false} JoinedInjective(p: Path, q: Path)
    requires p != [] && q != [] && Joined(p) == Joined(q)
    requires (forall k :: 0 <= k < |p| ==> '/' !in p[k]) && forall k :: 0 <= k < |q| ==> '/' !in q[k]
    ensures p == q
    decreases |p|
  {
    if |p| > 1 {
      JoinedHasSlash(p);
    }
    if |q| > 1 {
      JoinedHasSlash(q);
    }
    if |p| > 1 && |q| > 1 {
      LastSlash(Joined(p[..|p| - 1]), p[|p| - 1], Joined(q[..|q| - 1]), q[|q| - 1]);
      JoinedInjective(p[..|p| - 1], q[..|q| - 1]);
      assert p == p[..|p| - 1] + [p[|p| - 1]] && q == q[..|q| - 1] + [q[|q| - 1]];
    }
  }

  /** Time and size of what a recorded entry is or leads to. */
  predicate HasTimeAndSize(node: Node, mtime: nat, size: nat) {
    match node
    case File(data, t) => t == mtime && |data| == size
    case Special(n, t) => t == mtime && n == size
    case Link(_, ToFile(n, t)) => t == mtime && n == size
    case _ => false
  }

  lemma ListedIn(tree: Tree, records: seq<Record>, p: Path)
    requires IsListing(tree, records) && Listed(tree, p)
    ensures RecordAt(tree, p) in records
  {
    var paths :| Enumerates(tree, paths) && multiset(records) == multiset(RecordsAt(tree, paths));
    assert p in paths;
    var k :| 0 <= k < |paths| && paths[k] == p;
    assert RecordsAt(tree, paths)[k] in multiset(RecordsAt(tree, paths));
  }

  lemma ListedFrom(tree: Tree, records: seq<Record>, r: Record) returns (p: Path)
    requires IsListing(tree, records) && r in records
    ensures Listed(tree, p) && RecordAt(tree, p) == r
  {
    var paths :| Enumerates(tree, paths) && multiset(records) == multiset(RecordsAt(tree, paths));
    assert r in multiset(RecordsAt(tree, paths));
    var k :| 0 <= k < |paths| && RecordsAt(tree, paths)[k] == r;
    p := paths[k];
    assert p in paths;
  }

  /** Everything reached below the root is listed, except directories, links that lead to no file, and what is gone. */
  lemma ListedMeans(tree: Tree, p: Path)
    ensures Listed(tree, p) <==>
            && p != [] && p in tree && (forall k :: 0 <= k < |p| ==> p[..k] in tree && tree[p[..k]].Directory? && tree[p[..k]].readable)
            && !tree[p].Directory? && !tree[p].Vanished? && (tree[p].Link? ==> tree[p].lead.ToFile?)
  {
  }

  /** Two trees have one listing only if they have the same entries recorded, with the same times and sizes. */
  lemma ListingDetermines(a: Tree, b: Tree, records: seq<Record>, p: Path, mtime: nat, size: nat)
    requires Named(a) && Named(b) && IsListing(a, records) && IsListing(b, records)
    requires Listed(a, p) && HasTimeAndSize(a[p], mtime, size)
    ensures Listed(b, p) && HasTimeAndSize(b[p], mtime, size)
  {
    ListedIn(a, records, p);
    var q := ListedFrom(b, records, RecordAt(a, p));
    JoinedInjective(p, q);
  }
}
