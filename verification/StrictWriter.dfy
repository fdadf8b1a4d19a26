/** What a strict leaf's declarations allow it to change, judged from observations before and after. */
module StrictWriter {
  import opened Paths

  datatype Mode = Read | Write | Create

  datatype Columns = Unknown | Declared(create: set<string>, remove: set<string>)

  datatype Root = Unrooted | At(path: Path)

  datatype Access = Access(
    root: Root,
    mode: Mode,
    undeclared: bool,          // a whole-dataset writer assumed for want of a declaration
    table: string,
    columns: Columns,
    rows: bool,                // may change the number of rows
    schema: bool,              // may change columns, subtables and closure membership
    keywords: bool,            // may change keyword names
    subtables: set<string>,    // may change these opaque subtables
    rewrite: bool)             // may rewrite the files of supported subtables that stay in place

  datatype Stamp = Stamp(size: nat, mtime: nat, inode: nat, mode: nat, ctime: nat)

  /** One physical table: where it is, which tables it is, and which files beside it belong to it. */
  datatype Resource = Resource(path: Path, members: set<string>, tableFiles: set<string>)

  datatype Observation = Observation(
    nrows: int,
    columns: set<string>,
    keywords: set<string>,
    subtables: set<string>,
    resources: seq<Resource>,
    files: map<Path, Stamp>,
    tableColumns: map<string, set<string>>,   // where known
    rest: nat)                                // everything else that was observed

  datatype Seen = Nothing | Observed(o: Observation)

  const MAIN := "MAIN"

  const TABLES: seq<string> := [
    MAIN, "ANTENNA", "DATA_DESCRIPTION", "DOPPLER", "FEED", "FIELD", "FLAG_CMD", "FREQ_OFFSET", "HISTORY", "OBSERVATION",
    "POINTING", "POLARIZATION", "PROCESSOR", "SOURCE", "SPECTRAL_WINDOW", "STATE", "SYSCAL", "WEATHER"
  ]

  // Observations member by member.

  /** A file of a table is the table's own path or one of its listed files directly below it. */
  predicate OwnFile(r: Resource, f: Path) {
    f == r.path || (f != [] && Parent(f) == r.path && f[|f| - 1] in r.tableFiles)
  }

  /** Stamps without the change time, which also moves when only a mode or link changes. */
  function Content(s: Stamp): Stamp {
    s.(ctime := 0)
  }

  function OwnContent(o: Observation, r: Resource): map<Path, Stamp> {
    map f | f in o.files && OwnFile(r, f) :: Content(o.files[f])
  }

  datatype Membership = NotMember | Member(resource: Resource)

  /** The resource of a member; of several the last. */
  function ResourceOf(resources: seq<Resource>, member: string): Membership {
    if resources == [] then NotMember
    else
      var last := resources[|resources| - 1];
      if member in last.members then Member(last) else ResourceOf(resources[..|resources| - 1], member)
  }

  function Members(resources: seq<Resource>): (s: set<string>)
    ensures forall m :: m in s <==> ResourceOf(resources, m).Member?
  {
    if resources == [] then {} else Members(resources[..|resources| - 1]) + resources[|resources| - 1].members
  }

  predicate FilesChanged(before: Observation, after: Observation, member: string) {
    var b, a := ResourceOf(before.resources, member), ResourceOf(after.resources, member);
    b.NotMember? || a.NotMember? || OwnContent(before, b.resource) != OwnContent(after, a.resource)
  }

  /** Members whose own backing files changed. */
  function ChangedTables(before: Observation, after: Observation): set<string> {
    set m | m in Members(before.resources) + Members(after.resources) && FilesChanged(before, after, m)
  }

  function Writers(accesses: seq<Access>): seq<Access> {
    if accesses == [] then []
    else Writers(accesses[..|accesses| - 1]) + if accesses[|accesses| - 1].mode.Read? then [] else [accesses[|accesses| - 1]]
  }

  predicate AnyRewrite(writers: seq<Access>) {
    exists w :: w in writers && w.rewrite
  }

  function Supported(): set<string> {
    (set t | t in TABLES) - {MAIN}
  }

  /** Supported subtables present before, when some writer may rewrite them. */
  function GrantTargets(writers: seq<Access>, before: Seen): set<string> {
    if before.Nothing? || !AnyRewrite(writers) then {} else Members(before.o.resources) * Supported()
  }

  function PathOf(m: Membership): Root {
    if m.Member? then At(m.resource.path) else Unrooted
  }

  /** Those of them that are still at the same path. */
  function StableGrants(writers: seq<Access>, before: Seen, after: Observation): set<string> {
    set m | m in GrantTargets(writers, before) && PathOf(ResourceOf(after.resources, m)) == PathOf(ResourceOf(before.o.resources, m))
  }

  // Columns, table by table.

  datatype Issue =
    | MissingEvidence(table: string)
    | AbsentColumns(table: string, names: set<string>)
    | LingeringColumns(table: string, names: set<string>)
    | SchemaChanged(table: string)
    | UndeclaredCreated(table: string, names: set<string>)
    | UndeclaredRemoved(table: string, names: set<string>)
    | ReaderChanged | Gone | Existed | WasAbsent
    | RowsChanged | SubtablesChanged | MembershipChanged
    | KeywordsChanged(names: set<string>)
    | OpaqueChanged(names: set<string>)
    | Touched(names: set<string>)

  datatype Evidence = Unseen | Known(columns: set<string>)

  function EvidenceOf(o: Observation, t: string): Evidence {
    if t == MAIN then Known(o.columns) else if t in o.tableColumns then Known(o.tableColumns[t]) else Unseen
  }

  predicate Present(o: Observation, t: string) {
    t == MAIN || t in Members(o.resources)
  }

  function KnownColumns(e: Evidence): set<string> {
    if e.Known? then e.columns else {}
  }

  predicate Applies(w: Access, t: string) {
    w.table == t || w.undeclared
  }

  predicate AnyApplies(writers: seq<Access>, t: string) {
    exists w :: w in writers && Applies(w, t)
  }

  predicate AnySchema(writers: seq<Access>, t: string) {
    exists w :: w in writers && Applies(w, t) && w.schema
  }

  predicate AllDeclared(writers: seq<Access>, t: string) {
    forall w :: w in writers && Applies(w, t) ==> w.columns.Declared? && !w.undeclared
  }

  function DeclaredCreate(writers: seq<Access>, t: string): set<string> {
    if writers == [] then {}
    else
      var w := writers[|writers| - 1];
      DeclaredCreate(writers[..|writers| - 1], t) + if w.table == t && w.columns.Declared? then w.columns.create else {}
  }

  function DeclaredRemove(writers: seq<Access>, t: string): set<string> {
    if writers == [] then {}
    else
      var w := writers[|writers| - 1];
      DeclaredRemove(writers[..|writers| - 1], t) + if w.table == t && w.columns.Declared? then w.columns.remove else {}
  }

  function Flag(names: set<string>, issue: Issue): seq<Issue> {
    if names == {} then [] else [issue]
  }

  /** Missing evidence on a present table is unknown, never an empty schema. */
  predicate EvidenceMissing(t: string, before: Seen, after: Observation) {
    (before.Observed? && Present(before.o, t) && EvidenceOf(before.o, t).Unseen?) || (Present(after, t) && EvidenceOf(after, t).Unseen?)
  }

  function ChangeIssues(t: string, writers: seq<Access>, was: set<string>, now: set<string>): seq<Issue> {
    if (was - now) + (now - was) != {} && !AnySchema(writers, t) then [SchemaChanged(t)]
    else if AnySchema(writers, t) && AllDeclared(writers, t) then
      Flag(now - was - DeclaredCreate(writers, t), UndeclaredCreated(t, now - was - DeclaredCreate(writers, t)))
      + Flag(was - now - DeclaredRemove(writers, t), UndeclaredRemoved(t, was - now - DeclaredRemove(writers, t)))
    else []
  }

  function TableIssues(t: string, writers: seq<Access>, before: Seen, after: Observation): seq<Issue> {
    if EvidenceMissing(t, before, after) then
      if AnyApplies(writers, t) || t in GrantTargets(writers, before) then [MissingEvidence(t)] else []
    else
      var was := if before.Observed? then KnownColumns(EvidenceOf(before.o, t)) else {};
      var now := KnownColumns(EvidenceOf(after, t));
      Flag(DeclaredCreate(writers, t) - now, AbsentColumns(t, DeclaredCreate(writers, t) - now))
      + Flag(DeclaredRemove(writers, t) * now, LingeringColumns(t, DeclaredRemove(writers, t) * now))
      + if before.Observed? && Present(before.o, t) && Present(after, t) then ChangeIssues(t, writers, was, now) else []
  }

  /** What a strict leaf's contract asks of one table, unless evidence is missing: then nobody may depend on it. */
  predicate TableOk(t: string, writers: seq<Access>, before: Seen, after: Observation) {
    if EvidenceMissing(t, before, after) then !AnyApplies(writers, t) && t !in GrantTargets(writers, before)
    else
      var was := if before.Observed? then KnownColumns(EvidenceOf(before.o, t)) else {};
      var now := KnownColumns(EvidenceOf(after, t));
      && DeclaredCreate(writers, t) <= now && DeclaredRemove(writers, t) !! now
      && (before.Observed? && Present(before.o, t) && Present(after, t) ==>
            && (was != now ==> AnySchema(writers, t))
            && (AnySchema(writers, t) && AllDeclared(writers, t) ==>
                  now - was <= DeclaredCreate(writers, t) && was - now <= DeclaredRemove(writers, t)))
  }

  lemma EmptyDifference(a: set<string>, b: set<string>)
    ensures a - b == {} <==> a <= b
  {
    assert forall x :: x in a - b <==> x in a && x !in b;
  }

  lemma NoChangeIssues(t: string, writers: seq<Access>, was: set<string>, now: set<string>)
    ensures ChangeIssues(t, writers, was, now) == [] <==>
            && (was != now ==> AnySchema(writers, t))
            && (AnySchema(writers, t) && AllDeclared(writers, t) ==>
                  now - was <= DeclaredCreate(writers, t) && was - now <= DeclaredRemove(writers, t))
  {
    EmptyDifference(was, now);
    EmptyDifference(now, was);
    EmptyDifference(now - was, DeclaredCreate(writers, t));
    EmptyDifference(was - now, DeclaredRemove(writers, t));
  }

  lemma NoTableIssues(t: string, writers: seq<Access>, before: Seen, after: Observation)
    ensures TableIssues(t, writers, before, after) == [] <==> TableOk(t, writers, before, after)
  {
    if !EvidenceMissing(t, before, after) {
      var was := if before.Observed? then KnownColumns(EvidenceOf(before.o, t)) else {};
      var now := KnownColumns(EvidenceOf(after, t));
      EmptyDifference(DeclaredCreate(writers, t), now);
      NoChangeIssues(t, writers, was, now);
    }
  }

  method TableColumnIssues(tables: seq<string>, writers: seq<Access>, before: Seen, after: Observation) returns (issues: seq<Issue>)
    ensures issues == [] <==> forall t :: t in tables ==> TableOk(t, writers, before, after)
  {
    issues := [];
    for n := 0 to |tables|
      invariant issues == [] <==> forall k :: 0 <= k < n ==> TableOk(tables[k], writers, before, after)
    {
      NoTableIssues(tables[n], writers, before, after);
      issues := issues + TableIssues(tables[n], writers, before, after);
    }
  }

  // One dataset.

  function AllowedSubtables(writers: seq<Access>): set<string> {
    if writers == [] then {} else AllowedSubtables(writers[..|writers| - 1]) + writers[|writers| - 1].subtables
  }

  function DeclaredTables(writers: seq<Access>): set<string> {
    set w | w in writers :: w.table
  }

  function Differing(a: set<string>, b: set<string>): set<string> {
    (a - b) + (b - a)
  }

  predicate SameMembership(before: Observation, after: Observation, except: set<string>) {
    forall m :: m in Members(before.resources) + Members(after.resources) - except ==>
                  PathOf(ResourceOf(before.resources, m)) == PathOf(ResourceOf(after.resources, m))
  }

  function ChangedKeywords(before: Observation, after: Observation): set<string> {
    Differing(before.keywords, after.keywords) - Differing(before.subtables, after.subtables)
    - (Differing(Members(before.resources), Members(after.resources)) - {MAIN})
  }

  function OpaqueChanges(writers: seq<Access>, before: Observation, after: Observation): set<string> {
    ChangedTables(before, after) - (set t | t in TABLES) - AllowedSubtables(writers)
  }

  function Permitted(writers: seq<Access>, before: Observation, after: Observation): set<string> {
    DeclaredTables(writers) + AllowedSubtables(writers) + StableGrants(writers, Observed(before), after)
  }

  /** What a writer of an existing dataset may not have changed. */
  function WriterIssues(writers: seq<Access>, before: Observation, after: Observation): seq<Issue> {
    var schema := exists w :: w in writers && w.schema;
    (if before.nrows != after.nrows && !exists w :: w in writers && w.rows then [RowsChanged] else [])
    + (if Differing(before.subtables, after.subtables) != {} && !schema then [SubtablesChanged] else [])
    + (if !SameMembership(before, after, AllowedSubtables(writers)) && !schema then [MembershipChanged] else [])
    + (if ChangedKeywords(before, after) != {} && !exists w :: w in writers && w.keywords then [KeywordsChanged(ChangedKeywords(before, after))] else [])
    + Flag(OpaqueChanges(writers, before, after), OpaqueChanged(OpaqueChanges(writers, before, after)))
    + if exists w :: w in writers && w.undeclared then []
    else Flag(ChangedTables(before, after) - Permitted(writers, before, after), Touched(ChangedTables(before, after) - Permitted(writers, before, after)))
  }

  /** Rows, subtables, membership and keywords change only with permission, and files only of permitted tables. */
  ghost predicate WriterOk(writers: seq<Access>, before: Observation, after: Observation) {
    && (before.nrows != after.nrows ==> exists w :: w in writers && w.rows)
    && (before.subtables != after.subtables ==> exists w :: w in writers && w.schema)
    && (!SameMembership(before, after, AllowedSubtables(writers)) ==> exists w :: w in writers && w.schema)
    && (ChangedKeywords(before, after) != {} ==> exists w :: w in writers && w.keywords)
    && OpaqueChanges(writers, before, after) == {}
    && ((exists w :: w in writers && w.undeclared) || ChangedTables(before, after) <= Permitted(writers, before, after))
  }

  lemma NoWriterIssues(writers: seq<Access>, before: Observation, after: Observation)
    ensures WriterIssues(writers, before, after) == [] <==> WriterOk(writers, before, after)
  {
    EmptyDifference(ChangedTables(before, after), Permitted(writers, before, after));
    EmptyDifference(before.subtables, after.subtables);
    EmptyDifference(after.subtables, before.subtables);
  }

  /** Evidence that only one side has is no change. */
  predicate Unchanged(before: Seen, after: Seen) {
    if before.Nothing? || after.Nothing? then before == after
    else
      && before.o.(tableColumns := map[]) == after.o.(tableColumns := map[])
      && forall t :: t in before.o.tableColumns && t in after.o.tableColumns ==> before.o.tableColumns[t] == after.o.tableColumns[t]
  }

  function Mine(accesses: seq<Access>, root: Path): seq<Access> {
    if accesses == [] then []
    else Mine(accesses[..|accesses| - 1], root) + if accesses[|accesses| - 1].root == At(root) then [accesses[|accesses| - 1]] else []
  }

  function SeenAt(observed: map<Path, Observation>, root: Path): Seen {
    if root in observed then Observed(observed[root]) else Nothing
  }

  /** Everything a strict leaf's contract asks of one dataset. */
  ghost predicate RootOk(writers: seq<Access>, before: Seen, after: Seen) {
    if writers == [] then Unchanged(before, after)
    else
      && after.Observed?
      && (forall t :: t in TABLES ==> TableOk(t, writers, before, after.o))
      && if exists w :: w in writers && w.mode.Create? then before.Nothing?
         else before.Observed? && WriterOk(writers, before.o, after.o)
  }

  method RootIssues(mine: seq<Access>, before: Seen, after: Seen) returns (issues: seq<Issue>)
    ensures issues == [] <==> RootOk(Writers(mine), before, after)
  {
    var writers := Writers(mine);
    if writers == [] {
      return if Unchanged(before, after) then [] else [ReaderChanged];
    }
    if after.Nothing? {
      return [Gone];
    }
    issues := TableColumnIssues(TABLES, writers, before, after.o);
    if exists w :: w in writers && w.mode.Create? {
      if before.Observed? {
        issues := issues + [Existed];
      }
    } else if before.Nothing? {
      issues := issues + [WasAbsent];
    } else {
      NoWriterIssues(writers, before.o, after.o);
      issues := issues + WriterIssues(writers, before.o, after.o);
    }
  }

  ghost predicate RootOkAt(accesses: seq<Access>, pre: map<Path, Observation>, post: map<Path, Observation>, root: Path) {
    RootOk(Writers(Mine(accesses, root)), SeenAt(pre, root), SeenAt(post, root))
  }

  ghost predicate LeafOk(accesses: seq<Access>, pre: map<Path, Observation>, post: map<Path, Observation>) {
    forall a :: a in accesses && a.root.At? ==> RootOkAt(accesses, pre, post, a.root.path)
  }

  /** Every way in which a leaf's observed change exceeds its contract, dataset by dataset. */
  method LeafPostconditionIssues(accesses: seq<Access>, pre: map<Path, Observation>, post: map<Path, Observation>) returns (issues: seq<Issue>)
    ensures issues == [] <==> LeafOk(accesses, pre, post)
  {
    issues := [];
    var roots := set a | a in accesses && a.root.At? :: a.root.path;
    var left := roots;
    while left != {}
      invariant left <= roots
      invariant issues == [] <==> forall r :: r in roots - left ==> RootOkAt(accesses, pre, post, r)
      decreases |left|
    {
      var root :| root in left;
      var more := RootIssues(Mine(accesses, root), SeenAt(pre, root), SeenAt(post, root));
      assert more == [] <==> RootOkAt(accesses, pre, post, root);
      assert issues + more == [] <==> issues == [] && more == [];
      issues := issues + more;
      left := left - {root};
    }
    assert forall a :: a in accesses && a.root.At? ==> a.root.path in roots;
  }

  // What acceptance means.

  /** A file of member `m` appeared, disappeared, or has other contents than before. */
  predicate FileChanged(before: Observation, after: Observation, m: string, f: Path) {
    var b, a := ResourceOf(before.resources, m), ResourceOf(after.resources, m);
    var was, now := b.Member? && f in before.files && OwnFile(b.resource, f), a.Member? && f in after.files && OwnFile(a.resource, f);
    if was && now then
      var x, y := before.files[f], after.files[f];
      x.size != y.size || x.mtime != y.mtime || x.inode != y.inode || x.mode != y.mode
    else was || now
  }

  lemma FileChangedMember(before: Observation, after: Observation, m: string, f: Path)
    requires FileChanged(before, after, m, f)
    ensures m in ChangedTables(before, after)
  {
    var b, a := ResourceOf(before.resources, m), ResourceOf(after.resources, m);
    if b.Member? && a.Member? {
      var bc, ac := OwnContent(before, b.resource), OwnContent(after, a.resource);
      assert (f in bc && f in ac ==> bc[f] != ac[f]) && (f in bc || f in ac) && (f in bc <==> f in ac ==> f in bc);
    }
  }

  /** The leaf was accepted, and it writes the dataset at `root`, which was there before. */
  ghost predicate AcceptedWriter(accesses: seq<Access>, pre: map<Path, Observation>, post: map<Path, Observation>, root: Path) {
    LeafOk(accesses, pre, post) && Writers(Mine(accesses, root)) != [] && root in pre
  }

  lemma {:induction false} MineAreMine(accesses: seq<Access>, root: Path)
    ensures forall a :: a in Mine(accesses, root) <==> a in accesses && a.root == At(root)
  {
    if accesses != [] {
      MineAreMine(accesses[..|accesses| - 1], root);
      assert accesses == accesses[..|accesses| - 1] + [accesses[|accesses| - 1]];
    }
  }

  /** Acceptance, for the one dataset. */
  lemma AcceptedRoot(accesses: seq<Access>, pre: map<Path, Observation>, post: map<Path, Observation>, root: Path)
    requires AcceptedWriter(accesses, pre, post, root)
    ensures root in post && (forall t :: t in TABLES ==> TableOk(t, Writers(Mine(accesses, root)), Observed(pre[root]), post[root]))
    ensures WriterOk(Writers(Mine(accesses, root)), pre[root], post[root])
  {
    var mine := Mine(accesses, root);
    MineAreMine(accesses, root);
    assert mine != [] by {
      assert mine == [] ==> Writers(mine) == [];
    }
    assert mine[0] in accesses;
    assert RootOkAt(accesses, pre, post, root);
  }

  /**
    * An accepted writer of an existing dataset changed files only of tables it declares, of opaque
    * subtables it may change, or of subtables it may rewrite that stayed where they were; a writer
    * assumed for want of a declaration at least no opaque subtable that it may not change.
    */
  lemma AcceptedStaysInside(
    accesses: seq<Access>, pre: map<Path, Observation>, post: map<Path, Observation>, root: Path, m: string, f: Path)
    requires AcceptedWriter(accesses, pre, post, root)
    requires root in post ==> FileChanged(pre[root], post[root], m, f)
    ensures var writers := Writers(Mine(accesses, root));
            && root in post
            && (m in TABLES || m in AllowedSubtables(writers))
            && ((forall w :: w in writers ==> !w.undeclared) ==> m in Permitted(writers, pre[root], post[root]))
  {
    AcceptedRoot(accesses, pre, post, root);
    FileChangedMember(pre[root], post[root], m, f);
    assert m !in OpaqueChanges(Writers(Mine(accesses, root)), pre[root], post[root]);
  }

  /** Rows, keywords, subtables and closure membership change only when some declared writer of the dataset may change them. */
  lemma AcceptedChangesPermitted(accesses: seq<Access>, pre: map<Path, Observation>, post: map<Path, Observation>, root: Path)
    requires AcceptedWriter(accesses, pre, post, root)
    ensures root in post
    ensures pre[root].nrows != post[root].nrows ==> exists a :: a in accesses && a.root == At(root) && a.rows
    ensures ChangedKeywords(pre[root], post[root]) != {} ==> exists a :: a in accesses && a.root == At(root) && a.keywords
    ensures pre[root].subtables != post[root].subtables ==> exists a :: a in accesses && a.root == At(root) && a.schema
    ensures (exists m :: m in Members(pre[root].resources) + Members(post[root].resources) - AllowedSubtables(Writers(Mine(accesses, root)))
                         && PathOf(ResourceOf(pre[root].resources, m)) != PathOf(ResourceOf(post[root].resources, m))) ==>
              exists a :: a in accesses && a.root == At(root) && a.schema
  {
    AcceptedRoot(accesses, pre, post, root);
    MineAreMine(accesses, root);
    WritersAreAccesses(Mine(accesses, root));
  }

  lemma {:induction false} WritersAreAccesses(accesses: seq<Access>)
    ensures forall w :: w in Writers(accesses) <==> w in accesses && !w.mode.Read?
  {
    if accesses != [] {
      WritersAreAccesses(accesses[..|accesses| - 1]);
      assert accesses == accesses[..|accesses| - 1] + [accesses[|accesses| - 1]];
    }
  }

  /** So do the columns of a table; and what was promised of them is so. */
  lemma AcceptedColumns(accesses: seq<Access>, pre: map<Path, Observation>, post: map<Path, Observation>, root: Path, t: string)
    requires AcceptedWriter(accesses, pre, post, root) && t in TABLES && AnyApplies(Writers(Mine(accesses, root)), t)
    requires root in post ==> Present(pre[root], t) && Present(post[root], t)
    ensures root in post
    ensures
      var writers, was, now := Writers(Mine(accesses, root)), EvidenceOf(pre[root], t), EvidenceOf(post[root], t);
      && was.Known? && now.Known?
      && DeclaredCreate(writers, t) <= now.columns && DeclaredRemove(writers, t) !! now.columns
      && (was.columns != now.columns ==> AnySchema(writers, t))
      && (AnySchema(writers, t) && AllDeclared(writers, t) ==>
            now.columns - was.columns <= DeclaredCreate(writers, t) && was.columns - now.columns <= DeclaredRemove(writers, t))
  {
    AcceptedRoot(accesses, pre, post, root);
    assert TableOk(t, Writers(Mine(accesses, root)), Observed(pre[root]), post[root]);
  }

  // What it asks of readers and creators.

  ghost predicate OnlyReads(accesses: seq<Access>, root: Path) {
    forall a :: a in accesses && a.root == At(root) ==> a.mode.Read?
  }

  /** Nothing that was observed of the dataset differs; of table columns, nothing known on both sides. */
  ghost predicate Untouched(pre: map<Path, Observation>, post: map<Path, Observation>, root: Path) {
    && (root in pre <==> root in post)
    && (root in pre ==>
          var b, a := pre[root], post[root];
          && a.nrows == b.nrows && a.columns == b.columns && a.keywords == b.keywords && a.subtables == b.subtables
          && a.resources == b.resources && a.files == b.files && a.rest == b.rest
          && forall t :: t in b.tableColumns && t in a.tableColumns ==> a.tableColumns[t] == b.tableColumns[t])
  }

  lemma NoWriters(accesses: seq<Access>, root: Path)
    ensures Writers(Mine(accesses, root)) == [] <==> OnlyReads(accesses, root)
  {
    MineAreMine(accesses, root);
    WritersAreAccesses(Mine(accesses, root));
    if Writers(Mine(accesses, root)) != [] {
      assert Writers(Mine(accesses, root))[0] in Writers(Mine(accesses, root));
    }
    if !OnlyReads(accesses, root) {
      var a :| a in accesses && a.root == At(root) && !a.mode.Read?;
      assert a in Writers(Mine(accesses, root));
    }
  }

  lemma ReadRoot(accesses: seq<Access>, pre: map<Path, Observation>, post: map<Path, Observation>, root: Path)
    requires OnlyReads(accesses, root)
    ensures RootOkAt(accesses, pre, post, root) <==> Untouched(pre, post, root)
  {
    NoWriters(accesses, root);
  }

  /** A dataset that the leaf only reads is accepted exactly when nothing observed of it changed. */
  lemma AcceptedReader(accesses: seq<Access>, pre: map<Path, Observation>, post: map<Path, Observation>)
    ensures LeafOk(accesses, pre, post) ==>
              forall a :: a in accesses && a.root.At? && OnlyReads(accesses, a.root.path) ==> Untouched(pre, post, a.root.path)
    ensures (forall a :: a in accesses ==> a.mode.Read?) ==>
              (LeafOk(accesses, pre, post) <==> forall a :: a in accesses && a.root.At? ==> Untouched(pre, post, a.root.path))
  {
    forall a | a in accesses && a.root.At? && OnlyReads(accesses, a.root.path)
      ensures RootOkAt(accesses, pre, post, a.root.path) <==> Untouched(pre, post, a.root.path)
    {
      ReadRoot(accesses, pre, post, a.root.path);
    }
    assert (forall a :: a in accesses ==> a.mode.Read?) ==> forall a :: a in accesses && a.root.At? ==> OnlyReads(accesses, a.root.path);
  }

  /** A created dataset was absent and is there; any other that the leaf writes was there and still is. */
  lemma AcceptedPresence(accesses: seq<Access>, pre: map<Path, Observation>, post: map<Path, Observation>, root: Path)
    requires LeafOk(accesses, pre, post) && !OnlyReads(accesses, root)
    ensures root in post
    ensures root in pre <==> forall a :: a in accesses && a.root == At(root) ==> !a.mode.Create?
  {
    var a :| a in accesses && a.root == At(root) && !a.mode.Read?;
    assert RootOkAt(accesses, pre, post, root);
    NoWriters(accesses, root);
    MineAreMine(accesses, root);
    WritersAreAccesses(Mine(accesses, root));
  }

  /** What one writer promises of a table's columns is so, in a created dataset as in any other. */
  lemma AcceptedPromises(accesses: seq<Access>, pre: map<Path, Observation>, post: map<Path, Observation>, root: Path, w: Access)
    requires LeafOk(accesses, pre, post) && w in accesses && w.root == At(root) && !w.mode.Read?
    requires w.columns.Declared? && w.table in TABLES
    ensures root in post && (Present(post[root], w.table) ==> EvidenceOf(post[root], w.table).Known?)
    ensures
      var now := KnownColumns(EvidenceOf(post[root], w.table));
      w.columns.create <= now && w.columns.remove !! now
  {
    assert RootOkAt(accesses, pre, post, root);
    MineAreMine(accesses, root);
    WritersAreAccesses(Mine(accesses, root));
    var writers := Writers(Mine(accesses, root));
    assert w in writers && Applies(w, w.table);
    assert TableOk(w.table, writers, SeenAt(pre, root), post[root]);
    DeclaredAre(writers, w);
  }

  lemma {:induction false} DeclaredAre(writers: seq<Access>, w: Access)
    requires w in writers && w.columns.Declared?
    ensures w.columns.create <= DeclaredCreate(writers, w.table) && w.columns.remove <= DeclaredRemove(writers, w.table)
  {
    if w != writers[|writers| - 1] {
      DeclaredAre(writers[..|writers| - 1], w);
    }
  }

  // Acceptance, item by item and access by access.

  ghost predicate Writes(accesses: seq<Access>, root: Path, a: Access) {
    a in accesses && a.root == At(root) && !a.mode.Read?
  }

  lemma WritersWrite(accesses: seq<Access>, root: Path)
    ensures forall a :: a in Writers(Mine(accesses, root)) <==> Writes(accesses, root, a)
  {
    MineAreMine(accesses, root);
    WritersAreAccesses(Mine(accesses, root));
  }

  lemma {:induction false} MembersAre(resources: seq<Resource>, m: string)
    ensures m in Members(resources) <==> exists r :: r in resources && m in r.members
  {
    if resources != [] {
      MembersAre(resources[..|resources| - 1], m);
      assert resources == resources[..|resources| - 1] + [resources[|resources| - 1]];
    }
  }

  lemma {:induction false} CreateIs(writers: seq<Access>, t: string, c: string)
    ensures c in DeclaredCreate(writers, t) <==> exists w :: w in writers && w.table == t && w.columns.Declared? && c in w.columns.create
  {
    if writers != [] {
      CreateIs(writers[..|writers| - 1], t, c);
      assert writers == writers[..|writers| - 1] + [writers[|writers| - 1]];
    }
  }

  lemma {:induction false} RemoveIs(writers: seq<Access>, t: string, c: string)
    ensures c in DeclaredRemove(writers, t) <==> exists w :: w in writers && w.table == t && w.columns.Declared? && c in w.columns.remove
  {
    if writers != [] {
      RemoveIs(writers[..|writers| - 1], t, c);
      assert writers == writers[..|writers| - 1] + [writers[|writers| - 1]];
    }
  }

  lemma {:induction false} AllowedAre(writers: seq<Access>, m: string)
    ensures m in AllowedSubtables(writers) <==> exists w :: w in writers && m in w.subtables
  {
    if writers != [] {
      AllowedAre(writers[..|writers| - 1], m);
      assert writers == writers[..|writers| - 1] + [writers[|writers| - 1]];
    }
  }

  lemma OwnFileMeans(r: Resource, f: Path)
    ensures OwnFile(r, f) <==> f == r.path || exists name :: name in r.tableFiles && f == r.path + [name]
  {
    if f != [] {
      assert f == Parent(f) + [f[|f| - 1]];
    }
    if name :| name in r.tableFiles && f == r.path + [name] {
      assert Parent(f) == r.path;
    }
  }

  /** Of several resources with a member, its files are those of the last. */
  lemma {:induction false} ResourceIs(resources: seq<Resource>, m: string, k: nat)
    requires k < |resources| && m in resources[k].members && forall j :: k < j < |resources| ==> m !in resources[j].members
    ensures ResourceOf(resources, m) == Member(resources[k])
  {
    if k != |resources| - 1 {
      assert m !in resources[|resources| - 1].members;
      ResourceIs(resources[..|resources| - 1], m, k);
    }
  }

  /** The table is there. */
  ghost predicate Has(o: Observation, t: string) {
    t == MAIN || exists r :: r in o.resources && t in r.members
  }

  /** Its columns were seen, and this is one of them. */
  ghost predicate Lists(o: Observation, t: string, c: string) {
    if t == MAIN then c in o.columns else t in o.tableColumns && c in o.tableColumns[t]
  }

  /** It is there, and its columns were not seen. */
  ghost predicate Blind(o: Observation, t: string) {
    Has(o, t) && t != MAIN && t !in o.tableColumns
  }

  /** Some writer may change the columns of this table. */
  ghost predicate SchemaGranted(accesses: seq<Access>, root: Path, t: string) {
    exists a :: Writes(accesses, root, a) && (a.table == t || a.undeclared) && a.schema
  }

  /** Some writer of this table does not say which columns. */
  ghost predicate OpenEnded(accesses: seq<Access>, root: Path, t: string) {
    exists a :: Writes(accesses, root, a) && (a.undeclared || (a.table == t && a.columns.Unknown?))
  }

  ghost predicate Creates(accesses: seq<Access>, root: Path, t: string, c: string) {
    exists a :: Writes(accesses, root, a) && a.table == t && a.columns.Declared? && c in a.columns.create
  }

  ghost predicate Removes(accesses: seq<Access>, root: Path, t: string, c: string) {
    exists a :: Writes(accesses, root, a) && a.table == t && a.columns.Declared? && c in a.columns.remove
  }

  ghost predicate Rewrites(accesses: seq<Access>, root: Path) {
    exists a :: Writes(accesses, root, a) && a.rewrite
  }

  ghost predicate PromisesKept(accesses: seq<Access>, root: Path, after: Observation, t: string) {
    && (forall c :: Creates(accesses, root, t, c) ==> Lists(after, t, c))
    && forall c :: Removes(accesses, root, t, c) ==> !Lists(after, t, c)
  }

  /** Every column that came or went did so by grant, and as declared unless some writer does not say. */
  ghost predicate ChangeGranted(accesses: seq<Access>, root: Path, before: Observation, after: Observation, t: string) {
    forall c :: Lists(before, t, c) != Lists(after, t, c) ==>
                  && SchemaGranted(accesses, root, t)
                  && (OpenEnded(accesses, root, t)
                      || if Lists(after, t, c) then Creates(accesses, root, t, c) else Removes(accesses, root, t, c))
  }

  /** Columns that cannot be seen must be nobody's concern; otherwise promises are kept, and changes granted. */
  ghost predicate ColumnsAllowed(accesses: seq<Access>, root: Path, before: Seen, after: Observation, t: string) {
    if (before.Observed? && Blind(before.o, t)) || Blind(after, t) then
      && (forall a :: Writes(accesses, root, a) ==> a.table != t && !a.undeclared)
      && (before.Observed? && t != MAIN && t in TABLES && Has(before.o, t) ==> !Rewrites(accesses, root))
    else
      && PromisesKept(accesses, root, after, t)
      && (before.Observed? && Has(before.o, t) && Has(after, t) ==> ChangeGranted(accesses, root, before.o, after, t))
  }

  lemma BlindIsMissing(before: Seen, after: Observation, t: string)
    ensures EvidenceMissing(t, before, after) <==> (before.Observed? && Blind(before.o, t)) || Blind(after, t)
  {
    MembersAre(after.resources, t);
    if before.Observed? {
      MembersAre(before.o.resources, t);
    }
  }

  lemma ListsKnown(o: Observation, t: string)
    ensures forall c :: c in KnownColumns(EvidenceOf(o, t)) <==> Lists(o, t, c)
    ensures Present(o, t) <==> Has(o, t)
  {
    MembersAre(o.resources, t);
  }

  lemma DeclaredBy(accesses: seq<Access>, root: Path, t: string)
    ensures forall c :: c in DeclaredCreate(Writers(Mine(accesses, root)), t) <==> Creates(accesses, root, t, c)
    ensures forall c :: c in DeclaredRemove(Writers(Mine(accesses, root)), t) <==> Removes(accesses, root, t, c)
  {
    var writers := Writers(Mine(accesses, root));
    WritersWrite(accesses, root);
    forall c ensures c in DeclaredCreate(writers, t) <==> Creates(accesses, root, t, c) {
      CreateIs(writers, t, c);
    }
    forall c ensures c in DeclaredRemove(writers, t) <==> Removes(accesses, root, t, c) {
      RemoveIs(writers, t, c);
    }
  }

  lemma GrantedBy(accesses: seq<Access>, root: Path, t: string)
    ensures
      var writers := Writers(Mine(accesses, root));
      && (AnySchema(writers, t) <==> SchemaGranted(accesses, root, t))
      && (AllDeclared(writers, t) <==> !OpenEnded(accesses, root, t))
      && (AnyApplies(writers, t) <==> exists a :: Writes(accesses, root, a) && (a.table == t || a.undeclared))
      && (AnyRewrite(writers) <==> Rewrites(accesses, root))
  {
    WritersWrite(accesses, root);
  }

  lemma ChangesMean(was: set<string>, now: set<string>, create: set<string>, remove: set<string>, granted: bool, open: bool)
    ensures
      (forall c :: c in was + now && (c in was <==> c !in now) ==> granted && (open || if c in now then c in create else c in remove)) <==>
      (was != now ==> granted) && (granted && !open ==> now - was <= create && was - now <= remove)
  {
    if was != now {
      var c :| (c in was + now) && (c in was <==> c !in now);
    }
  }

  lemma MissingMeans(accesses: seq<Access>, root: Path, before: Seen, t: string)
    ensures
      var writers := Writers(Mine(accesses, root));
      !AnyApplies(writers, t) && t !in GrantTargets(writers, before) <==>
      && (forall a :: Writes(accesses, root, a) ==> a.table != t && !a.undeclared)
      && (before.Observed? && t != MAIN && t in TABLES && Has(before.o, t) ==> !Rewrites(accesses, root))
  {
    GrantedBy(accesses, root, t);
    if before.Observed? {
      MembersAre(before.o.resources, t);
    }
  }

  lemma SeenMeans(accesses: seq<Access>, root: Path, before: Observation, after: Observation, t: string)
    ensures
      var writers := Writers(Mine(accesses, root));
      var was, now := KnownColumns(EvidenceOf(before, t)), KnownColumns(EvidenceOf(after, t));
      ChangeGranted(accesses, root, before, after, t) <==>
      && (was != now ==> AnySchema(writers, t))
      && (AnySchema(writers, t) && AllDeclared(writers, t) ==>
            now - was <= DeclaredCreate(writers, t) && was - now <= DeclaredRemove(writers, t))
  {
    var writers := Writers(Mine(accesses, root));
    GrantedBy(accesses, root, t);
    DeclaredBy(accesses, root, t);
    ListsKnown(before, t);
    ListsKnown(after, t);
    ChangesMean(KnownColumns(EvidenceOf(before, t)), KnownColumns(EvidenceOf(after, t)),
                DeclaredCreate(writers, t), DeclaredRemove(writers, t), AnySchema(writers, t), !AllDeclared(writers, t));
  }

  lemma PromisesMean(accesses: seq<Access>, root: Path, after: Observation, t: string)
    ensures
      var writers, now := Writers(Mine(accesses, root)), KnownColumns(EvidenceOf(after, t));
      DeclaredCreate(writers, t) <= now && DeclaredRemove(writers, t) !! now <==> PromisesKept(accesses, root, after, t)
  {
    DeclaredBy(accesses, root, t);
    ListsKnown(after, t);
  }

  lemma TableOkMeans(accesses: seq<Access>, root: Path, before: Seen, after: Observation, t: string)
    ensures TableOk(t, Writers(Mine(accesses, root)), before, after) <==> ColumnsAllowed(accesses, root, before, after, t)
  {
    BlindIsMissing(before, after, t);
    if EvidenceMissing(t, before, after) {
      MissingMeans(accesses, root, before, t);
    } else {
      PromisesMean(accesses, root, after, t);
      if before.Observed? {
        ListsKnown(before.o, t);
        ListsKnown(after, t);
        SeenMeans(accesses, root, before.o, after, t);
      }
    }
  }

  /** The member's files are not as they were, or only one side has the member. */
  ghost predicate Altered(before: Observation, after: Observation, m: string) {
    var b, a := ResourceOf(before.resources, m), ResourceOf(after.resources, m);
    if b.Member? && a.Member? then exists f :: FileChanged(before, after, m, f) else b.Member? || a.Member?
  }

  lemma AlteredMeans(before: Observation, after: Observation, m: string)
    ensures m in ChangedTables(before, after) <==> Altered(before, after, m)
  {
    var b, a := ResourceOf(before.resources, m), ResourceOf(after.resources, m);
    if b.Member? && a.Member? {
      var bc, ac := OwnContent(before, b.resource), OwnContent(after, a.resource);
      if bc != ac {
        assert exists f :: (f in bc <==> f !in ac) || (f in bc && f in ac && bc[f] != ac[f]);
        var f :| (f in bc <==> f !in ac) || (f in bc && f in ac && bc[f] != ac[f]);
        assert FileChanged(before, after, m, f);
      } else if f :| FileChanged(before, after, m, f) {
        FileChangedMember(before, after, m, f);
      }
    }
  }

  /** A keyword came or went that is not the link of a subtable that did. */
  ghost predicate KeywordMoved(before: Observation, after: Observation, k: string) {
    && (k in before.keywords <==> k !in after.keywords)
    && (k in before.subtables <==> k in after.subtables)
    && (k == MAIN || (ResourceOf(before.resources, k).Member? <==> ResourceOf(after.resources, k).Member?))
  }

  ghost predicate Named(accesses: seq<Access>, root: Path, m: string) {
    exists a :: Writes(accesses, root, a) && m in a.subtables
  }

  ghost predicate Relocated(before: Observation, after: Observation, m: string) {
    PathOf(ResourceOf(before.resources, m)) != PathOf(ResourceOf(after.resources, m))
  }

  /** Who may alter a member's files: opaque ones only by name, known ones also as a declared table, by a rewrite in place or undeclared. */
  ghost predicate MayAlter(accesses: seq<Access>, root: Path, before: Observation, after: Observation, m: string) {
    || Named(accesses, root, m)
    || (m in TABLES
        && (|| (exists a :: Writes(accesses, root, a) && (a.table == m || a.undeclared))
            || (m != MAIN && ResourceOf(before.resources, m).Member? && !Relocated(before, after, m) && Rewrites(accesses, root))))
  }

  ghost predicate ChangesAllowed(accesses: seq<Access>, root: Path, before: Observation, after: Observation) {
    && (before.nrows != after.nrows ==> exists a :: Writes(accesses, root, a) && a.rows)
    && ((exists k :: KeywordMoved(before, after, k)) ==> exists a :: Writes(accesses, root, a) && a.keywords)
    && (before.subtables != after.subtables || (exists m :: Relocated(before, after, m) && !Named(accesses, root, m)) ==>
          exists a :: Writes(accesses, root, a) && a.schema)
    && forall m :: Altered(before, after, m) ==> MayAlter(accesses, root, before, after, m)
  }

  lemma KeywordMovedMeans(before: Observation, after: Observation)
    ensures ChangedKeywords(before, after) != {} <==> exists k :: KeywordMoved(before, after, k)
  {
    forall k ensures k in ChangedKeywords(before, after) <==> KeywordMoved(before, after, k) {
    }
    if ChangedKeywords(before, after) != {} {
      var k :| k in ChangedKeywords(before, after);
    }
  }

  lemma RelocatedMeans(accesses: seq<Access>, root: Path, before: Observation, after: Observation)
    ensures SameMembership(before, after, AllowedSubtables(Writers(Mine(accesses, root)))) <==>
            !exists m :: Relocated(before, after, m) && !Named(accesses, root, m)
  {
    var writers := Writers(Mine(accesses, root));
    WritersWrite(accesses, root);
    forall m ensures m in AllowedSubtables(writers) <==> Named(accesses, root, m) {
      AllowedAre(writers, m);
    }
    forall m | Relocated(before, after, m) ensures m in Members(before.resources) + Members(after.resources) {
    }
  }

  lemma StableMeans(accesses: seq<Access>, root: Path, before: Observation, after: Observation, m: string)
    ensures m in StableGrants(Writers(Mine(accesses, root)), Observed(before), after) <==>
            m in TABLES && m != MAIN && ResourceOf(before.resources, m).Member? && !Relocated(before, after, m) && Rewrites(accesses, root)
  {
    GrantedBy(accesses, root, m);
  }

  lemma DeclaredMeans(accesses: seq<Access>, root: Path, m: string)
    ensures m in DeclaredTables(Writers(Mine(accesses, root))) <==> exists a :: Writes(accesses, root, a) && a.table == m
    ensures m in AllowedSubtables(Writers(Mine(accesses, root))) <==> Named(accesses, root, m)
    ensures (exists w :: w in Writers(Mine(accesses, root)) && w.undeclared) <==> exists a :: Writes(accesses, root, a) && a.undeclared
  {
    WritersWrite(accesses, root);
    AllowedAre(Writers(Mine(accesses, root)), m);
  }

  lemma MayAlterMeans(accesses: seq<Access>, root: Path, before: Observation, after: Observation, m: string)
    ensures
      var writers := Writers(Mine(accesses, root));
      MayAlter(accesses, root, before, after, m) <==>
      && (m in TABLES || m in AllowedSubtables(writers))
      && ((exists w :: w in writers && w.undeclared) || m in Permitted(writers, before, after))
  {
    StableMeans(accesses, root, before, after, m);
    DeclaredMeans(accesses, root, m);
  }

  lemma AltersMean(accesses: seq<Access>, root: Path, before: Observation, after: Observation)
    ensures
      var writers := Writers(Mine(accesses, root));
      (forall m :: Altered(before, after, m) ==> MayAlter(accesses, root, before, after, m)) <==>
      && OpaqueChanges(writers, before, after) == {}
      && ((exists w :: w in writers && w.undeclared) || ChangedTables(before, after) <= Permitted(writers, before, after))
  {
    var writers := Writers(Mine(accesses, root));
    var changed, permitted, free :=
      ChangedTables(before, after), Permitted(writers, before, after), exists w :: w in writers && w.undeclared;
    forall m ensures m in changed <==> Altered(before, after, m) {
      AlteredMeans(before, after, m);
    }
    forall m ensures MayAlter(accesses, root, before, after, m) <==>
                     (m in TABLES || m in AllowedSubtables(writers)) && (free || m in permitted)
    {
      MayAlterMeans(accesses, root, before, after, m);
    }
    EmptyDifference(changed - (set t | t in TABLES), AllowedSubtables(writers));
  }

  lemma WriterOkMeans(accesses: seq<Access>, root: Path, before: Observation, after: Observation)
    ensures WriterOk(Writers(Mine(accesses, root)), before, after) <==> ChangesAllowed(accesses, root, before, after)
  {
    WritersWrite(accesses, root);
    KeywordMovedMeans(before, after);
    RelocatedMeans(accesses, root, before, after);
    AltersMean(accesses, root, before, after);
  }

  /** What a leaf may have done to one dataset, in terms of its accesses and of what was observed. */
  ghost predicate Within(accesses: seq<Access>, pre: map<Path, Observation>, post: map<Path, Observation>, root: Path) {
    if OnlyReads(accesses, root) then Untouched(pre, post, root)
    else
      && root in post
      && (forall t :: t in TABLES ==> ColumnsAllowed(accesses, root, SeenAt(pre, root), post[root], t))
      && if exists a :: Writes(accesses, root, a) && a.mode.Create? then root !in pre
         else root in pre && ChangesAllowed(accesses, root, pre[root], post[root])
  }

  lemma WithinMeans(accesses: seq<Access>, pre: map<Path, Observation>, post: map<Path, Observation>, root: Path)
    ensures RootOkAt(accesses, pre, post, root) <==> Within(accesses, pre, post, root)
  {
    NoWriters(accesses, root);
    if OnlyReads(accesses, root) {
      ReadRoot(accesses, pre, post, root);
    } else if root in post {
      WritersWrite(accesses, root);
      forall t | t in TABLES
        ensures TableOk(t, Writers(Mine(accesses, root)), SeenAt(pre, root), post[root]) <==>
                ColumnsAllowed(accesses, root, SeenAt(pre, root), post[root], t)
      {
        TableOkMeans(accesses, root, SeenAt(pre, root), post[root], t);
      }
      if root in pre {
        WriterOkMeans(accesses, root, pre[root], post[root]);
      }
    }
  }

  /** A leaf is accepted exactly when it stayed within its accesses on every dataset. */
  lemma AcceptedMeans(accesses: seq<Access>, pre: map<Path, Observation>, post: map<Path, Observation>)
    ensures LeafOk(accesses, pre, post) <==> forall a :: a in accesses && a.root.At? ==> Within(accesses, pre, post, a.root.path)
  {
    forall a | a in accesses && a.root.At?
      ensures RootOkAt(accesses, pre, post, a.root.path) <==> Within(accesses, pre, post, a.root.path)
    {
      WithinMeans(accesses, pre, post, a.root.path);
    }
  }

  // Widening permissions.

  /** `b` may do all that `a` may, and differs in nothing else. */
  predicate Widened(a: Access, b: Access) {
    && b == a.(rows := b.rows, schema := b.schema, keywords := b.keywords, subtables := b.subtables, rewrite := b.rewrite)
    && (a.rows ==> b.rows) && (a.schema ==> b.schema) && (a.keywords ==> b.keywords) && a.subtables <= b.subtables && (a.rewrite ==> b.rewrite)
  }

  predicate AllWidened(xs: seq<Access>, ys: seq<Access>) {
    |xs| == |ys| && forall i :: 0 <= i < |xs| ==> Widened(xs[i], ys[i])
  }

  lemma WidenedFront(xs: seq<Access>, ys: seq<Access>)
    requires AllWidened(xs, ys) && xs != []
    ensures AllWidened(xs[..|xs| - 1], ys[..|ys| - 1]) && Widened(xs[|xs| - 1], ys[|ys| - 1])
  {
  }

  lemma {:induction false} WritersWiden(xs: seq<Access>, ys: seq<Access>)
    requires AllWidened(xs, ys)
    ensures AllWidened(Writers(xs), Writers(ys))
  {
    if xs != [] {
      WidenedFront(xs, ys);
      WritersWiden(xs[..|xs| - 1], ys[..|ys| - 1]);
    }
  }

  lemma {:induction false} MineWiden(xs: seq<Access>, ys: seq<Access>, root: Path)
    requires AllWidened(xs, ys)
    ensures AllWidened(Mine(xs, root), Mine(ys, root))
  {
    if xs != [] {
      WidenedFront(xs, ys);
      MineWiden(xs[..|xs| - 1], ys[..|ys| - 1], root);
    }
  }

  lemma {:induction false} ColumnsSame(xs: seq<Access>, ys: seq<Access>, t: string)
    requires AllWidened(xs, ys)
    ensures DeclaredCreate(xs, t) == DeclaredCreate(ys, t) && DeclaredRemove(xs, t) == DeclaredRemove(ys, t)
    ensures AllowedSubtables(xs) <= AllowedSubtables(ys)
  {
    if xs != [] {
      WidenedFront(xs, ys);
      ColumnsSame(xs[..|xs| - 1], ys[..|ys| - 1], t);
    }
  }

  /** What some writer says, some widened writer says. */
  lemma SomeWiden(xs: seq<Access>, ys: seq<Access>, w: Access) returns (v: Access)
    requires AllWidened(xs, ys) && w in xs
    ensures v in ys && Widened(w, v)
  {
    var i :| 0 <= i < |xs| && xs[i] == w;
    v := ys[i];
  }

  lemma SomeNarrow(xs: seq<Access>, ys: seq<Access>, v: Access) returns (w: Access)
    requires AllWidened(xs, ys) && v in ys
    ensures w in xs && Widened(w, v)
  {
    var i :| 0 <= i < |ys| && ys[i] == v;
    w := xs[i];
  }

  /** Flags that widening cannot change, and one it can only raise. */
  lemma AppliesWiden(xs: seq<Access>, ys: seq<Access>, t: string)
    requires AllWidened(xs, ys)
    ensures AnyApplies(xs, t) == AnyApplies(ys, t)
    ensures AnySchema(xs, t) ==> AnySchema(ys, t)
  {
    if w :| w in xs && Applies(w, t) && w.schema {
      var v := SomeWiden(xs, ys, w);
    }
    if w :| w in xs && Applies(w, t) {
      var v := SomeWiden(xs, ys, w);
    }
    if v :| v in ys && Applies(v, t) {
      var w := SomeNarrow(xs, ys, v);
    }
  }

  lemma DeclaredWiden(xs: seq<Access>, ys: seq<Access>, t: string)
    requires AllWidened(xs, ys)
    ensures AllDeclared(xs, t) ==> AllDeclared(ys, t)
    ensures AllDeclared(ys, t) ==> AllDeclared(xs, t)
  {
    if AllDeclared(xs, t) {
      forall v | v in ys && Applies(v, t) ensures v.columns.Declared? && !v.undeclared {
        var w := SomeNarrow(xs, ys, v);
      }
    }
    if AllDeclared(ys, t) {
      forall w | w in xs && Applies(w, t) ensures w.columns.Declared? && !w.undeclared {
        var v := SomeWiden(xs, ys, w);
      }
    }
  }

  lemma RewriteWiden(xs: seq<Access>, ys: seq<Access>)
    requires AllWidened(xs, ys)
    ensures AnyRewrite(xs) ==> AnyRewrite(ys)
    ensures DeclaredTables(xs) == DeclaredTables(ys)
  {
    if w :| w in xs && w.rewrite {
      var v := SomeWiden(xs, ys, w);
    }
    forall t | t in DeclaredTables(xs) ensures t in DeclaredTables(ys) {
      var w :| w in xs && w.table == t;
      var v := SomeWiden(xs, ys, w);
    }
    forall t | t in DeclaredTables(ys) ensures t in DeclaredTables(xs) {
      var v :| v in ys && v.table == t;
      var w := SomeNarrow(xs, ys, v);
    }
  }

  /** Among the writers, the first rewrite grant now covers a table of the dataset that no writer names and whose columns are unknown. */
  predicate GrantLacksEvidence(xs: seq<Access>, ys: seq<Access>, before: Seen, after: Observation, t: string) {
    && before.Observed? && !AnyRewrite(xs) && AnyRewrite(ys)
    && t in Members(before.o.resources) && t in Supported() && !AnyApplies(ys, t)
    && EvidenceMissing(t, before, after)
  }

  lemma TableWidens(t: string, xs: seq<Access>, ys: seq<Access>, before: Seen, after: Observation)
    requires AllWidened(xs, ys) && TableOk(t, xs, before, after)
    ensures TableOk(t, ys, before, after) <==> !GrantLacksEvidence(xs, ys, before, after, t)
  {
    RewriteWiden(xs, ys);
    AppliesWiden(xs, ys, t);
    DeclaredWiden(xs, ys, t);
    ColumnsSame(xs, ys, t);
  }

  lemma WriterWidens(xs: seq<Access>, ys: seq<Access>, before: Observation, after: Observation)
    requires AllWidened(xs, ys) && WriterOk(xs, before, after)
    ensures WriterOk(ys, before, after)
  {
    RewriteWiden(xs, ys);
    ColumnsSame(xs, ys, MAIN);
    forall w | w in xs ensures exists v :: v in ys && Widened(w, v) {
      var v := SomeWiden(xs, ys, w);
    }
    assert OpaqueChanges(ys, before, after) <= OpaqueChanges(xs, before, after);
    assert Permitted(xs, before, after) <= Permitted(ys, before, after);
  }

  /** No first rewrite grant of one dataset lacks the evidence it asks for. */
  ghost predicate GrantsEvidenced(xs: seq<Access>, ys: seq<Access>, before: Seen, after: Seen) {
    after.Observed? ==> forall t :: t in TABLES ==> !GrantLacksEvidence(xs, ys, before, after.o, t)
  }

  lemma ModesWiden(xs: seq<Access>, ys: seq<Access>)
    requires AllWidened(xs, ys)
    ensures (exists w :: w in xs && w.mode.Create?) <==> (exists v :: v in ys && v.mode.Create?)
  {
    if w :| w in xs && w.mode.Create? {
      var v := SomeWiden(xs, ys, w);
    }
    if v :| v in ys && v.mode.Create? {
      var w := SomeNarrow(xs, ys, v);
    }
  }

  lemma RootWidens(xs: seq<Access>, ys: seq<Access>, before: Seen, after: Seen)
    requires AllWidened(xs, ys) && RootOk(xs, before, after)
    ensures RootOk(ys, before, after) <==> GrantsEvidenced(xs, ys, before, after)
  {
    if xs != [] {
      forall t | t in TABLES ensures TableOk(t, ys, before, after.o) <==> !GrantLacksEvidence(xs, ys, before, after.o, t) {
        TableWidens(t, xs, ys, before, after.o);
      }
      ModesWiden(xs, ys);
      if before.Observed? && !exists w :: w in xs && w.mode.Create? {
        WriterWidens(xs, ys, before.o, after.o);
      }
    }
  }

  ghost predicate GrantsEvidencedAt(xs: seq<Access>, ys: seq<Access>, pre: map<Path, Observation>, post: map<Path, Observation>, root: Path) {
    GrantsEvidenced(Writers(Mine(xs, root)), Writers(Mine(ys, root)), SeenAt(pre, root), SeenAt(post, root))
  }

  lemma RootWidensAt(xs: seq<Access>, ys: seq<Access>, pre: map<Path, Observation>, post: map<Path, Observation>, root: Path)
    requires AllWidened(xs, ys) && RootOkAt(xs, pre, post, root)
    ensures RootOkAt(ys, pre, post, root) <==> GrantsEvidencedAt(xs, ys, pre, post, root)
  {
    MineWiden(xs, ys, root);
    WritersWiden(Mine(xs, root), Mine(ys, root));
    RootWidens(Writers(Mine(xs, root)), Writers(Mine(ys, root)), SeenAt(pre, root), SeenAt(post, root));
  }

  /**
    * Widening permissions turns acceptance into refusal exactly when it adds the first rewrite grant to an existing
    * dataset with a subtable that no writer names and whose columns are not known.
    */
  lemma WideningAsksEvidence(xs: seq<Access>, ys: seq<Access>, pre: map<Path, Observation>, post: map<Path, Observation>)
    requires AllWidened(xs, ys) && LeafOk(xs, pre, post)
    ensures LeafOk(ys, pre, post) <==> forall b :: b in ys && b.root.At? ==> GrantsEvidencedAt(xs, ys, pre, post, b.root.path)
  {
    forall b | b in ys && b.root.At? ensures RootOkAt(ys, pre, post, b.root.path) <==> GrantsEvidencedAt(xs, ys, pre, post, b.root.path) {
      var a := SomeNarrow(xs, ys, b);
      RootWidensAt(xs, ys, pre, post, b.root.path);
    }
  }

  lemma NoNewRewrite(xs: seq<Access>, ys: seq<Access>, root: Path)
    requires AllWidened(xs, ys) && forall i :: 0 <= i < |xs| ==> xs[i].rewrite == ys[i].rewrite
    ensures AnyRewrite(Writers(Mine(ys, root))) ==> AnyRewrite(Writers(Mine(xs, root)))
  {
    MineAreMine(xs, root);
    MineAreMine(ys, root);
    WritersAreAccesses(Mine(xs, root));
    WritersAreAccesses(Mine(ys, root));
    if v :| v in Writers(Mine(ys, root)) && v.rewrite {
      var i :| 0 <= i < |ys| && ys[i] == v;
      assert Widened(xs[i], ys[i]) && xs[i] in Mine(xs, root);
    }
  }

  /** So widening row, schema, keyword or named-subtable permissions never does. */
  lemma WideningKeepsAcceptance(xs: seq<Access>, ys: seq<Access>, pre: map<Path, Observation>, post: map<Path, Observation>)
    requires AllWidened(xs, ys) && LeafOk(xs, pre, post)
    requires forall i :: 0 <= i < |xs| ==> xs[i].rewrite == ys[i].rewrite
    ensures LeafOk(ys, pre, post)
  {
    forall b | b in ys && b.root.At? ensures GrantsEvidencedAt(xs, ys, pre, post, b.root.path) {
      NoNewRewrite(xs, ys, b.root.path);
    }
    WideningAsksEvidence(xs, ys, pre, post);
  }
}
