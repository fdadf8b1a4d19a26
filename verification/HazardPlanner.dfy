/** The incremental hazard planner: its object state refines the flat index of accesses. */
module HazardPlanner {
  import opened Paths
  import opened HazardSpec
  import opened AccessTrie

  datatype Mode = Read | Write | Create

  /** A dataset access resolved to the resources it covers. */
  datatype DatasetAccess = DatasetAccess(resources: seq<Path>, mode: Mode, exclusive: bool) {
    predicate RequiresExclusive() {
      mode != Read || exclusive
    }
  }

  datatype Decision = Refused | Decided(dependencies: set<Name>)

  predicate UnderAny(path: Path, resources: seq<Path>) {
    exists r :: r in resources && Under(path, r)
  }

  predicate WritesInto(generic: seq<Access>, resources: seq<Path>) {
    exists g :: g in generic && g.writes && UnderAny(g.path, resources)
  }

  /** A READ dataset whose step also declares a generic write inside it. */
  predicate HidesWrite(datasets: seq<DatasetAccess>, generic: seq<Access>) {
    datasets != [] &&
    var d := datasets[|datasets| - 1];
    HidesWrite(datasets[..|datasets| - 1], generic) || (d.mode == Read && WritesInto(generic, d.resources))
  }

  /** Some dataset declaration covers this generic path. */
  predicate Declared(datasets: seq<DatasetAccess>, path: Path) {
    datasets != [] && (Declared(datasets[..|datasets| - 1], path) || UnderAny(path, datasets[|datasets| - 1].resources))
  }

  /** The refusal: some READ declaration, some generic write, and a resource of the first above the second. */
  lemma {:induction false} HidesWriteIff(datasets: seq<DatasetAccess>, generic: seq<Access>)
    ensures HidesWrite(datasets, generic) <==>
            exists d, g :: d in datasets && d.mode == Read && g in generic && g.writes && UnderAny(g.path, d.resources)
  {
    if datasets != [] {
      HidesWriteIff(datasets[..|datasets| - 1], generic);
    }
  }

  lemma {:induction false} DeclaredIff(datasets: seq<DatasetAccess>, path: Path)
    ensures Declared(datasets, path) <==> exists d :: d in datasets && UnderAny(path, d.resources)
  {
    if datasets != [] {
      DeclaredIff(datasets[..|datasets| - 1], path);
    }
  }

  function DatasetResources(datasets: seq<DatasetAccess>): seq<Access> {
    if datasets == [] then []
    else
      var d := datasets[|datasets| - 1];
      DatasetResources(datasets[..|datasets| - 1]) + seq(|d.resources|, k requires 0 <= k < |d.resources| => Access(d.resources[k], d.RequiresExclusive()))
  }

  function Undeclared(datasets: seq<DatasetAccess>, generic: seq<Access>): seq<Access> {
    if generic == [] then []
    else
      var g := generic[|generic| - 1];
      Undeclared(datasets, generic[..|generic| - 1]) + if Declared(datasets, g.path) then [] else [g]
  }

  /** The accesses one step is planned with: its dataset resources, then the generic paths they do not cover. */
  function PlannedAccesses(datasets: seq<DatasetAccess>, generic: seq<Access>): seq<Access> {
    DatasetResources(datasets) + Undeclared(datasets, generic)
  }

  lemma {:induction false} DatasetResourcesHas(datasets: seq<DatasetAccess>, d: DatasetAccess, r: Path)
    requires d in datasets && r in d.resources
    ensures Access(r, d.RequiresExclusive()) in DatasetResources(datasets)
  {
    var last := datasets[|datasets| - 1];
    if d == last {
      var k :| 0 <= k < |d.resources| && d.resources[k] == r;
      var mine := seq(|d.resources|, k requires 0 <= k < |d.resources| => Access(d.resources[k], d.RequiresExclusive()));
      assert mine[k] == Access(r, d.RequiresExclusive());
    } else {
      DatasetResourcesHas(datasets[..|datasets| - 1], d, r);
    }
  }

  lemma {:induction false} UndeclaredHas(datasets: seq<DatasetAccess>, generic: seq<Access>, g: Access)
    requires g in generic && !Declared(datasets, g.path)
    ensures g in Undeclared(datasets, generic)
  {
    if g != generic[|generic| - 1] {
      UndeclaredHas(datasets, generic[..|generic| - 1], g);
    }
  }

  lemma {:induction false} DatasetResourcesOrigin(datasets: seq<DatasetAccess>, a: Access)
    requires a in DatasetResources(datasets)
    ensures exists d :: d in datasets && a.path in d.resources && a.writes == d.RequiresExclusive()
  {
    var init, last := datasets[..|datasets| - 1], datasets[|datasets| - 1];
    if a in DatasetResources(init) {
      DatasetResourcesOrigin(init, a);
    } else {
      assert last in datasets && a.path in last.resources;
    }
  }

  lemma DatasetResourcesAre(datasets: seq<DatasetAccess>, a: Access)
    ensures a in DatasetResources(datasets) <==>
            exists d :: d in datasets && a.path in d.resources && (a.writes <==> d.mode != Read || d.exclusive)
  {
    if a in DatasetResources(datasets) {
      DatasetResourcesOrigin(datasets, a);
    }
    if d :| d in datasets && a.path in d.resources && (a.writes <==> d.mode != Read || d.exclusive) {
      DatasetResourcesHas(datasets, d, a.path);
    }
  }

  lemma {:induction false} UndeclaredAre(datasets: seq<DatasetAccess>, generic: seq<Access>, a: Access)
    ensures a in Undeclared(datasets, generic) <==> a in generic && !Declared(datasets, a.path)
  {
    if generic != [] {
      UndeclaredAre(datasets, generic[..|generic| - 1], a);
    }
  }

  /**
    * A step is planned with every resource of its datasets, as a write when the dataset is written or
    * read exclusively, and with the generic paths that lie below none of these resources.
    */
  lemma PlannedAccessesAre(datasets: seq<DatasetAccess>, generic: seq<Access>, a: Access)
    ensures a in PlannedAccesses(datasets, generic) <==>
            || (exists d :: d in datasets && a.path in d.resources && (a.writes <==> d.mode != Read || d.exclusive))
            || (a in generic && forall d, r :: d in datasets && r in d.resources ==> !Under(a.path, r))
  {
    DatasetResourcesAre(datasets, a);
    UndeclaredAre(datasets, generic, a);
    DeclaredIff(datasets, a.path);
    assert (exists d :: d in datasets && UnderAny(a.path, d.resources)) <==> exists d, r :: d in datasets && r in d.resources && Under(a.path, r) by {
      if d :| d in datasets && UnderAny(a.path, d.resources) {
        var r :| r in d.resources && Under(a.path, r);
      }
      if d, r :| d in datasets && r in d.resources && Under(a.path, r) {
        assert UnderAny(a.path, d.resources);
      }
    }
  }

  /** `a` is planned by an access at or above it that is at least as strong. */
  ghost predicate CoveredBy(a: Access, planned: seq<Access>) {
    exists b :: b in planned && Under(a.path, b.path) && (a.writes ==> b.writes)
  }

  /**
    * Dropping the generic paths below a dataset resource loses no conflict: unless the step is
    * refused, every access it asked for is covered by a planned one.
    */
  lemma FilterKeepsCoverage(datasets: seq<DatasetAccess>, generic: seq<Access>, a: Access)
    requires !HidesWrite(datasets, generic)
    requires a in generic || exists d :: d in datasets && a.path in d.resources && a.writes == d.RequiresExclusive()
    ensures CoveredBy(a, PlannedAccesses(datasets, generic))
  {
    if a in generic && !Declared(datasets, a.path) {
      UndeclaredHas(datasets, generic, a);
      assert a in PlannedAccesses(datasets, generic);
    } else {
      var d, r;
      if a in generic {
        DeclaredIff(datasets, a.path);
        d :| d in datasets && UnderAny(a.path, d.resources);
        HidesWriteIff(datasets, generic);
        r :| r in d.resources && Under(a.path, r);
      } else {
        d :| d in datasets && a.path in d.resources && a.writes == d.RequiresExclusive();
        r := a.path;
      }
      DatasetResourcesHas(datasets, d, r);
      assert Access(r, d.RequiresExclusive()) in PlannedAccesses(datasets, generic);
    }
  }

  /** Two steps whose requested accesses conflict have planned accesses that conflict. */
  lemma CoveredConflict(a: Access, b: Access, xs: seq<Access>, ys: seq<Access>)
    requires Conflict(a, b) && CoveredBy(a, xs) && CoveredBy(b, ys)
    ensures AnyConflict(xs, ys)
  {
    var x :| x in xs && Under(a.path, x.path) && (a.writes ==> x.writes);
    var y :| y in ys && Under(b.path, y.path) && (b.writes ==> y.writes);
    var low := if a.path <= b.path then b.path else a.path;
    OverlapOfCommonDescendant(x.path, y.path, low);
  }

  ghost function StatesOf(nodes: Nodes): set<AccessState>
    reads nodes.Values`state
  {
    set p | p in nodes && nodes[p].state != null :: nodes[p].state
  }

  function SlotOf(state: AccessState): Slot
    reads state
  {
    Slot(state.lastWriter, state.readersSinceWrite)
  }

  /** The flat index that the objects of a trie represent. */
  ghost function View(nodes: Nodes): Index
    reads nodes.Values`state, StatesOf(nodes)
  {
    map p | p in nodes && nodes[p].state != null :: SlotOf(nodes[p].state)
  }

  /** The steps that the first `n` listed states make an access wait for. */
  ghost function Needs(states: seq<AccessState>, n: nat, name: Name, writes: bool): set<Name>
    requires n <= |states|
    reads set s | s in states
  {
    set k, m | 0 <= k < n && m in SlotRequires(SlotOf(states[k]), name, writes) :: m
  }

  lemma NeedsMore(states: seq<AccessState>, n: nat, name: Name, writes: bool)
    requires n < |states|
    ensures Needs(states, n + 1, name, writes) == Needs(states, n, name, writes) + SlotRequires(SlotOf(states[n]), name, writes)
  {
    forall m | m in SlotRequires(SlotOf(states[n]), name, writes) ensures m in Needs(states, n + 1, name, writes) {
    }
  }

  /** The listed states are exactly the slots of `index` that overlap `path`. */
  ghost predicate ListsSlots(states: seq<AccessState>, index: Index, path: Path)
    reads set s | s in states
  {
    && (forall k :: 0 <= k < |states| ==> states[k].at in Overlapping(index, path) && SlotOf(states[k]) == index[states[k].at])
    && (forall p :: p in Overlapping(index, path) ==> exists k :: 0 <= k < |states| && states[k].at == p)
  }

  lemma NeedsAreRequired(states: seq<AccessState>, index: Index, name: Name, access: Access)
    requires ListsSlots(states, index, access.path)
    ensures Needs(states, |states|, name, access.writes) == Required(index, Event(name, access))
  {
    var e := Event(name, access);
    forall m | m in Needs(states, |states|, name, access.writes) ensures m in Required(index, e) {
      var k :| 0 <= k < |states| && m in SlotRequires(SlotOf(states[k]), name, access.writes);
      assert states[k].at in Overlapping(index, access.path);
    }
    forall m | m in Required(index, e) ensures m in Needs(states, |states|, name, access.writes) {
      var p :| p in Overlapping(index, access.path) && m in SlotRequires(index[p], name, access.writes);
      var k :| 0 <= k < |states| && states[k].at == p;
    }
  }

  /** Looking a path up only adds its empty slot to the index. */
  twostate lemma LookedUp(new nodes: Nodes, new nodes': Nodes, new path: Path, new own: AccessState)
    requires old(allocated(nodes))
    requires forall p :: p in nodes ==> p in nodes' && nodes'[p] == nodes[p]
    requires forall p :: p in nodes' && p !in nodes && p != path ==> nodes'[p].state == null
    requires forall p :: p in nodes && p != path ==> nodes[p].state == old(nodes[p].state)
    requires forall p :: p in nodes && old(nodes[p].state) != null ==> SlotOf(old(nodes[p].state)) == old(SlotOf(nodes[p].state))
    requires path in nodes' && nodes'[path].state == own
    requires if path in nodes && old(nodes[path].state) != null then own == old(nodes[path].state)
             else own.lastWriter == None && own.readersSinceWrite == {}
    ensures View(nodes') == old(View(nodes))[path := SlotAt(old(View(nodes)), path)]
  {
    var before := old(View(nodes));
    var after := View(nodes');
    assert after.Keys == before.Keys + {path};
    forall p | p in after ensures after[p] == if p == path then SlotAt(before, path) else before[p] {
    }
  }

  /** What the trie lists are the slots of the index before the lookup. */
  twostate lemma Listed(new nodes: Nodes, new nodes': Nodes, new states: seq<AccessState>, new path: Path)
    requires old(allocated(nodes)) && old(allocated(states))
    requires old(PathsIndexed(nodes)) && old(Lists(states, nodes, AllOverlapping(nodes, path)))
    requires forall p :: p in nodes ==> p in nodes' && nodes'[p] == nodes[p]
    requires forall p :: p in nodes && old(nodes[p].state) != null ==>
                           nodes[p].state == old(nodes[p].state) && SlotOf(old(nodes[p].state)) == old(SlotOf(nodes[p].state))
    ensures ListsSlots(states, old(View(nodes)), path)
    ensures forall k :: 0 <= k < |states| ==> states[k].at in nodes' && nodes'[states[k].at].state == states[k]
  {
    forall p | p in Overlapping(old(View(nodes)), path) ensures exists k :: 0 <= k < |states| && states[k].at == p {
      var k :| 0 <= k < |states| && states[k] == old(nodes[p].state);
    }
  }

  /** Overwriting the listed states and the path's own state is a recorded write. */
  twostate lemma Overwritten(new nodes: Nodes, new index: Index, new states: seq<AccessState>, new own: AccessState, new e: Event)
    requires old(allocated(nodes)) && old(allocated(states)) && old(allocated(own))
    requires PathsIndexed(nodes) && e.access.writes
    requires old(View(nodes)) == index[e.access.path := SlotAt(index, e.access.path)]
    requires old(ListsSlots(states, index, e.access.path))
    requires forall k :: 0 <= k < |states| ==> states[k].at in nodes && old(nodes[states[k].at].state) == states[k]
    requires e.access.path in nodes && old(nodes[e.access.path].state) == own && own.at == e.access.path
    requires forall p :: p in nodes ==> nodes[p].state == old(nodes[p].state)
    requires forall s :: s in states + [own] ==> SlotOf(s) == Slot(Some(e.name), {})
    requires forall s :: s in StatesOf(nodes) && s !in states + [own] ==> SlotOf(s) == old(SlotOf(s))
    ensures View(nodes) == Recorded(index, e)
  {
    var path := e.access.path;
    var before := old(View(nodes));
    var after := View(nodes);
    assert after.Keys == before.Keys == index.Keys + {path};
    forall p | p in after ensures after[p] == Recorded(index, e)[p] {
      var s := nodes[p].state;
      assert s in StatesOf(nodes) && s.at == p;
      if p == path {
        assert s == own && own in states + [own];
      } else if Overlap(p, path) {
        assert p in Overlapping(index, path);
        var k :| 0 <= k < |states| && states[k].at == p;
        assert states[k] == s && s in states + [own];
      } else if s in states + [own] {
        assert false;
      }
    }
  }

  /** Adding a reader to the path's own state is a recorded read. */
  twostate lemma Joined(new nodes: Nodes, new index: Index, new own: AccessState, new e: Event)
    requires old(allocated(nodes)) && old(allocated(own))
    requires PathsIndexed(nodes) && !e.access.writes
    requires old(View(nodes)) == index[e.access.path := SlotAt(index, e.access.path)]
    requires e.access.path in nodes && old(nodes[e.access.path].state) == own && own.at == e.access.path
    requires forall p :: p in nodes ==> nodes[p].state == old(nodes[p].state)
    requires own.lastWriter == old(own.lastWriter) && own.readersSinceWrite == old(own.readersSinceWrite) + {e.name}
    requires forall s :: s in StatesOf(nodes) && s != own ==> SlotOf(s) == old(SlotOf(s))
    ensures View(nodes) == Recorded(index, e)
  {
    var before := old(View(nodes));
    var after := View(nodes);
    assert after.Keys == before.Keys;
    forall p | p in after ensures after[p] == Recorded(index, e)[p] {
      var s := nodes[p].state;
      assert s in StatesOf(nodes) && s.at == p;
    }
  }

  class ResolvedAccessPlanner {
    const trackOrder: bool
    const accesses: AccessTree
    ghost var nodes: Nodes
    ghost var history: seq<Event>  // every access recorded so far
    ghost var Repr: set<object>

    ghost predicate Valid()
      reads this, Repr
    {
      && this in Repr && nodes.Values <= Repr && StatesOf(nodes) <= Repr
      && Indexed(accesses, nodes) && View(nodes) == IndexAfter(history)
    }

    constructor (trackOrder: bool)
      ensures Valid() && fresh(Repr) && history == [] && this.trackOrder == trackOrder
    {
      this.trackOrder := trackOrder;
      var root := new AccessTree([]);
      accesses := root;
      nodes, history := map[[] := root], [];
      Repr := {this, root};
      new;
      assert View(nodes) == map[];
    }

    /** The steps an access must wait for, from the states that overlap it. */
    static method Wait(name: Name, writes: bool, overlapping: seq<AccessState>) returns (required: set<Name>)
      ensures required == Needs(overlapping, |overlapping|, name, writes)
    {
      required := {};
      for i := 0 to |overlapping|
        invariant required == Needs(overlapping, i, name, writes)
      {
        var previous := overlapping[i];
        NeedsMore(overlapping, i, name, writes);
        if writes && previous.readersSinceWrite != {} {
          required := required + (previous.readersSinceWrite - {name});
        } else if previous.lastWriter.Some? {
          var writer := previous.lastWriter.value;
          if writer != name {
            required := required + {writer};
          }
        }
      }
    }

    /** Look a path up: a path seen for the first time gets an empty slot. */
    method Lookup(path: Path) returns (own: AccessState, overlapping: seq<AccessState>)
      requires Indexed(accesses, nodes)
      modifies this`nodes, nodes.Values
      ensures Indexed(accesses, nodes) && fresh(nodes.Values - old(nodes.Values)) && fresh(StatesOf(nodes) - old(StatesOf(nodes)))
      ensures View(nodes) == old(View(nodes))[path := SlotAt(old(View(nodes)), path)]
      ensures path in nodes && nodes[path].state == own && own.at == path
      ensures forall k :: 0 <= k < |overlapping| ==> overlapping[k].at in nodes && nodes[overlapping[k].at].state == overlapping[k]
      ensures ListsSlots(overlapping, old(View(nodes)), path)
    {
      ghost var before := nodes;
      own, overlapping, nodes := accesses.Resolve(path, nodes);
      LookedUp(before, nodes, path, own);
      Listed(before, nodes, overlapping, path);
    }

    /** A write replaces what every overlapping state remembers. */
    method ApplyWrite(ghost index: Index, name: Name, ghost path: Path, own: AccessState, overlapping: seq<AccessState>)
      requires Indexed(accesses, nodes) && View(nodes) == index[path := SlotAt(index, path)]
      requires path in nodes && nodes[path].state == own && own.at == path
      requires forall k :: 0 <= k < |overlapping| ==> overlapping[k].at in nodes && nodes[overlapping[k].at].state == overlapping[k]
      requires ListsSlots(overlapping, index, path)
      modifies StatesOf(nodes)
      ensures Indexed(accesses, nodes) && StatesOf(nodes) == old(StatesOf(nodes))
      ensures View(nodes) == Recorded(index, Event(name, Access(path, true)))
    {
      label before:
      ghost var states := overlapping + [own];
      for i := 0 to |overlapping + [own]|
        invariant forall k :: 0 <= k < i ==> SlotOf(states[k]) == Slot(Some(name), {})
        invariant forall s :: s in StatesOf(nodes) && s !in states ==> SlotOf(s) == old(SlotOf(s))
      {
        var item := (overlapping + [own])[i];
        item.lastWriter := Some(name);
        item.readersSinceWrite := {};
      }
      Overwritten@before(nodes, index, overlapping, own, Event(name, Access(path, true)));
    }

    /** A read joins the readers of its own state. */
    method ApplyRead(ghost index: Index, name: Name, ghost path: Path, own: AccessState)
      requires Indexed(accesses, nodes) && View(nodes) == index[path := SlotAt(index, path)]
      requires path in nodes && nodes[path].state == own && own.at == path
      modifies own
      ensures Indexed(accesses, nodes) && StatesOf(nodes) == old(StatesOf(nodes))
      ensures View(nodes) == Recorded(index, Event(name, Access(path, false)))
    {
      label before:
      own.readersSinceWrite := own.readersSinceWrite + {name};
      Joined@before(nodes, index, own, Event(name, Access(path, false)));
    }

    /** Record one access in the trie and return the steps it must wait for. */
    method Apply(ghost index: Index, name: Name, access: Access) returns (required: set<Name>)
      requires Indexed(accesses, nodes) && index == View(nodes)
      modifies this`nodes, nodes.Values, StatesOf(nodes)
      ensures Indexed(accesses, nodes) && View(nodes) == Recorded(index, Event(name, access))
      ensures required == Required(index, Event(name, access))
      ensures fresh(nodes.Values - old(nodes.Values)) && fresh(StatesOf(nodes) - old(StatesOf(nodes)))
    {
      var own, overlapping := Lookup(access.path);
      required := Wait(name, access.writes, overlapping);
      NeedsAreRequired(overlapping, index, name, access);
      if access.writes {
        ApplyWrite(index, name, access.path, own, overlapping);
      } else {
        ApplyRead(index, name, access.path, own);
      }
    }

    /** Record the accesses of one step in order, gathering the steps it must wait for. */
    method ApplyAll(ghost past: seq<Event>, name: Name, planned: seq<Access>) returns (required: set<Name>)
      requires Indexed(accesses, nodes) && View(nodes) == IndexAfter(past)
      modifies this`nodes, nodes.Values, StatesOf(nodes)
      ensures Indexed(accesses, nodes) && View(nodes) == IndexAfter(past + EventsOf(name, planned))
      ensures required == BatchRequires(past, name, planned)
      ensures fresh(nodes.Values - old(nodes.Values)) && fresh(StatesOf(nodes) - old(StatesOf(nodes)))
    {
      required := {};
      assert past + EventsOf(name, planned[..0]) == past;
      for i := 0 to |planned|
        invariant Indexed(accesses, nodes) && View(nodes) == IndexAfter(past + EventsOf(name, planned[..i]))
        invariant required == BatchRequires(past, name, planned[..i])
        invariant fresh(nodes.Values - old(nodes.Values)) && fresh(StatesOf(nodes) - old(StatesOf(nodes)))
      {
        BatchPrefix(past, name, planned, i);
        var waits := Apply(View(nodes), name, planned[i]);
        required := required + waits;
      }
      assert planned[..|planned|] == planned;
    }

    /** Record a batch of accesses: the object state keeps representing the history. */
    method Track(name: Name, planned: seq<Access>) returns (required: set<Name>)
      requires Valid()
      modifies Repr
      ensures Valid() && fresh(Repr - old(Repr)) && history == old(history) + EventsOf(name, planned)
      ensures required == BatchRequires(old(history), name, planned)
    {
      required := ApplyAll(history, name, planned);
      history := history + EventsOf(name, planned);
      Repr := Repr + nodes.Values + StatesOf(nodes);
    }

    /** The accesses this step is planned with, in source order. */
    static method Plan(datasets: seq<DatasetAccess>, generic: seq<Access>) returns (planned: seq<Access>)
      ensures planned == PlannedAccesses(datasets, generic)
    {
      planned := [];
      for i := 0 to |datasets|
        invariant planned == DatasetResources(datasets[..i])
      {
        var d := datasets[i];
        assert datasets[..i + 1][..i] == datasets[..i];
        planned := planned + seq(|d.resources|, k requires 0 <= k < |d.resources| => Access(d.resources[k], d.RequiresExclusive()));
      }
      assert datasets[..|datasets|] == datasets;
      for i := 0 to |generic|
        invariant planned == DatasetResources(datasets) + Undeclared(datasets, generic[..i])
      {
        assert generic[..i + 1][..i] == generic[..i];
        if !Declared(datasets, generic[i].path) {
          planned := planned + [generic[i]];
        }
      }
      assert generic[..|generic|] == generic;
    }

    /**
      * Record one step's accesses and return the steps it must wait for. A READ declaration that
      * hides a generic write is refused before anything is recorded.
      */
    method OrderAfter(name: Name, datasets: seq<DatasetAccess>, generic: seq<Access>) returns (r: Decision)
      requires Valid()
      modifies Repr
      ensures Valid() && fresh(Repr - old(Repr))
      ensures r.Refused? <==> HidesWrite(datasets, generic)
      ensures r.Refused? || !trackOrder ==> history == old(history)
      ensures r.Decided? && !trackOrder ==> r.dependencies == {}
      ensures r.Decided? && trackOrder ==>
                var planned := PlannedAccesses(datasets, generic);
                history == old(history) + EventsOf(name, planned) && r.dependencies == BatchRequires(old(history), name, planned)
    {
      if HidesWrite(datasets, generic) {
        r := Refused;
      } else if !trackOrder {
        r := Decided({});
      } else {
        var planned := Plan(datasets, generic);
        var required := Track(name, planned);
        r := Decided(required);
      }
    }
  }
}
