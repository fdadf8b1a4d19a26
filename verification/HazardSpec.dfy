/** The hazard planner on a flat index, and why its pruned bookkeeping orders every conflict. */
module HazardSpec {
  import opened Paths

  type Name = string

  datatype Option<+T> = None | Some(value: T)

  /** What one indexed path remembers: its last writer and the readers since that write. */
  datatype Slot = Slot(lastWriter: Option<Name>, readers: set<Name>)

  type Index = map<Path, Slot>

  /** One recorded access of one step. */
  datatype Event = Event(name: Name, access: Access)

  const EMPTY_SLOT := Slot(None, {})

  /** The steps one overlapping slot makes `name` wait for. */
  function SlotRequires(slot: Slot, name: Name, writes: bool): set<Name> {
    if writes && slot.readers != {} then slot.readers - {name}
    else if slot.lastWriter.Some? then {slot.lastWriter.value} - {name}
    else {}
  }

  function Overlapping(index: Index, path: Path): set<Path> {
    set p | p in index && Overlap(p, path)
  }

  function Required(index: Index, e: Event): set<Name> {
    set p, n | p in Overlapping(index, e.access.path) && n in SlotRequires(index[p], e.name, e.access.writes) :: n
  }

  function SlotAt(index: Index, path: Path): Slot {
    if path in index then index[path] else EMPTY_SLOT
  }

  /** The index after one access: a write overwrites every overlapping slot, a read joins its own. */
  function Recorded(index: Index, e: Event): Index {
    if e.access.writes then
      map p | p in index.Keys + {e.access.path} ::
        if Overlap(p, e.access.path) then Slot(Some(e.name), {}) else index[p]
    else
      var own := SlotAt(index, e.access.path);
      index[e.access.path := own.(readers := own.readers + {e.name})]
  }

  type Edges = set<(Name, Name)>

  function EdgesOf(index: Index, e: Event): Edges {
    set n | n in Required(index, e) :: (e.name, n)
  }

  function IndexAfter(history: seq<Event>): Index {
    if history == [] then map[]
    else Recorded(IndexAfter(history[..|history| - 1]), history[|history| - 1])
  }

  /** All dependencies returned over a history of accesses. */
  function EdgesAfter(history: seq<Event>): Edges {
    if history == [] then {}
    else
      var past := history[..|history| - 1];
      EdgesAfter(past) + EdgesOf(IndexAfter(past), history[|history| - 1])
  }

  lemma HistorySnoc(history: seq<Event>, e: Event)
    ensures IndexAfter(history + [e]) == Recorded(IndexAfter(history), e)
    ensures EdgesAfter(history + [e]) == EdgesAfter(history) + EdgesOf(IndexAfter(history), e)
  {
    assert (history + [e])[..|history|] == history;
  }

  // Reachability through returned dependencies.

  ghost predicate Chain(edges: Edges, a: Name, via: seq<Name>, b: Name)
    decreases |via|
  {
    if via == [] then a == b
    else (a, via[0]) in edges && Chain(edges, via[0], via[1..], b)
  }

  /** `a` is `b` or waits for it, directly or through other steps. */
  ghost predicate Reaches(edges: Edges, a: Name, b: Name) {
    exists via :: Chain(edges, a, via, b)
  }

  lemma ReachesSelf(edges: Edges, a: Name)
    ensures Reaches(edges, a, a)
  {
    assert Chain(edges, a, [], a);
  }

  lemma ReachesStep(edges: Edges, a: Name, b: Name, c: Name)
    requires (a, b) in edges && Reaches(edges, b, c)
    ensures Reaches(edges, a, c)
  {
    var via :| Chain(edges, b, via, c);
    assert ([b] + via)[1..] == via;
    assert Chain(edges, a, [b] + via, c);
  }

  lemma {:induction false} ChainGrows(edges: Edges, more: Edges, a: Name, via: seq<Name>, b: Name)
    requires edges <= more && Chain(edges, a, via, b)
    ensures Chain(more, a, via, b)
    decreases |via|
  {
    if via != [] {
      ChainGrows(edges, more, via[0], via[1..], b);
    }
  }

  lemma ReachesGrows(edges: Edges, more: Edges, a: Name, b: Name)
    requires edges <= more && Reaches(edges, a, b)
    ensures Reaches(more, a, b)
  {
    var via :| Chain(edges, a, via, b);
    ChainGrows(edges, more, a, via, b);
  }

  lemma {:induction false} ReachesTrans(edges: Edges, a: Name, b: Name, c: Name)
    requires Reaches(edges, a, b) && Reaches(edges, b, c)
    ensures Reaches(edges, a, c)
  {
    var via :| Chain(edges, a, via, b);
    ChainTrans(edges, a, via, b, c);
  }

  lemma {:induction false} ChainTrans(edges: Edges, a: Name, via: seq<Name>, b: Name, c: Name)
    requires Chain(edges, a, via, b) && Reaches(edges, b, c)
    ensures Reaches(edges, a, c)
    decreases |via|
  {
    if via != [] {
      ChainTrans(edges, via[0], via[1..], b, c);
      ReachesStep(edges, a, via[0], c);
    }
  }

  // The invariant that survives pruning.

  /** A slot still leads to the step of every access that was recorded at its path. */
  ghost predicate Remembers(slot: Slot, e: Event, edges: Edges) {
    || (!e.access.writes && e.name in slot.readers)
    || (slot.lastWriter.Some? && Reaches(edges, slot.lastWriter.value, e.name))
  }

  /** Every reader since the last write already waits for that write. */
  ghost predicate ReadersWait(slot: Slot, edges: Edges) {
    slot.lastWriter.Some? ==> forall r :: r in slot.readers ==> Reaches(edges, r, slot.lastWriter.value)
  }

  ghost predicate Tracks(index: Index, history: seq<Event>, edges: Edges) {
    && (forall i :: 0 <= i < |history| ==> history[i].access.path in index && Remembers(index[history[i].access.path], history[i], edges))
    && (forall p :: p in index ==> ReadersWait(index[p], edges))
  }

  /** The heart of the argument: one overlapping slot leads a conflicting access to the one it remembers. */
  lemma SlotLeadsBack(index: Index, past: Event, e: Event, before: Edges, edges: Edges)
    requires before <= edges && EdgesOf(index, e) <= edges
    requires past.access.path in index && Remembers(index[past.access.path], past, before)
    requires ReadersWait(index[past.access.path], before)
    requires Conflict(past.access, e.access)
    ensures Reaches(edges, e.name, past.name)
  {
    var slot := index[past.access.path];
    var needed := SlotRequires(slot, e.name, e.access.writes);
    forall n | n in needed ensures (e.name, n) in edges {
      assert past.access.path in Overlapping(index, e.access.path);
      assert n in Required(index, e);
      assert (e.name, n) in EdgesOf(index, e);
    }
    ReachesSelf(edges, e.name);
    if !past.access.writes && past.name in slot.readers {
      if past.name != e.name {
        ReachesSelf(edges, past.name);
        ReachesStep(edges, e.name, past.name, past.name);
      }
    } else {
      var writer := slot.lastWriter.value;
      ReachesGrows(before, edges, writer, past.name);
      if e.access.writes && slot.readers != {} {
        var r :| r in slot.readers;
        ReachesGrows(before, edges, r, writer);
        if r != e.name {
          ReachesStep(edges, e.name, r, writer);
        }
        ReachesTrans(edges, e.name, writer, past.name);
      } else if writer != e.name {
        ReachesStep(edges, e.name, writer, past.name);
      }
    }
  }

  lemma TracksStep(index: Index, history: seq<Event>, before: Edges, e: Event)
    requires Tracks(index, history, before)
    ensures Tracks(Recorded(index, e), history + [e], before + EdgesOf(index, e))
  {
    var edges := before + EdgesOf(index, e);
    var index' := Recorded(index, e);
    var path := e.access.path;
    ReachesSelf(edges, e.name);
    forall i | 0 <= i < |history + [e]|
      ensures (history + [e])[i].access.path in index' && Remembers(index'[(history + [e])[i].access.path], (history + [e])[i], edges)
    {
      if i < |history| {
        var past := history[i];
        if e.access.writes && Overlap(past.access.path, path) {
          SlotLeadsBack(index, past, e, before, edges);
        } else if index[past.access.path].lastWriter.Some? && Reaches(before, index[past.access.path].lastWriter.value, past.name) {
          ReachesGrows(before, edges, index[past.access.path].lastWriter.value, past.name);
        }
      }
    }
    forall p | p in index' ensures ReadersWait(index'[p], edges) {
      forall r | index'[p].lastWriter.Some? && r in index'[p].readers ensures Reaches(edges, r, index'[p].lastWriter.value) {
        if p in index && r in index[p].readers {
          ReachesGrows(before, edges, r, index[p].lastWriter.value);
        } else {
          ReaderWaitsForWriter(index, e, edges);
        }
      }
    }
  }

  /** A read of an indexed path waits for that path's last writer. */
  lemma ReaderWaitsForWriter(index: Index, e: Event, edges: Edges)
    requires !e.access.writes && e.access.path in index && index[e.access.path].lastWriter.Some?
    requires EdgesOf(index, e) <= edges
    ensures Reaches(edges, e.name, index[e.access.path].lastWriter.value)
  {
    var writer := index[e.access.path].lastWriter.value;
    ReachesSelf(edges, writer);
    if writer != e.name {
      assert e.access.path in Overlapping(index, e.access.path);
      assert writer in SlotRequires(index[e.access.path], e.name, false);
      assert writer in Required(index, e);
      assert (e.name, writer) in EdgesOf(index, e);
      ReachesStep(edges, e.name, writer, writer);
    }
  }

  lemma {:induction false} HistoryTracked(history: seq<Event>)
    ensures Tracks(IndexAfter(history), history, EdgesAfter(history))
  {
    if history != [] {
      var past := history[..|history| - 1];
      HistoryTracked(past);
      TracksStep(IndexAfter(past), past, EdgesAfter(past), history[|history| - 1]);
      assert past + [history[|history| - 1]] == history;
    }
  }

  lemma {:induction false} EdgesOnlyGrow(history: seq<Event>, n: nat)
    requires n <= |history|
    ensures EdgesAfter(history[..n]) <= EdgesAfter(history)
    decreases |history|
  {
    if n < |history| {
      var past := history[..|history| - 1];
      EdgesOnlyGrow(past, n);
      assert past[..n] == history[..n];
    } else {
      assert history[..n] == history;
    }
  }

  /**
    * Every conflict is ordered: whatever accesses were recorded in whatever order, the step of
    * the later of two conflicting accesses reaches the step of the earlier one.
    */
  lemma {:induction false} EveryConflictOrdered(history: seq<Event>, i: nat, j: nat)
    requires i < j < |history| && Conflict(history[i].access, history[j].access)
    ensures Reaches(EdgesAfter(history), history[j].name, history[i].name)
  {
    var past := history[..j];
    var upto := history[..j + 1];
    assert upto[..j] == past;
    HistoryTracked(past);
    SlotLeadsBack(IndexAfter(past), past[i], history[j], EdgesAfter(past), EdgesAfter(upto));
    EdgesOnlyGrow(history, j + 1);
    ReachesGrows(EdgesAfter(upto), EdgesAfter(history), history[j].name, history[i].name);
  }

  // What the index holds, read off the history.

  ghost predicate Known(history: seq<Event>, p: Path) {
    exists i :: 0 <= i < |history| && history[i].access.path == p
  }

  /** Event `i` writes at, above or below the path. */
  ghost predicate WritesOver(history: seq<Event>, i: nat, p: Path) {
    i < |history| && history[i].access.writes && Overlap(history[i].access.path, p)
  }

  ghost predicate NoneAfter(history: seq<Event>, i: nat, p: Path) {
    forall k: nat :: i < k < |history| ==> !WritesOver(history, k, p)
  }

  /** Event `i` is the last write over the path, and the path was known by then. */
  ghost predicate LastWriteAt(history: seq<Event>, p: Path, i: nat) {
    WritesOver(history, i, p) && Known(history[..i + 1], p) && NoneAfter(history, i, p)
  }

  ghost predicate LastWrite(history: seq<Event>, p: Path, w: Name) {
    exists i: nat :: LastWriteAt(history, p, i) && history[i].name == w
  }

  /** `r` read exactly this path, and nobody has written over it since. */
  ghost predicate ReadSince(history: seq<Event>, p: Path, r: Name) {
    exists i: nat :: i < |history| && history[i].access == Access(p, false) && NoneAfter(history, i, p) && history[i].name == r
  }

  lemma KnownSnoc(history: seq<Event>, e: Event, p: Path)
    ensures Known(history + [e], p) <==> Known(history, p) || e.access.path == p
  {
    if Known(history, p) {
      var i :| 0 <= i < |history| && history[i].access.path == p;
      assert (history + [e])[i].access.path == p;
    }
    if e.access.path == p {
      assert (history + [e])[|history|].access.path == p;
    }
  }

  lemma NoneAfterSnoc(history: seq<Event>, e: Event, i: nat, p: Path)
    requires i < |history|
    ensures NoneAfter(history + [e], i, p) <==> NoneAfter(history, i, p) && !(e.access.writes && Overlap(e.access.path, p))
  {
    var more := history + [e];
    if NoneAfter(more, i, p) {
      assert !WritesOver(more, |history|, p);
      forall k: nat | i < k < |history| ensures !WritesOver(history, k, p) {
        assert !WritesOver(more, k, p);
      }
    } else {
      var k: nat :| i < k < |more| && WritesOver(more, k, p);
      assert k < |history| ==> WritesOver(history, k, p);
    }
  }

  lemma LastWriteSnoc(history: seq<Event>, e: Event, p: Path, w: Name)
    ensures LastWrite(history + [e], p, w) <==>
            if e.access.writes && Overlap(e.access.path, p) then Known(history + [e], p) && e.name == w else LastWrite(history, p, w)
  {
    var more, n := history + [e], |history|;
    assert more[..n + 1] == more;
    if LastWrite(more, p, w) {
      var i: nat :| LastWriteAt(more, p, i) && more[i].name == w;
      if i < n {
        NoneAfterSnoc(history, e, i, p);
        assert more[..i + 1] == history[..i + 1];
        assert WritesOver(history, i, p) && LastWriteAt(history, p, i);
      }
    }
    if e.access.writes && Overlap(e.access.path, p) {
      assert WritesOver(more, n, p) && NoneAfter(more, n, p);
      assert Known(more, p) ==> LastWriteAt(more, p, n);
    } else if LastWrite(history, p, w) {
      var i: nat :| LastWriteAt(history, p, i) && history[i].name == w;
      NoneAfterSnoc(history, e, i, p);
      assert more[..i + 1] == history[..i + 1];
      assert WritesOver(more, i, p) && LastWriteAt(more, p, i);
    }
  }

  lemma ReadSinceSnoc(history: seq<Event>, e: Event, p: Path, r: Name)
    ensures ReadSince(history + [e], p, r) <==>
            if e.access.writes && Overlap(e.access.path, p) then false
            else ReadSince(history, p, r) || (e.access == Access(p, false) && e.name == r)
  {
    var more, n := history + [e], |history|;
    if ReadSince(more, p, r) {
      var i: nat :| i < |more| && more[i].access == Access(p, false) && NoneAfter(more, i, p) && more[i].name == r;
      if i < n {
        NoneAfterSnoc(history, e, i, p);
        assert history[i] == more[i];
      }
    }
    if ReadSince(history, p, r) {
      var i: nat :| i < |history| && history[i].access == Access(p, false) && NoneAfter(history, i, p) && history[i].name == r;
      NoneAfterSnoc(history, e, i, p);
      assert more[i] == history[i];
    }
    if e.access == Access(p, false) && e.name == r {
      assert more[n] == e && NoneAfter(more, n, p);
    }
  }

  /** Path by path: who wrote over it last since it was known, and who read it since then. */
  ghost predicate Reflects(index: Index, history: seq<Event>) {
    && (forall p :: p in index <==> Known(history, p))
    && (forall p, w :: p in index ==> (index[p].lastWriter == Some(w) <==> LastWrite(history, p, w)))
    && (forall p, r :: p in index ==> (r in index[p].readers <==> ReadSince(history, p, r)))
  }

  lemma UsedIsKnown(history: seq<Event>, p: Path, n: Name)
    ensures LastWrite(history, p, n) || ReadSince(history, p, n) ==> Known(history, p)
  {
    if LastWrite(history, p, n) {
      var i: nat :| LastWriteAt(history, p, i) && history[i].name == n;
      var past := history[..i + 1];
      var j :| 0 <= j < |past| && past[j].access.path == p;
      assert history[j].access.path == p;
    }
    if ReadSince(history, p, n) {
      var i: nat :| i < |history| && history[i].access == Access(p, false) && NoneAfter(history, i, p) && history[i].name == n;
      assert history[i].access.path == p;
    }
  }

  lemma ReflectsStep(index: Index, history: seq<Event>, e: Event)
    requires Reflects(index, history)
    ensures Reflects(Recorded(index, e), history + [e])
  {
    var index' := Recorded(index, e);
    forall p ensures p in index' <==> Known(history + [e], p) {
      KnownSnoc(history, e, p);
    }
    forall p, w | p in index' ensures index'[p].lastWriter == Some(w) <==> LastWrite(history + [e], p, w) {
      LastWriteSnoc(history, e, p, w);
      UsedIsKnown(history, p, w);
    }
    forall p, r | p in index' ensures r in index'[p].readers <==> ReadSince(history + [e], p, r) {
      ReadSinceSnoc(history, e, p, r);
      UsedIsKnown(history, p, r);
    }
  }

  lemma {:induction false} HistoryReflected(history: seq<Event>)
    ensures Reflects(IndexAfter(history), history)
  {
    if history != [] {
      var past, e := history[..|history| - 1], history[|history| - 1];
      HistoryReflected(past);
      ReflectsStep(IndexAfter(past), past, e);
      assert past + [e] == history;
    }
  }

  /**
    * A new access waits for exactly these other steps: on each known path at, above or below its own, for those
    * that read it since the last write when it writes itself and there are any, and for the last writer otherwise.
    */
  lemma RequiredMeans(history: seq<Event>, e: Event, n: Name)
    ensures n in Required(IndexAfter(history), e) <==>
            && n != e.name
            && exists p :: Known(history, p) && Overlap(p, e.access.path)
                           && if e.access.writes && exists r :: ReadSince(history, p, r) then ReadSince(history, p, n) else LastWrite(history, p, n)
  {
    var index := IndexAfter(history);
    HistoryReflected(history);
    forall p | p in index
      ensures n in SlotRequires(index[p], e.name, e.access.writes) <==>
              && n != e.name
              && if e.access.writes && exists r :: ReadSince(history, p, r) then ReadSince(history, p, n) else LastWrite(history, p, n)
    {
      assert (exists r :: ReadSince(history, p, r)) <==> exists r :: r in index[p].readers;
      assert index[p].lastWriter == Some(n) <==> LastWrite(history, p, n);
    }
  }

  // Edges point back, and where the pruning adds no edge of its own.

  /** Every name a slot holds belongs to an earlier access of an overlapping path. */
  ghost predicate Grounded(index: Index, history: seq<Event>) {
    && (forall p, w :: p in index && index[p].lastWriter == Some(w) ==>
                         exists i :: 0 <= i < |history| && history[i].name == w && history[i].access.writes && Overlap(history[i].access.path, p))
    && (forall p, r :: p in index && r in index[p].readers ==>
                         exists i :: 0 <= i < |history| && history[i].name == r && history[i].access.path == p)
    && (forall p :: p in index ==> exists i :: 0 <= i < |history| && history[i].access.path == p)
  }

  lemma GroundedStep(index: Index, past: seq<Event>, e: Event)
    requires Grounded(index, past)
    ensures Grounded(Recorded(index, e), past + [e])
  {
    var index', history := Recorded(index, e), past + [e];
    assert history[|past|] == e;
    forall p, w | p in index' && index'[p].lastWriter == Some(w)
      ensures exists i :: 0 <= i < |history| && history[i].name == w && history[i].access.writes && Overlap(history[i].access.path, p)
    {
      if !(e.access.writes && Overlap(p, e.access.path)) {
        var i :| 0 <= i < |past| && past[i].name == w && past[i].access.writes && Overlap(past[i].access.path, p);
        assert history[i] == past[i];
      }
    }
    forall p, r | p in index' && r in index'[p].readers
      ensures exists i :: 0 <= i < |history| && history[i].name == r && history[i].access.path == p
    {
      if p in index && r in index[p].readers {
        var i :| 0 <= i < |past| && past[i].name == r && past[i].access.path == p;
        assert history[i] == past[i];
      }
    }
    forall p | p in index' ensures exists i :: 0 <= i < |history| && history[i].access.path == p {
      if p in index {
        var i :| 0 <= i < |past| && past[i].access.path == p;
        assert history[i] == past[i];
      }
    }
  }

  lemma {:induction false} HistoryGrounded(history: seq<Event>)
    ensures Grounded(IndexAfter(history), history)
  {
    if history != [] {
      var past, e := history[..|history| - 1], history[|history| - 1];
      HistoryGrounded(past);
      GroundedStep(IndexAfter(past), past, e);
      assert past + [e] == history;
    }
  }

  /** A new edge `(e.name, b)` comes from one overlapping slot and the earlier accesses behind it. */
  lemma RequiredOrigin(index: Index, past: seq<Event>, e: Event, b: Name) returns (i: nat, k: nat)
    requires Grounded(index, past) && b in Required(index, e)
    ensures i < |past| && past[i].name == b && b != e.name && (past[i].access.writes || e.access.writes)
    ensures k < |past| && Overlap(past[i].access.path, past[k].access.path) && Overlap(past[k].access.path, e.access.path)
  {
    var p :| p in Overlapping(index, e.access.path) && b in SlotRequires(index[p], e.name, e.access.writes);
    k :| 0 <= k < |past| && past[k].access.path == p;
    if e.access.writes && index[p].readers != {} {
      i :| 0 <= i < |past| && past[i].name == b && past[i].access.path == p;
    } else {
      i :| 0 <= i < |past| && past[i].name == b && past[i].access.writes && Overlap(past[i].access.path, p);
    }
  }

  /** Every returned edge comes from one access, an earlier one, and a third recorded path that overlaps both. */
  lemma {:induction false} EdgeOrigin(history: seq<Event>, a: Name, b: Name) returns (i: nat, j: nat, k: nat)
    requires (a, b) in EdgesAfter(history)
    ensures i < j < |history| && history[j].name == a && history[i].name == b && a != b
    ensures k < j && Overlap(history[i].access.path, history[k].access.path) && Overlap(history[k].access.path, history[j].access.path)
    ensures history[i].access.writes || history[j].access.writes
  {
    var past, e := history[..|history| - 1], history[|history| - 1];
    if (a, b) in EdgesAfter(past) {
      i, j, k := EdgeOrigin(past, a, b);
    } else {
      HistoryGrounded(past);
      i, k := RequiredOrigin(IndexAfter(past), past, e, b);
      j := |past|;
    }
  }

  /** `top` lies at or above two paths that do not overlap. */
  predicate Fork(top: Path, left: Path, right: Path) {
    Under(left, top) && Under(right, top) && !Overlap(left, right)
  }

  ghost predicate Forkless(paths: set<Path>) {
    forall top, left, right :: top in paths && left in paths && right in paths ==> !Fork(top, left, right)
  }

  ghost predicate Within(history: seq<Event>, paths: set<Path>) {
    forall i :: 0 <= i < |history| ==> history[i].access.path in paths
  }

  /** The dependency of `a` on `b` is a conflict between two recorded accesses. */
  ghost predicate ConflictEdge(history: seq<Event>, a: Name, b: Name) {
    exists i, j :: 0 <= i < j < |history| && history[j].name == a && history[i].name == b && Conflict(history[i].access, history[j].access)
  }

  ghost predicate OnlyConflictEdges(history: seq<Event>) {
    forall a, b :: (a, b) in EdgesAfter(history) ==> ConflictEdge(history, a, b)
  }

  /** Paths that both overlap a third one overlap each other, unless the third is a fork above them. */
  lemma OverlapOrFork(a: Path, mid: Path, b: Path)
    requires Overlap(a, mid) && Overlap(mid, b)
    ensures Overlap(a, b) || Fork(mid, a, b)
  {
    if a <= mid && b <= mid {
      OverlapOfCommonDescendant(a, b, mid);
    }
  }

  /** Without a fork among the recorded paths, every edge is a conflict between two recorded accesses. */
  lemma ForklessEdgesAreConflicts(history: seq<Event>, paths: set<Path>)
    requires Forkless(paths) && Within(history, paths)
    ensures OnlyConflictEdges(history)
  {
    forall a, b | (a, b) in EdgesAfter(history) ensures ConflictEdge(history, a, b) {
      var i, j, k := EdgeOrigin(history, a, b);
      OverlapOrFork(history[i].access.path, history[k].access.path, history[j].access.path);
      assert Conflict(history[i].access, history[j].access);
    }
  }

  /** A reader at the top of a fork and a writer at each of its ends. */
  function ForkHistory(top: Path, left: Path, right: Path): seq<Event> {
    [Event("reader", Access(top, false)), Event("left", Access(left, true)), Event("right", Access(right, true))]
  }

  /** The two writers are ordered although they never conflict. */
  lemma ForkAddsEdge(top: Path, left: Path, right: Path)
    requires Fork(top, left, right)
    ensures ("right", "left") in EdgesAfter(ForkHistory(top, left, right)) && !ConflictEdge(ForkHistory(top, left, right), "right", "left")
  {
    var history := ForkHistory(top, left, right);
    var first, second, third := history[0], history[1], history[2];
    HistorySnoc([], first);
    HistorySnoc([first], second);
    HistorySnoc([first, second], third);
    assert [first] + [second] == [first, second] && [first, second] + [third] == history && [] + [first] == [first];
    var index := IndexAfter([first, second]);
    assert top in IndexAfter([first]) && index[top] == Slot(Some("left"), {});
    assert |"left"| != |"right"| && |"left"| != |"reader"| && |"right"| != |"reader"|;
    assert top in Overlapping(index, right);
    assert "left" in SlotRequires(index[top], "right", true);
    assert "left" in Required(index, third);
  }

  /** The edges of every history over a set of paths are conflicts exactly when the set has no fork. */
  lemma EdgesExactIffForkless(paths: set<Path>)
    ensures (forall history :: Within(history, paths) ==> OnlyConflictEdges(history)) <==> Forkless(paths)
  {
    if Forkless(paths) {
      forall history | Within(history, paths) ensures OnlyConflictEdges(history) {
        ForklessEdgesAreConflicts(history, paths);
      }
    } else {
      var top, left, right :| top in paths && left in paths && right in paths && Fork(top, left, right);
      ForkAddsEdge(top, left, right);
      assert Within(ForkHistory(top, left, right), paths);
    }
  }

  // One call of the planner records a batch of accesses under one name.

  function EventsOf(name: Name, accesses: seq<Access>): (events: seq<Event>)
    ensures |events| == |accesses|
    ensures forall k :: 0 <= k < |accesses| ==> events[k] == Event(name, accesses[k])
  {
    seq(|accesses|, k requires 0 <= k < |accesses| => Event(name, accesses[k]))
  }

  /** The dependencies one call returns after the given history. */
  function BatchRequires(history: seq<Event>, name: Name, accesses: seq<Access>): set<Name> {
    if accesses == [] then {}
    else
      var init := accesses[..|accesses| - 1];
      BatchRequires(history, name, init) + Required(IndexAfter(history + EventsOf(name, init)), Event(name, accesses[|accesses| - 1]))
  }

  lemma BatchSnoc(history: seq<Event>, name: Name, accesses: seq<Access>)
    requires accesses != []
    ensures
      var init := accesses[..|accesses| - 1];
      var last := Event(name, accesses[|accesses| - 1]);
      history + EventsOf(name, accesses) == (history + EventsOf(name, init)) + [last]
      && IndexAfter(history + EventsOf(name, accesses)) == Recorded(IndexAfter(history + EventsOf(name, init)), last)
      && EdgesAfter(history + EventsOf(name, accesses)) == EdgesAfter(history + EventsOf(name, init)) + EdgesOf(IndexAfter(history + EventsOf(name, init)), last)
  {
    var init := accesses[..|accesses| - 1];
    var last := Event(name, accesses[|accesses| - 1]);
    var whole := history + EventsOf(name, accesses);
    assert whole == (history + EventsOf(name, init)) + [last];
    assert whole[..|whole| - 1] == history + EventsOf(name, init);
  }

  lemma BatchPrefix(history: seq<Event>, name: Name, accesses: seq<Access>, i: nat)
    requires i < |accesses|
    ensures
      var index := IndexAfter(history + EventsOf(name, accesses[..i]));
      IndexAfter(history + EventsOf(name, accesses[..i + 1])) == Recorded(index, Event(name, accesses[i]))
      && BatchRequires(history, name, accesses[..i + 1]) == BatchRequires(history, name, accesses[..i]) + Required(index, Event(name, accesses[i]))
  {
    assert accesses[..i + 1][..i] == accesses[..i];
    BatchSnoc(history, name, accesses[..i + 1]);
  }

  /** The edges of a whole history are exactly what the calls returned. */
  lemma {:induction false} BatchEdges(history: seq<Event>, name: Name, accesses: seq<Access>)
    ensures EdgesAfter(history + EventsOf(name, accesses)) == EdgesAfter(history) + set n | n in BatchRequires(history, name, accesses) :: (name, n)
    decreases |accesses|
  {
    if accesses == [] {
      assert history + EventsOf(name, accesses) == history;
    } else {
      BatchSnoc(history, name, accesses);
      BatchEdges(history, name, accesses[..|accesses| - 1]);
    }
  }

  lemma EventsJoin(history: seq<Event>, name: Name, xs: seq<Access>, ys: seq<Access>)
    ensures history + EventsOf(name, xs + ys) == history + EventsOf(name, xs) + EventsOf(name, ys)
  {
    assert EventsOf(name, xs + ys) == EventsOf(name, xs) + EventsOf(name, ys);
  }

  lemma BatchMore(history: seq<Event>, name: Name, init: seq<Access>, a: Access)
    ensures BatchRequires(history, name, init + [a]) == BatchRequires(history, name, init) + Required(IndexAfter(history + EventsOf(name, init)), Event(name, a))
  {
    assert (init + [a])[..|init|] == init;
  }

  /** Recording a batch in two calls under one name returns the same dependencies as one call. */
  lemma {:induction false} BatchConcat(history: seq<Event>, name: Name, xs: seq<Access>, ys: seq<Access>)
    ensures BatchRequires(history, name, xs + ys) == BatchRequires(history, name, xs) + BatchRequires(history + EventsOf(name, xs), name, ys)
    decreases |ys|
  {
    if ys == [] {
      assert xs + ys == xs;
    } else {
      var init, a := ys[..|ys| - 1], ys[|ys| - 1];
      assert ys == init + [a] && xs + ys == (xs + init) + [a];
      BatchConcat(history, name, xs, init);
      BatchMore(history, name, xs + init, a);
      BatchMore(history + EventsOf(name, xs), name, init, a);
      EventsJoin(history, name, xs, init);
    }
  }

  /** A step only waits for other steps that were recorded before it. */
  lemma {:induction false} BatchLooksBack(history: seq<Event>, name: Name, accesses: seq<Access>, n: Name)
    requires n in BatchRequires(history, name, accesses)
    ensures n != name && exists t :: 0 <= t < |history| && history[t].name == n
    decreases |accesses|
  {
    var init, a := accesses[..|accesses| - 1], accesses[|accesses| - 1];
    assert accesses == init + [a];
    BatchMore(history, name, init, a);
    if n in BatchRequires(history, name, init) {
      BatchLooksBack(history, name, init, n);
    } else {
      RequiredLooksBack(history, EventsOf(name, init), Event(name, a), n);
    }
  }

  lemma RequiredLooksBack(history: seq<Event>, own: seq<Event>, e: Event, n: Name)
    requires (forall k :: 0 <= k < |own| ==> own[k].name == e.name) && n in Required(IndexAfter(history + own), e)
    ensures n != e.name && exists t :: 0 <= t < |history| && history[t].name == n
  {
    HistoryGrounded(history + own);
    var i, k := RequiredOrigin(IndexAfter(history + own), history + own, e, n);
    if i < |history| {
      assert history[i].name == n;
    }
  }

  /** What one more batch adds to the edges: its own step waiting for steps already recorded. */
  lemma BatchEdgesLookBack(history: seq<Event>, name: Name, accesses: seq<Access>, a: Name, b: Name) returns (t: nat)
    requires (a, b) in EdgesAfter(history + EventsOf(name, accesses)) && (a, b) !in EdgesAfter(history)
    ensures a == name && t < |history| && history[t].name == b
  {
    BatchEdges(history, name, accesses);
    BatchLooksBack(history, name, accesses, b);
    t :| 0 <= t < |history| && history[t].name == b;
  }
}
