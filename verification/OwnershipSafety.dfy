/** What every run of the ownership protocol keeps, and when a workflow id may be used again. */
module OwnershipSafety {
  import opened Paths
  import opened Ownership
  import opened OwnershipProtocol

  // What a process can do to the stores: add or remove its own claim.

  predicate OwnStores(v: Stores, v': Stores, owner: Owner) {
    OwnAuthority(v.authority, v'.authority, owner) && OwnRegistry(v.registry, v'.registry, owner)
  }

  lemma MovesAreOwn(v: Stores, me: Session, fault: Fault)
    ensures OwnStores(v, AdvanceMove(v, me, fault).stores, me.owner)
  {
    match me.phase
    case Locked =>
    case Claimed(_) =>
    case RollingBack =>
    case _ =>
  }

  lemma ReleasesAreOwn(v: Stores, me: Session, fault: Fault)
    ensures OwnStores(v, ReleaseMove(v, me, fault).stores, me.owner)
  {
  }

  lemma InspectionsAreOwn(v: Stores, lockFree: bool, me: Reconciler, fault: Fault)
    ensures OwnStores(v, InvestigateMove(v, lockFree, me, fault).stores, me.owner)
  {
  }

  // What every run keeps, whatever ids it uses.

  /** Each store only ever holds sets of claims that may stand side by side. */
  ghost predicate Admissible(s: State) {
    && (forall w :: SideBySide(RecordsOf(s, w)))
    && Apart(s.registry)
  }

  /** A transaction of the owner's keeps both stores admissible. */
  lemma PutAdmits(s: State, s': State, w: Path, v: Stores, owner: Owner)
    requires Admissible(s) && OwnStores(View(s, w), v, owner)
    requires s'.authority == s.authority[w := v.authority] && s'.registry == v.registry
    ensures Admissible(s')
  {
    assert SideBySide(RecordsOf(s, w));
    AuthorityStands(RecordsOf(s, w), v.authority, owner);
    RegistryStands(s.registry, v.registry, owner);
    forall u ensures SideBySide(RecordsOf(s', u)) {
      assert SideBySide(RecordsOf(s, u));
    }
  }

  lemma SameAdmits(s: State, s': State)
    requires Admissible(s) && s'.authority == s.authority && s'.registry == s.registry
    ensures Admissible(s')
  {
    forall u ensures SideBySide(RecordsOf(s', u)) {
      assert SideBySide(RecordsOf(s, u));
    }
  }

  lemma AdmissibleStep(s: State, step: Step)
    requires Admissible(s) && Enabled(s, step)
    ensures Admissible(Do(s, step))
  {
    var s' := Do(s, step);
    match step
    case Begin(_, _) => SameAdmits(s, s');
    case Proceed(p, fault) =>
      var me := s.sessions[p];
      if me.phase.Closing? || me.phase.Unlocking? {
        SameAdmits(s, s');
      } else {
        var v := View(s, me.owner.workspace);
        MovesAreOwn(v, me, fault);
        PutAdmits(s, s', me.owner.workspace, AdvanceMove(v, me, fault).stores, me.owner);
      }
    case Release(p, fault) =>
      var me := s.sessions[p];
      var v := View(s, me.owner.workspace);
      ReleasesAreOwn(v, me, fault);
      PutAdmits(s, s', me.owner.workspace, ReleaseMove(v, me, fault).stores, me.owner);
    case Crash(_) => SameAdmits(s, s');
    case Inspect(_, _, _) => SameAdmits(s, s');
    case Abandon(_) => SameAdmits(s, s');
    case Reconcile(p, fault) =>
      var me := s.reconcilers[p];
      var v, free := View(s, me.owner.workspace), LockOf(me.owner) !in s.locks;
      InspectionsAreOwn(v, free, me, fault);
      PutAdmits(s, s', me.owner.workspace, InvestigateMove(v, free, me, fault).stores, me.owner);
  }

  // What runs keep whose processes start under ids at rest.

  ghost predicate FiledAt(s: State, w: Path, id: WorkflowId) {
    id in RecordsOf(s, w) ==> id in s.used && LockOf(RecordsOf(s, w)[id]) == (w, id)
  }

  ghost predicate RegisteredAt(s: State, id: WorkflowId) {
    id in s.registry ==> id in s.used && s.registry[id].id == id
  }

  /** Ids in records and processes were used, and records sit under their own id and workspace. */
  ghost predicate Filed(s: State) {
    && (forall w, id :: FiledAt(s, w, id))
    && (forall id :: RegisteredAt(s, id))
    && (forall p :: p in s.sessions ==> s.sessions[p].owner.id in s.used)
    && (forall r :: r in s.reconcilers ==> s.reconcilers[r].owner.id in s.used)
  }

  /** A running process holds its own liveness lock, and no other process has its id. */
  ghost predicate LocksHeld(s: State) {
    && (forall p :: p in s.sessions ==> LockOf(s.sessions[p].owner) in s.locks)
    && (forall p, q :: p in s.sessions && q in s.sessions && p != q ==> s.sessions[p].owner.id != s.sessions[q].owner.id)
  }

  /** Records and inspections of a running process's id are of its own workspace. */
  ghost predicate OneWorkspace(s: State) {
    && (forall p, w :: p in s.sessions && s.sessions[p].owner.id in RecordsOf(s, w) ==> w == s.sessions[p].owner.workspace)
    && (forall p, r :: p in s.sessions && r in s.reconcilers && s.sessions[p].owner.id == s.reconcilers[r].owner.id ==>
                         s.sessions[p].owner.workspace == s.reconcilers[r].owner.workspace)
  }

  /** Nobody runs under an id whose records are about to be removed. */
  ghost predicate DeadStaysDead(s: State) {
    forall p, r :: p in s.sessions && r in s.reconcilers && MayRemove(s.reconcilers[r].phase) ==>
                     s.sessions[p].owner.id != s.reconcilers[r].owner.id
  }

  /** The records a process relies on in its phase. */
  ghost predicate Backed(v: Stores, me: Session) {
    && (me.phase.Claimed? || me.phase.Held? ==> AuthorityHas(v, me.owner))
    && (me.phase.Held? ==> RegistryHas(v, me.owner))
  }

  ghost predicate AllBacked(s: State) {
    forall p :: p in s.sessions ==> Backed(View(s, s.sessions[p].owner.workspace), s.sessions[p])
  }

  ghost predicate Inv(s: State) {
    Filed(s) && LocksHeld(s) && OneWorkspace(s) && DeadStaysDead(s) && AllBacked(s)
  }

  // Safety.

  /** No two usable leases overlap with one of them exclusive. */
  ghost predicate LeasesDisjoint(s: State) {
    forall p, q :: p in s.sessions && q in s.sessions && p != q && s.sessions[p].phase.Held? && s.sessions[q].phase.Held? ==>
                     !OwnersConflict(s.sessions[p].owner, s.sessions[q].owner)
  }

  /** A reconciler that is about to remove a record does not face a held liveness lock. */
  ghost predicate RemovesOnlyDead(s: State) {
    forall r, p :: r in s.reconcilers && Removes(s.reconcilers[r].phase) && p in s.sessions ==>
                     LockOf(s.sessions[p].owner) != LockOf(s.reconcilers[r].owner)
  }

  ghost predicate Safe(s: State) {
    LeasesDisjoint(s) && RemovesOnlyDead(s)
  }

  lemma InvSafe(s: State)
    requires Inv(s) && Admissible(s)
    ensures Safe(s)
  {
  }

  /** The stores change at most at one workflow id of one workspace, and only by its own records. */
  ghost predicate StoresMove(s: State, s': State, w: Path, id: WorkflowId) {
    && (forall u :: u != w ==> RecordsOf(s', u) == RecordsOf(s, u))
    && RecordsOf(s', w) - {id} == RecordsOf(s, w) - {id}
    && s'.registry - {id} == s.registry - {id}
    && (id in RecordsOf(s', w) ==> LockOf(RecordsOf(s', w)[id]) == (w, id))
    && (id in s'.registry ==> s'.registry[id].id == id)
  }

  lemma PutMoves(s: State, owner: Owner, v: Stores)
    requires Filed(s) && OwnStores(View(s, owner.workspace), v, owner)
    ensures StoresMove(s, Put(s, owner.workspace, v), owner.workspace, owner.id)
  {
    var w := owner.workspace;
    assert FiledAt(s, w, owner.id) && RegisteredAt(s, owner.id);
    assert RecordsOf(Put(s, w, v), w) == v.authority;
  }

  /** Seen from another id, nothing happened. */
  lemma OtherEntries(s: State, s': State, w: Path, id: WorkflowId, u: Path, k: WorkflowId)
    requires StoresMove(s, s', w, id) && (u != w || k != id)
    ensures k in RecordsOf(s', u) <==> k in RecordsOf(s, u)
    ensures k in RecordsOf(s, u) ==> RecordsOf(s', u)[k] == RecordsOf(s, u)[k]
  {
    if u == w {
      assert k in RecordsOf(s', u) <==> k in RecordsOf(s', u) - {id};
      assert k in RecordsOf(s, u) <==> k in RecordsOf(s, u) - {id};
    }
  }

  lemma OtherRegistered(s: State, s': State, w: Path, id: WorkflowId, k: WorkflowId)
    requires StoresMove(s, s', w, id) && k != id
    ensures k in s'.registry <==> k in s.registry
    ensures k in s.registry ==> s'.registry[k] == s.registry[k]
  {
    assert k in s'.registry <==> k in s'.registry - {id};
    assert k in s.registry <==> k in s.registry - {id};
  }

  lemma RecordsFiled(s: State, s': State, w: Path, id: WorkflowId)
    requires Filed(s) && StoresMove(s, s', w, id) && s'.used == s.used && id in s.used
    ensures forall u, k :: FiledAt(s', u, k)
    ensures forall k :: RegisteredAt(s', k)
  {
    forall u, k ensures FiledAt(s', u, k) {
      assert FiledAt(s, u, k);
      if u != w || k != id {
        OtherEntries(s, s', w, id, u, k);
      }
    }
    forall k ensures RegisteredAt(s', k) {
      assert RegisteredAt(s, k);
      if k != id {
        OtherRegistered(s, s', w, id, k);
      }
    }
  }

  lemma OthersBacked(s: State, s': State, w: Path, id: WorkflowId, me: Session)
    requires StoresMove(s, s', w, id) && me.owner.id != id && Backed(View(s, me.owner.workspace), me)
    ensures Backed(View(s', me.owner.workspace), me)
  {
    OtherEntries(s, s', w, id, me.owner.workspace, me.owner.id);
    OtherRegistered(s, s', w, id, me.owner.id);
  }

  /** A process moves on within its own id: everything else stays as it was. */
  lemma SessionMoves(s: State, s': State, p: nat)
    requires Inv(s) && p in s.sessions && p in s'.sessions
    requires s'.sessions == s.sessions[p := s'.sessions[p]] && s'.locks == s.locks && s'.reconcilers == s.reconcilers && s'.used == s.used
    requires LockOf(s'.sessions[p].owner) == LockOf(s.sessions[p].owner)
    requires StoresMove(s, s', s.sessions[p].owner.workspace, s.sessions[p].owner.id)
    requires Backed(View(s', s'.sessions[p].owner.workspace), s'.sessions[p])
    ensures Inv(s')
  {
    var w, id := s.sessions[p].owner.workspace, s.sessions[p].owner.id;
    RecordsFiled(s, s', w, id);
    forall q | q in s'.sessions ensures Backed(View(s', s'.sessions[q].owner.workspace), s'.sessions[q]) {
      if q != p {
        OthersBacked(s, s', w, id, s.sessions[q]);
      }
    }
    forall q, u | q in s'.sessions && s'.sessions[q].owner.id in RecordsOf(s', u) ensures u == s'.sessions[q].owner.workspace {
      if u != w || s'.sessions[q].owner.id != id {
        OtherEntries(s, s', w, id, u, s'.sessions[q].owner.id);
      }
    }
  }

  /** Records of the id change at most by one being put back where none was. */
  ghost predicate Refiles(v: Stores, v': Stores, id: WorkflowId) {
    v'.registry == v.registry && (id in v.authority ==> v'.authority == v.authority)
  }

  /** An inspection moves on; it removes records only when no process runs under their id. */
  lemma InspectionMoves(s: State, s': State, p: nat)
    requires Inv(s) && p in s.reconcilers && p in s'.reconcilers
    requires s'.sessions == s.sessions && s'.locks == s.locks && s'.used == s.used
    requires s'.reconcilers == s.reconcilers[p := s'.reconcilers[p]]
    requires LockOf(s'.reconcilers[p].owner) == LockOf(s.reconcilers[p].owner)
    requires StoresMove(s, s', s.reconcilers[p].owner.workspace, s.reconcilers[p].owner.id)
    requires MayRemove(s.reconcilers[p].phase) ||
             Refiles(View(s, s.reconcilers[p].owner.workspace), View(s', s.reconcilers[p].owner.workspace), s.reconcilers[p].owner.id)
    requires MayRemove(s'.reconcilers[p].phase) ==> forall q :: q in s.sessions ==> s.sessions[q].owner.id != s.reconcilers[p].owner.id
    ensures Inv(s')
  {
    var w, id := s.reconcilers[p].owner.workspace, s.reconcilers[p].owner.id;
    RecordsFiled(s, s', w, id);
    forall q | q in s'.sessions ensures Backed(View(s', s'.sessions[q].owner.workspace), s'.sessions[q]) {
      if s.sessions[q].owner.id != id {
        OthersBacked(s, s', w, id, s.sessions[q]);
      }
    }
    forall q, u | q in s'.sessions && s'.sessions[q].owner.id in RecordsOf(s', u) ensures u == s'.sessions[q].owner.workspace {
      if u != w || s'.sessions[q].owner.id != id {
        OtherEntries(s, s', w, id, u, s'.sessions[q].owner.id);
      }
    }
  }

  /** Every move leaves the process with the records its next phase relies on. */
  lemma MovesBacked(v: Stores, me: Session, fault: Fault)
    requires Backed(v, me) && (me.owner.id in v.authority ==> LockOf(v.authority[me.owner.id]) == LockOf(me.owner))
    ensures var move := AdvanceMove(v, me, fault); Backed(move.stores, move.next) && LockOf(move.next.owner) == LockOf(me.owner)
    ensures var move := ReleaseMove(v, me, fault); Backed(move.stores, move.next) && LockOf(move.next.owner) == LockOf(me.owner)
  {
  }

  lemma SessionStep(s: State, p: nat, move: Move<Session>)
    requires Inv(s) && p in s.sessions
    requires OwnStores(View(s, s.sessions[p].owner.workspace), move.stores, s.sessions[p].owner)
    requires Backed(move.stores, move.next) && LockOf(move.next.owner) == LockOf(s.sessions[p].owner)
    ensures Inv(Moved(s, p, move))
  {
    PutMoves(s, s.sessions[p].owner, move.stores);
    SessionMoves(s, Moved(s, p, move), p);
  }

  /** An inspection gets past its probe only when the lock was free, and only then writes. */
  lemma InspectionProbes(v: Stores, lockFree: bool, me: Reconciler, fault: Fault)
    requires me.owner.id in v.authority ==> LockOf(v.authority[me.owner.id]) == LockOf(me.owner)
    ensures
      var move := InvestigateMove(v, lockFree, me, fault);
      && LockOf(move.next.owner) == LockOf(me.owner)
      && (PastProbe(me.phase) || move.stores == v)
      && (MayRemove(me.phase) || Refiles(v, move.stores, me.owner.id))
      && (PastProbe(move.next.phase) ==> PastProbe(me.phase) || lockFree)
      && (MayRemove(move.next.phase) ==> MayRemove(me.phase) || lockFree)
  {
  }

  /** A process holds its lock, so nobody runs under an id whose lock is free. */
  lemma FreeLockMeansNobody(s: State, owner: Owner)
    requires Inv(s) && LockOf(owner) !in s.locks
    requires forall q :: q in s.sessions && s.sessions[q].owner.id == owner.id ==> s.sessions[q].owner.workspace == owner.workspace
    ensures forall q :: q in s.sessions ==> s.sessions[q].owner.id != owner.id
  {
  }

  lemma InspectionStep(s: State, p: nat, move: Move<Reconciler>)
    requires Inv(s) && p in s.reconcilers
    requires OwnStores(View(s, s.reconcilers[p].owner.workspace), move.stores, s.reconcilers[p].owner)
    requires LockOf(move.next.owner) == LockOf(s.reconcilers[p].owner)
    requires MayRemove(s.reconcilers[p].phase) || Refiles(View(s, s.reconcilers[p].owner.workspace), move.stores, s.reconcilers[p].owner.id)
    requires MayRemove(move.next.phase) ==> MayRemove(s.reconcilers[p].phase) || LockOf(s.reconcilers[p].owner) !in s.locks
    ensures Inv(Inspected(s, p, move))
  {
    PutMoves(s, s.reconcilers[p].owner, move.stores);
    if LockOf(s.reconcilers[p].owner) !in s.locks {
      FreeLockMeansNobody(s, s.reconcilers[p].owner);
    }
    InspectionMoves(s, Inspected(s, p, move), p);
  }

  /** Untouched stores stay filed when no id is forgotten. */
  lemma SameEntries(s: State, s': State)
    requires s'.authority == s.authority && s'.registry == s.registry && s.used <= s'.used && Filed(s)
    ensures forall w :: RecordsOf(s', w) == RecordsOf(s, w) && View(s', w) == View(s, w)
    ensures (forall w, id :: FiledAt(s', w, id)) && (forall id :: RegisteredAt(s', id))
  {
    forall w, id ensures FiledAt(s', w, id) {
      assert FiledAt(s, w, id);
    }
    forall id ensures RegisteredAt(s', id) {
      assert RegisteredAt(s, id);
    }
  }

  lemma BeginOneWorkspace(s: State, p: nat, owner: Owner)
    requires Inv(s) && Enabled(s, Begin(p, owner)) && IdAtRest(s, owner)
    ensures OneWorkspace(Do(s, Begin(p, owner))) && DeadStaysDead(Do(s, Begin(p, owner)))
  {
    var s' := Do(s, Begin(p, owner));
    assert forall w :: RecordsOf(s', w) == RecordsOf(s, w);
  }

  lemma BeginKeeps(s: State, p: nat, owner: Owner)
    requires Inv(s) && Enabled(s, Begin(p, owner)) && IdAtRest(s, owner)
    ensures Inv(Do(s, Begin(p, owner)))
  {
    var s' := Do(s, Begin(p, owner));
    SameEntries(s, s');
    BeginOneWorkspace(s, p, owner);
    assert Filed(s');
    assert LocksHeld(s');
  }

  /** The invariant needs no less: it breaks as soon as a process starts under any other id. */
  lemma BeginNeedsRest(s: State, p: nat, owner: Owner)
    requires Enabled(s, Begin(p, owner)) && Inv(Do(s, Begin(p, owner)))
    ensures IdAtRest(s, owner)
  {
    var s' := Do(s, Begin(p, owner));
    assert p in s'.sessions && s'.sessions[p].owner == owner;
    forall q | q in s.sessions ensures s.sessions[q].owner.id != owner.id {
      assert s'.sessions[q] == s.sessions[q] && q != p;
    }
    assert forall w :: RecordsOf(s', w) == RecordsOf(s, w);
  }

  /** A workflow id that was never used is at rest. */
  lemma FreshIdAtRest(s: State, owner: Owner)
    requires Filed(s) && owner.id !in s.used
    ensures IdAtRest(s, owner)
  {
    forall w ensures owner.id !in RecordsOf(s, w) {
      assert FiledAt(s, w, owner.id);
    }
  }

  lemma GoneKeeps(s: State, p: nat)
    requires Inv(s) && p in s.sessions
    ensures Inv(Gone(s, p))
  {
    SameEntries(s, Gone(s, p));
  }

  lemma InspectKeeps(s: State, p: nat, w: Path, id: WorkflowId)
    requires Inv(s) && id in RecordsOf(s, w)
    ensures Inv(Looking(s, p, Reconciler(RecordsOf(s, w)[id], Read)))
  {
    assert FiledAt(s, w, id);
    SameEntries(s, Looking(s, p, Reconciler(RecordsOf(s, w)[id], Read)));
  }

  lemma AbandonKeeps(s: State, p: nat)
    requires Inv(s)
    ensures Inv(s.(reconcilers := s.reconcilers - {p}))
  {
    SameEntries(s, s.(reconcilers := s.reconcilers - {p}));
  }

  /** Every step keeps the invariant when processes start under ids at rest. */
  lemma InvStep(s: State, step: Step)
    requires Inv(s) && Enabled(s, step) && Guarded(s, step)
    ensures Inv(Do(s, step))
  {
    match step
    case Begin(p, owner) => BeginKeeps(s, p, owner);
    case Proceed(p, fault) =>
      var me := s.sessions[p];
      if me.phase.Closing? || me.phase.Unlocking? {
        GoneKeeps(s, p);
      } else {
        var v := View(s, me.owner.workspace);
        MovesAreOwn(v, me, fault);
        assert FiledAt(s, me.owner.workspace, me.owner.id);
        MovesBacked(v, me, fault);
        SessionStep(s, p, AdvanceMove(v, me, fault));
      }
    case Release(p, fault) =>
      var me := s.sessions[p];
      var v := View(s, me.owner.workspace);
      ReleasesAreOwn(v, me, fault);
      assert FiledAt(s, me.owner.workspace, me.owner.id);
      MovesBacked(v, me, fault);
      SessionStep(s, p, ReleaseMove(v, me, fault));
    case Crash(p) => GoneKeeps(s, p);
    case Inspect(p, w, id) => InspectKeeps(s, p, w, id);
    case Abandon(p) => AbandonKeeps(s, p);
    case Reconcile(p, fault) =>
      var me := s.reconcilers[p];
      var v, free := View(s, me.owner.workspace), LockOf(me.owner) !in s.locks;
      InspectionsAreOwn(v, free, me, fault);
      assert FiledAt(s, me.owner.workspace, me.owner.id);
      InspectionProbes(v, free, me, fault);
      InspectionStep(s, p, InvestigateMove(v, free, me, fault));
  }

  /** Whatever ids are used, in every run no two recorded claims exclude each other. */
  lemma {:induction false} RunsAdmissible(steps: seq<Step>)
    ensures After(steps).Reached? ==> Admissible(After(steps).state)
  {
    if steps != [] {
      RunsAdmissible(steps[..|steps| - 1]);
      if After(steps).Reached? {
        AdmissibleStep(After(steps[..|steps| - 1]).state, steps[|steps| - 1]);
      }
    }
  }

  lemma {:induction false} RunsKeepInv(steps: seq<Step>)
    requires AllGuarded(steps)
    ensures After(steps).Reached? ==> Inv(After(steps).state)
  {
    if steps != [] {
      var past := steps[..|steps| - 1];
      forall k | 0 <= k < |past| && After(past[..k]).Reached? ensures Guarded(After(past[..k]).state, past[k]) {
        assert past[..k] == steps[..k];
      }
      RunsKeepInv(past);
      if After(steps).Reached? {
        InvStep(After(past).state, steps[|steps| - 1]);
      }
    }
  }

  /** Every run is safe whose processes start under ids at rest, however often ids are used. */
  lemma GuardedRunsSafe(steps: seq<Step>)
    requires AllGuarded(steps) && After(steps).Reached?
    ensures Safe(After(steps).state)
  {
    RunsKeepInv(steps);
    RunsAdmissible(steps);
    InvSafe(After(steps).state);
  }

  /** Every process of the run started under an id that no earlier one had used. */
  ghost predicate AllFresh(steps: seq<Step>) {
    forall k :: 0 <= k < |steps| && steps[k].Begin? && After(steps[..k]).Reached? ==> steps[k].owner.id !in After(steps[..k]).state.used
  }

  /** In particular every run with fresh ids. */
  lemma {:induction false} FreshRunsGuarded(steps: seq<Step>)
    requires AllFresh(steps)
    ensures AllGuarded(steps)
  {
    if steps != [] {
      var past := steps[..|steps| - 1];
      assert forall k :: 0 <= k < |past| ==> past[..k] == steps[..k];
      FreshRunsGuarded(past);
      if After(past).Reached? {
        RunsKeepInv(past);
        if steps[|steps| - 1].Begin? {
          FreshIdAtRest(After(past).state, steps[|steps| - 1].owner);
        }
      }
      assert forall k :: 0 <= k < |steps| ==> k == |past| || (k < |past| && past[..k] == steps[..k]);
    }
  }

  // Starting under an id whose claim was proved dead.

  /** An inspection that proved the last owner of this id and workspace dead, and may still remove the records. */
  ghost predicate Dooms(s: State, r: nat, owner: Owner) {
    r in s.reconcilers && LockOf(s.reconcilers[r].owner) == LockOf(owner) && MayRemove(s.reconcilers[r].phase)
  }

  lemma RunOn(s: State, steps: seq<Step>, step: Step)
    requires RunFrom(s, steps).Reached? && Enabled(RunFrom(s, steps).state, step)
    ensures RunFrom(s, steps + [step]) == Reached(Do(RunFrom(s, steps).state, step))
  {
    assert (steps + [step])[..|steps|] == steps;
  }

  /** An inspection whose next transaction removes a record meets a running process of the same id. */
  lemma FacesLock(s: State, r: nat, p: nat)
    requires r in s.reconcilers && Removes(s.reconcilers[r].phase)
    requires p in s.sessions && LockOf(s.sessions[p].owner) == LockOf(s.reconcilers[r].owner)
    ensures !Safe(s)
  {
  }

  /** The inspection reads the record again and goes on to remove it, or whatever the id has by then. */
  lemma ProbedGoesOn(s: State, r: nat, p: nat)
    requires r in s.reconcilers && s.reconcilers[r].phase.Probed?
    requires p in s.sessions && LockOf(s.sessions[p].owner) == LockOf(s.reconcilers[r].owner)
    requires FiledAt(s, s.reconcilers[r].owner.workspace, s.reconcilers[r].owner.id)
    ensures !Safe(Do(s, Reconcile(r, Healthy)))
  {
    var s' := Do(s, Reconcile(r, Healthy));
    FacesLock(s', r, p);
  }

  /** Without the guard: a process that starts while an inspection may still remove records meets the removal. */
  lemma DeadClaimUnsafe(s: State, p: nat, owner: Owner, r: nat) returns (more: seq<Step>)
    requires Filed(s) && Enabled(s, Begin(p, owner)) && Dooms(s, r, owner)
    ensures |more| <= 1 && var run := RunFrom(s, [Begin(p, owner)] + more); run.Reached? && !Safe(run.state)
  {
    var begin, look := Begin(p, owner), Reconcile(r, Healthy);
    var s1 := Do(s, begin);
    assert [] + [begin] == [begin] == [begin] + [];
    RunOn(s, [], begin);
    SameEntries(s, s1);
    if s.reconcilers[r].phase.Probed? {
      more := [look];
      RunOn(s, [begin], look);
      ProbedGoesOn(s1, r, p);
    } else {
      more := [];
      FacesLock(s1, r, p);
    }
  }

  // What one transaction changes, and runs put together.

  /** Only the registry and this workspace's records change, to those given. */
  ghost predicate Becomes(s: State, s': State, w: Path, v: Stores) {
    && s'.locks == s.locks && View(s', w) == v
    && forall u :: u != w ==> RecordsOf(s', u) == RecordsOf(s, u)
  }

  lemma Proceeds(s: State, p: nat, fault: Fault)
    requires p in s.sessions && s.sessions[p].phase !in {Held, Broken, Closing, Unlocking}
    ensures Enabled(s, Proceed(p, fault))
    ensures
      var w, s' := s.sessions[p].owner.workspace, Do(s, Proceed(p, fault));
      var move := AdvanceMove(View(s, w), s.sessions[p], fault);
      s'.sessions == s.sessions[p := move.next] && s'.reconcilers == s.reconcilers && Becomes(s, s', w, move.stores)
  {
  }

  lemma Releases(s: State, p: nat)
    requires p in s.sessions && s.sessions[p].phase in {Held, Broken}
    ensures Enabled(s, Release(p, Healthy))
    ensures
      var w, s' := s.sessions[p].owner.workspace, Do(s, Release(p, Healthy));
      var move := ReleaseMove(View(s, w), s.sessions[p], Healthy);
      s'.sessions == s.sessions[p := move.next] && s'.reconcilers == s.reconcilers && Becomes(s, s', w, move.stores)
  {
  }

  lemma Reconciles(s: State, r: nat, fault: Fault)
    requires r in s.reconcilers && !s.reconcilers[r].phase.Stopped?
    ensures Enabled(s, Reconcile(r, fault))
    ensures
      var me, s' := s.reconcilers[r], Do(s, Reconcile(r, fault));
      var move := InvestigateMove(View(s, me.owner.workspace), LockOf(me.owner) !in s.locks, me, fault);
      s'.sessions == s.sessions && s'.reconcilers == s.reconcilers[r := move.next] && Becomes(s, s', me.owner.workspace, move.stores)
  {
  }

  lemma Step1(s: State, step: Step)
    requires Enabled(s, step)
    ensures RunFrom(s, [step]) == Reached(Do(s, step))
  {
    RunOn(s, [], step);
    assert [] + [step] == [step];
  }

  lemma {:induction false} RunConcat(s: State, a: seq<Step>, b: seq<Step>)
    requires RunFrom(s, a).Reached?
    ensures RunFrom(s, a + b) == RunFrom(RunFrom(s, a).state, b)
  {
    if b == [] {
      assert a + b == a;
    } else {
      var last := |b| - 1;
      RunConcat(s, a, b[..last]);
      assert (a + b)[..|a + b| - 1] == a + b[..last];
    }
  }

  /** One run after another. */
  lemma Join(s: State, a: seq<Step>, b: seq<Step>) returns (steps: seq<Step>)
    requires RunFrom(s, a).Reached?
    ensures steps == a + b && RunFrom(s, steps) == RunFrom(RunFrom(s, a).state, b)
  {
    steps := a + b;
    RunConcat(s, a, b);
  }

  /** An acquire from a workspace and a registry that hold nothing, in any state. */
  lemma Gets(s: State, p: nat, owner: Owner) returns (steps: seq<Step>)
    requires Enabled(s, Begin(p, owner)) && RecordsOf(s, owner.workspace) == map[] && s.registry == map[]
    ensures [Begin(p, owner)] <= steps && RunFrom(s, steps).Reached?
    ensures
      var s', own := RunFrom(s, steps).state, map[owner.id := owner];
      && s'.sessions == s.sessions[p := Session(owner, Held)] && s'.reconcilers == s.reconcilers
      && View(s', owner.workspace) == Stores(own, own)
  {
    var begin, proceed := Begin(p, owner), Proceed(p, Healthy);
    Step1(s, begin);
    var s1 := Do(s, begin);
    assert RecordsOf(s1, owner.workspace) == map[] && s1.registry == map[];
    Proceeds(s1, p, Healthy);
    RunOn(s, [begin], proceed);
    var s2 := Do(s1, proceed);
    assert s2.sessions[p] == Session(owner, Claimed(true));
    Proceeds(s2, p, Healthy);
    RunOn(s, [begin] + [proceed], proceed);
    steps := [begin] + [proceed] + [proceed];
    assert s2.sessions[p := Session(owner, Held)] == s.sessions[p := Session(owner, Held)];
  }

  /** An inspection that found nothing to release removes the record of the lease that was granted meanwhile. */
  lemma ClearingRobs(s: State, p: nat, owner: Owner, r: nat) returns (steps: seq<Step>)
    requires Enabled(s, Begin(p, owner)) && RecordsOf(s, owner.workspace) == map[] && s.registry == map[]
    requires r in s.reconcilers && s.reconcilers[r].phase.Clearing? && LockOf(s.reconcilers[r].owner) == LockOf(owner)
    ensures [Begin(p, owner)] <= steps && RunFrom(s, steps).Reached?
    ensures
      var s' := RunFrom(s, steps).state;
      p in s'.sessions && s'.sessions[p] == Session(owner, Held) && !AuthorityHas(View(s', owner.workspace), owner)
  {
    var own: Records := map[owner.id := owner];
    assert own - {owner.id} == map[];
    steps := Gets(s, p, owner);
    var s1 := RunFrom(s, steps).state;
    Reconciles(s1, r, Healthy);
    Step1(s1, Reconcile(r, Healthy));
    steps := Join(s, steps, [Reconcile(r, Healthy)]);
  }

  /**
    * A process whose release failed can release again: with its record still in the authority, three
    * undisturbed steps leave it in neither store, whether or not it is still registered, and end the process.
    */
  lemma BrokenReleasesAgain(s: State, p: nat, fault: Fault) returns (steps: seq<Step>)
    requires p in s.sessions && s.sessions[p].phase.Broken?
    requires s.sessions[p].owner.id in RecordsOf(s, s.sessions[p].owner.workspace)
    ensures steps == [Release(p, Healthy), Proceed(p, Healthy), Proceed(p, fault)] && RunFrom(s, steps).Reached?
    ensures
      var me, s' := s.sessions[p].owner, RunFrom(s, steps).state;
      && RecordsOf(s', me.workspace) == RecordsOf(s, me.workspace) - {me.id} && s'.registry == s.registry - {me.id}
      && (forall u :: u != me.workspace ==> RecordsOf(s', u) == RecordsOf(s, u))
      && s'.sessions == s.sessions - {p} && s'.locks == s.locks - {LockOf(me)} && s'.reconcilers == s.reconcilers
  {
    var me := s.sessions[p].owner;
    Releases(s, p);
    Step1(s, Release(p, Healthy));
    var s1 := Do(s, Release(p, Healthy));
    assert s1.sessions[p] == Session(me, Unclaimed);
    Proceeds(s1, p, Healthy);
    RunOn(s, [Release(p, Healthy)], Proceed(p, Healthy));
    var s2 := Do(s1, Proceed(p, Healthy));
    assert s2.sessions[p] == Session(me, Unlocking);
    RunOn(s, [Release(p, Healthy)] + [Proceed(p, Healthy)], Proceed(p, fault));
    steps := [Release(p, Healthy)] + [Proceed(p, Healthy)] + [Proceed(p, fault)];
    assert s2.sessions - {p} == s.sessions - {p};
  }

  // Starting under an id that is known in another workspace.

  /** `a` held or holds the id, `b` starts under it elsewhere, and `c` excludes `b`. */
  datatype Cast = Cast(a: Owner, p: nat, b: Owner, z: nat, c: Owner)

  ghost predicate Fits(cast: Cast) {
    && cast.b.id == cast.a.id && cast.z != cast.p && OwnersConflict(cast.b, cast.c)
    && cast.a.workspace != cast.b.workspace && cast.c.workspace !in {cast.a.workspace, cast.b.workspace}
  }

  /** The third process has not started, and nothing stands in its way but the registry. */
  ghost predicate Waiting(cast: Cast, s: State) {
    && cast.z !in s.sessions && LockOf(cast.c) !in s.locks && RecordsOf(s, cast.c.workspace) == map[]
    && LockOf(cast.a) != LockOf(cast.c)
  }

  /** The second process stands at `phase`; the two workspaces and the registry hold these records. */
  ghost predicate World(cast: Cast, s: State, phase: Phase, inA: Records, inB: Records, registry: Records) {
    && Fits(cast) && Waiting(cast, s)
    && cast.p in s.sessions && s.sessions[cast.p] == Session(cast.b, phase)
    && RecordsOf(s, cast.a.workspace) == inA && RecordsOf(s, cast.b.workspace) == inB && s.registry == registry
  }

  lemma SecondStarts(cast: Cast, s: State)
    requires Fits(cast) && Waiting(cast, s) && Enabled(s, Begin(cast.p, cast.b))
    ensures
      var s' := Do(s, Begin(cast.p, cast.b));
      && World(cast, s', Locked, RecordsOf(s, cast.a.workspace), RecordsOf(s, cast.b.workspace), s.registry)
      && s'.sessions == s.sessions[cast.p := Session(cast.b, Locked)] && s'.reconcilers == s.reconcilers
      && s'.locks == s.locks[LockOf(cast.b) := cast.p]
  {
  }

  /** With nothing recorded there or registered, the second process gets its lease. */
  lemma SecondHolds(cast: Cast, s: State, inA: Records) returns (steps: seq<Step>)
    requires World(cast, s, Locked, inA, map[], map[])
    ensures RunFrom(s, steps).Reached?
    ensures
      var s', own := RunFrom(s, steps).state, map[cast.b.id := cast.b];
      && World(cast, s', Held, inA, own, own)
      && s'.sessions == s.sessions[cast.p := Session(cast.b, Held)] && s'.reconcilers == s.reconcilers && s'.locks == s.locks
  {
    steps := [Proceed(cast.p, Healthy)];
    Proceeds(s, cast.p, Healthy);
    Step1(s, steps[0]);
    var s1 := Do(s, steps[0]);
    assert World(cast, s1, Claimed(true), inA, map[cast.b.id := cast.b], map[]);
    Proceeds(s1, cast.p, Healthy);
    RunOn(s, steps, Proceed(cast.p, Healthy));
    steps := steps + [Proceed(cast.p, Healthy)];
    assert s1.sessions[cast.p := Session(cast.b, Held)] == s.sessions[cast.p := Session(cast.b, Held)];
  }

  /** Robbed of its registry entry, it does not keep the third from a conflicting lease. */
  lemma ThirdHolds(cast: Cast, s: State, inA: Records, inB: Records) returns (steps: seq<Step>)
    requires World(cast, s, Held, inA, inB, map[])
    ensures RunFrom(s, steps).Reached? && !LeasesDisjoint(RunFrom(s, steps).state)
    ensures RunFrom(s, steps).state.reconcilers == s.reconcilers
  {
    steps := Gets(s, cast.z, cast.c);
    var s' := RunFrom(s, steps).state;
    assert s'.sessions[cast.z] == Session(cast.c, Held) && s'.sessions[cast.p] == Session(cast.b, Held);
  }

  // A process of the other workspace holds the lease.

  /** One step of the first owner's release, in this world. */
  lemma HolderActs(cast: Cast, s: State, phase: Phase, inA: Records, inB: Records, registry: Records, q: nat, at: Phase, fault: Fault)
    requires World(cast, s, phase, inA, inB, registry) && q in s.sessions && q != cast.p && s.sessions[q] == Session(cast.a, at)
    requires at.Unclaimed? || at.Reclaiming?
    ensures RunFrom(s, [Proceed(q, fault)]).Reached?
    ensures
      var s', move := RunFrom(s, [Proceed(q, fault)]).state, AdvanceMove(Stores(inA, registry), Session(cast.a, at), fault);
      && World(cast, s', phase, move.stores.authority, inB, move.stores.registry)
      && q in s'.sessions && s'.sessions[q] == move.next && s'.reconcilers == s.reconcilers
  {
    Proceeds(s, q, fault);
    Step1(s, Proceed(q, fault));
  }

  lemma HolderReleases(cast: Cast, s: State, phase: Phase, inB: Records, registry: Records, q: nat)
    requires World(cast, s, phase, map[cast.a.id := cast.a], inB, registry)
    requires q in s.sessions && q != cast.p && s.sessions[q].owner == cast.a && (s.sessions[q].phase.Held? || s.sessions[q].phase.Broken?)
    ensures RunFrom(s, [Release(q, Healthy)]).Reached?
    ensures
      var s' := RunFrom(s, [Release(q, Healthy)]).state;
      World(cast, s', phase, map[], inB, registry) && q in s'.sessions && s'.sessions[q] == Session(cast.a, Unclaimed) && s'.reconcilers == s.reconcilers
  {
    var own: Records := map[cast.a.id := cast.a];
    assert own - {cast.a.id} == map[];
    Releases(s, q);
    Step1(s, Release(q, Healthy));
  }

  /** Its release fails after the registry entry is gone, and it puts its authority record back. */
  lemma HolderStaysBehind(cast: Cast, s: State, q: nat) returns (steps: seq<Step>)
    requires World(cast, s, Locked, map[cast.a.id := cast.a], map[], map[cast.a.id := cast.a])
    requires q in s.sessions && q != cast.p && s.sessions[q] == Session(cast.a, Held)
    ensures RunFrom(s, steps).Reached?
    ensures
      var s' := RunFrom(s, steps).state;
      && World(cast, s', Locked, map[cast.a.id := cast.a], map[], map[])
      && q in s'.sessions && s'.sessions[q] == Session(cast.a, Broken) && s'.reconcilers == s.reconcilers
  {
    var own: Records := map[cast.a.id := cast.a];
    assert own - {cast.a.id} == map[];
    steps := [Release(q, Healthy)];
    HolderReleases(cast, s, Locked, map[], own, q);
    HolderActs(cast, RunFrom(s, steps).state, Locked, map[], map[], own, q, Unclaimed, Raised(true));
    steps := Join(s, steps, [Proceed(q, Raised(true))]);
    HolderActs(cast, RunFrom(s, steps).state, Locked, map[], map[], map[], q, Reclaiming, Healthy);
    steps := Join(s, steps, [Proceed(q, Healthy)]);
  }

  /** Its repeated release then removes the registry entry of the second. */
  lemma HolderRobs(cast: Cast, s: State, q: nat) returns (steps: seq<Step>)
    requires World(cast, s, Held, map[cast.a.id := cast.a], map[cast.b.id := cast.b], map[cast.b.id := cast.b])
    requires q in s.sessions && q != cast.p && s.sessions[q] == Session(cast.a, Broken)
    ensures RunFrom(s, steps).Reached? && RunFrom(s, steps).state.reconcilers == s.reconcilers
    ensures World(cast, RunFrom(s, steps).state, Held, map[], map[cast.b.id := cast.b], map[])
  {
    var other: Records := map[cast.b.id := cast.b];
    assert other - {cast.a.id} == map[];
    steps := [Release(q, Healthy)];
    HolderReleases(cast, s, Held, other, other, q);
    HolderActs(cast, RunFrom(s, steps).state, Held, map[], other, other, q, Unclaimed, Healthy);
    steps := Join(s, steps, [Proceed(q, Healthy)]);
  }

  /**
    * Whoever starts under an id that a process of another workspace holds a lease under, where the stores
    * hold nothing else, can be robbed of its registry entry, without any inspection.
    */
  lemma SharedIdUnsafe(cast: Cast, s: State, q: nat) returns (steps: seq<Step>)
    requires Fits(cast) && Waiting(cast, s) && Enabled(s, Begin(cast.p, cast.b))
    requires q in s.sessions && s.sessions[q] == Session(cast.a, Held)
    requires RecordsOf(s, cast.a.workspace) == s.registry == map[cast.a.id := cast.a] && RecordsOf(s, cast.b.workspace) == map[]
    ensures [Begin(cast.p, cast.b)] <= steps && RunFrom(s, steps).Reached?
    ensures !LeasesDisjoint(RunFrom(s, steps).state) && RunFrom(s, steps).state.reconcilers == s.reconcilers
  {
    steps := [Begin(cast.p, cast.b)];
    SecondStarts(cast, s);
    Step1(s, steps[0]);
    var next := HolderStaysBehind(cast, RunFrom(s, steps).state, q);
    steps := Join(s, steps, next);
    next := SecondHolds(cast, RunFrom(s, steps).state, map[cast.a.id := cast.a]);
    steps := Join(s, steps, next);
    next := HolderRobs(cast, RunFrom(s, steps).state, q);
    steps := Join(s, steps, next);
    next := ThirdHolds(cast, RunFrom(s, steps).state, map[], map[cast.b.id := cast.b]);
    steps := Join(s, steps, next);
  }

  // A dead process of the other workspace left a complete claim.

  /** One step of a reconciliation of the first owner's claim, in this world. */
  lemma InspectionActs(cast: Cast, s: State, phase: Phase, inA: Records, inB: Records, registry: Records, r: nat, at: Inspection, free: bool, fault: Fault)
    requires World(cast, s, phase, inA, inB, registry) && !at.Stopped? && (free <==> LockOf(cast.a) !in s.locks)
    requires r in s.reconcilers && s.reconcilers[r] == Reconciler(cast.a, at)
    ensures RunFrom(s, [Reconcile(r, fault)]).Reached?
    ensures
      var s', move := RunFrom(s, [Reconcile(r, fault)]).state, InvestigateMove(Stores(inA, registry), free, Reconciler(cast.a, at), fault);
      && World(cast, s', phase, move.stores.authority, inB, move.stores.registry)
      && s'.reconcilers == s.reconcilers[r := move.next] && s'.locks == s.locks
  {
    Reconciles(s, r, fault);
    Step1(s, Reconcile(r, fault));
  }

  lemma InspectionStarts(cast: Cast, s: State, phase: Phase, inA: Records, inB: Records, registry: Records, r: nat)
    requires World(cast, s, phase, inA, inB, registry) && r !in s.reconcilers && cast.a.id in inA && inA[cast.a.id] == cast.a
    ensures RunFrom(s, [Inspect(r, cast.a.workspace, cast.a.id)]).Reached?
    ensures
      var s' := RunFrom(s, [Inspect(r, cast.a.workspace, cast.a.id)]).state;
      && World(cast, s', phase, inA, inB, registry)
      && s'.reconcilers == s.reconcilers[r := Reconciler(cast.a, Read)] && s'.locks == s.locks
  {
    Step1(s, Inspect(r, cast.a.workspace, cast.a.id));
  }

  /** One reconciliation follows the claim up to its release. */
  lemma InspectionReaches(cast: Cast, s: State, r: nat) returns (steps: seq<Step>)
    requires World(cast, s, Locked, map[cast.a.id := cast.a], map[], map[cast.a.id := cast.a])
    requires LockOf(cast.a) !in s.locks && r !in s.reconcilers
    ensures RunFrom(s, steps).Reached?
    ensures
      var s' := RunFrom(s, steps).state;
      && World(cast, s', Locked, map[cast.a.id := cast.a], map[], map[cast.a.id := cast.a])
      && s'.reconcilers == s.reconcilers[r := Reconciler(cast.a, Releasing)] && s'.locks == s.locks
  {
    var own: Records, step := map[cast.a.id := cast.a], [Reconcile(r, Healthy)];
    steps := [Inspect(r, cast.a.workspace, cast.a.id)];
    InspectionStarts(cast, s, Locked, own, map[], own, r);
    InspectionActs(cast, RunFrom(s, steps).state, Locked, own, map[], own, r, Read, true, Healthy);
    steps := Join(s, steps, step);
    InspectionActs(cast, RunFrom(s, steps).state, Locked, own, map[], own, r, Registered, true, Healthy);
    steps := Join(s, steps, step);
    InspectionActs(cast, RunFrom(s, steps).state, Locked, own, map[], own, r, Probed, true, Healthy);
    steps := Join(s, steps, step);
  }

  /** Its release fails after the registry entry is gone. */
  lemma InspectionLosesEntry(cast: Cast, s: State, r: nat) returns (steps: seq<Step>)
    requires World(cast, s, Locked, map[cast.a.id := cast.a], map[], map[cast.a.id := cast.a])
    requires r in s.reconcilers && s.reconcilers[r] == Reconciler(cast.a, Releasing)
    ensures RunFrom(s, steps).Reached?
    ensures
      var s' := RunFrom(s, steps).state;
      World(cast, s', Locked, map[], map[], map[]) && s'.reconcilers == s.reconcilers[r := Reconciler(cast.a, Refiling)]
  {
    var own: Records, free := map[cast.a.id := cast.a], LockOf(cast.a) !in s.locks;
    assert own - {cast.a.id} == map[];
    steps := [Reconcile(r, Healthy)];
    InspectionActs(cast, s, Locked, own, map[], own, r, Releasing, free, Healthy);
    InspectionActs(cast, RunFrom(s, steps).state, Locked, map[], map[], own, r, Withdrawn, free, Raised(true));
    steps := Join(s, steps, [Reconcile(r, Raised(true))]);
  }

  /** And it puts the authority record back. */
  lemma InspectionStaysBehind(cast: Cast, s: State, r: nat) returns (steps: seq<Step>)
    requires World(cast, s, Locked, map[cast.a.id := cast.a], map[], map[cast.a.id := cast.a])
    requires r in s.reconcilers && s.reconcilers[r] == Reconciler(cast.a, Releasing)
    ensures RunFrom(s, steps).Reached?
    ensures
      var s' := RunFrom(s, steps).state;
      && World(cast, s', Locked, map[cast.a.id := cast.a], map[], map[])
      && s'.reconcilers == s.reconcilers[r := Reconciler(cast.a, Stopped)]
  {
    steps := InspectionLosesEntry(cast, s, r);
    var s' := RunFrom(s, steps).state;
    InspectionActs(cast, s', Locked, map[], map[], map[], r, Refiling, LockOf(cast.a) !in s'.locks, Healthy);
    steps := Join(s, steps, [Reconcile(r, Healthy)]);
  }

  /** Another reconciliation, as far as the first was, then removes the registry entry of the second process. */
  lemma InspectionRobs(cast: Cast, s: State, r: nat) returns (steps: seq<Step>)
    requires World(cast, s, Held, map[cast.a.id := cast.a], map[cast.b.id := cast.b], map[cast.b.id := cast.b])
    requires r in s.reconcilers && s.reconcilers[r] == Reconciler(cast.a, Releasing)
    ensures RunFrom(s, steps).Reached?
    ensures World(cast, RunFrom(s, steps).state, Held, map[], map[cast.b.id := cast.b], map[])
  {
    var own: Records, other: Records, free := map[cast.a.id := cast.a], map[cast.b.id := cast.b], LockOf(cast.a) !in s.locks;
    assert own - {cast.a.id} == map[] && other - {cast.a.id} == map[];
    steps := [Reconcile(r, Healthy)];
    InspectionActs(cast, s, Held, own, other, other, r, Releasing, free, Healthy);
    InspectionActs(cast, RunFrom(s, steps).state, Held, map[], other, other, r, Withdrawn, free, Healthy);
    steps := Join(s, steps, [Reconcile(r, Healthy)]);
  }

  /**
    * So can whoever starts under an id for which a dead process left both its records, of another
    * workspace, where the stores hold nothing else: by two reconciliations of that claim.
    */
  lemma LeftBehindUnsafe(cast: Cast, s: State, q: nat, r: nat) returns (steps: seq<Step>)
    requires Fits(cast) && Waiting(cast, s) && Enabled(s, Begin(cast.p, cast.b))
    requires LockOf(cast.a) !in s.locks && q != r && q !in s.reconcilers && r !in s.reconcilers
    requires RecordsOf(s, cast.a.workspace) == s.registry == map[cast.a.id := cast.a] && RecordsOf(s, cast.b.workspace) == map[]
    ensures [Begin(cast.p, cast.b)] <= steps && RunFrom(s, steps).Reached? && !LeasesDisjoint(RunFrom(s, steps).state)
  {
    steps := [Begin(cast.p, cast.b)];
    SecondStarts(cast, s);
    Step1(s, steps[0]);
    var next := InspectionReaches(cast, RunFrom(s, steps).state, q);
    steps := Join(s, steps, next);
    next := InspectionReaches(cast, RunFrom(s, steps).state, r);
    steps := Join(s, steps, next);
    next := InspectionStaysBehind(cast, RunFrom(s, steps).state, q);
    steps := Join(s, steps, next);
    next := SecondHolds(cast, RunFrom(s, steps).state, map[cast.a.id := cast.a]);
    steps := Join(s, steps, next);
    next := InspectionRobs(cast, RunFrom(s, steps).state, r);
    steps := Join(s, steps, next);
    next := ThirdHolds(cast, RunFrom(s, steps).state, map[], map[cast.b.id := cast.b]);
    steps := Join(s, steps, next);
  }

  // A run in which a reused id lets an exclusive claim through.

  const FIRST := Owner("a", ["w"], 0, [Access([], true)], false)
  const OTHER := Owner("b", ["v"], 0, [Access([], true)], false)

  lemma Take(steps: seq<Step>, s: State, step: Step, s': State) returns (steps': seq<Step>)
    requires After(steps) == Reached(s) && Enabled(s, step) && s' == Do(s, step)
    ensures After(steps') == Reached(s')
  {
    steps' := steps + [step];
    assert steps'[..|steps|] == steps;
  }

  /** One process claims an authority that holds nothing. */
  lemma ClaimsAuthority(steps: seq<Step>, s: State, p: nat, owner: Owner) returns (steps': seq<Step>)
    requires After(steps) == Reached(s) && Enabled(s, Begin(p, owner)) && RecordsOf(s, owner.workspace) == map[]
    ensures After(steps') == Reached(State(s.authority[owner.workspace := map[owner.id := owner]], s.registry,
                                           s.locks[LockOf(owner) := p], s.sessions[p := Session(owner, Claimed(true))], s.reconcilers, s.used + {owner.id}))
  {
    var s1 := At(s.(locks := s.locks[LockOf(owner) := p], used := s.used + {owner.id}), p, Session(owner, Locked));
    steps' := Take(steps, s, Begin(p, owner), s1);
    var s2 := At(s1.(authority := s.authority[owner.workspace := map[owner.id := owner]]), p, Session(owner, Claimed(true)));
    steps' := Take(steps', s1, Proceed(p, Healthy), s2);
    assert s2.sessions == s.sessions[p := Session(owner, Claimed(true))];
  }

  /** And then an empty registry. */
  lemma ClaimsRegistry(steps: seq<Step>, s: State, p: nat, owner: Owner) returns (steps': seq<Step>)
    requires After(steps) == Reached(s) && p in s.sessions && s.sessions[p] == Session(owner, Claimed(true))
    requires owner.workspace in s.authority && s.registry == map[]
    ensures After(steps') == Reached(s.(registry := map[owner.id := owner], sessions := s.sessions[p := Session(owner, Held)]))
  {
    var s' := At(s.(registry := map[owner.id := owner]), p, Session(owner, Held));
    assert s'.authority == s.authority[owner.workspace := RecordsOf(s, owner.workspace)];
    steps' := Take(steps, s, Proceed(p, Healthy), s');
  }

  /** One process's acquire from a workspace and a registry that hold nothing. */
  lemma Acquires(steps: seq<Step>, s: State, p: nat, owner: Owner) returns (steps': seq<Step>)
    requires After(steps) == Reached(s) && Enabled(s, Begin(p, owner))
    requires RecordsOf(s, owner.workspace) == map[] && s.registry == map[]
    ensures After(steps') == Reached(State(s.authority[owner.workspace := map[owner.id := owner]], map[owner.id := owner],
                                           s.locks[LockOf(owner) := p], s.sessions[p := Session(owner, Held)], s.reconcilers, s.used + {owner.id}))
  {
    steps' := ClaimsAuthority(steps, s, p, owner);
    var s2 := After(steps').state;
    steps' := ClaimsRegistry(steps', s2, p, owner);
    assert s2.sessions[p := Session(owner, Held)] == s.sessions[p := Session(owner, Held)];
  }

  const RECORDED: Records := map["a" := FIRST]

  /** The claim of a crashed process, as an inspection has followed it. */
  function DeadClaim(inspections: map<nat, Reconciler>): State {
    State(map[["w"] := RECORDED], RECORDED, map[], map[], inspections, {"a"})
  }

  /** The first process claims and crashes. */
  lemma FirstCrashes() returns (steps: seq<Step>)
    ensures After(steps) == Reached(DeadClaim(map[]))
  {
    steps := Acquires([], INITIAL, 1, FIRST);
    var s := State(map[["w"] := RECORDED], RECORDED, map[LockOf(FIRST) := 1], map[1 := Session(FIRST, Held)], map[], {"a"});
    steps := Take(steps, s, Crash(1), DeadClaim(map[]));
  }

  /** It is proved dead. */
  lemma FirstDies() returns (steps: seq<Step>)
    ensures After(steps) == Reached(DeadClaim(map[9 := Reconciler(FIRST, Probed)]))
  {
    steps := FirstCrashes();
    steps := Take(steps, DeadClaim(map[]), Inspect(9, ["w"], "a"), DeadClaim(map[9 := Reconciler(FIRST, Read)]));
    steps := Take(steps, DeadClaim(map[9 := Reconciler(FIRST, Read)]), Reconcile(9, Healthy), DeadClaim(map[9 := Reconciler(FIRST, Registered)]));
    steps := Take(steps, DeadClaim(map[9 := Reconciler(FIRST, Registered)]), Reconcile(9, Healthy), DeadClaim(map[9 := Reconciler(FIRST, Probed)]));
  }

  /** The second process runs under the same id while the inspection stands at `phase`. */
  function Adopted(authority: Records, registry: Records, phase: Phase, inspection: Inspection): State {
    State(map[["w"] := authority], registry, map[LockOf(FIRST) := 2], map[2 := Session(FIRST, phase)], map[9 := Reconciler(FIRST, inspection)], {"a"})
  }

  /** It adopts the recorded claim as its lease. */
  lemma SecondAdopts() returns (steps: seq<Step>)
    ensures After(steps) == Reached(Adopted(RECORDED, RECORDED, Held, Probed))
  {
    steps := FirstDies();
    steps := Take(steps, DeadClaim(map[9 := Reconciler(FIRST, Probed)]), Begin(2, FIRST), Adopted(RECORDED, RECORDED, Locked, Probed));
    steps := Take(steps, Adopted(RECORDED, RECORDED, Locked, Probed), Proceed(2, Healthy), Adopted(RECORDED, RECORDED, Claimed(false), Probed));
    steps := Take(steps, Adopted(RECORDED, RECORDED, Claimed(false), Probed), Proceed(2, Healthy), Adopted(RECORDED, RECORDED, Held, Probed));
  }

  /** The inspection finds the claim in the records again. */
  lemma InspectionResumes() returns (steps: seq<Step>)
    ensures After(steps) == Reached(Adopted(RECORDED, RECORDED, Held, Releasing))
  {
    steps := SecondAdopts();
    steps := Take(steps, Adopted(RECORDED, RECORDED, Held, Probed), Reconcile(9, Healthy), Adopted(RECORDED, RECORDED, Held, Releasing));
  }

  lemma InspectionWithdraws() returns (steps: seq<Step>)
    ensures After(steps) == Reached(Adopted(map[], RECORDED, Held, Withdrawn))
  {
    steps := InspectionResumes();
    assert RECORDED - {"a"} == map[];
    steps := Take(steps, Adopted(RECORDED, RECORDED, Held, Releasing), Reconcile(9, Healthy), Adopted(map[], RECORDED, Held, Withdrawn));
  }

  /** Both records under the lease are gone. */
  lemma SecondLosesRecords() returns (steps: seq<Step>)
    ensures After(steps) == Reached(Adopted(map[], map[], Held, Stopped))
  {
    steps := InspectionWithdraws();
    steps := Take(steps, Adopted(map[], RECORDED, Held, Withdrawn), Reconcile(9, Healthy), Adopted(map[], map[], Held, Stopped));
  }

  lemma FirstExcludesOther()
    ensures OwnersConflict(FIRST, OTHER)
  {
    assert Conflict(FIRST.accesses[0], OTHER.accesses[0]);
  }

  /** The third process is then granted a conflicting exclusive claim. */
  lemma ReusedIdRun() returns (steps: seq<Step>)
    ensures After(steps).Reached? && !LeasesDisjoint(After(steps).state)
  {
    steps := SecondLosesRecords();
    steps := Acquires(steps, Adopted(map[], map[], Held, Stopped), 3, OTHER);
    FirstExcludesOther();
    var s := After(steps).state;
    assert s.sessions[2] == Session(FIRST, Held) && s.sessions[3] == Session(OTHER, Held);
  }

  // A run in which one id in two workspaces does.

  const ELSEWHERE := Owner("a", ["u"], 0, [Access([], true)], false)

  /** From the first lease on: a process of another workspace uses the id, and a third is granted a conflicting exclusive claim. */
  lemma TwoWorkspacesRun() returns (steps: seq<Step>)
    ensures After(steps).Reached? && After(steps).state.reconcilers == map[] && !LeasesDisjoint(After(steps).state)
  {
    steps := Acquires([], INITIAL, 1, FIRST);
    assert ["u"][0] == "u" && ["v"][0] == "v" && ["w"][0] == "w" && "u"[0] != "w"[0] && "v"[0] != "w"[0] && "u"[0] != "v"[0];
    assert Conflict(ELSEWHERE.accesses[0], OTHER.accesses[0]);
    var more := SharedIdUnsafe(Cast(FIRST, 2, ELSEWHERE, 3, OTHER), After(steps).state, 1);
    steps := Join(INITIAL, steps, more);
  }
}
