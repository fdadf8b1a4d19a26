/**
  * Many workflows claim, release and reconcile over the shared stores. Every store transaction and
  * every lock operation is one atomic step, and steps of different processes interleave freely.
  */
module OwnershipProtocol {
  import opened Paths
  import opened Ownership

  /** Where one acquiring or releasing process stands. `Held` is the returned, usable lease. */
  datatype Phase =
    | Locked                  // liveness lock taken
    | Claimed(added: bool)    // authority record present
    | Held
    | RollingBack             // registry failed: take the authority record back
    | Restoring               // that failed too: put the registry side back
    | Closing                 // acquire failed: close the lock
    | Unclaimed               // release: authority record removed
    | Reclaiming              // registry removal failed: restore the authority record
    | Broken                  // a failed release was reported
    | Unlocking               // records released

  datatype Session = Session(owner: Owner, phase: Phase)

  /** Where one reconciling process stands with the claim it read. */
  datatype Inspection =
    | Read        // claim read
    | Registered  // and its registry entry
    | Probed      // and its lock found free
    | Releasing   // read again, to be released
    | Clearing    // read again and found gone: release whatever the id has by then
    | Withdrawn   // authority record removed
    | Refiling    // registry removal failed: restore the authority record
    | Stopped

  /** Its next transaction removes a record of the owner's. */
  predicate Removes(phase: Inspection) {
    phase.Releasing? || phase.Clearing? || phase.Withdrawn?
  }

  /** The owner was proved dead. */
  predicate PastProbe(phase: Inspection) {
    MayRemove(phase) || phase.Refiling?
  }

  /** And it may still remove the owner's records. */
  predicate MayRemove(phase: Inspection) {
    phase.Probed? || Removes(phase)
  }

  datatype Reconciler = Reconciler(owner: Owner, phase: Inspection)

  type LockId = (Path, WorkflowId)

  datatype State = State(
    authority: map<Path, Records>,
    registry: Records,
    locks: map<LockId, nat>,
    sessions: map<nat, Session>,
    reconcilers: map<nat, Reconciler>,
    used: set<WorkflowId>)  // every workflow id a process ever started with

  function RecordsOf(s: State, workspace: Path): Records {
    if workspace in s.authority then s.authority[workspace] else map[]
  }

  function LockOf(owner: Owner): LockId {
    (owner.workspace, owner.id)
  }

  const INITIAL := State(map[], map[], map[], map[], map[], {})

  datatype Step =
    | Begin(pid: nat, owner: Owner)
    | Proceed(pid: nat, fault: Fault)
    | Release(pid: nat, fault: Fault)
    | Crash(pid: nat)
    | Inspect(pid: nat, workspace: Path, id: WorkflowId)
    | Reconcile(pid: nat, fault: Fault)
    | Abandon(pid: nat)           // a reconciling process dies

  ghost predicate Enabled(s: State, step: Step) {
    match step
    case Begin(p, owner) => p !in s.sessions && LockOf(owner) !in s.locks
    case Proceed(p, _) => p in s.sessions && s.sessions[p].phase !in {Held, Broken}
    case Release(p, _) => p in s.sessions && s.sessions[p].phase in {Held, Broken}
    case Crash(p) => p in s.sessions
    case Inspect(p, workspace, id) => (p in s.reconcilers ==> s.reconcilers[p].phase.Stopped?) && id in RecordsOf(s, workspace)
    case Reconcile(p, _) => p in s.reconcilers && !s.reconcilers[p].phase.Stopped?
    case Abandon(p) => p in s.reconcilers
  }

  /**
    * What makes it safe to start under an id, used before or not: no process runs under it, its records and
    * inspections are of this workspace, and none of them is about to remove the records of a dead owner.
    */
  ghost predicate IdAtRest(s: State, owner: Owner) {
    && (forall p :: p in s.sessions ==> s.sessions[p].owner.id != owner.id)
    && (forall w :: owner.id in RecordsOf(s, w) ==> w == owner.workspace)
    && (forall r :: r in s.reconcilers && s.reconcilers[r].owner.id == owner.id ==>
                      s.reconcilers[r].owner.workspace == owner.workspace && !MayRemove(s.reconcilers[r].phase))
  }

  ghost predicate Guarded(s: State, step: Step) {
    step.Begin? ==> IdAtRest(s, step.owner)
  }

  function At(s: State, p: nat, session: Session): State {
    s.(sessions := s.sessions[p := session])
  }

  /** The process is gone and so is its lock. */
  function Gone(s: State, p: nat): State
    requires p in s.sessions
  {
    s.(sessions := s.sessions - {p}, locks := s.locks - {LockOf(s.sessions[p].owner)})
  }

  /** What one step makes of the two stores its process sees, and of the process. */
  datatype Move<T> = Move(stores: Stores, next: T)

  /** One step of an acquire, or of a release after its first step. */
  function AdvanceMove(v: Stores, me: Session, fault: Fault): Move<Session> {
    match me.phase
    case Locked =>
      (match AuthorityAcquire(v.authority, me.owner)
       case Refused => Move(v, me.(phase := Closing))
       case Found(current) => Move(v, if fault.Raised? then me.(phase := Closing) else Session(current, Claimed(false)))
       case Inserted(records) =>
         Move(v.(authority := Commit(v.authority, records, fault)), me.(phase := if fault.Raised? then Closing else Claimed(true))))
    case Claimed(added) =>
      (match RegistryAcquire(v.registry, me.owner)
       case Refused => Move(v, me.(phase := if added then RollingBack else Closing))
       case Found(_) => Move(v, me.(phase := if fault.Healthy? then Held else if added then RollingBack else Closing))
       case Inserted(records) =>
         Move(v.(registry := Commit(v.registry, records, fault)),
              me.(phase := if fault.Healthy? then Held else if added then RollingBack else Closing)))
    case RollingBack =>
      (match AuthorityRelease(v.authority, me.owner.id)
       case NotOurs => Move(v, me.(phase := Restoring))
       case Nothing => Move(v, me.(phase := if fault.Raised? then Restoring else Closing))
       case Removed(records) =>
         Move(v.(authority := Commit(v.authority, records, fault)), me.(phase := if fault.Raised? then Restoring else Closing)))
    case Restoring => Move(v.(registry := RegistryAfter(v.registry, me.owner, fault)), me.(phase := Closing))
    case Unclaimed =>
      Move(v.(registry := Commit(v.registry, RegistryRelease(v.registry, me.owner.id), fault)),
           me.(phase := if fault.Healthy? then Unlocking else Reclaiming))
    case Reclaiming =>
      (match AuthorityAcquire(v.authority, me.owner)
       case Inserted(records) => Move(v.(authority := Commit(v.authority, records, fault)), me.(phase := Broken))
       case _ => Move(v, me.(phase := Broken)))
    case _ => Move(v, me)
  }

  /** The first step of a release: remove the authority record. */
  function ReleaseMove(v: Stores, me: Session, fault: Fault): Move<Session> {
    match AuthorityRelease(v.authority, me.owner.id)
    case NotOurs => Move(v, me.(phase := Broken))
    case Nothing => Move(v, me.(phase := if fault.Raised? then Broken else Unlocking))
    case Removed(records) =>
      Move(v.(authority := Commit(v.authority, records, fault)), me.(phase := if fault.Raised? then Broken else Unclaimed))
  }

  /** One step of a reconciliation; anything but a proof of death ends it. */
  function InvestigateMove(v: Stores, lockFree: bool, me: Reconciler, fault: Fault): Move<Reconciler> {
    var stop := me.(phase := Stopped);
    match me.phase
    case Read =>
      // Without a matching registry entry the claim is uncertain.
      Move(v, if fault.Healthy? && me.owner.id in v.registry && v.registry[me.owner.id] == me.owner then me.(phase := Registered) else stop)
    case Registered =>
      // A held liveness lock means live; one that cannot be probed means uncertain.
      Move(v, if fault.Healthy? && lockFree then me.(phase := Probed) else stop)
    case Probed =>
      Move(v, if fault.Raised? then stop
           else if me.owner.id in v.authority then Reconciler(v.authority[me.owner.id], Releasing)
           else me.(phase := Clearing))
    case Releasing =>
      (match AuthorityRelease(v.authority, me.owner.id)
       case Removed(records) =>
         Move(v.(authority := Commit(v.authority, records, fault)), if fault.Raised? then stop else me.(phase := Withdrawn))
       case _ => Move(v, stop))
    case Clearing =>
      (match AuthorityRelease(v.authority, me.owner.id)
       case Removed(records) => Move(v.(authority := Commit(v.authority, records, fault)), stop)
       case _ => Move(v, stop))
    case Withdrawn =>
      Move(v.(registry := Commit(v.registry, RegistryRelease(v.registry, me.owner.id), fault)),
           if fault.Raised? then me.(phase := Refiling) else stop)
    case Refiling =>
      (match AuthorityAcquire(v.authority, me.owner)
       case Inserted(records) => Move(v.(authority := Commit(v.authority, records, fault)), stop)
       case _ => Move(v, stop))
    case Stopped => Move(v, me)
  }

  function View(s: State, w: Path): Stores {
    Stores(RecordsOf(s, w), s.registry)
  }

  function Put(s: State, w: Path, v: Stores): State {
    s.(authority := s.authority[w := v.authority], registry := v.registry)
  }

  function Moved(s: State, p: nat, move: Move<Session>): State
    requires p in s.sessions
  {
    At(Put(s, s.sessions[p].owner.workspace, move.stores), p, move.next)
  }

  function Looking(s: State, p: nat, r: Reconciler): State {
    s.(reconcilers := s.reconcilers[p := r])
  }

  function Inspected(s: State, p: nat, move: Move<Reconciler>): State
    requires p in s.reconcilers
  {
    Looking(Put(s, s.reconcilers[p].owner.workspace, move.stores), p, move.next)
  }

  ghost function Do(s: State, step: Step): State
    requires Enabled(s, step)
  {
    match step
    case Begin(p, owner) => At(s.(locks := s.locks[LockOf(owner) := p], used := s.used + {owner.id}), p, Session(owner, Locked))
    case Proceed(p, fault) =>
      var me := s.sessions[p];
      if me.phase.Closing? || me.phase.Unlocking? then Gone(s, p) else Moved(s, p, AdvanceMove(View(s, me.owner.workspace), me, fault))
    case Release(p, fault) => Moved(s, p, ReleaseMove(View(s, s.sessions[p].owner.workspace), s.sessions[p], fault))
    case Crash(p) => Gone(s, p)
    case Inspect(p, workspace, id) => Looking(s, p, Reconciler(RecordsOf(s, workspace)[id], Read))
    case Reconcile(p, fault) =>
      var me := s.reconcilers[p];
      Inspected(s, p, InvestigateMove(View(s, me.owner.workspace), LockOf(me.owner) !in s.locks, me, fault))
    case Abandon(p) => s.(reconcilers := s.reconcilers - {p})
  }

  datatype Outcome = Impossible | Reached(state: State)

  /** The state that a run leads to, when each of its steps was possible. */
  ghost function RunFrom(s: State, steps: seq<Step>): Outcome {
    if steps == [] then Reached(s)
    else
      var past, last := RunFrom(s, steps[..|steps| - 1]), steps[|steps| - 1];
      if past.Reached? && Enabled(past.state, last) then Reached(Do(past.state, last)) else Impossible
  }

  ghost function After(steps: seq<Step>): Outcome {
    RunFrom(INITIAL, steps)
  }

  /** Every process of the run started under an id at rest. */
  ghost predicate AllGuarded(steps: seq<Step>) {
    forall k :: 0 <= k < |steps| && After(steps[..k]).Reached? ==> Guarded(After(steps[..k]).state, steps[k])
  }

  /** Undisturbed, the steps of a release are the release of one workflow's records. */
  lemma ReleaseStepByStep(v: Stores, me: Session, remove: Fault, unregister: Fault, restore: Fault)
    ensures
      var first := ReleaseMove(v, me, remove);
      var second := if first.next.phase.Unclaimed? then AdvanceMove(first.stores, first.next, unregister) else first;
      var third := if second.next.phase.Reclaiming? then AdvanceMove(second.stores, second.next, restore) else second;
      && third.stores == ReleasedStores(v, me.owner, remove, unregister, restore)
      && (third.next.phase.Unlocking? <==>
          if me.owner.id in v.authority then remove.Healthy? && unregister.Healthy?
          else v.authority == map[] && !remove.Raised?)
  {
  }

  /** The steps of an acquire after the authority is claimed. */
  lemma RegisterStepByStep(v: Stores, owner: Owner, added: bool, register: Fault, rollback: Fault, restore: Fault)
    ensures
      var registered := RegistryAcquire(v.registry, owner);
      var second := AdvanceMove(v, Session(owner, Claimed(added)), register);
      var third := if second.next.phase.RollingBack? then AdvanceMove(second.stores, second.next, rollback) else second;
      var fourth := if third.next.phase.Restoring? then AdvanceMove(third.stores, third.next, restore) else third;
      && (fourth.next.phase.Held? <==> register.Healthy? && !registered.Refused?)
      && fourth.stores ==
         (var after := v.(registry := RegistryAfter(v.registry, owner, register));
          if (register.Healthy? && !registered.Refused?) || !added then after
          else
            match AuthorityRelease(v.authority, owner.id)
            case NotOurs => after.(registry := RegistryAfter(after.registry, owner, restore))
            case Nothing => if rollback.Raised? then after.(registry := RegistryAfter(after.registry, owner, restore)) else after
            case Removed(records) =>
              Stores(Commit(v.authority, records, rollback), if rollback.Raised? then RegistryAfter(after.registry, owner, restore) else after.registry))
  {
  }

  /** Undisturbed, the steps of an acquire are the acquire of one workflow's records. */
  lemma AcquireStepByStep(v: Stores, owner: Owner, claim: Fault, register: Fault, rollback: Fault, restore: Fault)
    ensures
      var first := AdvanceMove(v, Session(owner, Locked), claim);
      var second := if first.next.phase.Claimed? then AdvanceMove(first.stores, first.next, register) else first;
      var third := if second.next.phase.RollingBack? then AdvanceMove(second.stores, second.next, rollback) else second;
      var fourth := if third.next.phase.Restoring? then AdvanceMove(third.stores, third.next, restore) else third;
      && fourth.stores == AcquiredStores(v, owner, claim, register, rollback, restore)
      && (fourth.next.phase.Held? <==> !AcquireFails(v, owner, claim, register))
  {
    var first := AdvanceMove(v, Session(owner, Locked), claim);
    if first.next.phase.Claimed? {
      RegisterStepByStep(first.stores, first.next.owner, first.next.phase.added, register, rollback, restore);
    }
  }

  /** The steps of a reconciliation up to the point where it may remove records. */
  lemma ProbeStepByStep(v: Stores, lockFree: bool, owner: Owner, read: Fault, probe: Fault, again: Fault)
    requires AuthorityHas(v, owner)
    ensures
      var first := InvestigateMove(v, lockFree, Reconciler(owner, Read), read);
      var second := InvestigateMove(first.stores, lockFree, first.next, probe);
      var third := InvestigateMove(second.stores, lockFree, second.next, again);
      && third.stores == v
      && third.next == Reconciler(owner, if Complete(v, owner) && lockFree && read.Healthy? && probe.Healthy? && again.Healthy? then Releasing else Stopped)
  {
  }

  /** Undisturbed, those after it are the release of the dead owner's records. */
  lemma RemovalStepByStep(v: Stores, lockFree: bool, owner: Owner, remove: Fault, unregister: Fault, restore: Fault)
    requires owner.id in v.authority
    ensures
      var first := InvestigateMove(v, lockFree, Reconciler(owner, Releasing), remove);
      var second := InvestigateMove(first.stores, lockFree, first.next, unregister);
      InvestigateMove(second.stores, lockFree, second.next, restore).stores == ReleasedStores(v, owner, remove, unregister, restore)
  {
  }

  /**
    * Undisturbed, a reconciliation releases the claim it read exactly when the registry has that claim and
    * its lock is free; a claim without a matching registry entry, or a live one, keeps both its records.
    */
  lemma ReconcileStepByStep(
    v: Stores, lockFree: bool, owner: Owner, read: Fault, probe: Fault, again: Fault, remove: Fault, unregister: Fault, restore: Fault)
    requires AuthorityHas(v, owner)
    ensures
      var first := InvestigateMove(v, lockFree, Reconciler(owner, Read), read);
      var second := InvestigateMove(first.stores, lockFree, first.next, probe);
      var third := InvestigateMove(second.stores, lockFree, second.next, again);
      var fourth := InvestigateMove(third.stores, lockFree, third.next, remove);
      var fifth := InvestigateMove(fourth.stores, lockFree, fourth.next, unregister);
      var sixth := InvestigateMove(fifth.stores, lockFree, fifth.next, restore);
      sixth.stores == if Complete(v, owner) && lockFree && read.Healthy? && probe.Healthy? && again.Healthy?
      then ReleasedStores(v, owner, remove, unregister, restore)
      else v
  {
    ProbeStepByStep(v, lockFree, owner, read, probe, again);
    RemovalStepByStep(v, lockFree, owner, remove, unregister, restore);
  }
}
