/**
  * One attempt to publish a directory through a private stage, and its recovery. The worker and any
  * number of recoveries run concurrently; every save, rename, removal and lock operation is one step,
  * any of them may fail before, after or (for removals) in the middle of its effect, and the worker
  * or a recovery may crash between any two steps.
  */
module StateRecovery {
  /** `Export` commits before it clears its stage; `Materialize` records publication first. */
  datatype Operation = Export | Materialize

  datatype Phase = Planned | Claimed | Writing | Validating | Ready | Published | Committed | Failed | Interrupted

  datatype Identity = Unrecorded | Recorded(id: nat)

  /** The durable attempt record. */
  datatype Record = Record(phase: Phase, stage: Identity, candidate: Identity, finished: bool)

  datatype Stored = NoRecord | Saved(record: Record)

  /** A directory entry: `Other` is a file or a link. */
  datatype Entry = Absent | Directory(id: nat) | Other

  /** The workspace claim as an inspection would judge it; `Live` while its process holds the lock. */
  datatype Claim = Free | Live | Dead | Uncertain

  /** How an operation ends: done, or raised with none, some or all of its effect. */
  datatype Fault = Fine | Untouched | Partial | Applied

  datatype Disk = Disk(
    record: Stored,
    stage: Entry,
    product: Entry,        // inside the stage
    destination: Entry,
    claim: Claim,
    nextId: nat,           // identities from here on were never used
    // History: the directories this attempt made, and whether its product passed validation.
    made: Identity,
    built: Identity,
    validated: bool)

  datatype WorkerStep =
    | SavePlanned | Prepare | Acquire | SaveClaimed | CheckTarget | MakeStage | SaveStage | Build | SaveValidating | Validate
    | SaveReady | RecheckTarget | Publish
    | SavePublished | Sweep | SaveCommitted | Release | SaveFinished | Returned
    | Probe | SaveFailed | SweepFailed | ReleaseFailed | FinishFailed  // the exception handler
    | Finally | Ended | Crashed

  /** `memory` is the attempt as this process last saved it. */
  datatype Worker = Worker(at: WorkerStep, memory: Record, lease: bool)

  datatype RecoveryStep = Idle | Inspect | Decide | Clear | Settle | Unclaim | Finish

  datatype Recovery = Recovery(at: RecoveryStep, memory: Record, owned: bool, committed: bool)

  datatype State = State(disk: Disk, worker: Worker, recovery: Recovery)

  const BLANK := Record(Planned, Unrecorded, Unrecorded, false)

  const INITIAL := State(Disk(NoRecord, Absent, Absent, Absent, Free, 0, Unrecorded, Unrecorded, false),
                         Worker(SavePlanned, BLANK, false), Recovery(Idle, BLANK, false, false))

  // Operations on the disk.

  predicate Took(fault: Fault) {
    fault.Fine? || fault.Applied?
  }

  function Save(d: Disk, updated: Record, fault: Fault): Disk {
    if Took(fault) then d.(record := Saved(updated)) else d
  }

  /** A stage is removed only when it is absent already or the very directory that was recorded. */
  predicate Clearable(d: Disk, attempt: Record) {
    d.stage.Absent? || (attempt.stage.Recorded? && d.stage == Directory(attempt.stage.id))
  }

  function ClearStage(d: Disk, attempt: Record, fault: Fault): Disk {
    if !Clearable(d, attempt) || fault.Untouched? then d
    else if fault.Partial? then d.(product := Absent)
    else d.(stage := Absent, product := Absent)
  }

  function ReleaseClaim(d: Disk, fault: Fault): Disk {
    if fault.Untouched? then d else d.(claim := if fault.Partial? then Uncertain else Free)
  }

  function AcquireClaim(d: Disk, fault: Fault): Disk {
    match fault
    case Fine => d.(claim := Live)
    case Untouched => d
    case Partial => d.(claim := Uncertain)
    case Applied => d.(claim := Dead)
  }

  function MakeDirectory(d: Disk, fault: Fault): Disk {
    if d.stage.Absent? && Took(fault) then d.(stage := Directory(d.nextId), made := Recorded(d.nextId), nextId := d.nextId + 1) else d
  }

  function BuildProduct(d: Disk, fault: Fault): Disk {
    if fault.Untouched? then d else d.(product := Directory(d.nextId), built := Recorded(d.nextId), nextId := d.nextId + 1)
  }

  /** A rename that never replaces. */
  function Rename(d: Disk, fault: Fault): Disk {
    if d.destination.Absent? && Took(fault) then d.(destination := d.product, product := Absent) else d
  }

  /** The recorded candidate stands at the destination. */
  predicate Exposed(d: Disk, attempt: Record) {
    attempt.candidate.Recorded? && d.destination == Directory(attempt.candidate.id)
  }

  // The worker.

  function EntryIdentity(e: Entry): Identity {
    if e.Directory? then Recorded(e.id) else Unrecorded
  }

  /** The record a saving step writes. */
  function Updated(d: Disk, w: Worker): Record {
    var me := w.memory;
    match w.at
    case SaveClaimed => me.(phase := Claimed)
    case SaveStage => me.(phase := Writing, stage := EntryIdentity(d.stage))
    case SaveValidating => me.(phase := Validating)
    case SaveReady => me.(phase := Ready, candidate := EntryIdentity(d.product))
    case SavePublished => me.(phase := Published)
    case SaveCommitted => me.(phase := Committed)
    case SaveFailed => me.(phase := Failed)
    case SaveFinished | FinishFailed => me.(finished := true)
    case _ => me
  }

  predicate Saves(at: WorkerStep) {
    match at
    case SavePlanned | SaveClaimed | SaveStage | SaveValidating | SaveReady | SavePublished | SaveCommitted | SaveFinished => true
    case SaveFailed | FinishFailed => true
    case _ => false
  }

  function WorkerDisk(d: Disk, w: Worker, fault: Fault): Disk {
    match w.at
    case Acquire => AcquireClaim(d, fault)
    case MakeStage => MakeDirectory(d, fault)
    case Build => BuildProduct(d, fault)
    case Validate => if fault.Fine? then d.(validated := true) else d
    case Publish => Rename(d, fault)
    case Sweep | SweepFailed => ClearStage(d, w.memory, fault)
    case Release | ReleaseFailed | Finally => if w.lease then ReleaseClaim(d, fault) else d
    case _ => if Saves(w.at) then Save(d, Updated(d, w), fault) else d
  }

  /** Whether the step raises. */
  predicate Raises(d: Disk, w: Worker, fault: Fault) {
    match w.at
    case CheckTarget | RecheckTarget | Publish => !fault.Fine? || !d.destination.Absent?
    case MakeStage => !fault.Fine? || !d.stage.Absent?
    case Sweep | SweepFailed => !fault.Fine? || !Clearable(d, w.memory)
    case ReleaseFailed | Release | Finally => w.lease && !fault.Fine?
    case _ => !fault.Fine?
  }

  function Next(op: Operation, at: WorkerStep): WorkerStep {
    match at
    case SavePlanned => Prepare
    case Prepare => Acquire
    case Acquire => SaveClaimed
    case SaveClaimed => CheckTarget
    case CheckTarget => MakeStage
    case MakeStage => SaveStage
    case SaveStage => Build
    case Build => SaveValidating
    case SaveValidating => Validate
    case Validate => SaveReady
    case SaveReady => RecheckTarget
    case RecheckTarget => Publish
    case Publish => if op.Export? then SaveCommitted else SavePublished
    case SavePublished => Sweep
    case Sweep => if op.Export? then Release else SaveCommitted
    case SaveCommitted => if op.Export? then Sweep else Release
    case Release => SaveFinished
    case SaveFinished => Returned
    case Probe => SaveFailed
    case SaveFailed => SweepFailed
    case SweepFailed => ReleaseFailed
    case ReleaseFailed => FinishFailed
    case FinishFailed => Finally
    case Finally => Ended
    case _ => at
  }

  predicate Handling(at: WorkerStep) {
    match at
    case Probe | SaveFailed | SweepFailed | ReleaseFailed | FinishFailed | Finally | Ended | Returned | Crashed => true
    case _ => false
  }

  /** An exception leads to the handler, and one inside the handler out of it. */
  function OnError(at: WorkerStep): WorkerStep {
    if !Handling(at) then Probe else if at.Finally? then Ended else Finally
  }

  function WorkerNext(op: Operation, d: Disk, w: Worker, fault: Fault): Worker {
    var at := if Raises(d, w, fault) then OnError(w.at) else Next(op, w.at);
    match w.at
    case Acquire => w.(at := at, lease := fault.Fine?)
    case Release | ReleaseFailed | Finally => w.(at := at, lease := w.lease && !fault.Fine?)
    // A candidate that stands at the destination is left for recovery.
    case Probe => w.(at := if fault.Fine? && !Exposed(d, w.memory) then SaveFailed else Finally)
    // A save is remembered only when it returned.
    case _ => if Saves(w.at) && fault.Fine? then w.(at := at, memory := Updated(d, w)) else w.(at := at)
  }

  // Recovery: raising anywhere ends it.

  function RecoveryUpdated(r: Recovery): Record {
    if r.at.Settle? then r.memory.(phase := if r.committed then Committed else Interrupted) else r.memory.(finished := true)
  }

  function RecoveryDisk(d: Disk, r: Recovery, fault: Fault): Disk {
    match r.at
    case Clear => ClearStage(d, r.memory, fault)
    case Unclaim => if r.owned then ReleaseClaim(d, fault) else d
    case Settle | Finish => Save(d, RecoveryUpdated(r), fault)
    case _ => d
  }

  function RecoveryNext(op: Operation, d: Disk, r: Recovery, fault: Fault): Recovery {
    var stop := r.(at := Idle);
    match r.at
    case Idle => if fault.Fine? && d.record.Saved? && !d.record.record.finished then Recovery(Inspect, d.record.record, false, false) else stop
    case Inspect => if fault.Fine? && (d.claim.Free? || d.claim.Dead?) then r.(at := Decide, owned := d.claim.Dead?) else stop
    case Decide =>
      // A candidate at the destination is verified again; any other directory there is preserved.
      if fault.Fine? && Exposed(d, r.memory) then r.(at := Clear, committed := true)
      else if fault.Fine? && !(d.destination.Directory? && (op.Materialize? || r.memory.candidate.Recorded?)) then r.(at := Clear, committed := false)
      else stop
    case Clear => if fault.Fine? && Clearable(d, r.memory) then r.(at := Settle) else stop
    case Settle => if fault.Fine? then r.(at := Unclaim, memory := RecoveryUpdated(r)) else stop
    case Unclaim => if r.owned && !fault.Fine? then stop else r.(at := Finish)
    case Finish => if fault.Fine? then r.(at := Idle, memory := RecoveryUpdated(r)) else stop
  }

  // Everybody.

  datatype Step =
    | Work(fault: Fault)
    | Recover(fault: Fault)
    | Interrupt                   // the worker leaves without running its exception handler
    | WorkerCrash
    | RecoveryCrash
    | Arrive(directory: bool)     // somebody else creates the destination
    | Swap(directory: bool)       // somebody else replaces the stage

  /** The attempt lock is held on the normal path only, not in the exception handler. */
  predicate Locked(w: Worker) {
    !Handling(w.at)
  }

  predicate Enabled(op: Operation, s: State, step: Step) {
    match step
    case Work(_) | Interrupt => !s.worker.at.Returned? && !s.worker.at.Ended? && !s.worker.at.Crashed?
    case Recover(_) => s.recovery.at.Idle? ==> !Locked(s.worker)
    case WorkerCrash => true
    case RecoveryCrash => true
    // An export's destination is named by the digest of its own product.
    case Arrive(_) => s.disk.destination.Absent? && op.Materialize?
    case Swap(_) => !Locked(s.worker)
  }

  /** The death of a process ends its hold on the claim. */
  function LockLost(d: Disk): Disk {
    if d.claim.Live? then d.(claim := Dead) else d
  }

  function Foreign(d: Disk, directory: bool): Entry {
    if directory then Directory(d.nextId) else Other
  }

  function Do(op: Operation, s: State, step: Step): State {
    match step
    case Work(fault) => State(WorkerDisk(s.disk, s.worker, fault), WorkerNext(op, s.disk, s.worker, fault), s.recovery)
    case Recover(fault) => State(RecoveryDisk(s.disk, s.recovery, fault), s.worker, RecoveryNext(op, s.disk, s.recovery, fault))
    case Interrupt => s.(worker := s.worker.(at := Finally))
    case WorkerCrash => State(LockLost(s.disk), s.worker.(at := Crashed), s.recovery)
    case RecoveryCrash => s.(recovery := s.recovery.(at := Idle))
    case Arrive(directory) => s.(disk := s.disk.(destination := Foreign(s.disk, directory), nextId := s.disk.nextId + 1))
    case Swap(directory) => s.(disk := s.disk.(stage := Foreign(s.disk, directory), product := Absent, nextId := s.disk.nextId + 1))
  }

  datatype Outcome = Impossible | Reached(state: State)

  function After(op: Operation, steps: seq<Step>): Outcome {
    if steps == [] then Reached(INITIAL)
    else
      var past := After(op, steps[..|steps| - 1]);
      if past.Reached? && Enabled(op, past.state, steps[|steps| - 1]) then Reached(Do(op, past.state, steps[|steps| - 1])) else Impossible
  }
}
