/** What every run of one attempt and its recoveries guarantees. */
module AttemptSafety {
  import opened StateRecovery

  // What the records may say.

  /** The product of this attempt stands at the destination. */
  predicate IsPublished(d: Disk) {
    d.built.Recorded? && d.destination == Directory(d.built.id)
  }

  predicate Hopeful(phase: Phase) {
    phase.Ready? || phase.Published? || phase.Committed?
  }

  /** Identities in a record are of directories this attempt made, the candidate a validated one. */
  predicate Truthful(d: Disk, r: Record) {
    && (r.stage.Recorded? ==> r.stage == d.made)
    && (r.candidate.Recorded? ==> r.candidate == d.built && d.validated)
  }

  /** A record names a published product and does not deny it. */
  predicate Agrees(d: Disk, r: Record) {
    && (r.phase.Committed? ==> IsPublished(d))
    && (IsPublished(d) ==> r.candidate == d.built && Hopeful(r.phase))
    && (r.finished && IsPublished(d) ==> r.phase.Committed?)
  }

  predicate Finished(d: Disk) {
    d.record.Saved? && d.record.record.finished
  }

  predicate Used(i: Identity, n: nat) {
    i.Recorded? ==> i.id < n
  }

  predicate DiskInv(d: Disk) {
    && (d.record.NoRecord? ==> !IsPublished(d))
    && (d.record.Saved? ==> Truthful(d, d.record.record) && Agrees(d, d.record.record))
    && Used(EntryIdentity(d.stage), d.nextId) && Used(EntryIdentity(d.product), d.nextId) && Used(EntryIdentity(d.destination), d.nextId)
    && Used(d.made, d.nextId) && Used(d.built, d.nextId)
  }

  /** On the way to publication nothing is promised yet. */
  predicate Quiet(d: Disk, r: Record) {
    !IsPublished(d) && !r.phase.Committed? && !r.finished
  }

  predicate Staged(d: Disk) {
    d.product.Directory? && d.built == Recorded(d.product.id)
  }

  predicate Confirmed(d: Disk, r: Record) {
    IsPublished(d) && Agrees(d, r) && !r.finished
  }

  predicate WorkerInv(op: Operation, d: Disk, w: Worker) {
    var me := w.memory;
    && Truthful(d, me)
    && match w.at
       case SavePlanned | Prepare | Acquire | SaveClaimed | CheckTarget | MakeStage =>
         Quiet(d, me) && d.stage.Absent? && d.made.Unrecorded? && d.built.Unrecorded?
       case SaveStage => Quiet(d, me) && d.stage.Directory? && d.made == Recorded(d.stage.id) && d.built.Unrecorded?
       case Build => Quiet(d, me) && d.built.Unrecorded?
       case SaveValidating | Validate => Quiet(d, me) && Staged(d)
       case SaveReady => Quiet(d, me) && Staged(d) && d.validated
       case RecheckTarget | Publish => Quiet(d, me) && Staged(d) && d.record == Saved(me) && me.candidate == d.built && me.phase.Ready?
       case SavePublished => Confirmed(d, me) && op.Materialize?
       case SaveCommitted => Confirmed(d, me)
       case Sweep => Confirmed(d, me) && (op.Export? ==> me.phase.Committed?)
       case Release | SaveFinished => Confirmed(d, me) && me.phase.Committed?
       case Returned => IsPublished(d)
       case Probe => Agrees(d, me) && !me.finished
       case SaveFailed => !IsPublished(d) && !me.finished
       case SweepFailed | ReleaseFailed | FinishFailed => !IsPublished(d) && me.phase.Failed? && !me.finished
       case Finally | Ended | Crashed => true
  }

  predicate RecoveryInv(d: Disk, r: Recovery) {
    !r.at.Idle? ==>
      && Truthful(d, r.memory) && Agrees(d, r.memory) && !r.memory.finished && (IsPublished(d) ==> !Finished(d))
      && (!r.at.Inspect? && !r.at.Decide? ==> r.committed == IsPublished(d))
      && (r.at.Unclaim? || r.at.Finish? ==> r.memory.phase == if r.committed then Committed else Interrupted)
  }

  predicate Inv(op: Operation, s: State) {
    DiskInv(s.disk) && WorkerInv(op, s.disk, s.worker) && RecoveryInv(s.disk, s.recovery)
    && (Locked(s.worker) ==> s.recovery.at.Idle? && !Finished(s.disk))
  }

  /** Whatever a worker saves is true of the disk. */
  lemma UpdatedSound(op: Operation, d: Disk, w: Worker)
    requires WorkerInv(op, d, w) && Saves(w.at)
    ensures Truthful(d, Updated(d, w)) && Agrees(d, Updated(d, w))
  {
  }

  lemma SaveKeepsDisk(d: Disk, r: Record, fault: Fault)
    requires DiskInv(d) && Truthful(d, r) && Agrees(d, r)
    ensures DiskInv(Save(d, r, fault))
  {
  }

  lemma ClearKeepsDisk(d: Disk, r: Record, fault: Fault)
    requires DiskInv(d)
    ensures DiskInv(ClearStage(d, r, fault))
  {
  }

  lemma ReleaseKeepsDisk(d: Disk, fault: Fault)
    requires DiskInv(d)
    ensures DiskInv(ReleaseClaim(d, fault)) && DiskInv(AcquireClaim(d, fault)) && DiskInv(LockLost(d))
  {
  }

  lemma RenameKeepsDisk(d: Disk, fault: Fault)
    requires DiskInv(d) && Staged(d) && d.record.Saved?
    requires d.record.record.candidate == d.built && d.record.record.phase.Ready? && !d.record.record.finished
    ensures DiskInv(Rename(d, fault))
  {
  }

  lemma WorkerKeepsDisk(op: Operation, d: Disk, w: Worker, fault: Fault)
    requires DiskInv(d) && WorkerInv(op, d, w)
    ensures DiskInv(WorkerDisk(d, w, fault))
  {
    if Saves(w.at) {
      UpdatedSound(op, d, w);
      SaveKeepsDisk(d, Updated(d, w), fault);
    }
    match w.at
    case Acquire | Release | ReleaseFailed | Finally => ReleaseKeepsDisk(d, fault);
    case Sweep | SweepFailed => ClearKeepsDisk(d, w.memory, fault);
    case Publish => RenameKeepsDisk(d, fault);
    case _ =>
  }

  /** The normal path up to the rename. */
  predicate Preparing(at: WorkerStep) {
    Early(at) || at.SaveValidating? || at.Validate? || at.SaveReady? || at.RecheckTarget? || at.Publish?
  }

  predicate Early(at: WorkerStep) {
    match at
    case SavePlanned | Prepare | Acquire | SaveClaimed | CheckTarget | MakeStage | SaveStage | Build => true
    case _ => false
  }

  /** What records may say depends on these alone. */
  predicate SameHistory(d: Disk, d': Disk) {
    d'.destination == d.destination && d'.made == d.made && d'.built == d.built && d'.validated == d.validated
  }

  lemma EarlyKeepsWorker(op: Operation, d: Disk, w: Worker, fault: Fault)
    requires DiskInv(d) && WorkerInv(op, d, w) && Early(w.at)
    ensures WorkerInv(op, WorkerDisk(d, w, fault), WorkerNext(op, d, w, fault))
  {
  }

  lemma LateKeepsWorker(op: Operation, d: Disk, w: Worker, fault: Fault)
    requires DiskInv(d) && WorkerInv(op, d, w) && Preparing(w.at) && !Early(w.at)
    ensures WorkerInv(op, WorkerDisk(d, w, fault), WorkerNext(op, d, w, fault))
  {
  }

  lemma AfterwardsSame(op: Operation, d: Disk, w: Worker, fault: Fault)
    requires !Preparing(w.at)
    ensures SameHistory(d, WorkerDisk(d, w, fault))
  {
  }

  lemma ConcludingKeepsWorker(op: Operation, d: Disk, w: Worker, fault: Fault, d': Disk)
    requires DiskInv(d) && WorkerInv(op, d, w) && !Preparing(w.at) && !Handling(w.at) && SameHistory(d, d')
    ensures WorkerInv(op, d', WorkerNext(op, d, w, fault))
  {
  }

  /** A save of the exception handler. */
  lemma ReportingKeepsWorker(op: Operation, d: Disk, w: Worker, fault: Fault, d': Disk)
    requires WorkerInv(op, d, w) && (w.at.SaveFailed? || w.at.FinishFailed?) && SameHistory(d, d')
    ensures WorkerInv(op, d', WorkerNext(op, d, w, fault))
  {
  }

  lemma HandlingKeepsWorker(op: Operation, d: Disk, w: Worker, fault: Fault, d': Disk)
    requires WorkerInv(op, d, w) && Handling(w.at) && !Saves(w.at) && SameHistory(d, d')
    ensures WorkerInv(op, d', WorkerNext(op, d, w, fault))
  {
  }

  lemma RecoveryKeepsDisk(op: Operation, d: Disk, r: Recovery, fault: Fault)
    requires DiskInv(d) && RecoveryInv(d, r)
    ensures DiskInv(RecoveryDisk(d, r, fault))
  {
  }

  lemma RecoveryKeepsRecovery(op: Operation, d: Disk, r: Recovery, fault: Fault)
    requires DiskInv(d) && RecoveryInv(d, r)
    ensures RecoveryInv(RecoveryDisk(d, r, fault), RecoveryNext(op, d, r, fault))
  {
  }

  lemma RecoverySame(d: Disk, r: Recovery, fault: Fault)
    ensures SameHistory(d, RecoveryDisk(d, r, fault))
  {
  }

  lemma WorkerUnmoved(op: Operation, d: Disk, d': Disk, w: Worker)
    requires WorkerInv(op, d, w) && Handling(w.at) && SameHistory(d, d')
    ensures WorkerInv(op, d', w)
  {
  }

  lemma WorkKeepsWorker(op: Operation, d: Disk, w: Worker, fault: Fault)
    requires DiskInv(d) && WorkerInv(op, d, w)
    ensures WorkerInv(op, WorkerDisk(d, w, fault), WorkerNext(op, d, w, fault))
  {
    var d' := WorkerDisk(d, w, fault);
    if Early(w.at) {
      EarlyKeepsWorker(op, d, w, fault);
    } else if Preparing(w.at) {
      LateKeepsWorker(op, d, w, fault);
    } else {
      AfterwardsSame(op, d, w, fault);
      if !Handling(w.at) {
        ConcludingKeepsWorker(op, d, w, fault, d');
      } else if Saves(w.at) {
        ReportingKeepsWorker(op, d, w, fault, d');
      } else {
        HandlingKeepsWorker(op, d, w, fault, d');
      }
    }
  }

  /** The handler never takes the lock again. */
  lemma HandlingStays(op: Operation, d: Disk, w: Worker, fault: Fault)
    requires Handling(w.at)
    ensures Handling(WorkerNext(op, d, w, fault).at)
  {
  }

  /** The handler writes no record once the product is published. */
  lemma PublishedUnwritten(op: Operation, d: Disk, w: Worker, fault: Fault)
    requires WorkerInv(op, d, w) && Handling(w.at)
    ensures IsPublished(d) ==> WorkerDisk(d, w, fault).record == d.record
  {
  }

  /** The normal path is left as soon as a record may be finished. */
  lemma LockedUnfinished(op: Operation, d: Disk, w: Worker, fault: Fault)
    requires WorkerInv(op, d, w) && !Finished(d)
    ensures !Handling(WorkerNext(op, d, w, fault).at) ==> !Finished(WorkerDisk(d, w, fault))
  {
  }

  lemma WorkKeeps(op: Operation, s: State, fault: Fault)
    requires Inv(op, s)
    ensures Inv(op, Do(op, s, Work(fault)))
  {
    WorkerKeepsDisk(op, s.disk, s.worker, fault);
    WorkKeepsWorker(op, s.disk, s.worker, fault);
    if Handling(s.worker.at) {
      HandlingStays(op, s.disk, s.worker, fault);
      AfterwardsSame(op, s.disk, s.worker, fault);
      PublishedUnwritten(op, s.disk, s.worker, fault);
    } else {
      LockedUnfinished(op, s.disk, s.worker, fault);
    }
  }

  lemma RecoverKeeps(op: Operation, s: State, fault: Fault)
    requires Inv(op, s) && Enabled(op, s, Recover(fault))
    ensures Inv(op, Do(op, s, Recover(fault)))
  {
    RecoveryKeepsDisk(op, s.disk, s.recovery, fault);
    RecoveryKeepsRecovery(op, s.disk, s.recovery, fault);
    RecoverySame(s.disk, s.recovery, fault);
    WorkerUnmoved(op, s.disk, RecoveryDisk(s.disk, s.recovery, fault), s.worker);
  }

  /** A stranger's entry is never taken for the attempt's product. */
  lemma ArriveKeeps(op: Operation, s: State, directory: bool)
    requires Inv(op, s) && Enabled(op, s, Arrive(directory))
    ensures Inv(op, Do(op, s, Arrive(directory)))
  {
    assert !IsPublished(s.disk) && !IsPublished(Do(op, s, Arrive(directory)).disk);
  }

  lemma InvStep(op: Operation, s: State, step: Step)
    requires Inv(op, s) && Enabled(op, s, step)
    ensures Inv(op, Do(op, s, step))
  {
    match step
    case Work(fault) => WorkKeeps(op, s, fault);
    case Recover(fault) => RecoverKeeps(op, s, fault);
    case Interrupt =>
    case WorkerCrash => ReleaseKeepsDisk(s.disk, Fine);
    case RecoveryCrash =>
    case Arrive(directory) => ArriveKeeps(op, s, directory);
    case Swap(_) => WorkerUnmoved(op, s.disk, Do(op, s, step).disk, s.worker);
  }

  lemma {:induction false} RunsKeepInv(op: Operation, steps: seq<Step>)
    ensures After(op, steps).Reached? ==> Inv(op, After(op, steps).state)
  {
    if steps != [] {
      var past := After(op, steps[..|steps| - 1]);
      RunsKeepInv(op, steps[..|steps| - 1]);
      if After(op, steps).Reached? {
        InvStep(op, past.state, steps[|steps| - 1]);
      }
    }
  }

  // The guarantees.

  /**
    * What the durable record says is what happened: committed only with the validated product at
    * the destination; a published product has a durable record that was ready, names it, and never
    * calls it failed or interrupted; and a finished record is committed exactly when it is published.
    */
  predicate Faithful(d: Disk) {
    && (d.record.Saved? && d.record.record.phase.Committed? ==> IsPublished(d))
    && (IsPublished(d) ==>
          && d.validated && d.record.Saved? && d.record.record.candidate == d.built
          && (d.record.record.phase.Ready? || d.record.record.phase.Published? || d.record.record.phase.Committed?))
    && (d.record.Saved? && d.record.record.finished ==> (d.record.record.phase.Committed? <==> IsPublished(d)))
  }

  lemma EveryRunFaithful(op: Operation, steps: seq<Step>)
    ensures After(op, steps).Reached? ==> Faithful(After(op, steps).state.disk)
  {
    RunsKeepInv(op, steps);
  }

  /**
    * A worker or recovery step removes no stage but the one this attempt made, and fills the
    * destination only when it is absent, with the validated product that a durable ready record names.
    */
  predicate Careful(d: Disk, d': Disk) {
    && (d'.stage != d.stage ==> d.stage.Absent? || (d.made.Recorded? && d.stage == Directory(d.made.id) && d'.stage.Absent?))
    && (d'.destination != d.destination ==>
          && d.destination.Absent? && IsPublished(d') && d.validated
          && d.record.Saved? && d.record.record.phase.Ready? && d.record.record.candidate == d.built)
  }

  lemma WorkerCareful(op: Operation, d: Disk, w: Worker, fault: Fault)
    requires WorkerInv(op, d, w)
    ensures Careful(d, WorkerDisk(d, w, fault))
  {
    match w.at
    case MakeStage =>
    case Publish =>
    case Sweep | SweepFailed =>
    case _ =>
  }

  lemma RecoveryCareful(d: Disk, r: Recovery, fault: Fault)
    requires RecoveryInv(d, r)
    ensures Careful(d, RecoveryDisk(d, r, fault))
  {
  }

  /** In every run, whatever stranger's entries turn up, each own step is careful. */
  lemma EveryStepCareful(op: Operation, steps: seq<Step>, step: Step)
    requires After(op, steps).Reached? && Enabled(op, After(op, steps).state, step) && !step.Arrive? && !step.Swap?
    ensures Careful(After(op, steps).state.disk, Do(op, After(op, steps).state, step).disk)
  {
    RunsKeepInv(op, steps);
    var s := After(op, steps).state;
    match step
    case Work(fault) => WorkerCareful(op, s.disk, s.worker, fault);
    case Recover(fault) => RecoveryCareful(s.disk, s.recovery, fault);
    case Interrupt | WorkerCrash | RecoveryCrash =>
  }

  // Settled attempts.

  predicate Settled(d: Disk) {
    Finished(d) && d.record.record.phase.Committed?
  }

  lemma SettledStep(op: Operation, s: State, step: Step)
    requires Inv(op, s) && Enabled(op, s, step) && Settled(s.disk)
    ensures Do(op, s, step).disk.record == s.disk.record && Do(op, s, step).disk.destination == s.disk.destination
  {
    match step
    case Work(fault) =>
      PublishedUnwritten(op, s.disk, s.worker, fault);
      AfterwardsSame(op, s.disk, s.worker, fault);
    case Recover(fault) => RecoverySame(s.disk, s.recovery, fault);
    case _ =>
  }

  /** A committed, finished attempt keeps its record and its product through every later step. */
  lemma {:induction false} CommittedForever(op: Operation, steps: seq<Step>, more: seq<Step>)
    requires After(op, steps).Reached? && Settled(After(op, steps).state.disk)
    ensures
      var later := After(op, steps + more);
      later.Reached? ==>
        && later.state.disk.record == After(op, steps).state.disk.record
        && later.state.disk.destination == After(op, steps).state.disk.destination
  {
    if more == [] {
      assert steps + more == steps;
    } else {
      var last := |more| - 1;
      CommittedForever(op, steps, more[..last]);
      assert (steps + more)[..|steps + more| - 1] == steps + more[..last];
      if After(op, steps + more).Reached? {
        RunsKeepInv(op, steps + more[..last]);
        SettledStep(op, After(op, steps + more[..last]).state, more[last]);
      }
    }
  }

  // What a finished worker leaves behind.

  /** From the claim on the worker knows its lease, and what it has cleared and released stays so. */
  predicate Tidy(op: Operation, d: Disk, w: Worker) {
    match w.at
    case SavePlanned | Prepare | Acquire => true
    case Release => w.lease && d.stage.Absent? && d.product.Absent?
    case SaveCommitted => w.lease && (op.Materialize? ==> d.stage.Absent? && d.product.Absent?)
    case SaveFinished | Returned => d.stage.Absent? && d.product.Absent? && d.claim.Free?
    case _ => Handling(w.at) || w.lease
  }

  lemma TidyStep(op: Operation, d: Disk, w: Worker, fault: Fault)
    requires Tidy(op, d, w) && !w.at.Returned?
    ensures Tidy(op, WorkerDisk(d, w, fault), WorkerNext(op, d, w, fault))
  {
  }

  lemma TidyKept(op: Operation, s: State, step: Step)
    requires Inv(op, s) && Enabled(op, s, step) && (Locked(s.worker) ==> Tidy(op, s.disk, s.worker))
    ensures var s' := Do(op, s, step); Locked(s'.worker) ==> Tidy(op, s'.disk, s'.worker)
  {
    if step.Work? && Locked(s.worker) {
      TidyStep(op, s.disk, s.worker, step.fault);
    }
  }

  /** While the worker is on its normal path nobody else clears, replaces or releases anything of its own. */
  lemma {:induction false} RunsTidy(op: Operation, steps: seq<Step>)
    ensures After(op, steps).Reached? && Locked(After(op, steps).state.worker) ==> Tidy(op, After(op, steps).state.disk, After(op, steps).state.worker)
  {
    if steps != [] && After(op, steps).Reached? {
      var past := steps[..|steps| - 1];
      RunsTidy(op, past);
      RunsKeepInv(op, past);
      TidyKept(op, After(op, past).state, steps[|steps| - 1]);
    }
  }

  /** In every run, when the worker returns its stage is gone and its claim is free. */
  lemma ReturnsTidy(op: Operation, steps: seq<Step>, fault: Fault)
    requires After(op, steps + [Work(fault)]).Reached? && After(op, steps + [Work(fault)]).state.worker.at.Returned?
    ensures var d := After(op, steps + [Work(fault)]).state.disk; d.stage.Absent? && d.product.Absent? && d.claim.Free?
  {
    var all := steps + [Work(fault)];
    assert all[..|all| - 1] == steps;
    var s := After(op, steps).state;
    RunsTidy(op, steps);
    TidyStep(op, s.disk, s.worker, fault);
  }

  lemma RecoveryNeverLive(op: Operation, d: Disk, r: Recovery, fault: Fault)
    ensures RecoveryDisk(d, r, fault).claim.Live? ==> d.claim.Live?
  {
  }

  lemma CrashedStep(op: Operation, s: State, step: Step)
    requires Enabled(op, s, step) && (s.worker.at.Crashed? ==> !s.disk.claim.Live?)
    ensures Do(op, s, step).worker.at.Crashed? ==> !Do(op, s, step).disk.claim.Live?
  {
    match step
    case Work(fault) => assert !WorkerNext(op, s.disk, s.worker, fault).at.Crashed?;
    case Recover(fault) => RecoveryNeverLive(op, s.disk, s.recovery, fault);
    case Interrupt | WorkerCrash | RecoveryCrash | Arrive(_) | Swap(_) =>
  }

  /** In every run the claim of a crashed worker is not live, so recovery may find it dead. */
  lemma {:induction false} CrashedNotLive(op: Operation, steps: seq<Step>)
    ensures After(op, steps).Reached? && After(op, steps).state.worker.at.Crashed? ==> !After(op, steps).state.disk.claim.Live?
  {
    if steps != [] && After(op, steps).Reached? {
      CrashedNotLive(op, steps[..|steps| - 1]);
      CrashedStep(op, After(op, steps[..|steps| - 1]).state, steps[|steps| - 1]);
    }
  }

  // Recovery on its own, with nothing going wrong.

  /** The disk after at most `n` more steps of this recovery, none of which fails. */
  function Undisturbed(op: Operation, d: Disk, r: Recovery, n: nat): Disk
    decreases n
  {
    if n == 0 then d
    else
      var d', r' := RecoveryDisk(d, r, Fine), RecoveryNext(op, d, r, Fine);
      if r'.at.Idle? then d' else Undisturbed(op, d', r', n - 1)
  }

  const START := Recovery(Idle, BLANK, false, false)

  /** One whole recovery takes at most seven steps. */
  function Recovered(op: Operation, d: Disk): Disk {
    Undisturbed(op, d, START, 7)
  }

  /** No live or uncertain owner, no stranger's directory at the destination, no stranger's stage. */
  predicate CanSettle(op: Operation, d: Disk, attempt: Record) {
    && (d.claim.Free? || d.claim.Dead?)
    && (d.destination.Directory? && (op.Materialize? || attempt.candidate.Recorded?) ==> Exposed(d, attempt))
    && Clearable(d, attempt)
  }

  function SettledDisk(d: Disk, attempt: Record): Disk {
    d.(record := Saved(attempt.(phase := if IsPublished(d) then Committed else Interrupted, finished := true)),
    stage := Absent, product := Absent, claim := Free)
  }

  /** From its decision on, a recovery that may clear the stage settles the attempt. */
  lemma ClearsAndSettles(op: Operation, d: Disk, r: Recovery)
    requires r.at.Clear? && Clearable(d, r.memory) && (d.claim.Free? || (d.claim.Dead? && r.owned))
    requires r.committed == IsPublished(d)
    ensures Undisturbed(op, d, r, 4) == SettledDisk(d, r.memory)
  {
    var cleared := ClearStage(d, r.memory, Fine);
    var r1 := r.(at := Settle);
    var saved := r.memory.(phase := if r.committed then Committed else Interrupted);
    var r2 := r.(at := Unclaim, memory := saved);
    assert Undisturbed(op, d, r, 4) == Undisturbed(op, cleared, r1, 3);
    assert Undisturbed(op, cleared, r1, 3) == Undisturbed(op, cleared.(record := Saved(saved)), r2, 2);
    var free := cleared.(record := Saved(saved), claim := Free);
    assert Undisturbed(op, cleared.(record := Saved(saved)), r2, 2) == Undisturbed(op, free, r2.(at := Finish), 1);
    assert Undisturbed(op, free, r2.(at := Finish), 1) == free.(record := Saved(saved.(finished := true)));
  }

  /** A recovery settles the attempt exactly when it can, and otherwise leaves everything as it was. */
  lemma RecoveryExact(op: Operation, d: Disk)
    requires DiskInv(d)
    ensures Recovered(op, d) ==
            if d.record.Saved? && !Finished(d) && CanSettle(op, d, d.record.record) then SettledDisk(d, d.record.record) else d
  {
    if d.record.Saved? && !Finished(d) && (d.claim.Free? || d.claim.Dead?) {
      var me := d.record.record;
      var decide := Recovery(Decide, me, d.claim.Dead?, false);
      assert Recovered(op, d) == Undisturbed(op, d, Recovery(Inspect, me, false, false), 6) == Undisturbed(op, d, decide, 5);
      var r := RecoveryNext(op, d, decide, Fine);
      if r.at.Clear? && Clearable(d, me) {
        assert r.committed == IsPublished(d);
        ClearsAndSettles(op, d, r);
      }
    }
  }

  lemma RecoveryIdempotent(op: Operation, d: Disk)
    requires DiskInv(d)
    ensures Recovered(op, Recovered(op, d)) == Recovered(op, d)
  {
    RecoveryExact(op, d);
    if d.record.Saved? && !Finished(d) && CanSettle(op, d, d.record.record) {
      assert DiskInv(Recovered(op, d));
      RecoveryExact(op, Recovered(op, d));
    }
  }

  /** The disk after a recovery whose steps end as given, and which is cut short when none are left. */
  function CutShort(op: Operation, d: Disk, r: Recovery, faults: seq<Fault>): Disk
    decreases |faults|
  {
    if faults == [] then d
    else
      var d', r' := RecoveryDisk(d, r, faults[0]), RecoveryNext(op, d, r, faults[0]);
      if r'.at.Idle? then d' else CutShort(op, d', r', faults[1..])
  }

  /** Recovery after recovery, each from the start. */
  function CutOften(op: Operation, d: Disk, cuts: seq<seq<Fault>>): Disk {
    if cuts == [] then d else CutShort(op, CutOften(op, d, cuts[..|cuts| - 1]), START, cuts[|cuts| - 1])
  }

  function Verdict(d: Disk, attempt: Record): Record {
    attempt.(phase := if IsPublished(d) then Committed else Interrupted)
  }

  predicate Unsettled(op: Operation, d: Disk, me: Record) {
    DiskInv(d) && d.record == Saved(me) && !me.finished && CanSettle(op, d, me)
  }

  /** What recoveries may have made of `d` when no release of the claim was left half done. */
  predicate Interim(d: Disk, me: Record, x: Disk) {
    var judged := Verdict(d, me);
    var cleared := x.stage.Absent? && x.product.Absent?;
    && x == d.(stage := x.stage, product := x.product, record := x.record, claim := x.claim)
    && (cleared || (x.stage == d.stage && (x.product == d.product || x.product.Absent?)))
    && match x.record
       case NoRecord => false
       case Saved(r) =>
         if r.finished then cleared && r == judged.(finished := true) && x.claim.Free?
         else (r == me && x.claim == d.claim) || (cleared && r == judged && (x.claim == d.claim || x.claim.Free?))
  }

  /** Where such a recovery can stand by then. */
  predicate Going(d: Disk, me: Record, x: Disk, r: Recovery) {
    && Interim(d, me, x)
    && (!r.at.Idle? ==> x.record == Saved(r.memory) && !r.memory.finished)
    && (r.at.Decide? || r.at.Clear? || r.at.Settle? || r.at.Unclaim? ==> r.owned == x.claim.Dead?)
    && (r.at.Clear? || r.at.Settle? ==> r.committed == IsPublished(d))
    && (r.at.Settle? || r.at.Unclaim? || r.at.Finish? ==> x.stage.Absent? && x.product.Absent?)
    && (r.at.Unclaim? || r.at.Finish? ==> r.memory == Verdict(d, me))
    && (r.at.Finish? ==> x.claim.Free?)
  }

  /** The claim's release was left half done, so that no recovery can tell whose it is. */
  predicate Stuck(x: Disk) {
    x.claim.Uncertain? && x.record.Saved? && !Finished(x)
  }

  /** Whatever a step's outcome, the recovery goes on or stops in an interim state, unless its release is left half done. */
  lemma StepKeepsGoing(op: Operation, d: Disk, me: Record, x: Disk, r: Recovery, fault: Fault)
    requires Unsettled(op, d, me) && Going(d, me, x, r)
    ensures
      var x', r' := RecoveryDisk(x, r, fault), RecoveryNext(op, x, r, fault);
      Going(d, me, x', r') || (Stuck(x') && r'.at.Idle?)
  {
  }

  lemma {:induction false} CutShortInterim(op: Operation, d: Disk, me: Record, x: Disk, r: Recovery, faults: seq<Fault>)
    requires Unsettled(op, d, me) && Going(d, me, x, r)
    ensures var y := CutShort(op, x, r, faults); Interim(d, me, y) || Stuck(y)
    decreases |faults|
  {
    if faults != [] {
      StepKeepsGoing(op, d, me, x, r, faults[0]);
      var x', r' := RecoveryDisk(x, r, faults[0]), RecoveryNext(op, x, r, faults[0]);
      if !r'.at.Idle? {
        CutShortInterim(op, d, me, x', r', faults[1..]);
      }
    }
  }

  /** An attempt that cannot be settled is left as it was, whatever goes wrong. */
  lemma {:induction false} RefusedUntouched(op: Operation, d: Disk, r: Recovery, faults: seq<Fault>)
    requires d.record.Saved? && !d.record.record.finished ==> !CanSettle(op, d, d.record.record)
    requires r.at.Idle? || r.at.Inspect? || r.at.Decide? || r.at.Clear?
    requires !r.at.Idle? ==> d.record == Saved(r.memory) && !r.memory.finished
    requires r.at.Decide? || r.at.Clear? ==> d.claim.Free? || d.claim.Dead?
    requires r.at.Clear? ==> !Clearable(d, r.memory)
    ensures CutShort(op, d, r, faults) == d
    decreases |faults|
  {
    if faults != [] {
      var r' := RecoveryNext(op, d, r, faults[0]);
      if !r'.at.Idle? {
        RefusedUntouched(op, d, r', faults[1..]);
      }
    }
  }

  lemma {:induction false} CutOftenInterim(op: Operation, d: Disk, me: Record, cuts: seq<seq<Fault>>)
    requires Unsettled(op, d, me)
    ensures var y := CutOften(op, d, cuts); Interim(d, me, y) || Stuck(y)
  {
    if cuts != [] {
      var past, last := CutOften(op, d, cuts[..|cuts| - 1]), cuts[|cuts| - 1];
      CutOftenInterim(op, d, me, cuts[..|cuts| - 1]);
      if Stuck(past) {
        RefusedUntouched(op, past, START, last);
      } else {
        CutShortInterim(op, d, me, past, START, last);
      }
    }
  }

  lemma {:induction false} RefusedOften(op: Operation, d: Disk, cuts: seq<seq<Fault>>)
    requires d.record.Saved? && !d.record.record.finished ==> !CanSettle(op, d, d.record.record)
    ensures CutOften(op, d, cuts) == d
  {
    if cuts != [] {
      RefusedOften(op, d, cuts[..|cuts| - 1]);
      RefusedUntouched(op, d, START, cuts[|cuts| - 1]);
    }
  }

  lemma InterimSettles(op: Operation, d: Disk, me: Record, x: Disk)
    requires Unsettled(op, d, me) && Interim(d, me, x)
    ensures Recovered(op, x) == SettledDisk(d, me)
  {
    RecoveryExact(op, x);
  }

  /**
    * However many recoveries fail or are cut short, and wherever, a recovery that then runs through ends where
    * it would have ended at once, exactly unless one of them left the release of the claim half done.
    */
  lemma RecoveryResumes(op: Operation, d: Disk, cuts: seq<seq<Fault>>)
    requires DiskInv(d)
    ensures Recovered(op, CutOften(op, d, cuts)) == Recovered(op, d) <==> (CutOften(op, d, cuts).claim.Uncertain? ==> d.claim.Uncertain?)
  {
    RecoveryExact(op, d);
    if d.record.Saved? && !Finished(d) && CanSettle(op, d, d.record.record) {
      var me, y := d.record.record, CutOften(op, d, cuts);
      CutOftenInterim(op, d, me, cuts);
      if Interim(d, me, y) {
        InterimSettles(op, d, me, y);
      } else {
        assert Undisturbed(op, y, START, 7) == Undisturbed(op, y, Recovery(Inspect, y.record.record, false, false), 6) == y;
      }
    } else {
      RefusedOften(op, d, cuts);
    }
  }
}
