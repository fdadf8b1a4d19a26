/** The operations of the state store on one attempt, statement by statement. */
module StateStore {
  import opened StateRecovery
  import opened AttemptSafety

  /** The disk after a recovery whose steps end as given, until it returns or raises. */
  function RecoveryRun(op: Operation, d: Disk, r: Recovery, ends: RecoveryStep -> Fault, n: nat): Disk
    decreases n
  {
    if n == 0 then d
    else
      var fault := ends(r.at);
      var d', r' := RecoveryDisk(d, r, fault), RecoveryNext(op, d, r, fault);
      if r'.at.Idle? then d' else RecoveryRun(op, d', r', ends, n - 1)
  }

  predicate Over(at: WorkerStep) {
    at.Returned? || at.Ended? || at.Crashed?
  }

  type Position = (Disk, Worker)

  function StepFrom(op: Operation, ends: WorkerStep -> Fault, at: Position): Position {
    (WorkerDisk(at.0, at.1, ends(at.1.at)), WorkerNext(op, at.0, at.1, ends(at.1.at)))
  }

  ghost predicate Follows(op: Operation, ends: WorkerStep -> Fault, trail: seq<Position>, i: nat)
    requires i + 1 < |trail|
  {
    !Over(trail[i].1.at) && trail[i + 1] == StepFrom(op, ends, trail[i])
  }

  ghost predicate Trail(op: Operation, ends: WorkerStep -> Fault, trail: seq<Position>, a: Position, b: Position) {
    && |trail| > 0 && trail[0] == a && trail[|trail| - 1] == b
    && forall i: nat :: i + 1 < |trail| ==> Follows(op, ends, trail, i)
  }

  /** The worker's steps, ending as given, lead from one position to another. */
  ghost predicate Leads(op: Operation, ends: WorkerStep -> Fault, d: Disk, w: Worker, d': Disk, w': Worker) {
    exists trail :: Trail(op, ends, trail, (d, w), (d', w'))
  }

  lemma LeadsStep(op: Operation, ends: WorkerStep -> Fault, d: Disk, w: Worker, d': Disk, w': Worker)
    requires !Over(w.at) && d' == WorkerDisk(d, w, ends(w.at)) && w' == WorkerNext(op, d, w, ends(w.at))
    ensures Leads(op, ends, d, w, d', w')
  {
    assert Trail(op, ends, [(d, w), (d', w')], (d, w), (d', w'));
  }

  lemma LeadsOn(op: Operation, ends: WorkerStep -> Fault, d: Disk, w: Worker, d1: Disk, w1: Worker, d2: Disk, w2: Worker)
    requires Leads(op, ends, d, w, d1, w1) && Leads(op, ends, d1, w1, d2, w2)
    ensures Leads(op, ends, d, w, d2, w2)
  {
    var s :| Trail(op, ends, s, (d, w), (d1, w1));
    var t :| Trail(op, ends, t, (d1, w1), (d2, w2));
    var u := s + t[1..];
    forall i: nat | i + 1 < |u| ensures Follows(op, ends, u, i) {
      if i + 1 < |s| {
        assert Follows(op, ends, s, i);
      } else {
        assert Follows(op, ends, t, i + 1 - |s|);
      }
    }
    assert Trail(op, ends, u, (d, w), (d2, w2));
  }

  class AttemptStore {
    var disk: Disk

    constructor (disk: Disk)
      ensures this.disk == disk
    {
      this.disk := disk;
    }

    method SaveAttempt(attempt: Record, fault: Fault) returns (raised: bool)
      modifies this
      ensures disk == Save(old(disk), attempt, fault) && raised == !fault.Fine?
    {
      if Took(fault) {
        disk := disk.(record := Saved(attempt));
      }
      raised := !fault.Fine?;
    }

    /** Remove the attempt's own stage, or refuse and preserve what is there. */
    method Cleanup(attempt: Record, fault: Fault) returns (raised: bool)
      modifies this
      ensures disk == ClearStage(old(disk), attempt, fault)
      ensures raised == (!fault.Fine? || !Clearable(old(disk), attempt))
    {
      raised := true;
      if !disk.stage.Absent? && (attempt.stage.Unrecorded? || disk.stage != Directory(attempt.stage.id)) {
        return;
      }
      if fault.Partial? {
        disk := disk.(product := Absent);
      } else if !fault.Untouched? {
        disk := disk.(stage := Absent, product := Absent);
      }
      raised := !fault.Fine?;
    }

    method ReleaseWorkspace(fault: Fault) returns (raised: bool)
      modifies this
      ensures disk == ReleaseClaim(old(disk), fault) && raised == !fault.Fine?
    {
      if fault.Partial? {
        disk := disk.(claim := Uncertain);
      } else if !fault.Untouched? {
        disk := disk.(claim := Free);
      }
      raised := !fault.Fine?;
    }

    /** Look at an attempt, its owner and its destination; raise rather than touch anything unsafe. */
    method Assess(op: Operation, ends: RecoveryStep -> Fault) returns (raised: bool, attempt: Record, owned: bool, committed: bool)
      ensures RecoveryRun(op, disk, START, ends, 7) ==
              if raised then disk else RecoveryRun(op, disk, Recovery(Clear, attempt, owned, committed), ends, 4)
    {
      raised, attempt, owned, committed := true, BLANK, false, false;
      if !ends(Idle).Fine? || disk.record.NoRecord? || disk.record.record.finished {
        return;
      }
      attempt := disk.record.record;
      // Ownership must be demonstrably free or dead.
      if !ends(Inspect).Fine? || disk.claim.Live? || disk.claim.Uncertain? {
        return;
      }
      owned := disk.claim.Dead?;
      assert RecoveryRun(op, disk, START, ends, 7) == RecoveryRun(op, disk, Recovery(Inspect, attempt, false, false), ends, 6);
      assert RecoveryRun(op, disk, START, ends, 7) == RecoveryRun(op, disk, Recovery(Decide, attempt, owned, false), ends, 5);
      if disk.destination.Directory? && (op.Materialize? || attempt.candidate.Recorded?) {
        if attempt.candidate.Unrecorded? || disk.destination.id != attempt.candidate.id {
          return;
        }
        committed := true;
      }
      raised := !ends(Decide).Fine?;
    }

    /** Clear the stage, record the outcome, release the claim, finish. */
    method Conclude(op: Operation, ends: RecoveryStep -> Fault, attempt: Record, owned: bool, committed: bool) returns (settled: bool)
      modifies this
      ensures disk == RecoveryRun(op, old(disk), Recovery(Clear, attempt, owned, committed), ends, 4)
      ensures settled ==> Finished(disk)
    {
      settled := false;
      var raised := Cleanup(attempt, ends(Clear));
      if raised {
        return;
      }
      ghost var r := Recovery(Settle, attempt, owned, committed);
      assert RecoveryRun(op, old(disk), r.(at := Clear), ends, 4) == RecoveryRun(op, disk, r, ends, 3);
      var judged := attempt.(phase := if committed then Committed else Interrupted);
      raised := SaveAttempt(judged, ends(Settle));
      if raised {
        return;
      }
      assert RecoveryRun(op, old(disk), r.(at := Clear), ends, 4) == RecoveryRun(op, disk, r.(at := Unclaim, memory := judged), ends, 2);
      if owned {
        raised := ReleaseWorkspace(ends(Unclaim));
        if raised {
          return;
        }
      }
      assert RecoveryRun(op, old(disk), r.(at := Clear), ends, 4) == RecoveryRun(op, disk, r.(at := Finish, memory := judged), ends, 1);
      raised := SaveAttempt(judged.(finished := true), ends(Finish));
      settled := !raised;
    }

    /** Settle one unfinished attempt. */
    method RecoverAttempt(op: Operation, ends: RecoveryStep -> Fault) returns (settled: bool)
      modifies this
      ensures disk == RecoveryRun(op, old(disk), START, ends, 7)
      ensures settled ==> Finished(disk)
    {
      var raised, attempt, owned, committed := Assess(op, ends);
      settled := false;
      if !raised {
        settled := Conclude(op, ends, attempt, owned, committed);
      }
    }
  }

  const FIRST := Worker(SavePlanned, BLANK, false)

  lemma Onward(op: Operation, ends: WorkerStep -> Fault, origin: Disk, d: Disk, w: Worker, d': Disk, w': Worker)
    requires Leads(op, ends, origin, FIRST, d, w)
    requires !Over(w.at) && d' == WorkerDisk(d, w, ends(w.at)) && w' == WorkerNext(op, d, w, ends(w.at))
    ensures Leads(op, ends, origin, FIRST, d', w')
  {
    LeadsStep(op, ends, d, w, d', w');
    LeadsOn(op, ends, origin, FIRST, d, w, d', w');
  }

  lemma PositionKeepsInv(op: Operation, ends: WorkerStep -> Fault, a: Position)
    requires Inv(op, State(a.0, a.1, INITIAL.recovery)) && !Over(a.1.at)
    ensures var b := StepFrom(op, ends, a); Inv(op, State(b.0, b.1, INITIAL.recovery))
  {
    WorkKeeps(op, State(a.0, a.1, INITIAL.recovery), ends(a.1.at));
  }

  /** Only a save of the finished, committed record returns. */
  lemma ReturnsSettled(op: Operation, d: Disk, w: Worker, fault: Fault)
    requires WorkerInv(op, d, w) && !Over(w.at)
    ensures WorkerNext(op, d, w, fault).at.Returned? ==> Settled(WorkerDisk(d, w, fault))
  {
  }

  lemma {:induction false} TrailKeepsInv(op: Operation, ends: WorkerStep -> Fault, trail: seq<Position>, d: Disk, w: Worker)
    requires Trail(op, ends, trail, (INITIAL.disk, FIRST), (d, w))
    ensures Inv(op, State(d, w, INITIAL.recovery)) && (w.at.Returned? ==> Settled(d))
    decreases |trail|
  {
    if |trail| > 1 {
      var k := |trail| - 2;
      var before := trail[..k + 1];
      forall i: nat | i + 1 < |before| ensures Follows(op, ends, before, i) {
        assert Follows(op, ends, trail, i);
      }
      TrailKeepsInv(op, ends, before, trail[k].0, trail[k].1);
      assert Follows(op, ends, trail, k);
      PositionKeepsInv(op, ends, trail[k]);
      ReturnsSettled(op, trail[k].0, trail[k].1, ends(trail[k].1.at));
    }
  }

  lemma LeadsFaithful(op: Operation, ends: WorkerStep -> Fault, d: Disk, w: Worker)
    requires Leads(op, ends, INITIAL.disk, FIRST, d, w)
    ensures Faithful(d) && (w.at.Returned? ==> Settled(d))
  {
    var trail :| Trail(op, ends, trail, (INITIAL.disk, FIRST), (d, w));
    TrailKeepsInv(op, ends, trail, d, w);
  }

  // Which operations have to end well.

  predicate StagingFine(ends: WorkerStep -> Fault) {
    && ends(SavePlanned).Fine? && ends(Prepare).Fine? && ends(Acquire).Fine? && ends(SaveClaimed).Fine?
    && ends(CheckTarget).Fine? && ends(MakeStage).Fine? && ends(SaveStage).Fine?
  }

  predicate PublishingFine(ends: WorkerStep -> Fault) {
    && ends(Build).Fine? && ends(SaveValidating).Fine? && ends(Validate).Fine? && ends(SaveReady).Fine?
    && ends(RecheckTarget).Fine? && ends(Publish).Fine?
  }

  predicate CommittingFine(op: Operation, ends: WorkerStep -> Fault, lease: bool) {
    && (op.Materialize? ==> ends(SavePublished).Fine?) && ends(SaveCommitted).Fine? && ends(Sweep).Fine?
    && (lease ==> ends(Release).Fine?) && ends(SaveFinished).Fine?
  }

  predicate HandlingFine(ends: WorkerStep -> Fault) {
    && ends(Probe).Fine? && ends(SaveFailed).Fine? && ends(SweepFailed).Fine? && ends(ReleaseFailed).Fine?
    && ends(FinishFailed).Fine? && ends(Finally).Fine?
  }

  function ClaimReleased(claim: Claim, fault: Fault): Claim {
    if fault.Untouched? then claim else if fault.Partial? then Uncertain else Free
  }

  /** One export or materialization. `ends` says how each of its operations turns out. */
  class Attempt {
    const op: Operation
    const ends: WorkerStep -> Fault
    const store: AttemptStore
    ghost const origin: Disk
    var attempt: Record
    var lease: bool
    var at: WorkerStep

    function Me(): Worker
      reads this
    {
      Worker(at, attempt, lease)
    }

    /** Everything so far is what the worker's steps do. */
    ghost predicate Valid()
      reads this, store
    {
      Leads(op, ends, origin, FIRST, store.disk, Me())
    }

    /** A live claim is this process's own. */
    predicate Held()
      reads this, store
    {
      store.disk.claim.Live? ==> lease
    }

    constructor (op: Operation, ends: WorkerStep -> Fault, store: AttemptStore)
      ensures Valid() && fresh(this) && this.op == op && this.ends == ends && this.store == store && origin == store.disk
      ensures Me() == FIRST
    {
      this.op, this.ends, this.store, origin := op, ends, store, store.disk;
      attempt, lease, at := BLANK, false, SavePlanned;
      new;
      assert Trail(op, ends, [(store.disk, FIRST)], (store.disk, FIRST), (store.disk, FIRST));
    }

    /**
      * Save changes to the attempt; they are only remembered when the save returns. Every caller writes the
      * fields that it changes; the precondition there proves that these are the changes of the worker's step.
      */
    method SaveAttempt(changed: Record) returns (raised: bool)
      requires Valid() && Saves(at) && changed == Updated(store.disk, Me())
      modifies this, store
      ensures Valid() && at == if raised then OnError(old(at)) else Next(op, old(at))
      ensures raised <==> !ends(old(at)).Fine?
      ensures store.disk == Save(old(store.disk), changed, ends(old(at)))
      ensures attempt == (if raised then old(attempt) else changed) && lease == old(lease)
    {
      ghost var d, w := store.disk, Me();
      raised := store.SaveAttempt(changed, ends(at));
      if raised {
        at := OnError(at);
      } else {
        attempt, at := changed, Next(op, at);
      }
      Onward(op, ends, origin, d, w, store.disk, Me());
    }

    /** A check without effects. */
    method Check(holds: bool) returns (raised: bool)
      requires Valid() && (at.Prepare? || ((at.CheckTarget? || at.RecheckTarget?) && holds == store.disk.destination.Absent?))
      requires at.Prepare? ==> holds
      modifies this`at
      ensures Valid() && at == if raised then Probe else Next(op, old(at))
      ensures raised <==> !holds || !ends(old(at)).Fine?
    {
      ghost var w := Me();
      raised := !holds || !ends(at).Fine?;
      at := if raised then Probe else Next(op, at);
      Onward(op, ends, origin, store.disk, w, store.disk, Me());
    }

    method AcquireLease() returns (raised: bool)
      requires Valid() && at.Acquire?
      modifies this, store
      ensures Valid() && at == if raised then Probe else SaveClaimed
      ensures raised <==> !ends(Acquire).Fine?
      ensures store.disk == AcquireClaim(old(store.disk), ends(Acquire)) && lease == !raised && attempt == old(attempt)
    {
      ghost var d, w := store.disk, Me();
      store.disk := AcquireClaim(store.disk, ends(at));
      raised := !ends(at).Fine?;
      lease := !raised;
      at := if raised then Probe else SaveClaimed;
      Onward(op, ends, origin, d, w, store.disk, Me());
    }

    method MakePrivateStage() returns (raised: bool)
      requires Valid() && at.MakeStage?
      modifies this`at, store
      ensures Valid() && at == if raised then Probe else SaveStage
      ensures raised <==> !ends(MakeStage).Fine? || !old(store.disk).stage.Absent?
      ensures store.disk == MakeDirectory(old(store.disk), ends(MakeStage))
    {
      ghost var d, w := store.disk, Me();
      raised := !ends(at).Fine? || !store.disk.stage.Absent?;
      if store.disk.stage.Absent? && Took(ends(at)) {
        var id := store.disk.nextId;
        store.disk := store.disk.(stage := Directory(id), made := Recorded(id), nextId := id + 1);
      }
      at := if raised then Probe else SaveStage;
      Onward(op, ends, origin, d, w, store.disk, Me());
    }

    method BuildInStage() returns (raised: bool)
      requires Valid() && at.Build?
      modifies this`at, store
      ensures Valid() && at == if raised then Probe else SaveValidating
      ensures raised <==> !ends(Build).Fine?
      ensures store.disk == BuildProduct(old(store.disk), ends(Build))
    {
      ghost var d, w := store.disk, Me();
      raised := !ends(at).Fine?;
      if !ends(at).Untouched? {
        var id := store.disk.nextId;
        store.disk := store.disk.(product := Directory(id), built := Recorded(id), nextId := id + 1);
      }
      at := if raised then Probe else SaveValidating;
      Onward(op, ends, origin, d, w, store.disk, Me());
    }

    method ValidateProduct() returns (raised: bool)
      requires Valid() && at.Validate?
      modifies this`at, store
      ensures Valid() && at == if raised then Probe else SaveReady
      ensures raised <==> !ends(Validate).Fine?
      ensures store.disk == if raised then old(store.disk) else old(store.disk).(validated := true)
    {
      ghost var d, w := store.disk, Me();
      raised := !ends(at).Fine?;
      if !raised {
        store.disk := store.disk.(validated := true);
      }
      at := if raised then Probe else SaveReady;
      Onward(op, ends, origin, d, w, store.disk, Me());
    }

    /** Move the product to the destination unless something is there. */
    method RenameProduct() returns (raised: bool)
      requires Valid() && at.Publish?
      modifies this`at, store
      ensures Valid() && at == if raised then Probe else if op.Export? then SaveCommitted else SavePublished
      ensures raised <==> !ends(Publish).Fine? || !old(store.disk).destination.Absent?
      ensures store.disk == Rename(old(store.disk), ends(Publish))
    {
      ghost var d, w := store.disk, Me();
      raised := !ends(at).Fine? || !store.disk.destination.Absent?;
      if store.disk.destination.Absent? && Took(ends(at)) {
        store.disk := store.disk.(destination := store.disk.product, product := Absent);
      }
      at := if raised then Probe else if op.Export? then SaveCommitted else SavePublished;
      Onward(op, ends, origin, d, w, store.disk, Me());
    }

    method Cleanup() returns (raised: bool)
      requires Valid() && (at.Sweep? || at.SweepFailed?)
      modifies this`at, store
      ensures Valid() && at == if raised then OnError(old(at)) else Next(op, old(at))
      ensures raised <==> !ends(old(at)).Fine? || !Clearable(old(store.disk), attempt)
      ensures store.disk == ClearStage(old(store.disk), attempt, ends(old(at)))
    {
      ghost var d, w := store.disk, Me();
      raised := store.Cleanup(attempt, ends(at));
      at := if raised then OnError(at) else Next(op, at);
      Onward(op, ends, origin, d, w, store.disk, Me());
    }

    method ReleaseLease() returns (raised: bool)
      requires Valid() && (at.Release? || at.ReleaseFailed? || at.Finally?)
      modifies this`at, this`lease, store
      ensures Valid() && at == if raised then OnError(old(at)) else Next(op, old(at))
      ensures raised <==> old(lease) && !ends(old(at)).Fine?
      ensures store.disk == if old(lease) then ReleaseClaim(old(store.disk), ends(old(at))) else old(store.disk)
      ensures lease == raised
    {
      ghost var d, w := store.disk, Me();
      raised := false;
      if lease {
        raised := store.ReleaseWorkspace(ends(at));
        lease := raised;
      }
      at := if raised then OnError(at) else Next(op, at);
      Onward(op, ends, origin, d, w, store.disk, Me());
    }

    /** Record the intent, claim the workspace, record the claim. */
    method ClaimWorkspace() returns (raised: bool)
      requires Valid() && at.SavePlanned?
      modifies this, store
      ensures Valid() && at == if raised then Probe else CheckTarget
      ensures raised <==> !(ends(SavePlanned).Fine? && ends(Prepare).Fine? && ends(Acquire).Fine? && ends(SaveClaimed).Fine?)
      ensures !raised ==> lease && attempt == old(attempt).(phase := Claimed) && store.disk == old(store.disk).(record := Saved(attempt), claim := Live)
      ensures (!old(store.disk).claim.Live? ==> Held()) && attempt.finished == old(attempt).finished
    {
      raised := SaveAttempt(attempt);
      if !raised { raised := Check(true); }
      if !raised { raised := AcquireLease(); }
      if !raised { raised := SaveAttempt(attempt.(phase := Claimed)); }
    }

    /** Make the private stage, unless something is at the destination, and record it. */
    method StagePrivately() returns (raised: bool)
      requires Valid() && at.CheckTarget?
      modifies this, store
      ensures Valid() && at == if raised then Probe else Build
      ensures raised <==> !(&& ends(CheckTarget).Fine? && ends(MakeStage).Fine? && ends(SaveStage).Fine?
                            && old(store.disk).destination.Absent? && old(store.disk).stage.Absent?)
      ensures !raised ==>
                var id := old(store.disk).nextId;
                && attempt == old(attempt).(phase := Writing, stage := Recorded(id))
                && store.disk == old(store.disk).(record := Saved(attempt), stage := Directory(id), made := Recorded(id), nextId := id + 1)
      ensures lease == old(lease) && store.disk.claim == old(store.disk).claim && attempt.finished == old(attempt).finished
    {
      raised := Check(store.disk.destination.Absent?);
      if !raised { raised := MakePrivateStage(); }
      if !raised { raised := SaveAttempt(attempt.(phase := Writing, stage := EntryIdentity(store.disk.stage))); }
    }

    /** From the first record to the recorded private stage. */
    method ClaimAndStage() returns (raised: bool)
      requires Valid() && at.SavePlanned?
      modifies this, store
      ensures Valid() && at == if raised then Probe else Build
      ensures raised <==> !(StagingFine(ends) && old(store.disk).destination.Absent? && old(store.disk).stage.Absent?)
      ensures !raised ==>
                var id := old(store.disk).nextId;
                && lease && attempt == old(attempt).(phase := Writing, stage := Recorded(id))
                && store.disk == old(store.disk).(record := Saved(attempt), claim := Live, stage := Directory(id), made := Recorded(id), nextId := id + 1)
      ensures (!old(store.disk).claim.Live? ==> Held()) && attempt.finished == old(attempt).finished
    {
      raised := ClaimWorkspace();
      if !raised { raised := StagePrivately(); }
    }

    /** Build and validate the product, and name it in a durable ready record. */
    method MakeReady() returns (raised: bool)
      requires Valid() && at.Build?
      modifies this, store
      ensures Valid() && at == if raised then Probe else RecheckTarget
      ensures raised <==> !(ends(Build).Fine? && ends(SaveValidating).Fine? && ends(Validate).Fine? && ends(SaveReady).Fine?)
      ensures !raised ==>
                var id := old(store.disk).nextId;
                && attempt == old(attempt).(phase := Ready, candidate := Recorded(id))
                && store.disk == old(store.disk).(record := Saved(attempt), product := Directory(id), built := Recorded(id), validated := true,
                                 nextId := id + 1)
      ensures lease == old(lease) && store.disk.claim == old(store.disk).claim && attempt.finished == old(attempt).finished
      ensures store.disk.destination == old(store.disk).destination
    {
      raised := BuildInStage();
      if !raised { raised := SaveAttempt(attempt.(phase := Validating)); }
      if !raised { raised := ValidateProduct(); }
      if !raised { raised := SaveAttempt(attempt.(phase := Ready, candidate := EntryIdentity(store.disk.product))); }
    }

    /** Build, validate, name the product in a durable ready record, and only then publish it. */
    method BuildAndPublish() returns (raised: bool)
      requires Valid() && at.Build?
      modifies this, store
      ensures Valid() && at == if raised then Probe else if op.Export? then SaveCommitted else SavePublished
      ensures raised <==> !(PublishingFine(ends) && old(store.disk).destination.Absent?)
      ensures !raised ==>
                var id := old(store.disk).nextId;
                && attempt == old(attempt).(phase := Ready, candidate := Recorded(id))
                && store.disk == old(store.disk).(record := Saved(attempt), product := Absent, destination := Directory(id),
                                 built := Recorded(id), validated := true, nextId := id + 1)
      ensures lease == old(lease) && (old(Held()) ==> Held()) && attempt.finished == old(attempt).finished
    {
      raised := MakeReady();
      if !raised { raised := Check(store.disk.destination.Absent?); }
      if !raised { raised := RenameProduct(); }
    }

    /** Commit, then clear the stage. */
    method CommitExport() returns (raised: bool)
      requires Valid() && op.Export? && at.SaveCommitted?
      modifies this, store
      ensures Valid() && at == if raised then Probe else Release
      ensures raised <==> !(ends(SaveCommitted).Fine? && ends(Sweep).Fine? && Clearable(old(store.disk), old(attempt)))
      ensures !raised ==>
                && attempt == old(attempt).(phase := Committed)
                && store.disk == old(store.disk).(record := Saved(attempt), stage := Absent, product := Absent)
      ensures lease == old(lease) && store.disk.claim == old(store.disk).claim && attempt.finished == old(attempt).finished
    {
      raised := SaveAttempt(attempt.(phase := Committed));
      if !raised { raised := Cleanup(); }
    }

    /** Record the publication, clear the stage, then commit. */
    method CommitMaterialization() returns (raised: bool)
      requires Valid() && op.Materialize? && at.SavePublished?
      modifies this, store
      ensures Valid() && at == if raised then Probe else Release
      ensures raised <==> !(ends(SavePublished).Fine? && ends(Sweep).Fine? && Clearable(old(store.disk), old(attempt)) && ends(SaveCommitted).Fine?)
      ensures !raised ==>
                && attempt == old(attempt).(phase := Committed)
                && store.disk == old(store.disk).(record := Saved(attempt), stage := Absent, product := Absent)
      ensures lease == old(lease) && store.disk.claim == old(store.disk).claim && attempt.finished == old(attempt).finished
    {
      raised := SaveAttempt(attempt.(phase := Published));
      if !raised { raised := Cleanup(); }
      if !raised { raised := SaveAttempt(attempt.(phase := Committed)); }
    }

    /** Release the claim and finish. */
    method Finish() returns (raised: bool)
      requires Valid() && at.Release?
      modifies this, store
      ensures Valid() && at == if raised then Probe else Returned
      ensures raised <==> !((old(lease) ==> ends(Release).Fine?) && ends(SaveFinished).Fine?)
      ensures !raised ==>
                && attempt == old(attempt).(finished := true)
                && store.disk == old(store.disk).(record := Saved(attempt), claim := if old(lease) then Free else old(store.disk).claim)
      ensures (old(Held()) ==> Held()) && (raised ==> attempt == old(attempt))
    {
      raised := ReleaseLease();
      if !raised { raised := SaveAttempt(attempt.(finished := true)); }
    }

    /** An export is committed before its stage is cleared, a materialization after. */
    method Commit() returns (raised: bool)
      requires Valid() && at == if op.Export? then SaveCommitted else SavePublished
      modifies this, store
      ensures Valid() && at == if raised then Probe else Returned
      ensures raised <==> !(CommittingFine(op, ends, old(lease)) && Clearable(old(store.disk), old(attempt)))
      ensures !raised ==>
                && attempt == old(attempt).(phase := Committed, finished := true)
                && store.disk == old(store.disk).(record := Saved(attempt), stage := Absent, product := Absent,
                                 claim := if old(lease) then Free else old(store.disk).claim)
      ensures (old(Held()) ==> Held()) && (raised ==> attempt.finished == old(attempt).finished)
    {
      if op.Export? {
        raised := CommitExport();
      } else {
        raised := CommitMaterialization();
      }
      if !raised { raised := Finish(); }
    }

    /** Whether a candidate may stand at the destination. */
    method ProbeDestination() returns (published: bool)
      requires Valid() && at.Probe?
      modifies this`at
      ensures Valid() && at == if published then Finally else SaveFailed
      ensures published <==> !ends(Probe).Fine? || Exposed(store.disk, attempt)
    {
      published := !ends(at).Fine? || (attempt.candidate.Recorded? && store.disk.destination == Directory(attempt.candidate.id));
      ghost var w := Me();
      at := if published then Finally else SaveFailed;
      Onward(op, ends, origin, store.disk, w, store.disk, Me());
    }

    /** Record the failure, clear the stage, release the claim, finish; stop where one of these fails. */
    method ReportFailure()
      requires Valid() && at.SaveFailed?
      modifies this, store
      ensures Valid() && at.Finally?
      ensures
        var d, me, failed := old(store.disk), old(attempt), old(attempt).(phase := Failed);
        var recorded, finished := failed.(finished := true), ends(SaveFailed).Fine? && ends(SweepFailed).Fine? && Clearable(d, me) && !lease;
        if !ends(SaveFailed).Fine? then
          store.disk == Save(d, failed, ends(SaveFailed)) && attempt == me && lease == old(lease)
        else if !ends(SweepFailed).Fine? || !Clearable(d, me) then
          store.disk == ClearStage(d.(record := Saved(failed)), me, ends(SweepFailed)) && attempt == failed && lease == old(lease)
        else
          var cleared := d.(record := Saved(failed), stage := Absent, product := Absent);
          var freed := if old(lease) then ReleaseClaim(cleared, ends(ReleaseFailed)) else cleared;
          && lease == (old(lease) && !ends(ReleaseFailed).Fine?)
          && if lease then store.disk == freed && attempt == failed
             else store.disk == Save(freed, recorded, ends(FinishFailed)) && attempt == if ends(FinishFailed).Fine? then recorded else failed
    {
      var raised := SaveAttempt(attempt.(phase := Failed));
      if !raised { raised := Cleanup(); }
      if !raised { raised := ReleaseLease(); }
      if !raised { raised := SaveAttempt(attempt.(finished := true)); }
    }

    /**
      * The exception handler. A candidate that may stand at the destination is left for recovery; otherwise
      * the failure is recorded, the stage cleared, the claim released and the record finished, each only when
      * everything before it ended well. A claim that is still held is released in any case.
      */
    method HandleFailure()
      requires Valid() && at.Probe?
      modifies this, store
      ensures Valid() && at.Ended?
      ensures
        var d, me, failed := old(store.disk), old(attempt), old(attempt).(phase := Failed);
        var handled := ends(Probe).Fine? && !Exposed(d, me);
        var swept := handled && ends(SaveFailed).Fine? && ends(SweepFailed).Fine? && Clearable(d, me);
        var freed := swept && (old(lease) ==> ends(ReleaseFailed).Fine?);
        && store.disk.record ==
           (if freed && Took(ends(FinishFailed)) then Saved(failed.(finished := true))
            else if handled && Took(ends(SaveFailed)) then Saved(failed)
            else d.record)
        && store.disk.stage == (if handled && ends(SaveFailed).Fine? && Clearable(d, me) && Took(ends(SweepFailed)) then Absent else d.stage)
        && store.disk.destination == d.destination
        && store.disk.claim ==
           (if !old(lease) then d.claim
            else if freed then Free
            else ClaimReleased(if swept then ClaimReleased(d.claim, ends(ReleaseFailed)) else d.claim, ends(Finally)))
        && attempt ==
           (if freed && ends(FinishFailed).Fine? then failed.(finished := true) else if handled && ends(SaveFailed).Fine? then failed else me)
    {
      var published := ProbeDestination();
      if !published { ReportFailure(); }
      var _ := ReleaseLease();
    }

    /** The whole attempt, whichever of its operations fail. */
    method Run() returns (returned: bool)
      requires Valid() && at.SavePlanned?
      modifies this, store
      ensures Valid() && at == if returned then Returned else Ended
      ensures origin == INITIAL.disk ==> Faithful(store.disk) && (returned ==> Settled(store.disk))
      // It returns exactly when nothing fails and nothing stands in its way, and then nothing of it is left over.
      ensures old(Me()) == FIRST ==>
                (returned <==>
                 && StagingFine(ends) && PublishingFine(ends) && CommittingFine(op, ends, true)
                 && old(store.disk).destination.Absent? && old(store.disk).stage.Absent?)
      ensures old(Me()) == FIRST && returned ==>
                var id := old(store.disk).nextId;
                store.disk == Disk(Saved(Record(Committed, Recorded(id), Recorded(id + 1), true)), Absent, Absent, Directory(id + 1),
                                   Free, id + 2, Recorded(id), Recorded(id + 1), true)
      // A failure that is handled without another one leaves its record, and the stage only if it is not known to be its own.
      ensures !returned && HandlingFine(ends) && !old(store.disk).claim.Live? && !old(attempt).finished && !Exposed(store.disk, attempt) ==>
                && !store.disk.claim.Live? && store.disk.record == Saved(attempt) && attempt.phase.Failed?
                && (attempt.finished <==> store.disk.stage.Absent?) && (!attempt.finished ==> !Clearable(store.disk, attempt))
    {
      var raised := ClaimAndStage();
      if !raised { raised := BuildAndPublish(); }
      if !raised { raised := Commit(); }
      if raised { HandleFailure(); }
      returned := !raised;
      if origin == INITIAL.disk {
        LeadsFaithful(op, ends, store.disk, Me());
      }
    }
  }
}
