# A verified model of Shinobi's dataset planning and storage protocols

This Dafny project models the parts of Shinobi that decide in which order steps touch shared data, who
owns a workspace, and what is left on disk after a crash, and proves what they guarantee. `dafny verify
dfyconfig.toml` checks all of it.

A canonical path is a sequence of components; two paths overlap when one is a prefix of the other, as
`paths_overlap` (`src/shinobi/steps/schema.py:233`) has it.

* **Access hazards** (`AccessTrie`, `HazardSpec`, `HazardPlanner`, `Graph`, `ScatterSweep`, `RecipePlan`,
  `Schedule`, `SliceSchedule`). The trie of paths is a heap of nodes; `HazardSpec` is the same bookkeeping
  on a flat map, and the planner class is proved to follow it. On the flat map it is proved that keeping one
  last writer and the readers since then per path still orders every conflict. `RecipePlan` puts the planner
  on top of the stable topological order, and `Schedule` and `SliceSchedule` turn ordered conflicts into the
  payoff: the result of a run does not depend on how its steps or slices are interleaved.
* **Ownership** (`Ownership`, `OwnershipProtocol`, `OwnershipSafety`). The two stores with their transactions,
  and a state machine in which any number of processes acquire, roll back, release, reconcile and crash, one store
  transaction or lock operation at a time, with failing transactions.
* **State attempts** (`StateRecovery`, `AttemptSafety`, `StateStore`). A step machine for one export or materialization and
  its recoveries, with a failure or crash possible at every step and strangers creating or replacing
  directories; `StateStore` has the same operations as class methods and proves that they take exactly
  those steps.
* **Arrays and files** (`Tiling`, `FitsScan`, `FileTrees`, `CloneLadder`, `Fingerprint`, `CloneFingerprint`).
* **Further rules** (`StepPaths`, `Mounts`, `Overwrite`, `StrictWriter`).

`Collections`, `Lexicographic` and `Paths` hold what the others share.

## Where a property needs a condition

* No conflict of two recorded accesses is ever missed, but a hazard edge need not be a conflict. The edges of
  every history over a set of paths are conflicts exactly when no path of the set lies above two others that
  do not overlap (`HazardSpec.EdgesExactIffForkless`); `HazardSpec.ForkAddsEdge` gives the history with an
  edge too many for every such fork.
* Workflow ids may be used again, but not at any moment. Every run is safe in which each process starts under
  an id at rest: nobody runs under it, its records and inspections are of this workspace, and no inspection that
  proved the old owner dead may still remove its records (`OwnershipSafety.GuardedRunsSafe`); ids never used
  before are at rest (`OwnershipSafety.FreshRunsGuarded`). The code checks none of this beyond the free lock.
  Whoever starts beside such an inspection meets its removal (`OwnershipSafety.DeadClaimUnsafe`), even if it
  found nothing to release and only then calls `release` by id (`OwnershipSafety.ClearingRobs`). Whoever
  starts under an id that another workspace's process holds or left behind can be robbed of its registry
  entry, and a third process is then granted a conflicting claim (`OwnershipSafety.SharedIdUnsafe`,
  `OwnershipSafety.LeftBehindUnsafe`); `OwnershipSafety.ReusedIdRun` and
  `OwnershipSafety.TwoWorkspacesRun` are such runs from the start. Whatever the ids, the records in the
  stores never exclude each other.
* The release comment promises that a partial release never leaves the authority record alone
  (`src/shinobi/ownership.py:881-887`). `Ownership.ReleaseClosure` gives the exact condition: it happens only
  when removing the registry entry took effect although the transaction raised, which `src/shinobi/storage.py:370-379`
  reports as an unknown outcome. With known outcomes it never happens.
* Recoveries may fail or be cut short anywhere, any number of times, and the next one still ends where the first
  would have, exactly unless one left the release of the claim half done (`AttemptSafety.RecoveryResumes`).
* The docstring of `plan_dataset_backend` says that pairwise disjoint roots are validated again at the
  adapter boundary; the code only checks that resources lie in their root. The permissions of a plan are right
  exactly when no planned root that the leaf writes overlaps one that it does not write
  (`Mounts.DatasetPermissions`); `Mounts.NestedRootExposed` is a plan that opens a read-only root for
  writing. For FITS files the condition is that overlapping planned files should be seen alike
  (`Mounts.FitsPermissions`).
* The step-path check refuses some recipes whose steps can never share a path
  (`StepPaths.RefusedWithoutNeed`): it takes every slice for every other, while two steps can share a path
  exactly when their patterns align, a literal slice with the same one or, if it is a plain numeral, with a
  scattered step's (`StepPaths.CanShareIffAligned`). With names that hold no slice and no `[#]` the check is
  exact (`StepPaths.PlainExact`).
* Widening a strict leaf's permissions turns acceptance into refusal exactly when it adds the first rewrite
  grant to an existing dataset with a subtable that no writer names and whose columns are not known
  (`StrictWriter.WideningAsksEvidence`).

## Model

| member | source | states |
|---|---|---|
| AccessTrie.AccessTree.Resolve | src/shinobi/dataset_access.py:755-775 | returns every state stored at an ancestor, descendant or equal path exactly once and no other, always the same object per path, and creates a state for the queried path only |
| AccessTrie.AccessTree.Descend | src/shinobi/dataset_access.py:757-765 | walks to the node of the path, adding only missing nodes on the way, and lists exactly the states stored above it |
| AccessTrie.AccessTree.Below | src/shinobi/dataset_access.py:767-772 | the worklist over the node's subtree lists exactly the states at or below it, each once |
| HazardSpec.EveryConflictOrdered | src/shinobi/dataset_access.py:853-875 | for any history of recorded accesses, the step of the later of two conflicting accesses reaches the step of the earlier one through returned dependencies |
| HazardSpec.HistoryTracked | src/shinobi/dataset_access.py:853-875 | every access of the past is still led back to from some state on its path, although each state keeps only its last writer and the readers since |
| HazardSpec.RequiredMeans | src/shinobi/dataset_access.py:857-868 | which steps an access waits for, read off the history alone: on each known overlapping path those that read it since the last write, for a writer and if there are any, and the last writer otherwise |
| HazardSpec.HistoryReflected | src/shinobi/dataset_access.py:870-875 | each path remembers exactly the last write over it since it was known, and those that read it since then |
| HazardSpec.TracksStep | src/shinobi/dataset_access.py:870-875 | one more access, which overwrites or joins states above and below its path, loses nothing that the states led back to |
| HazardSpec.SlotLeadsBack | src/shinobi/dataset_access.py:857-868 | what an overlapping state still remembers suffices for a new conflicting access to wait for the old one |
| HazardSpec.HistoryGrounded | src/shinobi/dataset_access.py:870-875 | every remembered writer and reader stems from a recorded access above or below the state's path |
| HazardSpec.EdgeOrigin | src/shinobi/dataset_access.py:853-875 | each returned dependency comes from an earlier recorded access of that step that shares a state with a later one |
| HazardSpec.ForklessEdgesAreConflicts | src/shinobi/dataset_access.py:853-875 | when no recorded path lies above two others that do not overlap, every returned dependency is a conflict between two recorded accesses |
| HazardSpec.EdgesExactIffForkless | src/shinobi/dataset_access.py:853-875 | that condition on a set of paths is exactly what every history over them needs |
| HazardSpec.ForkAddsEdge | src/shinobi/dataset_access.py:870-875 | with a reader above any two disjoint writers, the second writer waits for the first although they never conflict |
| HazardSpec.BatchEdges | src/shinobi/dataset_access.py:853-879 | the dependencies of a step's whole list of accesses are the edges its accesses add one by one |
| HazardPlanner.HidesWriteIff | src/shinobi/dataset_access.py:826-830 | a step is refused exactly when a READ declaration has a resource at or above a generic write |
| HazardPlanner.FilterKeepsCoverage | src/shinobi/dataset_access.py:839-851 | dropping generic paths at or below a dataset resource leaves every requested access covered by a planned one |
| HazardPlanner.PlannedAccessesAre | src/shinobi/dataset_access.py:838-851 | a step is planned with every dataset resource, as a write when its dataset is written or exclusive, and with exactly the generic paths below none of them |
| HazardPlanner.CoveredConflict | src/shinobi/dataset_access.py:839-851 | requested accesses that conflict have planned accesses that conflict |
| HazardPlanner.ResolvedAccessPlanner.Wait | src/shinobi/dataset_access.py:857-868 | the steps to wait for are those the overlapping states remember: their readers for a writer, their last writer otherwise, never the step itself |
| HazardPlanner.ResolvedAccessPlanner.Apply | src/shinobi/dataset_access.py:855-875 | one access on the trie requires and records what it does on the flat map of paths |
| HazardPlanner.ResolvedAccessPlanner.ApplyAll | src/shinobi/dataset_access.py:853-875 | all accesses of a step on the trie, in order, equal the same accesses on the flat map |
| HazardPlanner.ResolvedAccessPlanner.OrderAfter | src/shinobi/dataset_access.py:789-881 | refuses exactly hidden writes and then records nothing; otherwise returns exactly the dependencies of its planned accesses on the history so far and appends them to it |
| Graph.TopologicalIndices | src/shinobi/graph.py:70-90 | the order respects every dependency and always takes the least ready step; it is complete exactly when the graph is acyclic |
| Graph.OrderIsPermutation | src/shinobi/graph.py:70-90 | a complete order lists every step exactly once |
| Graph.OrderExcludesCycles | src/shinobi/graph.py:235 | a complete order exists only without a cycle |
| Graph.StuckMeansCycle | src/shinobi/graph.py:70-90 | when nothing is ready before every step is ordered, the graph has a cycle |
| Graph.StableOrderIsLeast | src/shinobi/graph.py:71-77 | the stable order is lexicographically least among all orders that respect the dependencies |
| Graph.GreedyIsIdentity | src/shinobi/graph.py:71-77 | when all dependencies point to lower indices the stable order is declaration order |
| Graph.Release | src/shinobi/graph.py:85-89 | lowering the in-degrees of an ordered step's dependents makes ready exactly the steps whose last dependency it was |
| Graph.Pair | src/shinobi/dataset_access.py:1096-1101 | the dependents built from the dependencies describe the same edges, in the other direction |
| ScatterSweep.ValidateScatterCollisions | src/shinobi/dataset_access.py:893-926 | raises exactly when two different slices hold overlapping paths with at least one write |
| ScatterSweep.GroupSlices | src/shinobi/dataset_access.py:900-907 | every path keeps all its owners and writers, or at least two of them |
| ScatterSweep.CapsKeepClash | src/shinobi/dataset_access.py:896-897 | two witnesses per path suffice to find an owner and a writer that differ |
| ScatterSweep.GroupsDecide | src/shinobi/dataset_access.py:900-917 | the capped groups clash on some pair of overlapping paths exactly when two slices collide |
| ScatterSweep.AncestorsOnStack | src/shinobi/dataset_access.py:919-922 | in component order, every ancestor of the current path is on the stack after popping |
| ScatterSweep.PopTo | src/shinobi/dataset_access.py:921-922 | popping leaves exactly the ancestors of the path among the paths already swept |
| ScatterSweep.Sweep | src/shinobi/dataset_access.py:918-926 | one pass over sorted paths finds a clash exactly when there is one |
| RecipePlan.WorkspaceAccesses | src/shinobi/dataset_access.py:1104-1111 | one entry per path, with the same resources, exclusive when any declaration of the path is |
| RecipePlan.SlicesCollide | src/shinobi/dataset_access.py:1051-1066 | the check on merged resources refuses exactly when the slices' requested accesses collide |
| RecipePlan.OrderSlices | src/shinobi/dataset_access.py:1022-1052 | planning slice by slice under one name returns the dependencies of all their accesses on the history before the step |
| RecipePlan.OrderStep | src/shinobi/dataset_access.py:1065-1086 | a step is ordered exactly when no slice hides a write and its slices do not collide, with exactly its planned accesses recorded |
| RecipePlan.ParentIndices | src/shinobi/dataset_access.py:1088-1092 | the named parents' indices, refused exactly when one does not come earlier in the order |
| RecipePlan.HazardsPointBack | src/shinobi/dataset_access.py:1089-1091 | every hazard edge of a recipe leads to a step that is earlier in the stable order |
| RecipePlan.PlanRecipe | src/shinobi/dataset_access.py:975-1101 | succeeds exactly when every step is acceptable, never needs a non-backward edge, and its graph is the declared one plus the hazard edges |
| RecipePlan.PlannedKeepsOrder | src/shinobi/dataset_access.py:943-946 | the planned graph is acyclic, and the stable order of the declared graph is the stable order of the planned one |
| RecipePlan.PlannedOrdersConflicts | src/shinobi/dataset_access.py:1088-1101 | every two steps with conflicting planned accesses are ordered by the planned graph |
| RecipePlan.RequestsCovered | src/shinobi/dataset_access.py:839-851 | every access an acceptable step asked for, in any slice, is covered by a planned one |
| RecipePlan.PlanOrdersRequests | src/shinobi/dataset_access.py:1088-1101 | the planned graph orders every two steps whose requested accesses conflict |
| RecipePlan.AcceptableMeans | src/shinobi/dataset_access.py:826-926 | a step is refused exactly when a slice reads a dataset and writes into it, or one slice of a scatter writes or reserves a path that overlaps one another slice declares |
| RecipePlan.PlanOrdersClashes | src/shinobi/dataset_access.py:292-294 | a dataset written or read exclusively, and a generic path written, is ordered with every overlapping path that any slice of another step declares |
| RecipePlan.SharedUnordered | src/shinobi/dataset_access.py:853-875 | where everything is read and nothing exclusive, no step is refused and no edge added |
| RecipePlan.PlannedInterleavingsAgree | src/shinobi/dataset_access.py:1088-1101 | any two interleavings of the steps' work that keep the planned graph end in the same store and the same private results, when each step stays within what it asked for |
| RecipePlan.LinearExtensionsAgree | src/shinobi/dataset_access.py:1088-1101 | every linear extension of the planned graph leaves the store as running in the stable order does |
| Schedule.ActionsCommute | src/shinobi/dataset_access.py:1088-1101 | work of two steps that stays within non-conflicting accesses commutes |
| Schedule.ExtensionsAgree | src/shinobi/dataset_access.py:1088-1101 | two orders that extend one partial order under which all unordered actions commute have the same effect |
| Schedule.InterleavingsAgree | src/shinobi/dataset_access.py:1088-1101 | a graph that orders every conflict fixes the result of every interleaving that keeps it |
| SliceSchedule.SlicesApart | src/shinobi/dataset_access.py:1065-1066 | slices of an accepted step do not conflict |
| SliceSchedule.UnitConflictsOrdered | src/shinobi/dataset_access.py:1065-1101 | with slices and step completions as units, every two conflicting units are ordered |
| SliceSchedule.SliceInterleavingsAgree | src/shinobi/dataset_access.py:1065-1101 | slices running concurrently under the planned graph always give the same store and results |
| Ownership.OwnershipRecords.AcquireAuthority | src/shinobi/ownership.py:753-776 | raises exactly on an error or when some held claim is incompatible or another one of the same id; when it returns the claim stands; every other record stays, compatible claims stay compatible, and a known failure writes nothing |
| Ownership.OwnershipRecords.ReleaseAuthority | src/shinobi/ownership.py:778-796 | raises exactly on an error or when only others hold the authority; when it returns the claim is gone; every other record stays, and a known failure writes nothing |
| Ownership.OwnershipRecords.AcquireRegistry | src/shinobi/ownership.py:806-825 | raises exactly on an error or when some registered claim conflicts or is another one of the same id; when it returns the claim is registered; every other entry stays, and entries stay free of conflicts |
| Ownership.OwnershipRecords.ReleaseRegistry | src/shinobi/ownership.py:831-839 | when it returns the entry is gone, reported as removed exactly if there was one; every other entry stays, and a known failure writes nothing |
| Ownership.AuthorityStands | src/shinobi/ownership.py:764-776 | no transaction of an owner breaks the compatibility of all claims of an authority |
| Ownership.RegistryStands | src/shinobi/ownership.py:816-825 | no transaction of an owner makes two registered claims conflict |
| Ownership.RestoreFits | src/shinobi/ownership.py:899-914 | a claim just released can be acquired again, which restores the records |
| Ownership.OwnershipRecords.ReleaseOwnerRecords | src/shinobi/ownership.py:899-914 | authority first, then registry, and the authority put back when that fails; raises exactly on an error of one of the first two operations it reaches or when only others hold the authority |
| Ownership.OwnershipRecords.AcquireRecords | src/shinobi/ownership.py:971-1000 | authority, then registry, with the rollback of an inserted authority record and the registry side put back when the rollback fails too |
| Ownership.OwnershipRecords.InspectOwnership | src/shinobi/ownership.py:1084-1120 | a local claim is dead, or live, exactly with a matching registry entry and a free, or held, liveness lock; an authority-only claim is always uncertain |
| Ownership.OwnershipRecords.ReconcileOwnership | src/shinobi/ownership.py:1193-1206 | a live or uncertain claim is refused and nothing changes; only a complete claim with a free lock is released |
| Ownership.ReleaseClosure | src/shinobi/ownership.py:899-914 | from a complete claim, exactly when a release ends with both records, with neither, or with the authority record alone |
| Ownership.ReleaseOutcome | src/shinobi/ownership.py:899-914 | the exact outcome from any stores that have the authority record, registered or not, for all faults; an absent registry entry is no failure |
| Ownership.ReleaseClears | src/shinobi/ownership.py:903-907 | when both removals end well the id is in neither store, whatever the registry had |
| Ownership.ReleaseAgain | src/shinobi/ownership.py:899-914 | from an authority record alone, exactly when releasing again still leaves it |
| Ownership.ReleaseFailsClosed | src/shinobi/ownership.py:878-887 | with known outcomes a failed release never leaves the authority record alone |
| Ownership.AcquireRestores | src/shinobi/ownership.py:975-1000 | exactly when a failed acquire of a new claim leaves both stores as they were |
| Ownership.AcquireFoundRestores | src/shinobi/ownership.py:975-1000 | the same for a claim that the authority already had |
| Ownership.AcquireCompletes | src/shinobi/ownership.py:971-975 | an acquire that does not fail leaves one claim in both stores and all others as they were |
| Ownership.CompatibleMeans | src/shinobi/ownership.py:765-766 | claims are compatible exactly when neither is opaque, no path of one overlaps a path of the other with a write, and both are reads or both partitioned |
| Ownership.AcquireFailsClean | src/shinobi/ownership.py:975-1000 | with known outcomes a failed acquire restores both stores unless its own rollback raised |
| OwnershipSafety.MovesAreOwn | src/shinobi/ownership.py:971-1000 | whatever an acquiring or releasing process does in one transaction adds or removes its own claim at most |
| OwnershipSafety.InspectionsAreOwn | src/shinobi/ownership.py:1193-1206 | a reconciliation step adds or removes the inspected claim at most |
| OwnershipSafety.InspectionProbes | src/shinobi/ownership.py:1036-1120 | a reconciliation gets past its probe only with a free liveness lock and writes only after that, by id alone when the record is gone on reading it again; putting a record back, it removes nothing |
| OwnershipProtocol.ReconcileStepByStep | src/shinobi/ownership.py:1109-1206 | undisturbed, a reconciliation releases the claim exactly when both records agree and the lock is free; a claim in the authority alone, or a live one, keeps everything |
| OwnershipProtocol.ReleaseStepByStep | src/shinobi/ownership.py:899-914 | the protocol's release steps, undisturbed, have the effect of the release operation, and end the session exactly when it does not raise |
| OwnershipProtocol.AcquireStepByStep | src/shinobi/ownership.py:971-1000 | the protocol's acquire steps, undisturbed, have the effect of the acquire operation, and a lease exactly when it does not fail |
| OwnershipSafety.AdmissibleStep | src/shinobi/ownership.py:764-770 | no step of any process makes two recorded claims of one store exclude each other |
| OwnershipSafety.RunsAdmissible | src/shinobi/ownership.py:753-825 | in every run, whatever ids are used and whatever fails, the claims of each store may stand side by side |
| OwnershipSafety.InvStep | src/shinobi/ownership.py:917-1206 | every step, crashes of processes and of reconciliations included, keeps, when processes start under ids at rest: each running process holds its lock, usable leases have both records, and nobody runs under an id whose records a reconciliation may still remove |
| OwnershipSafety.BeginNeedsRest | src/shinobi/ownership.py:917-960 | starting under any other id breaks that invariant |
| OwnershipSafety.GuardedRunsSafe | src/shinobi/ownership.py:917-1206 | every run whose processes start under ids at rest is safe, however often ids are used |
| OwnershipSafety.FreshRunsGuarded | src/shinobi/ownership.py:917-960 | runs in which no id is used twice are among them |
| OwnershipSafety.BrokenReleasesAgain | src/shinobi/ownership.py:872-896 | a process whose release failed can release again: undisturbed it leaves neither record and ends, registered or not |
| OwnershipSafety.DeadClaimUnsafe | src/shinobi/ownership.py:1036-1206 | in any state whose records are filed under their own ids, whenever a process starts while an inspection past its probe may still remove records of its id, a removal faces its held lock at most one step later |
| OwnershipSafety.ClearingRobs | src/shinobi/ownership.py:1040-1044 | a reconciliation that read no record still releases the id, and so removes the record of a lease granted meanwhile |
| OwnershipSafety.SharedIdUnsafe | src/shinobi/ownership.py:831-914 | in any state whose stores hold only the lease of a process in another workspace, whoever starts under its id can lose its registry entry to that process, and a third then gets a conflicting lease |
| OwnershipSafety.LeftBehindUnsafe | src/shinobi/ownership.py:1193-1206 | the same when a dead process of another workspace left both its records, through two reconciliations of them |
| OwnershipSafety.InvSafe | src/shinobi/ownership.py:847-851 | then no two usable leases overlap with one exclusive, and no reconciliation about to remove a record faces a held lock |
| OwnershipSafety.ReusedIdRun | src/shinobi/ownership.py:1193-1206 | a run with a reused id after which two exclusive leases overlap |
| OwnershipSafety.TwoWorkspacesRun | src/shinobi/ownership.py:831-914 | so does a run without inspections in which two workspaces use one id |
| AttemptSafety.UpdatedSound | src/shinobi/dataset_state.py:635-640 | whatever a worker saves at any step names only directories the attempt made, a candidate only when validated, and agrees with what is published |
| AttemptSafety.WorkKeeps | src/shinobi/dataset_state.py:829-921 | each step of a materialization or export, succeeding or failing in any way, keeps the invariant of records, disk and concurrent recovery |
| AttemptSafety.RecoverKeeps | src/shinobi/dataset_state.py:990-1036 | so does each step of a recovery, while the worker's exception handler may still be running |
| AttemptSafety.InvStep | src/shinobi/dataset_state.py:668-1037 | so do crashes, interrupts, and strangers creating the destination or replacing the stage |
| AttemptSafety.EveryRunFaithful | src/shinobi/dataset_state.py:904-921 | in every run a committed record has the validated product at the destination, a published product has a durable record that was ready, names it and never calls it failed or interrupted, and a finished record is committed exactly when published |
| AttemptSafety.EveryStepCareful | src/shinobi/dataset_state.py:649-659 | no own step removes a stage other than the one this attempt made, or fills a destination that is not absent, or publishes before a durable ready record names the candidate |
| AttemptSafety.CommittedForever | src/shinobi/dataset_state.py:984-992 | a committed, finished attempt keeps its record and its product through every later step |
| AttemptSafety.ReturnsTidy | src/shinobi/dataset_state.py:781-785 | in every run, when the call returns its stage is gone and its claim released |
| AttemptSafety.CrashedNotLive | src/shinobi/dataset_state.py:990-1036 | in no run is the claim of a crashed worker live, so that it never keeps recovery from finding it dead |
| AttemptSafety.RecoveryExact | src/shinobi/dataset_state.py:990-1036 | a recovery without faults settles the attempt exactly when the owner is not live or uncertain, the destination holds no stranger's directory and the stage is absent or its own; otherwise it changes nothing |
| AttemptSafety.RecoveryIdempotent | src/shinobi/dataset_state.py:988-992 | recovering again changes nothing |
| AttemptSafety.RecoveryResumes | src/shinobi/dataset_state.py:974-1036 | however many recoveries fail or are cut short, and wherever, one that runs through ends where it would have without, exactly unless one of them left the release of the claim half done |
| StateStore.AttemptStore.Cleanup | src/shinobi/dataset_state.py:649-659 | removes the stage exactly when it is the recorded directory, and raises and preserves it otherwise |
| StateStore.AttemptStore.Assess | src/shinobi/dataset_state.py:990-1030 | judges an attempt without touching anything, as the recovery steps up to the cleanup do |
| StateStore.AttemptStore.RecoverAttempt | src/shinobi/dataset_state.py:987-1036 | whichever operations fail, does exactly what the recovery steps do |
| StateStore.Attempt.SaveAttempt | src/shinobi/dataset_state.py:635-640 | takes one saving step of the worker; the changes are remembered only when the save returned |
| StateStore.Attempt.ClaimAndStage | src/shinobi/dataset_state.py:838-874 | takes the worker's steps from the first record to the recorded stage, exactly when all of them end well and neither destination nor stage is there, or to the handler |
| StateStore.Attempt.BuildAndPublish | src/shinobi/dataset_state.py:875-896 | takes the worker's steps from building to publication of the validated product, exactly when all of them end well and nothing is at the destination, or to the handler |
| StateStore.Attempt.Commit | src/shinobi/dataset_state.py:780-785 | from publication to the finished record, with the stage cleared and the claim released, exactly when every operation ends well; otherwise to the handler |
| StateStore.Attempt.HandleFailure | src/shinobi/dataset_state.py:904-921 | exactly what the handler leaves of record, stage, destination and claim, for every place where it may stop |
| StateStore.Attempt.Run | src/shinobi/dataset_state.py:829-921 | returns exactly when nothing fails and destination and stage are free, with nothing left but record and product; a failure handled without another one leaves no claim, a finished record, and no stage that is known to be its own; whatever fails, the disk ends faithful to its record |
| StateStore.TrailKeepsInv | src/shinobi/dataset_state.py:829-921 | every position a worker's steps lead to keeps the invariant of the step machine |
| Tiling.Largest | src/shinobi/state_codecs.py:48 | the first of the largest axes |
| Tiling.HalvingShrinks | src/shinobi/state_codecs.py:47-49 | halving an axis of at least two shrinks the product, to no less than a third |
| Tiling.BoundedChunks | src/shinobi/state_codecs.py:42-50 | terminates and refuses exactly mismatched ranks and oversized elements; otherwise a tile fits, exceeds neither array nor requested chunk, is untouched if it fitted, else more than a third of the limit, and no axis was cut below half of another |
| Tiling.ClampedAre | src/shinobi/state_codecs.py:43 | what the chunks are before any halving: as asked for, but within the array and at least one |
| Tiling.ExactCover | src/shinobi/state_codecs.py:53-59 | every index of the array, rank 0 and empty axes included, lies in exactly one tile, and no other index in any |
| Tiling.TileVolume | src/shinobi/state_codecs.py:58-59 | no tile is empty or holds more elements than the chunks allow |
| Tiling.TileSpans | src/shinobi/state_codecs.py:58-59 | a tile starts on a multiple of the chunk on every axis and goes on for a chunk or to the end |
| Tiling.EmptyAxis | src/shinobi/state_codecs.py:53-59 | an axis without elements leaves no tile |
| Tiling.TilesFit | src/shinobi/state_codecs.py:58-59 | with chunks that fit, every tile's bytes are within the limit |
| Tiling.CreatedArray.CopyFrom | src/shinobi/state_codecs.py:138-144 | writing region by region leaves the created array equal to the source, for every shape |
| StepPaths.CanonicalAppend | src/shinobi/graph.py:250 | canonicalization commutes with appending anything that starts with a dot or a bracket |
| StepPaths.CanonicalSlice | src/shinobi/graph.py:273-274 | every index of a scattered step canonicalizes to the same suffix |
| StepPaths.SliceMeans | src/shinobi/graph.py:250 | what counts as a slice: a bracket, at least one digit and nothing else, a bracket |
| StepPaths.PathsDescribe | src/shinobi/graph.py:268-279 | every listed path has the canonical and literal form, and the scatter mark, of the steps it goes through |
| StepPaths.PathsComplete | src/shinobi/graph.py:268-279 | every step declared at any depth has exactly one listed path, through the steps on the way to it |
| StepPaths.DispatchedCanonical | src/shinobi/graph.py:268-279 | whatever slices run, a step's dispatched path canonicalizes to its canonical path |
| StepPaths.RefuseCollisions | src/shinobi/graph.py:299-306 | refuses exactly when two listed paths are canonically equal and one is scattered or they are literally equal |
| StepPaths.AcceptedNeverShare | src/shinobi/graph.py:282-298 | if the check accepts, no choice of slices gives two steps declared at different positions, however deep, one dispatched path |
| StepPaths.CanShareIffAligned | src/shinobi/graph.py:282-298 | two steps can be dispatched under one path exactly when their paths align piece by piece: equal characters, equal literal slices, a plain numeral against a scattered slice, or two scattered slices |
| StepPaths.PlainExact | src/shinobi/graph.py:282-298 | with names that hold no slice and no slice mark the check refuses exactly the recipes in which some choice of slices gives two declared steps one path |
| StepPaths.LiteralExact | src/shinobi/graph.py:299-306 | two steps that are nowhere scattered clash exactly when they have one path |
| StepPaths.RefusedWithoutNeed | src/shinobi/graph.py:299-306 | with slices in names it refuses two steps that never share a path |
| FitsScan.CheckColumns | src/shinobi/fits.py:178-247 | accepts exactly tables whose columns are well-formed, within the limits, and disjoint inside the row or, for binary tables, as wide as the row in all |
| FitsScan.AcceptedColumns | src/shinobi/fits.py:178-247 | accepted columns are disjoint intervals within NAXIS1; those of a binary table hold each byte of the row exactly once |
| FitsScan.FormWidths | src/shinobi/fits.py:183 | binary fields have the widths of table 18 of the FITS Standard 4.0 |
| FitsScan.FormOkMeans | src/shinobi/fits.py:186-215 | an ASCII format needs a width, decimals exactly for real numbers, and fewer of them than its width; an array descriptor repeats at most once |
| FitsScan.DimsOkMeans | src/shinobi/fits.py:166-176 | TDIM has as many elements as its column, except for descriptors, and no more axes than the limit |
| FitsScan.ApartMeans | src/shinobi/fits.py:198-200 | two columns pass the overlap test exactly when no byte of the row belongs to both |
| FitsScan.AcceptedKind | src/shinobi/fits.py:382-400 | an accepted header is primary exactly at the start, else of the kind it names, with a pixel type of the standard and the axes it states |
| FitsScan.DataSize | src/shinobi/fits.py:411-432 | the data bytes are those of the size formula in section 4.4.1.2 of the FITS Standard 4.0 |
| FitsScan.DescribeHeader | src/shinobi/fits.py:382-442 | accepts exactly the headers that meet every structural requirement, with the layout they describe |
| FitsScan.AcceptableMeans | src/shinobi/fits.py:382-442 | the accepted headers keyword by keyword: which values of the structural keywords each kind of HDU may have |
| FitsScan.ReadHeader | src/shinobi/fits.py:360-377 | finds exactly the header that starts there, if it stays within the card and header byte limits |
| FitsScan.HeaderMeans | src/shinobi/fits.py:360-377 | a header ends with the block that holds the first END card of the file from there on, and only white space follows that word in the block |
| FitsScan.ReadHdu | src/shinobi/fits.py:357-467 | finds exactly the HDU that starts there, with its padded data inside the file |
| FitsScan.ScanFile | src/shinobi/fits.py:349-467 | completes exactly when the file is a sequence of acceptable HDUs within the limits, with that sequence |
| FitsScan.InventoryUnique | src/shinobi/fits.py:356-467 | a file has at most one inventory, so that completed scans of it agree |
| FitsScan.CompletedTiles | src/shinobi/fits.py:356-467 | the HDUs hold every byte of the file exactly once, start on 2880-byte blocks, and pad their data to the next block and no further |
| FitsScan.CompletedLayouts | src/shinobi/fits.py:356-467 | each HDU has the layout of the acceptable header that the file holds there |
| CloneLadder.OpenFile.CopyRanges | src/shinobi/clonefs.py:289-302 | complete only with all of the source copied, however short the calls; raises only an error that is not one to degrade on |
| CloneLadder.OpenFile.CopyPlainly | src/shinobi/clonefs.py:304-308 | leaves exactly the source's bytes for any pattern of short reads and writes |
| CloneLadder.OpenFile.CopyFd | src/shinobi/clonefs.py:282-308 | whichever rungs fail and however, a normal return leaves the source's bytes |
| CloneLadder.Disk.CloneTree | src/shinobi/clonefs.py:311-340 | a normal return leaves at the destination exactly the files, links and directories reached from the source, with their bytes, targets and times, and nothing else changed but the time of the directory it is in; raises only when something reached cannot be copied |
| CloneLadder.Disk.CloneDirectory | src/shinobi/clonefs.py:337-340 | children first and the directory's own time last, in any listing order |
| Fingerprint.WalkFingerprint | src/shinobi/cache.py:203-265 | a missing, unreadable or plain file path has its own mark, a pipe or device an empty list; a directory gives the sorted records of all non-directories reached, each once, never through a link to a directory |
| Fingerprint.WalkedAll | src/shinobi/cache.py:232-264 | an empty stack means every reached non-directory has been listed exactly once |
| Fingerprint.ListingUnique | src/shinobi/cache.py:265 | the result depends on the tree alone, not on the order in which directories list their entries |
| Fingerprint.ListedMeans | src/shinobi/cache.py:246-260 | everything reached below the root is listed except directories, links that lead to no file, and what is gone |
| Fingerprint.ListingDetermines | src/shinobi/cache.py:203-265 | two trees with one listing have the same entries recorded, with the same times and sizes |
| CloneFingerprint.CloneKeepsFingerprint | src/shinobi/clonefs.py:311-323 | the clone of a tree without pipes or devices has the fingerprint of its source, unless a link leads to another file from where it now stands |
| Mounts.DeepestWins | src/shinobi/dataset_backends.py:456-459 | in the sorted order of mounts the deepest mount at or above a path decides |
| Mounts.PlanDatasetBackend | src/shinobi/dataset_backends.py:410-460 | plans exactly when every root is known, contained, in the workflow plan and mountable, with each mount writable exactly when a root written by the leaf is mounted there |
| Mounts.DatasetPermissions | src/shinobi/dataset_backends.py:436-460 | every path of every planned root is writable exactly if the leaf writes that root, if and only if no root it writes overlaps one that it does not write |
| Mounts.ResourcesGranted | src/shinobi/dataset_backends.py:410-460 | then every listed resource, and all below it, is writable exactly if the leaf writes its root |
| Mounts.NestedRootExposed | src/shinobi/dataset_backends.py:436-460 | creating a root inside one that is only read opens that one for writing |
| Mounts.PlanFitsBackend | src/shinobi/fits_lifecycle.py:83-115 | plans only when every written file has a mountable parent and no other root would be exposed by it; exactly then, unless an absent root lies below an existing one, both not written, where the order of the set decides |
| Mounts.FitsPermissions | src/shinobi/fits_lifecycle.py:83-115 | written files are writable, other existing files read-only and absent ones hidden, if and only if overlapping planned files should be seen alike |
| Overwrite.Selection.Visit | src/shinobi/_overwrite.py:24-45 | records for every step in a subtree what is beneath it and who follows it, and appends the subtree with producers before consumers and children before their recipe |
| Overwrite.WalkStep | src/shinobi/_overwrite.py:32-40 | walking the next step of a topological order keeps the whole subtree of every producer before that of its consumers |
| Overwrite.FollowersOfStep | src/shinobi/_overwrite.py:40-43 | a step's followers are its recipe and everything in the steps that depend on it |
| Overwrite.CloseOver | src/shinobi/_overwrite.py:53-59 | the worklist ends with the least set that holds the selection and is closed under followers |
| Overwrite.OverwriteSteps | src/shinobi/_overwrite.py:14-70 | refuses exactly unknown names; otherwise processes exactly the least affected set, each step once, consumers before producers |
| Overwrite.ConsumersFirst | src/shinobi/_overwrite.py:19-20 | the whole subtree of a consumer is processed before that of its producer |
| StrictWriter.TableColumnIssues | src/shinobi/dataset_lifecycle.py:965-1020 | no issue exactly when for every table evidence is there or not needed, promised columns are there or gone, and columns changed only with permission and as declared |
| StrictWriter.RootIssues | src/shinobi/dataset_lifecycle.py:1049-1093 | no issue exactly when readers changed nothing, or the dataset is there, its tables are in order, and a create made it or every change of a writer is permitted |
| StrictWriter.LeafPostconditionIssues | src/shinobi/dataset_lifecycle.py:1023-1094 | no issue exactly when that holds for every dataset of the leaf |
| StrictWriter.AcceptedMeans | src/shinobi/dataset_lifecycle.py:1023-1094 | acceptance column by column, file by file and access by access: exactly when each dataset only read is untouched, each created one is new, and every column, row count, keyword, member and file that changed in another was some writer's to change |
| StrictWriter.AcceptedStaysInside | src/shinobi/dataset_lifecycle.py:1082-1093 | in an accepted leaf a writer changed files only of declared tables, permitted opaque subtables or stable rewrite grants; an undeclared one at least no other opaque subtable |
| StrictWriter.AcceptedChangesPermitted | src/shinobi/dataset_lifecycle.py:1063-1081 | in an accepted leaf rows, keywords, subtables and closure membership changed only when some access to that dataset permits it |
| StrictWriter.AcceptedColumns | src/shinobi/dataset_lifecycle.py:983-1019 | in an accepted leaf columns changed only with permission and as declared, and promised columns are there or gone |
| StrictWriter.AcceptedReader | src/shinobi/dataset_lifecycle.py:1050-1053 | a dataset that the leaf only reads is accepted exactly when nothing observed of it changed, files by their whole stamps, column evidence where both sides have it |
| StrictWriter.AcceptedPresence | src/shinobi/dataset_lifecycle.py:1054-1062 | a written dataset is there afterwards, and was there before exactly if nobody creates it |
| StrictWriter.AcceptedPromises | src/shinobi/dataset_lifecycle.py:996-1003 | the columns one writer promises of a table are there, and those it removes are gone, in created datasets too |
| StrictWriter.WideningKeepsAcceptance | src/shinobi/dataset_lifecycle.py:1023-1094 | widening row, schema, keyword or named-subtable permissions never turns acceptance into refusal |
| StrictWriter.WideningAsksEvidence | src/shinobi/dataset_lifecycle.py:989-994 | widening permissions turns acceptance into refusal exactly when it adds the first rewrite grant to an existing dataset with an unnamed present subtable whose columns are not known |

## Left out

- HazardPlanner.ResolvedAccessPlanner.OrderAfter: the refusals of product patterns and planned CREATE roots belong to access resolution.
- RecipePlan.PlanRecipe: the refusals of nested dataset recipes and of scatter inputs that cannot be resolved belong to it as well.
- Access resolution: schemas, product patterns, planned CREATE roots and the closure cache; the planner starts from resolved accesses.
- Reason texts, labels and messages of hazards, issues and refusals, and which FITS failure status is reported.
- `build_graph`'s other validations, and the text grammars of TFORM and TDIM values; the header parser itself is a parameter.
- `os.path.normcase` is the identity, as on POSIX; the heap of ready steps is a set of which the least is taken, and `sorted` is an insertion or selection sort.
- SliceSchedule.SliceInterleavingsAgree: a scattered step without a dataset contract counts as one unit, because the original does not check its slices against each other.
- OwnershipSafety.GuardedRunsSafe: Slurm owners, forced release, the in-process lease dictionary and the unlinking of the liveness file are not modelled.
- Ownership transactions: `JsonFileStore.update` is one atomic step that commits, or raises with a known or unknown outcome (`src/shinobi/storage.py:358-379`); the access lists arrive canonical, and malformed store contents count as failing transactions.
- OwnershipSafety.DeadClaimUnsafe: a removal that faces a held lock counts as unsafe also when the authority then refuses the process, so that there is no record to lose.
- OwnershipSafety.SharedIdUnsafe: with further claims in the stores, whether a use of an id in two workspaces does harm depends on what these exclude; the same holds for OwnershipSafety.LeftBehindUnsafe.
- State attempts: product building, verification and logical identities are steps that succeed or fail; the export's separate `staged` and `writing` records are one save; parent-directory identity checks count as failing operations.
- AttemptSafety.InvStep: strangers replace the stage only after the worker has left its normal path, and never remove the published product.
- State attempts are a step machine on values for the interleavings; the class methods cover one worker or one recovery at a time.
- Zarr groups, attributes, compressors and the logical-identity check of `rewrite_lossless`; array cells are copied as values.
- WCS diagnostics and the final HDU selection of `inspect_fits`.
- `tree_size`, free-space checks, the capability probe and the creation of missing parents in `clonefs`; `CloneLadder.Disk.CloneTree` assumes that source and destination do not overlap, and the destination is absent, as its docstring demands.
- CloneFingerprint.CloneKeepsFingerprint: where the text of a link leads from its new place is not modelled, so that links to files are required to lead to alike ones.
- Content samples and the memo of fingerprints, and what changes while the walk runs, except that a listed entry may be gone.
- Overwrite: dotted names are paths of step names, so that they are distinct; reading manifests and invalidating entries are not modelled, and the invoked scope is a recipe.
- Mounts: backend capabilities and container runtimes; every FITS access has a root.
