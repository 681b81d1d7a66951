# A verified model of an OCFL library

The library reads, builds, updates and validates objects of the Oxford Common File Layout (OCFL) 1.0 and 1.1 on
several kinds of storage. This project models its hard parts in Dafny and proves what they promise.

- **Resumable updates** (`Store`, `PlanMachine`, `PlanFiles`, `PlanTheorems`, `UpdatePlans`, `TornRuns`,
  `Crashes`, `Siblings`). An update is a list of steps with a run and a revert action. `PlanMachine` is a
  transition system: calls of Apply and Revert in any order, copy steps that finish in any order, steps that
  fail at any time, plans that are saved and loaded between calls. `Crashes` adds processes that die at any
  time, also inside a call, and are followed by others that load a plan saved earlier. A failing storage
  operation changes nothing, or is torn: a write leaves anything at its path, a removal removes any of its
  paths. The class `UpdatePlan` runs the loop of the library on a mutable store, and each of its methods extends
  a ghost history that stays a run of the transition system. One inductive invariant (`PlanFiles.RunInvariant`)
  covers every state of every run; the theorems on convergence, revert, and commit order follow from it for any
  plan that is well formed.
- **The plans that are really built** (`PlanSteps`, `PlanSoundness`, `ObjectUpdates`, `Objects`, `Attempts`).
  The steps are those of the library; `PlanSoundness.PlanIsWellFormed` shows that every plan for a next
  inventory is well formed, so the theorems hold for it. `Objects.AllUpdatesStored`,
  `Objects.EarlierVersionsStay` and `Objects.UpdatesKeepHistory` compose builder, plan and store over any number
  of updates of one object, and `Attempts.AttemptsLeaveNoTrace` over any number of attempts, some applied in the
  end and others given up.
- **Inventories and their history** (`VNums`, `Strings`, `PathChecks`, `DigestMaps`, `DigestConflicts`,
  `Stages`, `Inventories`, `BuiltInventories`, `History`). Built inventories are valid, put exactly the new
  content in the new version directory, and keep the logical state of every earlier version (OCFL 1.1, sections
  3.5.2, 3.5.3.1, 3.6, 3.7).
- **The concurrent pipeline** (`Pipeline`): feeder, workers, closer and consumer as a transition system, with
  conservation, freedom from deadlock, and a bound on the number of steps.
- **Smaller refinements** (with 64-bit arithmetic in `Int64`): the logical directory tree (`LogicalFS`), the
  seekable S3 reader (`S3File`), multipart copies (`Multipart`), and storage layout 0003 (`Layout0003`).

`dafny verify dfyconfig.toml` checks the whole project.

## Where the code differs from what it says

Each of these is stated exactly, with a condition that is necessary and sufficient, or with a witness.

- Revert only reverts completed steps (`update-plan.go:91-103`), so a torn declaration, root inventory or root
  sidecar that a failed step leaves in an existing object survives a Revert that returns nil.
  `ObjectUpdates.TornUpdateReverts` is the exact condition, for any faults. `ObjectUpdates.TornInventoryStays`
  shows that such runs exist for every update of an existing object; the new content is then gone, so that the
  commit order is broken as well, and `ObjectUpdates.RevertedCommitOrder` says exactly when it is. A nil Revert
  of a first version restores the empty object whatever tore (`ObjectUpdates.FirstUpdateReverts`); inside such a
  Revert, or after one that fails, a torn root inventory breaks the commit order of a first version too. With
  all-or-nothing operations nothing of this happens.
- A step whose revert failed stays complete (`update-plan.go:432-440`), so the next Apply skips it and can
  return nil with a torn file in place: `ObjectUpdates.TornRevertStays` gives such a run for every update, with
  a torn root inventory, or, in a first version, without one: there the revert is a removal, which takes effect
  and then reports an error. `PlanTheorems.ApplyOutcome` is the exact condition, for any faults: before the
  call, every path held what the completed steps make of it, except targets of steps that were still to run.
- Updates are documented to be interrupted and resumed, and the flags that a plan is resumed with are those it
  was saved with. For processes that die anywhere, `Crashes.ApplyAfterCrashes` and `Crashes.RevertAfterCrashes`
  say exactly when a nil result means what it should. When the flags are older than the files, new content in
  the version directory survives a Revert that returns nil: `ObjectUpdates.StaleContentStays` is such a run for
  every new file of every update, without any fault.
- `runSteps` says that a failing step cancels its siblings, but the group with the cancelling context is
  replaced at once (`update-plan.go:665-669`). `Siblings.SiblingsAreTried`: when a call returns the error of the
  group, every content step that it left undone was itself executed and failed; `Siblings.SiblingRunsOn` is a
  run in which a sibling starts, and succeeds, after a failure.
- `validPaths` compares sorted neighbours only. It accepts `a`, `a.txt`, `a/b`: `PathChecks.AcceptsExactly` says
  what it accepts, `PathChecks.MissedConflict` is the witness. So a state with these paths can become the first
  version of an object, and gives it content paths of which one is above another
  (`BuiltInventories.FirstVersionIsValid`, `BuiltInventories.MaskedState`); and a valid state is refused when
  the path that masks the conflict gets no new content (`BuiltInventories.OldMask`).
  `BuiltInventories.AddIsValid` says exactly when.
- `DigestMap.Eq` is documented to be false when either map has two spellings of one digest. It only examines its
  argument: `DigestMaps.EqMeaning` for receivers without such digests, and for the others
  `DigestConflicts.ConflictingReceiver`, which says for exactly which of them some argument makes it true; the
  two maps then differ in their paths (`DigestConflicts.ConflictIsWrong`). `DigestConflicts.EqWithConflict` is a
  witness.
- `forwardMatch` treats a digest that is the empty string as not found, so a valid state that has one does not
  match itself (`History.ForwardMatchReflexive`), and E066 is raised for exactly such versions
  (`History.HistoryCompares`).
- `Stage.Overlay` puts the digests of the state in lower case and not those of the content sources, so that
  content whose digest is not in lower case is lost: `Stages.MergedContent` is the exact condition,
  `Stages.OtherCaseIsLost` the witness.
- `adjustPartSize` truncates a quotient to 32 bits: `Multipart.AdjustPartSize` is right if and only if no
  quotient is misread, and `Multipart.TruncationHappens` is a witness with a part size that copies use.
  `Multipart.SmallQuotient` shows that it never happens when the first quotient is within 32 bits. The part size
  can also exceed 64 bits, but only where all is to go in one part (`Multipart.OverflowIsOnePart`,
  `Multipart.OverflowHappens`), which copies never ask for.
- The check of layout 0003 admits negative tuple parameters, and multiplies in 64 bits, so that a product can
  wrap around to a small one (`Layout0003.OverflowIsAccepted`). Resolving an id panics exactly for those
  configurations that are accepted and whose tuples do not fit in the hash: `Layout0003.Resolve`.

## Model

| member | source | states |
|---|---|---|
| `Store.FailureIsLocal` | fs/fs.go:47-55 | However a sequence of storage operations fails, torn or not, paths it does not work on keep their content |
| `Store.DoAllAt` | fs/fs.go:145-176 | What writes, removals (of missing files too) and removals of directories leave at each path: the last operation on the path decides |
| `PlanMachine.NextKeepsControl` | update-plan.go:644-720 | Every transition keeps the shape of the completed set, and that steps behind the loop are processed, in flight, or failed content steps |
| `PlanMachine.ReadyInFlight` | update-plan.go:660-690 | A copy step in flight runs only when all steps before the group are complete, and is reverted only when all steps after the group are not |
| `PlanMachine.ReadyAtCursor` | update-plan.go:692-714 | A synchronous step runs only when every step before it is complete, and is reverted only when no later step is |
| `PlanFiles.RunFirstAt` | update-plan.go:399-419 | An uninterrupted run of the first k steps leaves at every path what the one step with that target wrote |
| `PlanFiles.RunAt` | update-plan.go:399-419 | Running a step, also when it fails and tears its targets, keeps every path as the completed steps make it, except targets of incomplete steps and what an earlier failed revert of a still completed step may have torn |
| `PlanFiles.RestoredIsFree` | update-plan.go:425-444 | When a step is reverted, what its revert removes or rewrites is not a target of any other completed step, directory removals included |
| `PlanFiles.RevertAt` | update-plan.go:425-444 | Reverting a step keeps every path as the completed steps make it, except the targets of incomplete steps and, when it fails, what it restores: its step stays complete |
| `PlanFiles.ExecKeepsSwept` | update-plan.go:288-322 | A path in a directory that reverts remove is as it was whenever the first step to remove it is incomplete, under any faults |
| `PlanFiles.ExecKeepsUntouched` | update-plan.go:399-444 | A path that is no target and in no removed directory never changes, under any faults |
| `PlanFiles.NextIsExec` | update-plan.go:644-720 | Every transition that changes files or flags is one step's Run or Revert, in a state that is ready for it; the last step is never reverted |
| `PlanFiles.RunInvariant` | update-plan.go:644-720 | In every state of every sequence of Apply, Revert and reload, under every schedule and any faults: the invariants on flags, removed directories and untouched paths, and every path is as the completed steps make it, or a target of an incomplete step, or restored by a revert that is still to come |
| `PlanTheorems.CompletedSteps` | update-plan.go:89-103 | In every state a completed step has all earlier steps complete, except siblings of the copy group; in a Revert the last step is neither complete nor in flight |
| `PlanTheorems.ApplyOutcome` | update-plan.go:60-70 | From any files and any flags of a possible shape, and whatever tore, an Apply that returns nil has completed every step, and leaves the files of one uninterrupted run if and only if before the call every path held what the completed steps make of it, targets of remaining steps excepted |
| `PlanTheorems.ApplyConverges` | update-plan.go:60-70 | So it does after any failed Apply and Revert calls, with torn runs and any schedule, as long as no revert has torn files |
| `PlanTheorems.RevertOutcome` | update-plan.go:181-189 | From any files and any flags of a possible shape, a Revert that returns nil has reverted every step, and restores the object if and only if before the call every path was original or restored by a completed step |
| `PlanTheorems.RevertRestores` | update-plan.go:181-189 | Under any faults, a Revert that returns nil restores the original files if and only if no incomplete step had left a change outside the removed directories |
| `PlanTheorems.AtomicRevertRestores` | update-plan.go:181-189 | With all-or-nothing operations any run that ends in a nil Revert has restored the object, with no step marked complete |
| `PlanTheorems.FirstVersionRevertRestores` | update-plan.go:288-307 | When the first step's revert removes everything, a nil Revert restores the object after any torn runs and torn reverts |
| `PlanTheorems.ExactFiles` | update-plan.go:399-444 | With all-or-nothing operations every path holds, in every state, exactly what the completed steps make of it |
| `PlanTheorems.ApplyInOrder` | update-plan.go:660-714 | Under Apply calls with torn writes, a changed target means that all steps before its own are complete |
| `PlanTheorems.AtomicInOrder` | update-plan.go:660-714 | The same in both directions, for all-or-nothing operations |
| `PlanTheorems.CommitOrder` | update-plan.go:323-334 | Once a target of a step has changed, every target of every earlier step holds its new content: in every state of Apply calls under any faults, and of any calls with all-or-nothing operations |
| `PlanTheorems.RevertedInOrder` | update-plan.go:425-444 | After a nil Revert, under any faults, a changed target means that all earlier steps are complete, if and only if no incomplete step had left a change outside the removed directories |
| `UpdatePlans.UpdatePlan.constructor` | update-plan.go:44-58 | A new plan has no completed step, and its history is the start of a run |
| `UpdatePlans.UpdatePlan.Execute` | update-plan.go:399-444 | Run and Revert ask storage for exactly the step's operations, up to the first that fails, and flip its completed flag if and only if none does |
| `UpdatePlans.UpdatePlan.GoStep` | update-plan.go:660-690 | Starting a copy step, while others finish in any order, is a part of a run and never has more goroutines in flight than the limit |
| `UpdatePlans.UpdatePlan.SyncNext` | update-plan.go:692-714 | A synchronous step waits for the group, returns its error, and otherwise executes; it returns an error only when a step of the group or an operation has failed |
| `UpdatePlans.UpdatePlan.RunSteps` | update-plan.go:644-720 | The loop, forward and backward, is a run of the transition system and ends with the outcome it reports: nil if and only if no operation has failed |
| `UpdatePlans.UpdatePlan.Apply` | update-plan.go:60-70 | It returns nil if and only if no storage operation that it performs fails; then all steps are complete, and the files are those of one uninterrupted run exactly when the files before agreed with the completed steps; they do when no revert has torn files |
| `UpdatePlans.UpdatePlan.Revert` | update-plan.go:181-189 | Refused without effect when all steps are complete; otherwise it returns nil if and only if no storage operation that it performs fails; then no step is complete, and, under any faults, the files are the original ones exactly when nothing was left behind |
| `UpdatePlans.UpdatePlan.Reload` | update-plan.go:210-259 | Saving and loading keeps the flags of completed steps and loses concurrency, and the result is still a state of the same run |
| `UpdatePlans.ObjectStore.PerformAll` | update-plan.go:399-444 | An action asks storage for its operations in order, for all of them or up to the first that fails |
| `TornRuns.RunToEnd` | update-plan.go:644-720 | From any state of a sequential call there is a run in which it returns nil |
| `TornRuns.TornRunSpoilsRevert` | update-plan.go:91-103 | For every step that writes one file outside the removed directories and any torn content, some run tears that file, reverts with a nil result, and leaves the torn file |
| `TornRuns.TornRevertSpoilsApply` | update-plan.go:432-440 | For every step that writes one file and is followed by a step that can fail, some run tears the file in a failing revert (or removes it, when the revert is a removal), and the next Apply returns nil and leaves it so |
| `Crashes.LivesAreResumed` | update-plan.go:210-259 | However processes die inside calls and others load flags of an earlier state, with anything left of what was in progress, each process works on from flags of a possible shape |
| `Crashes.ApplyAfterCrashes` | update-plan.go:22-28 | In any such process, a nil Apply leaves the files of one uninterrupted run if and only if before the call they agreed with the flags, targets of remaining steps excepted |
| `Crashes.RevertAfterCrashes` | update-plan.go:22-28 | In any such process, a nil Revert restores the object if and only if before the call every path that no completed step restores was original |
| `Crashes.StaleFlagsSpoilRevert` | update-plan.go:91-103 | For every step that changes a path there is a process that dies after it without a fault, and one that loads the flags as they were first saved and whose nil Revert leaves the change |
| `Siblings.SiblingsAreTried` | update-plan.go:660-690 | When a call of Apply or Revert returns the error of the group, every content step that it left undone was itself executed in that call, and failed |
| `Siblings.SiblingRunsOn` | update-plan.go:665-669 | For every plan with two content steps there is a run in which the second starts, and succeeds, after the first has failed |
| `PlanSteps.NewPlanSteps` | update-plan.go:261-337 | Errors exactly for a different id, a spec 1.0 after 1.1 or no spec, or a head that is not the next; otherwise the steps are a function of the inventories, whatever the order of map iteration |
| `PlanSteps.PrepareSteps` | update-plan.go:240-259 | Loading succeeds only when the saved names and digests are those of the rebuilt steps, always does for a plan made from the same valid inventories, and fails only for an error in the inventories or a different step |
| `PlanSteps.OnePlan` | update-plan.go:341-361 | Two plans for the same inventories have equal steps, whatever their content sources |
| `PlanSoundness.PlanTargetsDisjoint` | update-plan.go:462-641 | No two steps of a built plan write or remove the same path |
| `PlanSoundness.PlanUndoes` | update-plan.go:288-641 | Reverting a step of a built plan puts back what the original object has at its targets, and touches no target of an earlier step |
| `PlanSoundness.PlanIsWellFormed` | update-plan.go:261-337 | Every plan for a next inventory is well formed for the original object, so all theorems on plans apply to it |
| `PlanSoundness.SavedPlanTells` | update-plan.go:343-361 | Plans with equal names and digests are for the same version, the same new files with the same digests, and the same algorithm |
| `PlanSoundness.ConcurrentSteps` | update-plan.go:503-531 | Exactly the copy steps may run concurrently, one for each new file with its digest |
| `ObjectUpdates.BuiltContentIsGood` | inventory.go:493-510 | New content of a built inventory is in the new version directory, distinct, and never an inventory file or sidecar |
| `ObjectUpdates.UpdateCommitOrder` | update-plan.go:323-334 | OCFL 1.1, 3.6 and 3.7: when the root inventory has changed, all new content, the version's inventory and sidecar are in place; the root sidecar changes only after the root inventory; under Apply calls with any faults, and any calls with all-or-nothing operations |
| `ObjectUpdates.RevertedCommitOrder` | update-plan.go:566-590 | After a nil Revert of a later version, under any faults, that holds of the root inventory if and only if no incomplete commit had left it changed |
| `ObjectUpdates.AfterRevert` | update-plan.go:425-444 | After a nil Revert of a later version, under any faults, all new files are gone, and the root inventory is the original one exactly when no incomplete commit had left it changed |
| `ObjectUpdates.FullRunIsUpdated` | update-plan.go:462-641 | A completed update has all new files, root inventory, sidecar and declaration, has removed the old declaration and sidecar if they differ, and has changed nothing else |
| `ObjectUpdates.WrittenFiles` | inventory.go:271-278 | The literal names and contents after a complete update: inventory.json and its sidecar, with digest, space and file name, in the root and in the version directory, and each new file with the content of its digest |
| `ObjectUpdates.WrittenDeclaration` | namaste.go:58-71 | The literal declaration, 0=ocfl_object_1.1 with ocfl_object_1.1 and a newline, or the same for 1.0, is written for a first version or another spec; the old one is gone |
| `ObjectUpdates.FirstUpdateReverts` | update-plan.go:297-303 | A nil Revert of a first version leaves the empty object after any torn writes and removals |
| `ObjectUpdates.UpdateReverts` | update-plan.go:425-444 | With all-or-nothing operations and an unchanged algorithm, a nil Revert restores the original files, whatever was called before |
| `ObjectUpdates.TornUpdateReverts` | update-plan.go:425-444 | Under any faults, a nil Revert of a later version restores the object if and only if no incomplete step has left a changed declaration, root inventory or root sidecar |
| `ObjectUpdates.TornInventoryStays` | update-plan.go:566-590 | For every update of an existing object and any torn content there is a run that ends in a nil Revert with a torn root inventory and without the new files |
| `ObjectUpdates.TornRevertStays` | update-plan.go:432-440 | For every update there is a run in which a failed revert tears the root inventory (removes it, in a first version) and the next Apply returns nil and leaves it so |
| `ObjectUpdates.StaleContentStays` | update-plan.go:210-259 | For every new file of every update there are two processes, without any fault, of which the second loads the plan as first saved, and its nil Revert leaves the file |
| `ObjectUpdates.SweptIsVersion` | update-plan.go:310-322 | In an update of an existing object, reverts remove exactly what is in the new version directory |
| `Objects.UpdateStoresContent` | update-plan.go:503-531 | After an update every file of the new manifest is stored with the content of its digest: old files untouched, new files copied |
| `Objects.UpdateStoresRoot` | update-plan.go:534-641 | After an update the root inventory, its sidecar and the only declaration are those of the new inventory, and no later version directory exists |
| `Objects.RootFiles` | namaste.go:58-71 | What the root of an object with a given inventory holds, by literal names and contents: inventory, sidecar, and one declaration, that of its spec |
| `Objects.AllUpdatesStored` | object.go:97-171 | After any number of updates, each built from the inventory before it, all content of the last inventory is stored, and the root files are its own |
| `Objects.EarlierVersionsStay` | object.go:97-171 | After any number of updates every earlier version directory still holds its own inventory and sidecar |
| `Objects.UpdatesKeepHistory` | ocflv1.go:630-664 | Comparing the inventories of any two versions of an updated object raises neither E046 nor W011, and E066 exactly for versions with an empty digest |
| `Objects.Object.NewUpdatePlan` | object.go:138-171 | A plan is made exactly when the next inventory is valid, its spec is not lower and the state is new or may be unchanged; the next inventory has the id, the wanted spec, the new state, message, user and time under the next number, and all other versions as they were; from a good inventory it is a plan to which all theorems on updates apply |
| `Objects.Object.MayPlanIf` | object.go:138-171 | From a good inventory, or none, a well-formed version is refused exactly for conflicts that nothing masks, for an unchanged state, or for spec 1.0 after 1.1 |
| `Objects.Object.HasState` | object.go:158-163 | The check for an unchanged state is true exactly when current and staged state have the same normal form |
| `Objects.PlannedVersion` | object.go:141-171 | Whatever passes validation after the build was a suitable version of a well-built inventory, if its new paths have no conflicts |
| `Objects.Object.ApplyUpdatePlan` | object.go:94-118 | A plan for another object, another inventory or a read-only object has no effect; any other returns nil if and only if no storage operation fails, and then makes its inventory current, with the files of the update exactly when the files before agreed with the completed steps; failure keeps the current inventory |
| `Attempts.AttemptOutcome` | object.go:94-118 | An attempt at an update, over any deaths and any faults, leaves the files of the complete update, or those from before it when it is given up, if and only if the files agreed with its flags before the last call |
| `Attempts.AttemptsLeaveNoTrace` | object.go:94-171 | After any number of such attempts the applied ones form a chain of complete updates, and the files are those that the last of them leaves |
| `Attempts.AttemptsAreStored` | object.go:94-171 | Then all content of the last applied inventory is stored, with its root files, and nothing is stored if none was applied |
| `Attempts.WithoutTears` | update-plan.go:22-28 | Attempts meet the condition whenever no operation tears: when they are applied, or given up with an unchanged algorithm |
| `Attempts.FirstVersionIsClean` | update-plan.go:297-303 | And so does every attempt at a first version that is given up, whatever tore |
| `Pipeline.StepKeepsProtocol` | internal/pipeline/pipeline.go:42-99 | Every step keeps the channel protocol: bounded queue, closed only after all workers have exited, cancelled only by the consumer |
| `Pipeline.StepConserves` | internal/pipeline/pipeline.go:42-99 | No step loses, duplicates or invents an input: unsent, held, queued, yielded, skipped and drained ones add up |
| `Pipeline.RunInvariant` | internal/pipeline/pipeline.go:42-99 | Protocol, conservation and correct outputs hold in every reachable state |
| `Pipeline.NoSendOnClosed` | internal/pipeline/pipeline.go:62-93 | In every reachable state, no send on a closed channel, no second close of one, and no yield after yield has returned false |
| `Pipeline.NoDeadlock` | internal/pipeline/pipeline.go:52-98 | A reachable state has an enabled step if and only if the consumer has not returned |
| `Pipeline.RunIsBounded` | internal/pipeline/pipeline.go:52-98 | Every schedule, with cancellation at any time, ends within a number of steps that is linear in inputs and workers |
| `Pipeline.Finished` | internal/pipeline/pipeline.go:55-98 | When results returns, feeder and workers are finished; without cancellation each input's result was yielded exactly once, with the right output |
| `Pipeline.YieldedOnlyGrows` | internal/pipeline/pipeline.go:93-98 | Yielded results are only added to, and none is added once yield has returned false |
| `Pipeline.StoppedByAnswer` | internal/pipeline/pipeline.go:93-98 | The consumer stops if and only if yield has returned false, and there is one yielded result for each return of yield |
| `Pipeline.ResultsInOrder` | internal/pipeline/pipeline.go:69-98 | Results are yielded, and later drained, in the order in which workers have put them in the channel |
| `Pipeline.Results` | internal/pipeline/pipeline.go:42-99 | Under an arbitrary schedule, a run of the transition system with the asked or default number of workers: correct outputs, none more often than its input, all of them unless stopped; stopped exactly when the answer to the last yielded result was no, every earlier answer having been yes |
| `VNums.Parse` | vnum.go:43-74 | Accepts exactly 'v' and decimal digits of a positive number that fits in an int; the result is valid and prints as what was parsed |
| `VNums.ParseOfString` | vnum.go:121-134 | The printed form of a valid number parses back to its number and padding |
| `VNums.StringInjective` | vnum.go:121-125 | Valid version numbers with the same printed form are equal |
| `VNums.PrintedForms` | vnum.go:121-125 | Literal printed forms, and the end of a padded sequence |
| `VNums.SortedLineage` | vnum.go:141-151 | A sequence sorted by number that rearranges a lineage is that lineage |
| `VNums.ValidSequence` | vnum.go:175-195 | Accepts exactly the rearrangements of 1..head with one padding that is wide enough, and leaves them sorted |
| `Strings.SortedUnique` | digestmap.go:296-306 | A sorted sequence is determined by its elements, so any order of map iteration gives the same sorted paths |
| `Strings.ValidPathMeans` | digestmap.go:269-275 | A path is valid exactly when no name between its slashes is empty, a dot or two dots |
| `PathChecks.ValidPaths` | digestmap.go:241-266 | Reports no error exactly when all paths are valid and sorted neighbours do not conflict; every error names a path that is really invalid, repeated, or above another path |
| `PathChecks.AcceptsExactly` | digestmap.go:241-266 | Accepted are exactly valid, distinct paths in which every conflict is masked by a third path continuing the first with a byte below '/' |
| `PathChecks.AcceptsFindsConflicts` | digestmap.go:241-266 | Without bytes below '/' acceptance means valid, distinct and free of conflicts |
| `PathChecks.MissedConflict` | digestmap.go:249-264 | The conflict of a with a/b is missed when a.txt is also there: it is masked |
| `DigestMaps.ValidDigests` | digestmap.go:221-239 | The shortcut for maps in one letter case gives the answer of the full check: no two digests differ only in case |
| `DigestMaps.Valid` | digestmap.go:188-200 | Valid exactly without digest conflicts and empty lists, with paths distinct over the whole map and accepted |
| `DigestMaps.Normalize` | digestmap.go:141-155 | Succeeds exactly on valid maps, with lower-case digests and sorted paths |
| `DigestMaps.NormValid` | digestmap.go:141-155 | A normal form is valid, in lower case, and its own normal form |
| `DigestMaps.LowerCase` | digestmap.go:141-155 | A literal digest in lower case |
| `DigestMaps.Eq` | digestmap.go:37-67 | Computes equal sizes, a valid argument, and for each digest of the receiver the same sorted paths |
| `DigestMaps.MatchedIsNorm` | digestmap.go:52-66 | By counting, matching all digests of one map in another of the same size makes their normal forms equal |
| `DigestMaps.EqMeaning` | digestmap.go:37-67 | For receivers without digest conflicts, true exactly for two valid maps with the same normal form |
| `DigestMaps.EqEquivalence` | digestmap.go:37-67 | An equivalence on valid maps |
| `DigestConflicts.ConflictIsWrong` | digestmap.go:37-67 | Whenever it is true for a receiver with a digest conflict, the argument has a path that the receiver does not have |
| `DigestConflicts.EqWithConflict` | digestmap.go:37-40 | It is true of some argument for the receiver with AB and ab both listing x |
| `DigestConflicts.ConflictingReceiver` | digestmap.go:37-67 | For a receiver with a digest conflict, some argument makes it true if and only if all spellings of a digest list the same paths, different digests different ones, no list is empty, and all paths are valid |
| `Stages.PathMapOf` | digestmap.go:166-172 | All paths of the map, each with a digest that the map has for it |
| `Stages.PathMapUnique` | digestmap.go:166-186 | When paths are distinct the path map does not depend on the order of iteration |
| `Stages.DigestMapOf` | digestmap.go:284-292 | The digest map of a path map has distinct paths, no empty lists, and the given path map as its own |
| `Stages.Merge` | digestmap.go:83-125 | Succeeds exactly for valid maps that agree where they overlap (or with replace) and whose union of paths is accepted; the result is valid, with the first map's paths overridden by the second's |
| `Stages.AddSourceContent` | stage.go:166-183 | Combined sources give what the first has and otherwise what the second has |
| `Stages.Stage.Overlay` | stage.go:139-164 | Succeeds if and only if the algorithm is known, the state is valid, and each stage in turn has the same algorithm, is valid and has paths that are accepted with those before; then the state is the left fold of the stages over it, with content for every digest if and only if among all sources there is some for the lower-case digest of every path that is left |
| `Stages.LastStageWins` | stage.go:148-157 | After an overlay a path has the digest that the last stage with this path gives it |
| `Stages.OtherPathsStay` | stage.go:148-157 | A path that no stage has keeps its digest |
| `Stages.MergedContent` | stage.go:139-183 | After an overlay there is content for every digest if and only if one of the two sources has some for the lower-case form of each digest that survives |
| `Stages.OtherCaseIsLost` | stage.go:139-183 | A stage with content for a digest that is not in lower case has none for it after it was laid over an empty stage |
| `Stages.OnePathMerges` | digestmap.go:83-125 | Such an overlay succeeds |
| `Inventories.Validate` | ocflv1.go:33-234 | No fatal error exactly when id, spec, algorithm, head and content directory are valid, versions are 1..head, states are valid and in the manifest, and all of the manifest is used |
| `Inventories.ValidityMeans` | ocflv1.go:33-234 | What the verdict means, spelled out: versions 1..head with head's padding, content for every digest of a state, all content in use, times and user names present |
| `Inventories.VersionsValid` | ocflv1.go:119-155 | The version keys are valid, with head as the last, exactly when they are 1..head with head's padding |
| `Inventories.FillManifest` | inventory.go:505-510 | For any order of iteration, digests without content get one content path for each logical path, in order, and all others keep theirs |
| `BuiltInventories.ContentPathIs` | inventory.go:483-504 | A content path is the version, the content directory or else the word content, and the logical path |
| `Inventories.InventoryBuilder.InitialInventory` | inventory.go:407-454 | Starts from nothing, or from the previous inventory with manifest and states in normal form and all else as it was |
| `Inventories.InventoryBuilder.BuildVersions` | inventory.go:456-513 | Adds all versions or fails, as the recursive specification does; the k-th one gets the k-th number after the head, its state in normal form, its message and user, and its time, or that of the build, in whole seconds; other versions stay |
| `Inventories.InventoryBuilder.Finalize` | inventory.go:362-376 | Succeeds exactly when the build does and the built inventory is valid; it has the builder's id, spec and content directory, each added version under its number with the state, message, user and time given, the last as its head, and every version of the previous inventory as it was |
| `Inventories.VersionsAdded` | inventory.go:456-513 | The same for the recursive specification, from any inventory |
| `BuiltInventories.AddKeepsWellBuilt` | inventory.go:456-513 | A suitable version, without conflicts among its new paths, can always be added, and the inventory stays well built: 1..head, states covered, manifest used, content conflict-free and under its version's directory |
| `BuiltInventories.NormalIsWellBuilt` | inventory.go:420-444 | The normal form of a good inventory is well built |
| `BuiltInventories.BuildSucceeds` | inventory.go:456-513 | Any number of suitable versions can be added to a well-built inventory |
| `BuiltInventories.FinalizeSucceeds` | inventory.go:362-376 | From nothing or a good inventory, Finalize with suitable versions succeeds with a good inventory |
| `BuiltInventories.NewConflictFree` | inventory.go:499-510 | The new manifest has no conflicting paths if and only if the logical paths that get new content have none |
| `BuiltInventories.NewAccepted` | inventory.go:499-510 | The path check accepts the new manifest if and only if each conflict of such paths is masked by another such path |
| `BuiltInventories.AddIsValid` | inventory.go:362-376 | Adding a version to a well-built inventory gives a valid one if and only if conflicts of new paths are masked by new paths, and one without conflicting files if and only if there are none |
| `BuiltInventories.FirstVersionIsValid` | inventory.go:362-376 | In a new object every valid state passes validation, with conflicting files exactly when its logical paths conflict |
| `BuiltInventories.MaskedState` | digestmap.go:241-266 | There are such states |
| `BuiltInventories.OldMask` | inventory.go:505-510 | A valid state is refused when the path that masks a conflict has content already |
| `BuiltInventories.VersionContent` | inventory.go:112-123 | The manifest's paths in the version's directory, with a digest of each |
| `BuiltInventories.ContentIsWhatIsNew` | inventory.go:505-510 | The content to copy is exactly the content paths of logical paths whose digest is in the new state and not in the old manifest |
| `BuiltInventories.SortedPaths` | digestmap.go:294-306 | All entries in the order of their paths |
| `BuiltInventories.ListingUnique` | digestmap.go:294-306 | A path map has one sorted listing |
| `History.DigestFor` | digestmap.go:69-81 | Finds a digest of the path, and reports none exactly when there is none but the empty one |
| `History.ForwardMatch` | ocflv1.go:732-762 | True exactly when both states have the same logical paths and each keeps all of its content paths |
| `History.ForwardMatchMeaning` | ocflv1.go:732-762 | Valid states match if and only if they have as many digests and the same logical paths, no path has lost content, and no digest is empty |
| `History.ForwardMatchReflexive` | ocflv1.go:732-762 | A valid state matches itself if and only if none of its digests is empty |
| `History.ForwardMatchTransitive` | ocflv1.go:732-762 | Matching is transitive over states with distinct paths |
| `History.CompareVersions` | ocflv1.go:630-664 | For two valid inventories E046 is raised exactly for a missing version, E066 for a version whose state with its manifest does not match, W011 for one with another message, user or time |
| `History.NormalCarries` | inventory.go:420-444 | Normalizing carries all versions over in normal form, with all of their content |
| `History.BuildCarries` | inventory.go:456-513 | Adding any number of versions carries all earlier ones over, with all of their content |
| `History.CarriedMatches` | ocflv1.go:732-762 | A version that was carried over matches if and only if its state has no empty digest |
| `History.FinalizePreserves` | inventory.go:362-376 | A successful Finalize preserves every version of the inventory it started from if and only if none of them has an empty digest |
| `History.HistoryIsPreserved` | inventory.go:407-513 | Along any chain of successful builds an inventory preserves all versions of an earlier one if and only if that has no empty digests |
| `History.HistoryCompares` | ocflv1.go:630-664 | Along any chain of successful builds, comparing an earlier inventory with a later one raises neither E046 nor W011, and E066 exactly for versions with an empty digest |
| `LogicalFS.OpenDir` | internal/logical-fs/fs.go:79-124 | An error exactly when nothing is below the directory; otherwise its sorted listing, one entry for each name |
| `LogicalFS.Open` | internal/logical-fs/fs.go:44-77 | Invalid names are errors, names with a target are files, others are directories if anything is below them |
| `LogicalFS.KindIsDetermined` | internal/logical-fs/fs.go:85-103 | Whether an entry is a file or a directory does not depend on the order of the names |
| `LogicalFS.ListingUnique` | internal/logical-fs/fs.go:79-124 | A directory of good names has one listing |
| `LogicalFS.WalkAll` | internal/logical-fs/fs.go:44-124 | Walking from "." gives exactly the logical names, each once |
| `LogicalFS.DirFile.ReadDir` | internal/logical-fs/fs.go:158-173 | Pages follow one another without gap or overlap, and the end is reported only when everything was delivered |
| `LogicalFS.ReadPages` | internal/logical-fs/fs.go:158-173 | Any sequence of paged reads gives a prefix of the listing, and all of it when the end is reported |
| `S3File.S3File.Read` | fs/s3/s3.go:333-359 | Gives the stored bytes at the cursor and moves past them; EOF only at or after the end; an open body always stands at the cursor; before the end it asks for the object if no body is open, reads the body once, and returns its error or that of the request |
| `S3File.S3File.Seek` | fs/s3/s3.go:372-398 | Moves the cursor to the meant position if it is a 64-bit position, and otherwise fails and leaves it |
| `Int64.WrapIsSafe` | fs/s3/s3.go:375-390 | A 64-bit sum with a position never wraps around to another position |
| `S3File.ReadToEnd` | fs/s3/s3.go:333-398 | A seek and any reads, short or not, give consecutive stored bytes from there, all of them when EOF is reported |
| `Multipart.AdjustPartSize` | fs/s3/s3.go:438-453 | The part size is the first of initial, initial + 1 MiB, ... for which the 32-bit quotient is below maxParts, and the count is that quotient and one more for a remainder; or it exceeds 64 bits before, exactly then it is negative. There are at most maxParts parts and never too many, and the count is right if and only if no quotient is misread |
| `Multipart.OverflowIsOnePart` | fs/s3/s3.go:440-448 | The part size exceeds 64 bits only when at most one part is allowed |
| `Multipart.OverflowHappens` | fs/s3/s3.go:440-448 | And then it does, for the largest size in a part of the largest size |
| `Multipart.StopIsRight` | fs/s3/s3.go:442-448 | The loop stops at a true quotient exactly when no quotient is misread |
| `Multipart.SmallQuotient` | fs/s3/s3.go:442-448 | Nothing is misread when the first quotient fits in 32 bits |
| `Multipart.TruncationHappens` | fs/s3/multicopy.go:63-69 | 20 PiB in parts of 5 MiB, which a copy accepts, are copied in no part |
| `Multipart.RangesTile` | fs/s3/s3.go:455-467 | Ranges are not empty, begin at 0, follow one another, and end at the last byte |
| `Multipart.RangeFits` | fs/s3/s3.go:455-467 | In 64-bit arithmetic the end of a range is right, or negative, exactly when it does not fit |
| `Multipart.ByteInOnePart` | fs/s3/s3.go:455-467 | Every byte is in the range of exactly one part |
| `Multipart.CopyParts` | fs/s3/multicopy.go:101-128 | Parts copied in any order fill their slots; it fails exactly when the request for a part fails or its range does not fit in 64 bits; the assembled upload is the beginning of the source, of this many parts, and all of it exactly when there are enough parts |
| `Multipart.PartsAssemble` | fs/s3/multicopy.go:101-128 | Slots that hold the ranges of the first parts assemble to the beginning of the source, and to all of it exactly when no part is missing |
| `Multipart.Copy` | fs/s3/multicopy.go:45-130 | With 32 MiB for part sizes below 5 MiB, and 10000 parts, a copy succeeds exactly when all requests do, all ranges fit in 64 bits and the count is not negative; it then equals the source if and only if no quotient was misread, and is otherwise its beginning, of the counted parts |
| `Multipart.LargestObject` | fs/s3/multicopy.go:63-69 | Nothing is misread for objects up to S3's limit of 5 TiB |
| `Layout0003.FillBuffer` | extension/0003_layout_hash_id_tuple.go:91-104 | The buffer is filled exactly to its end, with the encoded id |
| `Layout0003.PercentEncode` | extension/0003_layout_hash_id_tuple.go:75-105 | Gives the encoding, also by the shortcut for ids without escaped bytes |
| `Layout0003.EncodedBytes` | extension/0003_layout_hash_id_tuple.go:75-105 | Byte by byte: letters, digits, dash and underscore stay, any other byte becomes a percent sign and two lower-case hex digits |
| `Layout0003.DecodeEncoded` | extension/0003_layout_hash_id_tuple.go:75-105 | Decoding is the inverse of encoding on every byte string |
| `Layout0003.EncodedHasNoSlash` | extension/0003_layout_hash_id_tuple.go:75-105 | An encoded id has no slash |
| `Layout0003.Resolve` | extension/0003_layout_hash_id_tuple.go:55-73 | Fails exactly when the check refuses the configuration, panics exactly when it accepts one whose tuples are negative or do not fit in the hash, and otherwise gives a path whose tuples take the characters of the hash from its beginning on, a slash after each, and then the encoded id, or its first 100 bytes, a dash and the hash |
| `Layout0003.HexCharacters` | extension/0003_layout_hash_id_tuple.go:61-61 | Two lower-case hex digits for each byte of the digest |
| `Layout0003.ValidIsAccepted` | extension/0003_layout_hash_id_tuple.go:36-53 | Among configurations whose tuples fit in the hash, the check accepts exactly those with both parameters zero or both positive |
| `Layout0003.OverflowIsAccepted` | extension/0003_layout_hash_id_tuple.go:47-50 | Four tuples of 2^62 characters are accepted, because the product wraps around to 0 |
| `Layout0003.SameLastName` | extension/0003_layout_hash_id_tuple.go:67-71 | Two last names are equal exactly when the ids are, or both are in the long form, with the same beginning and the same hash; the two forms never coincide |
| `Layout0003.SamePath` | extension/0003_layout_hash_id_tuple.go:55-73 | For every configuration whose tuples fit, two ids have the same path if and only if they are equal, or both are encoded in more than 100 bytes that begin alike, and have the same hash |
| `Layout0003.PathsInjective` | extension/0003_layout_hash_id_tuple.go:55-73 | Among ids whose hashes do not collide, different ids have different paths |
| `Layout0003.PathsNotNested` | extension/0003_layout_hash_id_tuple.go:55-73 | No object's path is inside another object's directory, for every hash function whose results have one length |

## Left out

- PlanTheorems.CommitOrder: with torn writes, or with the two-operation sidecar of a changed algorithm, it is stated for Apply calls and after a Revert that returns nil (`PlanTheorems.RevertedInOrder`), not for the states inside a Revert or after one that fails.
- PlanTheorems.ApplyConverges: is the case without torn reverts of `PlanTheorems.ApplyOutcome`, which covers all faults.
- ObjectUpdates.UpdateReverts: assumes an unchanged digest algorithm, which the builder guarantees (`inventory.go:470-472`); with a changed one the sidecar step is two operations, and `TornUpdateReverts` applies.
- History.CompareVersions: the comparisons of head, id and content directory before the version loop only compare fields, and are not part of it.
- Stages.Stage.Overlay: stages are values here, so overlaying a stage on itself (aliasing), and fixity sources, are not captured; a source without an entry gives no content, and errors on reading content are not part of it.
- DigestMaps.Eq: the receiver's path lists are values; that the code sorts them in place is not captured.
- PlanSteps.NewPlanSteps: comparing two empty specs panics in the code and is an error here; no valid inventory has an empty spec.
- PlanSteps.PrepareSteps: works on values; that the flags of the saved plan are kept while actions are replaced is `UpdatePlans.UpdatePlan.Reload`.
- UpdatePlans.UpdatePlan.Reload: loads a plan with its current flags, between calls; earlier flags, and deaths inside a call, are in `Crashes`.
- Multipart.Copy: a negative part count, which panics in the code, is a copy that fails; that the service refuses a range with a negative end is assumed, and which requests succeed is a parameter.
- Multipart.AdjustPartSize: the division by zero for a part size that wraps around to 0 cannot occur, because it grows in steps of 1 MiB from a positive size below 2^63; for an initial size that is not positive nothing is stated, and no caller passes one.
- S3File.S3File.Read: Close, and reads after it, are not part of this model; nor is an object that changes while it is read, which the request excludes by its preconditions.
- Layout0003.Resolve: a list of tuples that is too large to allocate is not told apart from one that does not fit in the hash; both panic. The hash is any function on byte strings; that its results have one length is assumed where stated, and which algorithms exist is not part of it.
- VNums.Valid: numbers are not bounded and padding is not negative; `math.Pow10` converted to int, which differs for paddings above 19, is not captured.
- Inventories.Validate: one verdict instead of error codes and warnings; fixity blocks, nil maps (taken as empty) and missing version blocks are not part of it.
- Inventories.InventoryBuilder.Finalize: no user-supplied content path function, no fixity, times as numbers of nanoseconds; a content directory that `path.Join` would clean away is rejected by validation anyway.
- Error texts, sizes and log output of steps; contexts and cancellation from outside.
- JSON and gob encodings, hash functions, HTTP and S3 requests: a stored inventory is an inventory with its bytes and digest, and a content source is a function from digests to bytes. A source without some content is a copy that fails.
- Empty directories: the store maps file paths to bytes.
- Unicode letter case and UTF-8 validity: digests and paths are sequences of characters with ASCII case.
- Drafts of OCFL versions: specs are 1.0 and 1.1.
- Building a stage from the files of a directory (`stage.go:80-127`), which collects one list of paths for each digest, and opening and reading objects.
- Validation of objects on storage beyond inventories, namaste parsing, registries and other layouts: branch-by-branch checks.
