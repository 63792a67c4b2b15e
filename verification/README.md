# Protocols and algorithms of the Intrinsic platform, modelled and proved in Dafny

The project models the parts of the repository that are hardest to get right and proves what they promise.

**Model reconciliation** (`ModelController`, `ModelProtocol`, `ModelInvariants`, `ModelSafety`, `ModelAssets`, `ModelConvergence`,
`ModelProgress`, `ModelWitnesses`, `VersionOrder`, `VersionTexts`). The inference controller takes a snapshot of its models under one lock, computes a diff
outside it, re-checks states under it, and hands loads, reloads and unloads to worker threads. `ModelController` holds the
controller and the operation guard as classes with the source's dictionaries and loops, each method proved against the
functions that `ModelProtocol` uses as the steps of a system: every interleaving of reconciliations, worker steps, `start`
and `stop`, with every outcome of a remote call. Proved of all runs: one outstanding operation per model and never two, no
overlapping asset calls, a READY model's files on disk and what the backend serves are those of its version, which names
can get stuck, what a round of succeeding operations converges to and exactly when, and that a round always ends. The order
of versions is described by the version texts alone.

**Halton sequences** (`NumberTheory`, `HaltonSequence`, `QuasiRandom`). The loop is a digit reversal; it never repeats;
each interval of a base gets one of any base-power many consecutive values; with coprime bases each box gets one of the
corresponding number of consecutive points (Chinese remainder theorem), and so do the quasi-random vectors between limits.
Arithmetic is exact.

**The conductor** (`ConductorLocks`, `ConductorSafety`, `ConductorCalls`, `PauseDiscipline`, `ConductorTraces`,
`ConductorWorlds`, `WorldComposition`, `Retry`, `SaveMonitor`). Its two locks and one background operation as a thread system
without circular waits, and what each call about the operation has brought about when it goes on or returns; pausing and resuming
the world updater as a discipline that every error path follows, with the updater's other clients, the simulation
service and the executive, pausing and resuming it meanwhile; composing worlds through a temporary world; retries with
capped doubling; the save monitor's cached world keyed by revision token, with the resource set and the worlds changing
between its steps.

**World trees** (`EntityIds`, `AttachmentForest`, `WorldDelete`, `ChainWalk`). Deleting subtrees in place and walking a kinematic chain,
with termination from the depth of the attachment tree.

**Entity access specs** (`AccessSpecs`), and two small concurrent protocols (`CyclicRunner`, `SyncCache`).

Remote calls are parameters: their outcome is arbitrary and their effect the documented one. A world's or model asset's
content is only compared and copied, so a number or string stands for it. Concurrent code is modelled as a step system:
`Enabled` says which steps are possible, `Apply` what they do, `Reachable` which states runs lead to.

Where the code and its documentation disagree the model follows the code:

- `model_controller_base.py` says that a failed load is not attempted again until its configuration changes (lines
  242-243). A load that fails between snapshot and mark is attempted again at once
  (`ModelSafety.UnchangedFailureRetried`; exactly when: `ModelSafety.RetriedIffFailureMissedSnapshot`), and a model whose
  reload failed is neither reloaded nor unloaded any more, whatever its configuration (`ModelSafety.StuckForever`; exactly
  which: `ModelSafety.StuckOnlyByFailedReload`; a run: `ModelWitnesses.StuckReachable`). Such a model keeps a round of
  succeeding tasks from converging (`ModelWitnesses.BlockedRound`).
- `retry.h` says that the delay doubles for every further attempt up to the maximum. The shift stops at 62, which shows for
  some policies (exactly which: `Retry.BackoffIsIdealIff`; one: `Retry.CapShows`).
- `conductor.cc` says that it pauses the world updater until the new world is composed (lines 666-668). Other clients
  resume the same updater: the simulation service does while the conductor resets it and still owes its own resume
  (`ConductorTraces.SimulationResetResumes`). When the updater is paused all the same is stated exactly
  (`PauseDiscipline.HeldIsPausedIff`, `PauseDiscipline.ClonedWhilePausedIff`).
- `random_number_utils.cc` guards against a seed that has wrapped around. The largest seed already wraps inside
  `HaltonSequence`, which then returns 0, so its vectors lie on the lower limits; that is the only seed with this effect
  (`QuasiRandom.GetQuasiRandomVector`, taking the overflow to wrap as the comment there does).
- `cyclic_runner.h` promises the task every period. Timers are a period apart, task calls can be closer
  (`CyclicRunner.CallsCanBeCloser`; exactly when: `CyclicRunner.NextCallAPeriodLaterIff`).
- `world_acl_spec.h` promises that specs without conflicting permissions pass `IsCompatibleWith`; the check sees conflicts
  only if no spec has a default that grants something (`AccessSpecs.CheckDecidesIff`).

## Model

| member | source | states |
|---|---|---|
| ModelController.Controller.MarkForReconciliation | intrinsic_inference/core/model_controller_base.py:366-414 | the three loops mark exactly the names whose decision, from the snapshot's diff and the state found under the lock, is a task, each once; all other entries stay |
| ModelController.Controller.MarkReloads | intrinsic_inference/core/model_controller_base.py:402-414 | the reload loop over a set in any order decides every name of the set and no other |
| ModelController.Controller.GetReconciliationDiff | intrinsic_inference/core/model_controller_base.py:229-272 | the loops compute the diff: FAILED names are loaded again only with a different proto, common names reloaded if protos differ |
| ModelController.Controller.FinishUnload | intrinsic_inference/core/model_controller_base.py:305-322 | both dictionaries drop the name, or FAILED is recorded and the model kept; other names stay |
| ModelController.Controller.FinishLoad | intrinsic_inference/core/model_controller_base.py:324-343 | READY with the loaded proto in both dictionaries, or FAILED with the proto in the states only; other names stay |
| ModelController.Controller.FinishReload | intrinsic_inference/core/model_controller_base.py:345-364 | the new proto replaces the old in both dictionaries, or FAILED is recorded and the old model kept; other names stay |
| ModelController.Controller.SubmitTask | intrinsic_inference/core/model_controller_base.py:116-124 | the executor there is, or a new one never used before if stop() took it; the new future is in flight |
| ModelController.Controller.ModelStates | intrinsic_inference/core/model_controller_base.py:160-168 | the names of both dictionaries; the recorded state where there is one, else READY with the loaded proto |
| ModelController.ModelOperationGuard.Enter | intrinsic_inference/core/model_assets_manager_base.py:40-52 | raises exactly if an operation on the name is in progress, else adds it |
| ModelController.DecideNext | intrinsic_inference/core/model_controller_base.py:373-414 | deciding one more name of a loop keeps the marked works the decisions for the names passed |
| ModelInvariants.ReachableInv | intrinsic_inference/core/model_controller_base.py:305-429 | the invariant of every reachable state: tasks, states, dictionaries, stale snapshots, guard and pool fit together |
| ModelInvariants.GuardNeverRaises | intrinsic_inference/core/model_assets_manager_base.py:40-55 | under the invariant the name of an asset call about to begin is never in progress |
| ModelSafety.ExactlyOneTask | intrinsic_inference/core/model_controller_base.py:305-429 | in every interleaving a name is LOADING, RELOADING or UNLOADING exactly while one task of that kind for it is pending, queued or running, and never two; the state has the proto of the task |
| ModelSafety.AssetCallsNeverOverlap | intrinsic_inference/core/model_assets_manager_base.py:69-73 | ConcurrentModelOperationError is never raised: no two asset calls for a name overlap |
| ModelSafety.UpdateReplacesLoadedVersion | intrinsic_inference/core/model_controller_base.py:171-227 | an asset update names the version that is loaded, a create a name that is not; when there is one at all: `ModelAssets.AssetCallIffNeeded` |
| ModelSafety.MarkedIff | intrinsic_inference/core/model_controller_base.py:229-272 | exactly when a reconciliation unloads, loads or reloads a name, with which proto, in terms of the listing, the snapshot and the states under the lock; unloads come before loads and loads before reloads |
| ModelAssets.ReadyIsServed | intrinsic_inference/core/model_controller_base.py:171-189 | in every reachable state a READY model has its files on disk, complete and of its version and data, and the backend serves it |
| ModelAssets.BackendHasFiles | intrinsic_inference/core/model_controller_base.py:171-227 | the backend is asked to load a model only while all files of its version and data are on disk, and to unload a loaded one while its files are still there |
| ModelAssets.AssetCallIffNeeded | intrinsic_inference/core/model_controller_base.py:171-189 | a load or reload calls the assets manager if and only if the files on disk are not already those of the new version and data; for a loaded name, if and only if version or data differ |
| ModelAssets.UnloadedIsGone | intrinsic_inference/core/model_controller_base.py:196-217 | a name without a state has no files and nothing in the backend, unless the last deletion or unloading of it failed |
| ModelSafety.MergedViewIsStates | intrinsic_inference/core/model_controller_base.py:160-168 | in every reachable state the merged view is the state dictionary; READY means both dictionaries hold the proto, LOADING that the name is not loaded, keys are names |
| ModelSafety.SubmitsToOpenExecutor | intrinsic_inference/core/model_controller_base.py:116-147 | no task goes to an executor that stop() has taken; no future in flight means no unfinished task |
| ModelSafety.StoppedForGood | intrinsic_inference/core/model_controller_base.py:108-140 | after stop() its executor is never used again in any run; start() makes another unless there is one |
| ModelSafety.StuckForever | intrinsic_inference/core/model_controller_base.py:373-414 | a name that is loaded and FAILED never changes again in any run |
| ModelSafety.StuckOnlyByFailedReload | intrinsic_inference/core/model_controller_base.py:345-364 | a step makes a name stuck if and only if it records the failed reload of a loaded model |
| ModelSafety.RetriedIffFailureMissedSnapshot | intrinsic_inference/core/model_controller_base.py:240-258 | an unchanged failed load is marked again if and only if the failure was recorded after the snapshot |
| ModelSafety.UnchangedFailureRetried | intrinsic_inference/core/model_controller_base.py:437-466 | a run in which that happens |
| ModelConvergence.RoundReaches | intrinsic_inference/core/model_controller_base.py:432-466 | any interleaving of a round of succeeding tasks reaches the same models |
| ModelConvergence.RoundConvergesIff | intrinsic_inference/core/model_controller_base.py:432-466 | that is the latest installed versions, except failures with the identical proto, if and only if no loaded name was FAILED with something else than is desired |
| ModelConvergence.NextDiffEmptyIff | intrinsic_inference/core/model_controller_base.py:229-272 | the next reconciliation finds nothing to do under exactly that condition |
| ModelProgress.StepShrinks | intrinsic_inference/core/model_controller_base.py:305-466 | every step but List, Start and Stop decreases a measure, so rounds terminate |
| ModelProgress.RoundCompletes | intrinsic_inference/core/model_controller_base.py:432-466 | from every reachable state a succeeding run to rest exists |
| ModelWitnesses.StuckReachable | intrinsic_inference/core/model_controller_base.py:345-364 | a run after which a name is loaded and FAILED at rest |
| ModelWitnesses.BlockedRound | intrinsic_inference/core/model_controller_base.py:432-466 | a round of succeeding tasks that does not converge and leaves the next reconciliation something to do |
| VersionOrder.SplitAlternates | intrinsic_inference/core/model_controller_base.py:32-46 | the version split alternates text and non-empty digit runs and begins and ends with text |
| VersionOrder.SplitJoins | intrinsic_inference/core/model_controller_base.py:32-46 | its parts concatenate back to the version |
| VersionOrder.KeysComparable | intrinsic_inference/core/model_controller_base.py:32-46 | numbers are only compared with numbers and text with text, for any two versions |
| VersionOrder.VersionLeTotalPreorder | intrinsic_inference/core/model_controller_base.py:32-46 | the sorting order is a total preorder whose ties are equal keys |
| VersionOrder.ComputeLatestVersions | intrinsic_inference/core/model_controller_base.py:274-303 | sort, group by name and take the last computes the specification function, which `VersionOrder.LatestIsLastMaximal` and `VersionTexts.NewerIsServed` describe |
| VersionOrder.LatestIsLastMaximal | intrinsic_inference/core/model_controller_base.py:274-303 | a model is served if and only if no version of its name is greater and no equal one is listed later |
| VersionOrder.ListingOrderIrrelevantIff | intrinsic_inference/core/model_controller_base.py:274-303 | the result is independent of the listing order if and only if no name has two latest models |
| VersionOrder.TieGoesToTheLaterListing | intrinsic_inference/core/model_controller_base.py:274-303 | versions 1 and 01 tie, so the later listed one wins |
| VersionTexts.NumbersDecide | intrinsic_inference/core/model_controller_base.py:32-46 | versions that agree up to two different numbers: the older one has the number that, without leading zeros, has fewer digits or as many and a smaller one where they first differ |
| VersionTexts.RestDecides | intrinsic_inference/core/model_controller_base.py:32-46 | if the two numbers differ in leading zeros only, what follows them decides |
| VersionTexts.TextsDecide | intrinsic_inference/core/model_controller_base.py:32-46 | versions that agree up to a character of text in the second: the first is older if it ends there, begins a number there or has a smaller character of text there |
| VersionTexts.ShorterIsOlder | intrinsic_inference/core/model_controller_base.py:32-46 | a version is older than the same text going on with a number |
| VersionTexts.NewerIsServed | intrinsic_inference/core/model_controller_base.py:274-303 | of two versions of a name the newer one is served, in either listing order |
| VersionTexts.TenIsNewerThanNine | intrinsic_inference/core/model_controller_base.py:274-303 | 1.10.0 is served instead of 1.9.0, in either listing order |
| HaltonSequence.ComputeHalton | intrinsic/eigenmath/halton_sequence.h:72-85 | the loop computes the radical inverse of i + 1, strictly between 0 and 1; 0 for the largest int |
| HaltonSequence.HaltonIsDigitReversal | intrinsic/eigenmath/halton_sequence.h:72-85 | the value is the reversed digits of i + 1 over p^k, the reversal is invertible, and the sequence is injective |
| HaltonSequence.OneValuePerInterval | intrinsic/eigenmath/halton_sequence.h:72-85 | any p^k consecutive values hit each interval [a/p^k, (a+1)/p^k) exactly once |
| HaltonSequence.OnePointPerBox | intrinsic/eigenmath/halton_sequence.h:247-261 | with pairwise coprime bases any product of p_j^k_j consecutive points hits each elementary box exactly once |
| HaltonSequence.PointEngine.Generate | intrinsic/eigenmath/halton_sequence.h:247-261 | consecutive calls return the points of consecutive indices; with distinct primes as bases, each box with given sides holds exactly one of them if there are as many calls as boxes |
| HaltonSequence.PointEngine.Next | intrinsic/eigenmath/halton_sequence.h:254-261 | one call returns the point of the current index and advances it by one |
| HaltonSequence.SequenceEngine.Next | intrinsic/eigenmath/halton_sequence.h:193-199 | returns the current value in its own base and advances |
| HaltonSequence.GeneratedPointsStratify | intrinsic/eigenmath/halton_sequence.h:247-261 | among the points so generated exactly one lies in each box |
| HaltonSequence.PrimesAreBases | intrinsic/eigenmath/halton_sequence.h:148-152 | distinct primes are pairwise coprime bases |
| HaltonSequence.PrimesStratify | intrinsic/eigenmath/halton_sequence.h:247-261 | so the points of an engine over distinct primes stratify for every choice of sides |
| NumberTheory.OneInWindow | intrinsic/eigenmath/halton_sequence.h:254-261 | any window as long as the product of coprime moduli holds exactly one number with given remainders |
| QuasiRandom.VerifyLimits | intrinsic/eigenmath/random_number_utils.cc:43-55 | errors exactly for different sizes or a coordinate whose lower limit is not below the upper one, with the infinities at the ends; differences that are not numbers leave the answer open |
| QuasiRandom.GetQuasiRandomVector | intrinsic/eigenmath/random_number_utils.cc:73-105 | accepted limits give a vector that lies at the Halton point of the seed, each coordinate in its own base, as a fraction of the way between its limits; strictly inside limits that are apart if and only if the seed is not the largest; the seed goes up by one, from 0 if it was negative; refused limits leave it alone |
| QuasiRandom.VectorsStratify | intrinsic/eigenmath/random_number_utils.cc:87-103 | with limits apart and distinct primes, the vectors of p_1^k_1 * ... * p_n^k_n consecutive seeds put exactly one into each box between the limits with sides (high - low)/p_j^k_j |
| QuasiRandom.SampleStrictlyInside | intrinsic/eigenmath/random_number_utils.cc:87-101 | every coordinate lies strictly between its limits |
| QuasiRandom.AcceptedLimitsApart | intrinsic/eigenmath/random_number_utils.cc:43-55 | exactly which accepted limits remain apart after infinite ones are replaced |
| QuasiRandom.SamplesNeverRepeat | intrinsic/eigenmath/random_number_utils.cc:102 | different seeds give different vectors |
| ConductorSafety.ReachableInv | intrinsic/conductor/conductor.cc:257-327 | every reachable state of calls and operation threads has consistent locks, operations and at most one installation in progress |
| ConductorSafety.AtMostOneUnfinished | intrinsic/conductor/conductor.cc:862-925 | in every reachable state at most one operation is not done |
| ConductorSafety.WaitsGoDown | intrinsic/conductor/conductor.cc:287-321 | who waits for a lock or the done notification waits for a thread of lower rank |
| ConductorSafety.NoCircularWait | intrinsic/conductor/conductor.cc:602-620 | no circular wait among ec_op_mu_, mu_, an operation's mutex and its done notification, nor in joining its thread |
| ConductorSafety.SomeoneCanStep | intrinsic/conductor/conductor.cc:733-859 | following the waits from any thread leads to one that can go on |
| ConductorSafety.NoDeadlock | intrinsic/conductor/conductor.cc:862-957 | while a thread is unfinished some step is possible |
| ConductorCalls.GoesOnOnlyWhenDone | intrinsic/conductor/conductor.cc:544-554 | StopSolution and NotifyAllProcessesStopped that look at an operation go on to their section only when it is done, and return without going on only if the caller gave up |
| ConductorCalls.GoesOnOnlyWhenStopped | intrinsic/conductor/conductor.cc:602-620 | if the operation was not done when the call looked, its stop has been requested by then as well (it may finish on its own before the look, and then nobody stops it) |
| ConductorCalls.GoesOnUnlessUnfinished | intrinsic/conductor/conductor.cc:602-607 | without an operation, or with a finished one, the call goes on |
| ConductorCalls.NoneReturnsWithoutSection | intrinsic/conductor/conductor.cc:544-554 | a call that waits for mu_ does not return without having been in its section |
| ConductorCalls.StartsOrFails | intrinsic/conductor/conductor.cc:911-925 | PrepareProcessStart without an unfinished operation answers with the operation it has made current, unless making it failed |
| ConductorCalls.ReplacedHasEnded | intrinsic/conductor/conductor.cc:920-921 | an operation that has been replaced has no running thread: its destruction has joined it |
| ConductorCalls.DoneOnlyAfterWork | intrinsic/conductor/conductor.cc:836-845 | an operation is done only after its work under mu_, or because its stop was requested |
| ConductorCalls.StoppedNeverWorks | intrinsic/conductor/conductor.cc:839-841 | an operation that is asked to stop before its thread begins does none of its work |
| ConductorCalls.StopRequestedIff | intrinsic/conductor/conductor.cc:943-957 | a stop is requested exactly by cancelling the current operation, by cancelling it under its name, and by destroying it |
| ConductorCalls.StopsOrFails | intrinsic/conductor/conductor.cc:943-957 | CancelOperation returns only after requesting the stop of the operation it found, unless the name differs |
| ConductorCalls.ReadsOrFails | intrinsic/conductor/conductor.cc:927-941 | GetOperation returns only after reading the operation it found, unless the name differs |
| ConductorCalls.SectionsExclude | intrinsic/conductor/conductor.cc:838-843 | no two threads are in sections under mu_ at once, nor in calls about the operation under ec_op_mu_ |
| PauseDiscipline.EachPauseResumed | intrinsic/conductor/conductor.cc:660-719 | each successful pause is followed by exactly one resume before the conductor pauses or resumes again |
| PauseDiscipline.EachResumeOwed | intrinsic/conductor/conductor.cc:660-719 | no resume lacks its successful pause |
| PauseDiscipline.PausesBalance | intrinsic/conductor/conductor.cc:436-528 | successful pauses and resumes are equally many whenever no resume is owed |
| PauseDiscipline.ResetOnlyWhileHeld | intrinsic/conductor/conductor.cc:436-528 | the updater is reset only while a resume is owed |
| PauseDiscipline.HeldIsPausedIff | intrinsic/world/service/updater/world_updater.cc:335-385 | while a resume is owed the updater is paused if and only if no other client resumed it since the conductor's pause without one pausing it again |
| PauseDiscipline.HeldIsPaused | intrinsic/conductor/conductor.cc:436-528 | so it is paused up to the first resume of another client |
| PauseDiscipline.PausedOnlyByFailedCall | intrinsic/conductor/conductor.cc:1199-1221 | when nothing is owed the updater is paused if and only if another client's pause, a failed pause that landed, or a pause whose own resume did not land has no resume by anyone landing since |
| PauseDiscipline.ClonedWhilePausedIff | intrinsic/conductor/conductor.cc:666-711 | under the guard the belief world is cloned into while the updater is paused if and only if no other client resumed it last between the conductor's pause and the clone |
| ConductorTraces.CallKeeps | intrinsic/conductor/conductor.cc:422-529 | each call, whatever fails and whoever else calls the updater, owes nothing in the end and breaks the guard of the belief world exactly if it composes into it |
| ConductorTraces.AnyCallsKeep | intrinsic/conductor/conductor.cc:657-720 | after any list of calls nothing is owed, and the guard holds if and only if no call composed into an edit world that is the belief world |
| ConductorTraces.ResetClonesWhilePausedIff | intrinsic/conductor/conductor.cc:666-711 | a reset clones before it resets the simulation, and while the updater is paused unless another client resumed it last |
| ConductorTraces.StartClonesWhilePausedIff | intrinsic/conductor/conductor.cc:436-471 | the same when the solution's worlds are created |
| ConductorTraces.SimulationResetResumes | intrinsic/simulation/service/simulation_runtime.cc:483-546 | after a simulation reset that succeeds the updater runs while the conductor still owes its resume, and afterwards even if that resume does not land |
| ConductorWorlds.Conductor.ResetSim | intrinsic/conductor/conductor.cc:628-655 | the status; the simulation service's pause and resume of the updater, which runs after a success |
| ConductorWorlds.SimulationReports | intrinsic/simulation/service/simulation_runtime.cc:483-546 | unless the answer is lost the simulation service reports success only if everything succeeded, else what failed, and Aborted if both the stop and the restart of the updater did; one that is not ready does not touch the updater |
| ConductorWorlds.Conductor.PauseWorldUpdater | intrinsic/conductor/conductor.cc:1199-1212 | a requested stop prevents the call; a success makes a resume owed |
| ConductorWorlds.Conductor.ResumeWorldUpdater | intrinsic/conductor/conductor.cc:1214-1221 | only while a resume is owed, and then none is |
| ConductorWorlds.Conductor.ResetBeliefWorldAndSim | intrinsic/conductor/conductor.cc:657-720 | the events and the reported status on every path; success if and only if pause, clone, simulation reset and resume all succeeded; a failing resume is what is reported; nothing is owed afterwards and the guard is kept; of the worlds only the belief world changes, to the source |
| ConductorWorlds.Conductor.CreateWorldsFromSolution | intrinsic/conductor/conductor.cc:422-529 | the events and the reported status on every path; a failing resume is what is reported; nothing is owed afterwards; success means every call succeeded, edit and belief world hold the last composition and the status warns exactly if it reported errors; failure leaves the belief world as it was or equal to the edit world; no other world changes |
| ConductorWorlds.Conductor.RestoreWorld | intrinsic/conductor/conductor.cc:1295-1333 | only the edit world is composed; the guard breaks exactly if the edit world is the belief world and composing succeeds |
| WorldComposition.CreateOrUpdateWorld | intrinsic/conductor/world.cc:61-174 | on every exit path the store changes at most at the target: success installs the composed content, an error keeps the old one, and only an undeletable temporary world remains |
| WorldComposition.OnlyTheTargetChanges | intrinsic/conductor/world.cc:104-120 | with a working cleanup every other world is untouched, whatever failed |
| WorldComposition.SplitErrors | intrinsic/conductor/world.cc:122-158 | the loop puts each composition error into its list, or fails on one without a problem |
| WorldComposition.SplitIsLossless | intrinsic/conductor/world.cc:122-158 | the two lists are determined by the errors, and every error is in exactly one |
| WorldComposition.SplitPrefix | intrinsic/conductor/world.cc:122-158 | the lists keep the order in which errors were reported |
| WorldComposition.SplitContents | intrinsic/conductor/world.cc:122-158 | skippedUpdates are exactly the errors about updates and skippedSceneObjects those about resources, each with its code and in order |
| WorldComposition.RetriedForCodes | intrinsic/conductor/conductor.cc:194-228 | a composition is tried again exactly if it failed with Unavailable, DeadlineExceeded, ResourceExhausted or Aborted, or skipped an error with one of these |
| WorldComposition.CreateInitWorld | intrinsic/conductor/conductor.cc:194-228 | at most max_attempts compositions; the first that need not be retried, else the last, or cancelled; total sleep bounded; the store after all of them |
| WorldComposition.LastSuccessStays | intrinsic/conductor/conductor.cc:194-228 | the edit world holds what the last successful attempt composed, even if the whole call fails |
| WorldComposition.OthersStay | intrinsic/conductor/conductor.cc:194-228 | no other existing world changes over all attempts |
| Retry.BackoffIsIdealIff | intrinsic/conductor/retry.cc:30-38 | delays equal ideal doubling for all attempts if and only if the initial delay is zero or its 2^62-fold reaches the maximum |
| Retry.CapShows | intrinsic/conductor/retry.cc:30-38 | a valid policy whose 65th attempt waits half as long as documented |
| Retry.BackoffMonotone | intrinsic/conductor/retry.cc:30-38 | delays never shrink and never exceed the maximum |
| Retry.StopsOnce | intrinsic/conductor/conductor.cc:194-253 | outcomes and cancellations determine the number of calls of a retry loop |
| Retry.StartSimulation | intrinsic/conductor/conductor.cc:230-253 | a call is repeated exactly after Unavailable, DeadlineExceeded, ResourceExhausted and Aborted, at most max_attempts times and unless cancelled; OK ends the loop; the last status or cancelled is returned; total sleep bounded |
| Retry.TotalSleepUncapped | intrinsic/conductor/retry.cc:30-38 | while the maximum is not reached the delays of n calls add up to 2^(n-1) - 1 times the initial one |
| Retry.BackoffBeforeRetry | intrinsic/conductor/retry.cc:40-53 | sleeps exactly the delay, unless cancelled |
| SaveMonitor.ReachableInv | intrinsic/conductor/save_scene_monitor.cc:204-299 | the composed world is never older than the revision its recorded token names, and what that means in every phase of a scan |
| SaveMonitor.KeptIsCurrent | intrinsic/conductor/save_scene_monitor.cc:231-262 | a scan that decides to keep its cached world has it at exactly the revision it read |
| SaveMonitor.ReportsAreTruthful | intrinsic/conductor/save_scene_monitor.cc:204-299 | a kept world equals the set at the revision read, a rebuilt one that or a later revision, and SAVED means equal to what was compared, whatever changes or is deleted between steps |
| SaveMonitor.LeftoverNeverTrusted | intrinsic/conductor/save_scene_monitor.cc:261-270 | without a successful rebuild nothing is reported, even if a composed world existed before |
| SaveMonitor.MislabelledIsRebuilt | intrinsic/conductor/save_scene_monitor.cc:261-270 | a cached world newer than its token says is always rebuilt |
| SaveMonitor.KeptIff | intrinsic/conductor/save_scene_monitor.cc:231-270 | the cached world is kept if and only if it exists and was labelled with exactly the revision read |
| SaveMonitor.NextScanKeeps | intrinsic/conductor/save_scene_monitor.cc:204-299 | if nothing changes the next scan keeps the world, and both report whether it equals the operating world |
| SaveMonitor.FetchesCurrent | intrinsic/conductor/save_scene_monitor.cc:261-270 | a rebuild installs the set as it is when it is fetched, whatever changes afterwards |
| SaveMonitor.NoScanWithoutWorld | intrinsic/conductor/save_scene_monitor.cc:204-230 | until the operating world is found no scan looks at anything else |
| AttachmentForest.GetChildrenOf | intrinsic/world/world.cc:162-179 | exactly the children, each once, in any order |
| AttachmentForest.ChildTowardUnique | intrinsic/world/kinematics_builder.cc:509-514 | at most one child of an entity leads to a given entity |
| WorldDelete.World.DeleteAttachmentComponent | intrinsic/world/world.cc:1610-1630 | refuses the root, unknown entities and entities with children, else removes just the attachment |
| WorldDelete.World.DeleteHelper | intrinsic/world/update_world.cc:645-669 | terminates; removes exactly the entity and everything attached below it, in any order of children; every survivor's parent is present; which entities are refused |
| WorldDelete.World.DeleteEntities | intrinsic/world/update_world.cc:671-690 | removes exactly the union of the matched subtrees in any order and fails only for the root; without remove_children succeeds if and only if each entity comes after its children; what is gone after an error |
| WorldDelete.PrunedTwice | intrinsic/world/update_world.cc:678-687 | deleting subtrees one after the other removes their union, so the order does not matter |
| WorldDelete.PrunedValid | intrinsic/world/update_world.cc:656-665 | what remains is again a tree |
| ChainWalk.FindCommonAncestor | intrinsic/world/world.cc:2073-2115 | the lowest entity at or above both; the error exactly for an invalid handle, or a detached one that would have to be climbed from |
| ChainWalk.FindAncestor | intrinsic/world/kinematics_builder.cc:75-93 | the first candidate that decides: by being at or above the element, or by the error of its lookup; NotFound if none does |
| ChainWalk.WalkRobot | intrinsic/world/kinematics_builder.cc:439-516 | terminates for every base and tip; succeeds if and only if the base is above the robot's tip and the way between can be built; then it has visited exactly that way, every link or joint on it is in the skeleton, as a joint if and only if it is not a link, nothing else was added, and each added element hangs on the one added before |
| ChainWalk.PathSteps | intrinsic/world/kinematics_builder.cc:509-514 | on that way each entity is a child of the one before |
| ChainWalk.SelectEnds | intrinsic/world/kinematics_builder.cc:332-381 | base, tip and robots from the common ancestor, if and only if the robots can be looked up, are on one branch only, and there are any; the error in each other case |
| ChainWalk.LowestUnique | intrinsic/world/world.cc:2073-2115 | the common ancestor is determined |
| AccessSpecs.WorldACLSpec.AppendEntitySpecsWithAnd | intrinsic/world/world_acl_spec.cc:67-75 | the loop narrows exactly the given entities, starting from the default where nothing was set, in any order |
| AccessSpecs.WorldACLSpec.AppendEntitySpecsWithOr | intrinsic/world/world_acl_spec.cc:77-85 | the loop widens exactly the given entities in the same way |
| AccessSpecs.WorldACLSpec.ClearAccessFor | intrinsic/world/world_acl_spec.cc:93-99 | the given entities fall back to the default, all others stay |
| AccessSpecs.WorldACLSpec.IsCompatibleWith | intrinsic/world/world_acl_spec.cc:119-136 | permitted if and only if for no entity that both specs mention one grants Write while the other grants Read or Write |
| AccessSpecs.LastDeciderWins | intrinsic/world/world_acl_spec.cc:37-108 | after any calls the last one deciding a permission of an entity gives its effective value, else the default does |
| AccessSpecs.CompatibleSymmetric | intrinsic/world/world_acl_spec.cc:119-136 | compatibility is symmetric |
| AccessSpecs.CheckIsPointwise | intrinsic/world/world_acl_spec.cc:119-136 | with NoAccess defaults the check is compatibility over all entities |
| AccessSpecs.CheckDecidesIff | intrinsic/world/world_acl_spec.cc:119-136 | for no other defaults |
| AccessSpecs.OneWriterOrReaders | intrinsic/world/world_entity_acl_spec.cc:84-98 | pairwise compatible specs give each entity one exclusive writer or readers only |
| AccessSpecs.PairsPassIff | intrinsic/world/world_acl_spec.cc:119-136 | specs with NoAccess defaults pass pairwise if and only if on each entity nobody may write or only one spec has any access |
| AccessSpecs.NarrowingOnlyTakesAway | intrinsic/world/world_entity_acl_spec.cc:68-82 | narrowing is permitted if and only if no permission is added, and keeps compatibility |
| CyclicRunner.AtMostOneStartAfterQuit | intrinsic/util/cyclic_runner.cc:51-109 | in every run at most one call of the cyclic function begins after Quit, however they interleave |
| CyclicRunner.QuitBeforeStart | intrinsic/util/cyclic_runner.cc:58-66 | none begins if Quit came before Start |
| CyclicRunner.StartsOnce | intrinsic/util/cyclic_runner.cc:33-46 | after any call of Start, also one refused for its period, all others are refused in every run |
| CyclicRunner.FirstStart | intrinsic/util/cyclic_runner.cc:33-46 | the first call of Start is refused exactly for a period that is not positive |
| CyclicRunner.OkOnlyAfterQuit | intrinsic/util/cyclic_runner.cc:33-80 | one call of Start returns OK, exactly when the runner has returned, which takes a Quit; all others were refused |
| CyclicRunner.NextCallAPeriodLaterIff | intrinsic/util/cyclic_runner.cc:70-109 | right after a call has begun, the next begins at least a period later in every continuation if and only if this one began when its timer was built, or Quit has been called |
| CyclicRunner.StartsApart | intrinsic/util/cyclic_runner.cc:70-109 | calls begin at least a period per iteration after an earlier iteration's timer was built |
| CyclicRunner.CallsCanBeCloser | intrinsic/util/cyclic_runner.cc:70-80 | a run in which two calls begin less than a period apart |
| SyncCache.OneRunPerKey | intrinsic/assets/syncutils.go:102-109 | for every interleaving the function runs at most once per key |
| SyncCache.SameOutcome | intrinsic/assets/syncutils.go:102-109 | all finished calls for a key have the value and error of that run |
| SyncCache.OutcomeStays | intrinsic/assets/syncutils.go:102-109 | a finished call's outcome does not change in any later run |
| SyncCache.RunDecides | intrinsic/assets/syncutils.go:102-109 | what the run of the function for a key returned is what every call for the key gets, in all later states |
| SyncCache.NobodyStuck | intrinsic/assets/syncutils.go:49-52 | an unfinished call can go on, or the function is running for its key |

## Left out

- SaveMonitor.ReportsAreTruthful: of a rebuilt world it says only that it is no older than the revision read, because the set may change before it is fetched.
- ModelConvergence.RoundConvergesIff: speaks of rounds in which every load, reload and asset call succeeds; unloads may fail remotely, which the code ignores.
- VersionOrder.SplitAlternates: counts ASCII digits only; the regular expression and int() also take other Unicode digits.
- VersionOrder.KeysComparable: takes digit runs of any length; Python's int() raises an error beyond its limit, by default 4300 digits.
- QuasiRandom.VerifyLimits: for empty vectors and differences that are not numbers the vector library defines no least coefficient; whether that counts as positive is a parameter.
- ModelAssets.ReadyIsServed: takes the assets manager and the backend by their documentation: a creation fetches and a deletion removes all files, an update turns the complete files of the version it replaces into those of the new one, a failed call leaves anything; the manager of a local repository only checks that the version exists.
- QuasiRandom.SampleStrictlyInside: is over exact reals; rounding could put a coordinate on its limit.
- ChainWalk.WalkRobot: treats one robot from any starting skeleton; the fixed joints between robots, transforms, solver keys and the final coordinate frame are not modelled, and every error of adding a link or joint other than a joint at the root is one set of entities.
- ConductorSafety.AtMostOneUnfinished: the thread system is on values; nothing is claimed about the execution context being present inside the unpause operation, which that operation does not check again.
- The reader lock that GetExecutionContext takes is modelled as an exclusive one.
- StartSolution, StopSolution, SaveWorld, ResetWorldService and the deletion of staging worlds appear only through the locks they take and the world operations they share with the modelled calls; the belief world's ID is one for all execution contexts, as the default is.
- Temporary worlds are assumed to get unused IDs, and a failed call of the world service to have no effect; a failed pause or resume may have had its effect.
- Worlds that other services write, such as the simulation's own world; the retries of the simulation service's pause and resume, which appear as one each; the subscriptions that the updater pauses and resumes with its flag.
- The save monitor's two data sources, the revision token and the resource set to compose, are assumed to name the same history; times and publishing are left out.
- The size of the worker pool, future cancellation by the interpreter's exit, telemetry and log messages, and a failing list_model_assets, which ends a reconciliation before it begins.
- The real-time variants of the sampling functions.
- Sequence indices of the engines at the largest int, where the increment overflows; Advance and the indexed Get functions of the engines.
- Entities of a world that refer to each other other than by attachment, such as collections and labels; errors of finding the matched entities.
- GetRobotIdsInChain, GetBaseLink and GetFinalEntitiesOfRobot are given by their results.
- Absolute-time wake-ups of the cyclic runner: a wait may end at any time, which covers an adjusted system clock.
- A cached function that calls itself for the same key, which would wait for itself.
- gRPC, protobuf conversion, the key-value store, publish/subscribe, Kubernetes and image publishing, numerical linear algebra, inference over shared memory.
