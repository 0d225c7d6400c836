# Verified model of RepoWorker's stateful cores

RepoWorker lets an autonomous client work on a repository through isolated
workspaces. This project models the parts of it whose correctness spans many
calls, processes or crashes, and proves their properties with Dafny 4.11.
`dafny verify dfyconfig.toml` checks everything.

Code that changes state is modelled as methods and classes in the original's
shape: the same branches, the same order of checks, the same constants. Each is
proved against a specification on values, and what the original promises is
proved of that specification for every input, every run and every crash point.

- **Scheduler** (`Jobs`, `SchedulerModel`, `SchedulerTheorems`, `SchedulerRun`):
  graph validation, the launch/receive loop with its ledgers, admission and
  weighted choice. A run is a sequence of launches and receives; a failed job
  counts as done, as in the code.
- **Integration** (`FileTree`, `Ordering`, `Integration`, `IntegrationJournal`):
  the diff plan between two trees, its step-by-step application under a durable
  journal, and recovery. A tree maps paths to directories or files with content
  and mode. Every system call may fail and the process may die around it.
- **Repository tools** (`Text`, `Hunks`, `PatchParser`, `PatchGrammar`, `Manifest`, `Preview`):
  the strict unified-diff parser and applier, the manifest encoding, and the
  UTF-8 preview window.
- **Autonomous loop** (`EventStore`, `LoopModel`, `LoopController`): the phase
  machine over a durable event log. What the model and the authority answer,
  which reads and writes fail and where a run dies are parameters of `Run`, and
  may be anything.
- **Leases** (`LeaseModel`, `Leases`), **confirmations** (`ConfirmationModel`,
  `Confirmations`) and the **replay window** (`ReplayModel`, `Replay`): protocols
  of which each method holds one lock. The model files state runs and theorems,
  the others prove that the methods only ever extend such a run.
- **Output log** (`OutputLog`): memory that spills to a file, read by cursor.

## Assumptions

- Integers are unbounded, except where the code tests a bound itself (the fence
  counter, the parser's numbers, the page and size limits). The scheduler's
  floating-point scores are exact fractions.
- Digests and hashes are injective; a file's digest stands for its content and
  permission bits. The base check by `snapshotTree` is a boolean that the
  caller of the model supplies.
- Clocks do not go back. Random identifiers do not repeat; drawing one may fail.
- Stored JSON and SQL values come back as they were written. A rename, an unlink
  and a database statement happen whole or not at all.
- The select of the scheduler is fair: the context branch is taken finitely
  often between two results. The pressure sampler may answer anything.
- The client configures `maxRetries` as `loop.New` allows, and queries and limits
  as their callers check them.

## Where code and documentation differ

The model follows the code in each case.

- internal/workspace/integration.go:144-146 says that a restart advances,
  retries or quarantines. Recovery never retries: a step whose path still shows
  the state before it is quarantined (internal/workspace/integration.go:313-349),
  and a quarantined journal makes every later opening of the repository fail
  (internal/workspace/integration.go:303-308), as `RecoverJournals` states.
- docs/adr/0009-m3.9-autonomous-loop.md:11-14 says that the loop resumes from the
  last durable phase. It does so exactly while the run's row and all its stored
  states are on the binding it started with and its log has fewer than 10,000
  events (`LostExactlyWhen`): `Run` rejects a row with another binding
  (internal/loop/loop.go:129-132) and `load` a log with any state under another
  one (internal/loop/loop.go:284). A patch that refreshes the binding breaks both,
  the row first (internal/loop/loop.go:197), the states after it
  (internal/loop/loop.go:264). `RefreshedRunExists` is a run with both moved and
  `ReboundRowExists` one that died between the two; neither can be resumed under
  any binding, and `Run` states that such a run stays lost. And a checkpoint saved
  without the state that should follow it leaves a run that never completes
  (internal/loop/loop.go:242-266): `Run` states that a doomed run stays doomed over
  all later calls.
- A checkpoint's id is a digest of the loop's state, which does not name the run
  (internal/loop/loop.go:250), while ids are unique over all runs
  (internal/events/migrations/001_initial.sql:36). A run in which nothing fails
  completes exactly when no run has saved the same state's checkpoint before, as
  `Run` states.
- internal/workspace/workspace.go:526-527 says that a reservation is bound to the
  active lease fence. The lease is asserted under a lock that is released before
  the reservation is written; `StillPassesExactlyWhen` says when it still holds
  and `ReservationCanOutliveItsLease` gives a run in which it does not.
- A candidate that has a file where the live tree has a directory gets a plan
  (internal/workspace/integration.go:118-128) that can never be applied
  (internal/workspace/integration.go:398), as in `FileOverDirectoryIsRefused`;
  `BuildThenApplyIsExact` shows that this is the only such case.
- A patch that deletes every line leaves a file with one empty line
  (internal/repo/repo.go:1076); `EmptiedFileIsNotRestored` gives one, and
  `InverseRestoresText` shows that this is the only case in which the inverse
  patch does not restore the file.

## Model

| member | source | states |
|---|---|---|
| `Jobs.ValidateGraph` | internal/scheduler/scheduler.go:320-360 | accepts a job list exactly when every job is valid, ids are unique, dependencies are closed and the relation has no cycle; a cycle error means there is a cycle, a rejection means one of the other faults |
| `Jobs.IndexJobs` | internal/scheduler/scheduler.go:321-330 | the jobs by id, exactly when all are valid and no id repeats |
| `Jobs.WalkAll` | internal/scheduler/scheduler.go:331-359 | visiting every job accepts exactly the closed graphs without cycles |
| `Jobs.Walk.constructor` | internal/scheduler/scheduler.go:331-332 | the walk starts with nothing marked |
| `Jobs.Walk.Visit` | internal/scheduler/scheduler.go:334-353 | the depth-first walk ends; it reports a cycle only if one exists and a missing dependency only if one is missing, and what it has visited is listed dependencies first |
| `Jobs.TopologicalOrderIsAcyclic` | internal/scheduler/scheduler.go:331-359 | a list of all jobs with dependencies first rules out every cycle, of whatever length |
| `Jobs.TopologicalOrderExists` | internal/scheduler/scheduler.go:331-380 | a closed graph without cycles can be listed dependencies first, starting from any list made so far |
| `Jobs.SourceExists` | internal/scheduler/scheduler.go:362-380 | among any nonempty set of jobs of an acyclic graph, one waits for no other of the set |
| `SchedulerModel.New` | internal/scheduler/scheduler.go:86-114 | a configuration is accepted exactly when its limits are positive and its classes named and weighted; everything but the quotas is kept, and a part of a quota that is left out becomes what the machine has |
| `SchedulerModel.LedgersExactAndWithinLimits` | internal/scheduler/scheduler.go:187-248 | in every state of every run the usage, task, runtime, class and active counters equal the sums or counts over the running jobs, and stay within capacity, quotas, class limits and the concurrency limit |
| `SchedulerModel.StepConserved` | internal/scheduler/scheduler.go:200-206 | each launch and each receive keeps every ledger exact |
| `SchedulerModel.StepWithinLimits` | internal/scheduler/scheduler.go:194-206 | what is admitted beside the running jobs keeps all limits |
| `SchedulerTheorems.PhaseFromLog` | internal/scheduler/scheduler.go:200-233 | a job is pending until its launch and done exactly after its receive |
| `SchedulerTheorems.DependenciesFirst` | internal/scheduler/scheduler.go:362-380 | over every run, each job is launched at most once, and only after all its dependencies were received |
| `SchedulerTheorems.LaunchIsFair` | internal/scheduler/scheduler.go:266-295 | a launch that passes over another class with an admissible job leaves the launched class within one share of it |
| `SchedulerTheorems.LaunchIsExact` | internal/scheduler/scheduler.go:262-296 | over every run, what is launched waits for nothing and exceeds no limit when counted in, and of all jobs of which that holds it is the one whose class had the smallest launches * weight cross product, then the smallest id; a class that is not configured has weight one and no limit |
| `SchedulerTheorems.NothingHeldBack` | internal/scheduler/scheduler.go:194-213 | over every run, before a result is awaited as many jobs run as may, or no waiting job that the sampler admits could be counted in without exceeding a limit |
| `SchedulerTheorems.AdmittedExactlyWhenRoom` | internal/scheduler/scheduler.go:277-287 | a pending job is admitted exactly when the totals over the running jobs, with it counted in, stay within capacity, both quotas and its class's limit |
| `SchedulerTheorems.WeightedFairness` | internal/scheduler/scheduler.go:203-296 | over every run, while class j always has an admissible ready job, served_i * w_j <= served_j * w_i + w_j for every class i |
| `SchedulerTheorems.NoDeadlock` | internal/scheduler/scheduler.go:214-227 | with jobs that each fit alone and no pressure sampler, whenever nothing runs and work is left, some job can be launched |
| `SchedulerTheorems.MisfitStaysPending` | internal/scheduler/scheduler.go:281-286 | a job that does not fit the idle machine and its quotas is never launched |
| `SchedulerTheorems.CompletesIffAllFit` | internal/scheduler/scheduler.go:187-248 | without a sampler, a run that can go no further has finished every job if and only if every job fits alone |
| `SchedulerTheorems.RunLength` | internal/scheduler/scheduler.go:187-248 | a run has one launch for each started job and one receive for each finished one, so pending and running work falls with every event |
| `SchedulerTheorems.IdleLedgersAreZero` | internal/scheduler/scheduler.go:249-255 | when nothing runs all ledgers are back at zero |
| `SchedulerRun.ReadyJobs` | internal/scheduler/scheduler.go:362-380 | returns exactly the pending jobs all of whose dependencies are done, in whatever order the map has |
| `SchedulerRun.SortByScore` | internal/scheduler/scheduler.go:266-275 | the ready jobs in the order in which they go first: the smaller share of launches for the class's weight, and between equals the smaller id, as LaunchIsExact states of what is chosen |
| `SchedulerRun.Execution.constructor` | internal/scheduler/scheduler.go:168-184 | every job pending, every ledger empty |
| `SchedulerRun.Execution.Launch` | internal/scheduler/scheduler.go:200-206 | the state and all ledgers after a launch |
| `SchedulerRun.Execution.Receive` | internal/scheduler/scheduler.go:230-238 | the state and all ledgers after a receive |
| `SchedulerRun.Execution.ChooseReady` | internal/scheduler/scheduler.go:262-296 | whatever the sampler answers and whatever the map order: the chosen job exceeds no limit or quota beside what runs and is not turned away, and any other such job has the larger served * weight cross product, or the same and the larger id; none is chosen only if no ready job is such |
| `SchedulerRun.AdmissionError` | internal/scheduler/scheduler.go:298-311 | host pressure is blamed exactly when the first ready job that is too large for the machine or for what the sampler reports is one that the sampler reports too little for |
| `SchedulerRun.WhyStuck` | internal/scheduler/scheduler.go:214-228 | with no earlier error: pressure for a ready job that fits the machine and that the sampler reports too little for, otherwise unschedulable |
| `SchedulerRun.LaunchReady` | internal/scheduler/scheduler.go:194-213 | launches until the concurrency limit is met or nothing more is admissible |
| `SchedulerRun.ReceiveOne` | internal/scheduler/scheduler.go:229-242 | any running job may report, with any result, and the run stays valid |
| `SchedulerRun.Loop` | internal/scheduler/scheduler.go:187-259 | the main loop ends with nothing running, so the drain loop has nothing to do; it returns nil exactly when every job finished without error and no cancellation was seen; each error says what it stands for, and without either it is the reason that the stuck jobs give |
| `SchedulerRun.Run` | internal/scheduler/scheduler.go:155-260 | the error paths of Run: a graph is refused exactly when it is unsound, a cycle is reported only where there is one, and a rejection only for another fault; a nil result means every job finished without error; without a sampler an accepted workload completes exactly when each job fits alone; host pressure is reported only for a ready job that fits the machine and that the sampler reports too little for |
| `SchedulerRun.Scheduler.constructor` | internal/scheduler/scheduler.go:86-114 | an empty queue |
| `SchedulerRun.Scheduler.Submit` | internal/scheduler/scheduler.go:116-132 | a job is queued exactly when it is valid, new and there is room; otherwise the queue is unchanged and a full queue is reported as such |
| `SchedulerRun.Scheduler.RunSubmitted` | internal/scheduler/scheduler.go:134-150 | hands the whole queue to Run once, empties it and passes on what Run promises, the exact condition for nil included; what Submit let in never overflows Run and is refused for its dependencies only |
| `Ordering.SortStrings` | internal/workspace/integration.go:105 | the paths in strictly increasing order, none lost |
| `Integration.CheckSteps` | internal/workspace/integration.go:428-445 | accepts exactly the step lists with clean, strictly increasing paths, known operations, differing digests, blobs within the limit and none on a deletion; the plan's identity fields are no part of it |
| `Integration.SortedPaths` | internal/workspace/integration.go:94-105 | the union of both trees' paths, sorted and without repeats |
| `Integration.BuildSteps` | internal/workspace/integration.go:111-136 | one step for each path on which the trees differ and no other; it fails exactly when the candidate's file on a differing path exceeds the blob limit |
| `Integration.BuildStep` | internal/workspace/integration.go:117-135 | the step that turns the base's file at one path into the candidate's |
| `Integration.BuiltPlanIsValid` | internal/workspace/integration.go:428-445 | every plan that is built passes the check that ApplyIntegration makes |
| `Integration.PlanProgress` | internal/workspace/integration.go:174-187 | after k steps each path holds the candidate's file if one of those steps is about it, and is untouched otherwise |
| `Integration.AppliedEffect` | internal/workspace/integration.go:196-260 | a successful step has its effect on the files alone, loses no directory and makes only those above its path |
| `Integration.FileAboveIsDeletedFirst` | internal/workspace/integration.go:105-136 | a file above a path that the candidate has is deleted by an earlier step, because paths are sorted |
| `Integration.NothingAboveIsAFile` | internal/workspace/integration.go:262-288 | when a step is reached, a file-to-directory replacement has already cleared its way |
| `Integration.StepIsReady` | internal/workspace/integration.go:389-416 | when a step is reached, its path still shows the digest the plan expects, unless it is a directory of the live tree |
| `Integration.BuildThenApplyIsExact` | internal/workspace/integration.go:65-194 | applying a built plan to the unchanged tree succeeds if and only if the candidate has no file where the live tree has a directory; then the tree's files are exactly the candidate's, and excluded paths are untouched |
| `Integration.FileOverDirectoryIsRefused` | internal/workspace/integration.go:389-402 | a directory replaced by a file: a plan is built and none of it can be applied |
| `FileTree.ParentsKeepFiles` | internal/workspace/integration.go:262-288 | making missing directories changes no file |
| `IntegrationJournal.Repository.constructor` | internal/workspace/workspace.go:118-126 | a repository with no journal |
| `IntegrationJournal.Repository.WriteJournal` | internal/workspace/workspace.go:879-906 | a record write happens whole or not at all, whatever it returns |
| `IntegrationJournal.Repository.OpenParent` | internal/workspace/integration.go:262-288 | walks down from the root through directories only; it may leave some directories made, and changes nothing else |
| `IntegrationJournal.Repository.OpenPart` | internal/workspace/integration.go:271-285 | one component of the walk |
| `IntegrationJournal.Repository.ApplyStep` | internal/workspace/integration.go:196-260 | whatever fails or dies, the tree either has the step's whole effect or only new directories; undisturbed it succeeds exactly when the step can be applied, and is stale exactly when its path does not show the digest before it |
| `IntegrationJournal.Repository.ApplyIntegration` | internal/workspace/integration.go:147-194 | at every crash, failed call and failed record write the files equal the base with the first k steps applied, where the durable cursor is k or one behind; if records can be written, a started journal ends committed or quarantined as the call succeeds or not; undisturbed the call succeeds exactly when every step can be applied, stops at the first that cannot, and is stale exactly when that path does not show its digest before |
| `IntegrationJournal.Repository.RunPlan` | internal/workspace/integration.go:174-193 | the step loop and the final record under the same guarantees |
| `IntegrationJournal.Repository.Advance` | internal/workspace/integration.go:174-187 | one step and its record: between them the cursor is exactly one behind, and a step that fails leaves the record quarantined at its cursor |
| `IntegrationJournal.Repository.RecoverJournal` | internal/workspace/integration.go:313-349 | never writes the live tree; rejects malformed records unchanged; otherwise moves the cursor over steps whose result is on disk and commits or quarantines; undisturbed it succeeds exactly when every remaining path shows its after-digest |
| `IntegrationJournal.Repository.RecoverJournals` | internal/workspace/integration.go:290-311 | undisturbed, an opening succeeds if and only if every record is committed, or well-formed with all its remaining steps showing their results; after success every record is committed; a quarantined record stays and makes every later opening fail |
| `IntegrationJournal.RecoveryIsExact` | internal/workspace/integration.go:313-349 | recovering a record that any crash left, even when recovery is itself cut short, keeps the crash guarantee; undisturbed it ends with cursor k, committed if and only if k = n, and quarantined if and only if k < n and the next path is readable |
| `IntegrationJournal.CrashShowsPlanPrefix` | internal/workspace/integration.go:174-187 | from any crash point every path shows the candidate's file if one of the k finished steps is about it and the base's otherwise; excluded paths are never touched |
| `IntegrationJournal.BuiltPlanStopsAtDirectory` | internal/workspace/integration.go:196-204 | undisturbed, a built plan over its own tree stops only as stale, and at the first of its paths that is a directory of the tree |
| `Hunks.ApplyHunk` | internal/repo/repo.go:1049-1073 | a hunk applies exactly if its old lines stand at its start, at or after the cursor; the check on the count included |
| `Hunks.ApplyHunks` | internal/repo/repo.go:1043-1075 | the new lines, or an error exactly when some hunk does not fit |
| `Hunks.InverseUndoes` | internal/repo/repo.go:1049-1075 | if hunks map lines A to B, the hunks with + and - exchanged and starts moved by the cumulative growth map B back to A |
| `Hunks.ResultLength` | internal/repo/repo.go:1049-1075 | the result has as many lines as the original plus what the hunks add less what they remove |
| `Hunks.OtherLinesKept` | internal/repo/repo.go:1054-1075 | every line outside the hunks is kept, in order, moved by the growth of the hunks before it |
| `Hunks.InverseRestoresText` | internal/repo/repo.go:1039-1077 | on file contents, the inverse patch restores the original exactly when the patch leaves at least one line |
| `Hunks.EmptiedFileIsNotRestored` | internal/repo/repo.go:1043-1076 | a file of one line, deleted and put back by the inverse patch, has two lines |
| `Hunks.InverseOfEmptyResult` | internal/repo/repo.go:1043-1076 | undoing a patch that deleted every line leaves one empty line too many |
| `Text.LinesUnlines` | internal/repo/repo.go:1040-1046 | lines survive printing and splitting, except that no lines print as one empty line |
| `Text.UnlinesLines` | internal/repo/repo.go:1076 | a text that ends in a newline survives splitting and printing |
| `PatchParser.ReadBody` | internal/repo/repo.go:991-1004 | the lines of one hunk up to the next header, with their old and new counts |
| `PatchParser.ReadHunks` | internal/repo/repo.go:975-1009 | the hunks of the whole body, each header followed by its lines |
| `PatchParser.ParsePatch` | internal/repo/repo.go:957-1011 | the patch that the grammar describes, or a rejection; which texts those are is AcceptedExactlyWhenWritten |
| `PatchGrammar.AcceptedExactlyWhenWritten` | internal/repo/repo.go:957-1037 | a text is accepted as a patch if and only if it is that patch written out: two path lines that name its path to the policy, and for each hunk a header, leading zeros allowed and a count of one optional, whose starts are at least one and whose counts are those of the hunk's old and new lines, then those lines, and nothing else |
| `PatchParser.PrintThenParse` | internal/repo/repo.go:957-1037 | for every clean path and nonempty list of expressible hunks, printing them as a unified diff, with ranges short or long, and parsing gives back the same patch |
| `PatchParser.ParsedPatchIsExpressible` | internal/repo/repo.go:1005-1008 | every parsed patch has a hunk, and each hunk has lines, newline-free texts, a start of at least 1 and an old count that is the number of its old lines, so the count check of the applier cannot fire |
| `PatchParser.UndoPatch` | internal/repo/repo.go:957-1077 | from text to text: parse a patch, apply it, print its inverse, parse and apply that, and the file is as before |
| `PatchParser.ReadRange` | internal/repo/repo.go:1024-1037 | a printed range is read back whole, with and without its count |
| `Manifest.ManifestText` | internal/repo/repo.go:415-422 | the bytes that are hashed are the version line and each entry's encoding in order |
| `Manifest.EntryThenRest` | internal/repo/repo.go:418-420 | no entry's encoding can be mistaken for another's, whatever follows it |
| `Manifest.EncodingIsInjective` | internal/repo/repo.go:415-422 | two entry lists with the same encoding are equal, whatever bytes their fields contain |
| `Manifest.SameIDSameManifest` | internal/repo/repo.go:415-422 | under an injective hash two snapshot ids are equal exactly when the manifests are |
| `Preview.MatchPreview` | internal/repo/repo.go:912-939 | a short line is its own preview; of a longer one it is the window around the first match, moved to character boundaries, with at most three bytes lost at each end of a valid line; valid UTF-8 when the line was cut or valid, and still containing the query when a valid line contained it |
| `Preview.ToBoundaries` | internal/repo/repo.go:932-937 | both loops stop at the nearest character boundaries inside the window |
| `Preview.Window` | internal/repo/repo.go:920-931 | exactly 4096 bytes with the match in the middle, or at an end of the line if the middle would reach over it |
| `Preview.MatchSurvives` | internal/repo/repo.go:932-938 | moving the ends to character boundaries never cuts into the match |
| `Preview.ValidExactlyWhenEncoded` | internal/repo/repo.go:935-937 | a text is valid UTF-8 if and only if it is the encoding of a sequence of Unicode scalar values (RFC 3629, section 3) |
| `Preview.FewBytesLost` | internal/repo/repo.go:932-937 | moving the window's ends to character boundaries of a valid line loses at most three bytes at each |
| `Preview.CutAtRuneStart` | internal/repo/repo.go:932-937 | valid UTF-8 (RFC 3629, sections 3 and 4) may be cut in front of any byte that starts a character |
| `Preview.Index` | internal/repo/repo.go:916-919 | the first occurrence, or -1 if there is none |
| `Preview.LineOfValidText` | internal/repo/repo.go:885-910 | a line of a valid text is valid |
| `EventStore.Store.constructor` | internal/events/store.go:117-148 | no runs and no events |
| `EventStore.Store.CreateRun` | internal/events/store.go:161-172 | a run is created exactly when its id is new, its status known and the write succeeds; a failed write has created it or nothing |
| `EventStore.Store.AppendEvent` | internal/events/store.go:234-264 | a new event gets the next number, so a run's numbers are 1, 2, 3 and so on; it succeeds exactly for a known run whose write does, and a failed write has appended that event or nothing |
| `EventStore.Store.ListEvents` | internal/events/store.go:266-294 | exactly the events after the given number, in order, up to the limit; none past the end |
| `EventStore.Store.UpdateRunBinding` | internal/events/store.go:194-209 | exactly the three binding fields of that run change, for complete bindings of known runs |
| `EventStore.Store.UpdateRunStatus` | internal/events/store.go:174-189 | the status of a known run changes to a known one, and nothing else does |
| `LoopModel.CompletedIsVerified` | internal/loop/loop.go:177-262 | a completed state is backed by a successful last patch and, after it, a targeted test, a full verification and a checkpoint that each succeeded in that order on the recorded binding |
| `LoopModel.RemainingBounds` | internal/loop/loop.go:137-267 | the lexicographic budget of a state: at least one dispatch and at most 5 * maxRetries + 9 |
| `LoopModel.TransitionUsesBudget` | internal/loop/loop.go:141-262 | every transition of the phase table keeps failed actions distinct and as many as the retries, keeps the plan free of them, and uses up budget |
| `LoopModel.AcceptableExactlyWhen` | internal/loop/loop.go:154-163 | the plans that are taken: on the binding, with 1 to 64 commands, neither destructive nor ambiguous, every action well made and none that has failed before |
| `LoopModel.LevelMeaning` | internal/loop/loop.go:177-262 | how far the calls since the last patch have verified the candidate |
| `LoopModel.LastStateAppend` | internal/loop/loop.go:281-289 | appending a state makes it the one that replay ends with |
| `LoopModel.RefreshEndsResume` | internal/loop/loop.go:270-294 | what load accepts: a log that follows the phase table from a start under a binding loads under it exactly as long as no stored state has moved to another one; once one has, no binding loads it, however it grows |
| `LoopModel.LostExactlyWhen` | internal/loop/loop.go:126-136 | what resumes a run that has stored a state: some binding does if and only if the one it started with does, which is if and only if the run's row still names that binding, no stored state has moved from it and the log has fewer than 10,000 events |
| `LoopModel.RebindingLosesRun` | internal/loop/loop.go:193-201 | once the row names a refreshed binding no binding resumes the run, even before a state is stored under it |
| `LoopModel.RefreshedRunExists` | internal/loop/loop.go:185-201 | a run of five turns whose patch refreshes the binding, with the next state stored, and which no binding loads |
| `LoopModel.ReboundRowExists` | internal/loop/loop.go:197-264 | a run that ended between the update of its row and the next stored state: no stored state has moved, its log loads, and no binding resumes it |
| `LoopModel.TraceUnder` | internal/loop/loop.go:270-294 | a log that loads under a binding started under it |
| `LoopController.Controller.constructor` | internal/loop/loop.go:118-123 | a controller over a run without events, beside the checkpoints that other runs have saved |
| `LoopController.Controller.Persist` | internal/loop/loop.go:296-303 | the state becomes the last one stored, continuing the one before it; a failed write has stored it or nothing |
| `LoopController.Controller.Load` | internal/loop/loop.go:270-294 | when every page can be read, succeeds exactly for logs of fewer than 10,000 events all of whose loop states carry this binding, and then returns the last stored state |
| `LoopController.Controller.Replay` | internal/loop/loop.go:281-289 | one page on top of the pages before it |
| `LoopController.Controller.RecordFailure` | internal/loop/loop.go:305-318 | the failed action is added, once, and the loop goes to diagnosis; it ends instead exactly for an action without a fingerprint, because a repeated one cannot occur |
| `LoopController.Controller.Prepare` | internal/loop/loop.go:142-153 | for every answer of the model: a hypothesis of 1 to 4096 bytes is taken and leads on, any other ends the call with nothing stored, and a refusal ends the run as a model failure |
| `LoopController.Controller.MakePlan` | internal/loop/loop.go:154-167 | for every answer of the model: an acceptable plan leads to its commands, any other plan to the human checkpoint, and a refusal ends the run as a model failure |
| `LoopController.Controller.Diagnose` | internal/loop/loop.go:211-232 | for every answer of the model: a retry needs budget and an acceptable plan with no failed action in it; without either the run ends failed, and a refusal ends it as a model failure |
| `LoopController.Controller.Work` | internal/loop/loop.go:168-241 | for every answer of the authority: success leads from the commands to the patch, from the test to full verification and from there to the checkpoint; a refusal leads to diagnosis with the phase's own action recorded as failed; a death leaves the log as it was |
| `LoopController.Controller.ApplyPatch` | internal/loop/loop.go:177-201 | for every answer of the authority: a refused patch leads to diagnosis, and a patch that succeeded to the targeted test on the binding that the authority refreshes |
| `LoopController.Controller.MoveBinding` | internal/loop/loop.go:185-201 | without a refresher the binding stays; otherwise a valid refreshed binding is in the run's row before the state and plan move to it, and any other answer is recorded as a failure of the patch |
| `LoopController.Controller.SaveCheckpoint` | internal/loop/loop.go:242-258 | for every answer of the authority: a refused checkpoint ends the run failed; after a successful one the record, the run's status and the completed state follow in that order, and a record that exists already ends the call |
| `LoopController.Controller.StoreCheckpoint` | internal/loop/loop.go:250-258 | the checkpoint's record, then the status completed, then the completed state; each failed write ends the call, kept or not |
| `LoopController.Controller.Dispatch` | internal/loop/loop.go:141-262 | a turn goes on only to a state that the phase table allows, after exactly one authority call in each working phase; a refused commands, patch, test or verification call leads to diagnosis with its failure recorded; without a failed write or a death a turn ends the call only in a stored terminal state, for a hypothesis that is not taken or for a checkpoint on record; in a terminal phase it changes nothing |
| `LoopController.Controller.Step` | internal/loop/loop.go:137-267 | one turn and the write of its state; a turn in which nothing fails leads to the phase that follows, unless the checkpoint's record exists |
| `LoopController.Controller.Loop` | internal/loop/loop.go:137-267 | at most 5 * maxRetries + 9 dispatches from any stored state; the log grows along the phase table; what is doomed stays so; it goes as far as Run says |
| `LoopController.Controller.Run` | internal/loop/loop.go:125-268 | over any sequence of runs, crashes and restarts: when its reads succeed the loop is entered exactly when the run is resumable and not cancelled, and a run that is not resumable changes nothing; a run in which nothing fails and every plan can be taken ends completed, its row and status to match, if and only if its checkpoint's record is new; whatever is refused in it, a run in which no write fails and nothing dies ends in a stored terminal state, save for a hypothesis not taken or a checkpoint on record; at most 5 * maxRetries + 9 dispatches; nil only for a completed state, which its calls have earned; a lost run stays lost; a doomed one never completes; after a terminal state nothing changes |
| `LeaseModel.FencesIncrease` | internal/workspace/workspace.go:575-595 | over every run and across all generations, a later acquisition has a strictly larger fence, also when its lease was not stored, and never past 64 bits |
| `LeaseModel.EndedFenceStaysEnded` | internal/workspace/workspace.go:361-437 | a fence that was taken and that no lease passes with - released, expired, recovered, discarded or never stored - never passes again on any generation |
| `LeaseModel.FenceEndsExactlyWhen` | internal/workspace/workspace.go:396-437 | a held fence survives a step exactly when the step does not withdraw its lease and, renewed or not, it has not run out |
| `LeaseModel.FenceNamesOneOwnership` | internal/workspace/workspace.go:491-509 | two leases with one fence that pass at different moments differ in expiry at most, and the fence is held at every moment between |
| `LeaseModel.LaterOwnerFencesOffEarlier` | internal/workspace/workspace.go:361-394 | when a lease with another fence passes on a generation later, its fence is larger and the earlier one never passes from then on |
| `LeaseModel.PassesExactlyWhenGranted` | internal/workspace/workspace.go:491-509 | AssertLease accepts a lease exactly when an acquisition or renewal wrote it, nothing has released, renewed, recovered, quarantined or discarded it since, and it has not expired |
| `LeaseModel.StillPassesExactlyWhen` | internal/workspace/workspace.go:528-549 | a call that asserts a lease and then locks again acts under it exactly when nothing touched it between, or the same lease was written again, and time is not up |
| `LeaseModel.ReservationCanOutliveItsLease` | internal/workspace/workspace.go:528-549 | a run in which a runtime is reserved for a lease released between the two locks |
| `LeaseModel.OneRuntimeOwner` | internal/workspace/workspace.go:536-548 | a reservation stays as written, and no other owner gets in, until it is released or recovered, its owner file removed or its generation moved away |
| `LeaseModel.SoundAlways` | internal/workspace/workspace.go:361-394 | in every run stored leases stand under their own generation, with fences taken from the counter and never shared |
| `Leases.Repository.constructor` | internal/workspace/workspace.go:575-586 | an empty state directory |
| `Leases.Repository.Materialize` | internal/workspace/workspace.go:279-333 | a new generation without a lease; a failure leaves nothing, one that does not load, or a whole one whose last sync failed, always without lease and owner, and no other generation changes |
| `Leases.Repository.AcquireLease` | internal/workspace/workspace.go:361-394 | the fence is taken before the lease is written; success means a fresh fence and a passing lease in an otherwise unchanged state; a stored lease means busy before its expiry and from then on a stale fence and a quarantined generation; the rejections are exactly the listed ones |
| `Leases.Repository.RenewLease` | internal/workspace/workspace.go:396-416 | succeeds exactly for a lease that passes, and changes its expiry alone; a lease of a generation that loads is refused as stale, anything else as malformed |
| `Leases.Repository.ReleaseLease` | internal/workspace/workspace.go:418-437 | succeeds exactly for the stored lease, expired or not, removes that file alone, and its fence no longer passes |
| `Leases.Repository.AssertLease` | internal/workspace/workspace.go:491-509 | accepts exactly the stored lease before its expiry, and changes nothing; stale and malformed leases are told apart |
| `Leases.Repository.Recover` | internal/workspace/workspace.go:179-235 | after success no fence passes and no runtime is owned, and what is left in place is exactly what was active with no lease or a well-formed one |
| `Leases.Repository.RecoverEach` | internal/workspace/workspace.go:195-234 | the loop over the generations, which may stop at any of them |
| `Leases.Repository.RecoverOne` | internal/workspace/workspace.go:201-232 | one generation: moved aside, or stripped of lease and owner |
| `Leases.Repository.DiscardGeneration` | internal/workspace/workspace.go:441-461 | busy exactly while a lease file stands there; on success the generation is gone, and a removal cut short has taken any of its metadata and owner file, leases of others untouched |
| `Leases.Repository.ReserveRuntime` | internal/workspace/workspace.go:528-549 | undisturbed it succeeds exactly when the lease passes at the first lock and at the second the generation still loads and has no owner, and is busy exactly when it has one; what other callers do between the locks is arbitrary, and the reservation is the last step |
| `ConfirmationModel.AllowedExactlyWhenApproved` | internal/security/policy.go:399-463 | over every run, an integration or publication that is otherwise in order is allowed exactly when an operator approved this very scope in this session with the class it needs, the approval has not expired, its token was not presented before and its session not revoked |
| `ConfirmationModel.AllowedOnRecord` | internal/security/policy.go:399-463 | over every run and field by field: a request is allowed exactly when it names a live session's parties, current nonce and enrolled file system, the policy admits it, and an integration or publication presents the trusted reference and the token of an earlier operator approval of exactly its scope, with the class it needs, unexpired, and neither used nor revoked since |
| `ConfirmationModel.HeldExactlyWhenIssued` | internal/security/policy.go:353-397 | a confirmation is on the books exactly from its approval until its token is presented or its session revoked |
| `ConfirmationModel.ApprovalIsTheSessions` | internal/security/policy.go:369-371 | the approved principal and repository are those of the session that uses the approval |
| `ConfirmationModel.TokenIsSpentOnce` | internal/security/policy.go:691-703 | after a step that presented a token, allowed or denied and in whatever session, no later step is allowed with it |
| `ConfirmationModel.AllowedTokenWasDrawn` | internal/security/policy.go:691-703 | an allowed step has presented a token that the engine drew |
| `ConfirmationModel.TokenAllowsOnce` | internal/security/policy.go:691-703 | over every run, no two allowed steps share a token |
| `ConfirmationModel.NonceIsSpentOnce` | internal/security/policy.go:415-430 | a nonce that reached rotation is never admitted again, in any session |
| `ConfirmationModel.DenialSilencesSession` | internal/security/policy.go:423-452 | a request denied after its nonce was rotated silences its session: no later request with a nonce that the engine has told anyone is admitted there |
| `ConfirmationModel.RevokedSessionStaysOut` | internal/security/policy.go:381-397 | a revoked session is never opened again and no confirmation for it is left or issued |
| `ConfirmationModel.ApprovedRunExists` | internal/security/policy.go:399-463 | a run in which an integration is allowed |
| `ConfirmationModel.StepKeepsSound` | internal/security/policy.go:294-301 | nonces are never shared between sessions, and every confirmation belongs to a live session of the parties it names |
| `Confirmations.Engine.constructor` | internal/security/policy.go:303-308 | an engine with empty books |
| `Confirmations.Engine.EnrollRepository` | internal/security/policy.go:310-325 | a fresh reference whose digest is kept; enrolling again replaces it, and nothing else changes |
| `Confirmations.Engine.OpenAuthenticatedSession` | internal/security/policy.go:327-351 | exactly for an enrolled repository, a live principal and a time to live within the cap, a new session that expires with the principal or the time to live, whichever is sooner |
| `Confirmations.Engine.IssueOperatorConfirmation` | internal/security/policy.go:353-379 | a confirmation of exactly this scope, class and time to live, exactly when the operator approved and the scope names a live session's principal and repository |
| `Confirmations.Engine.RevokeSession` | internal/security/policy.go:381-397 | the session and all its confirmations go |
| `Confirmations.Engine.DropConfirmations` | internal/security/policy.go:391-395 | exactly the confirmations of one session are deleted |
| `Confirmations.Engine.ConsumeConfirmation` | internal/security/policy.go:691-703 | succeeds exactly when the token's record has the very scope presented, that scope's session is the caller's, its class is the one the capability needs and it has not expired; the record goes either way |
| `Confirmations.Engine.Authorize` | internal/security/policy.go:399-463 | allows exactly what the policy, nonce, confirmation and reference allow, tells the next nonce only then, and writes one audit event; the nonce rotates exactly for requests in order, the token's record goes exactly for those that get to its check, and each error has its condition |
| `Confirmations.Engine.Decide` | internal/security/policy.go:413-456 | the order of the checks, and what a denial at each of them has already used up |
| `ReplayModel.RecordIsBounded` | internal/security/request_replay.go:85-95 | the cache never holds more than its limit |
| `ReplayModel.RecordIsDistinct` | internal/security/request_replay.go:77-84 | no two entries share a request id, or a session and a sequence number |
| `ReplayModel.ReplayIsRefused` | internal/security/request_replay.go:67-101 | an accepted id is refused while its time to live has not passed and at most the limit of requests, itself included, were accepted with its time or a later one; and a refusal always has such a reason, with ties counted the other way |
| `ReplayModel.RefusedExactlyWhen` | internal/security/request_replay.go:67-101 | when no two requests carry the same time, a request is refused exactly if it repeats an id accepted less than a time to live ago that is still among the last accepted up to the limit |
| `ReplayModel.LaterOnesAreKeptToo` | internal/security/request_replay.go:85-95 | whatever is on record, everything accepted with a later time is too |
| `Replay.RequestReplayCache.constructor` | internal/security/request_replay.go:54 | an empty cache |
| `Replay.RequestReplayCache.New` | internal/security/request_replay.go:44-55 | defaults below one, refusal above the caps |
| `Replay.OpaqueExactlyWhen` | internal/security/request_replay.go:67-69 | the identifiers taken: 1 to 256 characters, none of which separates paths or ends a line |
| `Replay.RequestReplayCache.Accept` | internal/security/request_replay.go:67-101 | malformed metadata is refused without a trace; every other request is logged as accepted or refused, and the entries stay what the log says and within the limit |
| `Replay.RequestReplayCache.AcceptLocked` | internal/security/request_replay.go:72-100 | purge, check, eviction and insertion under the lock |
| `Replay.RequestReplayCache.MakeRoom` | internal/security/request_replay.go:85-95 | evicts one of the oldest exactly when the cache is full |
| `Replay.RequestReplayCache.Purge` | internal/security/request_replay.go:72-76 | exactly the entries whose time to live has passed go |
| `Replay.RequestReplayCache.OldestEntry` | internal/security/request_replay.go:86-93 | an entry that no other is older than, whatever the map order |
| `Replay.RequestReplayCache.Shared` | internal/security/request_replay.go:77-84 | whether any entry has the request id, or the session and sequence number |
| `OutputLog.Process.constructor` | internal/process/process.go:144-150 | an empty log |
| `OutputLog.Process.AppendChunk` | internal/process/process.go:208-240 | chunks are numbered 1, 2, 3 and so on and stored at the end; one is lost exactly when it does not fit, no spill file is open and none can be opened, and then Truncated is set; what is stored is never taken back |
| `OutputLog.Process.StoredInOrder` | internal/process/process.go:208-240 | what a process stores is in cursor order, every cursor positive |
| `OutputLog.OneMoreStore` | internal/process/process.go:208-240 | each append makes the stores of a process one longer growing sequence, which is what paging is proved for |
| `OutputLog.Process.MoveToSpill` | internal/process/process.go:218-227 | the memory goes to the spill file whole and in order |
| `OutputLog.Process.Read` | internal/process/process.go:265-303 | the first limit stored chunks past the cursor; when nothing was lost, exactly that slice of everything ever appended |
| `OutputLog.Process.Scan` | internal/process/process.go:276-299 | one pass over the spill file or the memory |
| `OutputLog.PagingReadsEachOnce` | internal/process/process.go:265-303 | reading on from the last cursor while the process goes on writing gives every stored chunk once and in order, and a page that is not full has reached the end |
| `OutputLog.WithoutKeepsOrder` | internal/process/process.go:208-240 | what is stored is in cursor order, losses included |

## Left out

- Which error `Run` of the scheduler returns when a job failed and a cancellation was seen: either may come first.
- Goroutine-level behaviour of `errgroup` and of the process supervisor; signals, terminals and exit codes.
- Process spawning, containers, sockets, the MCP server and transport, Git commands, SQL, JSON and the secret filters of stored payloads.
- The 64 KiB limit of `readJSON`, the scanner's line limit and non-UTF-8 data in the spill file.
- Path cleaning and the lists of protected names: a parameter of the patch parser (which paths it accepts, and their cleaned form).
- `Compile`, `CompileExecution` and `validateTarget`: parameters of the policy, because one reading settles them.
- The syntax checks of the event store's identifiers and payloads: what fails them is refused before anything changes.
- The syntax checks of the security engine's inputs: a malformed input is refused before anything changes, and inputs are taken to be well formed here.
- `snapshotTree`, used only to detect change; temporary files and directories left behind by failed calls, except the directories above a step's path.
- `RefreshGeneration`, `AssertGeneration`, `ReleaseRuntime` and `CurrentLease`: they assert a lease and lock again, or only read, as the modelled operations do.
- Temporary workspace directories that `Recover` moves aside, and the copying that precedes `Materialize`.
- Loss of a rename by a power failure between it and the directory sync.
- Integration.CheckSteps: the plan's identity fields, which validIntegrationPlan also checks, are not part of the model.
- OutputLog.Process.AppendChunk: a failed write to an open spill file, which the code ignores, is not modelled; spill writes are taken to succeed.
- Replay.RequestReplayCache.Accept: the clock is read outside the lock in the code; the model takes times in the order of the lock.
- Preview.MatchPreview: queries are taken to have 1 to 512 bytes, as the search that calls it demands.
- LoopController.Controller.SaveCheckpoint: what the checkpoint record holds is reduced to its identifier.
- The other packages: command line, control plane wiring, memory, task state, environment, code intelligence and the runtime manager.
