# Verified model of the site's stateful and algorithmic cores

This project models, in Dafny, the parts of the repository whose behaviour is hard to see from one
function body, and proves what they guarantee together: the content-runtime preparation cache, the
factory-replay player, graph ordering and rendering checks, the git synchronisation of the workspace
script, blog dates, footer links and the orchestrator table.

Each module holds the model of one component. Where the source updates state in place, a class or a
method with loops is proved equal to a function on values, and the theorems are about that function.

- `Common`: optional values, filtering with positions, lookup by id, sorting under a given order, modular
  arithmetic, run induction.
- `Waves`: the planner that splits generator steps into concurrent waves. The wave index of a step is
  its Grundy number in the conflict graph (same output, or a dependency in either direction); from this
  follow the exact conditions under which dependencies really run in earlier waves, and optimality of
  the wave count when there are no dependencies.
- `Fingerprints`, `FingerprintText`: what is hashed for a step. The directory material can be decoded exactly when no
  file content has a newline before a NUL, so equal fingerprints mean equal contents under every
  declared path, in any directory listing order.
- `Preparation`, `PreparationHistory`, `ContentRuntime`: cache decisions, the staged runner and whole
  histories of edits, deleted outputs, lost stores, runs and single-step regenerations. A warm run leaves
  what a force-clean run leaves, over a history exactly as long as each event leaves every cache entry true
  of its output; that invariant is the weakest one that guarantees it.
- `RunReport`: what one run skips, starts, writes, records and reports, told from the world before it.
- `EnsureRuntime`: the process memo in front of the graph-registry generator.
- `Playback`, `Scheduler`, `Gates`, `Replay`: the replay player. Timers are a table from handles to
  deadlines under a clock; React state updates are queued until a flush event renders them; callbacks may
  re-enter the scheduler and the gate session. Mount, unmount and remount are events; an effect that
  resets playback on (re)mount is the event that changes the recording.
- `SchedulerReports`, `GateReports`, `ReplayReadings`: the same three told from the calls and events alone:
  deadlines, what the environment last reported, and when a timer must be pending.
- `Listeners`: the gate session's subscribed listeners when `onChange` calls back into the session.
- `ProjectionCache`: the 32-entry first-in-first-out projection cache.
- `GraphOrder`, `FlowGraph`: depth-first ordering of possibly cyclic graphs with dangling child ids, the
  validator, the flow edges and the chain generator.
- `Listing`, `FlowDrawing`: what a drawing shows or why it is refused, told from the graph.
- `GitSync`, `GitOutcomes`: `setup-workspace.py` over an abstract commit graph. What git answers to each command of a
  run is a record of replies, so a statement for all replies covers every path, exceptions included; `GitOutcomes` says exactly how each
  run ends and what it leaves.
- `NextLinks`, `Blog`, `Calendar`, `PageTree`: previous/next links over a list, calendar dates through `Date.UTC`
  overflow, the published list, and the linearised page tree.
- `LocaleRoutes`, `DocsFamilies`: building and matching locale-prefixed routes, and the route families
  that the footer walks stay in.
- `Orchestrators`, `OrchestratorListing`: agreement of records with attribute definitions, and the single-attribute sort.

Parameters stand for what lies outside: the hash is an injective function with newline-free values,
`localeCompare` is a total order on strings, generators are functions of the views at their declared
paths, projectors and message lookups are functions, clocks and timers advance by events.

## Where the code and its documentation differ

- The planner's comment promises that every dependency edge is satisfied by an earlier wave. First fit
  does not give that: `Waves.FirstFitCanRunADependentFirst` is the counterexample, and
  `Waves.WavesRespectDependenciesIff` and `Waves.WavesRespectDependenciesIffNoSkippedLevel` say exactly
  when it holds.
- A memo hit reports success while the output file is missing
  (`EnsureRuntime.MemoHidesMissingOutput`); `EnsureRuntime.EnsureLeavesUsableOutputIff` is the exact condition.
- A run with fingerprints off, or a command that fails after writing to its output, can leave a stale
  cache entry (`PreparationHistory.FingerprintlessRunBreaksTheCache`,
  `PreparationHistory.UntidyFailureBreaksTheCache`). One run keeps the cache honest exactly when every
  command it starts is recorded or leaves a text that is empty, has no stored entry, or is what the entry
  stands for (`PreparationHistory.RunKeepsCacheHonestIff`). Beside a usable output that is the text that was
  there (`PreparationHistory.FingerprintlessRunKeepsCacheHonestIff`,
  `PreparationHistory.OverwritingIsHarmlessIff`);
  `PreparationHistory.EveryWarmRunIsRightIffHistoryIsBenign` is the condition on whole histories.
- The git script is written to bring stashed changes back and to move main only forward. A failing
  `git status` reads as a clean tree, so a later `reset --hard` loses edits
  (`GitSync.FailedStatusLosesEdit`); an existence query that fails on a diverged main lets `update-ref`
  overwrite it (`GitSync.FailedQueryOverwritesMain`); dirt that is only inside submodules makes the script
  apply and drop an unrelated stash entry (`GitSync.SyncedRestoresIff`). The exact conditions are the `Iff`
  lemmas, on the state and git's replies.
- The opt-in is documented as cleared when reduced motion newly activates. A pause callback that turns
  reduced motion on, plays, and turns it off again makes it outlive the activation
  (`Gates.CallbackPlayOutlivesActivation`); `Gates.AllowedIff` is the exact condition, and hosts whose pause
  callbacks never turn reduced motion off meet it (`Gates.TameHostsDecideRight`).
- Years 0000 to 0099 are never accepted as dates (`Blog.AcceptedIffRealDate`).

## Model

| member | source | states |
|---|---|---|
| Waves.PlanWaves | src/lib/content/content-runtime-preparation.ts:391-452 | The planner's loops compute the plan: singletons when concurrency is off, the first unsatisfied step when there is one, first fit otherwise |
| Waves.FindWave | src/lib/content/content-runtime-preparation.ts:416-446 | The inner loop finds the earliest wave without a dependency in either direction or an output collision, and appending there is one first-fit step |
| Waves.PlannerRejectsIff | src/lib/content/content-runtime-preparation.ts:398-414 | The planner throws exactly when concurrency is on and some dependency is neither completed nor listed earlier |
| Waves.AcceptedIsBackward | src/lib/content/content-runtime-preparation.ts:405-414 | In an accepted plan of distinct steps still to run, every dependency on a listed step points backwards in the contract |
| Waves.WavesAreGrundyClasses | src/lib/content/content-runtime-preparation.ts:402-451 | Wave w holds, in contract order, exactly the steps whose Grundy number in the conflict graph is w, and no wave is empty |
| Waves.ClassPositions | src/lib/content/content-runtime-preparation.ts:388 | Each wave is a subsequence of the contract |
| Waves.WavesPartitionSteps | src/lib/content/content-runtime-preparation.ts:405-449 | Every step lands in exactly one wave |
| Waves.WaveMatesDoNotConflict | src/lib/content/content-runtime-preparation.ts:383-387 | Steps of one wave write different outputs and do not depend on each other |
| Waves.WavesRespectDependenciesIff | src/lib/content/content-runtime-preparation.ts:384-385 | All dependencies run in strictly earlier waves exactly when no step fits into a wave below one of its dependencies |
| Waves.WavesRespectDependenciesIffNoSkippedLevel | src/lib/content/content-runtime-preparation.ts:384-385 | With distinct outputs this holds exactly when every step depends directly on a step of each smaller dependency depth |
| Waves.DependedOnStepsInFirstWaveSuffice | src/lib/content/content-runtime-preparation.ts:384-385 | It holds when every depended-on step lands in the first wave |
| Waves.FirstFitCanRunADependentFirst | src/lib/content/content-runtime-preparation.ts:416-446 | With a, b after a, c after b and distinct outputs the plan is [[a, c], [b]], so c runs before b |
| Waves.WaveCountIsGreatestMultiplicity | src/lib/content/content-runtime-preparation.ts:432-446 | Without dependencies the number of waves is the greatest number of steps writing one output |
| Waves.FirstFitIsOptimalWithoutDependencies | src/lib/content/content-runtime-preparation.ts:432-446 | Without dependencies no schedule that separates writers of one output uses fewer waves |
| Fingerprints.CollectSortedFiles | src/lib/content/content-runtime-fingerprints.ts:195-223 | Recursive collection of file paths, sorted at every level |
| Fingerprints.CollectEnumeratesContents | src/lib/content/content-runtime-fingerprints.ts:214-222 | The collected list is sorted, duplicate-free and holds exactly the files below the path |
| Fingerprints.HashPathMaterial | src/lib/content/content-runtime-fingerprints.ts:225-264 | The missing, file, empty-directory and directory cases of one declared path |
| Fingerprints.DecodeInvertsIff | src/lib/content/content-runtime-fingerprints.ts:256-262 | The concatenated path, NUL, content, newline records decode back exactly when no content has a newline before a NUL |
| Fingerprints.NulContentsCollide | src/lib/content/content-runtime-fingerprints.ts:256-262 | A content with a newline before a NUL gives the same material as two files |
| Fingerprints.DirectoriesCollide | src/lib/content/content-runtime-fingerprints.ts:247-263 | Two directories that show different things at a path and have the same material: the content condition cannot be dropped |
| Fingerprints.DirMaterialDeterminesContents | src/lib/content/content-runtime-fingerprints.ts:247-263 | Equal directory material means equal path-to-content maps, and conversely equal maps give equal material |
| Fingerprints.PathMaterialDeterminesView | src/lib/content/content-runtime-fingerprints.ts:225-264 | Material at a path agrees for two trees exactly when both show the same thing there |
| Fingerprints.ComputeStepFingerprint | src/lib/content/content-runtime-fingerprints.ts:278-305 | The hashed text: schema version, step id, then each section's title and path lines |
| Fingerprints.FingerprintDeterminesViews | src/lib/content/content-runtime-fingerprints.ts:274-305 | Fingerprints of a step agree for two trees exactly when every declared path shows the same thing in both |
| FingerprintText.FingerprintHashes | src/lib/content/content-runtime-fingerprints.ts:278-305 | The hashed lines spelled out: `schemaVersion:1`, the step id, then the sections inputs, generators and schemas with their titles and one text for each path |
| FingerprintText.PathTextIs | src/lib/content/content-runtime-fingerprints.ts:225-264 | The text of a path: missing, a file's hash, an empty directory, or the hash of its files in locale order, each as path, NUL, content, newline |
| FingerprintText.ContentsAre | src/lib/content/content-runtime-fingerprints.ts:195-223 | A directory stands for exactly the files that lie below it at their joined paths |
| Fingerprints.ListingOrderIsIrrelevant | src/lib/content/content-runtime-fingerprints.ts:214-222 | Trees that differ only in directory listing order have the same contents |
| Fingerprints.LinesAreInjective | src/lib/content/content-runtime-fingerprints.ts:284-302 | The newline-terminated lines of the hashed text can be told apart |
| Preparation.Workspace.RunPreparation | src/lib/content/content-runtime-preparation.ts:651-831 | One run on the workspace: wipe, decide, plan, run waves, record, report; equal to the run function on values |
| Preparation.Workspace.WipeForForceClean | src/lib/content/content-runtime-preparation.ts:304-322 | Force-clean removes the ignored outputs and, with fingerprints on, empties the store (what that means for a run: `RunReport.OutputAfterRun`, `RunReport.EntryAfterRun`) |
| Preparation.Workspace.DecideSteps | src/lib/content/content-runtime-preparation.ts:684-711 | The steps to run, the skipped ids and the fingerprint each success will record |
| Preparation.Workspace.RecordWave | src/lib/content/content-runtime-preparation.ts:780-797 | Every success of a wave is recorded, also when a sibling failed |
| Preparation.Workspace.RunWaves | src/lib/content/content-runtime-preparation.ts:743-819 | Waves run until the first one with a failing command, whose successes are still recorded |
| Preparation.PlannedStepsAreRunnable | src/lib/content/content-runtime-preparation.ts:713-719 | The plan schedules each step to run exactly once and no other |
| RunReport.RunIsRejectedIff | src/lib/content/content-runtime-preparation.ts:684-719 | A run is rejected exactly when concurrency is on and a step that is no cache hit depends on something that is neither a hit nor to run before it; nothing is then started |
| RunReport.RunSucceedsIff | src/lib/content/content-runtime-preparation.ts:743-831 | Otherwise it succeeds exactly when the command of every step that is no hit exits with status 0 |
| RunReport.ReportLists | src/lib/content/content-runtime-preparation.ts:730-741 | In contract order, the skipped steps are the hits and the completed ones the hits and the started successes, after failures too |
| RunReport.OutputAfterRun | src/lib/content/content-runtime-preparation.ts:304-322 | After any run: a started command leaves what it generates or its failure leaves; any other output is as before, committed ones always, ignored ones unless force-clean removed them |
| RunReport.EntryAfterRun | src/lib/content/content-runtime-preparation.ts:780-797 | After any run: a started success has its fingerprint on record; any other id keeps its entry, or has none after force-clean with fingerprints on |
| RunReport.StoreAfterRun | src/lib/content/content-runtime-fingerprints.ts:379-407 | A run that clears or records leaves a store of schema version 1 |
| RunReport.ReasonTells | src/lib/content/content-runtime-fingerprints.ts:429-492 | What each reported reason to run a step says about its inputs, output and entry |
| PreparationHistory.RunKeepsCacheHonestIff | src/lib/content/content-runtime-preparation.ts:651-831 | For all options and exit statuses, a run keeps the invariant (a stored fingerprint with a usable output means that output is what the step generates for every tree with that fingerprint) exactly when each started command is recorded, writes nothing, or leaves a text that is empty, has no entry or is what the entry stands for |
| PreparationHistory.FingerprintlessRunKeepsCacheHonestIff | src/lib/content/content-runtime-preparation.ts:687-699 | A fingerprint-less success keeps it exactly when every step generates nothing, has no entry, or generates the text that was there before the run (where no usable output was there: the text its entry stands for) |
| PreparationHistory.FingerprintlessRunKeepsFingerprintsIff | src/lib/content/content-runtime-preparation.ts:687-699 | Where different fingerprints of a step mean different texts (`Separating`): exactly when every step has no entry, generates nothing, or has the current tree's fingerprint stored |
| PreparationHistory.ChangedFingerprintCanBeHarmless | src/lib/content/content-runtime-preparation.ts:687-699 | For a generator that ignores part of its inputs the fingerprint can change and the unrecorded success still be harmless |
| PreparationHistory.OverwritingIsHarmlessIff | src/lib/content/content-runtime-preparation.ts:782-797 | Overwriting a usable output is harmless exactly when it leaves nothing, no entry is stored, or the text is the one that was there |
| PreparationHistory.StoredFingerprintsComeFromTrees | src/lib/content/content-runtime-preparation.ts:780-797 | After any history from an empty checkout every stored fingerprint was computed from some tree |
| PreparationHistory.EnsureKeepsCacheHonestIff | src/lib/content/ensure-graph-registry-runtime.ts:163-176 | A single-step regeneration keeps that invariant exactly when its command is recorded or leaves a harmless text |
| PreparationHistory.HistoryKeepsCacheHonest | src/lib/content/content-runtime-fingerprints.ts:429-492 | Every history of benign events keeps it: edits, deleted and truncated outputs, lost stores, and runs and regenerations that keep their entries |
| PreparationHistory.HistoryIsHonestIff | src/lib/content/content-runtime-fingerprints.ts:429-492 | Over any history the invariant holds at every point exactly when every event is benign where it happens |
| PreparationHistory.TidyIsBenign | src/lib/content/content-runtime-preparation.ts:780-797 | Fingerprinted runs whose failing commands leave their output alone, removed or empty are benign in every world |
| PreparationHistory.SuccessfulRunIsUpToDate | src/lib/content/content-runtime-preparation.ts:821-830 | With that invariant every successful run, warm or clean, leaves the output generated from the current tree for every step |
| PreparationHistory.WarmEqualsClean | src/lib/content/content-runtime-preparation.ts:651-831 | Two successful runs from one such world leave byte-identical outputs whatever their options |
| PreparationHistory.WarmEqualsCleanAfterAnyHistory | src/lib/content/content-runtime-preparation.ts:651-831 | From an empty checkout after any benign history a successful warm run leaves what a successful force-clean run would, which is up to date |
| PreparationHistory.HonestIffEveryWarmRunIsUpToDate | src/lib/content/content-runtime-fingerprints.ts:464-491 | The invariant is the weakest possible: it holds exactly when every default run without failures, serial, or concurrent with dependencies listed earlier, leaves up-to-date outputs for every next tree |
| PreparationHistory.EveryWarmRunIsRightIffHistoryIsBenign | src/lib/content/content-runtime-preparation.ts:651-831 | From an empty checkout, at every point of a history every next default run is right exactly when every event of the history is benign |
| PreparationHistory.OtherOutputsUntouched | src/lib/content/content-runtime-preparation.ts:651-831 | Outputs outside the contract are never changed |
| PreparationHistory.SuccessCompletesContract | src/lib/content/content-runtime-preparation.ts:821-830 | Success means completed steps are the contract in order and skipped steps are its cache hits |
| PreparationHistory.FailureReport | src/lib/content/content-runtime-preparation.ts:774-818 | On failure all earlier waves succeeded, no later wave started, and the reported step is a failing one of that wave |
| PreparationHistory.FailedStepIsEarliest | src/lib/content/content-runtime-preparation.ts:774-818 | Among the failing steps of the wave that failed, the reported one comes first in the contract, in serial and concurrent runs alike |
| PreparationHistory.EverySuccessIsRecorded | src/lib/content/content-runtime-preparation.ts:780-797 | After any run the store differs only by the fingerprints of started successes, siblings of a failure included |
| PreparationHistory.CompletionOrderIsIrrelevant | src/lib/content/content-runtime-preparation.ts:750-797 | Commands with distinct outputs may finish in any order |
| PreparationHistory.ConcurrentEqualsSerial | src/lib/content/content-runtime-preparation.ts:713-719 | A successful concurrent run reports and leaves what the serial run does |
| PreparationHistory.FingerprintlessRunBreaksTheCache | src/lib/content/content-runtime-preparation.ts:687-699 | From an empty checkout: a first run, an edit, a run with fingerprints off and the undoing of the edit make the next warm run keep a stale output |
| PreparationHistory.UntidyFailureBreaksTheCache | src/lib/content/content-runtime-preparation.ts:782-797 | From an empty checkout: so does a command that fails after writing to its output |
| ContentRuntime.ComputedFingerprintsAreSound | src/lib/content/content-runtime-fingerprints.ts:274-305 | For generators that read only declared paths, equal computed fingerprints force equal generated outputs |
| ContentRuntime.WarmEqualsCleanForFileTrees | src/lib/content/content-runtime-preparation.ts:651-831 | Warm equals clean for trees of files with the computed fingerprints, after any benign history |
| EnsureRuntime.ProcessState.EnsureOnce | src/lib/content/ensure-graph-registry-runtime.ts:108-193 | One ensure call on memo, counter and workspace: memo hit, cache hit, generation or thrown failure (exactly when each: `EnsureRuntime.CallReturns`) |
| EnsureRuntime.CallReturns | src/lib/content/ensure-graph-registry-runtime.ts:108-193 | In a fresh process, from the calls alone: the memo answers exactly when the last call for the directory that noted something noted the same fingerprint, by generating if this call is forced; else a cache hit skips, else the exit status decides between generated and thrown |
| EnsureRuntime.CallLeaves | src/lib/content/ensure-graph-registry-runtime.ts:166-183 | A generation writes the one output and records a non-empty fingerprint; a throw records nothing; no other output or entry changes |
| EnsureRuntime.ForcedCallAfterHitGenerates | src/lib/content/ensure-graph-registry-runtime.ts:131-133 | A cache hit does not block the forced regeneration after it |
| EnsureRuntime.GeneratesAtMostOnce | src/lib/content/ensure-graph-registry-runtime.ts:101-142 | While a directory's fingerprint stays the same, memo-enabled calls generate at most once, whatever the mix of forced calls, hits and other directories |
| EnsureRuntime.CountIsGeneratorRuns | src/lib/content/ensure-graph-registry-runtime.ts:166-183 | The counter is the number of generator runs that returned, and every result reports it |
| EnsureRuntime.EnsureLeavesUsableOutputIff | src/lib/content/ensure-graph-registry-runtime.ts:128-142 | A returning call leaves a usable output unless the memo answers for a missing or empty one |
| EnsureRuntime.MemoHidesMissingOutput | src/lib/content/ensure-graph-registry-runtime.ts:128-142 | That case is reachable: ensure, delete the output, ensure again |
| Playback.ListRecordedTicks | src/features/factory-replay/playback-transitions.ts:38-44 | Non-empty strictly ascending ticks, exactly those of the events when there are any |
| Playback.NormalizedIsFixed | src/features/factory-replay/playback-transitions.ts:57-63 | Normalising an already recorded tick list changes nothing |
| Playback.EveryRunIsConsistent | src/features/factory-replay/playback-transitions.ts:68-166 | Over every run the ticks are fixed, bounds right, the selected tick recorded and the mode current exactly at the latest tick; reset returns to the initial state |
| Playback.StartsAtLatestTick | src/features/factory-replay/playback-transitions.ts:57-82 | Every recording starts paused and current at its latest tick |
| Playback.ActionChanges | src/features/factory-replay/playback-transitions.ts:84-166 | What each action changes and what it leaves; following goes to the latest tick |
| Playback.SelectTickSelectsIff | src/features/factory-replay/playback-transitions.ts:84-130 | A new tick is selected exactly when it is recorded and a safe integer |
| Playback.AdvanceMovesModulo | src/features/factory-replay/playback-transitions.ts:143-158 | k Advances move the position by k modulo the number of ticks and change nothing else |
| Playback.LapRestoresState | src/features/factory-replay/playback-transitions.ts:143-158 | One lap restores the state |
| Playback.LapVisitsEveryTickOnce | src/features/factory-replay/playback-transitions.ts:143-158 | Within a lap every tick is shown exactly once |
| Scheduler.AutoplayScheduler.SyncWith | src/features/factory-replay/autoplay-scheduler.ts:93-104 | Sync records play and gate state, then clears or schedules the one timer |
| Scheduler.AutoplayScheduler.OnTimeout | src/features/factory-replay/autoplay-scheduler.ts:73-81 | The timer callback, with any calls made from inside onAdvance, then the next scheduling |
| Scheduler.AutoplayScheduler.DisposeScheduler | src/features/factory-replay/autoplay-scheduler.ts:85-89 | Dispose stops playing and clears the timer |
| Scheduler.AutoplayScheduler.IsScheduled | src/features/factory-replay/autoplay-scheduler.ts:90-92 | Between the events of a run it tells whether a timer is live, which is whether the calls so far enable playback |
| Scheduler.AtMostOneLiveTimer | src/features/factory-replay/autoplay-scheduler.ts:52-106 | Over every interleaving at most one timer is live, it is the pending one, and it is there exactly while the last sync was enabling and nothing was disposed |
| Scheduler.AdvancesOnlyWhileEnabled | src/features/factory-replay/autoplay-scheduler.ts:73-104 | No Advance follows a disposal, or a disabling sync until an enabling one |
| Scheduler.AdvanceRateIsBounded | src/features/factory-replay/autoplay-scheduler.ts:69-82 | After time T at most T / 2000 Advances have fired, re-entrant calls included |
| Scheduler.AdvanceIsDueWithinInterval | src/features/factory-replay/autoplay-scheduler.ts:69-82 | While enabled the next Advance falls due within one interval |
| Scheduler.RedundantSyncKeepsDeadline | src/features/factory-replay/autoplay-scheduler.ts:69-72 | A redundant enabling sync moves neither the timer nor its deadline |
| SchedulerReports.StepMarks | src/features/factory-replay/autoplay-scheduler.ts:52-106 | In every reachable state a call leaves its mark, and a due timer an Advance followed by the marks of the calls from inside it; a sync without a gate value counts as allowed |
| SchedulerReports.DeadlineIs | src/features/factory-replay/autoplay-scheduler.ts:69-104 | After any event no timer is pending unless the last sync enables; one in force that did not just fire keeps its deadline; any other is due 2000 milliseconds from now |
| Gates.AutoplayGateSession.Perform | src/features/factory-replay/autoplay-gates.ts:145-209 | The session's visibility, intersection, play, stop and dispose operations (that they take effect: `GateReports.SessionIsAsReported`) |
| Gates.AutoplayGateSession.ChangeReducedMotion | src/features/factory-replay/autoplay-gates.ts:161-173 | Newly active reduced motion clears the opt-in and asks for a pause before the signal changes; the calls made from inside the pause callback may change reduced motion again, to any depth |
| Gates.AllowedIff | src/features/factory-replay/autoplay-gates.ts:57-210 | Over every run, at every point, callbacks included, autoplay is allowed exactly when visible, intersecting, and either motion is unrestricted or the user played since reduced motion became active and has not stopped: exactly when at each activation the pause callback leaves the opt-in clear or has activated reduced motion itself |
| Gates.TameHostsDecideRight | src/features/factory-replay/autoplay-gates.ts:161-173 | Hosts whose pause callbacks never turn reduced motion off meet that condition in every run |
| Gates.CallbackPlayOutlivesActivation | src/features/factory-replay/autoplay-gates.ts:161-173 | A pause callback that turns reduced motion on, plays and turns it off leaves autoplay allowed without an opt-in |
| Gates.LastEmissionIsTheDecision | src/features/factory-replay/autoplay-gates.ts:122-148 | Until disposal, whatever calls the pause callbacks make, the last decision given to `onChange` is the current one |
| Gates.DisposedIsSilent | src/features/factory-replay/autoplay-gates.ts:122-125 | A disposed session emits nothing and keeps its signals |
| GateReports.SessionIsAsReported | src/features/factory-replay/autoplay-gates.ts:108-210 | From the calls alone, pause callbacks included: visibility, intersection and reduced motion are what was last reported, and the current and all emitted decisions are those the calls give |
| GateReports.AllowedAsReportedIff | src/features/factory-replay/autoplay-gates.ts:57-210 | On what was reported: at every point autoplay is allowed exactly when visible, in view, and motion not reduced or the user opted in, exactly when each pause callback leaves reduced motion on or the opt-in clear |
| Listeners.OnChangeHearsTheDecision | src/features/factory-replay/autoplay-gates.ts:122-148 | The same however `onChange` calls back into the session, and allowed keeps its meaning |
| Listeners.ListenerIsCurrentIff | src/features/factory-replay/autoplay-gates.ts:122-131 | Over every run a subscribed listener is current between calls exactly when, in each emitting call, what `onChange` does leaves visibility, intersection, reduced motion and the opt-in under it as they were told, or disposes |
| Listeners.CallTells | src/features/factory-replay/autoplay-gates.ts:122-131 | A listener hears of an emitting call after the calls `onChange` makes, and nothing of it once those dispose the session; silent calls tell nothing |
| Listeners.PassiveListenerIsCurrent | src/features/factory-replay/autoplay-gates.ts:122-131 | So it is always current when `onChange` makes no calls |
| Listeners.ListenerEndsStale | src/features/factory-replay/autoplay-gates.ts:122-131 | An `onChange` that shows the page again leaves the listener at the hidden decision |
| Replay.ControlledReplay.RunMountEffect | src/features/factory-replay/use-controlled-factory-replay.ts:125-176 | The mount effect: fresh session and scheduler, initial gate value, pause under reduced motion, DOM readings, sync on rendered values |
| Replay.ControlledReplay.RenderAndSync | src/features/factory-replay/use-controlled-factory-replay.ts:188-193 | A flush renders queued updates and syncs the scheduler when its inputs changed |
| Replay.ControlledReplay.CleanUp | src/features/factory-replay/use-controlled-factory-replay.ts:178-185 | Unmounting disposes scheduler and session |
| Replay.ControlledReplay.DispatchPlay | src/features/factory-replay/use-controlled-factory-replay.ts:218-221 | Play notifies the gate session, then queues the transition |
| Replay.ControlledReplay.DispatchPause | src/features/factory-replay/use-controlled-factory-replay.ts:223-226 | Pause notifies the gate session, then queues the transition |
| Replay.ControlledReplay.DispatchReset | src/features/factory-replay/use-controlled-factory-replay.ts:228-231 | Reset notifies the gate session, then queues the transition |
| Replay.ControlledReplay.OnTimer | src/features/factory-replay/use-controlled-factory-replay.ts:139-141 | A due timer queues an Advance through the scheduler |
| Replay.EveryRunKeepsInv | src/features/factory-replay/use-controlled-factory-replay.ts:85-246 | The composed invariant holds over every run of mounts, flushes, user, environment and timer events |
| Replay.TimerPendingIffPlayingAndAllowed | src/features/factory-replay/use-controlled-factory-replay.ts:173-193 | In every reachable flushed state a timer is pending exactly when playing and the gate allows; never two, none after unmount |
| ReplayReadings.TimerPendingIffMayAdvance | src/features/factory-replay/use-controlled-factory-replay.ts:85-246 | From the events alone: in every reachable flushed state a timer is pending exactly when mounted, playing, visible and in view as last reported, and motion is not reduced or the user opted in |
| ReplayReadings.EventPlays | src/features/factory-replay/use-controlled-factory-replay.ts:125-231 | What each event does to playback in every reachable state |
| ReplayReadings.FiringsAreBounded | src/features/factory-replay/use-controlled-factory-replay.ts:139-141 | Over every run, remounts included, playback advances by itself at most once for every 2000 milliseconds |
| Replay.PlayingUnderReducedMotionIsOptedIn | src/features/factory-replay/use-controlled-factory-replay.ts:125-156 | Under reduced motion, playing implies an explicit Play since it became active or since the mount |
| Replay.ActivationStopsAutoplay | src/features/factory-replay/use-controlled-factory-replay.ts:135-137 | After reduced motion becomes active, playback stays paused and flushed states hold no timer until the user plays |
| Replay.PausedUntilUserPlays | src/features/factory-replay/use-controlled-factory-replay.ts:125-231 | Once paused, playback stays paused through flushes, gate changes and remounts until the user plays |
| Replay.DueTimerAdvances | src/features/factory-replay/use-controlled-factory-replay.ts:139-141 | A due timer always advances; in a flushed state playback is then playing and allowed |
| Replay.AdvanceCanFollowUnflushedPause | src/features/factory-replay/use-controlled-factory-replay.ts:139-141 | An Advance can follow a Pause that has not been rendered yet |
| Replay.AdvanceFollowsPauseInSomeRun | src/features/factory-replay/use-controlled-factory-replay.ts:139-141 | A run from the initial host that does so, for every recording |
| ProjectionCache.ReplayProjectionCache.BindCanonicalEvents | src/features/factory-replay/projection-cache.ts:57-76 | Binding reuses the canonical events of the same id and event array, and otherwise replaces them and clears the projections |
| ProjectionCache.ReplayProjectionCache.PrepareAtTick | src/features/factory-replay/projection-cache.ts:94-117 | Every read returns the direct projection and projects exactly on a miss |
| ProjectionCache.EveryReadIsDirect | src/features/factory-replay/projection-cache.ts:90-117 | Over every sequence of reads across recordings and event swaps: at most 32 entries, all direct, and the one just read is kept |
| ProjectionCache.FewTicksProjectOnce | src/features/factory-replay/projection-cache.ts:101-114 | From any cache not bound to the recording, while at most 32 distinct ticks are read each is projected once |
| ProjectionCache.LongLapsNeverHit | src/features/factory-replay/projection-cache.ts:106-114 | From any such cache, laps over more than 32 ticks never hit; after the first read the cache holds the last 32 reads |
| GraphOrder.Orderer.VisitNode | src/lib/content/graph-flow.ts:314-327 | The recursive visit terminates on cyclic graphs and updates the seen ids and the ordering as the walk function says |
| GraphOrder.OrderGraphNodes | src/lib/content/graph-flow.ts:309-338 | Index, walk from the root, then append the nodes whose id was not seen |
| GraphOrder.WalkSeesReachable | src/lib/content/graph-flow.ts:314-329 | The walk sees exactly the existing ids reachable from the root; dangling child ids are ignored |
| GraphOrder.OrderIsReachableThenRest | src/lib/content/graph-flow.ts:309-338 | The ordering is the reachable nodes, once each, root first and each other one after a parent, then the unreachable nodes in registry order |
| GraphOrder.OrderIsPermutationIff | src/lib/content/graph-flow.ts:310-335 | It is a permutation of the registry nodes exactly when no reachable id is carried by two nodes |
| GraphOrder.OrderIsStackOrder | src/lib/content/graph-flow.ts:314-329 | Its reachable part is the pre-order of depth-first search with an explicit stack |
| GraphOrder.IndexKeepsLast | src/lib/content/graph-flow.ts:309-310 | Of nodes with one id the last is the one that is walked |
| FlowGraph.CollectIssues | src/lib/content/graph-flow.ts:815-841 | The validator's loops over nodes, children and edges collect the issue list in order |
| FlowGraph.IssuesAreFaults | src/lib/content/graph-flow.ts:811-846 | The issues are exactly the missing labels, children, sources and targets of the graph |
| FlowGraph.DrawnIffClosed | src/lib/content/graph-flow.ts:811-860 | A graph is drawn exactly when every label resolves and every child id and explicit endpoint is a node id |
| FlowGraph.BuildFlowEdges | src/lib/content/graph-flow.ts:581-709 | Explicit edges if there are any, otherwise one edge for each child id in order (what a drawing then shows: `FlowDrawing.DrawnEdgesAre`) |
| FlowGraph.BuildFlowGraph | src/lib/content/graph-flow.ts:848-904 | Order, validate, then nodes and edges, or the list of issues |
| FlowGraph.DrawnEdgesJoinDrawnNodes | src/lib/content/graph-flow.ts:848-904 | Every edge of a drawn graph joins two drawn nodes, and the drawn nodes carry exactly the registry ids |
| FlowDrawing.DrawnEdgesAre | src/lib/content/graph-flow.ts:581-709 | The edges of a drawing are the explicit ones if any, and otherwise exactly one from each node to each of its children, in the order of nodes and children |
| FlowDrawing.DrawnNodesAre | src/lib/content/graph-flow.ts:848-904 | Its nodes are the reachable ones, once each and after a parent, then the others in registry order |
| FlowDrawing.RejectedIssuesAre | src/lib/content/graph-flow.ts:811-846 | A refused graph's issues are its faults, each once: labels and children node by node, then sources and targets edge by edge |
| FlowGraph.BuildGraphStructure | src/lib/content/generate-page-bundle-graphs.ts:30-69 | The generator's node and edge loops with their error branches |
| FlowGraph.ChainIsClosed | src/lib/content/generate-page-bundle-graphs.ts:37-66 | The generator succeeds exactly on non-empty lists without an empty id, and its graph can fail validation only for want of a label |
| FlowGraph.ChainIsInSpecOrder | src/lib/content/generate-page-bundle-graphs.ts:46-54 | A generated chain is ordered as its specification lists it |
| FlowGraph.ChainEdgesMatchDerived | src/lib/content/generate-page-bundle-graphs.ts:55-66 | Its explicit edges join the same nodes in the same order as the edges derived from the child ids |
| FlowDrawing.ChainIsDrawn | src/lib/content/generate-page-bundle-graphs.ts:30-69 | A specification is refused for want of nodes or of a target exactly as its ids say, and otherwise drawn, if every label has a message, as a row of linked nodes of which the first is the input |
| GitSync.CanFastForwardIff | factory/scripts/setup-workspace.py:165-173 | The merge-base test recognises strict fast-forwards and nothing else |
| GitSync.Checkout.StashLocalChanges | factory/scripts/setup-workspace.py:55-70 | Stash the visible changes, or report clean or refused |
| GitSync.Checkout.RestoreStashedChanges | factory/scripts/setup-workspace.py:73-101 | Apply with index, else plainly, keep the entry on failure, drop it on success |
| GitSync.Checkout.SyncCheckedOutMainWithStash | factory/scripts/setup-workspace.py:185-204 | Stash, pull or fetch and reset, confirm, and restore on every path |
| GitSync.Checkout.SyncRootMain | factory/scripts/setup-workspace.py:207-258 | All branches of the root sync, with outcome (exactly when each: `GitOutcomes.RootOutcomeIff`) |
| GitSync.Checkout.SyncReusedWorktreeBranch | factory/scripts/setup-workspace.py:318-366 | All branches of the worktree sync, with outcome |
| GitOutcomes.RootOutcomeIff | factory/scripts/setup-workspace.py:207-258 | The root sync ends skipped, up to date, created, fast-forwarded, synced or with a given error exactly under that outcome's condition on the repository and git's answers |
| GitOutcomes.RootStateIs | factory/scripts/setup-workspace.py:185-258 | What it leaves: refs, HEAD, remote refs, changes and stash |
| GitOutcomes.BranchOutcomeIff | factory/scripts/setup-workspace.py:318-366 | The worktree sync ends synced, skipped or with a given error exactly under that outcome's condition |
| GitOutcomes.SyncReusedIs | factory/scripts/setup-workspace.py:318-366 | How it ends and what it leaves: refs, HEAD, remote refs, changes and stash |
| GitSync.MainMovesForwardIff | factory/scripts/setup-workspace.py:207-258 | An existing main stays or moves to a descendant on every path, except exactly when the existence query fails, `update-ref` runs and main is not an ancestor of the target; no other branch and no HEAD is touched |
| GitSync.ReusedBranchMovesForward | factory/scripts/setup-workspace.py:318-366 | On every path the branch stays or moves to a descendant, and no other branch is touched |
| GitSync.RootSyncKeepsChangesIff | factory/scripts/setup-workspace.py:185-258 | Every local change stays in the working tree or the stash on every path, except exactly when the second status query fails and the hard reset discards a change no stash entry holds; an untracked file outlives it unless the target tracks its path |
| GitSync.BranchSyncKeepsChangesIff | factory/scripts/setup-workspace.py:318-366 | The same for the worktree sync, with its one status query |
| GitSync.OutcomeTellsState | factory/scripts/setup-workspace.py:201-258 | What each outcome, errors included, says about refs, files and stash; a fetch-only fast-forward of a checked-out main leaves its files at the old commit |
| GitSync.SyncedRestoresIff | factory/scripts/setup-workspace.py:55-101 | A synced checkout has its changes and stash back as they were exactly when seen changes were stashed and a failing first apply left nothing new behind, or unseen changes were not discarded; with dirt only inside submodules an unrelated stash entry is applied and dropped |
| GitSync.FailedStatusLosesEdit | factory/scripts/setup-workspace.py:49-58 | A failing status query before the reset loses an edit |
| GitSync.FailedQueryOverwritesMain | factory/scripts/setup-workspace.py:240-242 | A failing existence query overwrites a diverged main |
| Blog.YearLength | src/lib/content/blog-frontmatter.ts:31-32 | Day numbers of the Gregorian calendar: each year is as long as its leap status says |
| Blog.FieldsRoundTrip | src/lib/content/blog-frontmatter.ts:31-38 | Reading back a day built from real fields gives those fields |
| Blog.DayRoundTrip | src/lib/content/blog-frontmatter.ts:31-38 | The fields of a day build that day again |
| Calendar.DaysRunOn | src/lib/content/blog-frontmatter.ts:31-38 | Day 0 is 1 January 1970, days and months run on by the Gregorian calendar, and months beyond December or before January carry into the year |
| Calendar.PatternIff | src/lib/content/blog-frontmatter.ts:26-30 | A string has the pattern exactly when it is four, two and two decimal digits joined by hyphens, and then its fields are the numbers these spell |
| Calendar.DayOfString | src/lib/content/blog-frontmatter.ts:31-38 | It stands for the day of those fields, the years 0 to 99 for 1900 to 1999 |
| Blog.AcceptedIffRealDate | src/lib/content/blog-frontmatter.ts:26-39 | A string is accepted exactly when it has the pattern and names a Gregorian date of year 100 or later |
| Blog.StringOrderIsChronological | src/lib/content/blog-post-list.ts:60-62 | On the dates that are accepted, string order is chronological order |
| Blog.ListPublishedBlogPosts | src/lib/content/blog-post-list.ts:70-92 | The loop keeps the listed posts, which are then sorted newest first with slug tie-break |
| Blog.ListingIgnoresDirectoryOrder | src/lib/content/blog-post-list.ts:70-92 | The listing does not depend on the directory enumeration order |
| Blog.NextLinksVisitNewestToOldest | src/lib/content/blog-next-post.ts:31-55 | Resolving the next post again and again from the first listed post visits every published post once, newest to oldest, and stops |
| Blog.NextIsImmediateSuccessor | src/lib/content/blog-next-post.ts:31-55 | The next post is listed and comes after the one with the slug in newest-first, slug tie-break order, with no listed post between them; there is none exactly when the slug is not listed or nothing comes after it |
| NextLinks.WalkEndsIffDistinct | src/lib/content/blog-next-post.ts:40-48 | Following next links ends exactly when no slug repeats |
| NextLinks.InverseIffDistinct | src/lib/content/factory-prev-next-related.ts:92-100 | Next and previous are mutually inverse exactly when no url repeats |
| PageTree.CollectDocsFooterPageItems | src/lib/content/factory-prev-next-related.ts:51-80 | The recursion appends a folder's index, then its children, skipping external pages and separators |
| PageTree.PreOrderAddresses | src/lib/content/factory-prev-next-related.ts:47-80 | The list corresponds one to one, in order, to the pre-order addresses of the tree's non-external pages |
| PageTree.NeighborsAreLinks | src/lib/content/factory-prev-next-related.ts:87-103 | The footer shows the list's previous and next links unless one points at a deleted address, which is an error |
| PageTree.TreeWalk | src/lib/content/factory-prev-next-related.ts:87-103 | With distinct urls the walk over the footer links visits every non-external page once in pre-order, until a page with a deleted neighbour throws |
| PageTree.WalkNeverFailsIff | src/lib/content/factory-prev-next-related.ts:87-103 | A walk over the footers of a list with distinct urls never throws exactly when no listed page is at a deleted address or there is at most one page |
| PageTree.TreeWalkNeverFailsIff | src/lib/content/factory-prev-next-related.ts:87-103 | So for the walk over the whole tree |
| PageTree.PreviousUndoesNext | src/lib/content/factory-prev-next-related.ts:87-103 | The page that next leads to shows the page it came from as previous, or throws |
| PageTree.FamilyIsIndexThenNested | src/lib/content/factory-prev-next-related.ts:129-154 | A family's list is its index followed by the tree's pages below it in tree order |
| PageTree.FamilyLinksStayInside | src/lib/content/factory-prev-next-related.ts:156-190 | No link of a family page leaves the family |
| PageTree.FamilyWalk | src/lib/content/factory-prev-next-related.ts:156-190 | For any resolver that sends every url at or below an index to that index, a walk over the family footers visits from the index exactly the family, each page once, until a page with a deleted neighbour throws |
| DocsFamilies.FamilyOfIff | src/lib/content/factory-prev-next-related.ts:109-127 | A url belongs to a family exactly when its path without locale, query and fragment is the family's index or lies below it |
| DocsFamilies.FamilyIndexIff | src/lib/content/factory-prev-next-related.ts:156-178 | Its footer list starts at a family's index in a locale exactly when, besides, it is matched to that locale |
| DocsFamilies.PageResolves | src/lib/content/factory-prev-next-related.ts:109-154 | Every url at or below a family's index, in every locale, resolves to that index |
| DocsFamilies.EveryFamilyWalk | src/lib/content/factory-prev-next-related.ts:156-190 | So the footer walk of every family in every locale visits exactly the family |
| LocaleRoutes.RouteRoundTripIff | src/lib/i18n/locale-routing.ts:112-235 | A built route is matched to its destination, locale and path exactly when the slug is not empty, has no `?` or `#`, is not the architecture page's, and under a locale prefix has no empty segment |
| LocaleRoutes.AddressIs | src/lib/i18n/locale-routing.ts:101-138 | The address of every destination in every locale |
| LocaleRoutes.DestinationIff | src/lib/i18n/locale-routing.ts:140-193 | An address stands for a destination exactly when it is that destination's default address and its slug, if any, is not empty; the architecture page hides a docs page of that slug |
| LocaleRoutes.MatchTells | src/lib/i18n/locale-routing.ts:195-235 | How any address is matched: by its first non-empty segment, as a supported locale, an unsupported one or none |
| PageTree.FamiliesAreDisjoint | src/lib/content/factory-prev-next-related.ts:144-147 | Families of which neither index lies below the other share no page |
| Orchestrators.ValidateAttributeAgreement | src/lib/content/orchestrators.ts:246-351 | The validator's loops over definitions, records, attributes and tags collect the error list in order |
| Orchestrators.NoFaultsIffAgreement | src/lib/content/orchestrators.ts:242-351 | The validator reports nothing exactly when every tag definition lists tags and every attribute is defined and conforms |
| OrchestratorListing.ReportIsComplete | src/lib/content/orchestrators.ts:246-351 | The report holds everything that is wrong, each fault once: definitions, then record by record, attribute by attribute and tag by tag, under the last definition of an id |
| Orchestrators.KeysCompareAsRanks | src/lib/content/orchestrators.ts:500-532 | Comparing numbers as numbers and the rest as strings agrees with comparing all keys as strings, missing last |
| Orchestrators.ComparatorIsStrictTotalOrder | src/lib/content/orchestrators.ts:515-555 | In both directions the comparator is antisymmetric, transitive and ties only rows of one id |
| Orchestrators.SortIgnoresInputOrder | src/lib/content/orchestrators.ts:534-556 | The sorted result depends neither on input order nor on the sorting algorithm |
| OrchestratorListing.RowsAreSorted | src/lib/content/orchestrators.ts:493-556 | The sorted rows are the given ones by the text of the attribute (0 and 1 for booleans, tags joined by commas), missing last ascending and first descending, ties by id |
| Orchestrators.SortCommutesWithFilter | src/lib/content/orchestrators.ts:488-556 | Sorting the filtered rows is filtering the sorted rows, for every filter |
| Orchestrators.DescendingIsReversedIff | src/lib/content/orchestrators.ts:534-555 | Descending is ascending reversed exactly when no two of the given rows tie on the attribute |

## Left out

- Hash collisions, UTF-8 and the size of files: the hash is injective and a file is usable when its content is not empty.
- The JSON text of the fingerprint store: a store file is absent, unreadable or a version with entries.
- Removal of the generated `.source` directory on force-clean, command lines, log lines and repair guidance.
- Edits of an output file to other non-empty contents between runs: no fingerprint covers outputs, so such an edit survives by design.
- Changes of the input tree while a run is in progress, and two runs at once.
- Git verification of the completeness gate (`verifyContentRuntimeCompleteness`): process calls and report text.
- A host whose `onRequestPause` and `onChange` both call back into the session (each is modelled with the other making no calls), and listeners that call back or are added or removed during an emission.
- Replay: the second, redundant sync effect on first mount, and rebinding the root element, which repeat modelled session calls.
- Mutation in place of a recording's event array after binding: the cache identifies the array by reference.
- The packaged projectors, React rendering and DOM observers.
- Node positions, sizes, styles, labels' wording and edge semantics in flow graphs: no property beyond the branch they name.
- The schema parse and the file writing of `buildGraphRegistryArtifacts`, and the order in which `Object.keys` enumerates integer-like node ids: the generator starts from the enumerated keys.
- Worktree creation, pruning and file copying in the workspace script, a `git checkout` that resolves its argument as a path, and changes made by other processes during a run.
- GitSync.RootSyncKeepsChangesIff: ignored files, which neither status nor stash mentions, are not part of a working tree's changes.
- Blog post loading, locale message files and page metadata: a post is a slug, a date and whether it is listed.
- `switchRouteLocale` and the other users of locale routes.
- Orchestrator filters one by one: they are row predicates, and sorting commutes with any of them.
- The loading of registry files, schema errors, and comparators that call distinct strings equal: `localeCompare` is a total order.
