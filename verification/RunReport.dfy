/** What one preparation run skips, starts, writes, records and reports, told from the world
    before it. */
module RunReport {
  import opened Common
  import opened Waves
  import opened Preparation
  import opened PreparationHistory

  // ----- Cache hits -----

  /** The fingerprint on record for a step: only a store of schema version 1 is read. */
  function Entry(file: StoreFile, id: string): Option<string> {
    if file.Stored? && file.version == 1 && id in file.steps && file.steps[id] != "" then Some(file.steps[id]) else None
  }

  /** The step has inputs, its output is there and not empty, and the fingerprint on record
      is the current tree's; neither force-clean nor switched-off fingerprints ask to ignore it. */
  predicate Hit<T>(env: Env<T>, w: World<T>, opts: Options, s: Step) {
    && opts.useFingerprints && !opts.forceClean
    && env.fingerprint(s.id, w.tree).Some?
    && Get(w.outputs, s.outputPath).GetOr("") != ""
    && Entry(w.store, s.id) == env.fingerprint(s.id, w.tree)
  }

  lemma HitIsSkipped<T>(env: Env<T>, steps: seq<Step>, w: World<T>, opts: Options, s: Step)
    ensures Decide(env, Wipe(steps, opts, w), s, opts).Skip? <==> Hit(env, w, opts, s)
  {
  }

  /** Why a step that is not a hit is run, with fingerprints on. */
  lemma ReasonTells<T>(env: Env<T>, w: World<T>, s: Step, forceClean: bool)
    requires Evaluate(env, w, s, forceClean).Run?
    ensures Evaluate(env, w, s, forceClean).fingerprint == env.fingerprint(s.id, w.tree)
    ensures match Evaluate(env, w, s, forceClean).reason
      case NoFingerprintInputs => env.fingerprint(s.id, w.tree) == None
      case ForceClean => forceClean && env.fingerprint(s.id, w.tree).Some?
      case MissingOutput => !forceClean && env.fingerprint(s.id, w.tree).Some? && Get(w.outputs, s.outputPath) == None
      case UnusableOutput =>
        !forceClean && env.fingerprint(s.id, w.tree).Some? && Get(w.outputs, s.outputPath) == Some("")
      case FingerprintMiss =>
        && !forceClean && env.fingerprint(s.id, w.tree).Some? && Get(w.outputs, s.outputPath).GetOr("") != ""
        && Entry(w.store, s.id) != env.fingerprint(s.id, w.tree)
  {
  }

  // ----- How a run ends -----

  /** Step `i` is to run and depends on `d`, which is neither a hit nor to run before it. */
  ghost predicate Misses<T>(env: Env<T>, steps: seq<Step>, w: World<T>, opts: Options, i: nat, d: string)
    requires i < |steps|
  {
    && !Hit(env, w, opts, steps[i]) && d in steps[i].dependsOn
    && forall j | 0 <= j < |steps| && steps[j].id == d :: !Hit(env, w, opts, steps[j]) && j >= i
  }

  lemma LacksIsMisses<T>(env: Env<T>, steps: seq<Step>, w: World<T>, opts: Options, r: nat, d: string)
    requires r < |Runnable(env, Wipe(steps, opts, w), steps, opts)|
    requires var start := Wipe(steps, opts, w);
      Lacks(Runnable(env, start, steps, opts), SkippedIds(env, start, steps, opts), r, d)
    ensures exists i: nat :: i < |steps| && Misses(env, steps, w, opts, i, d)
  {
    var start := Wipe(steps, opts, w);
    var runs := (s: Step) => Decide(env, start, s, opts).Run?;
    KeptAtPosition(steps, runs, r);
    var i := Positions(steps, runs, 0)[r];
    forall j | 0 <= j < |steps| ensures Hit(env, w, opts, steps[j]) <==> !runs(steps[j]) {
      HitIsSkipped(env, steps, w, opts, steps[j]);
    }
    forall j | 0 <= j < |steps| && steps[j].id == d ensures runs(steps[j]) && j >= i {
      if runs(steps[j]) && j < i {
        var k := KeptBefore(steps, runs, r, j);
      }
    }
    assert Misses(env, steps, w, opts, i, d);
  }

  lemma MissesIsLacks<T>(env: Env<T>, steps: seq<Step>, w: World<T>, opts: Options, i: nat, d: string) returns (r: nat)
    requires i < |steps| && Misses(env, steps, w, opts, i, d)
    ensures var start := Wipe(steps, opts, w);
      && r < |Runnable(env, start, steps, opts)|
      && Lacks(Runnable(env, start, steps, opts), SkippedIds(env, start, steps, opts), r, d)
  {
    var start := Wipe(steps, opts, w);
    var runs := (s: Step) => Decide(env, start, s, opts).Run?;
    forall j | 0 <= j < |steps| ensures Hit(env, w, opts, steps[j]) <==> !runs(steps[j]) {
      HitIsSkipped(env, steps, w, opts, steps[j]);
    }
    r := PositionOf(steps, runs, i);
    KeptAtPosition(steps, runs, r);
    forall k | 0 <= k < r ensures Filter(steps, runs)[k].id != d {
      KeptAtPosition(steps, runs, k);
      assert Positions(steps, runs, 0)[k] < i;
    }
  }

  /** A run is rejected exactly when concurrency is on and a step to run depends on something
      that is neither a hit nor to run before it; then nothing is started. */
  lemma RunIsRejectedIff<T>(env: Env<T>, steps: seq<Step>, w: World<T>, opts: Options, outcomes: string -> Outcome)
    ensures Prepare(env, steps, w, opts, outcomes).1.Rejected?
       <==> opts.concurrency && exists i: nat, d :: i < |steps| && Misses(env, steps, w, opts, i, d)
    ensures Prepare(env, steps, w, opts, outcomes).1.Rejected? ==> StartedSteps(env, steps, w, opts, outcomes) == []
  {
    var start := Wipe(steps, opts, w);
    var runnable, skipped := Runnable(env, start, steps, opts), SkippedIds(env, start, steps, opts);
    PlannerRejectsIff(runnable, opts.concurrency, skipped);
    if r: nat, d :| r < |runnable| && Lacks(runnable, skipped, r, d) {
      LacksIsMisses(env, steps, w, opts, r, d);
    }
    if i: nat, d :| i < |steps| && Misses(env, steps, w, opts, i, d) {
      var r := MissesIsLacks(env, steps, w, opts, i, d);
    }
  }

  /** A run that is not rejected succeeds exactly when the command of every step that is not
      a hit exits with status 0. */
  lemma RunSucceedsIff<T>(env: Env<T>, steps: seq<Step>, w: World<T>, opts: Options, outcomes: string -> Outcome)
    requires ValidContract(steps) && !Prepare(env, steps, w, opts, outcomes).1.Rejected?
    ensures Prepare(env, steps, w, opts, outcomes).1.Prepared?
       <==> forall s :: s in steps ==> Hit(env, w, opts, s) || outcomes(s.id).status == Some(0)
  {
    StartedFacts(env, steps, w, opts, outcomes);
    forall s ensures Decide(env, Wipe(steps, opts, w), s, opts).Skip? <==> Hit(env, w, opts, s) {
      HitIsSkipped(env, steps, w, opts, s);
    }
    if Prepare(env, steps, w, opts, outcomes).1.Failed? {
      FailedStepRuns(env, steps, w, opts, outcomes);
    }
  }

  lemma WaveIsFlattened(waves: seq<seq<Step>>, k: nat, s: Step)
    requires k < |waves| && s in waves[k]
    ensures s in Flatten(waves[..k + 1])
  {
    assert waves[..k + 1] == waves[..k] + [waves[k]];
    FlattenSnoc(waves[..k], waves[k]);
  }

  lemma FailedStepRuns<T>(env: Env<T>, steps: seq<Step>, w: World<T>, opts: Options, outcomes: string -> Outcome)
    requires ValidContract(steps) && Prepare(env, steps, w, opts, outcomes).1.Failed?
    ensures var failed := Prepare(env, steps, w, opts, outcomes).1.failedStep;
      failed in StartedSteps(env, steps, w, opts, outcomes) && outcomes(failed.id).status != Some(0)
      && failed in steps && !Hit(env, w, opts, failed)
  {
    var failed, waves := Prepare(env, steps, w, opts, outcomes).1.failedStep, PlanOfRun(env, steps, w, opts).waves;
    FailureReport(env, steps, w, opts, outcomes);
    WaveIsFlattened(waves, FirstFailingWave(outcomes, waves), failed);
    StartedFacts(env, steps, w, opts, outcomes);
    HitIsSkipped(env, steps, w, opts, failed);
  }

  /** What a run that was not rejected reports, in contract order: skipped are the hits,
      completed the hits and the started steps whose command exited with status 0. */
  lemma ReportLists<T>(env: Env<T>, steps: seq<Step>, w: World<T>, opts: Options, outcomes: string -> Outcome)
    requires ValidContract(steps) && !Prepare(env, steps, w, opts, outcomes).1.Rejected?
    ensures var r, d := Prepare(env, steps, w, opts, outcomes).1, StartedSteps(env, steps, w, opts, outcomes);
      && r.skipped == Filter(steps, (s: Step) => Hit(env, w, opts, s))
      && r.completed == Filter(steps, (s: Step) => Hit(env, w, opts, s) || (s in d && outcomes(s.id).status == Some(0)))
  {
    var start, d := Wipe(steps, opts, w), StartedSteps(env, steps, w, opts, outcomes);
    var skipped := SkippedIds(env, start, steps, opts);
    StartedFacts(env, steps, w, opts, outcomes);
    forall s | s in steps
      ensures s.id in skipped <==> Hit(env, w, opts, s)
      ensures s.id in SucceededIds(outcomes, d) <==> s in d && outcomes(s.id).status == Some(0)
    {
      SkippedIdsAreSkips(env, start, steps, opts, s);
      HitIsSkipped(env, steps, w, opts, s);
      SucceededIffStarted(steps, d, outcomes, s);
    }
    FiltersAgree(steps, (s: Step) => s.id in skipped, (s: Step) => Hit(env, w, opts, s));
    FiltersAgree(steps, (s: Step) => s.id in skipped + SucceededIds(outcomes, d),
                 (s: Step) => Hit(env, w, opts, s) || (s in d && outcomes(s.id).status == Some(0)));
  }

  lemma SucceededIffStarted(steps: seq<Step>, d: seq<Step>, outcomes: string -> Outcome, s: Step)
    requires DistinctIds(steps) && s in steps && forall x :: x in d ==> x in steps
    ensures s.id in SucceededIds(outcomes, d) <==> s in d && outcomes(s.id).status == Some(0)
  {
    var a :| 0 <= a < |steps| && steps[a] == s;
    if k :| 0 <= k < |d| && d[k].id == s.id {
      assert d[k] in steps;
      var b :| 0 <= b < |steps| && steps[b] == d[k];
    }
    if k :| 0 <= k < |d| && d[k] == s {
      assert outcomes(d[k].id).Ok() ==> d[k].id in SucceededIds(outcomes, d);
    }
  }

  // ----- What a run leaves -----

  /** Force-clean removes the output of a step whose output is ignored by git; a committed
      output stays until its command writes. */
  function BeforeCommand<T>(w: World<T>, opts: Options, s: Step): Option<string> {
    if opts.forceClean && s.gitClassification == Ignored then None else Get(w.outputs, s.outputPath)
  }

  /** The output of every contracted step after any run, whatever it reports: a started
      command leaves what it generates or what its failure leaves, and otherwise the output
      is as before, or removed by force-clean if it is ignored. */
  lemma OutputAfterRun<T>(
      env: Env<T>, steps: seq<Step>, w: World<T>, opts: Options, outcomes: string -> Outcome, s: Step)
    requires ValidContract(steps) && s in steps
    ensures var after := Get(Prepare(env, steps, w, opts, outcomes).0.outputs, s.outputPath);
      if s !in StartedSteps(env, steps, w, opts, outcomes) then after == BeforeCommand(w, opts, s)
      else if outcomes(s.id).status == Some(0) then after == Some(env.generate(s.id, w.tree))
      else match outcomes(s.id).residue
        case Untouched => after == BeforeCommand(w, opts, s)
        case Deleted => after == None
        case Overwritten(content) => after == Some(content)
  {
    StepAfterRun(env, steps, w, opts, outcomes, s);
    OutputBeforeCommand(steps, w, opts, s);
  }

  lemma OutputBeforeCommand<T>(steps: seq<Step>, w: World<T>, opts: Options, s: Step)
    requires ValidContract(steps) && s in steps
    ensures Get(Wipe(steps, opts, w).outputs, s.outputPath) == BeforeCommand(w, opts, s)
  {
    var a :| 0 <= a < |steps| && steps[a] == s;
    if s.outputPath in IgnoredOutputs(steps) {
      var b :| 0 <= b < |steps| && steps[b].gitClassification == Ignored && steps[b].outputPath == s.outputPath;
    }
  }

  /** The fingerprint on record after any run: that of a started success which has one; else,
      after force-clean with fingerprints on, none; else the one on record before. */
  lemma EntryAfterRun<T>(
      env: Env<T>, steps: seq<Step>, w: World<T>, opts: Options, outcomes: string -> Outcome, id: string)
    requires ValidContract(steps)
    ensures var f := env.fingerprint(id, w.tree);
      Entry(Prepare(env, steps, w, opts, outcomes).0.store, id)
      == if && (exists s :: s in StartedSteps(env, steps, w, opts, outcomes) && s.id == id)
            && outcomes(id).status == Some(0) && opts.useFingerprints && f.GetOr("") != "" then f
         else if opts.forceClean && opts.useFingerprints then None
         else Entry(w.store, id)
  {
    EverySuccessIsRecorded(env, steps, w, opts, outcomes, id);
    EntryIsRead(Prepare(env, steps, w, opts, outcomes).0.store, id);
    EntryIsRead(w.store, id);
  }

  /** A run that clears or records leaves a store of schema version 1. */
  lemma StoreAfterRun<T>(
      env: Env<T>, steps: seq<Step>, w: World<T>, opts: Options, outcomes: string -> Outcome)
    ensures var after := Prepare(env, steps, w, opts, outcomes).0.store;
      if opts.forceClean && opts.useFingerprints then after.Stored? && after.version == 1
      else after == w.store || (opts.useFingerprints && after.Stored? && after.version == 1)
  {
    PrepareIsAfterRunning(env, steps, w, opts, outcomes);
    RecordsKeepVersion(env, w.tree, opts, outcomes, StartedSteps(env, steps, w, opts, outcomes),
                       Wipe(steps, opts, w).store);
  }

  lemma {:induction false} RecordsKeepVersion<T>(
      env: Env<T>, tree: T, opts: Options, outcomes: string -> Outcome, done: seq<Step>, store: StoreFile)
    ensures var after := RecordAll(env, tree, opts, outcomes, done, store);
      after == store || (opts.useFingerprints && after.Stored? && after.version == 1)
  {
    if done != [] {
      RecordsKeepVersion(env, tree, opts, outcomes, done[..|done| - 1], store);
    }
  }

  lemma EntryIsRead(file: StoreFile, id: string)
    ensures Get(ReadStore(file), id) == Entry(file, id)
  {
  }
}
