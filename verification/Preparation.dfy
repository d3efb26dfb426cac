/** Content-runtime preparation: the fingerprint cache, the staged runner over waves,
    and what whole histories of runs leave behind. `T` is the type of input trees. */
module Preparation {
  import opened Common
  import opened Waves

  /** The fingerprint store as found on disk. */
  datatype StoreFile = Absent | Unreadable | Stored(version: int, steps: map<string, string>)

  datatype World<+T> = World(tree: T, outputs: map<string, string>, store: StoreFile)

  /** `fingerprint` is None for a step without declared inputs; `generate` is what a
      succeeding generator writes for a tree. */
  datatype Env<!T> = Env(fingerprint: (string, T) -> Option<string>, generate: (string, T) -> string)

  datatype Options = Options(forceClean: bool, useFingerprints: bool, concurrency: bool)

  datatype Reason = ForceClean | MissingOutput | UnusableOutput | FingerprintMiss | NoFingerprintInputs
  datatype Decision = Skip(matched: string) | Run(reason: Reason, fingerprint: Option<string>)

  /** What a failing command does to its own output file. */
  datatype Residue = Untouched | Deleted | Overwritten(content: string)

  /** A command's exit status (None for a spawn error or a signal). */
  datatype Outcome = Outcome(status: Option<int>, residue: Residue) {
    predicate Ok() { status == Some(0) }
  }

  datatype Result =
    | Prepared(completed: seq<Step>, skipped: seq<Step>)
    | Failed(completed: seq<Step>, skipped: seq<Step>, failedStep: Step, outcome: Outcome)
    | Rejected(position: nat)

  // ----- The store and one cache decision -----

  function ReadStore(file: StoreFile): map<string, string> {
    if file.Stored? && file.version == 1
    then map k | k in file.steps && file.steps[k] != "" :: file.steps[k]
    else map[]
  }

  function WriteStep(file: StoreFile, id: string, fingerprint: string): StoreFile {
    Stored(1, ReadStore(file)[id := fingerprint])
  }

  predicate Usable(outputs: map<string, string>, path: string) {
    path in outputs && outputs[path] != ""
  }

  function Evaluate<T>(env: Env<T>, w: World<T>, step: Step, forceClean: bool): Decision {
    match env.fingerprint(step.id, w.tree)
    case None => Run(NoFingerprintInputs, None)
    case Some(f) =>
      if forceClean then Run(ForceClean, Some(f))
      else if !Usable(w.outputs, step.outputPath) then
        Run(if step.outputPath in w.outputs then UnusableOutput else MissingOutput, Some(f))
      else
        var store := ReadStore(w.store);
        if step.id in store && store[step.id] == f then Skip(f) else Run(FingerprintMiss, Some(f))
  }

  function Decide<T>(env: Env<T>, w: World<T>, step: Step, opts: Options): Decision {
    if opts.useFingerprints then Evaluate(env, w, step, opts.forceClean) else Run(FingerprintMiss, None)
  }

  // ----- Effects of running steps -----

  function Execute<T>(env: Env<T>, tree: T, outcome: Outcome, step: Step, outputs: map<string, string>)
    : map<string, string>
  {
    if outcome.Ok() then outputs[step.outputPath := env.generate(step.id, tree)]
    else match outcome.residue
      case Untouched => outputs
      case Deleted => outputs - {step.outputPath}
      case Overwritten(content) => outputs[step.outputPath := content]
  }

  /** Outputs once the commands of `done` have finished, in that order. */
  function RunCommands<T>(env: Env<T>, tree: T, outcomes: string -> Outcome, done: seq<Step>,
                          outputs: map<string, string>): map<string, string> {
    if done == [] then outputs
    else
      var last := done[|done| - 1];
      Execute(env, tree, outcomes(last.id), last, RunCommands(env, tree, outcomes, done[..|done| - 1], outputs))
  }

  /** The fingerprint that a success of `id` records, if any. */
  function Recorded<T>(env: Env<T>, tree: T, opts: Options, id: string): Option<string> {
    if opts.useFingerprints && env.fingerprint(id, tree) != Some("") then env.fingerprint(id, tree) else None
  }

  function RecordStep<T>(env: Env<T>, tree: T, opts: Options, outcome: Outcome, step: Step,
                         store: StoreFile): StoreFile {
    var f := Recorded(env, tree, opts, step.id);
    if outcome.Ok() && f.Some? then WriteStep(store, step.id, f.value) else store
  }

  function RecordAll<T>(env: Env<T>, tree: T, opts: Options, outcomes: string -> Outcome, done: seq<Step>,
                        store: StoreFile): StoreFile {
    if done == [] then store
    else
      var last := done[|done| - 1];
      RecordStep(env, tree, opts, outcomes(last.id), last,
                 RecordAll(env, tree, opts, outcomes, done[..|done| - 1], store))
  }

  function AfterRunning<T>(env: Env<T>, opts: Options, outcomes: string -> Outcome, done: seq<Step>,
                           w: World<T>): World<T> {
    w.(outputs := RunCommands(env, w.tree, outcomes, done, w.outputs),
       store := RecordAll(env, w.tree, opts, outcomes, done, w.store))
  }

  function SucceededIds(outcomes: string -> Outcome, done: seq<Step>): set<string> {
    set k | 0 <= k < |done| && outcomes(done[k].id).Ok() :: done[k].id
  }

  // ----- The whole run -----

  /** Force-clean removes ignored outputs and empties the store. */
  function Wipe<T>(steps: seq<Step>, opts: Options, w: World<T>): World<T> {
    if !opts.forceClean then w
    else w.(outputs := w.outputs - IgnoredOutputs(steps),
            store := if opts.useFingerprints then Stored(1, map[]) else w.store)
  }

  function IgnoredOutputs(steps: seq<Step>): set<string> {
    set k | 0 <= k < |steps| && steps[k].gitClassification == Ignored :: steps[k].outputPath
  }

  function Runnable<T>(env: Env<T>, w: World<T>, steps: seq<Step>, opts: Options): seq<Step> {
    Filter(steps, (s: Step) => Decide(env, w, s, opts).Run?)
  }

  function SkippedIds<T>(env: Env<T>, w: World<T>, steps: seq<Step>, opts: Options): set<string> {
    set k | 0 <= k < |steps| && Decide(env, w, steps[k], opts).Skip? :: steps[k].id
  }

  predicate WaveOk(outcomes: string -> Outcome, wave: seq<Step>) {
    forall k :: 0 <= k < |wave| ==> outcomes(wave[k].id).Ok()
  }

  /** Index of the first wave with a failing command, or the number of waves. */
  function FirstFailingWave(outcomes: string -> Outcome, waves: seq<seq<Step>>): (k: nat)
    ensures k <= |waves| && (k < |waves| ==> !WaveOk(outcomes, waves[k]))
    ensures forall v :: 0 <= v < k ==> WaveOk(outcomes, waves[v])
  {
    if waves == [] || !WaveOk(outcomes, waves[0]) then 0 else 1 + FirstFailingWave(outcomes, waves[1..])
  }

  function FirstFailure(outcomes: string -> Outcome, wave: seq<Step>): (s: Step)
    requires !WaveOk(outcomes, wave)
  {
    if !outcomes(wave[0].id).Ok() then wave[0] else FirstFailure(outcomes, wave[1..])
  }

  function WithIds(steps: seq<Step>, ids: set<string>): seq<Step> {
    Filter(steps, (s: Step) => s.id in ids)
  }

  /** The steps whose commands were started: all waves up to the first failing one. */
  function Started(outcomes: string -> Outcome, waves: seq<seq<Step>>): seq<Step> {
    var k := FirstFailingWave(outcomes, waves);
    Flatten(if k < |waves| then waves[..k + 1] else waves)
  }

  /** Running the planned waves from the world `start`, and the result. */
  function RunPlan<T>(env: Env<T>, steps: seq<Step>, start: World<T>, opts: Options, outcomes: string -> Outcome,
                      skipped: set<string>, waves: seq<seq<Step>>): (World<T>, Result) {
    var started := Started(outcomes, waves);
    var succeeded := skipped + SucceededIds(outcomes, started);
    var k := FirstFailingWave(outcomes, waves);
    (AfterRunning(env, opts, outcomes, started, start),
     if k < |waves| then
       var failed := FirstFailure(outcomes, waves[k]);
       Failed(WithIds(steps, succeeded), WithIds(steps, skipped), failed, outcomes(failed.id))
     else Prepared(WithIds(steps, succeeded), WithIds(steps, skipped)))
  }

  function Prepare<T>(
      env: Env<T>, steps: seq<Step>, w: World<T>, opts: Options, outcomes: string -> Outcome): (World<T>, Result) {
    var start := Wipe(steps, opts, w);
    var skipped := SkippedIds(env, start, steps, opts);
    var plan := PlanOf(Runnable(env, start, steps, opts), opts.concurrency, skipped);
    match plan
    case Unsatisfied(position) => (start, Rejected(position))
    case Planned(waves) => RunPlan(env, steps, start, opts, outcomes, skipped, waves)
  }

  lemma {:induction false} FlattenSnoc(waves: seq<seq<Step>>, wave: seq<Step>)
    ensures Flatten(waves + [wave]) == Flatten(waves) + wave
  {
    if waves == [] {
      assert ([] + [wave])[1..] == [];
    } else {
      assert (waves + [wave])[1..] == waves[1..] + [wave];
      FlattenSnoc(waves[1..], wave);
    }
  }

  lemma {:induction false} FirstFailingWaveIs(outcomes: string -> Outcome, waves: seq<seq<Step>>, k: nat)
    requires k <= |waves| && (k < |waves| ==> !WaveOk(outcomes, waves[k]))
    requires forall v :: 0 <= v < k ==> WaveOk(outcomes, waves[v])
    ensures FirstFailingWave(outcomes, waves) == k
  {
    if k > 0 {
      assert WaveOk(outcomes, waves[0]);
      FirstFailingWaveIs(outcomes, waves[1..], k - 1);
    }
  }

  /** The workspace that preparation updates in place. */
  class Workspace<T> {
    var tree: T
    var outputs: map<string, string>
    var store: StoreFile

    constructor (tree: T, outputs: map<string, string>, store: StoreFile)
      ensures Contents() == World(tree, outputs, store)
    {
      this.tree, this.outputs, this.store := tree, outputs, store;
    }

    ghost function Contents(): World<T>
      reads this
    {
      World(tree, outputs, store)
    }

    method WipeForForceClean(steps: seq<Step>, opts: Options)
      modifies this`outputs, this`store
      ensures Contents() == Wipe(steps, opts, old(Contents()))
    {
      if !opts.forceClean {
        return;
      }
      ghost var before := outputs;
      for i := 0 to |steps|
        invariant outputs == before - IgnoredOutputs(steps[..i]) && store == old(store)
      {
        assert IgnoredOutputs(steps[..i + 1])
            == IgnoredOutputs(steps[..i]) + if steps[i].gitClassification == Ignored then {steps[i].outputPath} else {};
        if steps[i].gitClassification == Ignored {
          outputs := outputs - {steps[i].outputPath};
        }
      }
      assert steps[..|steps|] == steps;
      if opts.useFingerprints {
        store := Stored(1, map[]);
      }
    }

    /** Cache decisions in contract order; `fingerprints` keeps what a success will record. */
    method DecideSteps(env: Env<T>, steps: seq<Step>, opts: Options)
      returns (runnable: seq<Step>, skipped: set<string>, fingerprints: map<string, Option<string>>)
      ensures runnable == Runnable(env, Contents(), steps, opts) && skipped == SkippedIds(env, Contents(), steps, opts)
      ensures forall s :: s in runnable ==> s.id in fingerprints
      ensures AreDecided(env, tree, opts, fingerprints)
    {
      var w := World(tree, outputs, store);
      runnable, skipped, fingerprints := [], {}, map[];
      for i := 0 to |steps|
        invariant runnable == Runnable(env, w, steps[..i], opts) && skipped == SkippedIds(env, w, steps[..i], opts)
        invariant forall s :: s in runnable ==> s.id in fingerprints
        invariant AreDecided(env, tree, opts, fingerprints)
      {
        var decision := Decide(env, w, steps[i], opts);
        RunnableSnoc(env, w, steps, opts, i);
        SkippedSnoc(env, w, steps, opts, i);
        if decision.Skip? {
          skipped := skipped + {steps[i].id};
        } else {
          runnable := runnable + [steps[i]];
          fingerprints := fingerprints[steps[i].id := decision.fingerprint];
        }
      }
      assert steps[..|steps|] == steps;
    }

    method RunWaveCommands(env: Env<T>, outcomes: string -> Outcome, wave: seq<Step>,
                           ghost done: seq<Step>, ghost before: map<string, string>)
      requires outputs == RunCommands(env, tree, outcomes, done, before)
      modifies this`outputs
      ensures outputs == RunCommands(env, tree, outcomes, done + wave, before)
    {
      assert done + wave[..0] == done;
      for k := 0 to |wave|
        invariant outputs == RunCommands(env, tree, outcomes, done + wave[..k], before)
      {
        RunCommandsSnoc(env, tree, outcomes, done, wave, k, before);
        outputs := Execute(env, tree, outcomes(wave[k].id), wave[k], outputs);
      }
      assert wave[..|wave|] == wave;
    }

    /** Records every success of a wave, also when a sibling failed. */
    method RecordWave(env: Env<T>, opts: Options, outcomes: string -> Outcome, wave: seq<Step>,
                      fingerprints: map<string, Option<string>>, ghost done: seq<Step>, ghost before: StoreFile)
      requires store == RecordAll(env, tree, opts, outcomes, done, before)
      requires forall s :: s in wave ==> s.id in fingerprints
      requires AreDecided(env, tree, opts, fingerprints)
      modifies this`store
      ensures store == RecordAll(env, tree, opts, outcomes, done + wave, before)
    {
      assert done + wave[..0] == done;
      for k := 0 to |wave|
        invariant store == RecordAll(env, tree, opts, outcomes, done + wave[..k], before)
      {
        RecordAllSnoc(env, tree, opts, outcomes, done, wave, k, before);
        assert wave[k] in wave;
        var f := fingerprints[wave[k].id];
        if outcomes(wave[k].id).Ok() && f.Some? && f.value != "" {
          store := WriteStep(store, wave[k].id, f.value);
        }
      }
      assert wave[..|wave|] == wave;
    }

    method RunWaves(env: Env<T>, opts: Options, outcomes: string -> Outcome, waves: seq<seq<Step>>,
                    fingerprints: map<string, Option<string>>)
      returns (succeeded: set<string>, failing: nat)
      requires forall v, s :: 0 <= v < |waves| && s in waves[v] ==> s.id in fingerprints
      requires AreDecided(env, tree, opts, fingerprints)
      modifies this`outputs, this`store
      ensures Contents() == AfterRunning(env, opts, outcomes, Started(outcomes, waves), old(Contents()))
      ensures succeeded == SucceededIds(outcomes, Started(outcomes, waves))
      ensures failing == FirstFailingWave(outcomes, waves)
    {
      succeeded := {};
      for v := 0 to |waves|
        invariant outputs == RunCommands(env, tree, outcomes, Flatten(waves[..v]), old(outputs))
        invariant store == RecordAll(env, tree, opts, outcomes, Flatten(waves[..v]), old(store))
        invariant succeeded == SucceededIds(outcomes, Flatten(waves[..v]))
        invariant forall u :: 0 <= u < v ==> WaveOk(outcomes, waves[u])
      {
        ghost var done := Flatten(waves[..v]);
        RunWaveCommands(env, outcomes, waves[v], done, old(outputs));
        RecordWave(env, opts, outcomes, waves[v], fingerprints, done, old(store));
        succeeded := succeeded + SucceededIds(outcomes, waves[v]);
        SucceededAppend(outcomes, done, waves[v]);
        assert waves[..v + 1] == waves[..v] + [waves[v]];
        FlattenSnoc(waves[..v], waves[v]);
        if !WaveOk(outcomes, waves[v]) {
          FirstFailingWaveIs(outcomes, waves, v);
          return succeeded, v;
        }
      }
      assert waves[..|waves|] == waves;
      FirstFailingWaveIs(outcomes, waves, |waves|);
      failing := |waves|;
    }

    method RunPlanned(env: Env<T>, steps: seq<Step>, opts: Options, outcomes: string -> Outcome,
                      skippedIds: set<string>, waves: seq<seq<Step>>, fingerprints: map<string, Option<string>>)
      returns (result: Result)
      requires forall v, s :: 0 <= v < |waves| && s in waves[v] ==> s.id in fingerprints
      requires AreDecided(env, tree, opts, fingerprints)
      modifies this`outputs, this`store
      ensures (Contents(), result) == RunPlan(env, steps, old(Contents()), opts, outcomes, skippedIds, waves)
    {
      var succeededIds, failing := RunWaves(env, opts, outcomes, waves, fingerprints);
      var completed, skipped := WithIds(steps, skippedIds + succeededIds), WithIds(steps, skippedIds);
      if failing < |waves| {
        var failed := FirstFailure(outcomes, waves[failing]);
        return Failed(completed, skipped, failed, outcomes(failed.id));
      }
      return Prepared(completed, skipped);
    }

    method RunPreparation(env: Env<T>, steps: seq<Step>, opts: Options, outcomes: string -> Outcome)
      returns (result: Result)
      modifies this`outputs, this`store
      ensures (Contents(), result) == Prepare(env, steps, old(Contents()), opts, outcomes)
    {
      WipeForForceClean(steps, opts);
      var runnable, skippedIds, fingerprints := DecideSteps(env, steps, opts);
      var plan := PlanWaves(runnable, opts.concurrency, skippedIds);
      if plan.Unsatisfied? {
        return Rejected(plan.position);
      }
      PlannedStepsAreRunnable(runnable, opts.concurrency, skippedIds);
      result := RunPlanned(env, steps, opts, outcomes, skippedIds, plan.waves, fingerprints);
    }
  }

  /** Each entry is what a success of that step would record. */
  ghost predicate AreDecided<T>(env: Env<T>, tree: T, opts: Options, fingerprints: map<string, Option<string>>) {
    forall id :: id in fingerprints ==>
      fingerprints[id] == if opts.useFingerprints then env.fingerprint(id, tree) else None
  }

  lemma RunnableSnoc<T>(env: Env<T>, w: World<T>, steps: seq<Step>, opts: Options, i: nat)
    requires i < |steps|
    ensures Runnable(env, w, steps[..i + 1], opts)
         == Runnable(env, w, steps[..i], opts) + if Decide(env, w, steps[i], opts).Run? then [steps[i]] else []
  {
    FilterSnoc(steps, (s: Step) => Decide(env, w, s, opts).Run?, i);
  }

  lemma SkippedSnoc<T>(env: Env<T>, w: World<T>, steps: seq<Step>, opts: Options, i: nat)
    requires i < |steps|
    ensures SkippedIds(env, w, steps[..i + 1], opts)
         == SkippedIds(env, w, steps[..i], opts) + if Decide(env, w, steps[i], opts).Skip? then {steps[i].id} else {}
  {
    assert steps[..i + 1] == steps[..i] + [steps[i]];
  }

  lemma RunCommandsSnoc<T>(env: Env<T>, tree: T, outcomes: string -> Outcome, done: seq<Step>, wave: seq<Step>, k: nat,
                           outputs: map<string, string>)
    requires k < |wave|
    ensures RunCommands(env, tree, outcomes, done + wave[..k + 1], outputs)
         == Execute(env, tree, outcomes(wave[k].id), wave[k],
                    RunCommands(env, tree, outcomes, done + wave[..k], outputs))
  {
    assert (done + wave[..k + 1])[..|done| + k] == done + wave[..k];
  }

  lemma RecordAllSnoc<T>(env: Env<T>, tree: T, opts: Options, outcomes: string -> Outcome, done: seq<Step>,
                         wave: seq<Step>, k: nat, store: StoreFile)
    requires k < |wave|
    ensures RecordAll(env, tree, opts, outcomes, done + wave[..k + 1], store)
         == RecordStep(env, tree, opts, outcomes(wave[k].id), wave[k],
                       RecordAll(env, tree, opts, outcomes, done + wave[..k], store))
  {
    assert (done + wave[..k + 1])[..|done| + k] == done + wave[..k];
  }

  lemma SucceededAppend(outcomes: string -> Outcome, a: seq<Step>, b: seq<Step>)
    ensures SucceededIds(outcomes, a + b) == SucceededIds(outcomes, a) + SucceededIds(outcomes, b)
  {
    forall id | id in SucceededIds(outcomes, b)
      ensures id in SucceededIds(outcomes, a + b)
    {
      var k :| 0 <= k < |b| && outcomes(b[k].id).Ok() && b[k].id == id;
      assert (a + b)[|a| + k] == b[k];
    }
    forall id | id in SucceededIds(outcomes, a)
      ensures id in SucceededIds(outcomes, a + b)
    {
      var k :| 0 <= k < |a| && outcomes(a[k].id).Ok() && a[k].id == id;
      assert (a + b)[k] == a[k];
    }
  }

  /** The planner schedules exactly the steps it is given, each once. */
  lemma PlannedStepsAreRunnable(runnable: seq<Step>, concurrency: bool, completed: set<string>)
    ensures var plan := PlanOf(runnable, concurrency, completed);
            plan.Planned? ==>
              && multiset(Flatten(plan.waves)) == multiset(runnable)
              && forall v, s :: 0 <= v < |plan.waves| && s in plan.waves[v] ==> s in runnable
  {
    var plan := PlanOf(runnable, concurrency, completed);
    if plan.Planned? {
      if concurrency {
        WavesPartitionSteps(runnable, |runnable|);
        assert runnable[..|runnable|] == runnable;
      } else {
        FlattenSingletons(runnable);
      }
      forall v, s | 0 <= v < |plan.waves| && s in plan.waves[v]
        ensures s in runnable
      {
        InFlatten(plan.waves, v, s);
        assert s in multiset(Flatten(plan.waves));
      }
    }
  }

  lemma {:induction false} FlattenSingletons(steps: seq<Step>)
    ensures Flatten(Singletons(steps)) == steps
  {
    if steps != [] {
      assert Singletons(steps)[1..] == Singletons(steps[1..]);
      FlattenSingletons(steps[1..]);
    }
  }

  lemma {:induction false} InFlatten(waves: seq<seq<Step>>, v: nat, s: Step)
    requires v < |waves| && s in waves[v]
    ensures s in Flatten(waves)
  {
    if v > 0 {
      InFlatten(waves[1..], v - 1, s);
    }
  }
}
