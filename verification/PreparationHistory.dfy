/** What histories of preparation runs guarantee: a warm run leaves what a clean run
    would, exactly as long as the cache is honest; and what each run reports. */
module PreparationHistory {
  import opened Common
  import opened Waves
  import opened Preparation

  function Get(m: map<string, string>, k: string): Option<string> {
    if k in m then Some(m[k]) else None
  }

  ghost predicate ValidContract(steps: seq<Step>) {
    DistinctIds(steps) && DistinctOutputs(steps)
  }

  /** Fingerprints are non-empty, a step has one for every tree or for none, and
      trees with one fingerprint make the step generate one output. */
  ghost predicate Sound<T(!new)>(env: Env<T>) {
    && (forall id, t :: env.fingerprint(id, t) != Some(""))
    && (forall id, s, t :: env.fingerprint(id, s) == None ==> env.fingerprint(id, t) == None)
    && (forall id, s, t :: env.fingerprint(id, s).Some? && env.fingerprint(id, s) == env.fingerprint(id, t)
          ==> env.generate(id, s) == env.generate(id, t))
  }

  // ----- The state of one step after a run -----

  function Produced<T>(env: Env<T>, tree: T, outcome: Outcome, id: string, before: Option<string>): Option<string> {
    if outcome.Ok() then Some(env.generate(id, tree))
    else match outcome.residue
      case Untouched => before
      case Deleted => None
      case Overwritten(content) => Some(content)
  }

  lemma {:induction false} OutputUntouched<T>(env: Env<T>, tree: T, outcomes: string -> Outcome, done: seq<Step>,
                                              outputs: map<string, string>, path: string)
    requires forall k :: 0 <= k < |done| ==> done[k].outputPath != path
    ensures Get(RunCommands(env, tree, outcomes, done, outputs), path) == Get(outputs, path)
  {
    if done != [] {
      OutputUntouched(env, tree, outcomes, done[..|done| - 1], outputs, path);
    }
  }

  lemma {:induction false} OutputProduced<T>(env: Env<T>, tree: T, outcomes: string -> Outcome, done: seq<Step>,
                                             outputs: map<string, string>, k: nat)
    requires DistinctOutputs(done) && k < |done|
    ensures Get(RunCommands(env, tree, outcomes, done, outputs), done[k].outputPath)
         == Produced(env, tree, outcomes(done[k].id), done[k].id, Get(outputs, done[k].outputPath))
  {
    if k == |done| - 1 {
      OutputUntouched(env, tree, outcomes, done[..k], outputs, done[k].outputPath);
    } else {
      OutputProduced(env, tree, outcomes, done[..|done| - 1], outputs, k);
    }
  }

  lemma StoreAfterWrite(file: StoreFile, id: string, fingerprint: string)
    requires fingerprint != ""
    ensures ReadStore(WriteStep(file, id, fingerprint)) == ReadStore(file)[id := fingerprint]
  {
  }

  lemma {:induction false} EntryUntouched<T>(env: Env<T>, tree: T, opts: Options, outcomes: string -> Outcome,
                                             done: seq<Step>, store: StoreFile, id: string)
    requires forall k :: 0 <= k < |done| ==> done[k].id != id
    ensures Get(ReadStore(RecordAll(env, tree, opts, outcomes, done, store)), id) == Get(ReadStore(store), id)
  {
    if done != [] {
      var front, last := done[..|done| - 1], done[|done| - 1];
      EntryUntouched(env, tree, opts, outcomes, front, store, id);
      var f := Recorded(env, tree, opts, last.id);
      if f.Some? {
        StoreAfterWrite(RecordAll(env, tree, opts, outcomes, front, store), last.id, f.value);
      }
    }
  }

  /** A success leaves its fingerprint in the store; a failure leaves the entry alone. */
  lemma {:induction false} EntryRecorded<T>(env: Env<T>, tree: T, opts: Options, outcomes: string -> Outcome,
                                            done: seq<Step>, store: StoreFile, k: nat)
    requires DistinctIds(done) && k < |done|
    ensures var id := done[k].id;
            Get(ReadStore(RecordAll(env, tree, opts, outcomes, done, store)), id)
            == if outcomes(id).Ok() && Recorded(env, tree, opts, id).Some? then Recorded(env, tree, opts, id)
               else Get(ReadStore(store), id)
  {
    var front, last := done[..|done| - 1], done[|done| - 1];
    var f := Recorded(env, tree, opts, last.id);
    if f.Some? {
      StoreAfterWrite(RecordAll(env, tree, opts, outcomes, front, store), last.id, f.value);
    }
    if k == |done| - 1 {
      EntryUntouched(env, tree, opts, outcomes, front, store, done[k].id);
    } else {
      EntryRecorded(env, tree, opts, outcomes, front, store, k);
    }
  }

  // ----- Which steps a run starts -----

  function StartedSteps<T>(env: Env<T>, steps: seq<Step>, w: World<T>, opts: Options,
                           outcomes: string -> Outcome): seq<Step> {
    var start := Wipe(steps, opts, w);
    var plan := PlanOf(Runnable(env, start, steps, opts), opts.concurrency, SkippedIds(env, start, steps, opts));
    if plan.Planned? then Started(outcomes, plan.waves) else []
  }

  lemma PrepareIsAfterRunning<T>(env: Env<T>, steps: seq<Step>, w: World<T>, opts: Options, outcomes: string -> Outcome)
    ensures Prepare(env, steps, w, opts, outcomes).0
         == AfterRunning(env, opts, outcomes, StartedSteps(env, steps, w, opts, outcomes), Wipe(steps, opts, w))
  {
  }

  lemma {:induction false} FlattenSplit(waves: seq<seq<Step>>, k: nat)
    requires k <= |waves|
    ensures Flatten(waves) == Flatten(waves[..k]) + Flatten(waves[k..])
  {
    if k == 0 {
      assert waves[0..] == waves && waves[..0] == [];
    } else {
      FlattenSplit(waves[1..], k - 1);
      assert waves[..k][1..] == waves[1..][..k - 1] && waves[1..][k - 1..] == waves[k..];
    }
  }

  lemma DistinctSteps(done: seq<Step>, steps: seq<Step>)
    requires ValidContract(steps) && Distinct(done) && forall s :: s in done ==> s in steps
    ensures ValidContract(done)
  {
    forall i, j | 0 <= i < j < |done|
      ensures done[i].id != done[j].id && done[i].outputPath != done[j].outputPath
    {
      assert done[i] in steps && done[j] in steps;
      var a :| 0 <= a < |steps| && steps[a] == done[i];
      var b :| 0 <= b < |steps| && steps[b] == done[j];
      assert a != b;
    }
  }

  lemma {:induction false} FilterKeepsDistinct(steps: seq<Step>, p: Step -> bool)
    requires Distinct(steps)
    ensures Distinct(Filter(steps, p))
  {
    if steps != [] {
      FilterKeepsDistinct(steps[1..], p);
      assert steps[0] !in steps[1..];
    }
  }

  lemma RunnableIsDistinct<T>(env: Env<T>, start: World<T>, steps: seq<Step>, opts: Options)
    requires ValidContract(steps)
    ensures Distinct(Runnable(env, start, steps, opts))
    ensures forall s :: s in Runnable(env, start, steps, opts) <==> s in steps && Decide(env, start, s, opts).Run?
  {
    FilterKeepsDistinct(steps, (s: Step) => Decide(env, start, s, opts).Run?);
  }

  lemma FlattenedPlanIsDistinct(runnable: seq<Step>, waves: seq<seq<Step>>, k: nat)
    requires Distinct(runnable) && multiset(Flatten(waves)) == multiset(runnable) && k <= |waves|
    ensures Distinct(Flatten(waves[..k]))
    ensures forall s :: s in Flatten(waves[..k]) ==> s in runnable
  {
    DistinctCounts(runnable);
    DistinctCounts(Flatten(waves));
    FlattenSplit(waves, k);
    var all := Flatten(waves);
    assert Flatten(waves[..k]) == all[..|Flatten(waves[..k])|];
    assert forall s :: s in all <==> s in multiset(all);
    assert forall s :: s in runnable <==> s in multiset(runnable);
  }

  lemma {:induction false} AllWavesOk(outcomes: string -> Outcome, waves: seq<seq<Step>>)
    requires forall v :: 0 <= v < |waves| ==> WaveOk(outcomes, waves[v])
    ensures forall s :: s in Flatten(waves) ==> outcomes(s.id).Ok()
  {
    if waves != [] {
      AllWavesOk(outcomes, waves[1..]);
      assert WaveOk(outcomes, waves[0]);
    }
  }

  lemma StartedOfPlan(runnable: seq<Step>, steps: seq<Step>, waves: seq<seq<Step>>, outcomes: string -> Outcome)
    requires ValidContract(steps) && Distinct(runnable) && forall s :: s in runnable ==> s in steps
    requires multiset(Flatten(waves)) == multiset(runnable)
    ensures ValidContract(Started(outcomes, waves))
    ensures forall s :: s in Started(outcomes, waves) ==> s in runnable
  {
    var k := FirstFailingWave(outcomes, waves);
    var m := if k < |waves| then k + 1 else k;
    assert waves[..|waves|] == waves;
    FlattenedPlanIsDistinct(runnable, waves, m);
    DistinctSteps(Flatten(waves[..m]), steps);
  }

  lemma AllStarted(runnable: seq<Step>, waves: seq<seq<Step>>, outcomes: string -> Outcome)
    requires multiset(Flatten(waves)) == multiset(runnable) && FirstFailingWave(outcomes, waves) == |waves|
    ensures forall s :: s in runnable ==> s in Started(outcomes, waves) && outcomes(s.id).Ok()
  {
    AllWavesOk(outcomes, waves);
    var all := Flatten(waves);
    assert forall s :: s in runnable ==> s in multiset(all);
    assert forall s :: s in multiset(all) ==> s in all;
  }

  /** Started steps are distinct steps to run; a successful run starts all of them. */
  lemma StartedFacts<T>(env: Env<T>, steps: seq<Step>, w: World<T>, opts: Options, outcomes: string -> Outcome)
    requires ValidContract(steps)
    ensures var d := StartedSteps(env, steps, w, opts, outcomes);
            var start := Wipe(steps, opts, w);
            && ValidContract(d)
            && (forall s :: s in d ==> s in steps && Decide(env, start, s, opts).Run?)
            && (Prepare(env, steps, w, opts, outcomes).1.Prepared? ==>
                  forall s :: s in steps && Decide(env, start, s, opts).Run? ==> s in d && outcomes(s.id).Ok())
  {
    var start := Wipe(steps, opts, w);
    var runnable, skipped := Runnable(env, start, steps, opts), SkippedIds(env, start, steps, opts);
    RunnableIsDistinct(env, start, steps, opts);
    var plan := PlanOf(runnable, opts.concurrency, skipped);
    if plan.Planned? {
      PlannedStepsAreRunnable(runnable, opts.concurrency, skipped);
      StartedOfPlan(runnable, steps, plan.waves, outcomes);
      if FirstFailingWave(outcomes, plan.waves) == |plan.waves| {
        AllStarted(runnable, plan.waves, outcomes);
      }
    }
  }

  /** Output and store entry of one contracted step after a run. */
  lemma StepAfterRun<T>(env: Env<T>, steps: seq<Step>, w: World<T>, opts: Options, outcomes: string -> Outcome, s: Step)
    requires ValidContract(steps) && s in steps
    ensures var w' := Prepare(env, steps, w, opts, outcomes).0;
            var start := Wipe(steps, opts, w);
            var before, entry := Get(start.outputs, s.outputPath), Get(ReadStore(start.store), s.id);
            && w'.tree == w.tree
            && if s in StartedSteps(env, steps, w, opts, outcomes) then
                 && Get(w'.outputs, s.outputPath) == Produced(env, w.tree, outcomes(s.id), s.id, before)
                 && Get(ReadStore(w'.store), s.id) == if outcomes(s.id).Ok() && Recorded(env, w.tree, opts, s.id).Some?
                                                      then Recorded(env, w.tree, opts, s.id) else entry
               else Get(w'.outputs, s.outputPath) == before && Get(ReadStore(w'.store), s.id) == entry
  {
    var d, start := StartedSteps(env, steps, w, opts, outcomes), Wipe(steps, opts, w);
    StartedFacts(env, steps, w, opts, outcomes);
    PrepareIsAfterRunning(env, steps, w, opts, outcomes);
    if s in d {
      var k :| 0 <= k < |d| && d[k] == s;
      OutputProduced(env, w.tree, outcomes, d, start.outputs, k);
      EntryRecorded(env, w.tree, opts, outcomes, d, start.store, k);
    } else {
      StrangersDiffer(d, steps, s);
      OutputUntouched(env, w.tree, outcomes, d, start.outputs, s.outputPath);
      EntryUntouched(env, w.tree, opts, outcomes, d, start.store, s.id);
    }
  }

  lemma StrangersDiffer(d: seq<Step>, steps: seq<Step>, s: Step)
    requires ValidContract(steps) && s in steps && s !in d && forall x :: x in d ==> x in steps
    ensures forall k :: 0 <= k < |d| ==> d[k].id != s.id && d[k].outputPath != s.outputPath
  {
    forall k | 0 <= k < |d|
      ensures d[k].id != s.id && d[k].outputPath != s.outputPath
    {
      assert d[k] in steps;
      var a :| 0 <= a < |steps| && steps[a] == d[k];
      var b :| 0 <= b < |steps| && steps[b] == s;
      assert a != b;
    }
  }

  // ----- The cache is honest -----

  /** `text` is what the step generates for every tree with that fingerprint. */
  ghost predicate StandsFor<T(!new)>(env: Env<T>, id: string, fingerprint: string, text: string) {
    forall t :: env.fingerprint(id, t) == Some(fingerprint) ==> env.generate(id, t) == text
  }

  /** A stored fingerprint that could cause a skip stands for the output that is there. */
  ghost predicate Honest<T(!new)>(env: Env<T>, w: World<T>, s: Step) {
    s.id in ReadStore(w.store) && Usable(w.outputs, s.outputPath) ==>
      StandsFor(env, s.id, ReadStore(w.store)[s.id], w.outputs[s.outputPath])
  }

  ghost predicate HonestCache<T(!new)>(env: Env<T>, steps: seq<Step>, w: World<T>) {
    forall s :: s in steps ==> Honest(env, w, s)
  }

  /** `text` may be left as the output: it is empty and so not usable, nothing is stored for
      the step, or it is what the stored fingerprint stands for. */
  ghost predicate Harmless<T(!new)>(env: Env<T>, w: World<T>, s: Step, text: string) {
    text == "" || s.id !in ReadStore(w.store) || StandsFor(env, s.id, ReadStore(w.store)[s.id], text)
  }

  /** What a started command may do: a success is recorded or leaves a harmless text, a
      failure writes nothing or leaves a harmless text. Speaks of the world `w` in which it
      starts, the options and the command's outcome only. */
  ghost predicate KeepsEntry<T(!new)>(env: Env<T>, w: World<T>, opts: Options, outcome: Outcome, s: Step) {
    if outcome.Ok() then opts.useFingerprints || Harmless(env, w, s, env.generate(s.id, w.tree))
    else outcome.residue.Overwritten? ==> Harmless(env, w, s, outcome.residue.content)
  }

  /** One step stays honest through its command exactly when the command keeps its entry. */
  lemma StaysHonestIff<T(!new)>(env: Env<T>, w: World<T>, w': World<T>, opts: Options, outcome: Outcome, s: Step)
    requires Sound(env) && Honest(env, w, s)
    requires Get(w'.outputs, s.outputPath) == Produced(env, w.tree, outcome, s.id, Get(w.outputs, s.outputPath))
    requires Get(ReadStore(w'.store), s.id) == if outcome.Ok() && Recorded(env, w.tree, opts, s.id).Some?
                                               then Recorded(env, w.tree, opts, s.id) else Get(ReadStore(w.store), s.id)
    ensures Honest(env, w', s) <==> KeepsEntry(env, w, opts, outcome, s)
  {
    if outcome.Ok() {
      if opts.useFingerprints {
        assert Recorded(env, w.tree, opts, s.id) == env.fingerprint(s.id, w.tree);
      }
    } else if outcome.residue != Untouched {
      assert outcome.residue == Deleted ==> !Usable(w'.outputs, s.outputPath);
    }
  }

  lemma HonestUnchanged<T(!new)>(env: Env<T>, w: World<T>, w': World<T>, s: Step)
    requires Honest(env, w, s)
    requires Get(w'.outputs, s.outputPath) == Get(w.outputs, s.outputPath)
    requires Get(ReadStore(w'.store), s.id) == Get(ReadStore(w.store), s.id)
    ensures Honest(env, w', s)
  {
  }

  /** Wiping keeps honesty, and what it leaves is the world the commands start in. */
  lemma WipeKeepsHonest<T(!new)>(env: Env<T>, steps: seq<Step>, w: World<T>, opts: Options, s: Step)
    requires Honest(env, w, s)
    ensures Honest(env, Wipe(steps, opts, w), s)
  {
  }

  /** All commands that a run starts keep their entries. */
  ghost predicate RunKeepsEntries<T(!new)>(
      env: Env<T>, steps: seq<Step>, w: World<T>, opts: Options, outcomes: string -> Outcome) {
    forall s | s in StartedSteps(env, steps, w, opts, outcomes) ::
      KeepsEntry(env, Wipe(steps, opts, w), opts, outcomes(s.id), s)
  }

  ghost predicate KeepsEntryIfStarted<T(!new)>(
      env: Env<T>, steps: seq<Step>, w: World<T>, opts: Options, outcomes: string -> Outcome, s: Step) {
    s in StartedSteps(env, steps, w, opts, outcomes) ==> KeepsEntry(env, Wipe(steps, opts, w), opts, outcomes(s.id), s)
  }

  lemma StepAfterRunHonestIff<T(!new)>(env: Env<T>, steps: seq<Step>, w: World<T>, opts: Options,
                                       outcomes: string -> Outcome, s: Step)
    requires ValidContract(steps) && Sound(env) && s in steps && Honest(env, w, s)
    ensures Honest(env, Prepare(env, steps, w, opts, outcomes).0, s)
            <==> KeepsEntryIfStarted(env, steps, w, opts, outcomes, s)
  {
    var w', start := Prepare(env, steps, w, opts, outcomes).0, Wipe(steps, opts, w);
    WipeKeepsHonest(env, steps, w, opts, s);
    StepAfterRun(env, steps, w, opts, outcomes, s);
    if s in StartedSteps(env, steps, w, opts, outcomes) {
      StaysHonestIff(env, start, w', opts, outcomes(s.id), s);
    } else {
      HonestUnchanged(env, start, w', s);
    }
  }

  /** For any options and exit statuses, a run leaves the cache honest exactly when every
      command it starts is recorded or leaves a harmless output. */
  lemma RunKeepsCacheHonestIff<T(!new)>(env: Env<T>, steps: seq<Step>, w: World<T>, opts: Options,
                                        outcomes: string -> Outcome)
    requires ValidContract(steps) && Sound(env) && HonestCache(env, steps, w)
    ensures HonestCache(env, steps, Prepare(env, steps, w, opts, outcomes).0)
            <==> RunKeepsEntries(env, steps, w, opts, outcomes)
  {
    StartedFacts(env, steps, w, opts, outcomes);
    forall s | s in steps
      ensures Honest(env, Prepare(env, steps, w, opts, outcomes).0, s)
              <==> KeepsEntryIfStarted(env, steps, w, opts, outcomes, s)
    {
      assert Honest(env, w, s);
      StepAfterRunHonestIff(env, steps, w, opts, outcomes, s);
    }
  }

  // ----- The condition in terms of outputs and fingerprints -----

  ghost predicate ComesFromTree<T(!new)>(env: Env<T>, id: string, fingerprint: string) {
    exists t :: env.fingerprint(id, t) == Some(fingerprint)
  }

  /** Every stored fingerprint of the contract was computed from some tree. */
  ghost predicate EntriesComeFromTrees<T(!new)>(env: Env<T>, steps: seq<Step>, w: World<T>) {
    forall s :: s in steps && s.id in ReadStore(w.store) ==> ComesFromTree(env, s.id, ReadStore(w.store)[s.id])
  }

  /** A failure that overwrites a usable output is harmless exactly when it leaves nothing
      usable, nothing is stored, or it writes the text that was there. */
  lemma OverwritingIsHarmlessIff<T(!new)>(env: Env<T>, w: World<T>, s: Step, text: string)
    requires Honest(env, w, s) && Usable(w.outputs, s.outputPath)
    requires s.id in ReadStore(w.store) ==> ComesFromTree(env, s.id, ReadStore(w.store)[s.id])
    ensures Harmless(env, w, s, text)
       <==> text == "" || s.id !in ReadStore(w.store) || text == w.outputs[s.outputPath]
  {
    if s.id in ReadStore(w.store) {
      var t :| env.fingerprint(s.id, t) == Some(ReadStore(w.store)[s.id]);
    }
  }

  /** With fingerprints off a successful run starts every step. */
  lemma FingerprintlessRunStartsAll<T>(
      env: Env<T>, steps: seq<Step>, w: World<T>, opts: Options, outcomes: string -> Outcome, s: Step)
    requires ValidContract(steps) && !opts.useFingerprints && Prepare(env, steps, w, opts, outcomes).1.Prepared?
    ensures s in StartedSteps(env, steps, w, opts, outcomes) <==> s in steps
    ensures s in steps ==> outcomes(s.id).Ok()
  {
    StartedFacts(env, steps, w, opts, outcomes);
    assert Decide(env, Wipe(steps, opts, w), s, opts).Run?;
  }

  /** What the step generates now is nothing, or has no entry beside it, or is the output
      that is there; for an output that is not usable, it is what the entry stands for. */
  ghost predicate GeneratesAsBefore<T(!new)>(env: Env<T>, w: World<T>, s: Step) {
    var text := env.generate(s.id, w.tree);
    || text == ""
    || s.id !in ReadStore(w.store)
    || if Usable(w.outputs, s.outputPath) then text == w.outputs[s.outputPath]
       else StandsFor(env, s.id, ReadStore(w.store)[s.id], text)
  }

  lemma FingerprintlessStepKeepsEntryIff<T(!new)>(
      env: Env<T>, steps: seq<Step>, w: World<T>, opts: Options, outcomes: string -> Outcome, s: Step)
    requires Honest(env, w, s) && !opts.useFingerprints && outcomes(s.id).Ok()
    requires s.id in ReadStore(w.store) ==> ComesFromTree(env, s.id, ReadStore(w.store)[s.id])
    ensures KeepsEntry(env, Wipe(steps, opts, w), opts, outcomes(s.id), s) <==> GeneratesAsBefore(env, w, s)
  {
    if Usable(w.outputs, s.outputPath) {
      OverwritingIsHarmlessIff(env, w, s, env.generate(s.id, w.tree));
    }
  }

  /** A fingerprint-less run without failures leaves the cache honest exactly when every step
      generates nothing, has nothing stored, or generates the text that was there before the
      run, or, if no usable output was there, what its stored fingerprint stands for. */
  lemma FingerprintlessRunKeepsCacheHonestIff<T(!new)>(
      env: Env<T>, steps: seq<Step>, w: World<T>, opts: Options, outcomes: string -> Outcome)
    requires ValidContract(steps) && Sound(env)
    requires HonestCache(env, steps, w) && EntriesComeFromTrees(env, steps, w)
    requires !opts.useFingerprints && Prepare(env, steps, w, opts, outcomes).1.Prepared?
    ensures HonestCache(env, steps, Prepare(env, steps, w, opts, outcomes).0)
       <==> forall s :: s in steps ==> GeneratesAsBefore(env, w, s)
  {
    RunKeepsCacheHonestIff(env, steps, w, opts, outcomes);
    forall s
      ensures s in StartedSteps(env, steps, w, opts, outcomes) <==> s in steps
      ensures s in steps ==>
                (KeepsEntry(env, Wipe(steps, opts, w), opts, outcomes(s.id), s) <==> GeneratesAsBefore(env, w, s))
    {
      FingerprintlessRunStartsAll(env, steps, w, opts, outcomes, s);
      if s in steps {
        FingerprintlessStepKeepsEntryIff(env, steps, w, opts, outcomes, s);
      }
    }
  }

  /** Different fingerprints of a step mean different generated texts. */
  ghost predicate Separating<T(!new)>(env: Env<T>) {
    forall id, s, t | env.fingerprint(id, s).Some? && env.fingerprint(id, t).Some? ::
      env.generate(id, s) == env.generate(id, t) ==> env.fingerprint(id, s) == env.fingerprint(id, t)
  }

  /** The stored fingerprint of the step is missing or that of the current tree, or the step
      generates nothing. */
  ghost predicate UnchangedSinceStored<T>(env: Env<T>, w: World<T>, s: Step) {
    || env.generate(s.id, w.tree) == ""
    || s.id !in ReadStore(w.store)
    || env.fingerprint(s.id, w.tree) == Some(ReadStore(w.store)[s.id])
  }

  /** An unrecorded success is harmless exactly when the text is empty, nothing is stored, or
      the stored fingerprint is the current tree's. */
  lemma UnrecordedSuccessIsHarmlessIff<T(!new)>(env: Env<T>, w: World<T>, s: Step)
    requires Sound(env) && Separating(env)
    requires s.id in ReadStore(w.store) ==> ComesFromTree(env, s.id, ReadStore(w.store)[s.id])
    ensures Harmless(env, w, s, env.generate(s.id, w.tree)) <==> UnchangedSinceStored(env, w, s)
  {
    if s.id in ReadStore(w.store) {
      var t :| env.fingerprint(s.id, t) == Some(ReadStore(w.store)[s.id]);
      assert env.fingerprint(s.id, w.tree).Some?;
    }
  }

  lemma AsBeforeIffUnchanged<T(!new)>(env: Env<T>, w: World<T>, s: Step)
    requires Sound(env) && Separating(env) && Honest(env, w, s)
    requires s.id in ReadStore(w.store) ==> ComesFromTree(env, s.id, ReadStore(w.store)[s.id])
    ensures GeneratesAsBefore(env, w, s) <==> UnchangedSinceStored(env, w, s)
  {
    UnrecordedSuccessIsHarmlessIff(env, w, s);
    if Usable(w.outputs, s.outputPath) {
      OverwritingIsHarmlessIff(env, w, s, env.generate(s.id, w.tree));
    }
  }

  /** Where different fingerprints mean different texts, this can be told from fingerprints:
      every step generates nothing, has nothing stored, or has the tree's fingerprint stored. */
  lemma FingerprintlessRunKeepsFingerprintsIff<T(!new)>(
      env: Env<T>, steps: seq<Step>, w: World<T>, opts: Options, outcomes: string -> Outcome)
    requires ValidContract(steps) && Sound(env) && Separating(env)
    requires HonestCache(env, steps, w) && EntriesComeFromTrees(env, steps, w)
    requires !opts.useFingerprints && Prepare(env, steps, w, opts, outcomes).1.Prepared?
    ensures HonestCache(env, steps, Prepare(env, steps, w, opts, outcomes).0)
       <==> forall s :: s in steps ==> UnchangedSinceStored(env, w, s)
  {
    FingerprintlessRunKeepsCacheHonestIff(env, steps, w, opts, outcomes);
    forall s | s in steps ensures GeneratesAsBefore(env, w, s) <==> UnchangedSinceStored(env, w, s) {
      AsBeforeIffUnchanged(env, w, s);
    }
  }

  /** What a clean checkout would generate for the current tree. */
  ghost predicate UpToDate<T>(env: Env<T>, steps: seq<Step>, w: World<T>) {
    forall s :: s in steps ==> Get(w.outputs, s.outputPath) == Some(env.generate(s.id, w.tree))
  }

  /** With an honest cache every successful run, warm or clean, leaves up-to-date outputs. */
  lemma SuccessfulRunIsUpToDate<T(!new)>(env: Env<T>, steps: seq<Step>, w: World<T>, opts: Options,
                                         outcomes: string -> Outcome)
    requires ValidContract(steps) && Sound(env) && HonestCache(env, steps, w)
    requires Prepare(env, steps, w, opts, outcomes).1.Prepared?
    ensures UpToDate(env, steps, Prepare(env, steps, w, opts, outcomes).0)
  {
    var w', start := Prepare(env, steps, w, opts, outcomes).0, Wipe(steps, opts, w);
    StartedFacts(env, steps, w, opts, outcomes);
    forall s | s in steps
      ensures Get(w'.outputs, s.outputPath) == Some(env.generate(s.id, w'.tree))
    {
      StepAfterRun(env, steps, w, opts, outcomes, s);
      if Decide(env, start, s, opts).Skip? {
        assert Honest(env, w, s);
      }
    }
  }

  /** Paths outside the contract are never touched. */
  lemma OtherOutputsUntouched<T>(env: Env<T>, steps: seq<Step>, w: World<T>, opts: Options,
                                 outcomes: string -> Outcome, path: string)
    requires ValidContract(steps) && forall s :: s in steps ==> s.outputPath != path
    ensures Get(Prepare(env, steps, w, opts, outcomes).0.outputs, path) == Get(w.outputs, path)
  {
    var d := StartedSteps(env, steps, w, opts, outcomes);
    StartedFacts(env, steps, w, opts, outcomes);
    PrepareIsAfterRunning(env, steps, w, opts, outcomes);
    assert forall k :: 0 <= k < |d| ==> d[k] in d;
    OutputUntouched(env, w.tree, outcomes, d, Wipe(steps, opts, w).outputs, path);
    assert path !in IgnoredOutputs(steps);
  }

  /** Any two successful runs from one world leave byte-identical outputs, whatever
      their options: in particular a warm run and a force-clean run. */
  lemma WarmEqualsClean<T(!new)>(env: Env<T>, steps: seq<Step>, w: World<T>,
                                 warm: Options, clean: Options, o1: string -> Outcome, o2: string -> Outcome)
    requires ValidContract(steps) && Sound(env) && HonestCache(env, steps, w)
    requires Prepare(env, steps, w, warm, o1).1.Prepared? && Prepare(env, steps, w, clean, o2).1.Prepared?
    ensures Prepare(env, steps, w, warm, o1).0.outputs == Prepare(env, steps, w, clean, o2).0.outputs
  {
    var m, n := Prepare(env, steps, w, warm, o1).0.outputs, Prepare(env, steps, w, clean, o2).0.outputs;
    SuccessfulRunIsUpToDate(env, steps, w, warm, o1);
    SuccessfulRunIsUpToDate(env, steps, w, clean, o2);
    forall path
      ensures Get(m, path) == Get(n, path)
    {
      if s :| s in steps && s.outputPath == path {
        StepAfterRun(env, steps, w, warm, o1, s);
        StepAfterRun(env, steps, w, clean, o2, s);
      } else {
        OtherOutputsUntouched(env, steps, w, warm, o1, path);
        OtherOutputsUntouched(env, steps, w, clean, o2, path);
      }
    }
    SameLookupsSameMap(m, n);
  }

  lemma SameLookupsSameMap(m: map<string, string>, n: map<string, string>)
    requires forall k :: Get(m, k) == Get(n, k)
    ensures m == n
  {
    assert forall k :: k in m <==> Get(m, k).Some?;
    assert forall k :: k in n <==> Get(n, k).Some?;
    assert forall k :: k in m ==> Get(m, k) == Some(m[k]) && Get(n, k) == Some(n[k]);
  }

  function AllSucceed(): string -> Outcome { (id: string) => Outcome(Some(0), Untouched) }

  lemma {:induction false} AllSucceedPasses(waves: seq<seq<Step>>)
    ensures FirstFailingWave(AllSucceed(), waves) == |waves|
  {
    if waves != [] {
      AllSucceedPasses(waves[1..]);
    }
  }

  /** Every dependency is listed earlier in the contract. */
  ghost predicate DependenciesListed(steps: seq<Step>) {
    forall i :: 0 <= i < |steps| ==> Satisfied(steps, {}, i)
  }

  /** A kept step before the `r`-th kept one is kept before it. */
  lemma KeptBefore(steps: seq<Step>, runs: Step -> bool, r: nat, j: nat) returns (k: nat)
    requires r < |Positions(steps, runs, 0)| && j < Positions(steps, runs, 0)[r] && runs(steps[j])
    ensures k < |Filter(steps, runs)| && k < r && Filter(steps, runs)[k] == steps[j]
  {
    k := PositionOf(steps, runs, j);
    KeptAtPosition(steps, runs, k);
  }

  lemma DependencyIsSkippedOrEarlier(steps: seq<Step>, runs: Step -> bool, skipped: set<string>, r: nat, d: string)
    requires DependenciesListed(steps)
    requires forall i :: 0 <= i < |steps| && !runs(steps[i]) ==> steps[i].id in skipped
    requires r < |Filter(steps, runs)| && d in Filter(steps, runs)[r].dependsOn
    ensures d in skipped + IdsBefore(Filter(steps, runs), r)
  {
    KeptAtPosition(steps, runs, r);
    var i := Positions(steps, runs, 0)[r];
    assert Satisfied(steps, {}, i);
    var j: nat :| j < i && steps[j].id == d;
    if runs(steps[j]) {
      var k := KeptBefore(steps, runs, r, j);
      assert Filter(steps, runs)[k].id in IdsBefore(Filter(steps, runs), r);
    }
  }

  /** Then no choice of cache hits makes the planner reject the steps that remain. */
  lemma PlanIsAccepted<T>(env: Env<T>, w: World<T>, steps: seq<Step>, opts: Options)
    requires opts.concurrency ==> DependenciesListed(steps)
    ensures PlanOf(Runnable(env, w, steps, opts), opts.concurrency, SkippedIds(env, w, steps, opts)).Planned?
  {
    if opts.concurrency {
      var runnable, skipped := Runnable(env, w, steps, opts), SkippedIds(env, w, steps, opts);
      var r := FirstUnsatisfied(runnable, skipped, 0);
      if r < |runnable| {
        var d :| d in runnable[r].dependsOn && d !in skipped + IdsBefore(runnable, r);
        DependencyIsSkippedOrEarlier(steps, (s: Step) => Decide(env, w, s, opts).Run?, skipped, r, d);
      }
    }
  }

  lemma DefaultRunSucceeds<T>(env: Env<T>, steps: seq<Step>, w: World<T>, concurrency: bool)
    requires concurrency ==> DependenciesListed(steps)
    ensures Prepare(env, steps, w, Options(false, true, concurrency), AllSucceed()).1.Prepared?
  {
    var opts := Options(false, true, concurrency);
    PlanIsAccepted(env, w, steps, opts);
    AllSucceedPasses(PlanOf(Runnable(env, w, steps, opts), concurrency, SkippedIds(env, w, steps, opts)).waves);
  }

  /** Whatever tree comes next, a default run in which no command fails leaves up-to-date outputs. */
  ghost predicate EveryWarmRunIsUpToDate<T(!new)>(env: Env<T>, steps: seq<Step>, w: World<T>, concurrency: bool) {
    var opts := Options(false, true, concurrency);
    forall t :: UpToDate(env, steps, Prepare(env, steps, w.(tree := t), opts, AllSucceed()).0)
  }

  /** Honesty is exact: the cache is honest if and only if every default run, serial or
      concurrent, is right for every tree that may come next. */
  lemma HonestIffEveryWarmRunIsUpToDate<T(!new)>(env: Env<T>, steps: seq<Step>, w: World<T>, concurrency: bool)
    requires ValidContract(steps) && Sound(env)
    requires concurrency ==> DependenciesListed(steps)
    ensures HonestCache(env, steps, w) <==> EveryWarmRunIsUpToDate(env, steps, w, concurrency)
  {
    var opts := Options(false, true, concurrency);
    if HonestCache(env, steps, w) {
      forall t
        ensures UpToDate(env, steps, Prepare(env, steps, w.(tree := t), opts, AllSucceed()).0)
      {
        assert HonestCache(env, steps, w.(tree := t)) by {
          assert forall s :: Honest(env, w.(tree := t), s) == Honest(env, w, s);
        }
        DefaultRunSucceeds(env, steps, w.(tree := t), concurrency);
        SuccessfulRunIsUpToDate(env, steps, w.(tree := t), opts, AllSucceed());
      }
    }
    if EveryWarmRunIsUpToDate(env, steps, w, concurrency) {
      forall s | s in steps
        ensures Honest(env, w, s)
      {
        SkippedOutputsAreRight(env, steps, w, concurrency, s);
      }
    }
  }

  lemma HitKeepsOutput<T>(env: Env<T>, steps: seq<Step>, w: World<T>, opts: Options, outcomes: string -> Outcome,
                          s: Step)
    requires ValidContract(steps) && s in steps && !opts.forceClean && Decide(env, w, s, opts).Skip?
    ensures var w' := Prepare(env, steps, w, opts, outcomes).0;
            w'.tree == w.tree && Get(w'.outputs, s.outputPath) == Get(w.outputs, s.outputPath)
  {
    StartedFacts(env, steps, w, opts, outcomes);
    StepAfterRun(env, steps, w, opts, outcomes, s);
  }

  lemma HitIsRight<T(!new)>(env: Env<T>, steps: seq<Step>, w: World<T>, concurrency: bool, s: Step)
    requires ValidContract(steps) && s in steps
    requires s.id in ReadStore(w.store) && Usable(w.outputs, s.outputPath)
    requires env.fingerprint(s.id, w.tree) == Some(ReadStore(w.store)[s.id])
    requires UpToDate(env, steps, Prepare(env, steps, w, Options(false, true, concurrency), AllSucceed()).0)
    ensures w.outputs[s.outputPath] == env.generate(s.id, w.tree)
  {
    HitKeepsOutput(env, steps, w, Options(false, true, concurrency), AllSucceed(), s);
  }

  lemma SkippedOutputsAreRight<T(!new)>(env: Env<T>, steps: seq<Step>, w: World<T>, concurrency: bool, s: Step)
    requires ValidContract(steps) && s in steps && EveryWarmRunIsUpToDate(env, steps, w, concurrency)
    ensures Honest(env, w, s)
  {
    if s.id in ReadStore(w.store) && Usable(w.outputs, s.outputPath) {
      forall t | env.fingerprint(s.id, t) == Some(ReadStore(w.store)[s.id])
        ensures w.outputs[s.outputPath] == env.generate(s.id, t)
      {
        HitIsRight(env, steps, w.(tree := t), concurrency, s);
      }
    }
  }

  // ----- Histories -----

  /** A lost store is any file that reads as empty. */
  datatype Event<!T> =
    | Edit(tree: T)
    | DeleteOutput(path: string)
    | TruncateOutput(path: string)
    | LoseStore(file: StoreFile)
    | PrepareRun(opts: Options, outcomes: string -> Outcome)
    | EnsureCall(step: Step, forceClean: bool, outcome: Outcome)

  /** `EnsureCall` regenerates one step unless its cache decision is a hit, and records it. */
  function EnsureStep<T>(env: Env<T>, w: World<T>, step: Step, forceClean: bool, outcome: Outcome): World<T> {
    if Evaluate(env, w, step, forceClean).Skip? then w
    else AfterRunning(env, Options(forceClean, true, false), (id: string) => outcome, [step], w)
  }

  function Apply<T>(env: Env<T>, steps: seq<Step>, w: World<T>, e: Event<T>): World<T> {
    match e
    case Edit(tree) => w.(tree := tree)
    case DeleteOutput(path) => w.(outputs := w.outputs - {path})
    case TruncateOutput(path) => if path in w.outputs then w.(outputs := w.outputs[path := ""]) else w
    case LoseStore(file) => if ReadStore(file) == map[] then w.(store := file) else w
    case PrepareRun(opts, outcomes) => Prepare(env, steps, w, opts, outcomes).0
    case EnsureCall(step, forceClean, outcome) => EnsureStep(env, w, step, forceClean, outcome)
  }

  function After<T>(env: Env<T>, steps: seq<Step>, w: World<T>, events: seq<Event<T>>): World<T> {
    if events == [] then w
    else Apply(env, steps, After(env, steps, w, events[..|events| - 1]), events[|events| - 1])
  }

  /** What an event may do in the world `w` in which it happens: every command it starts
      is recorded or leaves a harmless output. Edits, deletions, truncations and a lost
      store may always happen. */
  ghost predicate Benign<T(!new)>(env: Env<T>, steps: seq<Step>, w: World<T>, e: Event<T>) {
    match e
    case PrepareRun(opts, outcomes) => RunKeepsEntries(env, steps, w, opts, outcomes)
    case EnsureCall(step, forceClean, outcome) =>
      Evaluate(env, w, step, forceClean).Run? ==> KeepsEntry(env, w, Options(forceClean, true, false), outcome, step)
    case _ => true
  }

  /** Single regenerations are of steps of the contract. */
  ghost predicate Concerns<T>(steps: seq<Step>, e: Event<T>) {
    e.EnsureCall? ==> e.step in steps
  }

  ghost predicate AllConcern<T>(steps: seq<Step>, events: seq<Event<T>>) {
    forall e :: e in events ==> Concerns(steps, e)
  }

  ghost predicate BenignUpTo<T(!new)>(env: Env<T>, steps: seq<Step>, w: World<T>, events: seq<Event<T>>, n: nat)
    requires n <= |events|
  {
    forall k :: 0 <= k < n ==> Benign(env, steps, After(env, steps, w, events[..k]), events[k])
  }

  /** Each event is benign in the world that the events before it leave. */
  ghost predicate BenignHistory<T(!new)>(env: Env<T>, steps: seq<Step>, w: World<T>, events: seq<Event<T>>) {
    BenignUpTo(env, steps, w, events, |events|)
  }

  /** A failing command leaves its output alone, removes it or empties it. */
  predicate Tidy(outcome: Outcome) {
    outcome.Ok() || outcome.residue in {Untouched, Deleted, Overwritten("")}
  }

  /** With fingerprints on and tidy failures, an event is benign in every world. */
  lemma TidyIsBenign<T(!new)>(env: Env<T>, steps: seq<Step>, w: World<T>, e: Event<T>)
    requires e.PrepareRun? ==> e.opts.useFingerprints && forall id :: Tidy(e.outcomes(id))
    requires e.EnsureCall? ==> Tidy(e.outcome)
    ensures Benign(env, steps, w, e)
  {
  }

  lemma EnsureKeepsCacheHonestIff<T(!new)>(env: Env<T>, steps: seq<Step>, w: World<T>, step: Step, forceClean: bool,
                                           outcome: Outcome)
    requires ValidContract(steps) && Sound(env) && HonestCache(env, steps, w) && step in steps
    ensures HonestCache(env, steps, EnsureStep(env, w, step, forceClean, outcome))
       <==> Benign(env, steps, w, EnsureCall(step, forceClean, outcome))
  {
    var w' := EnsureStep(env, w, step, forceClean, outcome);
    if Evaluate(env, w, step, forceClean).Run? {
      forall s | s in steps
        ensures Honest(env, w', s) <==>
                (s == step ==> KeepsEntry(env, w, Options(forceClean, true, false), outcome, step))
      {
        EnsureOneStepHonestIff(env, steps, w, step, forceClean, outcome, s);
      }
    }
  }

  lemma EnsureOneStepHonestIff<T(!new)>(
      env: Env<T>, steps: seq<Step>, w: World<T>, step: Step, forceClean: bool, outcome: Outcome, s: Step)
    requires ValidContract(steps) && Sound(env) && HonestCache(env, steps, w) && step in steps && s in steps
    requires Evaluate(env, w, step, forceClean).Run?
    ensures Honest(env, EnsureStep(env, w, step, forceClean, outcome), s)
       <==> (s == step ==> KeepsEntry(env, w, Options(forceClean, true, false), outcome, step))
  {
    var opts, outcomes := Options(forceClean, true, false), (id: string) => outcome;
    var w' := EnsureStep(env, w, step, forceClean, outcome);
    assert Honest(env, w, s);
    if s == step {
      OutputProduced(env, w.tree, outcomes, [step], w.outputs, 0);
      EntryRecorded(env, w.tree, opts, outcomes, [step], w.store, 0);
      StaysHonestIff(env, w, w', opts, outcome, s);
    } else {
      StrangersDiffer([step], steps, s);
      OutputUntouched(env, w.tree, outcomes, [step], w.outputs, s.outputPath);
      EntryUntouched(env, w.tree, opts, outcomes, [step], w.store, s.id);
      HonestUnchanged(env, w, w', s);
    }
  }

  /** One event keeps the cache honest exactly when it is benign. */
  lemma EventKeepsCacheHonestIff<T(!new)>(env: Env<T>, steps: seq<Step>, w: World<T>, e: Event<T>)
    requires ValidContract(steps) && Sound(env) && HonestCache(env, steps, w) && Concerns(steps, e)
    ensures HonestCache(env, steps, Apply(env, steps, w, e)) <==> Benign(env, steps, w, e)
  {
    match e
    case PrepareRun(opts, outcomes) => RunKeepsCacheHonestIff(env, steps, w, opts, outcomes);
    case EnsureCall(step, forceClean, outcome) => EnsureKeepsCacheHonestIff(env, steps, w, step, forceClean, outcome);
    case _ => assert forall s :: s in steps ==> Honest(env, w, s);
  }

  lemma AfterOneMore<T>(env: Env<T>, steps: seq<Step>, w: World<T>, events: seq<Event<T>>, n: nat)
    requires n < |events|
    ensures After(env, steps, w, events[..n + 1]) == Apply(env, steps, After(env, steps, w, events[..n]), events[n])
  {
    assert events[..n + 1][..n] == events[..n];
  }

  ghost predicate HonestUpTo<T(!new)>(env: Env<T>, steps: seq<Step>, w: World<T>, events: seq<Event<T>>, n: nat)
    requires n <= |events|
  {
    forall k :: 0 <= k <= n ==> HonestCache(env, steps, After(env, steps, w, events[..k]))
  }

  /** Over any history the cache is honest all the way exactly when every event is benign. */
  lemma {:induction false} HistoryIsHonestIff<T(!new)>(env: Env<T>, steps: seq<Step>, w: World<T>,
                                                       events: seq<Event<T>>, n: nat)
    requires ValidContract(steps) && Sound(env) && HonestCache(env, steps, w)
             && AllConcern(steps, events) && n <= |events|
    ensures HonestUpTo(env, steps, w, events, n) <==> BenignUpTo(env, steps, w, events, n)
  {
    if n == 0 {
      assert events[..0] == [];
    } else {
      HistoryIsHonestIff(env, steps, w, events, n - 1);
      AfterOneMore(env, steps, w, events, n - 1);
      if HonestUpTo(env, steps, w, events, n - 1) {
        EventKeepsCacheHonestIff(env, steps, After(env, steps, w, events[..n - 1]), events[n - 1]);
      }
    }
  }

  lemma HistoryKeepsCacheHonest<T(!new)>(env: Env<T>, steps: seq<Step>, w: World<T>, events: seq<Event<T>>)
    requires ValidContract(steps) && Sound(env) && HonestCache(env, steps, w) && AllConcern(steps, events)
    requires BenignHistory(env, steps, w, events)
    ensures HonestCache(env, steps, After(env, steps, w, events))
  {
    HistoryIsHonestIff(env, steps, w, events, |events|);
    assert events[..|events|] == events;
  }

  ghost predicate RightUpTo<T(!new)>(
      env: Env<T>, steps: seq<Step>, w: World<T>, events: seq<Event<T>>, concurrency: bool, n: nat)
    requires n <= |events|
  {
    forall k :: 0 <= k <= n ==> EveryWarmRunIsUpToDate(env, steps, After(env, steps, w, events[..k]), concurrency)
  }

  /** From an empty checkout, at every point of a history every next default run is right
      exactly when every event of the history is benign. */
  lemma EveryWarmRunIsRightIffHistoryIsBenign<T(!new)>(
      env: Env<T>, steps: seq<Step>, tree: T, events: seq<Event<T>>, concurrency: bool)
    requires ValidContract(steps) && Sound(env) && AllConcern(steps, events)
    requires concurrency ==> DependenciesListed(steps)
    ensures var w := World(tree, map[], Absent);
      RightUpTo(env, steps, w, events, concurrency, |events|) <==> BenignHistory(env, steps, w, events)
  {
    var w := World(tree, map[], Absent);
    HistoryIsHonestIff(env, steps, w, events, |events|);
    forall k | 0 <= k <= |events|
      ensures HonestCache(env, steps, After(env, steps, w, events[..k]))
         <==> EveryWarmRunIsUpToDate(env, steps, After(env, steps, w, events[..k]), concurrency)
    {
      HonestIffEveryWarmRunIsUpToDate(env, steps, After(env, steps, w, events[..k]), concurrency);
    }
  }

  /** From an empty checkout, after any benign history, a successful warm run leaves
      exactly the outputs that a successful force-clean run would. */
  lemma WarmEqualsCleanAfterAnyHistory<T(!new)>(env: Env<T>, steps: seq<Step>, tree: T, events: seq<Event<T>>,
                                                concurrency: bool, o1: string -> Outcome, o2: string -> Outcome)
    requires ValidContract(steps) && Sound(env) && AllConcern(steps, events)
    requires BenignHistory(env, steps, World(tree, map[], Absent), events)
    ensures var w := After(env, steps, World(tree, map[], Absent), events);
            var (warm, r1) := Prepare(env, steps, w, Options(false, true, concurrency), o1);
            var (clean, r2) := Prepare(env, steps, w, Options(true, true, concurrency), o2);
            r1.Prepared? && r2.Prepared? ==> warm.outputs == clean.outputs && UpToDate(env, steps, warm)
  {
    var w := After(env, steps, World(tree, map[], Absent), events);
    HistoryKeepsCacheHonest(env, steps, World(tree, map[], Absent), events);
    var warm, clean := Options(false, true, concurrency), Options(true, true, concurrency);
    if Prepare(env, steps, w, warm, o1).1.Prepared? && Prepare(env, steps, w, clean, o2).1.Prepared? {
      WarmEqualsClean(env, steps, w, warm, clean, o1, o2);
      SuccessfulRunIsUpToDate(env, steps, w, warm, o1);
    }
  }

  /** Stored fingerprints always come from trees: over every history from an empty checkout. */
  lemma {:induction false} StoredFingerprintsComeFromTrees<T(!new)>(env: Env<T>, steps: seq<Step>, tree: T,
                                                                    events: seq<Event<T>>)
    requires ValidContract(steps) && AllConcern(steps, events)
    ensures EntriesComeFromTrees(env, steps, After(env, steps, World(tree, map[], Absent), events))
  {
    if events != [] {
      var before, e := After(env, steps, World(tree, map[], Absent), events[..|events| - 1]), events[|events| - 1];
      StoredFingerprintsComeFromTrees(env, steps, tree, events[..|events| - 1]);
      EventKeepsOrigins(env, steps, before, e);
    }
  }

  lemma EventKeepsOrigins<T(!new)>(env: Env<T>, steps: seq<Step>, w: World<T>, e: Event<T>)
    requires ValidContract(steps) && Concerns(steps, e) && EntriesComeFromTrees(env, steps, w)
    ensures EntriesComeFromTrees(env, steps, Apply(env, steps, w, e))
  {
    var w' := Apply(env, steps, w, e);
    forall s | s in steps && s.id in ReadStore(w'.store)
      ensures ComesFromTree(env, s.id, ReadStore(w'.store)[s.id])
    {
      match e
      case PrepareRun(opts, outcomes) => StepAfterRun(env, steps, w, opts, outcomes, s);
      case EnsureCall(step, forceClean, outcome) =>
        if Evaluate(env, w, step, forceClean).Run? {
          var opts, outcomes := Options(forceClean, true, false), (id: string) => outcome;
          if s == step {
            EntryRecorded(env, w.tree, opts, outcomes, [step], w.store, 0);
          } else {
            StrangersDiffer([step], steps, s);
            EntryUntouched(env, w.tree, opts, outcomes, [step], w.store, s.id);
          }
        }
      case _ =>
        assert s.id in ReadStore(w.store) ==> ComesFromTree(env, s.id, ReadStore(w.store)[s.id]);
    }
  }

  // ----- What one run reports -----

  lemma {:induction false} FirstFailureAt(outcomes: string -> Outcome, wave: seq<Step>) returns (a: nat)
    requires !WaveOk(outcomes, wave)
    ensures a < |wave| && wave[a] == FirstFailure(outcomes, wave) && !outcomes(wave[a].id).Ok()
    ensures forall b :: 0 <= b < a ==> outcomes(wave[b].id).Ok()
  {
    if outcomes(wave[0].id).Ok() {
      a := FirstFailureAt(outcomes, wave[1..]);
      a := a + 1;
    } else {
      a := 0;
    }
  }

  ghost predicate FailsIn(wave: seq<Step>, outcomes: string -> Outcome, s: Step) {
    s in wave && !outcomes(s.id).Ok()
  }

  /** The failing step is the first in contract order among those of its wave. */
  lemma FailureIsEarliestInContractOrder(runnable: seq<Step>, outcomes: string -> Outcome, k: nat)
    requires DistinctIds(runnable) && k < |FirstFit(runnable)| && !WaveOk(outcomes, FirstFit(runnable)[k])
    ensures forall i, j | 0 <= i < |runnable| && 0 <= j < |runnable| ::
              runnable[i] == FirstFailure(outcomes, FirstFit(runnable)[k])
              && FailsIn(FirstFit(runnable)[k], outcomes, runnable[j])
              ==> i <= j
  {
    var n, wave := |runnable|, FirstFit(runnable)[k];
    var slot := GrundyNumbers(runnable, n);
    assert runnable[..n] == runnable;
    WavesAreGrundyClasses(runnable, slot, n);
    var at := ClassPositions(runnable, slot, n, k);
    var a := FirstFailureAt(outcomes, wave);
    forall i, j | 0 <= i < n && 0 <= j < n && runnable[i] == wave[a] && FailsIn(wave, outcomes, runnable[j])
      ensures i <= j
    {
      var b :| 0 <= b < |wave| && wave[b] == runnable[j];
      assert at[a] == i && at[b] == j;
    }
  }

  lemma SkippedIdsAreSkips<T>(env: Env<T>, start: World<T>, steps: seq<Step>, opts: Options, s: Step)
    requires DistinctIds(steps) && s in steps
    ensures s.id in SkippedIds(env, start, steps, opts) <==> Decide(env, start, s, opts).Skip?
  {
    var a :| 0 <= a < |steps| && steps[a] == s;
    if s.id in SkippedIds(env, start, steps, opts) {
      var b :| 0 <= b < |steps| && Decide(env, start, steps[b], opts).Skip? && steps[b].id == s.id;
    }
  }

  /** Success completes the whole contract, in order; skipped steps are exactly the cache hits. */
  lemma SuccessCompletesContract<T>(env: Env<T>, steps: seq<Step>, w: World<T>, opts: Options,
                                    outcomes: string -> Outcome)
    requires ValidContract(steps) && Prepare(env, steps, w, opts, outcomes).1.Prepared?
    ensures var r, start := Prepare(env, steps, w, opts, outcomes).1, Wipe(steps, opts, w);
            r.completed == steps && r.skipped == Filter(steps, (s: Step) => Decide(env, start, s, opts).Skip?)
  {
    var start, d := Wipe(steps, opts, w), StartedSteps(env, steps, w, opts, outcomes);
    var skipped := SkippedIds(env, start, steps, opts);
    var succeeded := skipped + SucceededIds(outcomes, d);
    StartedFacts(env, steps, w, opts, outcomes);
    forall s | s in steps
      ensures s.id in succeeded
      ensures s.id in skipped <==> Decide(env, start, s, opts).Skip?
    {
      SkippedIdsAreSkips(env, start, steps, opts, s);
      if Decide(env, start, s, opts).Run? {
        var k :| 0 <= k < |d| && d[k] == s;
        assert s.id in SucceededIds(outcomes, d);
      }
    }
    FilterAll(steps, (s: Step) => s.id in succeeded);
    FiltersAgree(steps, (s: Step) => s.id in skipped, (s: Step) => Decide(env, start, s, opts).Skip?);
  }

  function PlanOfRun<T>(env: Env<T>, steps: seq<Step>, w: World<T>, opts: Options): Plan {
    var start := Wipe(steps, opts, w);
    PlanOf(Runnable(env, start, steps, opts), opts.concurrency, SkippedIds(env, start, steps, opts))
  }

  /** On failure: earlier waves all succeeded, the waves up to the failing one and no
      others were started, and the reported step is a failing member of that wave. */
  lemma FailureReport<T>(env: Env<T>, steps: seq<Step>, w: World<T>, opts: Options, outcomes: string -> Outcome)
    requires Prepare(env, steps, w, opts, outcomes).1.Failed?
    ensures PlanOfRun(env, steps, w, opts).Planned?
    ensures var r, waves := Prepare(env, steps, w, opts, outcomes).1, PlanOfRun(env, steps, w, opts).waves;
            var k := FirstFailingWave(outcomes, waves);
            && k < |waves| && (forall v :: 0 <= v < k ==> WaveOk(outcomes, waves[v]))
            && StartedSteps(env, steps, w, opts, outcomes) == Flatten(waves[..k + 1])
            && r.failedStep in waves[k] && !outcomes(r.failedStep.id).Ok() && r.outcome == outcomes(r.failedStep.id)
  {
    var waves := PlanOfRun(env, steps, w, opts).waves;
    var a := FirstFailureAt(outcomes, waves[FirstFailingWave(outcomes, waves)]);
  }

  /** Positions among the kept steps compare as positions in the contract. */
  lemma KeptPositions(steps: seq<Step>, runs: Step -> bool, i: nat, j: nat) returns (b: nat, c: nat)
    requires i < |steps| && j < |steps| && runs(steps[i]) && runs(steps[j])
    ensures b < |Filter(steps, runs)| && Filter(steps, runs)[b] == steps[i]
    ensures c < |Filter(steps, runs)| && Filter(steps, runs)[c] == steps[j]
    ensures b <= c ==> i <= j
  {
    b := PositionOf(steps, runs, i);
    c := PositionOf(steps, runs, j);
    KeptAtPosition(steps, runs, b);
    KeptAtPosition(steps, runs, c);
  }

  lemma EarliestInWave(runnable: seq<Step>, concurrency: bool, completed: set<string>, outcomes: string -> Outcome,
                       k: nat, b: nat, c: nat)
    requires DistinctIds(runnable) && PlanOf(runnable, concurrency, completed).Planned?
    requires var waves := PlanOf(runnable, concurrency, completed).waves;
      k < |waves| && !WaveOk(outcomes, waves[k]) && b < |runnable| && c < |runnable|
      && runnable[b] == FirstFailure(outcomes, waves[k]) && FailsIn(waves[k], outcomes, runnable[c])
    ensures b <= c
  {
    if concurrency {
      FailureIsEarliestInContractOrder(runnable, outcomes, k);
    } else {
      assert Singletons(runnable)[k] == [runnable[k]];
      assert runnable[b].id == runnable[c].id;
    }
  }

  /** The step a failed run reports is the first failing one, in contract order, of the first
      failing wave, in serial and concurrent runs alike: no position `j` of a failing step of
      that wave comes before its position `i`. */
  lemma FailedStepIsEarliest<T>(
      env: Env<T>, steps: seq<Step>, w: World<T>, opts: Options, outcomes: string -> Outcome, i: nat, j: nat)
    requires ValidContract(steps) && Prepare(env, steps, w, opts, outcomes).1.Failed?
    requires i < |steps| && steps[i] == Prepare(env, steps, w, opts, outcomes).1.failedStep
    requires j < |steps| && FailsIn(FailingWave(env, steps, w, opts, outcomes), outcomes, steps[j])
    ensures i <= j
  {
    var start := Wipe(steps, opts, w);
    var runnable, skipped := Runnable(env, start, steps, opts), SkippedIds(env, start, steps, opts);
    var waves := PlanOfRun(env, steps, w, opts).waves;
    var k := FirstFailingWave(outcomes, waves);
    RunnableIsDistinct(env, start, steps, opts);
    PlannedStepsAreRunnable(runnable, opts.concurrency, skipped);
    var a := FirstFailureAt(outcomes, waves[k]);
    DistinctSteps(runnable, steps);
    var b, c := KeptPositions(steps, (s: Step) => Decide(env, start, s, opts).Run?, i, j);
    EarliestInWave(runnable, opts.concurrency, skipped, outcomes, k, b, c);
  }

  /** The first wave of a run with a failing command. */
  function FailingWave<T>(env: Env<T>, steps: seq<Step>, w: World<T>, opts: Options,
                          outcomes: string -> Outcome): seq<Step>
    requires Prepare(env, steps, w, opts, outcomes).1.Failed?
  {
    var waves := PlanOfRun(env, steps, w, opts).waves;
    waves[FirstFailingWave(outcomes, waves)]
  }

  /** Success or failure, exactly the fingerprints of started successes are recorded. */
  lemma EverySuccessIsRecorded<T>(env: Env<T>, steps: seq<Step>, w: World<T>, opts: Options,
                                  outcomes: string -> Outcome, id: string)
    requires ValidContract(steps)
    ensures var d := StartedSteps(env, steps, w, opts, outcomes);
            Get(ReadStore(Prepare(env, steps, w, opts, outcomes).0.store), id)
            == if (exists s :: s in d && s.id == id) && outcomes(id).Ok() && Recorded(env, w.tree, opts, id).Some?
               then Recorded(env, w.tree, opts, id) else Get(ReadStore(Wipe(steps, opts, w).store), id)
  {
    var d, start := StartedSteps(env, steps, w, opts, outcomes), Wipe(steps, opts, w);
    StartedFacts(env, steps, w, opts, outcomes);
    PrepareIsAfterRunning(env, steps, w, opts, outcomes);
    if k :| 0 <= k < |d| && d[k].id == id {
      assert d[k] in d;
      EntryRecorded(env, w.tree, opts, outcomes, d, start.store, k);
    } else {
      EntryUntouched(env, w.tree, opts, outcomes, d, start.store, id);
    }
  }

  // ----- Concurrency -----

  /** Commands with distinct outputs may finish in any order. */
  lemma CompletionOrderIsIrrelevant<T>(env: Env<T>, tree: T, opts: Options, outcomes: string -> Outcome,
                                       a: seq<Step>, b: seq<Step>, outputs: map<string, string>, store: StoreFile)
    requires ValidContract(a) && ValidContract(b) && forall s :: s in a <==> s in b
    ensures RunCommands(env, tree, outcomes, a, outputs) == RunCommands(env, tree, outcomes, b, outputs)
    ensures ReadStore(RecordAll(env, tree, opts, outcomes, a, store))
            == ReadStore(RecordAll(env, tree, opts, outcomes, b, store))
  {
    forall path
      ensures Get(RunCommands(env, tree, outcomes, a, outputs), path)
              == Get(RunCommands(env, tree, outcomes, b, outputs), path)
    {
      if i :| 0 <= i < |a| && a[i].outputPath == path {
        assert a[i] in b;
        var j :| 0 <= j < |b| && b[j] == a[i];
        OutputProduced(env, tree, outcomes, a, outputs, i);
        OutputProduced(env, tree, outcomes, b, outputs, j);
      } else {
        assert forall j :: 0 <= j < |b| ==> b[j] in a;
        OutputUntouched(env, tree, outcomes, a, outputs, path);
        OutputUntouched(env, tree, outcomes, b, outputs, path);
      }
    }
    SameLookupsSameMap(RunCommands(env, tree, outcomes, a, outputs), RunCommands(env, tree, outcomes, b, outputs));
    var sa, sb := RecordAll(env, tree, opts, outcomes, a, store), RecordAll(env, tree, opts, outcomes, b, store);
    forall id
      ensures Get(ReadStore(sa), id) == Get(ReadStore(sb), id)
    {
      if i :| 0 <= i < |a| && a[i].id == id {
        assert a[i] in b;
        var j :| 0 <= j < |b| && b[j] == a[i];
        EntryRecorded(env, tree, opts, outcomes, a, store, i);
        EntryRecorded(env, tree, opts, outcomes, b, store, j);
      } else {
        assert forall j :: 0 <= j < |b| ==> b[j] in a;
        EntryUntouched(env, tree, opts, outcomes, a, store, id);
        EntryUntouched(env, tree, opts, outcomes, b, store, id);
      }
    }
    SameLookupsSameMap(ReadStore(sa), ReadStore(sb));
  }

  lemma SerialRunsSameSteps<T>(env: Env<T>, steps: seq<Step>, w: World<T>, opts: Options, outcomes: string -> Outcome)
    requires ValidContract(steps) && Prepare(env, steps, w, opts, outcomes).1.Prepared?
    ensures var serial := opts.(concurrency := false);
            && Prepare(env, steps, w, serial, outcomes).1.Prepared?
            && forall s :: s in StartedSteps(env, steps, w, opts, outcomes)
                           <==> s in StartedSteps(env, steps, w, serial, outcomes)
  {
    var serial, start := opts.(concurrency := false), Wipe(steps, opts, w);
    var runnable := Runnable(env, start, steps, opts);
    RunnableIsDistinct(env, start, steps, opts);
    FiltersAgree(steps, (s: Step) => Decide(env, start, s, opts).Run?, (s: Step) => Decide(env, start, s, serial).Run?);
    assert Runnable(env, start, steps, serial) == runnable;
    StartedFacts(env, steps, w, opts, outcomes);
    SingletonsPass(outcomes, runnable);
    StartedFacts(env, steps, w, serial, outcomes);
  }

  lemma SingletonsPass(outcomes: string -> Outcome, runnable: seq<Step>)
    requires forall s :: s in runnable ==> outcomes(s.id).Ok()
    ensures FirstFailingWave(outcomes, Singletons(runnable)) == |runnable|
  {
    assert forall k :: 0 <= k < |runnable| ==> runnable[k] in runnable;
    FirstFailingWaveIs(outcomes, Singletons(runnable), |runnable|);
  }

  /** A successful concurrent run reports and leaves what a serial run does. */
  lemma ConcurrentEqualsSerial<T>(env: Env<T>, steps: seq<Step>, w: World<T>, opts: Options,
                                  outcomes: string -> Outcome)
    requires ValidContract(steps) && Prepare(env, steps, w, opts, outcomes).1.Prepared?
    ensures var serial := opts.(concurrency := false);
            var (w1, r1), (w2, r2) := Prepare(env, steps, w, opts, outcomes), Prepare(env, steps, w, serial, outcomes);
            r1 == r2 && w1.outputs == w2.outputs && ReadStore(w1.store) == ReadStore(w2.store)
  {
    var serial, start := opts.(concurrency := false), Wipe(steps, opts, w);
    SerialRunsSameSteps(env, steps, w, opts, outcomes);
    StartedFacts(env, steps, w, opts, outcomes);
    StartedFacts(env, steps, w, serial, outcomes);
    CompletionOrderIsIrrelevant(env, w.tree, opts, outcomes,
      StartedSteps(env, steps, w, opts, outcomes), StartedSteps(env, steps, w, serial, outcomes),
      start.outputs, start.store);
    SameRecordsWhateverConcurrency(env, w.tree, opts, serial, outcomes,
      StartedSteps(env, steps, w, serial, outcomes), start.store);
    PrepareIsAfterRunning(env, steps, w, opts, outcomes);
    PrepareIsAfterRunning(env, steps, w, serial, outcomes);
    SuccessCompletesContract(env, steps, w, opts, outcomes);
    SuccessCompletesContract(env, steps, w, serial, outcomes);
    FiltersAgree(steps, (s: Step) => Decide(env, start, s, opts).Skip?,
                 (s: Step) => Decide(env, start, s, serial).Skip?);
  }

  lemma {:induction false} SameRecordsWhateverConcurrency<T>(env: Env<T>, tree: T, a: Options, b: Options,
                                                             outcomes: string -> Outcome, done: seq<Step>,
                                                             store: StoreFile)
    requires a.useFingerprints == b.useFingerprints
    ensures RecordAll(env, tree, a, outcomes, done, store) == RecordAll(env, tree, b, outcomes, done, store)
  {
    if done != [] {
      SameRecordsWhateverConcurrency(env, tree, a, b, outcomes, done[..|done| - 1], store);
    }
  }

  // ----- The hypotheses of warm-equals-clean cannot be dropped -----

  function TwoTrees(): Env<bool> {
    Env((id: string, t: bool) => Some(if t then "1" else "0"), (id: string, t: bool) => if t then "1" else "0")
  }

  function OneStep(): seq<Step> { [Step("s", "out", Committed, [])] }

  lemma OneStepStarts(w: World<bool>, opts: Options, outcomes: string -> Outcome)
    requires !opts.forceClean && !opts.concurrency
    ensures var env, s := TwoTrees(), OneStep()[0];
            StartedSteps(env, OneStep(), w, opts, outcomes) == if Decide(env, w, s, opts).Skip? then [] else [s]
  {
    var s, env := OneStep()[0], TwoTrees();
    assert OneStep()[1..] == [];
    if Decide(env, w, s, opts).Run? {
      assert Runnable(env, w, OneStep(), opts) == [s] && Singletons([s]) == [[s]];
      assert [[s]][1..] == [] && [[s]][..1] == [[s]] && Flatten([[s]]) == [s];
    } else {
      assert Runnable(env, w, OneStep(), opts) == [] && Singletons([]) == [];
    }
  }

  /** What one run makes of the output and the store entry of the single step. */
  lemma OneStepRun(w: World<bool>, opts: Options, outcomes: string -> Outcome)
    requires !opts.forceClean && !opts.concurrency
    ensures var env, s := TwoTrees(), OneStep()[0];
            var w' := Prepare(env, OneStep(), w, opts, outcomes).0;
            var hit := Decide(env, w, s, opts).Skip?;
            && w'.tree == w.tree
            && Get(w'.outputs, "out") == (if hit then Get(w.outputs, "out")
                                          else Produced(env, w.tree, outcomes("s"), "s", Get(w.outputs, "out")))
            && Get(ReadStore(w'.store), "s") == if !hit && outcomes("s").Ok() && opts.useFingerprints
                                                then env.fingerprint("s", w.tree) else Get(ReadStore(w.store), "s")
  {
    OneStepStarts(w, opts, outcomes);
    assert OneStep()[0] in OneStep();
    StepAfterRun(TwoTrees(), OneStep(), w, opts, outcomes, OneStep()[0]);
  }

  ghost predicate Holds(w: World<bool>, tree: bool, output: string, entry: string) {
    w.tree == tree && Get(w.outputs, "out") == Some(output) && Get(ReadStore(w.store), "s") == Some(entry)
  }

  /** A first run reaches an up-to-date world with its fingerprint stored. */
  lemma OneStepFirstRun()
    ensures
      var opts := Options(false, true, false);
      Holds(Prepare(TwoTrees(), OneStep(), World(true, map[], Absent), opts, AllSucceed()).0, true, "1", "1")
  {
    OneStepRun(World(true, map[], Absent), Options(false, true, false), AllSucceed());
  }

  function FailsWithJunk(): string -> Outcome { (id: string) => Outcome(Some(1), Overwritten("junk")) }

  function FirstRun(): Event<bool> { PrepareRun(Options(false, true, false), AllSucceed()) }

  function OffRun(): Event<bool> { PrepareRun(Options(false, false, false), AllSucceed()) }

  function UntidyRun(): Event<bool> { PrepareRun(Options(false, true, false), FailsWithJunk()) }

  function EmptyCheckout(): World<bool> { World(true, map[], Absent) }

  lemma FirstRunHolds()
    ensures Holds(After(TwoTrees(), OneStep(), EmptyCheckout(), [FirstRun()]), true, "1", "1")
  {
    OneStepFirstRun();
    assert [FirstRun()][..0] == [];
  }

  lemma FourEvents(a: Event<bool>, b: Event<bool>, c: Event<bool>, d: Event<bool>)
    ensures var env, steps := TwoTrees(), OneStep();
            After(env, steps, EmptyCheckout(), [a, b, c, d])
            == Apply(env, steps, Apply(env, steps, Apply(env, steps, After(env, steps, EmptyCheckout(), [a]), b), c), d)
  {
    OneMoreEvent([a, b, c], d);
    OneMoreEvent([a, b], c);
    OneMoreEvent([a], b);
    assert [a, b, c] + [d] == [a, b, c, d] && [a, b] + [c] == [a, b, c] && [a] + [b] == [a, b];
  }

  lemma OneMoreEvent(events: seq<Event<bool>>, e: Event<bool>)
    ensures After(TwoTrees(), OneStep(), EmptyCheckout(), events + [e])
         == Apply(TwoTrees(), OneStep(), After(TwoTrees(), OneStep(), EmptyCheckout(), events), e)
  {
    assert (events + [e])[..|events|] == events;
  }

  /** After these events from an empty checkout, a default run succeeds with a wrong output. */
  ghost predicate EndsStale(events: seq<Event<bool>>) {
    var w := After(TwoTrees(), OneStep(), EmptyCheckout(), events);
    var (w', r) := Prepare(TwoTrees(), OneStep(), w, Options(false, true, false), AllSucceed());
    r.Prepared? && !UpToDate(TwoTrees(), OneStep(), w')
  }

  lemma StaleHit(w: World<bool>, output: string)
    requires Holds(w, true, output, "1") && output != "" && output != "1"
    ensures var (w', r) := Prepare(TwoTrees(), OneStep(), w, Options(false, true, false), AllSucceed());
            r.Prepared? && !UpToDate(TwoTrees(), OneStep(), w')
  {
    var on := Options(false, true, false);
    OneStepRun(w, on, AllSucceed());
    AllSucceedPasses(Singletons(Runnable(TwoTrees(), w, OneStep(), on)));
    assert OneStep()[0] in OneStep();
  }

  ghost function AfterFirstRun(): World<bool> {
    After(TwoTrees(), OneStep(), EmptyCheckout(), [FirstRun()])
  }

  /** An event that leaves another text beside the stored fingerprint, between an edit and
      its undoing, makes the next warm run keep that text. */
  lemma StaleAfter(e: Event<bool>, output: string)
    requires output != "" && output != "1"
    requires Holds(Apply(TwoTrees(), OneStep(), AfterFirstRun().(tree := false), e), false, output, "1")
    ensures EndsStale([FirstRun(), Edit(false), e, Edit(true)])
  {
    FourEvents(FirstRun(), Edit(false), e, Edit(true));
    StaleHit(Apply(TwoTrees(), OneStep(), AfterFirstRun().(tree := false), e).(tree := true), output);
  }

  lemma OffRunLeavesEntry(w: World<bool>)
    requires Holds(w, false, "1", "1")
    ensures Holds(Apply(TwoTrees(), OneStep(), w, OffRun()), false, "0", "1")
  {
    OneStepRun(w, Options(false, false, false), AllSucceed());
  }

  lemma UntidyRunLeavesEntry(w: World<bool>)
    requires Holds(w, false, "1", "1")
    ensures Holds(Apply(TwoTrees(), OneStep(), w, UntidyRun()), false, "junk", "1")
  {
    OneStepRun(w, Options(false, true, false), FailsWithJunk());
  }

  /** From an empty checkout: run, edit, run with fingerprints off, undo the edit. The next
      warm run succeeds with a cache hit and keeps a stale output. */
  lemma FingerprintlessRunBreaksTheCache()
    ensures EndsStale([FirstRun(), Edit(false), OffRun(), Edit(true)])
  {
    FirstRunHolds();
    OffRunLeavesEntry(AfterFirstRun().(tree := false));
    StaleAfter(OffRun(), "0");
  }

  /** So does a command that fails after writing to its output. */
  lemma UntidyFailureBreaksTheCache()
    ensures EndsStale([FirstRun(), Edit(false), UntidyRun(), Edit(true)])
  {
    FirstRunHolds();
    UntidyRunLeavesEntry(AfterFirstRun().(tree := false));
    StaleAfter(UntidyRun(), "junk");
  }

  /** A generator that ignores part of its inputs, a comment say. */
  function OneText(): Env<bool> {
    Env((id: string, t: bool) => Some(if t then "1" else "0"), (id: string, t: bool) => "text")
  }

  /** There an unrecorded success after an edit is harmless though the fingerprint changed:
      fingerprints alone decide only where they separate texts. */
  lemma ChangedFingerprintCanBeHarmless()
    ensures Sound(OneText()) && !Separating(OneText())
    ensures var w := World(false, map["out" := "text"], Stored(1, map["s" := "1"]));
      && HonestCache(OneText(), OneStep(), w) && EntriesComeFromTrees(OneText(), OneStep(), w)
      && GeneratesAsBefore(OneText(), w, OneStep()[0]) && !UnchangedSinceStored(OneText(), w, OneStep()[0])
  {
    var env := OneText();
    assert env.generate("s", true) == env.generate("s", false);
    assert env.fingerprint("s", true) == Some("1") && env.fingerprint("s", false) == Some("0");
  }
}
