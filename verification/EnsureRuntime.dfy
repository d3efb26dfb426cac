/** The process memo in front of the graph-registry generator: at most one generation
    per directory and fingerprint in a process. */
module EnsureRuntime {
  import opened Common
  import opened Waves
  import opened Preparation
  import opened PreparationHistory
  import opened RunReport

  /** The last ensured fingerprint of a directory, and whether this process generated it. */
  datatype MemoEntry = MemoEntry(fingerprint: Option<string>, generated: bool)

  datatype Process = Process(memo: map<string, MemoEntry>, count: nat)

  datatype Why = ProcessMemo | Decided(decision: Decision)

  datatype EnsureResult =
    | Skipped(why: Why, fingerprint: Option<string>, generationCount: nat)
    | Generated(reason: Reason, fingerprint: Option<string>, generationCount: nat)
    | Threw

  datatype Call<+T> = Call(cwd: string, world: World<T>, forceClean: bool, useProcessMemo: bool, outcome: Outcome)

  function FingerprintOf(d: Decision): Option<string> {
    if d.Skip? then Some(d.matched) else d.fingerprint
  }

  /** A cache-hit memo does not block a forced regeneration; a generated one does. */
  predicate MemoHit(p: Process, cwd: string, forceClean: bool, useProcessMemo: bool, d: Decision) {
    useProcessMemo && cwd in p.memo && p.memo[cwd].fingerprint == FingerprintOf(d)
    && (!forceClean || p.memo[cwd].generated)
  }

  function Remember(p: Process, cwd: string, useProcessMemo: bool, entry: MemoEntry): map<string, MemoEntry> {
    if useProcessMemo then p.memo[cwd := entry] else p.memo
  }

  function Ensure<T>(env: Env<T>, step: Step, p: Process, c: Call<T>): (Process, World<T>, EnsureResult) {
    var d := Evaluate(env, c.world, step, c.forceClean);
    var f := FingerprintOf(d);
    if MemoHit(p, c.cwd, c.forceClean, c.useProcessMemo, d) then (p, c.world, Skipped(ProcessMemo, f, p.count))
    else if d.Skip? then
      (p.(memo := Remember(p, c.cwd, c.useProcessMemo, MemoEntry(f, false))), c.world, Skipped(Decided(d), f, p.count))
    else
      var after := EnsureStep(env, c.world, step, c.forceClean, c.outcome);
      if !c.outcome.Ok() then (p, after, Threw)
      else (Process(Remember(p, c.cwd, c.useProcessMemo, MemoEntry(f, true)), p.count + 1), after,
            Generated(d.reason, f, p.count + 1))
  }

  /** The memo and counter that live as long as the process. */
  class ProcessState {
    var memo: map<string, MemoEntry>
    var count: nat

    constructor ()
      ensures State() == Process(map[], 0)
    {
      memo, count := map[], 0;
    }

    ghost function State(): Process
      reads this
    {
      Process(memo, count)
    }

    method EnsureOnce<T>(env: Env<T>, step: Step, cwd: string, ws: Workspace<T>, forceClean: bool,
                         useProcessMemo: bool, outcome: Outcome)
      returns (result: EnsureResult)
      modifies this, ws`outputs, ws`store
      ensures (State(), ws.Contents(), result)
           == Ensure(env, step, old(State()), Call(cwd, old(ws.Contents()), forceClean, useProcessMemo, outcome))
    {
      ghost var w := ws.Contents();
      var d := Evaluate(env, World(ws.tree, ws.outputs, ws.store), step, forceClean);
      var f := FingerprintOf(d);
      if useProcessMemo && cwd in memo && memo[cwd].fingerprint == f {
        if !forceClean || memo[cwd].generated {
          return Skipped(ProcessMemo, f, count);
        }
      }
      if d.Skip? {
        result := Skipped(Decided(d), f, count);
        if useProcessMemo {
          memo := memo[cwd := MemoEntry(f, false)];
        }
        return;
      }
      EnsureRunsOneStep(env, w, step, forceClean, outcome);
      ws.outputs := Execute(env, ws.tree, outcome, step, ws.outputs);
      if !outcome.Ok() {
        return Threw;
      }
      count := count + 1;
      if f.Some? && f.value != "" {
        ws.store := WriteStep(ws.store, step.id, f.value);
      }
      result := Generated(d.reason, f, count);
      if useProcessMemo {
        memo := memo[cwd := MemoEntry(f, true)];
      }
    }
  }

  lemma EnsureRunsOneStep<T>(env: Env<T>, w: World<T>, step: Step, forceClean: bool, outcome: Outcome)
    requires Evaluate(env, w, step, forceClean).Run?
    ensures var f := env.fingerprint(step.id, w.tree);
            EnsureStep(env, w, step, forceClean, outcome)
            == w.(outputs := Execute(env, w.tree, outcome, step, w.outputs),
                  store := if outcome.Ok() && f.Some? && f.value != "" then WriteStep(w.store, step.id, f.value)
                           else w.store)
  {
    var opts, outcomes := Options(forceClean, true, false), (id: string) => outcome;
    assert [step][..0] == [] && [step][|[step]| - 1] == step && outcomes(step.id) == outcome;
    assert RunCommands(env, w.tree, outcomes, [step], w.outputs) == Execute(env, w.tree, outcome, step, w.outputs);
    assert RecordAll(env, w.tree, opts, outcomes, [], w.store) == w.store;
    assert RecordAll(env, w.tree, opts, outcomes, [step], w.store)
           == RecordStep(env, w.tree, opts, outcome, step, w.store);
  }

  // ----- Runs of calls in one process -----

  function StateAfter<T>(env: Env<T>, step: Step, p: Process, calls: seq<Call<T>>): Process {
    if calls == [] then p
    else Ensure(env, step, StateAfter(env, step, p, calls[..|calls| - 1]), calls[|calls| - 1]).0
  }

  function ResultOf<T>(env: Env<T>, step: Step, p: Process, calls: seq<Call<T>>, i: nat): EnsureResult
    requires i < |calls|
  {
    Ensure(env, step, StateAfter(env, step, p, calls[..i]), calls[i]).2
  }

  /** Generations among the first `n` calls that satisfy `counts`. */
  function Generations<T>(env: Env<T>, step: Step, p: Process, calls: seq<Call<T>>, counts: Call<T> -> bool,
                          n: nat): nat
    requires n <= |calls|
  {
    if n == 0 then 0
    else if counts(calls[n - 1]) && ResultOf(env, step, p, calls, n - 1).Generated?
    then Generations(env, step, p, calls, counts, n - 1) + 1
    else Generations(env, step, p, calls, counts, n - 1)
  }

  lemma StateSnoc<T>(env: Env<T>, step: Step, p: Process, calls: seq<Call<T>>, n: nat)
    requires n < |calls|
    ensures StateAfter(env, step, p, calls[..n + 1])
            == Ensure(env, step, StateAfter(env, step, p, calls[..n]), calls[n]).0
  {
    assert calls[..n + 1][..n] == calls[..n];
  }

  predicate MemoCall<T>(cwd: string, c: Call<T>) { c.cwd == cwd && c.useProcessMemo }

  /** The directory's memo says that this process generated for `f`. */
  predicate GeneratedFor(p: Process, cwd: string, f: Option<string>) {
    cwd in p.memo && p.memo[cwd] == MemoEntry(f, true)
  }

  /** A call that generates for the directory leaves that memo; once it is there no call
      with the same fingerprint generates or removes it. */
  lemma OneCallKeepsMemo<T>(env: Env<T>, step: Step, p: Process, c: Call<T>, cwd: string, f: Option<string>)
    requires MemoCall(cwd, c) ==> env.fingerprint(step.id, c.world.tree) == f
    ensures var (q, _, r) := Ensure(env, step, p, c);
            && (MemoCall(cwd, c) && r.Generated? ==> GeneratedFor(q, cwd, f))
            && (GeneratedFor(p, cwd, f) ==> GeneratedFor(q, cwd, f) && !(MemoCall(cwd, c) && r.Generated?))
  {
  }

  /** While a directory's fingerprint stays the same, memo-enabled calls generate at
      most once, whatever the mix of forced calls, cache hits and other directories. */
  lemma {:induction false} GeneratesAtMostOnce<T>(
      env: Env<T>, step: Step, p: Process, calls: seq<Call<T>>, cwd: string, f: Option<string>, n: nat)
    requires n <= |calls|
    requires forall c :: c in calls && MemoCall(cwd, c) ==> env.fingerprint(step.id, c.world.tree) == f
    ensures var g := Generations(env, step, p, calls, (c: Call<T>) => MemoCall(cwd, c), n);
            var q := StateAfter(env, step, p, calls[..n]);
            && g <= 1
            && (g == 1 ==> GeneratedFor(q, cwd, f))
            && (GeneratedFor(p, cwd, f) ==> g == 0 && GeneratedFor(q, cwd, f))
  {
    if n > 0 {
      GeneratesAtMostOnce(env, step, p, calls, cwd, f, n - 1);
      StateSnoc(env, step, p, calls, n - 1);
      assert calls[n - 1] in calls;
      OneCallKeepsMemo(env, step, StateAfter(env, step, p, calls[..n - 1]), calls[n - 1], cwd, f);
    }
  }

  /** One call moves the counter exactly when it generates, and its result reports it. */
  lemma EnsureCounts<T>(env: Env<T>, step: Step, p: Process, c: Call<T>)
    ensures var (q, _, r) := Ensure(env, step, p, c);
            && q.count == p.count + (if r.Generated? then 1 else 0)
            && (!r.Threw? ==> r.generationCount == q.count)
  {
  }

  /** The counter is the number of generator runs that returned, and each result reports it. */
  lemma {:induction false} CountIsGeneratorRuns<T>(env: Env<T>, step: Step, p: Process, calls: seq<Call<T>>, n: nat)
    requires n <= |calls|
    ensures StateAfter(env, step, p, calls[..n]).count == p.count + Generations(env, step, p, calls, AnyCall, n)
    ensures n > 0 && !ResultOf(env, step, p, calls, n - 1).Threw?
        ==> ResultOf(env, step, p, calls, n - 1).generationCount == StateAfter(env, step, p, calls[..n]).count
  {
    if n > 0 {
      CountIsGeneratorRuns(env, step, p, calls, n - 1);
      StateSnoc(env, step, p, calls, n - 1);
      EnsureCounts(env, step, StateAfter(env, step, p, calls[..n - 1]), calls[n - 1]);
    }
  }

  predicate AnyCall<T>(c: Call<T>) { true }

  /** A returning call leaves a usable output unless the memo answers for an output that
      is missing or empty: exactly then nothing repairs it. */
  lemma EnsureLeavesUsableOutputIff<T>(env: Env<T>, step: Step, p: Process, c: Call<T>)
    requires env.generate(step.id, c.world.tree) != "" && env.fingerprint(step.id, c.world.tree).Some?
    requires !Ensure(env, step, p, c).2.Threw?
    ensures var d := Evaluate(env, c.world, step, c.forceClean);
            Usable(Ensure(env, step, p, c).1.outputs, step.outputPath)
            <==> Usable(c.world.outputs, step.outputPath) || !MemoHit(p, c.cwd, c.forceClean, c.useProcessMemo, d)
  {
    if Evaluate(env, c.world, step, c.forceClean).Run? {
      EnsureRunsOneStep(env, c.world, step, c.forceClean, c.outcome);
    }
  }

  /** The unrepaired case is reachable: ensure, delete the output, ensure again. */
  lemma MemoHidesMissingOutput(step: Step)
    ensures var env, p := TwoTrees(), Process(map[], 0);
            var first := Call("/repo", World(true, map[], Absent), false, true, Outcome(Some(0), Untouched));
            var (q, w, r) := Ensure(env, step, p, first);
            var again := first.(world := w.(outputs := w.outputs - {step.outputPath}));
            r.Generated? && Ensure(env, step, q, again) == (q, again.world, Skipped(ProcessMemo, Some("1"), 1))
  {
    var env := TwoTrees();
    EnsureRunsOneStep(env, World(true, map[], Absent), step, false, Outcome(Some(0), Untouched));
  }

  // ----- What a call returns, told from the calls before it -----

  function Fresh(): Process { Process(map[], 0) }

  function Returned<T>(env: Env<T>, step: Step, calls: seq<Call<T>>, i: nat): EnsureResult
    requires i < |calls|
  {
    ResultOf(env, step, Fresh(), calls, i)
  }

  /** Call `i` leaves a note for its directory: it may use the memo, and it generated or
      found a cache hit. */
  predicate LeavesNote<T>(env: Env<T>, step: Step, calls: seq<Call<T>>, cwd: string, i: nat)
    requires i < |calls|
  {
    && calls[i].useProcessMemo && calls[i].cwd == cwd
    && var r := Returned(env, step, calls, i);
       r.Generated? || (r.Skipped? && r.why != ProcessMemo)
  }

  /** The last of the first `n` calls that leaves a note for the directory. */
  function LastNote<T>(env: Env<T>, step: Step, calls: seq<Call<T>>, cwd: string, n: nat): Option<nat>
    requires n <= |calls|
    ensures var k := LastNote(env, step, calls, cwd, n); k.Some? ==> k.value < n
  {
    if n == 0 then None
    else if LeavesNote(env, step, calls, cwd, n - 1) then Some(n - 1)
    else LastNote(env, step, calls, cwd, n - 1)
  }

  function Current<T>(env: Env<T>, step: Step, c: Call<T>): Option<string> {
    env.fingerprint(step.id, c.world.tree)
  }

  /** The memo answers call `i`: it may use the memo, the last note for its directory is of
      the same fingerprint, and a forced call finds that note to be of a generation. */
  predicate MemoAnswers<T>(env: Env<T>, step: Step, calls: seq<Call<T>>, i: nat)
    requires i < |calls|
  {
    && calls[i].useProcessMemo
    && match LastNote(env, step, calls, calls[i].cwd, i)
       case None => false
       case Some(k) =>
         && Current(env, step, calls[k]) == Current(env, step, calls[i])
         && (calls[i].forceClean ==> Returned(env, step, calls, k).Generated?)
  }

  /** The last note as the memo should hold it. */
  function Noted<T>(env: Env<T>, step: Step, calls: seq<Call<T>>, cwd: string, n: nat): Option<MemoEntry>
    requires n <= |calls|
  {
    match LastNote(env, step, calls, cwd, n)
    case None => None
    case Some(k) => Some(MemoEntry(Current(env, step, calls[k]), Returned(env, step, calls, k).Generated?))
  }

  predicate Memo(p: Process, cwd: string, note: Option<MemoEntry>) {
    if cwd in p.memo then note == Some(p.memo[cwd]) else note == None
  }

  lemma DecisionFingerprint<T>(env: Env<T>, step: Step, c: Call<T>)
    ensures FingerprintOf(Evaluate(env, c.world, step, c.forceClean)) == Current(env, step, c)
  {
  }

  lemma OneCallLeavesNote<T>(env: Env<T>, step: Step, p: Process, c: Call<T>, cwd: string, note: Option<MemoEntry>)
    requires Memo(p, cwd, note)
    ensures var (q, _, r) := Ensure(env, step, p, c);
      if c.useProcessMemo && c.cwd == cwd && (r.Generated? || (r.Skipped? && r.why != ProcessMemo))
      then Memo(q, cwd, Some(MemoEntry(Current(env, step, c), r.Generated?)))
      else Memo(q, cwd, note)
  {
    DecisionFingerprint(env, step, c);
  }

  lemma NotedGrows<T>(env: Env<T>, step: Step, calls: seq<Call<T>>, cwd: string, n: nat)
    requires 0 < n <= |calls|
    ensures Noted(env, step, calls, cwd, n)
         == if LeavesNote(env, step, calls, cwd, n - 1)
            then Some(MemoEntry(Current(env, step, calls[n - 1]), Returned(env, step, calls, n - 1).Generated?))
            else Noted(env, step, calls, cwd, n - 1)
  {
  }

  /** The memo of a directory is its last note. */
  lemma {:induction false} MemoIsLastNote<T>(env: Env<T>, step: Step, calls: seq<Call<T>>, cwd: string, n: nat)
    requires n <= |calls|
    ensures Memo(StateAfter(env, step, Fresh(), calls[..n]), cwd, Noted(env, step, calls, cwd, n))
  {
    if n > 0 {
      var before, c := StateAfter(env, step, Fresh(), calls[..n - 1]), calls[n - 1];
      MemoIsLastNote(env, step, calls, cwd, n - 1);
      NotedGrows(env, step, calls, cwd, n);
      OneCallLeavesNote(env, step, before, c, cwd, Noted(env, step, calls, cwd, n - 1));
      StateSnoc(env, step, Fresh(), calls, n - 1);
    }
  }

  /** The options under which a call consults the cache. */
  function CacheOptions<T>(c: Call<T>): Options { Options(c.forceClean, true, false) }

  /** In a fresh process every call returns, exactly: skipped by the memo if that answers;
      else skipped if the cache hits, which a forced call never does; else generated or
      thrown, as the generator's exit status says. So a forced call is skipped only after
      a generation for the same fingerprint with no cache hit or other fingerprint since. */
  lemma CallReturns<T>(env: Env<T>, step: Step, calls: seq<Call<T>>, i: nat)
    requires i < |calls|
    ensures var c, r := calls[i], Returned(env, step, calls, i);
      if MemoAnswers(env, step, calls, i) then r.Skipped? && r.why == ProcessMemo
      else if Hit(env, c.world, CacheOptions(c), step) then r.Skipped? && r.why.Decided? && !c.forceClean
      else if c.outcome.status == Some(0) then
        r.Generated? && r.reason == Evaluate(env, c.world, step, c.forceClean).reason
      else r == Threw
    ensures var r := Returned(env, step, calls, i); !r.Threw? ==> r.fingerprint == Current(env, step, calls[i])
  {
    MemoIsLastNote(env, step, calls, calls[i].cwd, i);
    HitIsSkipped(env, [], calls[i].world, CacheOptions(calls[i]).(forceClean := false), step);
    DecisionFingerprint(env, step, calls[i]);
  }

  lemma SkippedLeavesWorld<T>(env: Env<T>, step: Step, p: Process, c: Call<T>)
    ensures Ensure(env, step, p, c).2.Skipped? ==> Ensure(env, step, p, c).1 == c.world
  {
  }

  /** A generation writes the output and records a non-empty fingerprint; a throw records
      nothing and leaves the output as the failing generator did. No other output changes. */
  lemma CallLeaves<T>(env: Env<T>, step: Step, p: Process, c: Call<T>, path: string, id: string)
    requires !Ensure(env, step, p, c).2.Skipped?
    ensures var (_, after, r) := Ensure(env, step, p, c);
      && after.tree == c.world.tree
      && Get(after.outputs, path) ==
         (if path != step.outputPath then Get(c.world.outputs, path)
          else if r.Generated? then Some(env.generate(step.id, c.world.tree))
          else match c.outcome.residue
            case Untouched => Get(c.world.outputs, path)
            case Deleted => None
            case Overwritten(content) => Some(content))
      && Entry(after.store, id) ==
         if r.Generated? && id == step.id && Current(env, step, c).GetOr("") != "" then Current(env, step, c)
         else Entry(c.world.store, id)
  {
    EnsureRunsOneStep(env, c.world, step, c.forceClean, c.outcome);
  }

  /** A cache hit does not block a forced regeneration that follows it. */
  lemma ForcedCallAfterHitGenerates(step: Step)
    ensures var env, w := TwoTrees(), World(true, map[step.outputPath := "1"], Stored(1, map[step.id := "1"]));
      var hit := Call("/repo", w, false, true, Outcome(Some(0), Untouched));
      var calls := [hit, hit.(forceClean := true)];
      && Returned(env, step, calls, 0) == Skipped(Decided(Skip("1")), Some("1"), 0)
      && Returned(env, step, calls, 1) == Generated(ForceClean, Some("1"), 1)
  {
    var w := World(true, map[step.outputPath := "1"], Stored(1, map[step.id := "1"]));
    var hit := Call("/repo", w, false, true, Outcome(Some(0), Untouched));
    var calls := [hit, hit.(forceClean := true)];
    assert calls[..0] == [] && calls[..1] == [hit] && [hit][..0] == [];
  }
}
