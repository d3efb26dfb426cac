/** Preparation with the real fingerprints: a generator that reads only its declared
    paths is served soundly by the cache. */
module ContentRuntime {
  import opened Common
  import opened Fingerprints
  import opened Waves
  import opened Preparation
  import opened PreparationHistory

  type CleanRepo = r: Repo | WellFormedRepo(r) witness map[]

  /** What a generator may look at: the views at its step's declared paths. */
  function DeclaredViews(inputs: StepInputs, repo: Repo): seq<View> {
    var paths := DeclaredPaths(inputs);
    seq(|paths|, i requires 0 <= i < |paths| => ViewAt(repo, paths[i]))
  }

  /** Generators see their declared views; steps without declared inputs see everything. */
  datatype Generators = Generators(
    table: map<string, StepInputs>,
    declared: (string, seq<View>) -> string,
    undeclared: (string, Repo) -> string)

  function StepFingerprint(h: Hashing, g: Generators, id: string, repo: CleanRepo): Option<string> {
    if id in g.table && AllReadable(h, repo)
    then Some(Fingerprint(h, repo, g.table[id])) else None
  }

  function Generate(g: Generators, id: string, repo: CleanRepo): string {
    if id in g.table then g.declared(id, DeclaredViews(g.table[id], repo)) else g.undeclared(id, repo)
  }

  function EnvOf(h: Hashing, g: Generators): Env<CleanRepo> {
    Env((id: string, repo: CleanRepo) => StepFingerprint(h, g, id, repo),
        (id: string, repo: CleanRepo) => Generate(g, id, repo))
  }

  /** The computed fingerprints meet the cache's soundness hypothesis. */
  lemma ComputedFingerprintsAreSound(h: Hashing, g: Generators)
    requires ValidHashing(h) && forall id :: id in g.table ==> PlainInputs(g.table[id])
    ensures Sound(EnvOf(h, g))
  {
    var env := EnvOf(h, g);
    forall id, t: CleanRepo
      ensures env.fingerprint(id, t).Some? <==> id in g.table
      ensures env.fingerprint(id, t) != Some("")
    {
      CollectedIsAlwaysReadable(h, t);
    }
    forall id, s: CleanRepo, t: CleanRepo
        | env.fingerprint(id, s).Some? && env.fingerprint(id, s) == env.fingerprint(id, t)
      ensures env.generate(id, s) == env.generate(id, t)
    {
      FingerprintDeterminesViews(h, s, t, g.table[id]);
      assert DeclaredViews(g.table[id], s) == DeclaredViews(g.table[id], t);
    }
  }

  /** The end-to-end statement over trees of files: after any benign history, warm equals clean. */
  lemma WarmEqualsCleanForFileTrees(h: Hashing, g: Generators, steps: seq<Step>, repo: CleanRepo,
                                    events: seq<Event<CleanRepo>>, concurrency: bool,
                                    o1: string -> Outcome, o2: string -> Outcome)
    requires ValidHashing(h) && forall id :: id in g.table ==> PlainInputs(g.table[id])
    requires ValidContract(steps) && AllConcern(steps, events)
    requires BenignHistory(EnvOf(h, g), steps, World(repo, map[], Absent), events)
    ensures var w := After(EnvOf(h, g), steps, World(repo, map[], Absent), events);
            var (warm, r1) := Prepare(EnvOf(h, g), steps, w, Options(false, true, concurrency), o1);
            var (clean, r2) := Prepare(EnvOf(h, g), steps, w, Options(true, true, concurrency), o2);
            r1.Prepared? && r2.Prepared? ==> warm.outputs == clean.outputs && UpToDate(EnvOf(h, g), steps, warm)
  {
    ComputedFingerprintsAreSound(h, g);
    WarmEqualsCleanAfterAnyHistory(EnvOf(h, g), steps, repo, events, concurrency, o1, o2);
  }
}
