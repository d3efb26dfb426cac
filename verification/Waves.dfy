/** The planner that splits preparation steps into concurrent waves. */
module Waves {
  import opened Common

  datatype GitClassification = Committed | Ignored

  datatype Step = Step(
    id: string,
    outputPath: string,
    gitClassification: GitClassification,
    dependsOn: seq<string>)

  /** `position` is that of the step for which the planner throws. */
  datatype Plan = Planned(waves: seq<seq<Step>>) | Unsatisfied(position: nat)

  /** A later step `s` may not join a wave that holds `c`. */
  predicate Conflict(c: Step, s: Step) {
    s.id in c.dependsOn || c.id in s.dependsOn || c.outputPath == s.outputPath
  }

  predicate Accepts(wave: seq<Step>, s: Step) {
    forall k :: 0 <= k < |wave| ==> !Conflict(wave[k], s)
  }

  /** First fit: the earliest accepting wave, or a new wave at the end. */
  function Place(waves: seq<seq<Step>>, s: Step): seq<seq<Step>> {
    if waves == [] then [[s]]
    else if Accepts(waves[0], s) then [waves[0] + [s]] + waves[1..]
    else [waves[0]] + Place(waves[1..], s)
  }

  /** The waves once the first `n` steps are placed. */
  function FirstFitUpTo(steps: seq<Step>, n: nat): seq<seq<Step>>
    requires n <= |steps|
  {
    if n == 0 then [] else Place(FirstFitUpTo(steps, n - 1), steps[n - 1])
  }

  function FirstFit(steps: seq<Step>): seq<seq<Step>> {
    FirstFitUpTo(steps, |steps|)
  }

  function IdsBefore(steps: seq<Step>, n: nat): set<string>
    requires n <= |steps|
  {
    set k | 0 <= k < n :: steps[k].id
  }

  /** Every dependency of step `i` is already completed or listed before it. */
  predicate Satisfied(steps: seq<Step>, completed: set<string>, i: nat)
    requires i < |steps|
  {
    forall d :: d in steps[i].dependsOn ==> d in completed + IdsBefore(steps, i)
  }

  /** Appends `s` to wave `k`, which may be the one just past the last. */
  function PutAt(waves: seq<seq<Step>>, k: nat, s: Step): seq<seq<Step>>
    requires k <= |waves|
  {
    if k == |waves| then waves + [[s]] else waves[k := waves[k] + [s]]
  }

  lemma PutAtTail(waves: seq<seq<Step>>, k: nat, s: Step)
    requires 0 < k <= |waves|
    ensures PutAt(waves, k, s) == [waves[0]] + PutAt(waves[1..], k - 1, s)
  {
  }

  lemma {:induction false} PlaceAt(waves: seq<seq<Step>>, s: Step, k: nat)
    requires k <= |waves|
    requires forall w :: 0 <= w < k ==> !Accepts(waves[w], s)
    requires k < |waves| ==> Accepts(waves[k], s)
    ensures Place(waves, s) == PutAt(waves, k, s)
  {
    if k > 0 {
      PlaceAt(waves[1..], s, k - 1);
      PutAtTail(waves, k, s);
    }
  }

  function Singletons(steps: seq<Step>): seq<seq<Step>> {
    seq(|steps|, i requires 0 <= i < |steps| => [steps[i]])
  }

  /** The planner's inner loop: index of the first wave that takes `step`, if any. */
  method FindWave(waves: seq<seq<Step>>, step: Step) returns (w: nat)
    ensures w <= |waves|
    ensures forall v :: 0 <= v < w ==> !Accepts(waves[v], step)
    ensures w < |waves| ==> Accepts(waves[w], step)
    ensures Place(waves, step) == PutAt(waves, w, step)
  {
    w := 0;
    while w < |waves|
      invariant w <= |waves|
      invariant forall v :: 0 <= v < w ==> !Accepts(waves[v], step)
    {
      var waveDependsOnCurrent := exists k :: 0 <= k < |waves[w]| && step.id in waves[w][k].dependsOn;
      var dependsOnWaveMate := exists k :: 0 <= k < |waves[w]| && waves[w][k].id in step.dependsOn;
      var outputCollides := exists k :: 0 <= k < |waves[w]| && waves[w][k].outputPath == step.outputPath;
      if !waveDependsOnCurrent && !dependsOnWaveMate && !outputCollides {
        break;
      }
      assert !Accepts(waves[w], step);
      w := w + 1;
    }
    PlaceAt(waves, step, w);
  }

  function FirstUnsatisfied(steps: seq<Step>, completed: set<string>, i: nat): (r: nat)
    requires i <= |steps|
    ensures i <= r <= |steps| && (r < |steps| ==> !Satisfied(steps, completed, r))
    ensures forall j :: i <= j < r ==> Satisfied(steps, completed, j)
    decreases |steps| - i
  {
    if i == |steps| || !Satisfied(steps, completed, i) then i else FirstUnsatisfied(steps, completed, i + 1)
  }

  function PlanOf(steps: seq<Step>, concurrency: bool, alreadyCompleted: set<string>): Plan {
    if !concurrency then Planned(Singletons(steps))
    else
      var r := FirstUnsatisfied(steps, alreadyCompleted, 0);
      if r < |steps| then Unsatisfied(r) else Planned(FirstFit(steps))
  }

  /** Step `i` depends on `d`, which is neither completed nor listed before it. */
  ghost predicate Lacks(steps: seq<Step>, completed: set<string>, i: nat, d: string)
    requires i < |steps|
  {
    d in steps[i].dependsOn && d !in completed && forall j :: 0 <= j < i ==> steps[j].id != d
  }

  lemma SatisfiedIffLacksNothing(steps: seq<Step>, completed: set<string>, i: nat)
    requires i < |steps|
    ensures Satisfied(steps, completed, i) <==> forall d :: !Lacks(steps, completed, i, d)
  {
    assert forall d :: d in IdsBefore(steps, i) <==> exists j :: 0 <= j < i && steps[j].id == d;
    if !Satisfied(steps, completed, i) {
      var d :| d in steps[i].dependsOn && d !in completed + IdsBefore(steps, i);
      assert Lacks(steps, completed, i, d);
    }
  }

  /** The planner rejects a contract exactly when some dependency is neither completed
      nor listed earlier; with `concurrency` off it checks nothing. */
  lemma PlannerRejectsIff(steps: seq<Step>, concurrency: bool, completed: set<string>)
    ensures PlanOf(steps, concurrency, completed).Unsatisfied?
       <==> concurrency && exists i: nat, d :: i < |steps| && Lacks(steps, completed, i, d)
  {
    var r := FirstUnsatisfied(steps, completed, 0);
    if r < |steps| {
      SatisfiedIffLacksNothing(steps, completed, r);
      var d :| Lacks(steps, completed, r, d);
    } else if exists i: nat, d :: i < |steps| && Lacks(steps, completed, i, d) {
      var i: nat, d :| i < |steps| && Lacks(steps, completed, i, d);
      SatisfiedIffLacksNothing(steps, completed, i);
    }
  }

  /** The planner's outer loop. */
  method PlanWaves(steps: seq<Step>, concurrency: bool, alreadyCompleted: set<string>) returns (plan: Plan)
    ensures plan == PlanOf(steps, concurrency, alreadyCompleted)
  {
    if !concurrency {
      return Planned(Singletons(steps));
    }
    var waves: seq<seq<Step>> := [];
    var completedIds := alreadyCompleted;
    for i := 0 to |steps|
      invariant waves == FirstFitUpTo(steps, i)
      invariant completedIds == alreadyCompleted + IdsBefore(steps, i)
      invariant FirstUnsatisfied(steps, alreadyCompleted, 0) == FirstUnsatisfied(steps, alreadyCompleted, i)
    {
      var step := steps[i];
      if !(forall d :: d in step.dependsOn ==> d in completedIds) {
        return Unsatisfied(i);
      }
      var w := FindWave(waves, step);
      if w < |waves| {
        waves := waves[w := waves[w] + [step]];
      } else {
        waves := waves + [[step]];
      }
      completedIds := completedIds + {step.id};
    }
    return Planned(waves);
  }

  // ----- The wave index of a step is its Grundy number in the conflict graph -----

  /** Least number from `n` up outside `s`. */
  function Mex(s: set<nat>, n: nat): (m: nat)
    requires forall k :: k in s ==> k >= n
    ensures m >= n && m !in s && forall k: nat :: n <= k < m ==> k in s
    decreases s
  {
    if n in s then Mex(s - {n}, n + 1) else n
  }

  /** Some step before position `i` with number `w` conflicts with step `i`. */
  ghost predicate Blocked(steps: seq<Step>, slot: seq<nat>, i: nat, w: nat)
    requires i < |steps| && i <= |slot|
  {
    exists j: nat :: j < i && Conflict(steps[j], steps[i]) && slot[j] == w
  }

  /** Each step carries the least number not taken by an earlier conflicting step:
      the Grundy numbers of the conflict graph, defined without mention of waves. */
  ghost predicate IsGrundy(steps: seq<Step>, slot: seq<nat>) {
    && |slot| == |steps|
    && (forall i: nat :: i < |steps| ==> !Blocked(steps, slot, i, slot[i]))
    && (forall i: nat, w: nat :: i < |steps| && w < slot[i] ==> Blocked(steps, slot, i, w))
  }

  function GrundyNumbers(steps: seq<Step>, n: nat): (slot: seq<nat>)
    requires n <= |steps|
    ensures IsGrundy(steps[..n], slot)
  {
    if n == 0 then []
    else
      var before := GrundyNumbers(steps, n - 1);
      var g := Mex(set j: nat | j < n - 1 && Conflict(steps[j], steps[n - 1]) :: before[j], 0);
      GrundyExtends(steps, n - 1, before, g);
      before + [g]
  }

  lemma GrundyExtends(steps: seq<Step>, i: nat, before: seq<nat>, g: nat)
    requires i < |steps| && IsGrundy(steps[..i], before)
    requires g == Mex(set j: nat | j < i && Conflict(steps[j], steps[i]) :: before[j], 0)
    ensures IsGrundy(steps[..i + 1], before + [g])
  {
    var used := set j: nat | j < i && Conflict(steps[j], steps[i]) :: before[j];
    var after, s := before + [g], steps[..i + 1];
    forall k: nat, w: nat | k <= i
      ensures Blocked(s, after, k, w) <==> if k == i then w in used else Blocked(steps[..i], before, k, w)
    {
      if k < i {
        assert forall j: nat :: j < k ==> (after[j] == before[j] && s[j] == steps[..i][j]);
      }
    }
  }

  /** The steps among the first `n` numbered `w`, in contract order. */
  function Class(steps: seq<Step>, slot: seq<nat>, n: nat, w: nat): seq<Step>
    requires n <= |steps| && n <= |slot|
  {
    if n == 0 then []
    else if slot[n - 1] == w then Class(steps, slot, n - 1, w) + [steps[n - 1]]
    else Class(steps, slot, n - 1, w)
  }

  lemma {:induction false} ClassMembers(steps: seq<Step>, slot: seq<nat>, n: nat, w: nat)
    requires n <= |steps| && n <= |slot|
    ensures forall s: Step :: s in Class(steps, slot, n, w) <==> exists j: nat :: j < n && steps[j] == s && slot[j] == w
  {
    if n > 0 {
      ClassMembers(steps, slot, n - 1, w);
    }
  }

  /** A wave lists its steps in contract order. */
  lemma {:induction false} ClassPositions(steps: seq<Step>, slot: seq<nat>, n: nat, w: nat) returns (at: seq<nat>)
    requires n <= |steps| && n <= |slot|
    ensures |at| == |Class(steps, slot, n, w)|
    ensures forall a :: 0 <= a < |at| ==> at[a] < n && steps[at[a]] == Class(steps, slot, n, w)[a]
    ensures forall a, b :: 0 <= a < b < |at| ==> at[a] < at[b]
  {
    if n == 0 {
      at := [];
    } else {
      at := ClassPositions(steps, slot, n - 1, w);
      if slot[n - 1] == w {
        at := at + [n - 1];
      }
    }
  }

  lemma ClassAccepts(steps: seq<Step>, slot: seq<nat>, i: nat, w: nat)
    requires i < |steps| && i <= |slot|
    ensures Accepts(Class(steps, slot, i, w), steps[i]) <==> !Blocked(steps, slot, i, w)
  {
    ClassMembers(steps, slot, i, w);
    var wave := Class(steps, slot, i, w);
    if Blocked(steps, slot, i, w) {
      var j: nat :| j < i && Conflict(steps[j], steps[i]) && slot[j] == w;
      assert steps[j] in wave;
      var k :| 0 <= k < |wave| && wave[k] == steps[j];
    } else {
      forall k | 0 <= k < |wave|
        ensures !Conflict(wave[k], steps[i])
      {
        assert wave[k] in wave;
      }
    }
  }

  /** The waves after `n` steps are the classes of those steps, none empty. */
  ghost predicate AreClasses(steps: seq<Step>, slot: seq<nat>, n: nat, waves: seq<seq<Step>>)
    requires n <= |steps| && n <= |slot|
  {
    && (forall w :: 0 <= w < |waves| ==> waves[w] == Class(steps, slot, n, w) && waves[w] != [])
    && (forall i: nat :: i < n ==> slot[i] < |waves|)
  }

  lemma EmptyBeyondLastWave(steps: seq<Step>, slot: seq<nat>, n: nat, waves: seq<seq<Step>>, w: nat)
    requires n <= |steps| && n <= |slot| && AreClasses(steps, slot, n, waves) && w >= |waves|
    ensures Class(steps, slot, n, w) == []
  {
    ClassMembers(steps, slot, n, w);
    assert Class(steps, slot, n, w) == [] || Class(steps, slot, n, w)[0] in Class(steps, slot, n, w);
  }

  lemma FirstFitWave(steps: seq<Step>, slot: seq<nat>, i: nat, waves: seq<seq<Step>>)
    requires IsGrundy(steps, slot) && i < |steps| && AreClasses(steps, slot, i, waves)
    ensures slot[i] <= |waves| && Place(waves, steps[i]) == PutAt(waves, slot[i], steps[i])
  {
    assert !Blocked(steps, slot, i, |waves|);
    forall w: nat | w < |waves|
      ensures Accepts(waves[w], steps[i]) <==> !Blocked(steps, slot, i, w)
    {
      ClassAccepts(steps, slot, i, w);
    }
    PlaceAt(waves, steps[i], slot[i]);
  }

  lemma ClassesGrow(steps: seq<Step>, slot: seq<nat>, i: nat, waves: seq<seq<Step>>)
    requires i < |steps| && i < |slot| && AreClasses(steps, slot, i, waves)
    requires slot[i] <= |waves|
    ensures AreClasses(steps, slot, i + 1, PutAt(waves, slot[i], steps[i]))
  {
    EmptyBeyondLastWave(steps, slot, i, waves, |waves|);
    var after := PutAt(waves, slot[i], steps[i]);
    forall w: nat | w < |after|
      ensures after[w] == Class(steps, slot, i + 1, w) && after[w] != []
    {
      assert w < |waves| ==> waves[w] == Class(steps, slot, i, w) && waves[w] != [];
    }
  }

  /** What placing one step keeps, the planner's loop keeps. */
  lemma {:induction false} FirstFitKeeps(steps: seq<Step>, inv: (seq<seq<Step>>, nat) -> bool, n: nat)
    requires n <= |steps| && inv([], 0)
    requires forall waves, i: nat :: i < |steps| && inv(waves, i) ==> inv(Place(waves, steps[i]), i + 1)
    ensures inv(FirstFitUpTo(steps, n), n)
  {
    if n > 0 {
      FirstFitKeeps(steps, inv, n - 1);
    }
  }

  lemma ClassesAfterPlacing(steps: seq<Step>, slot: seq<nat>, i: nat, before: seq<seq<Step>>)
    requires IsGrundy(steps, slot) && i < |steps| && AreClasses(steps, slot, i, before)
    ensures AreClasses(steps, slot, i + 1, Place(before, steps[i]))
  {
    FirstFitWave(steps, slot, i, before);
    ClassesGrow(steps, slot, i, before);
  }

  /** First fit computes the Grundy classes: wave `w` holds, in contract order,
      exactly the steps whose Grundy number is `w`. */
  lemma WavesAreGrundyClasses(steps: seq<Step>, slot: seq<nat>, n: nat)
    requires IsGrundy(steps, slot) && n <= |steps|
    ensures AreClasses(steps, slot, n, FirstFitUpTo(steps, n))
  {
    var inv := (waves: seq<seq<Step>>, i: nat) => i <= |steps| && AreClasses(steps, slot, i, waves);
    forall waves, i: nat | i < |steps| && inv(waves, i) ensures inv(Place(waves, steps[i]), i + 1) {
      ClassesAfterPlacing(steps, slot, i, waves);
    }
    FirstFitKeeps(steps, inv, n);
  }

  function Flatten(waves: seq<seq<Step>>): seq<Step> {
    if waves == [] then [] else waves[0] + Flatten(waves[1..])
  }

  /** How often `x` occurs in the waves. */
  ghost function Count(waves: seq<seq<Step>>, x: Step): nat {
    if waves == [] then 0 else multiset(waves[0])[x] + Count(waves[1..], x)
  }

  lemma {:induction false} CountIsFlattened(waves: seq<seq<Step>>, x: Step)
    ensures Count(waves, x) == multiset(Flatten(waves))[x]
  {
    if waves != [] {
      CountIsFlattened(waves[1..], x);
    }
  }

  lemma {:induction false} PlaceAddsOne(waves: seq<seq<Step>>, s: Step, x: Step)
    ensures Count(Place(waves, s), x) == Count(waves, x) + if x == s then 1 else 0
  {
    var after := Place(waves, s);
    if waves == [] {
      assert after[1..] == [];
    } else if Accepts(waves[0], s) {
      assert after[1..] == waves[1..];
    } else {
      PlaceAddsOne(waves[1..], s, x);
      assert after[1..] == Place(waves[1..], s);
    }
  }

  /** How often `x` occurs among the first `n` steps. */
  ghost function CountUpTo(steps: seq<Step>, n: nat, x: Step): nat
    requires n <= |steps|
  {
    if n == 0 then 0 else CountUpTo(steps, n - 1, x) + if x == steps[n - 1] then 1 else 0
  }

  lemma {:induction false} CountUpToIsPrefix(steps: seq<Step>, n: nat, x: Step)
    requires n <= |steps|
    ensures CountUpTo(steps, n, x) == multiset(steps[..n])[x]
  {
    if n > 0 {
      CountUpToIsPrefix(steps, n - 1, x);
      MultisetTake(steps, n);
    }
  }

  lemma CountOfFirstFit(steps: seq<Step>, n: nat, x: Step)
    requires n <= |steps|
    ensures Count(FirstFitUpTo(steps, n), x) == CountUpTo(steps, n, x)
  {
    var inv := (waves: seq<seq<Step>>, i: nat) => i <= |steps| && Count(waves, x) == CountUpTo(steps, i, x);
    forall waves, i: nat | i < |steps| && inv(waves, i) ensures inv(Place(waves, steps[i]), i + 1) {
      PlaceAddsOne(waves, steps[i], x);
    }
    FirstFitKeeps(steps, inv, n);
  }

  /** Every occurrence of a step lands in exactly one wave. */
  lemma WavesPartitionSteps(steps: seq<Step>, n: nat)
    requires n <= |steps|
    ensures multiset(Flatten(FirstFitUpTo(steps, n))) == multiset(steps[..n])
  {
    var waves := FirstFitUpTo(steps, n);
    forall x ensures multiset(Flatten(waves))[x] == multiset(steps[..n])[x] {
      CountIsFlattened(waves, x);
      CountOfFirstFit(steps, n, x);
      CountUpToIsPrefix(steps, n, x);
    }
  }

  /** Wave-mates have different outputs and do not depend on each other. */
  lemma {:induction false} WaveMatesDoNotConflict(steps: seq<Step>, slot: seq<nat>, n: nat, w: nat)
    requires IsGrundy(steps, slot) && n <= |steps|
    ensures var wave := Class(steps, slot, n, w);
            forall a, b :: 0 <= a < b < |wave| ==> !Conflict(wave[a], wave[b])
  {
    if n > 0 {
      WaveMatesDoNotConflict(steps, slot, n - 1, w);
      ClassAccepts(steps, slot, n - 1, w);
    }
  }

  // ----- When dependencies really run in earlier waves -----

  /** No dependency edge points from a wave to itself or to a later wave. */
  ghost predicate DependenciesInEarlierWaves(waves: seq<seq<Step>>) {
    forall v, b, w, a | 0 <= v < |waves| && 0 <= b < |waves[v]| && 0 <= w < |waves| && 0 <= a < |waves[w]| ::
      waves[w][a].id in waves[v][b].dependsOn ==> w < v
  }

  /** Dependencies on listed steps point backwards in the contract. */
  ghost predicate Backward(steps: seq<Step>) {
    forall i, j :: 0 <= i < |steps| && 0 <= j < |steps| && steps[j].id in steps[i].dependsOn ==> j < i
  }

  ghost predicate DistinctIds(steps: seq<Step>) {
    forall i, j :: 0 <= i < j < |steps| ==> steps[i].id != steps[j].id
  }

  ghost predicate DistinctOutputs(steps: seq<Step>) {
    forall i, j :: 0 <= i < j < |steps| ==> steps[i].outputPath != steps[j].outputPath
  }

  /** What the planner's own check guarantees when ids are distinct and still to run. */
  lemma AcceptedIsBackward(steps: seq<Step>, completed: set<string>)
    requires DistinctIds(steps) && completed !! IdsBefore(steps, |steps|)
    requires forall i :: 0 <= i < |steps| ==> Satisfied(steps, completed, i)
    ensures Backward(steps)
  {
    forall i, j | 0 <= i < |steps| && 0 <= j < |steps| && steps[j].id in steps[i].dependsOn
      ensures j < i
    {
      assert Satisfied(steps, completed, i);
      assert steps[j].id in IdsBefore(steps, |steps|) && steps[j].id in IdsBefore(steps, i);
      var k :| 0 <= k < i && steps[k].id == steps[j].id;
    }
  }

  /** Below the wave of each dependency, every wave repels the dependent step. */
  ghost predicate NoGapBelowDependencies(steps: seq<Step>, slot: seq<nat>)
    requires |slot| == |steps|
  {
    forall i: nat, j: nat, w: nat :: i < |steps| && j < i && steps[j].id in steps[i].dependsOn && w < slot[j]
      ==> Blocked(steps, slot, i, w)
  }

  lemma DependencyIsEarlierIffNoGap(steps: seq<Step>, slot: seq<nat>, i: nat, j: nat)
    requires IsGrundy(steps, slot) && j < i < |steps| && Conflict(steps[j], steps[i])
    ensures slot[j] < slot[i] <==> forall w: nat :: w < slot[j] ==> Blocked(steps, slot, i, w)
  {
    assert Blocked(steps, slot, i, slot[j]);
  }

  /** The waves respect the dependency edges exactly when no step finds a gap to
      slip into below one of its dependencies. */
  lemma WavesRespectDependenciesIff(steps: seq<Step>, slot: seq<nat>)
    requires Backward(steps) && IsGrundy(steps, slot)
    ensures DependenciesInEarlierWaves(FirstFit(steps)) <==> NoGapBelowDependencies(steps, slot)
  {
    var n := |steps|;
    var waves: seq<seq<Step>> := FirstFit(steps);
    WavesAreGrundyClasses(steps, slot, n);
    if NoGapBelowDependencies(steps, slot) {
      forall v, b, w, a | 0 <= v < |waves| && 0 <= b < |waves[v]| && 0 <= w < |waves| && 0 <= a < |waves[w]|
                          && waves[w][a].id in waves[v][b].dependsOn
        ensures w < v
      {
        var i := IndexInClass(steps, slot, n, v, b);
        var j := IndexInClass(steps, slot, n, w, a);
        DependencyIsEarlierIffNoGap(steps, slot, i, j);
      }
    }
    if DependenciesInEarlierWaves(waves) {
      forall i: nat, j: nat, w: nat | i < |steps| && j < i && steps[j].id in steps[i].dependsOn && w < slot[j]
        ensures Blocked(steps, slot, i, w)
      {
        var b := PositionInClass(steps, slot, n, i);
        var a := PositionInClass(steps, slot, n, j);
        assert waves[slot[j]][a].id in waves[slot[i]][b].dependsOn;
        DependencyIsEarlierIffNoGap(steps, slot, i, j);
      }
    }
  }

  /** Enough, and easy to arrange: every depended-on step lands in the first wave. */
  lemma DependedOnStepsInFirstWaveSuffice(steps: seq<Step>, slot: seq<nat>)
    requires Backward(steps) && IsGrundy(steps, slot)
    requires forall i, j :: 0 <= j < i < |steps| && steps[j].id in steps[i].dependsOn ==> slot[j] == 0
    ensures DependenciesInEarlierWaves(FirstFit(steps))
  {
    WavesRespectDependenciesIff(steps, slot);
  }

  lemma IndexInClass(steps: seq<Step>, slot: seq<nat>, n: nat, w: nat, a: nat) returns (j: nat)
    requires n <= |steps| && n <= |slot| && a < |Class(steps, slot, n, w)|
    ensures j < n && steps[j] == Class(steps, slot, n, w)[a] && slot[j] == w
  {
    ClassMembers(steps, slot, n, w);
    assert Class(steps, slot, n, w)[a] in Class(steps, slot, n, w);
    j :| j < n && steps[j] == Class(steps, slot, n, w)[a] && slot[j] == w;
  }

  lemma PositionInClass(steps: seq<Step>, slot: seq<nat>, n: nat, j: nat) returns (a: nat)
    requires j < n <= |steps| && n <= |slot|
    ensures a < |Class(steps, slot, n, slot[j])| && Class(steps, slot, n, slot[j])[a] == steps[j]
  {
    ClassMembers(steps, slot, n, slot[j]);
    assert steps[j] in Class(steps, slot, n, slot[j]);
    a :| 0 <= a < |Class(steps, slot, n, slot[j])| && Class(steps, slot, n, slot[j])[a] == steps[j];
  }

  /** The documented promise fails: `c` depends on `b` yet runs in the wave before it. */
  lemma FirstFitCanRunADependentFirst()
    ensures var a, b, c := Step("a", "1", Ignored, []), Step("b", "2", Ignored, ["a"]), Step("c", "3", Ignored, ["b"]);
            && DistinctIds([a, b, c]) && Backward([a, b, c])
            && FirstFit([a, b, c]) == [[a, c], [b]]
            && !DependenciesInEarlierWaves(FirstFit([a, b, c]))
  {
    var a, b, c := Step("a", "1", Ignored, []), Step("b", "2", Ignored, ["a"]), Step("c", "3", Ignored, ["b"]);
    var steps := [a, b, c];
    assert FirstFitUpTo(steps, 1) == [[a]];
    assert !Accepts([a], b) by { assert Conflict([a][0], b); }
    PlaceAt([[a]], b, 1);
    assert FirstFitUpTo(steps, 2) == [[a], [b]];
    PlaceAt([[a], [b]], c, 0);
    assert FirstFitUpTo(steps, 3) == Place(FirstFitUpTo(steps, 2), c);
    var waves: seq<seq<Step>> := FirstFit([a, b, c]);
    assert [a] + [c] == [a, c];
    assert waves[1][0].id in waves[0][1].dependsOn;
  }

  // ----- The same criterion on the dependency graph alone, for distinct outputs -----

  function Max(a: nat, b: nat): nat { if a < b then b else a }

  /** Longest chain of dependencies below step `i`, over dependencies before position `k`. */
  function DepthOver(steps: seq<Step>, i: nat, k: nat): nat
    requires k <= i < |steps|
    decreases i, k
  {
    if k == 0 then 0
    else Max(DepthOver(steps, i, k - 1),
             if steps[k - 1].id in steps[i].dependsOn then Depth(steps, k - 1) + 1 else 0)
  }

  function Depth(steps: seq<Step>, i: nat): nat
    requires i < |steps|
    decreases i, i + 1
  {
    DepthOver(steps, i, i)
  }

  ghost predicate DependsOnDepth(steps: seq<Step>, i: nat, d: nat)
    requires i < |steps|
  {
    exists j: nat :: j < i && steps[j].id in steps[i].dependsOn && Depth(steps, j) == d
  }

  lemma {:induction false} DepthIsOneAboveDeepest(steps: seq<Step>, i: nat, k: nat)
    requires k <= i < |steps|
    ensures forall j: nat :: j < k && steps[j].id in steps[i].dependsOn ==> Depth(steps, j) < DepthOver(steps, i, k)
    ensures DepthOver(steps, i, k) > 0 ==>
              exists j: nat :: j < k && steps[j].id in steps[i].dependsOn
                               && Depth(steps, j) == DepthOver(steps, i, k) - 1
  {
    if k > 0 {
      DepthIsOneAboveDeepest(steps, i, k - 1);
    }
  }

  /** Each step depends directly on some step of every smaller depth. */
  ghost predicate NoSkippedLevel(steps: seq<Step>) {
    forall i: nat, d: nat :: i < |steps| && d < Depth(steps, i) ==> DependsOnDepth(steps, i, d)
  }

  lemma OnlyDependenciesConflict(steps: seq<Step>, j: nat, i: nat)
    requires Backward(steps) && DistinctOutputs(steps) && j < i < |steps|
    ensures Conflict(steps[j], steps[i]) <==> steps[j].id in steps[i].dependsOn
  {
  }

  /** If the waves up to step `i` follow the levels, or the waves respect the
      dependencies, then the wave of step `i` is its depth. */
  lemma {:induction false} WaveIsDepth(steps: seq<Step>, slot: seq<nat>, i: nat)
    requires Backward(steps) && DistinctOutputs(steps) && IsGrundy(steps, slot) && i < |steps|
    requires NoSkippedLevel(steps) || NoGapBelowDependencies(steps, slot)
    ensures slot[i] == Depth(steps, i)
    ensures forall d: nat :: Blocked(steps, slot, i, d) <==> DependsOnDepth(steps, i, d)
    decreases i
  {
    forall j: nat | j < i
      ensures slot[j] == Depth(steps, j)
      ensures Conflict(steps[j], steps[i]) <==> steps[j].id in steps[i].dependsOn
    {
      WaveIsDepth(steps, slot, j);
      OnlyDependenciesConflict(steps, j, i);
    }
    assert forall d: nat :: Blocked(steps, slot, i, d) <==> DependsOnDepth(steps, i, d);
    DepthIsOneAboveDeepest(steps, i, i);
    var d := Depth(steps, i);
    assert !DependsOnDepth(steps, i, d);
    assert slot[i] <= d;
    if NoGapBelowDependencies(steps, slot) && d > 0 {
      var j: nat :| j < i && steps[j].id in steps[i].dependsOn && Depth(steps, j) == d - 1;
      DependencyIsEarlierIffNoGap(steps, slot, i, j);
    }
  }

  /** With distinct outputs, dependencies run in earlier waves exactly when the
      dependency graph itself skips no level. */
  lemma WavesRespectDependenciesIffNoSkippedLevel(steps: seq<Step>)
    requires Backward(steps) && DistinctOutputs(steps)
    ensures DependenciesInEarlierWaves(FirstFit(steps)) <==> NoSkippedLevel(steps)
  {
    var slot := GrundyNumbers(steps, |steps|);
    assert steps[..|steps|] == steps;
    WavesRespectDependenciesIff(steps, slot);
    if NoSkippedLevel(steps) {
      forall i: nat, j: nat, w: nat | i < |steps| && j < i && steps[j].id in steps[i].dependsOn && w < slot[j]
        ensures Blocked(steps, slot, i, w)
      {
        WaveIsDepth(steps, slot, i);
        WaveIsDepth(steps, slot, j);
        DepthIsOneAboveDeepest(steps, i, i);
      }
    }
    if NoGapBelowDependencies(steps, slot) {
      forall i: nat, d: nat | i < |steps| && d < Depth(steps, i)
        ensures DependsOnDepth(steps, i, d)
      {
        WaveIsDepth(steps, slot, i);
      }
    }
  }

  // ----- Without dependencies the number of waves is least possible -----

  /** How many of the first `n` steps write to `path`. */
  function Writers(steps: seq<Step>, n: nat, path: string): nat
    requires n <= |steps|
  {
    if n == 0 then 0 else Writers(steps, n - 1, path) + if steps[n - 1].outputPath == path then 1 else 0
  }

  lemma {:induction false} WritersAreNumbered(steps: seq<Step>, n: nat, path: string)
    requires n <= |steps|
    ensures forall j: nat :: j < n && steps[j].outputPath == path ==> Writers(steps, j, path) < Writers(steps, n, path)
    ensures forall c: nat {:trigger Numbered(steps, n, path, c)} ::
              c < Writers(steps, n, path) ==> Numbered(steps, n, path, c)
  {
    if n > 0 {
      WritersAreNumbered(steps, n - 1, path);
      forall c: nat | c < Writers(steps, n, path)
        ensures Numbered(steps, n, path, c)
      {
        if c < Writers(steps, n - 1, path) {
          assert Numbered(steps, n - 1, path, c);
        }
      }
    }
  }

  /** Some writer of `path` among the first `n` steps has exactly `c` writers before it. */
  ghost predicate Numbered(steps: seq<Step>, n: nat, path: string, c: nat)
    requires n <= |steps|
  {
    exists j: nat :: j < n && steps[j].outputPath == path && Writers(steps, j, path) == c
  }

  lemma {:induction false} GrundyCountsWriters(steps: seq<Step>, slot: seq<nat>, i: nat)
    requires IsGrundy(steps, slot) && i < |steps|
    requires forall k :: 0 <= k < |steps| ==> steps[k].dependsOn == []
    ensures slot[i] == Writers(steps, i, steps[i].outputPath)
    decreases i
  {
    var path := steps[i].outputPath;
    forall j: nat | j < i
      ensures slot[j] == Writers(steps, j, steps[j].outputPath)
    {
      GrundyCountsWriters(steps, slot, j);
    }
    WritersAreNumbered(steps, i, path);
    assert forall c: nat :: Blocked(steps, slot, i, c) <==> Numbered(steps, i, path, c);
    assert !Numbered(steps, i, path, Writers(steps, i, path));
  }

  /** The wave count is the greatest number of steps that write one output. */
  lemma WaveCountIsGreatestMultiplicity(steps: seq<Step>)
    requires forall k :: 0 <= k < |steps| ==> steps[k].dependsOn == []
    ensures forall path :: Writers(steps, |steps|, path) <= |FirstFit(steps)|
    ensures steps != [] ==> exists path :: Writers(steps, |steps|, path) == |FirstFit(steps)|
  {
    var n := |steps|;
    var waves: seq<seq<Step>> := FirstFit(steps);
    var slot := GrundyNumbers(steps, n);
    assert steps[..n] == steps;
    WavesAreGrundyClasses(steps, slot, n);
    forall path
      ensures Writers(steps, n, path) <= |waves|
    {
      WritersAreNumbered(steps, n, path);
      if Writers(steps, n, path) > 0 {
        assert Numbered(steps, n, path, Writers(steps, n, path) - 1);
        var j: nat :| j < n && steps[j].outputPath == path && Writers(steps, j, path) == Writers(steps, n, path) - 1;
        GrundyCountsWriters(steps, slot, j);
      }
    }
    if steps != [] {
      assert slot[0] < |waves|;
      var j := IndexInClass(steps, slot, n, |waves| - 1, 0);
      GrundyCountsWriters(steps, slot, j);
      WritersAreNumbered(steps, n, steps[j].outputPath);
      assert Writers(steps, n, steps[j].outputPath) == |waves|;
    }
  }

  /** A schedule into `k` waves that never puts two writers of one output together. */
  ghost predicate ValidSlots(steps: seq<Step>, slot: seq<nat>, k: nat) {
    && |slot| == |steps|
    && (forall i :: 0 <= i < |slot| ==> slot[i] < k)
    && (forall i, j :: 0 <= i < j < |steps| && steps[i].outputPath == steps[j].outputPath ==> slot[i] != slot[j])
  }

  lemma {:induction false} WritersNeedSlots(steps: seq<Step>, slot: seq<nat>, k: nat, n: nat, path: string)
    returns (used: set<nat>)
    requires ValidSlots(steps, slot, k) && n <= |steps|
    ensures |used| == Writers(steps, n, path)
    ensures forall x :: x in used <==> exists i: nat :: i < n && steps[i].outputPath == path && slot[i] == x
  {
    if n == 0 {
      used := {};
    } else {
      used := WritersNeedSlots(steps, slot, k, n - 1, path);
      if steps[n - 1].outputPath == path {
        used := used + {slot[n - 1]};
      }
    }
  }

  lemma {:induction false} BoundedSetIsSmall(s: set<nat>, k: nat)
    requires forall x :: x in s ==> x < k
    ensures |s| <= k
  {
    if k == 0 {
      assert s == {};
    } else {
      BoundedSetIsSmall(s - {k - 1}, k - 1);
    }
  }

  /** Without dependencies no valid schedule uses fewer waves than first fit. */
  lemma FirstFitIsOptimalWithoutDependencies(steps: seq<Step>, slot: seq<nat>, k: nat)
    requires forall i :: 0 <= i < |steps| ==> steps[i].dependsOn == []
    requires ValidSlots(steps, slot, k)
    ensures |FirstFit(steps)| <= k
  {
    if steps != [] {
      WaveCountIsGreatestMultiplicity(steps);
      var path :| Writers(steps, |steps|, path) == |FirstFit(steps)|;
      var used := WritersNeedSlots(steps, slot, k, |steps|, path);
      BoundedSetIsSmall(used, k);
    }
  }
}
