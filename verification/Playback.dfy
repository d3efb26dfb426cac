/** Pure playback transitions over one recording's ticks. */
module Playback {
  import opened Common

  const MAX_SAFE_INTEGER := 0x1F_FFFF_FFFF_FFFF

  datatype Mode = Current | History

  datatype PlaybackState = PlaybackState(
    earliestTick: int,
    latestTick: int,
    mode: Mode,
    playing: bool,
    selectedTick: int,
    ticks: seq<int>)

  datatype Action = Reset | Play | Pause | SelectTick(tick: int) | FollowLatest | Advance

  ghost predicate Ascending(s: seq<int>) {
    forall i, j :: 0 <= i < j < |s| ==> s[i] < s[j]
  }

  function InsertUnique(s: seq<int>, x: int): (r: seq<int>)
    requires Ascending(s)
    ensures Ascending(r) && r != [] && forall y :: y in r <==> y == x || y in s
  {
    if s == [] then [x]
    else
      var front, last := s[..|s| - 1], s[|s| - 1];
      assert s == front + [last];
      if last < x then s + [x]
      else if last == x then s
      else
        var r := InsertUnique(front, x);
        assert forall i :: 0 <= i < |r| ==> r[i] in r && r[i] < last;
        r + [last]
  }

  /** The distinct ticks in ascending order. */
  function UniqueAscending(s: seq<int>): (r: seq<int>)
    ensures Ascending(r) && (r == [] <==> s == []) && forall y :: y in r <==> y in s
  {
    if s == [] then []
    else
      assert s == s[..|s| - 1] + [s[|s| - 1]];
      InsertUnique(UniqueAscending(s[..|s| - 1]), s[|s| - 1])
  }

  /** An event list without events still yields the tick 0. */
  function ListRecordedTicks(eventTicks: seq<int>): (r: seq<int>)
    ensures r != [] && Ascending(r)
    ensures eventTicks != [] ==> forall t :: t in r <==> t in eventTicks
  {
    var unique := UniqueAscending(eventTicks);
    if unique != [] then unique else [0]
  }

  function ModeFor(selectedTick: int, latestTick: int): Mode {
    if selectedTick == latestTick then Current else History
  }

  function NormalizeRecordedTicks(ticks: seq<int>): seq<int> {
    if ticks == [] then ListRecordedTicks([]) else UniqueAscending(ticks)
  }

  function Initial(ticks: seq<int>): PlaybackState {
    var normalized := NormalizeRecordedTicks(ticks);
    var latest := normalized[|normalized| - 1];
    PlaybackState(normalized[0], latest, Current, false, latest, normalized)
  }

  predicate IsRecordedTick(state: PlaybackState, tick: int) {
    && -MAX_SAFE_INTEGER <= tick <= MAX_SAFE_INTEGER
    && state.earliestTick <= tick <= state.latestTick
    && tick in state.ticks
  }

  function Reduce(state: PlaybackState, action: Action): PlaybackState {
    match action
    case Reset => Initial(state.ticks)
    case Play => state.(playing := true)
    case Pause => state.(playing := false)
    case SelectTick(tick) =>
      if !IsRecordedTick(state, tick) then state
      else state.(mode := ModeFor(tick, state.latestTick), selectedTick := tick)
    case FollowLatest => state.(mode := Current, selectedTick := state.latestTick)
    case Advance =>
      var index := IndexOf(state.ticks, state.selectedTick);
      if index < 0 then state
      else
        var selected := state.ticks[Modulo(index + 1, |state.ticks|)];
        state.(mode := ModeFor(selected, state.latestTick), selectedTick := selected)
  }

  function ReduceAll(state: PlaybackState, actions: seq<Action>): PlaybackState {
    if actions == [] then state
    else Reduce(ReduceAll(state, actions[..|actions| - 1]), actions[|actions| - 1])
  }

  /** Bounds and mode agree with the recorded ticks, and the selection is recorded. */
  ghost predicate Consistent(s: PlaybackState) {
    && s.ticks != [] && Ascending(s.ticks)
    && s.earliestTick == s.ticks[0] && s.latestTick == s.ticks[|s.ticks| - 1]
    && s.selectedTick in s.ticks
    && (s.mode == Current <==> s.selectedTick == s.latestTick)
  }

  lemma LastIsGreatest(s: seq<int>, x: int)
    requires Ascending(s) && x in s
    ensures s != [] && x <= s[|s| - 1]
  {
    var i :| 0 <= i < |s| && s[i] == x;
  }

  lemma FrontMembers(s: seq<int>, front: seq<int>)
    requires Ascending(s) && s != [] && front == s[..|s| - 1]
    ensures forall x :: x in front <==> x in s && x != s[|s| - 1]
  {
    assert s == front + [s[|s| - 1]];
  }

  lemma {:induction false} AscendingIsUnique(s: seq<int>, t: seq<int>)
    requires Ascending(s) && Ascending(t) && forall x :: x in s <==> x in t
    ensures s == t
  {
    if s != [] && t != [] {
      var fs, ft := s[..|s| - 1], t[..|t| - 1];
      LastIsGreatest(s, t[|t| - 1]);
      LastIsGreatest(t, s[|s| - 1]);
      FrontMembers(s, fs);
      FrontMembers(t, ft);
      AscendingIsUnique(fs, ft);
      assert s == fs + [s[|s| - 1]] && t == ft + [t[|t| - 1]];
    } else if s != [] {
      LastIsGreatest(t, s[0]);
    } else if t != [] {
      LastIsGreatest(s, t[0]);
    }
  }

  lemma NormalizedIsFixed(ticks: seq<int>)
    requires ticks != [] && Ascending(ticks)
    ensures NormalizeRecordedTicks(ticks) == ticks
  {
    AscendingIsUnique(UniqueAscending(ticks), ticks);
  }

  lemma InitialIsConsistent(ticks: seq<int>)
    ensures Consistent(Initial(ticks))
  {
  }

  lemma ReduceKeepsConsistent(s: PlaybackState, action: Action)
    requires Consistent(s)
    ensures Consistent(Reduce(s, action)) && Reduce(s, action).ticks == s.ticks
  {
    if action.Reset? {
      NormalizedIsFixed(s.ticks);
    }
  }

  /** Over every run the ticks stay fixed and the state consistent, and `Reset` returns
      to the recording's initial state. */
  lemma {:induction false} EveryRunIsConsistent(ticks: seq<int>, actions: seq<Action>)
    ensures var s := ReduceAll(Initial(ticks), actions);
            Consistent(s) && s.ticks == Initial(ticks).ticks && Reduce(s, Reset) == Initial(ticks)
  {
    InitialIsConsistent(ticks);
    NormalizedIsFixed(Initial(ticks).ticks);
    if actions != [] {
      EveryRunIsConsistent(ticks, actions[..|actions| - 1]);
      ReduceKeepsConsistent(ReduceAll(Initial(ticks), actions[..|actions| - 1]), actions[|actions| - 1]);
    }
  }

  /** A tick can be selected exactly when it is recorded and a safe integer. */
  lemma SelectTickSelectsIff(s: PlaybackState, tick: int)
    requires Consistent(s) && tick != s.selectedTick
    ensures Reduce(s, SelectTick(tick)).selectedTick == tick
       <==> tick in s.ticks && -9007199254740991 <= tick <= 9007199254740991
  {
    if tick in s.ticks {
      var i :| 0 <= i < |s.ticks| && s.ticks[i] == tick;
      assert s.ticks[0] <= s.ticks[i] <= s.ticks[|s.ticks| - 1];
    }
  }

  /** Every recording starts paused at its latest tick, and so does it after a reset. */
  lemma StartsAtLatestTick(ticks: seq<int>)
    ensures var s := Initial(ticks);
      && !s.playing && s.mode == Current
      && s.selectedTick == s.latestTick
      && (forall t :: t in s.ticks ==> s.earliestTick <= t <= s.latestTick)
      && (forall t :: t in s.ticks <==> t in ticks || (ticks == [] && t == 0))
  {
    var s := Initial(ticks);
    InitialIsConsistent(ticks);
    forall t | t in s.ticks ensures s.earliestTick <= t <= s.latestTick {
      var i :| 0 <= i < |s.ticks| && s.ticks[i] == t;
    }
    assert UniqueAscending([]) == [];
  }

  /** What each action changes, and that it changes nothing else. */
  lemma ActionChanges(s: PlaybackState, action: Action)
    requires Consistent(s)
    ensures var t := Reduce(s, action);
      && t.ticks == s.ticks && t.earliestTick == s.earliestTick && t.latestTick == s.latestTick
      && match action
         case Reset => t == Initial(s.ticks)
         case Play => t.playing && t.selectedTick == s.selectedTick
         case Pause => !t.playing && t.selectedTick == s.selectedTick
         case SelectTick(tick) => t.playing == s.playing && t.selectedTick in {tick, s.selectedTick}
         case FollowLatest =>
           t.playing == s.playing && t.mode == Current && forall tick :: tick in s.ticks ==> tick <= t.selectedTick
         case Advance => t.playing == s.playing
  {
    ReduceKeepsConsistent(s, action);
    forall tick | tick in s.ticks ensures tick <= s.latestTick {
      LastIsGreatest(s.ticks, tick);
    }
  }

  // ----- Laps -----

  function AdvanceStep(s: PlaybackState): PlaybackState { Reduce(s, Advance) }

  function AdvanceBy(s: PlaybackState, k: nat): PlaybackState {
    Iterate(AdvanceStep, s, k)
  }

  function Position(s: PlaybackState): int { IndexOf(s.ticks, s.selectedTick) }

  /** The state of `s`'s recording with the tick at position `i` selected. */
  function At(s: PlaybackState, i: nat): PlaybackState
    requires i < |s.ticks|
  {
    s.(selectedTick := s.ticks[i], mode := ModeFor(s.ticks[i], s.latestTick))
  }

  lemma PositionAt(s: PlaybackState, i: nat)
    requires Consistent(s) && i < |s.ticks|
    ensures Position(At(s, i)) == i
  {
    var j := Position(At(s, i));
    assert s.ticks[j] == s.ticks[i];
  }

  lemma AdvanceOne(s: PlaybackState, i: nat)
    requires Consistent(s) && i < |s.ticks|
    ensures Reduce(At(s, i), Advance) == At(s, Modulo(i + 1, |s.ticks|))
  {
    PositionAt(s, i);
  }

  lemma {:induction false} IterateWraps<T>(f: T -> T, at: seq<T>, p: nat, k: nat)
    requires p < |at| && forall i: nat {:trigger f(at[i])} :: i < |at| ==> f(at[i]) == at[Modulo(i + 1, |at|)]
    ensures Iterate(f, at[p], k) == at[Modulo(p + k, |at|)]
  {
    if k > 0 {
      IterateWraps(f, at, p, k - 1);
      ModuloStep(p + (k - 1), |at|);
    }
  }

  lemma AtPosition(s: PlaybackState)
    requires Consistent(s)
    ensures At(s, Position(s)) == s
  {
  }

  ghost function AllPositions(s: PlaybackState): seq<PlaybackState> {
    seq(|s.ticks|, i requires 0 <= i < |s.ticks| => At(s, i))
  }

  lemma AdvanceSteps(s: PlaybackState)
    requires Consistent(s)
    ensures var at := AllPositions(s);
            forall i: nat {:trigger AdvanceStep(at[i])} :: i < |at| ==> AdvanceStep(at[i]) == at[Modulo(i + 1, |at|)]
  {
    forall i: nat | i < |s.ticks|
      ensures AdvanceStep(At(s, i)) == At(s, Modulo(i + 1, |s.ticks|))
    {
      AdvanceOne(s, i);
    }
  }

  lemma AdvanceWraps(s: PlaybackState, k: nat)
    requires Consistent(s)
    ensures AdvanceBy(s, k) == At(s, Modulo(Position(s) + k, |s.ticks|))
  {
    AdvanceSteps(s);
    AtPosition(s);
    IterateWraps(AdvanceStep, AllPositions(s), Position(s), k);
  }

  /** `k` Advances move the position by `k` modulo the number of ticks. */
  lemma AdvanceMovesModulo(s: PlaybackState, k: nat)
    requires Consistent(s)
    ensures AdvanceBy(s, k) == At(s, (Position(s) + k) % |s.ticks|)
  {
    AdvanceWraps(s, k);
    ModuloIsRemainder(Position(s) + k, |s.ticks|);
  }

  /** One lap restores the state. */
  lemma LapRestoresState(s: PlaybackState)
    requires Consistent(s)
    ensures AdvanceBy(s, |s.ticks|) == s
  {
    AdvanceWraps(s, |s.ticks|);
    WrapOnce(Position(s), |s.ticks|, |s.ticks|);
  }

  /** Within a lap every tick is shown exactly once. */
  lemma LapVisitsEveryTickOnce(s: PlaybackState, tick: int)
    requires Consistent(s) && tick in s.ticks
    ensures exists k: nat :: k < |s.ticks| && AdvanceBy(s, k).selectedTick == tick
              && forall j: nat :: j < |s.ticks| && AdvanceBy(s, j).selectedTick == tick ==> j == k
  {
    var k := AdvancesTo(s, tick);
    forall j: nat | j < |s.ticks| && AdvanceBy(s, j).selectedTick == tick
      ensures j == k
    {
      if j < k {
        TicksWithinLapDiffer(s, j, k);
      } else if k < j {
        TicksWithinLapDiffer(s, k, j);
      }
    }
  }

  lemma AdvancesTo(s: PlaybackState, tick: int) returns (k: nat)
    requires Consistent(s) && tick in s.ticks
    ensures k < |s.ticks| && AdvanceBy(s, k).selectedTick == tick
  {
    var p, i, n := Position(s), IndexOf(s.ticks, tick), |s.ticks|;
    k := if i >= p then i - p else i + n - p;
    AdvanceWraps(s, k);
    WrapOnce(p, k, n);
  }

  lemma TicksWithinLapDiffer(s: PlaybackState, j: nat, k: nat)
    requires Consistent(s) && j < k < |s.ticks|
    ensures AdvanceBy(s, j).selectedTick != AdvanceBy(s, k).selectedTick
  {
    AdvanceWraps(s, j);
    AdvanceWraps(s, k);
    WrapOnce(Position(s), j, |s.ticks|);
    WrapOnce(Position(s), k, |s.ticks|);
  }
}
