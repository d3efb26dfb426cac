/** The single chained autoplay timeout, over a table of live timers and a clock.
    `onAdvance` may call back into the scheduler. */
module Scheduler {
  import opened Common

  const AUTOPLAY_INTERVAL_MS := 2000

  type Handle = nat

  /** Timers set and not yet cleared or fired, with their deadlines. */
  datatype Timers = Timers(now: nat, next: Handle, live: map<Handle, nat>)

  /** What has happened so far, for stating properties of whole runs. */
  datatype Mark = Synced(enabling: bool) | Disposed | Advanced(time: nat)

  datatype State = State(
    pending: Option<Handle>,
    disposed: bool,
    playing: bool,
    allowed: bool,
    timers: Timers,
    trace: seq<Mark>)

  /** Calls a host may make, also from inside `onAdvance`. */
  datatype Op = Sync(playing: bool, allowed: Option<bool>) | Dispose

  datatype Event = Call(op: Op) | Elapse(ms: nat) | Fire(handle: Handle, callback: seq<Op>)

  function Created(timers: Timers): State {
    State(None, false, false, true, timers, [])
  }

  function ClearPending(s: State): State {
    if s.pending.None? then s
    else s.(timers := s.timers.(live := s.timers.live - {s.pending.value}), pending := None)
  }

  function Schedule(s: State): State {
    if s.disposed || s.pending.Some? || !s.playing || !s.allowed then s
    else
      var t := s.timers;
      s.(pending := Some(t.next),
         timers := t.(next := t.next + 1, live := t.live[t.next := t.now + AUTOPLAY_INTERVAL_MS]))
  }

  function Apply(s: State, op: Op): State {
    match op
    case Sync(playing, allowed) =>
      var ok := allowed.GetOr(true);
      var noted := s.(trace := s.trace + [Synced(playing && ok)]);
      if s.disposed then noted
      else
        var t := noted.(playing := playing, allowed := ok);
        if !playing || !ok then ClearPending(t) else Schedule(t)
    case Dispose =>
      ClearPending(s.(disposed := true, playing := false, trace := s.trace + [Disposed]))
  }

  function ApplyAll(s: State, ops: seq<Op>): State {
    if ops == [] then s else Apply(ApplyAll(s, ops[..|ops| - 1]), ops[|ops| - 1])
  }

  predicate Due(s: State, h: Handle) {
    h in s.timers.live && s.timers.live[h] <= s.timers.now
  }

  /** A due timer leaves the table and runs its callback. */
  function FireTimer(s: State, h: Handle, callback: seq<Op>): State {
    var t := s.(timers := s.timers.(live := s.timers.live - {h}), pending := None);
    if t.disposed || !t.playing || !t.allowed then t
    else Schedule(ApplyAll(t.(trace := t.trace + [Advanced(t.timers.now)]), callback))
  }

  function Step(s: State, e: Event): State {
    match e
    case Call(op) => Apply(s, op)
    case Elapse(ms) => s.(timers := s.timers.(now := s.timers.now + ms))
    case Fire(h, callback) => if Due(s, h) then FireTimer(s, h, callback) else s
  }

  function Run(s: State, events: seq<Event>): State {
    if events == [] then s else Step(Run(s, events[..|events| - 1]), events[|events| - 1])
  }

  // ----- Invariants -----

  /** Whether the trace ends enabled: no disposal, and the last sync was an enabling one. */
  predicate EnabledBy(trace: seq<Mark>) {
    if trace == [] then false
    else match trace[|trace| - 1]
      case Synced(enabling) => enabling && Disposed !in trace
      case Disposed => false
      case Advanced(_) => EnabledBy(trace[..|trace| - 1])
  }

  function Advances(trace: seq<Mark>): nat {
    if trace == [] then 0
    else if trace[|trace| - 1].Advanced? then Advances(trace[..|trace| - 1]) + 1
    else Advances(trace[..|trace| - 1])
  }

  predicate Enabled(s: State) { !s.disposed && s.playing && s.allowed }

  /** Holds also in the middle of a callback. `start` is the clock at creation. */
  ghost predicate Inv(s: State, start: nat) {
    && start <= s.timers.now
    && (s.disposed <==> Disposed in s.trace)
    && (Enabled(s) <==> EnabledBy(s.trace))
    && (s.pending.Some? ==> Enabled(s) && s.pending.value < s.timers.next)
    && s.timers.live.Keys == (if s.pending.Some? then {s.pending.value} else {})
    && AUTOPLAY_INTERVAL_MS * Advances(s.trace) <= s.timers.now - start
    && (s.pending.Some? ==>
          && AUTOPLAY_INTERVAL_MS * (Advances(s.trace) + 1) <= s.timers.live[s.pending.value] - start
          && s.timers.live[s.pending.value] <= s.timers.now + AUTOPLAY_INTERVAL_MS)
    && AdvancesAreEnabled(s.trace)
  }

  /** Between events a timer is pending exactly while enabled. */
  ghost predicate Settled(s: State) { s.pending.Some? <==> Enabled(s) }

  /** Each Advance happens while enabled. */
  ghost predicate AdvancesAreEnabled(trace: seq<Mark>) {
    forall i :: 0 <= i < |trace| && trace[i].Advanced? ==> EnabledBy(trace[..i])
  }

  lemma CreatedInv(timers: Timers)
    requires timers.live == map[]
    ensures Inv(Created(timers), timers.now) && Settled(Created(timers))
  {
  }

  lemma TraceGrows(trace: seq<Mark>, m: Mark)
    requires AdvancesAreEnabled(trace) && (m.Advanced? ==> EnabledBy(trace))
    ensures AdvancesAreEnabled(trace + [m])
    ensures Advances(trace + [m]) == Advances(trace) + if m.Advanced? then 1 else 0
    ensures EnabledBy(trace + [m]) <==> match m
              case Synced(enabling) => enabling && Disposed !in trace
              case Disposed => false
              case Advanced(_) => EnabledBy(trace)
  {
    var t := trace + [m];
    assert t[..|trace|] == trace;
    forall i | 0 <= i < |t| && t[i].Advanced?
      ensures EnabledBy(t[..i])
    {
      assert t[..i] == trace[..i];
    }
  }

  lemma DisablingKeepsInv(s: State, op: Op, start: nat)
    requires Inv(s, start) && (op.Sync? ==> !op.playing || !op.allowed.GetOr(true))
    ensures Inv(Apply(s, op), start) && Settled(Apply(s, op))
  {
    TraceGrows(s.trace, if op.Sync? then Synced(false) else Disposed);
  }

  lemma EnablingKeepsInv(s: State, op: Op, start: nat)
    requires Inv(s, start) && op.Sync? && op.playing && op.allowed.GetOr(true)
    ensures Inv(Apply(s, op), start) && Settled(Apply(s, op))
  {
    TraceGrows(s.trace, Synced(true));
  }

  lemma ApplyKeepsInv(s: State, op: Op, start: nat)
    requires Inv(s, start)
    ensures Inv(Apply(s, op), start) && Settled(Apply(s, op)) && Apply(s, op).timers.now == s.timers.now
  {
    if op.Sync? && op.playing && op.allowed.GetOr(true) {
      EnablingKeepsInv(s, op, start);
    } else {
      DisablingKeepsInv(s, op, start);
    }
  }

  lemma {:induction false} ApplyAllKeepsInv(s: State, ops: seq<Op>, start: nat)
    requires Inv(s, start)
    ensures Inv(ApplyAll(s, ops), start)
  {
    if ops != [] {
      ApplyAllKeepsInv(s, ops[..|ops| - 1], start);
      ApplyKeepsInv(ApplyAll(s, ops[..|ops| - 1]), ops[|ops| - 1], start);
    }
  }

  lemma ScheduleSettles(s: State, start: nat)
    requires Inv(s, start)
    ensures Inv(Schedule(s), start) && Settled(Schedule(s))
  {
  }

  lemma FiringKeepsInv(s: State, h: Handle, callback: seq<Op>, start: nat)
    requires Inv(s, start) && Due(s, h)
    ensures Inv(FireTimer(s, h, callback), start) && Settled(FireTimer(s, h, callback))
  {
    var t := s.(timers := s.timers.(live := s.timers.live - {h}), pending := None);
    var marked := t.(trace := t.trace + [Advanced(t.timers.now)]);
    assert Enabled(t);
    TraceGrows(s.trace, Advanced(s.timers.now));
    ApplyAllKeepsInv(marked, callback, start);
    ScheduleSettles(ApplyAll(marked, callback), start);
  }

  lemma StepKeepsInv(s: State, e: Event, start: nat)
    requires Inv(s, start) && Settled(s)
    ensures Inv(Step(s, e), start) && Settled(Step(s, e))
  {
    match e
    case Call(op) => ApplyKeepsInv(s, op, start);
    case Elapse(_) =>
    case Fire(h, callback) =>
      if Due(s, h) {
        FiringKeepsInv(s, h, callback, start);
      }
  }

  // ----- Properties of every run, whatever callbacks do -----

  lemma {:induction false} EveryRunKeepsInv(timers: Timers, events: seq<Event>)
    requires timers.live == map[]
    ensures Inv(Run(Created(timers), events), timers.now) && Settled(Run(Created(timers), events))
  {
    if events == [] {
      CreatedInv(timers);
    } else {
      EveryRunKeepsInv(timers, events[..|events| - 1]);
      StepKeepsInv(Run(Created(timers), events[..|events| - 1]), events[|events| - 1], timers.now);
    }
  }

  /** At most one timer is live, it is the pending one, and it is there exactly while
      the last call was an enabling sync and nothing was disposed. */
  lemma AtMostOneLiveTimer(timers: Timers, events: seq<Event>)
    requires timers.live == map[]
    ensures var s := Run(Created(timers), events);
            && s.timers.live.Keys == (if s.pending.Some? then {s.pending.value} else {})
            && (s.pending.Some? <==> EnabledBy(s.trace))
  {
    EveryRunKeepsInv(timers, events);
  }

  lemma {:induction false} EnabledMeans(trace: seq<Mark>)
    requires EnabledBy(trace)
    ensures Disposed !in trace
    ensures exists j ::
              0 <= j < |trace| && trace[j] == Synced(true) && forall k :: j < k < |trace| ==> trace[k].Advanced?
  {
    var front := trace[..|trace| - 1];
    assert trace == front + [trace[|trace| - 1]];
    if trace[|trace| - 1].Advanced? {
      EnabledMeans(front);
      var j :| 0 <= j < |front| && front[j] == Synced(true) && forall k :: j < k < |front| ==> front[k].Advanced?;
      assert trace[j] == Synced(true);
    }
  }

  /** Before position `i` nothing was disposed, and the latest sync was an enabling one. */
  ghost predicate EnabledAt(trace: seq<Mark>, i: nat)
    requires i <= |trace|
  {
    && (forall k :: 0 <= k < i ==> trace[k] != Disposed)
    && exists j :: 0 <= j < i && trace[j] == Synced(true) && forall k :: j < k < i ==> trace[k].Advanced?
  }

  lemma EnabledPrefix(trace: seq<Mark>, i: nat)
    requires i <= |trace| && EnabledBy(trace[..i])
    ensures EnabledAt(trace, i)
  {
    var prefix := trace[..i];
    EnabledMeans(prefix);
    var j :| 0 <= j < |prefix| && prefix[j] == Synced(true) && forall k :: j < k < |prefix| ==> prefix[k].Advanced?;
    assert trace[j] == Synced(true);
    assert forall k :: 0 <= k < i ==> trace[k] == prefix[k] && prefix[k] in prefix;
  }

  /** No Advance follows a disposal, nor a disabling sync until an enabling one. */
  lemma AdvancesOnlyWhileEnabled(timers: Timers, events: seq<Event>, i: nat)
    requires timers.live == map[]
    requires var trace := Run(Created(timers), events).trace; i < |trace| && trace[i].Advanced?
    ensures EnabledAt(Run(Created(timers), events).trace, i)
  {
    EveryRunKeepsInv(timers, events);
    EnabledPrefix(Run(Created(timers), events).trace, i);
  }

  /** After time T at most T / 2000 Advances have fired, re-entrant calls included. */
  lemma AdvanceRateIsBounded(timers: Timers, events: seq<Event>)
    requires timers.live == map[]
    ensures var s := Run(Created(timers), events);
            Advances(s.trace) <= (s.timers.now - timers.now) / 2000
  {
    EveryRunKeepsInv(timers, events);
  }

  /** While enabled the next Advance falls due within one interval. */
  lemma AdvanceIsDueWithinInterval(timers: Timers, events: seq<Event>)
    requires timers.live == map[] && EnabledBy(Run(Created(timers), events).trace)
    ensures var s := Run(Created(timers), events);
            s.pending.Some? && Due(Step(s, Elapse(2000)), s.pending.value)
  {
    EveryRunKeepsInv(timers, events);
  }

  /** A redundant enabling sync moves neither the timer nor its deadline. */
  lemma RedundantSyncKeepsDeadline(timers: Timers, events: seq<Event>, allowed: Option<bool>)
    requires timers.live == map[] && allowed.GetOr(true) && EnabledBy(Run(Created(timers), events).trace)
    ensures var s := Run(Created(timers), events);
            Apply(s, Sync(true, allowed)) == s.(trace := s.trace + [Synced(true)])
  {
    EveryRunKeepsInv(timers, events);
  }

  // ----- The scheduler object over a timer table -----

  class TimerTable {
    var now: nat
    var next: Handle
    var live: map<Handle, nat>

    constructor (now: nat)
      ensures View() == Timers(now, 0, map[])
    {
      this.now, next, live := now, 0, map[];
    }

    ghost function View(): Timers
      reads this
    {
      Timers(now, next, live)
    }

    method SetTimeout(delay: nat) returns (h: Handle)
      modifies this
      ensures h == old(next) && View() == Timers(old(now), old(next) + 1, old(live)[h := old(now) + delay])
    {
      h := next;
      live := live[h := now + delay];
      next := next + 1;
    }

    method ClearTimeout(h: Handle)
      modifies this
      ensures View() == old(View()).(live := old(live) - {h})
    {
      live := live - {h};
    }

    method Elapse(ms: nat)
      modifies this
      ensures View() == old(View()).(now := old(now) + ms)
    {
      now := now + ms;
    }
  }

  class AutoplayScheduler {
    const timers: TimerTable
    var pending: Option<Handle>
    var disposed: bool
    var playing: bool
    var allowed: bool
    ghost var trace: seq<Mark>

    constructor (timers: TimerTable)
      ensures this.timers == timers && View() == Created(timers.View())
    {
      this.timers := timers;
      pending, disposed, playing, allowed := None, false, false, true;
      trace := [];
    }

    ghost function View(): State
      reads this, timers
    {
      State(pending, disposed, playing, allowed, timers.View(), trace)
    }

    method ClearPendingTimer()
      modifies this`pending, timers
      ensures View() == ClearPending(old(View()))
    {
      if pending.Some? {
        timers.ClearTimeout(pending.value);
        pending := None;
      }
    }

    method ScheduleTimer()
      modifies this`pending, timers
      ensures View() == Schedule(old(View()))
    {
      if disposed || pending.Some? || !playing || !allowed {
        return;
      }
      var h := timers.SetTimeout(AUTOPLAY_INTERVAL_MS);
      pending := Some(h);
    }

    method DisposeScheduler()
      modifies this, timers
      ensures View() == Apply(old(View()), Dispose)
    {
      disposed := true;
      playing := false;
      trace := trace + [Disposed];
      ClearPendingTimer();
    }

    method SyncWith(playing: bool, allowed: Option<bool>)
      modifies this, timers
      ensures View() == Apply(old(View()), Sync(playing, allowed))
    {
      trace := trace + [Synced(playing && allowed.GetOr(true))];
      if disposed {
        return;
      }
      this.playing := playing;
      this.allowed := allowed.GetOr(true);
      if !this.playing || !this.allowed {
        ClearPendingTimer();
        return;
      }
      ScheduleTimer();
    }

    /** Between the events of a run this tells whether a timer is live, and so whether the last call enabled. */
    method IsScheduled() returns (r: bool)
      ensures r == pending.Some?
      ensures forall start ::
                Inv(View(), start) && Settled(View()) ==>
                  (r <==> View().timers.live != map[]) && (r <==> EnabledBy(View().trace))
    {
      r := pending.Some?;
    }

    /** The timeout callback; `callback` is what `onAdvance` does to this scheduler. */
    method OnTimeout(h: Handle, callback: seq<Op>)
      requires Due(View(), h)
      modifies this, timers
      ensures View() == FireTimer(old(View()), h, callback)
    {
      timers.ClearTimeout(h);
      pending := None;
      if disposed || !playing || !allowed {
        return;
      }
      trace := trace + [Advanced(timers.now)];
      ghost var marked := View();
      for i := 0 to |callback|
        invariant View() == ApplyAll(marked, callback[..i])
      {
        assert callback[..i + 1][..i] == callback[..i];
        match callback[i]
        case Sync(p, a) => SyncWith(p, a);
        case Dispose => DisposeScheduler();
      }
      assert callback[..|callback|] == callback;
      ScheduleTimer();
    }
  }
}
