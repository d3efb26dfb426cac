/** The replay told from the events alone: what the environment last reported since the mount,
    whether the user opted in, whether playback plays, and so whether a timer must be pending. */
module ReplayReadings {
  import opened Common
  import opened Playback
  import G = Gates
  import S = Scheduler
  import R = Replay

  datatype Reading = Reading(
    mounted: bool, playing: bool, visible: bool, intersecting: bool, reduced: bool, optedIn: bool)

  function Start(): Reading { Reading(false, false, true, true, false, false) }

  /** Mounting forgets the opt-in, takes the page for visible and in view until the DOM says
      otherwise, and pauses if either reading of reduced motion is on. */
  function Mounts(r: Reading, reduce: bool, dom: Option<R.DomReading>): Reading {
    match dom
    case None => Reading(true, r.playing && !reduce, true, true, reduce, false)
    case Some(read) => Reading(true, r.playing && !reduce && !read.reduce, read.visible, true, read.reduce, false)
  }

  function Next(r: Reading, e: R.Event): Reading {
    if !r.mounted then if e.Mount? then Mounts(r, e.reduce, e.dom) else r
    else match e
      case Unmount => r.(mounted := false)
      case UserPlay => r.(playing := true, optedIn := true)
      case UserPause => r.(playing := false, optedIn := false)
      case UserReset => r.(playing := false, optedIn := false)
      case ChangeRecording(_) => r.(playing := false)
      case VisibilityChange(visible) => r.(visible := visible)
      case IntersectionChange(intersecting) => r.(intersecting := intersecting)
      case ReducedMotionChange(reduce) =>
        if reduce && !r.reduced then r.(reduced := true, playing := false, optedIn := false) else r.(reduced := reduce)
      case _ => r
  }

  function Read(events: seq<R.Event>): Reading {
    if events == [] then Start() else Next(Read(events[..|events| - 1]), events[|events| - 1])
  }

  /** Playback plays, the page is visible and in view, and either motion is not reduced or
      the user opted in. */
  predicate MayAdvance(r: Reading) {
    r.mounted && r.playing && r.visible && r.intersecting && (r.reduced ==> r.optedIn)
  }

  ghost predicate Matches(r: Reading, h: R.Host) {
    && (r.mounted <==> h.io.Live?) && r.playing == h.playback.playing
    && (h.io.Live? ==>
          && h.io.session.signals == G.Signals(r.visible, r.intersecting, r.reduced)
          && (G.OptedIn(h.io.session.trace) <==> r.optedIn))
  }

  lemma MountMatches(r: Reading, h: R.Host, reduce: bool, dom: Option<R.DomReading>)
    requires Matches(r, h) && R.Inv(h) && h.io.Idle?
    ensures Matches(Mounts(r, reduce, dom), R.MountEffect(h, reduce, dom))
  {
    G.OptedInIff([], G.Activated);
  }

  lemma UserMatches(r: Reading, h: R.Host, e: R.Event)
    requires Matches(r, h) && R.Inv(h) && h.io.Live? && (e.UserPlay? || e.UserPause? || e.UserReset?)
    ensures Matches(Next(r, e), R.Step(h, e))
  {
    G.OptedInIff(h.io.session.trace, G.Played);
    G.OptedInIff(h.io.session.trace, G.Stopped);
  }

  lemma SignalMatches(r: Reading, h: R.Host, e: R.Event)
    requires Matches(r, h) && R.Inv(h) && h.io.Live?
    requires e.VisibilityChange? || e.IntersectionChange? || e.ReducedMotionChange?
    ensures Matches(Next(r, e), R.Step(h, e))
  {
    G.OptedInIff(h.io.session.trace, G.Activated);
  }

  lemma OtherMatches(r: Reading, h: R.Host, e: R.Event)
    requires Matches(r, h) && R.Inv(h) && h.io.Live?
    requires e.Mount? || e.Unmount? || e.Flush? || e.UserOther? || e.ChangeRecording? || e.Elapse? || e.TimerFires?
    ensures Matches(Next(r, e), R.Step(h, e))
  {
  }

  lemma StepMatches(r: Reading, h: R.Host, e: R.Event)
    requires Matches(r, h) && R.Inv(h)
    ensures Matches(Next(r, e), R.Step(h, e))
  {
    if h.io.Idle? {
      if e.Mount? {
        MountMatches(r, h, e.reduce, e.dom);
      }
    } else if e.UserPlay? || e.UserPause? || e.UserReset? {
      UserMatches(r, h, e);
    } else if e.VisibilityChange? || e.IntersectionChange? || e.ReducedMotionChange? {
      SignalMatches(r, h, e);
    } else {
      OtherMatches(r, h, e);
    }
  }

  lemma {:induction false} RunMatches(ticks: seq<int>, timers: S.Timers, events: seq<R.Event>)
    requires timers.live == map[]
    ensures Matches(Read(events), R.Run(R.InitialHost(ticks, timers), events))
  {
    if events != [] {
      var front := events[..|events| - 1];
      RunMatches(ticks, timers, front);
      R.EveryRunKeepsInv(ticks, timers, front);
      StepMatches(Read(front), R.Run(R.InitialHost(ticks, timers), front), events[|events| - 1]);
    }
  }

  /** In every reachable flushed state a timer is pending exactly when, from the events so
      far, playback may advance; there are never two, and none while unmounted. */
  lemma TimerPendingIffMayAdvance(ticks: seq<int>, timers: S.Timers, events: seq<R.Event>)
    requires timers.live == map[]
    ensures var h := R.Run(R.InitialHost(ticks, timers), events);
      && (h.io.Live? <==> Read(events).mounted)
      && h.playback.playing == Read(events).playing
      && |R.LiveTimers(h)| <= 1 && (!Read(events).mounted ==> R.LiveTimers(h) == map[])
      && (R.Flushed(h) ==> (h.io.scheduler.pending.Some? <==> MayAdvance(Read(events))))
      && (R.Flushed(h) ==> (R.LiveTimers(h) != map[] <==> MayAdvance(Read(events))))
  {
    var h := R.Run(R.InitialHost(ticks, timers), events);
    RunMatches(ticks, timers, events);
    R.EveryRunKeepsInv(ticks, timers, events);
    R.TimerPendingIffPlayingAndAllowed(ticks, timers, events);
  }

  // ----- What each event does to playback -----

  /** The transition that an event other than a timer's plays while mounted, if any. A reset
      returns to the recording's initial state, a pause keeps the tick. */
  function Transition(r: Reading, e: R.Event): Option<Action> {
    match e
    case UserPlay => Some(Play)
    case UserPause => Some(Pause)
    case UserReset => Some(Reset)
    case UserOther(action) => if action in {Play, Pause, Reset} then None else Some(action)
    case ReducedMotionChange(reduce) => if reduce && !r.reduced then Some(Pause) else None
    case _ => None
  }

  /** The playback state after an event, in any reachable state. While unmounted only a mount
      acts, by pausing if reduced motion is read; a timer that is due advances. */
  lemma EventPlays(ticks: seq<int>, timers: S.Timers, events: seq<R.Event>, e: R.Event)
    requires timers.live == map[]
    ensures var h := R.Run(R.InitialHost(ticks, timers), events);
      var r, before, after := Read(events), h.playback, R.Step(h, e).playback;
      if h.io.Idle? then
        after == if e.Mount? && (e.reduce || (e.dom.Some? && e.dom.value.reduce)) then Reduce(before, Pause) else before
      else if e.ChangeRecording? then after == Initial(e.ticks)
      else if e.TimerFires? then
        after == if S.Due(h.io.scheduler, e.handle) then Reduce(before, Advance) else before
      else match Transition(r, e)
        case None => after == before
        case Some(action) => after == Reduce(before, action)
  {
    var h := R.Run(R.InitialHost(ticks, timers), events);
    RunMatches(ticks, timers, events);
    R.EveryRunKeepsInv(ticks, timers, events);
    if h.io.Live? && e.TimerFires? {
      TimerPlays(h, e.handle);
    } else {
      OtherEventPlays(Read(events), h, e);
    }
  }

  lemma TimerPlays(h: R.Host, handle: S.Handle)
    requires R.Inv(h) && h.io.Live?
    ensures R.Step(h, R.TimerFires(handle)).playback
         == if S.Due(h.io.scheduler, handle) then Reduce(h.playback, Advance) else h.playback
  {
    if S.Due(h.io.scheduler, handle) {
      R.DueTimerAdvances(h, handle);
    }
  }

  lemma OtherEventPlays(r: Reading, h: R.Host, e: R.Event)
    requires Matches(r, h) && R.Inv(h) && (h.io.Idle? || !e.TimerFires?)
    ensures var before, after := h.playback, R.Step(h, e).playback;
      if h.io.Idle? then
        after == if e.Mount? && (e.reduce || (e.dom.Some? && e.dom.value.reduce)) then Reduce(before, Pause) else before
      else if e.ChangeRecording? then after == Initial(e.ticks)
      else match Transition(r, e)
        case None => after == before
        case Some(action) => after == Reduce(before, action)
  {
  }

  // ----- How often playback advances by itself -----

  function Elapsed(events: seq<R.Event>): nat {
    if events == [] then 0
    else
      var last := events[|events| - 1];
      Elapsed(events[..|events| - 1]) + if last.Elapse? then last.ms else 0
  }

  /** How many of the events are timers that were due, and so advanced playback. */
  function Firings(h: R.Host, events: seq<R.Event>): nat {
    if events == [] then 0
    else
      var front, last := events[..|events| - 1], events[|events| - 1];
      Firings(h, front) + if IsDue(R.Run(h, front), last) then 1 else 0
  }

  predicate IsDue(h: R.Host, e: R.Event) {
    e.TimerFires? && h.io.Live? && S.Due(h.io.scheduler, e.handle)
  }

  function Now(h: R.Host): nat {
    if h.io.Live? then h.io.scheduler.timers.now else h.io.timers.now
  }

  /** The firings before this mount took their time before it, the others since. */
  ghost predicate Paced(h: R.Host, start: nat, firings: nat) {
    match h.io
    case Idle(timers) => 2000 * firings <= timers.now - start
    case Live(_, scheduler, _, mounted) =>
      firings >= S.Advances(scheduler.trace) && 2000 * (firings - S.Advances(scheduler.trace)) <= mounted - start
  }

  lemma TimerPaces(h: R.Host, handle: S.Handle, start: nat, firings: nat)
    requires R.Inv(h) && IsDue(h, R.TimerFires(handle)) && Paced(h, start, firings)
    ensures Paced(R.Step(h, R.TimerFires(handle)), start, firings + 1)
    ensures Now(R.Step(h, R.TimerFires(handle))) == Now(h)
  {
    var marked := h.io.scheduler.trace + [S.Advanced(h.io.scheduler.timers.now)];
    assert S.FireTimer(h.io.scheduler, handle, []).trace == marked;
    assert marked[..|marked| - 1] == h.io.scheduler.trace;
  }

  lemma OtherPaces(h: R.Host, e: R.Event, start: nat, firings: nat)
    requires R.Inv(h) && !IsDue(h, e) && Paced(h, start, firings)
    ensures Paced(R.Step(h, e), start, firings)
    ensures Now(R.Step(h, e)) == Now(h) + (if e.Elapse? then e.ms else 0)
  {
    if h.io.Live? {
      SyncKeepsAdvances(h.io.scheduler);
    } else {
      SyncKeepsAdvances(S.Created(h.io.timers));
    }
  }

  lemma SyncKeepsAdvances(s: S.State)
    ensures forall op :: S.Advances(S.Apply(s, op).trace) == S.Advances(s.trace)
    ensures forall op :: S.Apply(s, op).timers.now == s.timers.now
  {
    forall op ensures S.Advances(S.Apply(s, op).trace) == S.Advances(s.trace) {
      var t := S.Apply(s, op).trace;
      assert t[..|t| - 1] == s.trace;
    }
  }

  /** Over every run, remounts included, at most one Advance happens by itself for every 2000
      milliseconds that elapse. */
  lemma {:induction false} FiringsAreBounded(ticks: seq<int>, timers: S.Timers, events: seq<R.Event>)
    requires timers.live == map[]
    ensures var start := R.InitialHost(ticks, timers);
      && Paced(R.Run(start, events), timers.now, Firings(start, events))
      && Now(R.Run(start, events)) == timers.now + Elapsed(events)
      && 2000 * Firings(start, events) <= Elapsed(events)
  {
    var start := R.InitialHost(ticks, timers);
    if events != [] {
      var front, last := events[..|events| - 1], events[|events| - 1];
      var h := R.Run(start, front);
      FiringsAreBounded(ticks, timers, front);
      R.EveryRunKeepsInv(ticks, timers, front);
      if IsDue(h, last) {
        TimerPaces(h, last.handle, timers.now, Firings(start, front));
      } else {
        OtherPaces(h, last, timers.now, Firings(start, front));
      }
      R.EveryRunKeepsInv(ticks, timers, events);
    }
  }
}
