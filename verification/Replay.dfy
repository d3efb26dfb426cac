/** The replay hook: playback state, gate session and scheduler composed. State updates
    are queued and reach the scheduler only when a flush renders them. */
module Replay {
  import opened Common
  import opened Playback
  import G = Gates
  import S = Scheduler

  /** What the mount effect owns; between mounts only the timer table remains. */
  datatype Io = Idle(timers: S.Timers) | Live(session: G.Session, scheduler: S.State, initial: G.Signals, start: nat)

  /** Values seen by the last render, hence by the refs and the sync effect. */
  datatype Rendered = Rendered(playing: bool, allowed: bool)

  /** `playback` and `gateAllowed` include queued updates. */
  datatype Host = Host(io: Io, playback: PlaybackState, gateAllowed: bool, rendered: Rendered)

  /** `dom` carries what binding the DOM reads first: visibility and reduced motion. */
  datatype DomReading = DomReading(visible: bool, reduce: bool)

  datatype Event =
    | Mount(reduce: bool, dom: Option<DomReading>)
    | Unmount
    | Flush
    | UserPlay
    | UserPause
    | UserReset
    | UserOther(action: Action)
    | VisibilityChange(visible: bool)
    | IntersectionChange(intersecting: bool)
    | ReducedMotionChange(reduce: bool)
    | ChangeRecording(ticks: seq<int>)
    | Elapse(ms: nat)
    | TimerFires(handle: S.Handle)

  function InitialHost(ticks: seq<int>, timers: S.Timers): Host {
    Host(Idle(timers), Initial(ticks), true, Rendered(false, true))
  }

  /** A session call together with the state updates made by its callbacks. */
  function WithSession(h: Host, op: G.Op): Host
    requires h.io.Live?
  {
    var before := h.io.session;
    var after := G.Apply(before, op);
    var pauses := op.SetPrefersReducedMotion? && op.reduce && !before.disposed && !before.signals.prefersReducedMotion;
    h.(io := h.io.(session := after),
       playback := if pauses then Reduce(h.playback, Pause) else h.playback,
       gateAllowed := if |after.emitted| > |before.emitted| then G.GetDecision(after).allowed else h.gateAllowed)
  }

  function WithSync(h: Host): Host
    requires h.io.Live?
  {
    h.(io := h.io.(scheduler := S.Apply(h.io.scheduler, S.Sync(h.rendered.playing, Some(h.rendered.allowed)))))
  }

  /** A fresh session and scheduler, the initial gate value, and a pause under reduced motion. */
  function CreateIo(h: Host, reduce: bool): Host
    requires h.io.Idle?
  {
    var initial := G.Signals(true, true, reduce);
    var session := G.Created(initial);
    h.(io := Live(session, S.Created(h.io.timers), initial, h.io.timers.now),
       gateAllowed := G.GetDecision(session).allowed,
       playback := if reduce then Reduce(h.playback, Pause) else h.playback)
  }

  /** Binding the DOM first reports visibility, then reduced motion. */
  function BindDom(h: Host, dom: DomReading): Host
    requires h.io.Live?
  {
    WithSession(WithSession(h, G.Do(G.SetDocumentVisible(dom.visible))), G.SetPrefersReducedMotion(dom.reduce, []))
  }

  /** The mount effect ends with a sync on the rendered values. */
  function MountEffect(h: Host, reduce: bool, dom: Option<DomReading>): Host
    requires h.io.Idle?
  {
    var created := CreateIo(h, reduce);
    WithSync(if dom.None? then created else BindDom(created, dom.value))
  }

  function UserCall(h: Host, notify: G.Plain, action: Action): Host
    requires h.io.Live?
  {
    var notified := WithSession(h, G.Do(notify));
    notified.(playback := Reduce(notified.playback, action))
  }

  /** A due timer runs the scheduler's callback, whose Advance only queues an update. */
  function FireTimer(h: Host, handle: S.Handle): Host
    requires h.io.Live? && S.Due(h.io.scheduler, handle)
  {
    var fired := S.FireTimer(h.io.scheduler, handle, []);
    var advances := |fired.trace| > |h.io.scheduler.trace|;
    h.(io := h.io.(scheduler := fired), playback := if advances then Reduce(h.playback, Advance) else h.playback)
  }

  function FlushUpdates(h: Host): Host
    requires h.io.Live?
  {
    var now := Rendered(h.playback.playing, h.gateAllowed);
    if now == h.rendered then h else WithSync(h.(rendered := now))
  }

  function Step(h: Host, e: Event): Host {
    match h.io
    case Idle(timers) => (
      match e
      case Mount(reduce, dom) => MountEffect(h, reduce, dom)
      case Elapse(ms) => h.(io := Idle(timers.(now := timers.now + ms)))
      case _ => h)
    case Live(session, scheduler, _, _) =>
      match e
      case Mount(_, _) => h
      case Unmount => h.(io := Idle(S.Apply(scheduler, S.Dispose).timers))
      case Flush => FlushUpdates(h)
      case UserPlay => UserCall(h, G.NotifyExplicitPlay, Play)
      case UserPause => UserCall(h, G.NotifyStopped, Pause)
      case UserReset => UserCall(h, G.NotifyStopped, Reset)
      case UserOther(action) =>
        if action in {Play, Pause, Reset} then h else h.(playback := Reduce(h.playback, action))
      case VisibilityChange(visible) => WithSession(h, G.Do(G.SetDocumentVisible(visible)))
      case IntersectionChange(intersecting) => WithSession(h, G.Do(G.SetIntersecting(intersecting)))
      case ReducedMotionChange(reduce) => WithSession(h, G.SetPrefersReducedMotion(reduce, []))
      case ChangeRecording(ticks) => h.(playback := Initial(ticks))
      case Elapse(ms) => h.(io := h.io.(scheduler := S.Step(scheduler, S.Elapse(ms))))
      case TimerFires(handle) => if S.Due(scheduler, handle) then FireTimer(h, handle) else h
  }

  function Run(h: Host, events: seq<Event>): Host {
    if events == [] then h else Step(Run(h, events[..|events| - 1]), events[|events| - 1])
  }

  // ----- Invariant -----

  /** The gate side: callbacks have kept `gateAllowed` current, and under reduced motion
      playing needs the opt-in. */
  ghost predicate GateInv(h: Host)
    requires h.io.Live?
  {
    var session := h.io.session;
    && G.Inv(session, h.io.initial) && !session.disposed
    && h.gateAllowed == G.GetDecision(session).allowed
    && (session.signals.prefersReducedMotion && h.playback.playing ==> session.explicitPlay)
  }

  /** The timer side: the scheduler runs on the rendered values. */
  ghost predicate TimerInv(h: Host)
    requires h.io.Live?
  {
    var scheduler := h.io.scheduler;
    && S.Inv(scheduler, h.io.start) && S.Settled(scheduler) && !scheduler.disposed
    && scheduler.playing == h.rendered.playing && scheduler.allowed == h.rendered.allowed
  }

  ghost predicate Inv(h: Host) {
    && Consistent(h.playback)
    && (h.io.Idle? ==> h.io.timers.live == map[])
    && (h.io.Live? ==> GateInv(h) && TimerInv(h))
  }

  /** Nothing is queued: the last render saw the current values. */
  predicate Flushed(h: Host) {
    h.io.Live? && h.rendered == Rendered(h.playback.playing, h.gateAllowed)
  }

  lemma SessionCallKeepsInv(h: Host, op: G.Op)
    requires h.io.Live? && Consistent(h.playback) && GateInv(h)
    requires op.Do? && op.op.NotifyStopped? ==> !h.playback.playing
    requires op != G.Do(G.DisposeSession) && (op.SetPrefersReducedMotion? ==> op.onRequestPause == [])
    ensures var t := WithSession(h, op); Consistent(t.playback) && GateInv(t)
  {
    G.ApplyKeepsInv(h.io.session, op, h.io.initial);
  }

  lemma UserCallKeepsInv(h: Host, notify: G.Plain, action: Action)
    requires h.io.Live? && Consistent(h.playback) && GateInv(h)
    requires (notify, action) in {(G.NotifyExplicitPlay, Play), (G.NotifyStopped, Pause), (G.NotifyStopped, Reset)}
    ensures var t := UserCall(h, notify, action); Consistent(t.playback) && GateInv(t)
  {
    G.ApplyKeepsInv(h.io.session, G.Do(notify), h.io.initial);
    ReduceKeepsConsistent(h.playback, action);
  }

  lemma SyncKeepsInv(h: Host)
    requires h.io.Live? && S.Inv(h.io.scheduler, h.io.start) && !h.io.scheduler.disposed
    ensures TimerInv(WithSync(h))
  {
    S.ApplyKeepsInv(h.io.scheduler, S.Sync(h.rendered.playing, Some(h.rendered.allowed)), h.io.start);
  }

  lemma MountKeepsInv(h: Host, reduce: bool, dom: Option<DomReading>)
    requires Inv(h) && h.io.Idle?
    ensures Inv(MountEffect(h, reduce, dom))
  {
    G.EveryRunKeepsInv(G.Signals(true, true, reduce), []);
    S.CreatedInv(h.io.timers);
    ReduceKeepsConsistent(h.playback, Pause);
    var created := CreateIo(h, reduce);
    if dom.Some? {
      SessionCallKeepsInv(created, G.Do(G.SetDocumentVisible(dom.value.visible)));
      SessionCallKeepsInv(WithSession(created, G.Do(G.SetDocumentVisible(dom.value.visible))),
                          G.SetPrefersReducedMotion(dom.value.reduce, []));
      SyncKeepsInv(BindDom(created, dom.value));
    } else {
      SyncKeepsInv(created);
    }
  }

  lemma FireKeepsInv(h: Host, handle: S.Handle)
    requires Inv(h) && h.io.Live? && S.Due(h.io.scheduler, handle)
    ensures Inv(FireTimer(h, handle))
  {
    S.FiringKeepsInv(h.io.scheduler, handle, [], h.io.start);
    ReduceKeepsConsistent(h.playback, Advance);
  }

  lemma UnmountKeepsInv(h: Host)
    requires Inv(h) && h.io.Live?
    ensures Inv(Step(h, Unmount))
  {
    S.ApplyKeepsInv(h.io.scheduler, S.Dispose, h.io.start);
  }

  lemma UserEventKeepsInv(h: Host, e: Event)
    requires Inv(h) && h.io.Live? && (e.UserPlay? || e.UserPause? || e.UserReset?)
    ensures Inv(Step(h, e))
  {
    match e
    case UserPlay => UserCallKeepsInv(h, G.NotifyExplicitPlay, Play);
    case UserPause => UserCallKeepsInv(h, G.NotifyStopped, Pause);
    case UserReset => UserCallKeepsInv(h, G.NotifyStopped, Reset);
  }

  lemma SelectionKeepsInv(h: Host, action: Action)
    requires Inv(h) && h.io.Live?
    ensures Inv(Step(h, UserOther(action)))
  {
    ReduceKeepsConsistent(h.playback, action);
  }

  lemma NewRecordingKeepsInv(h: Host, ticks: seq<int>)
    requires Inv(h) && h.io.Live?
    ensures Inv(Step(h, ChangeRecording(ticks)))
  {
    InitialIsConsistent(ticks);
  }

  lemma SignalKeepsInv(h: Host, e: Event)
    requires Inv(h) && h.io.Live?
    requires e.VisibilityChange? || e.IntersectionChange? || e.ReducedMotionChange?
    ensures Inv(Step(h, e))
  {
    match e
    case VisibilityChange(visible) => SessionCallKeepsInv(h, G.Do(G.SetDocumentVisible(visible)));
    case IntersectionChange(intersecting) => SessionCallKeepsInv(h, G.Do(G.SetIntersecting(intersecting)));
    case ReducedMotionChange(reduce) => SessionCallKeepsInv(h, G.SetPrefersReducedMotion(reduce, []));
  }

  lemma FlushKeepsInv(h: Host)
    requires Inv(h) && h.io.Live?
    ensures Inv(FlushUpdates(h))
  {
    if !Flushed(h) {
      SyncKeepsInv(h.(rendered := Rendered(h.playback.playing, h.gateAllowed)));
    }
  }

  lemma ElapseKeepsInv(h: Host, ms: nat)
    requires Inv(h) && h.io.Live?
    ensures Inv(Step(h, Elapse(ms)))
  {
    S.StepKeepsInv(h.io.scheduler, S.Elapse(ms), h.io.start);
  }

  lemma StepKeepsInv(h: Host, e: Event)
    requires Inv(h)
    ensures Inv(Step(h, e))
  {
    if h.io.Idle? {
      if e.Mount? {
        MountKeepsInv(h, e.reduce, e.dom);
      }
    } else {
      match e
      case Mount(_, _) =>
      case Unmount => UnmountKeepsInv(h);
      case Flush => FlushKeepsInv(h);
      case Elapse(ms) => ElapseKeepsInv(h, ms);
      case TimerFires(handle) =>
        if S.Due(h.io.scheduler, handle) {
          FireKeepsInv(h, handle);
        }
      case VisibilityChange(_) => SignalKeepsInv(h, e);
      case IntersectionChange(_) => SignalKeepsInv(h, e);
      case ReducedMotionChange(_) => SignalKeepsInv(h, e);
      case UserOther(action) => SelectionKeepsInv(h, action);
      case ChangeRecording(ticks) => NewRecordingKeepsInv(h, ticks);
      case _ => UserEventKeepsInv(h, e);
    }
  }

  lemma {:induction false} EveryRunKeepsInv(ticks: seq<int>, timers: S.Timers, events: seq<Event>)
    requires timers.live == map[]
    ensures Inv(Run(InitialHost(ticks, timers), events))
  {
    if events == [] {
      InitialIsConsistent(ticks);
    } else {
      EveryRunKeepsInv(ticks, timers, events[..|events| - 1]);
      StepKeepsInv(Run(InitialHost(ticks, timers), events[..|events| - 1]), events[|events| - 1]);
    }
  }

  // ----- Safety of every run, mounts and unmounts included -----

  function LiveTimers(h: Host): map<S.Handle, nat> {
    if h.io.Live? then h.io.scheduler.timers.live else h.io.timers.live
  }

  /** In a flushed state a timer is pending exactly when playing and the gate allows; at
      no time are there two, and none survives an unmount. */
  lemma TimerPendingIffPlayingAndAllowed(ticks: seq<int>, timers: S.Timers, events: seq<Event>)
    requires timers.live == map[]
    ensures var h := Run(InitialHost(ticks, timers), events);
            && |LiveTimers(h)| <= 1
            && (h.io.Idle? ==> LiveTimers(h) == map[])
            && (Flushed(h) ==> (h.io.scheduler.pending.Some?
                                <==> h.playback.playing && G.GetDecision(h.io.session).allowed))
  {
    EveryRunKeepsInv(ticks, timers, events);
    var h := Run(InitialHost(ticks, timers), events);
    if h.io.Live? {
      var pending := h.io.scheduler.pending;
      assert LiveTimers(h).Keys == if pending.Some? then {pending.value} else {};
      assert |LiveTimers(h)| == |LiveTimers(h).Keys|;
    }
  }

  /** Under reduced motion, playing means the user played since it became active (or
      since the mount) and has not stopped. */
  lemma PlayingUnderReducedMotionIsOptedIn(ticks: seq<int>, timers: S.Timers, events: seq<Event>)
    requires timers.live == map[]
    ensures var h := Run(InitialHost(ticks, timers), events);
            h.io.Live? && h.io.session.signals.prefersReducedMotion && h.playback.playing ==>
              G.OptedIn(h.io.session.trace)
  {
    EveryRunKeepsInv(ticks, timers, events);
  }

  lemma PauseSurvivesStep(h: Host, e: Event)
    requires Inv(h) && !h.playback.playing && e != UserPlay
    ensures !Step(h, e).playback.playing
  {
  }

  /** Once playback is paused it stays paused, through flushes, timers, gate changes and
      remounts, until the user plays. */
  lemma {:induction false} PausedUntilUserPlays(h: Host, events: seq<Event>)
    requires Inv(h) && !h.playback.playing && UserPlay !in events
    ensures Inv(Run(h, events)) && !Run(h, events).playback.playing
    ensures Flushed(Run(h, events)) ==> LiveTimers(Run(h, events)) == map[]
  {
    if events != [] {
      var front, e := events[..|events| - 1], events[|events| - 1];
      assert e in events;
      PausedUntilUserPlays(h, front);
      StepKeepsInv(Run(h, front), e);
      PauseSurvivesStep(Run(h, front), e);
    }
  }

  /** Reduced motion that becomes active stops autoplay until the user acts: whatever
      happens short of a Play, playback is paused and flushed states hold no timer. */
  lemma ActivationStopsAutoplay(ticks: seq<int>, timers: S.Timers, before: seq<Event>, after: seq<Event>)
    requires timers.live == map[] && UserPlay !in after
    requires var h := Run(InitialHost(ticks, timers), before); h.io.Live? && !h.io.session.signals.prefersReducedMotion
    ensures var h := Run(Step(Run(InitialHost(ticks, timers), before), ReducedMotionChange(true)), after);
            !h.playback.playing && (Flushed(h) ==> LiveTimers(h) == map[])
  {
    EveryRunKeepsInv(ticks, timers, before);
    var h := Run(InitialHost(ticks, timers), before);
    StepKeepsInv(h, ReducedMotionChange(true));
    PausedUntilUserPlays(Step(h, ReducedMotionChange(true)), after);
  }

  /** A due timer always advances: the scheduler runs on the rendered values and never
      looks at `playing`. In a flushed state that is the same thing. */
  lemma DueTimerAdvances(h: Host, handle: S.Handle)
    requires Inv(h) && h.io.Live? && S.Due(h.io.scheduler, handle)
    ensures Step(h, TimerFires(handle)).playback == Reduce(h.playback, Advance)
    ensures h.rendered == Rendered(true, true)
    ensures Flushed(h) ==> h.playback.playing && G.GetDecision(h.io.session).allowed
  {
  }

  /** Hence an Advance can follow a Pause that has not been flushed yet. */
  lemma AdvanceCanFollowUnflushedPause(h: Host)
    requires Inv(h) && Flushed(h) && h.playback.playing && h.gateAllowed
    ensures var late := Step(Step(h, UserPause), Elapse(S.AUTOPLAY_INTERVAL_MS));
            && h.io.scheduler.pending.Some? && !late.playback.playing
            && Step(late, TimerFires(h.io.scheduler.pending.value)).playback == Reduce(late.playback, Advance)
  {
    var paused := Step(h, UserPause);
    var late := Step(paused, Elapse(S.AUTOPLAY_INTERVAL_MS));
    StepKeepsInv(h, UserPause);
    StepKeepsInv(paused, Elapse(S.AUTOPLAY_INTERVAL_MS));
    DueTimerAdvances(late, h.io.scheduler.pending.value);
  }

  lemma {:induction false} RunIsFold(h: Host, events: seq<Event>, n: nat)
    requires n <= |events|
    ensures Run(h, events[..n]) == Fold(Step, h, events, n)
  {
    if n > 0 {
      RunIsFold(h, events, n - 1);
      assert events[..n][..n - 1] == events[..n - 1];
    }
  }

  lemma ThreeEvents(h: Host, a: Event, b: Event, c: Event)
    ensures Run(h, [a, b, c]) == Step(Step(Step(h, a), b), c)
  {
    RunIsFold(h, [a, b, c], 3);
    FoldOfThree(Step, h, a, b, c);
    assert [a, b, c][..3] == [a, b, c];
  }

  lemma {:induction false} RunConcatenates(h: Host, first: seq<Event>, more: seq<Event>)
    ensures Run(h, first + more) == Run(Run(h, first), more)
  {
    if more == [] {
      assert first + more == first;
    } else {
      RunConcatenates(h, first, more[..|more| - 1]);
      assert (first + more)[..|first + more| - 1] == first + more[..|more| - 1];
    }
  }

  function PlayingRun(): seq<Event> { [Mount(false, None), UserPlay, Flush] }

  lemma PlayIsRendered(h: Host)
    requires h.io.Live? && !h.io.session.disposed && !h.io.session.signals.prefersReducedMotion
    ensures var t := Step(Step(h, UserPlay), Flush);
      Flushed(t) && t.gateAllowed == h.gateAllowed && t.playback == Reduce(h.playback, Play)
  {
  }

  lemma PlayingRunPlays(ticks: seq<int>, timers: S.Timers)
    requires timers.live == map[]
    ensures var h := Run(InitialHost(ticks, timers), PlayingRun());
            Inv(h) && Flushed(h) && h.gateAllowed && h.playback == Reduce(Initial(ticks), Play)
  {
    var start, mount := InitialHost(ticks, timers), Mount(false, None);
    ThreeEvents(start, mount, UserPlay, Flush);
    PlayIsRendered(Step(start, mount));
    EveryRunKeepsInv(ticks, timers, PlayingRun());
  }

  lemma PausedPlayback(h: Host)
    requires h.io.Live?
    ensures Step(Step(h, UserPause), Elapse(S.AUTOPLAY_INTERVAL_MS)).playback == Reduce(h.playback, Pause)
  {
  }

  /** A run from the initial host that gets there: mount, play, render, then pause and let
      the interval pass before the pause is rendered. The timer moves the paused player on. */
  lemma AdvanceFollowsPauseInSomeRun(ticks: seq<int>, timers: S.Timers) returns (handle: S.Handle)
    requires timers.live == map[]
    ensures var late := PlayingRun() + [UserPause, Elapse(S.AUTOPLAY_INTERVAL_MS), TimerFires(handle)];
            Run(InitialHost(ticks, timers), late).playback == Reduce(Reduce(Initial(ticks), Pause), Advance)
  {
    var start, elapse := InitialHost(ticks, timers), Elapse(S.AUTOPLAY_INTERVAL_MS);
    var h := Run(start, PlayingRun());
    PlayingRunPlays(ticks, timers);
    AdvanceCanFollowUnflushedPause(h);
    PausedPlayback(h);
    handle := h.io.scheduler.pending.value;
    RunConcatenates(start, PlayingRun(), [UserPause, elapse, TimerFires(handle)]);
    ThreeEvents(h, UserPause, elapse, TimerFires(handle));
  }

  // ----- The hook as an object over a real session, scheduler and timer table -----

  class ControlledReplay {
    const timers: S.TimerTable
    var session: G.AutoplayGateSession?
    var scheduler: S.AutoplayScheduler?
    var playback: PlaybackState
    var gateAllowed: bool
    var rendered: Rendered
    ghost var initial: G.Signals
    ghost var start: nat

    ghost predicate Valid()
      reads this
    {
      (session == null <==> scheduler == null) && (scheduler != null ==> scheduler.timers == timers)
    }

    ghost function View(): Host
      requires Valid()
      reads this, timers, session, scheduler
    {
      Host(if session == null then Idle(timers.View()) else Live(session.View(), scheduler.View(), initial, start),
           playback, gateAllowed, rendered)
    }

    constructor (ticks: seq<int>, timers: S.TimerTable)
      ensures Valid() && session == null && View() == InitialHost(ticks, timers.View())
    {
      this.timers := timers;
      session, scheduler := null, null;
      playback, gateAllowed, rendered := Initial(ticks), true, Rendered(false, true);
      initial, start := G.Signals(true, true, false), 0;
    }

    method CallSession(op: G.Plain)
      requires Valid() && session != null
      modifies this`gateAllowed, session
      ensures Valid() && View() == WithSession(old(View()), G.Do(op))
    {
      var change := session.Perform(op);
      if change.Some? {
        gateAllowed := change.value.allowed;
      }
    }

    method OnReducedMotionChange(reduce: bool)
      requires Valid() && session != null
      modifies this`gateAllowed, this`playback, session
      ensures Valid() && View() == WithSession(old(View()), G.SetPrefersReducedMotion(reduce, []))
    {
      var pauseRequested, change := session.ChangeReducedMotion(reduce, []);
      if pauseRequested {
        playback := Reduce(playback, Pause);
      }
      if change.Some? {
        gateAllowed := change.value.allowed;
      }
    }

    method SyncScheduler()
      requires Valid() && scheduler != null
      modifies scheduler, timers
      ensures Valid() && View() == WithSync(old(View()))
    {
      scheduler.SyncWith(rendered.playing, Some(rendered.allowed));
    }

    method CreateSessionAndScheduler(reduce: bool)
      requires Valid() && session == null
      modifies this
      ensures Valid() && session != null && fresh(session) && fresh(scheduler)
      ensures View() == CreateIo(old(View()), reduce)
    {
      initial := G.Signals(true, true, reduce);
      start := timers.now;
      session := new G.AutoplayGateSession(G.Signals(true, true, reduce));
      scheduler := new S.AutoplayScheduler(timers);
      var d := session.CurrentDecision();
      gateAllowed := d.allowed;
      if reduce {
        playback := Reduce(playback, Pause);
      }
    }

    method RunMountEffect(reduce: bool, dom: Option<DomReading>)
      requires Valid() && session == null
      modifies this, timers
      ensures Valid() && session != null && fresh(session) && fresh(scheduler)
      ensures View() == MountEffect(old(View()), reduce, dom)
    {
      CreateSessionAndScheduler(reduce);
      if dom.Some? {
        CallSession(G.SetDocumentVisible(dom.value.visible));
        OnReducedMotionChange(dom.value.reduce);
      }
      SyncScheduler();
    }

    method CleanUp()
      requires Valid() && session != null
      modifies this`session, this`scheduler, session, scheduler, timers
      ensures Valid() && View() == Step(old(View()), Unmount)
    {
      scheduler.DisposeScheduler();
      var _ := session.Perform(G.DisposeSession);
      session, scheduler := null, null;
    }

    /** A render with queued updates; the sync effect runs only when its dependencies changed. */
    method RenderAndSync()
      requires Valid() && session != null
      modifies this`rendered, scheduler, timers
      ensures Valid() && View() == Step(old(View()), Flush)
    {
      var now := Rendered(playback.playing, gateAllowed);
      if now != rendered {
        rendered := now;
        SyncScheduler();
      }
    }

    /** Tells the session, then queues the transition. */
    method NotifyThenDispatch(notify: G.Plain, action: Action)
      requires Valid() && session != null
      modifies this`gateAllowed, this`playback, session
      ensures Valid() && View() == UserCall(old(View()), notify, action)
    {
      CallSession(notify);
      playback := Reduce(playback, action);
    }

    method DispatchPlay()
      requires Valid() && session != null
      modifies this`gateAllowed, this`playback, session
      ensures Valid() && View() == Step(old(View()), UserPlay)
    {
      NotifyThenDispatch(G.NotifyExplicitPlay, Play);
    }

    method DispatchPause()
      requires Valid() && session != null
      modifies this`gateAllowed, this`playback, session
      ensures Valid() && View() == Step(old(View()), UserPause)
    {
      NotifyThenDispatch(G.NotifyStopped, Pause);
    }

    method DispatchReset()
      requires Valid() && session != null
      modifies this`gateAllowed, this`playback, session
      ensures Valid() && View() == Step(old(View()), UserReset)
    {
      NotifyThenDispatch(G.NotifyStopped, Reset);
    }

    method OnTimer(handle: S.Handle)
      requires Valid() && scheduler != null && S.Due(scheduler.View(), handle)
      modifies this`playback, scheduler, timers
      ensures Valid() && View() == Step(old(View()), TimerFires(handle))
    {
      var advances := !scheduler.disposed && scheduler.playing && scheduler.allowed;
      scheduler.OnTimeout(handle, []);
      if advances {
        playback := Reduce(playback, Advance);
      }
    }
  }
}
