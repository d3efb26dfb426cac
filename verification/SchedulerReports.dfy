/** The autoplay scheduler told from the calls made on it: which marks each event leaves, and
    when exactly the one timer falls due. */
module SchedulerReports {
  import opened Common
  import opened Scheduler

  /** A sync enables when it says playing and does not say that the gate is closed. */
  function MarkOf(op: Op): Mark {
    match op
    case Sync(playing, allowed) => Synced(playing && allowed != Some(false))
    case Dispose => Disposed
  }

  function MarksOf(ops: seq<Op>): seq<Mark> {
    seq(|ops|, i requires 0 <= i < |ops| => MarkOf(ops[i]))
  }

  predicate Fires(s: State, e: Event) {
    e.Fire? && e.handle in s.timers.live && s.timers.live[e.handle] <= s.timers.now
  }

  /** When the pending timer falls due. */
  function Deadline(s: State): Option<nat> {
    if s.pending.Some? && s.pending.value in s.timers.live then Some(s.timers.live[s.pending.value]) else None
  }

  lemma ApplyMarks(s: State, op: Op)
    ensures Apply(s, op).trace == s.trace + [MarkOf(op)] && Apply(s, op).timers.now == s.timers.now
  {
  }

  lemma {:induction false} ApplyAllMarks(s: State, ops: seq<Op>)
    ensures ApplyAll(s, ops).trace == s.trace + MarksOf(ops) && ApplyAll(s, ops).timers.now == s.timers.now
  {
    if ops != [] {
      ApplyAllMarks(s, ops[..|ops| - 1]);
      ApplyMarks(ApplyAll(s, ops[..|ops| - 1]), ops[|ops| - 1]);
      assert MarksOf(ops) == MarksOf(ops[..|ops| - 1]) + [MarkOf(ops[|ops| - 1])];
    }
  }

  /** A timer that fires in a callback's call is set now. */
  ghost predicate SetNow(s: State) {
    s.pending.Some? ==> Deadline(s) == Some(s.timers.now + 2000)
  }

  lemma {:induction false} CallbackSetsNow(s: State, ops: seq<Op>)
    requires SetNow(s)
    ensures SetNow(ApplyAll(s, ops))
  {
    if ops != [] {
      CallbackSetsNow(s, ops[..|ops| - 1]);
    }
  }

  lemma FiringSetsNow(s: State, h: Handle, callback: seq<Op>)
    ensures SetNow(FireTimer(s, h, callback)) && FireTimer(s, h, callback).timers.now == s.timers.now
  {
    var t := s.(timers := s.timers.(live := s.timers.live - {h}), pending := None);
    var marked := t.(trace := t.trace + [Advanced(t.timers.now)]);
    CallbackSetsNow(marked, callback);
    ApplyAllMarks(marked, callback);
  }

  lemma FiringMarks(s: State, h: Handle, callback: seq<Op>)
    requires Enabled(s)
    ensures FireTimer(s, h, callback).trace == s.trace + [Advanced(s.timers.now)] + MarksOf(callback)
  {
    var t := s.(timers := s.timers.(live := s.timers.live - {h}), pending := None);
    ApplyAllMarks(t.(trace := t.trace + [Advanced(t.timers.now)]), callback);
  }

  /** In every reachable state: a call leaves its mark; a timer that is due leaves an Advance
      and then the marks of the calls made from inside it; the clock moves only by elapsing. */
  lemma StepMarks(timers: Timers, events: seq<Event>, e: Event)
    requires timers.live == map[]
    ensures var s := Run(Created(timers), events);
      && Step(s, e).timers.now == s.timers.now + (if e.Elapse? then e.ms else 0)
      && Step(s, e).trace == s.trace +
           match e
           case Call(op) => [MarkOf(op)]
           case Elapse(_) => []
           case Fire(_, callback) => if Fires(s, e) then [Advanced(s.timers.now)] + MarksOf(callback) else []
  {
    EveryRunKeepsInv(timers, events);
    MarksAt(Run(Created(timers), events), e, timers.now);
  }

  lemma MarksAt(s: State, e: Event, start: nat)
    requires Inv(s, start)
    ensures Step(s, e).timers.now == s.timers.now + (if e.Elapse? then e.ms else 0)
    ensures Step(s, e).trace == s.trace +
              match e
              case Call(op) => [MarkOf(op)]
              case Elapse(_) => []
              case Fire(_, callback) => if Fires(s, e) then [Advanced(s.timers.now)] + MarksOf(callback) else []
  {
    if e.Call? {
      ApplyMarks(s, e.op);
    } else if Fires(s, e) {
      FiringMarks(s, e.handle, e.callback);
      FiringSetsNow(s, e.handle, e.callback);
      assert s.trace + [Advanced(s.timers.now)] + MarksOf(e.callback)
          == s.trace + ([Advanced(s.timers.now)] + MarksOf(e.callback));
    } else {
      assert s.trace + [] == s.trace;
    }
  }

  predicate DeadlineMoves(s: State, e: Event) {
    var t := Step(s, e);
    Deadline(t) == if !EnabledBy(t.trace) then None
                   else if EnabledBy(s.trace) && !Fires(s, e) then Deadline(s)
                   else Some(s.timers.now + 2000)
  }

  /** After any event in any reachable state: without an enabling sync in force no timer is
      pending; one that was in force and did not just fire keeps its deadline; any other is
      due 2000 milliseconds from now. */
  lemma DeadlineIs(timers: Timers, events: seq<Event>, e: Event)
    requires timers.live == map[]
    ensures DeadlineMoves(Run(Created(timers), events), e)
  {
    EveryRunKeepsInv(timers, events);
    DeadlineAt(Run(Created(timers), events), e, timers.now);
  }

  lemma DeadlineAt(s: State, e: Event, start: nat)
    requires Inv(s, start) && Settled(s)
    ensures DeadlineMoves(s, e)
  {
    StepKeepsInv(s, e, start);
    if e.Call? {
      CallDeadline(s, e.op, start);
    } else if Fires(s, e) {
      FiringSetsNow(s, e.handle, e.callback);
    }
  }

  lemma CallDeadline(s: State, op: Op, start: nat)
    requires Inv(s, start) && Settled(s) && Inv(Apply(s, op), start) && Settled(Apply(s, op))
    ensures Deadline(Apply(s, op)) == if !EnabledBy(Apply(s, op).trace) then None
                                      else if EnabledBy(s.trace) then Deadline(s)
                                      else Some(s.timers.now + 2000)
  {
  }
}
