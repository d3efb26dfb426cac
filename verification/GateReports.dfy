/** The gate session told from the calls made on it: what visibility, intersection and reduced
    motion were last reported as, whether the user opted in, what was emitted, and when
    autoplay is allowed. */
module GateReports {
  import opened Common
  import G = Gates

  /** What a call reports when it takes effect; `Asked` stands for the start of an activation
      of reduced motion, when the opt-in is cleared and the host is asked to pause. */
  datatype Mark =
    | Visible(on: bool) | Intersecting(on: bool) | Reduced(on: bool)
    | Played | Stopped | Asked | Disposed

  /** The marks of a call, after those in `log`. Calls on a disposed session leave none but
      further disposals; the calls a pause callback makes come before the signal it is for. */
  function Log(initial: G.Signals, log: seq<Mark>, op: G.Op): seq<Mark>
    decreases op, 0
  {
    match op
    case Do(DisposeSession) => log + [Disposed]
    case Do(plain) => if Disposed in log then log else log + [MarkOf(plain)]
    case SetPrefersReducedMotion(reduce, onRequestPause) =>
      if Disposed in log then log
      else if reduce && !LastReduced(initial, log)
      then LogAll(initial, log + [Asked], onRequestPause) + [Reduced(reduce)]
      else log + [Reduced(reduce)]
  }

  function LogAll(initial: G.Signals, log: seq<Mark>, ops: seq<G.Op>): seq<Mark>
    decreases ops, |ops|
  {
    if ops == [] then log else Log(initial, LogAll(initial, log, ops[..|ops| - 1]), ops[|ops| - 1])
  }

  function MarkOf(op: G.Plain): Mark {
    match op
    case SetDocumentVisible(visible) => Visible(visible)
    case SetIntersecting(intersecting) => Intersecting(intersecting)
    case NotifyExplicitPlay => Played
    case NotifyStopped => Stopped
    case DisposeSession => Disposed
  }

  // ----- Read off the marks -----

  function LastVisible(initial: G.Signals, log: seq<Mark>): bool {
    if log == [] then initial.documentVisible
    else if log[|log| - 1].Visible? then log[|log| - 1].on
    else LastVisible(initial, log[..|log| - 1])
  }

  function LastIntersecting(initial: G.Signals, log: seq<Mark>): bool {
    if log == [] then initial.intersecting
    else if log[|log| - 1].Intersecting? then log[|log| - 1].on
    else LastIntersecting(initial, log[..|log| - 1])
  }

  function LastReduced(initial: G.Signals, log: seq<Mark>): bool {
    if log == [] then initial.prefersReducedMotion
    else if log[|log| - 1].Reduced? then log[|log| - 1].on
    else LastReduced(initial, log[..|log| - 1])
  }

  /** The user played, and since then neither stopped nor did reduced motion become active
      nor was the session disposed. */
  predicate OptedIn(initial: G.Signals, log: seq<Mark>) {
    if log == [] then false
    else
      var front, last := log[..|log| - 1], log[|log| - 1];
      match last
      case Played => true
      case Stopped => false
      case Disposed => false
      case Reduced(on) => if on && !LastReduced(initial, front) then false else OptedIn(initial, front)
      case _ => OptedIn(initial, front)
  }

  /** The session's flag: a Play under reduced motion sets it; a stop, a disposal and the
      start of an activation clear it. */
  predicate Flagged(initial: G.Signals, log: seq<Mark>) {
    if log == [] then false
    else
      var front, last := log[..|log| - 1], log[|log| - 1];
      match last
      case Played => LastReduced(initial, front) || Flagged(initial, front)
      case Stopped => false
      case Disposed => false
      case Asked => false
      case _ => Flagged(initial, front)
  }

  function Decision(initial: G.Signals, log: seq<Mark>): G.Decision {
    var visible, intersecting := LastVisible(initial, log), LastIntersecting(initial, log);
    var reduced, overrides := LastReduced(initial, log), LastReduced(initial, log) && Flagged(initial, log);
    G.Decision(visible && intersecting && (reduced ==> overrides), G.Signals(visible, intersecting, reduced), overrides)
  }

  /** The decisions `onChange` is given: one for each mark that changes a signal, and for a
      Play or a stop that changes the flag, until disposal. */
  function Emissions(initial: G.Signals, log: seq<Mark>): seq<G.Decision> {
    if log == [] then []
    else
      var front, last := log[..|log| - 1], log[|log| - 1];
      if Disposed !in front && Changes(initial, front, last)
      then Emissions(initial, front) + [Decision(initial, log)] else Emissions(initial, front)
  }

  predicate Changes(initial: G.Signals, front: seq<Mark>, last: Mark) {
    match last
    case Visible(on) => on != LastVisible(initial, front)
    case Intersecting(on) => on != LastIntersecting(initial, front)
    case Reduced(on) => on != LastReduced(initial, front)
    case Played => LastReduced(initial, front) && !Flagged(initial, front)
    case Stopped => Flagged(initial, front)
    case _ => false
  }

  // ----- The session agrees -----

  ghost predicate Agrees(initial: G.Signals, log: seq<Mark>, s: G.Session) {
    && s.signals == G.Signals(LastVisible(initial, log), LastIntersecting(initial, log), LastReduced(initial, log))
    && (s.disposed <==> Disposed in log)
    && s.explicitPlay == Flagged(initial, log)
    && (G.OptedIn(s.trace) <==> OptedIn(initial, log))
    && s.emitted == Emissions(initial, log)
  }

  lemma CreatedAgrees(initial: G.Signals)
    ensures Agrees(initial, [], G.Created(initial))
  {
    G.OptedInIff([], G.Played);
  }

  lemma MarkAdds(initial: G.Signals, log: seq<Mark>, m: Mark)
    ensures var more := log + [m];
      && LastVisible(initial, more) == (if m.Visible? then m.on else LastVisible(initial, log))
      && LastIntersecting(initial, more) == (if m.Intersecting? then m.on else LastIntersecting(initial, log))
      && LastReduced(initial, more) == (if m.Reduced? then m.on else LastReduced(initial, log))
      && (Disposed in more <==> m.Disposed? || Disposed in log)
  {
    assert (log + [m])[..|log|] == log;
  }

  lemma MarkCounts(initial: G.Signals, log: seq<Mark>, m: Mark)
    ensures var more := log + [m];
      && (OptedIn(initial, more) <==>
            m.Played? || (OptedIn(initial, log) && !m.Stopped? && !m.Disposed?
                          && !(m.Reduced? && m.on && !LastReduced(initial, log))))
      && (Flagged(initial, more) <==>
            (m.Played? && LastReduced(initial, log))
            || (Flagged(initial, log) && !m.Stopped? && !m.Disposed? && !m.Asked?))
      && Emissions(initial, more) == if Disposed !in log && Changes(initial, log, m)
                                     then Emissions(initial, log) + [Decision(initial, more)]
                                     else Emissions(initial, log)
  {
    assert (log + [m])[..|log|] == log;
  }

  lemma ClearAgrees(initial: G.Signals, log: seq<Mark>, s: G.Session)
    requires Agrees(initial, log, s)
    ensures Agrees(initial, log + [Asked], G.Clear(s))
  {
    MarkAdds(initial, log, Asked);
    MarkCounts(initial, log, Asked);
  }

  lemma SetterAgrees(initial: G.Signals, log: seq<Mark>, s: G.Session, op: G.Plain)
    requires Agrees(initial, log, s) && (op.SetDocumentVisible? || op.SetIntersecting?)
    ensures Agrees(initial, Log(initial, log, G.Do(op)), G.ApplyPlain(s, op))
  {
    MarkAdds(initial, log, MarkOf(op));
    MarkCounts(initial, log, MarkOf(op));
  }

  lemma PlayAgrees(initial: G.Signals, log: seq<Mark>, s: G.Session)
    requires Agrees(initial, log, s)
    ensures Agrees(initial, Log(initial, log, G.Do(G.NotifyExplicitPlay)), G.ApplyPlain(s, G.NotifyExplicitPlay))
  {
    MarkAdds(initial, log, Played);
    MarkCounts(initial, log, Played);
    G.OptedInIff(s.trace, G.Played);
  }

  lemma StopAgrees(initial: G.Signals, log: seq<Mark>, s: G.Session)
    requires Agrees(initial, log, s)
    ensures Agrees(initial, Log(initial, log, G.Do(G.NotifyStopped)), G.ApplyPlain(s, G.NotifyStopped))
  {
    MarkAdds(initial, log, Stopped);
    MarkCounts(initial, log, Stopped);
    G.OptedInIff(s.trace, G.Stopped);
  }

  lemma DisposalAgrees(initial: G.Signals, log: seq<Mark>, s: G.Session)
    requires Agrees(initial, log, s)
    ensures Agrees(initial, Log(initial, log, G.Do(G.DisposeSession)), G.ApplyPlain(s, G.DisposeSession))
  {
    MarkAdds(initial, log, Disposed);
    MarkCounts(initial, log, Disposed);
    G.OptedInIff(s.trace, G.Stopped);
  }

  lemma PlainAgrees(initial: G.Signals, log: seq<Mark>, s: G.Session, op: G.Plain)
    requires Agrees(initial, log, s)
    ensures Agrees(initial, Log(initial, log, G.Do(op)), G.ApplyPlain(s, op))
  {
    match op
    case NotifyExplicitPlay => PlayAgrees(initial, log, s);
    case NotifyStopped => StopAgrees(initial, log, s);
    case DisposeSession => DisposalAgrees(initial, log, s);
    case _ => SetterAgrees(initial, log, s, op);
  }

  lemma ReducedAgrees(initial: G.Signals, log: seq<Mark>, s: G.Session, reduce: bool)
    requires Agrees(initial, log, s)
    ensures Agrees(initial, log + [Reduced(reduce)], G.SetReduced(s, reduce))
  {
    MarkAdds(initial, log, Reduced(reduce));
    MarkCounts(initial, log, Reduced(reduce));
    G.OptedInIff(s.trace, G.Activated);
  }

  lemma {:induction false} ApplyAgrees(initial: G.Signals, log: seq<Mark>, s: G.Session, op: G.Op)
    requires Agrees(initial, log, s)
    ensures Agrees(initial, Log(initial, log, op), G.Apply(s, op))
    decreases op, 0
  {
    match op
    case Do(plain) => PlainAgrees(initial, log, s, plain);
    case SetPrefersReducedMotion(reduce, onRequestPause) =>
      if G.Activates(s, op) {
        ClearAgrees(initial, log, s);
        RunAgrees(initial, log + [Asked], G.Clear(s), onRequestPause);
        ReducedAgrees(initial, LogAll(initial, log + [Asked], onRequestPause),
                      G.Run(G.Clear(s), onRequestPause), reduce);
      } else if !s.disposed {
        ReducedAgrees(initial, log, s, reduce);
      }
  }

  lemma {:induction false} RunAgrees(initial: G.Signals, log: seq<Mark>, s: G.Session, ops: seq<G.Op>)
    requires Agrees(initial, log, s)
    ensures Agrees(initial, LogAll(initial, log, ops), G.Run(s, ops))
    decreases ops, |ops|
  {
    if ops != [] {
      RunAgrees(initial, log, s, ops[..|ops| - 1]);
      ApplyAgrees(initial, LogAll(initial, log, ops[..|ops| - 1]), G.Run(s, ops[..|ops| - 1]), ops[|ops| - 1]);
    }
  }

  /** Over every run, whatever calls pause callbacks make: visibility, intersection and
      reduced motion are what was last reported, `getDecision` and the decisions emitted
      are the ones the calls give. */
  lemma SessionIsAsReported(initial: G.Signals, ops: seq<G.Op>)
    ensures var s, log := G.Run(G.Created(initial), ops), LogAll(initial, [], ops);
      && s.signals == G.Signals(LastVisible(initial, log), LastIntersecting(initial, log), LastReduced(initial, log))
      && (s.disposed <==> Disposed in log)
      && G.GetDecision(s) == Decision(initial, log)
      && s.emitted == Emissions(initial, log)
  {
    CreatedAgrees(initial);
    RunAgrees(initial, [], G.Created(initial), ops);
  }

  // ----- When autoplay is allowed -----

  /** Autoplay is allowed exactly when visible and in view as last reported, and either
      motion is not reduced or the user opted in. */
  ghost predicate AllowsRight(initial: G.Signals, log: seq<Mark>, s: G.Session) {
    && (G.GetDecision(s).allowed <==>
          && LastVisible(initial, log) && LastIntersecting(initial, log)
          && (LastReduced(initial, log) ==> OptedIn(initial, log)))
    && (G.GetDecision(s).explicitPlayWhileReducedMotion <==> LastReduced(initial, log) && OptedIn(initial, log))
  }

  /** After the call and at every point inside its callbacks. */
  ghost predicate RightThroughout(initial: G.Signals, log: seq<Mark>, s: G.Session, op: G.Op)
    decreases op, 0
  {
    && AllowsRight(initial, Log(initial, log, op), G.Apply(s, op))
    && (Activates(initial, log, op) ==> AllRightThroughout(initial, log + [Asked], G.Clear(s), op.onRequestPause))
  }

  ghost predicate AllRightThroughout(initial: G.Signals, log: seq<Mark>, s: G.Session, ops: seq<G.Op>)
    decreases ops, |ops|
  {
    ops != [] ==>
      var front, last := ops[..|ops| - 1], ops[|ops| - 1];
      && AllRightThroughout(initial, log, s, front)
      && RightThroughout(initial, LogAll(initial, log, front), G.Run(s, front), last)
  }

  predicate Activates(initial: G.Signals, log: seq<Mark>, op: G.Op) {
    op.SetPrefersReducedMotion? && Disposed !in log && op.reduce && !LastReduced(initial, log)
  }

  /** At each activation the pause callback leaves reduced motion on or the flag down. */
  predicate StaysClear(initial: G.Signals, log: seq<Mark>, op: G.Op)
    decreases op, 0
  {
    Activates(initial, log, op) ==>
      var after := LogAll(initial, log + [Asked], op.onRequestPause);
      && AllStayClear(initial, log + [Asked], op.onRequestPause)
      && (LastReduced(initial, after) || !Flagged(initial, after))
  }

  predicate AllStayClear(initial: G.Signals, log: seq<Mark>, ops: seq<G.Op>)
    decreases ops, |ops|
  {
    ops != [] ==>
      && AllStayClear(initial, log, ops[..|ops| - 1])
      && StaysClear(initial, LogAll(initial, log, ops[..|ops| - 1]), ops[|ops| - 1])
  }

  lemma AllowsRightIff(initial: G.Signals, log: seq<Mark>, s: G.Session)
    requires Agrees(initial, log, s)
    ensures AllowsRight(initial, log, s) <==> G.DecidesRight(s)
  {
  }

  lemma {:induction false} SameThroughout(initial: G.Signals, log: seq<Mark>, s: G.Session, op: G.Op)
    requires Agrees(initial, log, s)
    ensures RightThroughout(initial, log, s, op) <==> G.RightThroughout(s, op)
    ensures StaysClear(initial, log, op) <==> G.StaysClear(s, op)
    decreases op, 0
  {
    ApplyAgrees(initial, log, s, op);
    AllowsRightIff(initial, Log(initial, log, op), G.Apply(s, op));
    if G.Activates(s, op) {
      ClearAgrees(initial, log, s);
      AllSameThroughout(initial, log + [Asked], G.Clear(s), op.onRequestPause);
      RunAgrees(initial, log + [Asked], G.Clear(s), op.onRequestPause);
    }
  }

  lemma {:induction false} AllSameThroughout(initial: G.Signals, log: seq<Mark>, s: G.Session, ops: seq<G.Op>)
    requires Agrees(initial, log, s)
    ensures AllRightThroughout(initial, log, s, ops) <==> G.AllRightThroughout(s, ops)
    ensures AllStayClear(initial, log, ops) <==> G.AllStayClear(s, ops)
    decreases ops, |ops|
  {
    if ops != [] {
      var front, last := ops[..|ops| - 1], ops[|ops| - 1];
      AllSameThroughout(initial, log, s, front);
      RunAgrees(initial, log, s, front);
      SameThroughout(initial, LogAll(initial, log, front), G.Run(s, front), last);
    }
  }

  /** Over every run, at every point, callbacks included, autoplay is allowed exactly when it
      should be from what was reported, exactly when each pause callback leaves reduced
      motion on or the flag down. */
  lemma AllowedAsReportedIff(initial: G.Signals, ops: seq<G.Op>)
    ensures AllRightThroughout(initial, [], G.Created(initial), ops) <==> AllStayClear(initial, [], ops)
  {
    CreatedAgrees(initial);
    AllSameThroughout(initial, [], G.Created(initial), ops);
    G.AllowedIff(initial, ops);
  }
}
