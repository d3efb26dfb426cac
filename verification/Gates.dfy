/** Visibility, intersection and reduced-motion gates in front of autoplay. */
module Gates {
  import opened Common

  datatype Signals = Signals(documentVisible: bool, intersecting: bool, prefersReducedMotion: bool)

  datatype Decision = Decision(allowed: bool, signals: Signals, explicitPlayWhileReducedMotion: bool)

  /** What bears on the reduced-motion opt-in, in the order it happened. */
  datatype Mark = Activated | Played | Stopped

  datatype Session = Session(
    disposed: bool,
    signals: Signals,
    explicitPlay: bool,
    emitted: seq<Decision>,
    trace: seq<Mark>)

  datatype Plain =
    | SetDocumentVisible(visible: bool)
    | SetIntersecting(intersecting: bool)
    | NotifyExplicitPlay
    | NotifyStopped
    | DisposeSession

  /** `onRequestPause` lists the calls the host makes on the session from inside that
      callback, which may again change reduced motion. */
  datatype Op = Do(op: Plain) | SetPrefersReducedMotion(reduce: bool, onRequestPause: seq<Op>)

  predicate IsAutoplayAllowed(signals: Signals, explicitPlay: bool) {
    signals.documentVisible && signals.intersecting && (signals.prefersReducedMotion ==> explicitPlay)
  }

  function Decide(signals: Signals, explicitPlay: bool): Decision {
    var override := signals.prefersReducedMotion && explicitPlay;
    Decision(IsAutoplayAllowed(signals, override), signals, override)
  }

  function GetDecision(s: Session): Decision { Decide(s.signals, s.explicitPlay) }

  function Created(initial: Signals): Session { Session(false, initial, false, [], []) }

  function Emit(s: Session): Session {
    if s.disposed then s else s.(emitted := s.emitted + [GetDecision(s)])
  }

  function UpdateSignals(s: Session, next: Signals): Session {
    if next == s.signals then s
    else
      var activated := next.prefersReducedMotion && !s.signals.prefersReducedMotion;
      Emit(s.(signals := next, trace := if activated then s.trace + [Activated] else s.trace))
  }

  function ApplyPlain(s: Session, op: Plain): Session {
    if s.disposed && op != DisposeSession then s
    else match op
      case SetDocumentVisible(visible) => UpdateSignals(s, s.signals.(documentVisible := visible))
      case SetIntersecting(intersecting) => UpdateSignals(s, s.signals.(intersecting := intersecting))
      case NotifyExplicitPlay =>
        var t := s.(trace := s.trace + [Played]);
        if s.signals.prefersReducedMotion && !s.explicitPlay then Emit(t.(explicitPlay := true)) else t
      case NotifyStopped =>
        var t := s.(trace := s.trace + [Stopped]);
        if s.explicitPlay then Emit(t.(explicitPlay := false)) else t
      case DisposeSession => s.(disposed := true, explicitPlay := false, trace := s.trace + [Stopped])
  }

  /** Reduced motion becomes active in a session that still listens. */
  predicate Activates(s: Session, op: Op) {
    op.SetPrefersReducedMotion? && !s.disposed && op.reduce && !s.signals.prefersReducedMotion
  }

  /** The opt-in is cleared before the host is asked to pause. */
  function Clear(s: Session): Session { s.(explicitPlay := false) }

  function SetReduced(s: Session, reduce: bool): Session {
    UpdateSignals(s, s.signals.(prefersReducedMotion := reduce))
  }

  /** Newly active reduced motion clears the opt-in and asks for a pause before the signal changes. */
  function Apply(s: Session, op: Op): Session
    decreases op, 0
  {
    match op
    case Do(plain) => ApplyPlain(s, plain)
    case SetPrefersReducedMotion(reduce, onRequestPause) =>
      if s.disposed then s else SetReduced(if Activates(s, op) then Run(Clear(s), onRequestPause) else s, reduce)
  }

  function Run(s: Session, ops: seq<Op>): Session
    decreases ops, |ops|
  {
    if ops == [] then s else Apply(Run(s, ops[..|ops| - 1]), ops[|ops| - 1])
  }

  // ----- What the opt-in means -----

  /** An explicit Play with no later stop and no later activation of reduced motion. */
  ghost predicate OptedIn(trace: seq<Mark>) {
    exists i :: 0 <= i < |trace| && trace[i] == Played && forall k :: i < k < |trace| ==> trace[k] == Played
  }

  lemma OptedInIff(trace: seq<Mark>, m: Mark)
    ensures OptedIn(trace + [m]) <==> m == Played
    ensures !OptedIn([])
  {
    var t := trace + [m];
    assert t[|trace|] == m;
  }

  ghost predicate LastEmissionIsCurrent(s: Session, initial: Signals) {
    !s.disposed ==>
      GetDecision(s) == if s.emitted == [] then Decide(initial, false) else s.emitted[|s.emitted| - 1]
  }

  /** While reduced motion is on the raw flag says exactly "opted in"; while it is off
      the flag may keep an older value, which the decision ignores. */
  ghost predicate FlagMeansOptedIn(s: Session) {
    s.signals.prefersReducedMotion ==> (s.explicitPlay <==> OptedIn(s.trace))
  }

  ghost predicate Reported(s: Session, initial: Signals) {
    (s.disposed ==> !s.explicitPlay) && LastEmissionIsCurrent(s, initial)
  }

  ghost predicate Inv(s: Session, initial: Signals) {
    Reported(s, initial) && FlagMeansOptedIn(s)
  }

  // ----- What is reported, whatever callbacks do -----

  lemma {:induction false} ApplyKeepsReported(s: Session, op: Op, initial: Signals)
    requires Reported(s, initial)
    ensures Reported(Apply(s, op), initial)
    decreases op, 0
  {
    if Activates(s, op) {
      RunKeepsReported(Clear(s), op.onRequestPause, initial);
    }
  }

  lemma {:induction false} RunKeepsReported(s: Session, ops: seq<Op>, initial: Signals)
    requires Reported(s, initial)
    ensures Reported(Run(s, ops), initial)
    decreases ops, |ops|
  {
    if ops != [] {
      RunKeepsReported(s, ops[..|ops| - 1], initial);
      ApplyKeepsReported(Run(s, ops[..|ops| - 1]), ops[|ops| - 1], initial);
    }
  }

  // ----- When the opt-in means what it should -----

  lemma PlainKeepsMeaning(s: Session, op: Plain)
    requires FlagMeansOptedIn(s)
    ensures FlagMeansOptedIn(ApplyPlain(s, op))
  {
    OptedInIff(s.trace, Played);
    OptedInIff(s.trace, Stopped);
  }

  /** The signal goes on with the flag still cleared, or was already on. */
  predicate ClearAtActivation(s: Session) {
    s.signals.prefersReducedMotion || !s.explicitPlay
  }

  lemma ActivationKeepsMeaningIff(s: Session)
    requires FlagMeansOptedIn(s)
    ensures FlagMeansOptedIn(SetReduced(s, true)) <==> ClearAtActivation(s)
  {
    OptedInIff(s.trace, Activated);
  }

  /** At each activation of reduced motion during the call, nested ones included, the pause
      callback leaves the flag cleared, or has itself activated reduced motion. */
  predicate StaysClear(s: Session, op: Op)
    decreases op, 0
  {
    Activates(s, op) ==>
      AllStayClear(Clear(s), op.onRequestPause) && ClearAtActivation(Run(Clear(s), op.onRequestPause))
  }

  predicate AllStayClear(s: Session, ops: seq<Op>)
    decreases ops, |ops|
  {
    ops != [] ==> AllStayClear(s, ops[..|ops| - 1]) && StaysClear(Run(s, ops[..|ops| - 1]), ops[|ops| - 1])
  }

  /** What `getDecision` should say: under reduced motion the override is on exactly when the
      user explicitly played since reduced motion last became active (or since the start) and
      has not stopped since, and autoplay is allowed exactly when visible, intersecting, and
      either motion is unrestricted or that override is on. */
  ghost predicate DecidesRight(s: Session) {
    && (GetDecision(s).explicitPlayWhileReducedMotion <==> s.signals.prefersReducedMotion && OptedIn(s.trace))
    && (GetDecision(s).allowed <==>
          && s.signals.documentVisible && s.signals.intersecting
          && (s.signals.prefersReducedMotion ==> OptedIn(s.trace)))
  }

  lemma DecidesRightIff(s: Session)
    ensures DecidesRight(s) <==> FlagMeansOptedIn(s)
  {
  }

  /** After the call and at every point inside its callbacks. */
  ghost predicate RightThroughout(s: Session, op: Op)
    decreases op, 0
  {
    && DecidesRight(Apply(s, op))
    && (Activates(s, op) ==> AllRightThroughout(Clear(s), op.onRequestPause))
  }

  ghost predicate AllRightThroughout(s: Session, ops: seq<Op>)
    decreases ops, |ops|
  {
    ops != [] ==>
      AllRightThroughout(s, ops[..|ops| - 1]) && RightThroughout(Run(s, ops[..|ops| - 1]), ops[|ops| - 1])
  }

  lemma {:induction false} RightThroughoutIff(s: Session, op: Op)
    requires FlagMeansOptedIn(s)
    ensures RightThroughout(s, op) <==> StaysClear(s, op)
    decreases op, 0
  {
    DecidesRightIff(Apply(s, op));
    match op
    case Do(plain) => PlainKeepsMeaning(s, plain);
    case SetPrefersReducedMotion(_, onRequestPause) =>
      if Activates(s, op) {
        AllRightThroughoutIff(Clear(s), onRequestPause);
        if AllStayClear(Clear(s), onRequestPause) {
          ActivationKeepsMeaningIff(Run(Clear(s), onRequestPause));
        }
      }
  }

  lemma {:induction false} AllRightThroughoutIff(s: Session, ops: seq<Op>)
    requires FlagMeansOptedIn(s)
    ensures AllRightThroughout(s, ops) <==> AllStayClear(s, ops)
    ensures AllStayClear(s, ops) ==> FlagMeansOptedIn(Run(s, ops))
    decreases ops, |ops|
  {
    if ops != [] {
      AllRightThroughoutIff(s, ops[..|ops| - 1]);
      if AllStayClear(s, ops[..|ops| - 1]) {
        RightThroughoutIff(Run(s, ops[..|ops| - 1]), ops[|ops| - 1]);
      }
    }
  }

  lemma ApplyKeepsInv(s: Session, op: Op, initial: Signals)
    requires Inv(s, initial) && StaysClear(s, op)
    ensures Inv(Apply(s, op), initial)
  {
    ApplyKeepsReported(s, op, initial);
    RightThroughoutIff(s, op);
    DecidesRightIff(Apply(s, op));
  }

  /** A call that does not turn reduced motion off, nor does any call made inside it. */
  predicate KeepsMotion(op: Op) {
    op.SetPrefersReducedMotion? ==> op.reduce && forall c :: c in op.onRequestPause ==> KeepsMotion(c)
  }

  /** With such calls alone every activation stays clear. */
  lemma {:induction false} KeptMotionStaysClear(s: Session, ops: seq<Op>)
    requires ClearAtActivation(s) && forall c :: c in ops ==> KeepsMotion(c)
    ensures AllStayClear(s, ops) && ClearAtActivation(Run(s, ops))
    decreases ops, |ops|
  {
    if ops != [] {
      var before, op := Run(s, ops[..|ops| - 1]), ops[|ops| - 1];
      KeptMotionStaysClear(s, ops[..|ops| - 1]);
      assert KeepsMotion(op);
      if Activates(before, op) {
        KeptMotionStaysClear(Clear(before), op.onRequestPause);
      }
    }
  }

  /** No pause callback turns reduced motion off. */
  ghost predicate Tame(ops: seq<Op>) {
    forall op, c :: op in ops && op.SetPrefersReducedMotion? && c in op.onRequestPause ==> KeepsMotion(c)
  }

  lemma {:induction false} TameCallbacksStayClear(s: Session, ops: seq<Op>)
    requires Tame(ops)
    ensures AllStayClear(s, ops)
    decreases |ops|
  {
    if ops != [] {
      TameCallbacksStayClear(s, ops[..|ops| - 1]);
      var before, op := Run(s, ops[..|ops| - 1]), ops[|ops| - 1];
      if Activates(before, op) {
        KeptMotionStaysClear(Clear(before), op.onRequestPause);
      }
    }
  }

  lemma EveryRunKeepsInv(initial: Signals, ops: seq<Op>)
    requires AllStayClear(Created(initial), ops)
    ensures Inv(Run(Created(initial), ops), initial)
  {
    CreatedInv(initial);
    RunKeepsReported(Created(initial), ops, initial);
    AllRightThroughoutIff(Created(initial), ops);
  }

  lemma CreatedInv(initial: Signals)
    ensures Inv(Created(initial), initial)
  {
    assert !OptedIn([]);
  }

  /** Autoplay is allowed exactly when visible, intersecting, and either motion is
      unrestricted or the user explicitly played since reduced motion last became active (or
      since the start) and has not stopped since: so at every point of a run, inside
      callbacks too, exactly when every activation stays clear. */
  lemma AllowedIff(initial: Signals, ops: seq<Op>)
    ensures AllRightThroughout(Created(initial), ops) <==> AllStayClear(Created(initial), ops)
  {
    CreatedInv(initial);
    AllRightThroughoutIff(Created(initial), ops);
  }

  /** Hosts whose pause callbacks never turn reduced motion off get right decisions
      throughout, whatever else happens in the run. */
  lemma TameHostsDecideRight(initial: Signals, ops: seq<Op>)
    requires Tame(ops)
    ensures AllRightThroughout(Created(initial), ops) && DecidesRight(Run(Created(initial), ops))
  {
    TameCallbacksStayClear(Created(initial), ops);
    EveryRunKeepsInv(initial, ops);
    AllowedIff(initial, ops);
  }

  /** A pause callback that turns reduced motion on, plays and turns it off again: its Play
      outlives the activation, and autoplay is allowed without an opt-in. */
  function PlayingCallback(): seq<Op> {
    [SetPrefersReducedMotion(true, []), Do(NotifyExplicitPlay), SetPrefersReducedMotion(false, [])]
  }

  lemma CallbackPlayOutlivesActivation()
    ensures var s := Apply(Created(Signals(true, true, false)), SetPrefersReducedMotion(true, PlayingCallback()));
            s.signals.prefersReducedMotion && GetDecision(s).allowed && !OptedIn(s.trace)
  {
    var start, calls := Created(Signals(true, true, false)), PlayingCallback();
    assert calls[..2][..1] == calls[..1] && calls[..1][..0] == [];
    assert Run(start, calls[..1]) == Apply(start, calls[0]);
    OptedInIff(Run(start, calls).trace, Activated);
  }

  /** Until disposal, whatever calls the pause callbacks make, `onChange` was last given the
      decision that `getDecision` returns now. */
  lemma LastEmissionIsTheDecision(initial: Signals, ops: seq<Op>)
    requires !Run(Created(initial), ops).disposed
    ensures var s := Run(Created(initial), ops);
            GetDecision(s) == if s.emitted == [] then GetDecision(Created(initial)) else s.emitted[|s.emitted| - 1]
  {
    CreatedInv(initial);
    RunKeepsReported(Created(initial), ops, initial);
  }

  /** A disposed session emits nothing more. */
  lemma {:induction false} DisposedIsSilent(s: Session, ops: seq<Op>)
    requires s.disposed
    ensures Run(s, ops).disposed && Run(s, ops).emitted == s.emitted && Run(s, ops).signals == s.signals
  {
    if ops != [] {
      DisposedIsSilent(s, ops[..|ops| - 1]);
    }
  }

  // ----- The session object -----

  class AutoplayGateSession {
    var disposed: bool
    var signals: Signals
    var explicitPlay: bool
    ghost var emitted: seq<Decision>
    ghost var trace: seq<Mark>

    constructor (initial: Signals)
      ensures View() == Created(initial)
    {
      disposed, signals, explicitPlay := false, initial, false;
      emitted, trace := [], [];
    }

    ghost function View(): Session
      reads this
    {
      Session(disposed, signals, explicitPlay, emitted, trace)
    }

    method CurrentDecision() returns (d: Decision)
      ensures d == GetDecision(View())
    {
      d := Decide(signals, explicitPlay);
    }

    /** `change` is the decision handed to `onChange`, if it is called. */
    method EmitDecision() returns (change: Option<Decision>)
      modifies this`emitted
      ensures View() == Emit(old(View()))
      ensures change == if disposed then None else Some(GetDecision(View()))
    {
      if disposed {
        return None;
      }
      var d := Decide(signals, explicitPlay);
      emitted := emitted + [d];
      change := Some(d);
    }

    method ChangeSignals(next: Signals) returns (change: Option<Decision>)
      modifies this
      ensures View() == UpdateSignals(old(View()), next)
      ensures change == if next == old(signals) || disposed then None else Some(GetDecision(View()))
    {
      if next == signals {
        return None;
      }
      if next.prefersReducedMotion && !signals.prefersReducedMotion {
        trace := trace + [Activated];
      }
      signals := next;
      change := EmitDecision();
    }

    method Perform(op: Plain) returns (change: Option<Decision>)
      modifies this
      ensures View() == ApplyPlain(old(View()), op)
      ensures change == if |emitted| > |old(emitted)| then Some(GetDecision(View())) else None
    {
      change := None;
      if disposed && op != DisposeSession {
        return;
      }
      match op
      case SetDocumentVisible(visible) => change := ChangeSignals(signals.(documentVisible := visible));
      case SetIntersecting(intersecting) => change := ChangeSignals(signals.(intersecting := intersecting));
      case NotifyExplicitPlay =>
        trace := trace + [Played];
        if signals.prefersReducedMotion && !explicitPlay {
          explicitPlay := true;
          change := EmitDecision();
        }
      case NotifyStopped =>
        trace := trace + [Stopped];
        if explicitPlay {
          explicitPlay := false;
          change := EmitDecision();
        }
      case DisposeSession =>
        disposed := true;
        explicitPlay := false;
        trace := trace + [Stopped];
    }

    /** `callback` is what the host's `onRequestPause` does to this session. */
    method ChangeReducedMotion(reduce: bool, callback: seq<Op>)
      returns (pauseRequested: bool, change: Option<Decision>)
      modifies this
      ensures View() == Apply(old(View()), SetPrefersReducedMotion(reduce, callback))
      ensures pauseRequested <==> !old(disposed) && reduce && !old(signals).prefersReducedMotion
      ensures change.Some? ==> change.value == GetDecision(View())
      ensures callback == [] ==> change.Some? == (!disposed && reduce != old(signals).prefersReducedMotion)
      decreases callback, 1
    {
      pauseRequested, change := false, None;
      if disposed {
        return;
      }
      if reduce && !signals.prefersReducedMotion {
        explicitPlay := false;
        pauseRequested := true;
        ghost var cleared := View();
        for i := 0 to |callback|
          invariant View() == Run(cleared, callback[..i])
        {
          assert callback[..i + 1][..i] == callback[..i];
          CallBack(callback[i]);
        }
        assert callback[..|callback|] == callback;
      }
      change := ChangeSignals(signals.(prefersReducedMotion := reduce));
    }

    /** One call made from inside `onRequestPause`. */
    method CallBack(op: Op)
      modifies this
      ensures View() == Apply(old(View()), op)
      decreases op, 0
    {
      match op
      case Do(plain) => var _ := Perform(plain);
      case SetPrefersReducedMotion(reduce, onRequestPause) =>
        var _, _ := ChangeReducedMotion(reduce, onRequestPause);
    }
  }
}
