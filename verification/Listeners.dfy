/** Subscribed listeners of the gate session when `onChange` calls back into the session. An
    emission first runs `onChange`, whose own calls may emit again, and only then tells the
    listeners: those hear the inner decision before the outer one. */
module Listeners {
  import opened Common
  import G = Gates

  datatype Op = Plain(op: G.Plain) | Motion(reduce: bool)

  /** A call of the session together with the calls `onChange` makes if the call emits. */
  datatype Call = Call(op: Op, onChange: seq<Call>)

  function ApplyOp(s: G.Session, op: Op): G.Session {
    match op
    case Plain(plain) => G.Apply(s, G.Do(plain))
    case Motion(reduce) => G.Apply(s, G.SetPrefersReducedMotion(reduce, []))
  }

  predicate Emits(s: G.Session, op: Op) {
    |ApplyOp(s, op).emitted| > |s.emitted|
  }

  /** The session, and what a listener subscribed from the start has heard. */
  datatype State = State(session: G.Session, heard: seq<G.Decision>)

  /** The session after a call and everything `onChange` does during it. */
  function After(s: G.Session, c: Call): G.Session
    decreases c, 0
  {
    if Emits(s, c.op) then AfterAll(ApplyOp(s, c.op), c.onChange) else ApplyOp(s, c.op)
  }

  function AfterAll(s: G.Session, calls: seq<Call>): G.Session
    decreases calls, |calls|
  {
    if calls == [] then s else After(AfterAll(s, calls[..|calls| - 1]), calls[|calls| - 1])
  }

  /** The listener is told last, of the decision of this call; disposal unsubscribes it. */
  function Perform(t: State, c: Call): State
    decreases c, 0
  {
    if !Emits(t.session, c.op) then t.(session := ApplyOp(t.session, c.op))
    else
      var inner := PerformAll(t.(session := ApplyOp(t.session, c.op)), c.onChange);
      if inner.session.disposed then inner
      else inner.(heard := inner.heard + [G.GetDecision(ApplyOp(t.session, c.op))])
  }

  function PerformAll(t: State, calls: seq<Call>): State
    decreases calls, |calls|
  {
    if calls == [] then t else Perform(PerformAll(t, calls[..|calls| - 1]), calls[|calls| - 1])
  }

  lemma {:induction false} PerformRunsSession(t: State, c: Call)
    ensures Perform(t, c).session == After(t.session, c)
    decreases c, 0
  {
    if Emits(t.session, c.op) {
      PerformAllRunsSession(t.(session := ApplyOp(t.session, c.op)), c.onChange);
    }
  }

  lemma {:induction false} PerformAllRunsSession(t: State, calls: seq<Call>)
    ensures PerformAll(t, calls).session == AfterAll(t.session, calls)
    decreases calls, |calls|
  {
    if calls != [] {
      PerformAllRunsSession(t, calls[..|calls| - 1]);
      PerformRunsSession(PerformAll(t, calls[..|calls| - 1]), calls[|calls| - 1]);
    }
  }

  // ----- onChange itself -----

  lemma ApplyOpKeepsInv(s: G.Session, op: Op, initial: G.Signals)
    requires G.Inv(s, initial)
    ensures G.Inv(ApplyOp(s, op), initial)
  {
    match op
    case Plain(plain) => G.ApplyKeepsInv(s, G.Do(plain), initial);
    case Motion(reduce) => G.ApplyKeepsInv(s, G.SetPrefersReducedMotion(reduce, []), initial);
  }

  lemma {:induction false} AfterKeepsInv(s: G.Session, c: Call, initial: G.Signals)
    requires G.Inv(s, initial)
    ensures G.Inv(After(s, c), initial)
    decreases c, 0
  {
    ApplyOpKeepsInv(s, c.op, initial);
    if Emits(s, c.op) {
      AfterAllKeepsInv(ApplyOp(s, c.op), c.onChange, initial);
    }
  }

  lemma {:induction false} AfterAllKeepsInv(s: G.Session, calls: seq<Call>, initial: G.Signals)
    requires G.Inv(s, initial)
    ensures G.Inv(AfterAll(s, calls), initial)
    decreases calls, |calls|
  {
    if calls != [] {
      AfterAllKeepsInv(s, calls[..|calls| - 1], initial);
      AfterKeepsInv(AfterAll(s, calls[..|calls| - 1]), calls[|calls| - 1], initial);
    }
  }

  ghost predicate MayPlay(s: G.Session) {
    && s.signals.documentVisible && s.signals.intersecting
    && (s.signals.prefersReducedMotion ==> G.OptedIn(s.trace))
  }

  /** However `onChange` calls back, until disposal the last decision it was told is the
      current one, and the opt-in means what it means without re-entrancy. */
  lemma OnChangeHearsTheDecision(initial: G.Signals, calls: seq<Call>)
    ensures G.LastEmissionIsCurrent(AfterAll(G.Created(initial), calls), initial)
    ensures G.GetDecision(AfterAll(G.Created(initial), calls)).allowed <==> MayPlay(AfterAll(G.Created(initial), calls))
  {
    G.EveryRunKeepsInv(initial, []);
    AfterAllKeepsInv(G.Created(initial), calls, initial);
  }

  // ----- subscribed listeners -----

  /** What the listener last heard is the current decision. */
  ghost predicate IsCurrent(t: State, initial: G.Signals) {
    !t.session.disposed ==>
      G.GetDecision(t.session) == if t.heard == [] then G.Decide(initial, false) else t.heard[|t.heard| - 1]
  }

  /** Visibility, intersection and reduced motion are as they were at `told`, and under
      reduced motion so is the user's opt-in. */
  ghost predicate AsTold(told: G.Session, s: G.Session) {
    && s.signals == told.signals
    && (told.signals.prefersReducedMotion ==> (G.OptedIn(s.trace) <==> G.OptedIn(told.trace)))
  }

  /** The calls that `onChange` makes during `c` undo among themselves what they do to the
      signals and to the opt-in that counts, or dispose the session. */
  ghost predicate Settles(s: G.Session, c: Call) {
    Emits(s, c.op) && !After(s, c).disposed ==> AsTold(ApplyOp(s, c.op), After(s, c))
  }

  lemma SameDecisionIffAsTold(told: G.Session, s: G.Session, initial: G.Signals)
    requires G.Inv(told, initial) && G.Inv(s, initial)
    ensures G.GetDecision(s) == G.GetDecision(told) <==> AsTold(told, s)
  {
  }

  lemma SilentCallKeepsDecision(s: G.Session, op: Op, initial: G.Signals)
    requires G.Inv(s, initial) && !Emits(s, op) && !ApplyOp(s, op).disposed
    ensures G.GetDecision(ApplyOp(s, op)) == G.GetDecision(s) && !s.disposed
  {
    if op.Motion? {
      assert G.Run(G.Clear(s), []) == G.Clear(s);
    }
  }

  /** A listener still subscribed after an emitting call heard that call's decision last. */
  lemma EmittingCallTells(t: State, c: Call)
    requires Emits(t.session, c.op) && !After(t.session, c).disposed
    ensures var heard := Perform(t, c).heard;
      heard != [] && heard[|heard| - 1] == G.GetDecision(ApplyOp(t.session, c.op))
  {
    PerformRunsSession(t, c);
  }

  /** What a listener hears of a call: nothing if the call changes no decision; else what the
      calls that `onChange` makes tell it, and then the decision of this call, unless the
      session was disposed meanwhile. */
  lemma CallTells(t: State, c: Call)
    ensures var told := ApplyOp(t.session, c.op);
      if told.emitted == t.session.emitted then Perform(t, c) == State(told, t.heard)
      else
        var inner := PerformAll(State(told, t.heard), c.onChange);
        && Perform(t, c).session == inner.session
        && Perform(t, c).heard == if inner.session.disposed then inner.heard
                                  else inner.heard + [G.GetDecision(told)]
  {
  }

  lemma EmittingCallKeepsCurrentIff(t: State, c: Call, initial: G.Signals)
    requires G.Inv(t.session, initial) && Emits(t.session, c.op)
    ensures IsCurrent(Perform(t, c), initial) <==> Settles(t.session, c)
  {
    PerformRunsSession(t, c);
    ApplyOpKeepsInv(t.session, c.op, initial);
    AfterKeepsInv(t.session, c, initial);
    SameDecisionIffAsTold(ApplyOp(t.session, c.op), After(t.session, c), initial);
    if !After(t.session, c).disposed {
      EmittingCallTells(t, c);
    }
  }

  lemma CallKeepsCurrentIff(t: State, c: Call, initial: G.Signals)
    requires G.Inv(t.session, initial) && IsCurrent(t, initial)
    ensures IsCurrent(Perform(t, c), initial) <==> Settles(t.session, c)
  {
    if Emits(t.session, c.op) {
      EmittingCallKeepsCurrentIff(t, c, initial);
    } else if !ApplyOp(t.session, c.op).disposed {
      SilentCallKeepsDecision(t.session, c.op, initial);
    }
  }

  ghost predicate CurrentUpTo(t: State, calls: seq<Call>, initial: G.Signals, n: nat)
    requires n <= |calls|
  {
    forall k :: 0 <= k <= n ==> IsCurrent(PerformAll(t, calls[..k]), initial)
  }

  ghost predicate SettleUpTo(s: G.Session, calls: seq<Call>, n: nat)
    requires n <= |calls|
  {
    forall k :: 0 <= k < n ==> Settles(AfterAll(s, calls[..k]), calls[k])
  }

  lemma PerformOneMore(t: State, calls: seq<Call>, n: nat)
    requires n < |calls|
    ensures PerformAll(t, calls[..n + 1]) == Perform(PerformAll(t, calls[..n]), calls[n])
  {
    assert calls[..n + 1][..n] == calls[..n];
  }

  lemma {:induction false} RunIsCurrentIff(initial: G.Signals, calls: seq<Call>, n: nat)
    requires n <= |calls|
    ensures CurrentUpTo(State(G.Created(initial), []), calls, initial, n) <==> SettleUpTo(G.Created(initial), calls, n)
  {
    var start := State(G.Created(initial), []);
    if n == 0 {
      assert calls[..0] == [];
    } else {
      RunIsCurrentIff(initial, calls, n - 1);
      PerformOneMore(start, calls, n - 1);
      PerformAllRunsSession(start, calls[..n - 1]);
      G.EveryRunKeepsInv(initial, []);
      AfterAllKeepsInv(G.Created(initial), calls[..n - 1], initial);
      if CurrentUpTo(start, calls, initial, n - 1) {
        CallKeepsCurrentIff(PerformAll(start, calls[..n - 1]), calls[n - 1], initial);
      }
    }
  }

  /** Over every run a listener stays current between calls exactly when, in every call that
      emits, what `onChange` does leaves signals and opt-in as they were told, or disposes. */
  lemma ListenerIsCurrentIff(initial: G.Signals, calls: seq<Call>)
    ensures CurrentUpTo(State(G.Created(initial), []), calls, initial, |calls|)
       <==> SettleUpTo(G.Created(initial), calls, |calls|)
  {
    RunIsCurrentIff(initial, calls, |calls|);
  }

  lemma PassiveOnChangeSettles(s: G.Session, c: Call)
    requires c.onChange == []
    ensures Settles(s, c)
  {
  }

  /** In particular a listener stays current when `onChange` makes no calls. */
  lemma PassiveListenerIsCurrent(initial: G.Signals, calls: seq<Call>)
    requires forall c :: c in calls ==> c.onChange == []
    ensures CurrentUpTo(State(G.Created(initial), []), calls, initial, |calls|)
  {
    forall k | 0 <= k < |calls| ensures Settles(AfterAll(G.Created(initial), calls[..k]), calls[k]) {
      assert calls[k] in calls;
      PassiveOnChangeSettles(AfterAll(G.Created(initial), calls[..k]), calls[k]);
    }
    ListenerIsCurrentIff(initial, calls);
  }

  /** An `onChange` that makes the page visible again leaves the listener at "hidden". */
  lemma ListenerEndsStale()
    ensures var initial := G.Signals(true, true, false);
      var hiding := Call(Plain(G.SetDocumentVisible(false)), [Call(Plain(G.SetDocumentVisible(true)), [])]);
      var t := Perform(State(G.Created(initial), []), hiding);
      && G.GetDecision(t.session).allowed
      && t.heard == [G.Decide(initial, false), G.Decide(initial.(documentVisible := false), false)]
  {
    var initial := G.Signals(true, true, false);
    var show := Call(Plain(G.SetDocumentVisible(true)), []);
    var hiding := Call(Plain(G.SetDocumentVisible(false)), [show]);
    var hidden := State(ApplyOp(G.Created(initial), hiding.op), []);
    assert [show][..0] == [];
    assert PerformAll(hidden, [show]) == Perform(hidden, show);
  }
}
