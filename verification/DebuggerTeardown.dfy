/** What may still be sent after the circuit breaker has tripped: nothing for probes that were registered then;
    one event at most for each recorded activation of a probe that had been removed before. */
module DebuggerTeardown {
  import opened Debugger
  import opened DebuggerRegistry
  import opened DebuggerDelivery
  import opened DebuggerStacks
  import opened DebuggerTheorems

  /** The entry on top of a probe's stack is a recorded activation. */
  predicate HasRecordedTop(probe: Probe) {
    probe.entries != [] && !probe.entries[|probe.entries| - 1].skipped
  }

  /** The innermost call returns or throws, and a probe on its list reports its recorded activation. */
  predicate Emits(s: State, a: Action, p: nat) {
    && a.Exit? && s.calls != [] && p in ListOf(s, Top(s).list) && p < |s.probes|
    && HasRecordedTop(s.probes[p]) && a.onExit(p) == Report
  }

  // ---- One exit -------------------------------------------------------------------------------------

  lemma ExitProbeSends(s: State, p: nat, outcome: ExitOutcome, todo: seq<nat>, done: seq<nat>)
    requires Inv(s, done) && ToExit(s, todo, done) && p in todo
    ensures
      var a, b := s.probes[p], ExitProbe(s, p, outcome).probes[p];
      && b.eventsSent == a.eventsSent + (if HasRecordedTop(a) && outcome == Report then 1 else 0)
      && Recorded(b.entries) == Recorded(a.entries) - (if HasRecordedTop(a) then 1 else 0)
  {
    var popped := Popped(s, p);
    PopKeepsRegistry(s, p);
    SendTouches(popped, p);
  }

  lemma {:induction false} ExitProbesSend(s: State, todo: seq<nat>, done: seq<nat>, onExit: nat -> ExitOutcome, p: nat)
    requires Inv(s, done) && ToExit(s, todo, done) && p < |s.probes|
    ensures
      var t := ExitProbes(s, todo, onExit);
      && |t.probes| == |s.probes|
      && var a, b := s.probes[p], t.probes[p];
         && (p !in todo ==> b == a)
         && (p in todo ==>
               && b.eventsSent == a.eventsSent + (if HasRecordedTop(a) && onExit(p) == Report then 1 else 0)
               && Recorded(b.entries) == Recorded(a.entries) - (if HasRecordedTop(a) then 1 else 0))
    decreases |todo|
  {
    if todo != [] {
      var q, rest := todo[0], todo[1..];
      assert [q] + rest == todo;
      assert CallOk(s, Top(s));
      var t := ExitProbe(s, q, onExit(q));
      ExitProbeKeepsInv(s, q, onExit(q), todo, done);
      StillToExit(s, t, q, rest, done);
      ExitProbesSend(t, rest, done + [q], onExit, p);
      if p == q {
        ExitProbeSends(s, p, onExit(p), todo, done);
      }
    }
  }

  /** An exit sends exactly one event for each probe that reports, whether the breaker has tripped or not. */
  lemma ExitSendsExactly(actions: seq<Action>, onExit: nat -> ExitOutcome, p: nat, maxUnreachable: int)
    requires p < |Run(actions, maxUnreachable).probes|
    ensures
      var s := Run(actions, maxUnreachable);
      var t := Step(s, Exit(onExit), maxUnreachable);
      && |t.probes| == |s.probes|
      && t.probes[p].eventsSent == s.probes[p].eventsSent + (if Emits(s, Exit(onExit), p) then 1 else 0)
      && Recorded(t.probes[p].entries) + (if Emits(s, Exit(onExit), p) then 1 else 0) <= Recorded(s.probes[p].entries)
  {
    RunKeepsInv(actions, maxUnreachable);
    var s := Run(actions, maxUnreachable);
    if s.calls != [] {
      ReadyToExit(s);
      ExitProbesSend(s, ListOf(s, Top(s).list), [], onExit, p);
    }
  }

  // ---- After a trip ---------------------------------------------------------------------------------

  lemma TrippedEntersNothing(s: State, functionId: string, onEntry: nat -> EntryOutcome, maxUnreachable: int)
    requires RegistryInv(s) && s.tripped
    ensures Step(s, Enter(functionId, onEntry), maxUnreachable).probes == s.probes
  {}

  /** After a trip an event is sent exactly by a call that leaves a probe with a recorded activation of that
      call, and the probe was not registered when the breaker tripped. */
  lemma TrippedSendsExactly(actions: seq<Action>, a: Action, p: nat, maxUnreachable: int)
    requires Run(actions, maxUnreachable).tripped && p < |Run(actions, maxUnreachable).probes|
    ensures
      var s := Run(actions, maxUnreachable);
      var t := Step(s, a, maxUnreachable);
      && |t.probes| == |s.probes|
      && t.probes[p].eventsSent == s.probes[p].eventsSent + (if Emits(s, a, p) then 1 else 0)
      && (Emits(s, a, p) ==>
            !s.probes[p].cleared && s.probes[p].entries[|s.probes[p].entries| - 1].call == Top(s).number)
      && t.probes[p].eventsSent + Recorded(t.probes[p].entries) <= s.probes[p].eventsSent + Recorded(s.probes[p].entries)
  {
    RunKeepsInv(actions, maxUnreachable);
    var s := Run(actions, maxUnreachable);
    match a
    case Enter(functionId, onEntry) => TrippedEntersNothing(s, functionId, onEntry, maxUnreachable);
    case Exit(onExit) =>
      ExitSendsExactly(actions, onExit, p, maxUnreachable);
      if Emits(s, a, p) {
        ExitPopsItsOwnEntry(actions, p, maxUnreachable);
      }
    case _ =>
  }

  /** Tripping clears the stacks of exactly the probes that are registered. */
  lemma TripClearsRegistered(actions: seq<Action>, a: Action, p: nat, maxUnreachable: int)
    requires
      var s := Run(actions, maxUnreachable);
      !s.tripped && Step(s, a, maxUnreachable).tripped && p < |s.probes|
    ensures
      var s := Run(actions, maxUnreachable);
      var t := Step(s, a, maxUnreachable);
      && |t.probes| == |s.probes|
      && t.probes[p] == if Registered(s, p) then s.probes[p].(entries := [], cleared := true) else s.probes[p]
  {
    RunKeepsInv(actions, maxUnreachable);
    StepKeepsTrip(Run(actions, maxUnreachable), a, maxUnreachable);
  }

  lemma StepKeepsTrip(s: State, a: Action, maxUnreachable: int)
    requires Inv(s, []) && !s.tripped && Step(s, a, maxUnreachable).tripped
    ensures a.PollRejected? || a.PollFailed?
    ensures Step(s, a, maxUnreachable) == Trip(s)
  {
    match a
    case PollSucceeded(deletions, updates) => PollKeepsInv(s, deletions, updates, maxUnreachable);
    case Enter(functionId, onEntry) => EnterKeepsInv(s, functionId, onEntry, maxUnreachable);
    case Exit(onExit) => ExitKeepsInv(s, onExit, maxUnreachable);
    case _ =>
  }

  /** A probe that the trip tore down sends nothing more; another one no more than its recorded activations. */
  lemma {:induction false} SendsAfterTrip(before: seq<Action>, after: seq<Action>, p: nat, maxUnreachable: int)
    requires Run(before, maxUnreachable).tripped && p < |Run(before, maxUnreachable).probes|
    ensures
      var s, t := Run(before, maxUnreachable), Run(before + after, maxUnreachable);
      && t.tripped && |t.probes| == |s.probes|
      && t.probes[p].eventsSent + Recorded(t.probes[p].entries) <= s.probes[p].eventsSent + Recorded(s.probes[p].entries)
      && (s.probes[p].cleared ==> t.probes[p].eventsSent == s.probes[p].eventsSent)
    decreases |after|
  {
    if after == [] {
      assert before + after == before;
    } else {
      var n := |after| - 1;
      var actions := before + after[..n];
      assert (before + after)[..|before + after| - 1] == actions && (before + after)[|before + after| - 1] == after[n];
      SendsAfterTrip(before, after[..n], p, maxUnreachable);
      RunKeepsInv(actions, maxUnreachable);
      StepKeepsInv(Run(actions, maxUnreachable), after[n], maxUnreachable);
      TrippedSendsExactly(actions, after[n], p, maxUnreachable);
      if Run(before, maxUnreachable).probes[p].cleared {
        TornDownHoldsNothing(before, p, maxUnreachable);
      }
    }
  }

  lemma TornDownHoldsNothing(actions: seq<Action>, p: nat, maxUnreachable: int)
    requires p < |Run(actions, maxUnreachable).probes| && Run(actions, maxUnreachable).probes[p].cleared
    ensures Recorded(Run(actions, maxUnreachable).probes[p].entries) == 0
  {
    RunKeepsInv(actions, maxUnreachable);
    var s := Run(actions, maxUnreachable);
    assert ProbeOk(s, p);
    assert |Numbers(s.probes[p].entries)| == 0;
  }

  // ---- An activation that sends after the trip --------------------------------------------------------

  function Deployed(): State {
    State([Probe("a", "f", 10, 0, [], false, 0)], [[0]], map["f" := 0], map["a" := "f"], {"a"}, Never, false, 0, [])
  }

  function InCall(): State {
    Deployed().(probes := [Probe("a", "f", 10, 0, [Entry(0, false)], false, 0)], callCount := 1,
                calls := [Call(0, ListAt(0), {0})])
  }

  function Undeployed(): State {
    InCall().(active := map[], functionOf := map[], known := {})
  }

  lemma DeployStep(maxUnreachable: int)
    ensures Step(Init(), PollSucceeded([], [Update("a", "f", 10, true, true)]), maxUnreachable) == Deployed()
  {
    var u := Update("a", "f", 10, true, true);
    assert [u][1..] == [];
    assert Apply(Init(), u) == Deployed();
  }

  lemma EnterStep(onEntry: nat -> EntryOutcome, maxUnreachable: int)
    requires onEntry(0) == Record
    ensures Step(Deployed(), Enter("f", onEntry), maxUnreachable) == InCall()
  {
    var entered := EnterCall(Deployed(), "f");
    assert ListOf(entered, entered.calls[0].list) == [0] && [0][1..] == [];
    assert entered.calls == [Call(0, ListAt(0), {})];
    assert [] + [Entry(0, false)] == [Entry(0, false)] && {} + {0} == {0};
    assert PushEntry(entered, 0, 0, false).probes == InCall().probes;
    assert Cover(PushEntry(entered, 0, 0, false), 0).calls == InCall().calls;
    assert EnterProbe(entered, 0, Record) == InCall();
    assert EnterProbes(InCall(), [], onEntry) == InCall();
  }

  lemma UndeployStep(maxUnreachable: int)
    ensures Step(InCall(), PollSucceeded(["a"], []), maxUnreachable) == Undeployed()
  {
    var s := InCall();
    assert IndexOfId(s.probes, [0], "a") == 0;
    assert [0][..0] + [0][1..] == [];
    assert s.active - {"f"} == map[] && s.functionOf - {"a"} == map[] && s.known - {"a"} == {};
    assert RemoveById(s, "a") == Removed(s.(active := map[], functionOf := map[]));
    assert ["a"][1..] == [];
    assert Delete(s, "a") == Undeployed();
  }

  lemma TripStep(maxUnreachable: int)
    ensures
      var s := Step(Undeployed(), PollRejected(403, 0), maxUnreachable);
      s.tripped && s.probes == Undeployed().probes && s.lists == Undeployed().lists && s.calls == Undeployed().calls
  {
    assert !Registered(Undeployed(), 0);
    assert ClearProbes(Undeployed()).probes == Undeployed().probes;
  }

  /** A probe that a poll removed during a call still sends that call's event when the breaker has tripped. */
  lemma RemovedProbeStillSends(onEntry: nat -> EntryOutcome, onExit: nat -> ExitOutcome, maxUnreachable: int)
    requires onEntry(0) == Record && onExit(0) == Report
    ensures
      var u := Update("a", "f", 10, true, true);
      var actions := [PollSucceeded([], [u]), Enter("f", onEntry), PollSucceeded(["a"], []), PollRejected(403, 0)];
      var s := Run(actions, maxUnreachable);
      && s.tripped && |s.probes| == 1 && s.probes[0].eventsSent == 0
      && |Step(s, Exit(onExit), maxUnreachable).probes| == 1
      && Step(s, Exit(onExit), maxUnreachable).probes[0].eventsSent == 1
  {
    var u := Update("a", "f", 10, true, true);
    var a1 := [PollSucceeded([], [u])];
    var a2 := a1 + [Enter("f", onEntry)];
    var a3 := a2 + [PollSucceeded(["a"], [])];
    var a4 := a3 + [PollRejected(403, 0)];
    assert a1[..0] == [] && a2[..1] == a1 && a3[..2] == a2 && a4[..3] == a3;
    assert Run([], maxUnreachable) == Init();
    DeployStep(maxUnreachable);
    assert Run(a1, maxUnreachable) == Deployed();
    EnterStep(onEntry, maxUnreachable);
    assert Run(a2, maxUnreachable) == InCall();
    UndeployStep(maxUnreachable);
    assert Run(a3, maxUnreachable) == Undeployed();
    TripStep(maxUnreachable);
    ExitSendsExactly(a4, onExit, 0, maxUnreachable);
    assert a4 == [PollSucceeded([], [u]), Enter("f", onEntry), PollSucceeded(["a"], []), PollRejected(403, 0)];
  }
}
