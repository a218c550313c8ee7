/** Which activations send an event: from the entry of a call to its exit, whatever polls, trips and calls come
    in between. */
module DebuggerActivations {
  import opened Wrappers
  import opened Debugger
  import opened DebuggerRegistry
  import opened DebuggerDelivery
  import opened DebuggerStacks
  import opened DebuggerTheorems
  import opened DebuggerTeardown

  /** A call of the function meets the probe: it is registered for it and has budget left. */
  predicate Meets(s: State, functionId: string, p: nat) {
    Registered(s, p) && s.probes[p].functionId == functionId && s.probes[p].eventsSent < s.probes[p].limit
  }

  /** Whether the entry of a call on a stack is skipped, if there is one. */
  function FlagOf(entries: seq<Entry>, number: nat): Option<bool> {
    if entries == [] then None
    else
      var last := entries[|entries| - 1];
      if last.call == number then Some(last.skipped) else FlagOf(entries[..|entries| - 1], number)
  }

  // ---- Entry ----------------------------------------------------------------------------------------

  /** What an entry does to one probe: `number` is that of the call. */
  predicate Entered(a: Probe, b: Probe, number: nat, met: bool, outcome: EntryOutcome) {
    && b.entries == (if met then a.entries + [Entry(number, outcome != Record)] else a.entries)
    && b.eventsSent == a.eventsSent + (if met && outcome == SkipAndReportError then 1 else 0)
    && b.cleared == a.cleared && b.limit == a.limit
  }

  lemma EnterProbeEnters(s: State, p: nat, outcome: EntryOutcome)
    requires RegistryInv(s) && p < |s.probes| && s.calls != []
    ensures
      var t := EnterProbe(s, p, outcome);
      var met := s.probes[p].eventsSent < s.probes[p].limit;
      && |t.probes| == |s.probes| && Entered(s.probes[p], t.probes[p], Top(s).number, met, outcome)
      && (p in Top(t).entered <==> p in Top(s).entered || met)
  {
    SendTouches(s, p);
  }

  lemma {:induction false} EnterProbesEnter(s: State, todo: seq<nat>, onEntry: nat -> EntryOutcome, p: nat)
    requires Inv(s, todo) && ToEnter(s, todo) && UnspentOnes(s, todo) && p < |s.probes|
    ensures
      var t := EnterProbes(s, todo, onEntry);
      var met := p in todo && s.probes[p].eventsSent < s.probes[p].limit;
      && |t.probes| == |s.probes| && Entered(s.probes[p], t.probes[p], Top(s).number, met, onEntry(p))
      && |t.calls| == |s.calls| && t.calls[..|s.calls| - 1] == s.calls[..|s.calls| - 1]
      && Top(t).number == Top(s).number && t.callCount == s.callCount
      && (p in Top(t).entered <==> p in Top(s).entered || met)
    decreases |todo|
  {
    if todo != [] {
      var q, rest := todo[0], todo[1..];
      assert [q] + rest == todo;
      assert CallOk(s, Top(s));
      var t := EnterProbe(s, q, onEntry(q));
      EnterProbeKeepsInv(s, q, onEntry(q), rest);
      TouchesKeepsTodo(s, t, q, rest);
      EnterProbesEnter(t, rest, onEntry, p);
      if p == q {
        EnterProbeEnters(s, p, onEntry(p));
        assert p !in rest;
      }
    }
  }

  lemma ListedMeansMet(s: State, functionId: string, p: nat)
    requires RegistryInv(s)
    ensures
      var entered := EnterCall(s, functionId);
      p in ListOf(entered, Top(entered).list) <==> Registered(s, p) && s.probes[p].functionId == functionId
  {
    var entered := EnterCall(s, functionId);
    var list := ListOf(entered, Top(entered).list);
    if p in list {
      var k :| 0 <= k < |list| && list[k] == p;
      RegisteredAt(s, functionId, k);
      assert Mapped(s, functionId, s.lists[s.active[functionId]][k]);
    }
  }

  /** One entry of the new call is left on each probe it meets, and on no other; an event is sent at once
      exactly if the outcome is an error that is reported. */
  lemma EntryIsExact(actions: seq<Action>, functionId: string, onEntry: nat -> EntryOutcome, p: nat, maxUnreachable: int)
    requires p < |Run(actions, maxUnreachable).probes|
    ensures
      var s := Run(actions, maxUnreachable);
      var t := Step(s, Enter(functionId, onEntry), maxUnreachable);
      && |t.probes| == |s.probes|
      && Entered(s.probes[p], t.probes[p], s.callCount, Meets(s, functionId, p), onEntry(p))
      && |t.calls| == |s.calls| + 1 && t.calls[..|s.calls|] == s.calls && Top(t).number == s.callCount
      && t.callCount == s.callCount + 1 && (p in Top(t).entered <==> Meets(s, functionId, p))
  {
    RunKeepsInv(actions, maxUnreachable);
    EntryOf(Run(actions, maxUnreachable), functionId, onEntry, p, maxUnreachable);
  }

  lemma EntryOf(s: State, functionId: string, onEntry: nat -> EntryOutcome, p: nat, maxUnreachable: int)
    requires Inv(s, []) && p < |s.probes|
    ensures
      var t := Step(s, Enter(functionId, onEntry), maxUnreachable);
      && |t.probes| == |s.probes|
      && Entered(s.probes[p], t.probes[p], s.callCount, Meets(s, functionId, p), onEntry(p))
      && |t.calls| == |s.calls| + 1 && t.calls[..|s.calls|] == s.calls && Top(t).number == s.callCount
      && t.callCount == s.callCount + 1 && (p in Top(t).entered <==> Meets(s, functionId, p))
  {
    var entered := EnterCall(s, functionId);
    EnterCallKeepsInv(s, functionId);
    EnterProbesEnter(entered, ListOf(entered, Top(entered).list), onEntry, p);
    ListedMeansMet(s, functionId, p);
    assert entered.calls[..|entered.calls| - 1] == s.calls;
  }

  // ---- Exit -----------------------------------------------------------------------------------------

  /** What an exit does to the stack of one probe. */
  predicate Left(a: Probe, b: Probe, listed: bool) {
    && b.entries == (if listed && a.entries != [] then a.entries[..|a.entries| - 1] else a.entries)
    && b.cleared == a.cleared
  }

  lemma ExitProbeLeaves(s: State, p: nat, outcome: ExitOutcome, todo: seq<nat>, done: seq<nat>)
    requires Inv(s, done) && ToExit(s, todo, done) && p in todo
    ensures Left(s.probes[p], ExitProbe(s, p, outcome).probes[p], true)
  {
    PopKeepsRegistry(s, p);
    SendTouches(Popped(s, p), p);
  }

  lemma {:induction false} ExitProbesLeave(s: State, todo: seq<nat>, done: seq<nat>, onExit: nat -> ExitOutcome, p: nat)
    requires Inv(s, done) && ToExit(s, todo, done) && p < |s.probes|
    ensures
      var t := ExitProbes(s, todo, onExit);
      |t.probes| == |s.probes| && Left(s.probes[p], t.probes[p], p in todo)
    decreases |todo|
  {
    if todo != [] {
      var q, rest := todo[0], todo[1..];
      assert [q] + rest == todo;
      assert CallOk(s, Top(s));
      var t := ExitProbe(s, q, onExit(q));
      ExitProbeKeepsInv(s, q, onExit(q), todo, done);
      StillToExit(s, t, q, rest, done);
      ExitProbesLeave(t, rest, done + [q], onExit, p);
      if p == q {
        ExitProbeLeaves(s, p, onExit(p), todo, done);
        assert p !in rest;
      }
    }
  }

  /** An exit pops entries of its own call only. */
  lemma ExitKeepsFlags(s: State, onExit: nat -> ExitOutcome, p: nat, number: nat, maxUnreachable: int)
    requires Inv(s, []) && s.calls != [] && p < |s.probes| && Top(s).number != number
    ensures
      var t := Step(s, Exit(onExit), maxUnreachable);
      && |t.probes| == |s.probes| && t.probes[p].cleared == s.probes[p].cleared
      && FlagOf(t.probes[p].entries, number) == FlagOf(s.probes[p].entries, number)
      && t.calls == s.calls[..|s.calls| - 1] && t.callCount == s.callCount
  {
    var list := ListOf(s, Top(s).list);
    ReadyToExit(s);
    ExitProbesLeave(s, list, [], onExit, p);
    ExitingCalls(s, onExit, maxUnreachable);
    if p in list {
      TopEntryIsOwn(s, p, list, []);
    }
  }

  // ---- Between entry and exit -------------------------------------------------------------------------

  /** The call at position `depth` of the running calls is the one with that number, which entered the probe
      exactly if `flag` is given; its entry is still there, unless the probe was torn down. */
  ghost predicate Follow(s: State, number: nat, depth: nat, p: nat, flag: Option<bool>) {
    && number < s.callCount && (flag.Some? ==> p < |s.probes|)
    && (forall k | 0 <= k < |s.calls| && s.calls[k].number == number :: k == depth)
    && (depth < |s.calls| && s.calls[depth].number == number && p < |s.probes| ==>
          && (p in s.calls[depth].entered <==> flag.Some?)
          && FlagOf(s.probes[p].entries, number) == if s.probes[p].cleared then None else flag)
  }

  ghost predicate NumbersBelow(s: State) {
    forall k | 0 <= k < |s.calls| :: s.calls[k].number < s.callCount
  }

  lemma PollGrows(s: State, deletions: seq<string>, updates: seq<Update>, maxUnreachable: int)
    requires Inv(s, []) && !s.tripped
    ensures Grows(s, Step(s, PollSucceeded(deletions, updates), maxUnreachable))
  {
    RegistryRefines(s);
    var m := Registry(s);
    DeleteAllDelivers(s, deletions, m);
    var deleted := DeleteAll(s, deletions);
    ApplyAllDelivers(deleted, updates, AfterDeletions(m, deletions));
    GrowsTransitive(s, deleted, ApplyAll(deleted, updates));
  }

  lemma {:induction false} NumbersStayBelow(actions: seq<Action>, maxUnreachable: int)
    ensures NumbersBelow(Run(actions, maxUnreachable))
  {
    if actions != [] {
      var before, a := actions[..|actions| - 1], actions[|actions| - 1];
      var s := Run(before, maxUnreachable);
      NumbersStayBelow(before, maxUnreachable);
      RunKeepsInv(before, maxUnreachable);
      StepKeepsNumbers(s, a, maxUnreachable);
    }
  }

  lemma StepKeepsNumbers(s: State, a: Action, maxUnreachable: int)
    requires Inv(s, []) && NumbersBelow(s)
    ensures NumbersBelow(Step(s, a, maxUnreachable))
  {
    var t := Step(s, a, maxUnreachable);
    if a.Enter? {
      EnteringCalls(s, a.functionId, a.onEntry, maxUnreachable);
      MoreNumbersBelow(s, t);
    } else if a.Exit? {
      if s.calls != [] {
        ExitingCalls(s, a.onExit, maxUnreachable);
      }
    } else {
      PollsKeepCalls(s, a, maxUnreachable);
    }
  }

  lemma MoreNumbersBelow(s: State, t: State)
    requires NumbersBelow(s) && t.callCount == s.callCount + 1
    requires |t.calls| == |s.calls| + 1 && t.calls[..|s.calls|] == s.calls && t.calls[|s.calls|].number == s.callCount
    ensures NumbersBelow(t)
  {
    assert forall k | 0 <= k < |s.calls| :: t.calls[k] == t.calls[..|s.calls|][k] == s.calls[k];
  }

  lemma PollsKeepCalls(s: State, a: Action, maxUnreachable: int)
    requires Inv(s, []) && !a.Enter? && !a.Exit?
    ensures Step(s, a, maxUnreachable).calls == s.calls && Step(s, a, maxUnreachable).callCount == s.callCount
  {
    if a.PollSucceeded? && !s.tripped {
      PollGrows(s, a.deletions, a.updates, maxUnreachable);
    }
  }

  lemma EnteringCalls(s: State, functionId: string, onEntry: nat -> EntryOutcome, maxUnreachable: int)
    requires Inv(s, [])
    ensures
      var t := Step(s, Enter(functionId, onEntry), maxUnreachable);
      && |t.calls| == |s.calls| + 1 && t.calls[..|s.calls|] == s.calls
      && t.calls[|s.calls|].number == s.callCount && t.callCount == s.callCount + 1
  {
    var entered := EnterCall(s, functionId);
    EnterCallKeepsInv(s, functionId);
    EnterProbesKeepCalls(entered, ListOf(entered, Top(entered).list), onEntry);
    assert entered.calls[..|entered.calls| - 1] == s.calls;
  }

  lemma {:induction false} EnterProbesKeepCalls(s: State, todo: seq<nat>, onEntry: nat -> EntryOutcome)
    requires Inv(s, todo) && ToEnter(s, todo) && UnspentOnes(s, todo)
    ensures
      var t := EnterProbes(s, todo, onEntry);
      && |t.calls| == |s.calls| && t.calls[..|s.calls| - 1] == s.calls[..|s.calls| - 1]
      && Top(t).number == Top(s).number && t.callCount == s.callCount
    decreases |todo|
  {
    if todo != [] {
      var q, rest := todo[0], todo[1..];
      assert [q] + rest == todo;
      assert CallOk(s, Top(s));
      var t := EnterProbe(s, q, onEntry(q));
      EnterProbeKeepsInv(s, q, onEntry(q), rest);
      TouchesKeepsTodo(s, t, q, rest);
      EnterProbesKeepCalls(t, rest, onEntry);
    }
  }

  lemma ExitingCalls(s: State, onExit: nat -> ExitOutcome, maxUnreachable: int)
    requires Inv(s, []) && s.calls != []
    ensures
      var t := Step(s, Exit(onExit), maxUnreachable);
      t.calls == s.calls[..|s.calls| - 1] && t.callCount == s.callCount
  {
    ReadyToExit(s);
    ExitProbesKeepCalls(s, ListOf(s, Top(s).list), [], onExit);
  }

  lemma {:induction false} ExitProbesKeepCalls(s: State, todo: seq<nat>, done: seq<nat>, onExit: nat -> ExitOutcome)
    requires Inv(s, done) && ToExit(s, todo, done)
    ensures
      var t := ExitProbes(s, todo, onExit);
      t.calls[..|s.calls| - 1] == s.calls[..|s.calls| - 1] && t.callCount == s.callCount
    decreases |todo|
  {
    if todo != [] {
      var q, rest := todo[0], todo[1..];
      assert [q] + rest == todo;
      assert CallOk(s, Top(s));
      var t := ExitProbe(s, q, onExit(q));
      ExitProbeKeepsInv(s, q, onExit(q), todo, done);
      StillToExit(s, t, q, rest, done);
      ExitProbesKeepCalls(t, rest, done + [q], onExit);
    }
  }

  lemma PushKeepsFlags(entries: seq<Entry>, e: Entry, number: nat)
    ensures FlagOf(entries + [e], number) == if e.call == number then Some(e.skipped) else FlagOf(entries, number)
  {
    assert (entries + [e])[..|entries|] == entries;
  }

  lemma StillFollows(s: State, t: State, number: nat, depth: nat, p: nat, flag: Option<bool>)
    requires Follow(s, number, depth, p, flag) && |t.probes| == |s.probes|
    requires |t.calls| == |s.calls| + 1 && t.calls[..|s.calls|] == s.calls && t.calls[|s.calls|].number == s.callCount
    requires t.callCount == s.callCount + 1
    requires p < |s.probes| ==>
               && t.probes[p].cleared == s.probes[p].cleared
               && FlagOf(t.probes[p].entries, number) == FlagOf(s.probes[p].entries, number)
    ensures Follow(t, number, depth, p, flag)
  {
    assert forall k | 0 <= k < |s.calls| :: t.calls[k] == t.calls[..|s.calls|][k] == s.calls[k];
  }

  lemma EnterKeepsFlags(actions: seq<Action>, a: Action, number: nat, p: nat, maxUnreachable: int)
    requires a.Enter? && number < Run(actions, maxUnreachable).callCount
    ensures
      var s := Run(actions, maxUnreachable);
      var t := Step(s, a, maxUnreachable);
      && |t.probes| == |s.probes|
      && (p < |s.probes| ==>
            && t.probes[p].cleared == s.probes[p].cleared
            && FlagOf(t.probes[p].entries, number) == FlagOf(s.probes[p].entries, number))
  {
    var s := Run(actions, maxUnreachable);
    if p < |s.probes| {
      EntryIsExact(actions, a.functionId, a.onEntry, p, maxUnreachable);
      PushKeepsFlags(s.probes[p].entries, Entry(s.callCount, a.onEntry(p) != Record), number);
    } else {
      var entered := EnterCall(s, a.functionId);
      EnterProbesKeepCount(entered, ListOf(entered, Top(entered).list), a.onEntry);
    }
  }

  lemma EnterFollows(actions: seq<Action>, a: Action, number: nat, depth: nat, p: nat, flag: Option<bool>, maxUnreachable: int)
    requires a.Enter? && Follow(Run(actions, maxUnreachable), number, depth, p, flag)
    ensures Follow(Step(Run(actions, maxUnreachable), a, maxUnreachable), number, depth, p, flag)
  {
    RunKeepsInv(actions, maxUnreachable);
    var s := Run(actions, maxUnreachable);
    EnteringCalls(s, a.functionId, a.onEntry, maxUnreachable);
    EnterKeepsFlags(actions, a, number, p, maxUnreachable);
    StillFollows(s, Step(s, a, maxUnreachable), number, depth, p, flag);
  }

  lemma {:induction false} EnterProbesKeepCount(s: State, todo: seq<nat>, onEntry: nat -> EntryOutcome)
    requires s.calls != []
    ensures |EnterProbes(s, todo, onEntry).probes| == |s.probes|
    decreases |todo|
  {
    if todo != [] {
      EnterProbesKeepCount(if todo[0] < |s.probes| then EnterProbe(s, todo[0], onEntry(todo[0])) else s, todo[1..], onEntry);
    }
  }

  lemma ExitFollows(s: State, a: Action, number: nat, depth: nat, p: nat, flag: Option<bool>, maxUnreachable: int)
    requires Inv(s, []) && a.Exit? && Follow(s, number, depth, p, flag)
    ensures Follow(Step(s, a, maxUnreachable), number, depth, p, flag)
  {
    var t := Step(s, a, maxUnreachable);
    if s.calls != [] {
      ExitingCalls(s, a.onExit, maxUnreachable);
      if p < |s.probes| && Top(s).number != number {
        ExitKeepsFlags(s, a.onExit, p, number, maxUnreachable);
      } else {
        ReadyToExit(s);
        ExitProbesKeepCount(s, ListOf(s, Top(s).list), a.onExit);
      }
    }
  }

  lemma {:induction false} ExitProbesKeepCount(s: State, todo: seq<nat>, onExit: nat -> ExitOutcome)
    requires s.calls != []
    ensures |ExitProbes(s, todo, onExit).probes| == |s.probes|
    decreases |todo|
  {
    if todo != [] {
      ExitProbesKeepCount(if todo[0] < |s.probes| then ExitProbe(s, todo[0], onExit(todo[0])) else s, todo[1..], onExit);
    }
  }

  lemma PollFollows(s: State, a: Action, number: nat, depth: nat, p: nat, flag: Option<bool>, maxUnreachable: int)
    requires Inv(s, []) && a.PollSucceeded? && Follow(s, number, depth, p, flag)
    ensures Follow(Step(s, a, maxUnreachable), number, depth, p, flag)
  {
    if !s.tripped {
      PollGrows(s, a.deletions, a.updates, maxUnreachable);
      var t := Step(s, a, maxUnreachable);
      if p < |s.probes| {
        assert t.probes[p] == t.probes[..|s.probes|][p];
      } else if depth < |s.calls| {
        assert CallOk(s, s.calls[depth]);
      }
    }
  }

  lemma TripFollows(s: State, number: nat, depth: nat, p: nat, flag: Option<bool>)
    requires Follow(s, number, depth, p, flag)
    ensures Follow(Trip(s), number, depth, p, flag)
  {}

  lemma StepFollows(actions: seq<Action>, a: Action, number: nat, depth: nat, p: nat, flag: Option<bool>, maxUnreachable: int)
    requires Follow(Run(actions, maxUnreachable), number, depth, p, flag)
    ensures Follow(Step(Run(actions, maxUnreachable), a, maxUnreachable), number, depth, p, flag)
  {
    var s := Run(actions, maxUnreachable);
    RunKeepsInv(actions, maxUnreachable);
    match a
    case Enter(_, _) => EnterFollows(actions, a, number, depth, p, flag, maxUnreachable);
    case Exit(_) => ExitFollows(s, a, number, depth, p, flag, maxUnreachable);
    case PollSucceeded(_, _) => PollFollows(s, a, number, depth, p, flag, maxUnreachable);
    case _ => TripFollows(s, number, depth, p, flag);
  }

  lemma {:induction false} RunFollows(
    before: seq<Action>, middle: seq<Action>, number: nat, depth: nat, p: nat, flag: Option<bool>, maxUnreachable: int
  )
    requires Follow(Run(before, maxUnreachable), number, depth, p, flag)
    ensures Follow(Run(before + middle, maxUnreachable), number, depth, p, flag)
    decreases |middle|
  {
    if middle == [] {
      assert before + middle == before;
    } else {
      var n := |middle| - 1;
      var actions := before + middle[..n];
      assert (before + middle)[..|before + middle| - 1] == actions && (before + middle)[|before + middle| - 1] == middle[n];
      RunFollows(before, middle[..n], number, depth, p, flag, maxUnreachable);
      StepFollows(actions, middle[n], number, depth, p, flag, maxUnreachable);
    }
  }

  // ---- From entry to exit -----------------------------------------------------------------------------

  lemma {:induction false} AbsentHasNoFlag(entries: seq<Entry>, number: nat)
    requires forall k | 0 <= k < |entries| :: entries[k].call != number
    ensures FlagOf(entries, number).None?
  {
    if entries != [] {
      AbsentHasNoFlag(entries[..|entries| - 1], number);
    }
  }

  lemma {:induction false} NumbersOfCalls(calls: seq<Call>, p: nat, bound: nat)
    requires forall k | 0 <= k < |calls| :: calls[k].number < bound
    ensures forall k | 0 <= k < |NumbersOf(calls, p)| :: NumbersOf(calls, p)[k] < bound
  {
    if calls != [] {
      NumbersOfCalls(calls[..|calls| - 1], p, bound);
    }
  }

  /** No entry on a stack is of a call that is still to come. */
  lemma EntriesAreOld(s: State, p: nat)
    requires Inv(s, []) && NumbersBelow(s) && p < |s.probes|
    ensures FlagOf(s.probes[p].entries, s.callCount).None?
  {
    assert ProbeOk(s, p);
    NumbersOfCalls(s.calls, p, s.callCount);
    var entries := s.probes[p].entries;
    forall k | 0 <= k < |entries| ensures entries[k].call != s.callCount {
      assert entries[k].call == Numbers(entries)[k];
    }
    AbsentHasNoFlag(entries, s.callCount);
  }

  /** Right after its entry, a call can be followed. */
  lemma EntryFollows(before: seq<Action>, functionId: string, onEntry: nat -> EntryOutcome, p: nat, maxUnreachable: int)
    requires p < |Run(before, maxUnreachable).probes|
    ensures
      var s := Run(before, maxUnreachable);
      Follow(Step(s, Enter(functionId, onEntry), maxUnreachable), s.callCount, |s.calls|, p,
             if Meets(s, functionId, p) then Some(onEntry(p) != Record) else None)
  {
    var s := Run(before, maxUnreachable);
    RunKeepsInv(before, maxUnreachable);
    NumbersStayBelow(before, maxUnreachable);
    EntryIsExact(before, functionId, onEntry, p, maxUnreachable);
    EntriesAreOld(s, p);
    PushKeepsFlags(s.probes[p].entries, Entry(s.callCount, onEntry(p) != Record), s.callCount);
    var t := Step(s, Enter(functionId, onEntry), maxUnreachable);
    assert forall k | 0 <= k < |s.calls| :: t.calls[k] == t.calls[..|s.calls|][k];
    if Meets(s, functionId, p) {
      RegisteredMapped(s, p);
    }
  }

  /** Over every run: when a call is left, whatever has happened since its entry, an event is sent for a probe
      exactly if the call met the probe, its activation was recorded and is reported, and the probe has not
      been torn down in between. */
  lemma ActivationsSendExactly(
    before: seq<Action>, functionId: string, onEntry: nat -> EntryOutcome, middle: seq<Action>,
    onExit: nat -> ExitOutcome, p: nat, maxUnreachable: int
  )
    requires
      var s := Run(before, maxUnreachable);
      var u := Run(before + [Enter(functionId, onEntry)] + middle, maxUnreachable);
      p < |s.probes| && u.calls != [] && Top(u).number == s.callCount
    ensures
      var s := Run(before, maxUnreachable);
      var u := Run(before + [Enter(functionId, onEntry)] + middle, maxUnreachable);
      var v := Step(u, Exit(onExit), maxUnreachable);
      && p < |u.probes| && |v.probes| == |u.probes|
      && var sends := Meets(s, functionId, p) && onEntry(p) == Record && onExit(p) == Report && !u.probes[p].cleared;
         v.probes[p].eventsSent == u.probes[p].eventsSent + if sends then 1 else 0
  {
    var s := Run(before, maxUnreachable);
    var flag := if Meets(s, functionId, p) then Some(onEntry(p) != Record) else None;
    FollowedThrough(before, functionId, onEntry, middle, p, maxUnreachable);
    FollowedExit(before + [Enter(functionId, onEntry)] + middle, s.callCount, |s.calls|, p, flag, onExit, maxUnreachable);
  }

  lemma FollowedThrough(
    before: seq<Action>, functionId: string, onEntry: nat -> EntryOutcome, middle: seq<Action>, p: nat, maxUnreachable: int
  )
    requires p < |Run(before, maxUnreachable).probes|
    ensures
      var s := Run(before, maxUnreachable);
      var u := Run(before + [Enter(functionId, onEntry)] + middle, maxUnreachable);
      && p < |u.probes|
      && Follow(u, s.callCount, |s.calls|, p, if Meets(s, functionId, p) then Some(onEntry(p) != Record) else None)
  {
    var s := Run(before, maxUnreachable);
    var entered := before + [Enter(functionId, onEntry)];
    var flag := if Meets(s, functionId, p) then Some(onEntry(p) != Record) else None;
    assert entered[..|entered| - 1] == before;
    EntryFollows(before, functionId, onEntry, p, maxUnreachable);
    RunFollows(entered, middle, s.callCount, |s.calls|, p, flag, maxUnreachable);
    StillThere(before, [Enter(functionId, onEntry)] + middle, p, maxUnreachable);
    assert before + ([Enter(functionId, onEntry)] + middle) == entered + middle;
  }

  lemma {:induction false} StillThere(before: seq<Action>, after: seq<Action>, p: nat, maxUnreachable: int)
    requires p < |Run(before, maxUnreachable).probes|
    ensures p < |Run(before + after, maxUnreachable).probes|
    decreases |after|
  {
    if after == [] {
      assert before + after == before;
    } else {
      var n := |after| - 1;
      var actions := before + after[..n];
      assert (before + after)[..|before + after| - 1] == actions && (before + after)[|before + after| - 1] == after[n];
      StillThere(before, after[..n], p, maxUnreachable);
      StepKeepsProbe(actions, after[n], p, maxUnreachable);
    }
  }

  lemma StepKeepsProbe(actions: seq<Action>, a: Action, p: nat, maxUnreachable: int)
    requires p < |Run(actions, maxUnreachable).probes|
    ensures p < |Step(Run(actions, maxUnreachable), a, maxUnreachable).probes|
  {
    var s := Run(actions, maxUnreachable);
    RunKeepsInv(actions, maxUnreachable);
    match a
    case Enter(_, _) =>
      var entered := EnterCall(s, a.functionId);
      EnterProbesKeepCount(entered, ListOf(entered, Top(entered).list), a.onEntry);
    case Exit(_) =>
      if s.calls != [] {
        ExitProbesKeepCount(s, ListOf(s, Top(s).list), a.onExit);
      }
    case PollSucceeded(_, _) =>
      if !s.tripped {
        PollGrows(s, a.deletions, a.updates, maxUnreachable);
      }
    case _ =>
  }

  /** The exit of a call that was followed. */
  lemma FollowedExit(
    actions: seq<Action>, number: nat, depth: nat, p: nat, flag: Option<bool>, onExit: nat -> ExitOutcome,
    maxUnreachable: int
  )
    requires
      var u := Run(actions, maxUnreachable);
      && Follow(u, number, depth, p, flag) && p < |u.probes|
      && u.calls != [] && Top(u).number == number
    ensures
      var u := Run(actions, maxUnreachable);
      var v := Step(u, Exit(onExit), maxUnreachable);
      && |v.probes| == |u.probes|
      && v.probes[p].eventsSent == u.probes[p].eventsSent +
         if flag == Some(false) && !u.probes[p].cleared && onExit(p) == Report then 1 else 0
  {
    var u := Run(actions, maxUnreachable);
    RunKeepsInv(actions, maxUnreachable);
    ExitSendsExactly(actions, onExit, p, maxUnreachable);
    ReadyToExit(u);
    assert CallOk(u, Top(u));
    if p in ListOf(u, Top(u).list) {
      ExitPopsItsOwnEntry(actions, p, maxUnreachable);
    }
  }
}
