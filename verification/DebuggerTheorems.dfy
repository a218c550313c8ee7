/** What holds in every run of the debugger: polls, lifetime budgets, breaker trips and nested calls, in any
    order. */
module DebuggerTheorems {
  import opened Debugger
  import opened DebuggerRegistry
  import opened DebuggerDelivery
  import opened DebuggerStacks

  // ---- The registry as a map ------------------------------------------------------------------------

  /** The map from ids to registered probes. */
  function Registry(s: State): map<string, nat> {
    map id | id in s.functionOf && HasList(s, id)
             && IndexOfId(s.probes, s.lists[s.active[s.functionOf[id]]], id) < |s.lists[s.active[s.functionOf[id]]]|
      :: s.lists[s.active[s.functionOf[id]]][IndexOfId(s.probes, s.lists[s.active[s.functionOf[id]]], id)]
  }

  lemma RegistryFinds(s: State, id: string)
    requires RegistryInv(s)
    ensures id in Registry(s) ==> Holds(s, id, Registry(s)[id])
    ensures id !in Registry(s) ==> forall p: nat :: !Holds(s, id, p)
  {
    if !s.tripped && id in s.functionOf {
      var p := MappedHolds(s, id);
      var f := s.functionOf[id];
      var list := s.lists[s.active[f]];
      IndexOfIdFinds(s.probes, list, id);
      RegisteredAt(s, f, IndexOfId(s.probes, list, id));
    } else {
      forall p: nat ensures !Holds(s, id, p) {
        if Registered(s, p) {
          RegisteredMapped(s, p);
        }
      }
    }
  }

  lemma RegistryRefines(s: State)
    requires RegistryInv(s)
    ensures Refines(s, Registry(s))
  {
    forall id: string, p: nat ensures Holds(s, id, p) <==> id in Registry(s) && Registry(s)[id] == p {
      RegistryFinds(s, id);
      if Holds(s, id, p) {
        HoldsOnce(s, id, p, Registry(s)[id]);
      }
    }
  }

  lemma RefinesUnique(s: State, m: map<string, nat>, n: map<string, nat>)
    requires Refines(s, m) && Refines(s, n)
    ensures m == n
  {
    forall id | id in m ensures id in n && n[id] == m[id] {
      assert Holds(s, id, m[id]);
    }
    forall id | id in n ensures id in m {
      assert Holds(s, id, n[id]);
    }
  }

  lemma RefinesOne(s: State, m: map<string, nat>)
    requires RegistryInv(s) && Refines(s, m)
    ensures m == Registry(s)
  {
    RegistryRefines(s);
    RefinesUnique(s, m, Registry(s));
  }

  // ---- Every step -----------------------------------------------------------------------------------

  lemma PollKeepsInv(s: State, deletions: seq<string>, updates: seq<Update>, maxUnreachable: int)
    requires Inv(s, []) && !s.tripped
    ensures
      var t := Step(s, PollSucceeded(deletions, updates), maxUnreachable);
      && Inv(t, []) && !t.tripped
      && Registry(t) == AfterUpdates(AfterDeletions(Registry(s), deletions), |s.probes|, updates).0
  {
    RegistryRefines(s);
    var m := Registry(s);
    DeleteAllDelivers(s, deletions, m);
    var deleted := DeleteAll(s, deletions);
    DeleteAllKeepsProbes(s, deletions);
    ApplyAllDelivers(deleted, updates, AfterDeletions(m, deletions));
    var t := ApplyAll(deleted, updates);
    GrowsTransitive(s, deleted, t);
    GrowsKeepsStacks(s, t, []);
    RefinesOne(t, AfterUpdates(AfterDeletions(m, deletions), |s.probes|, updates).0);
  }

  lemma {:induction false} DeleteAllKeepsProbes(s: State, ids: seq<string>)
    ensures DeleteAll(s, ids).probes == s.probes
    decreases |ids|
  {
    if ids != [] {
      DeleteAllKeepsProbes(Delete(s, ids[0]), ids[1..]);
    }
  }

  lemma ResetKeepsInv(s: State, t: State)
    requires Inv(s, []) && t == s.(firstFailure := t.firstFailure)
    ensures Inv(t, []) && Registry(t) == Registry(s)
  {
    ResetKeepsRegistry(s, t);
    ResetKeepsStacks(s, t);
    SameMapsSameRegistry(s, t);
  }

  lemma SameMapsSameRegistry(s: State, t: State)
    requires t.probes == s.probes && t.lists == s.lists && t.active == s.active && t.functionOf == s.functionOf
    ensures Registry(t) == Registry(s)
  {
    forall id ensures HasList(t, id) <==> HasList(s, id) {}
  }

  lemma ResetKeepsRegistry(s: State, t: State)
    requires RegistryInv(s) && AllUnspent(s) && t == s.(firstFailure := t.firstFailure)
    ensures RegistryInv(t) && AllUnspent(t)
  {
    assert forall q: nat :: Registered(t, q) <==> Registered(s, q);
    assert forall f, i, id :: HasIdAt(t, f, i, id) <==> HasIdAt(s, f, i, id);
    assert forall f, q :: Mapped(t, f, q) <==> Mapped(s, f, q);
  }

  lemma ResetKeepsStacks(s: State, t: State)
    requires StackInv(s, []) && t == s.(firstFailure := t.firstFailure)
    ensures StackInv(t, [])
  {
    forall p | 0 <= p < |t.probes| ensures ProbeOk(t, p) { assert ProbeOk(s, p); }
    forall k | 0 <= k < |t.calls| ensures CallOk(t, t.calls[k]) { assert CallOk(s, s.calls[k]); }
    forall k, l ensures Follows(t, k, l, []) { assert Follows(s, k, l, []); }
  }

  lemma TripKeepsInv(s: State)
    requires Inv(s, []) && !s.tripped
    ensures Inv(Trip(s), []) && Trip(s).tripped && Registry(Trip(s)) == map[]
  {
    var cleared := ClearProbes(s);
    var t := Trip(s);
    ClearKeepsStacks(s);
    forall p | 0 <= p < |t.probes| ensures ProbeOk(t, p) { assert ProbeOk(cleared, p); }
    forall k | 0 <= k < |t.calls| ensures CallOk(t, t.calls[k]) { assert CallOk(cleared, cleared.calls[k]); }
    forall k, l ensures Follows(t, k, l, []) { assert Follows(cleared, k, l, []); }
  }

  lemma NoteFailureKeepsInv(s: State, now: int, maxUnreachable: int)
    requires Inv(s, []) && !s.tripped
    ensures Inv(NoteFailure(s, now, maxUnreachable), [])
  {
    if s.firstFailure.Never? {
      ResetKeepsInv(s, s.(firstFailure := At(now)));
    } else {
      TripKeepsInv(s);
    }
  }

  lemma EnterKeepsInv(s: State, functionId: string, onEntry: nat -> EntryOutcome, maxUnreachable: int)
    requires Inv(s, [])
    ensures Inv(Step(s, Enter(functionId, onEntry), maxUnreachable), [])
    ensures Step(s, Enter(functionId, onEntry), maxUnreachable).tripped == s.tripped
  {
    var entered := EnterCall(s, functionId);
    EnterCallKeepsInv(s, functionId);
    EnterProbesKeepsInv(entered, ListOf(entered, Top(entered).list), onEntry);
  }

  lemma ExitKeepsInv(s: State, onExit: nat -> ExitOutcome, maxUnreachable: int)
    requires Inv(s, [])
    ensures Inv(Step(s, Exit(onExit), maxUnreachable), [])
    ensures Step(s, Exit(onExit), maxUnreachable).tripped == s.tripped
  {
    if s.calls != [] {
      var list := ListOf(s, Top(s).list);
      ReadyToExit(s);
      ExitProbesKeepsInv(s, list, [], onExit);
      DropCallKeepsInv(ExitProbes(s, list, onExit), [] + list);
    }
  }

  lemma StepKeepsInv(s: State, a: Action, maxUnreachable: int)
    requires Inv(s, [])
    ensures Inv(Step(s, a, maxUnreachable), [])
    ensures s.tripped ==> Step(s, a, maxUnreachable).tripped
  {
    match a
    case ServerReached => ResetKeepsInv(s, Step(s, a, maxUnreachable));
    case PollSucceeded(deletions, updates) =>
      if !s.tripped {
        PollKeepsInv(s, deletions, updates, maxUnreachable);
      }
    case PollRejected(status, now) =>
      if !s.tripped {
        NoteFailureKeepsInv(s, now, maxUnreachable);
        TripKeepsInv(s);
      }
    case PollFailed(now) =>
      if !s.tripped {
        NoteFailureKeepsInv(s, now, maxUnreachable);
      }
    case Enter(functionId, onEntry) => EnterKeepsInv(s, functionId, onEntry, maxUnreachable);
    case Exit(onExit) => ExitKeepsInv(s, onExit, maxUnreachable);
  }

  lemma InitSatisfiesInv()
    ensures Inv(Init(), [])
  {}

  lemma {:induction false} RunKeepsInv(actions: seq<Action>, maxUnreachable: int)
    ensures Inv(Run(actions, maxUnreachable), [])
  {
    if actions == [] {
      InitSatisfiesInv();
    } else {
      var before := actions[..|actions| - 1];
      RunKeepsInv(before, maxUnreachable);
      StepKeepsInv(Run(before, maxUnreachable), actions[|actions| - 1], maxUnreachable);
    }
  }

  // ---- Theorems -------------------------------------------------------------------------------------

  /** A mapped id names a function whose list holds exactly one probe with that id, every listed probe is
      mapped and known, and no stored list is empty. After a trip nothing is registered; what may be left is
      the mapping of an id that is spelled like the placeholder key. */
  lemma RegistryIsConsistent(actions: seq<Action>, maxUnreachable: int)
    ensures
      var s := Run(actions, maxUnreachable);
      && (!s.tripped ==>
            && (forall id | id in s.functionOf ::
                  exists p: nat :: Holds(s, id, p) && s.probes[p].functionId == s.functionOf[id])
            && (forall id, p: nat, q: nat | Holds(s, id, p) && Holds(s, id, q) :: p == q)
            && (forall p: nat | Registered(s, p) ::
                  s.probes[p].id in s.functionOf && s.functionOf[s.probes[p].id] == s.probes[p].functionId
                  && s.probes[p].id in s.known)
            && (forall f | f in s.active :: s.active[f] < |s.lists| && s.lists[s.active[f]] != []))
      && (s.tripped ==> s.active == map[] && s.known == {} && s.functionOf.Keys <= {PLACEHOLDER})
  {
    RunKeepsInv(actions, maxUnreachable);
    var s := Run(actions, maxUnreachable);
    if !s.tripped {
      forall id | id in s.functionOf
        ensures exists p: nat :: Holds(s, id, p) && s.probes[p].functionId == s.functionOf[id]
      {
        var p := MappedHolds(s, id);
      }
      forall id, p: nat, q: nat | Holds(s, id, p) && Holds(s, id, q) ensures p == q {
        HoldsOnce(s, id, p, q);
      }
      forall p: nat | Registered(s, p)
        ensures s.probes[p].id in s.functionOf && s.functionOf[s.probes[p].id] == s.probes[p].functionId
        ensures s.probes[p].id in s.known
      {
        RegisteredMapped(s, p);
      }
    }
  }

  /** A poll response acts on the registry like its deletions and then its updates on a map: whatever was
      removed by lifetime budgets in between, known ids or not. */
  lemma PollActsOnTheMap(actions: seq<Action>, deletions: seq<string>, updates: seq<Update>, maxUnreachable: int)
    requires !Run(actions, maxUnreachable).tripped
    ensures
      var s := Run(actions, maxUnreachable);
      Registry(Step(s, PollSucceeded(deletions, updates), maxUnreachable)) ==
      AfterUpdates(AfterDeletions(Registry(s), deletions), |s.probes|, updates).0
  {
    RunKeepsInv(actions, maxUnreachable);
    PollKeepsInv(Run(actions, maxUnreachable), deletions, updates, maxUnreachable);
  }

  /** Removing an instance that is not registered, stale or replaced, changes nothing; removing one that is
      takes it, and only it, out of the map. */
  lemma RemovalByInstanceIsExact(actions: seq<Action>, p: nat, maxUnreachable: int)
    requires p < |Run(actions, maxUnreachable).probes|
    ensures
      var s := Run(actions, maxUnreachable);
      var t := RemoveInstance(s, p);
      if Registered(s, p) then Registry(t) == Registry(s) - {s.probes[p].id} && !Registered(t, p) else t == s
  {
    RunKeepsInv(actions, maxUnreachable);
    var s := Run(actions, maxUnreachable);
    var t := RemoveInstance(s, p);
    RemoveInstanceRemoves(s, p);
    if Registered(s, p) {
      var id := s.probes[p].id;
      RegisteredMapped(s, p);
      RegistryRefines(s);
      RemovesDelivers(s, t, p, Registry(s), id);
      RefinesOne(t, Registry(s) - {id});
    }
  }

  /** When a call returns or throws, each probe on its list either has the entry of that very call on top of
      its stack or an empty stack, and has it exactly if the call entered it and it was not torn down. */
  lemma ExitPopsItsOwnEntry(actions: seq<Action>, p: nat, maxUnreachable: int)
    requires
      var s := Run(actions, maxUnreachable);
      s.calls != [] && p in ListOf(s, Top(s).list)
    ensures
      var s := Run(actions, maxUnreachable);
      && p < |s.probes|
      && var entries := s.probes[p].entries;
         if p in Top(s).entered && !s.probes[p].cleared
         then entries != [] && entries[|entries| - 1].call == Top(s).number
         else entries == []
  {
    RunKeepsInv(actions, maxUnreachable);
    var s := Run(actions, maxUnreachable);
    ReadyToExit(s);
    TopEntryIsOwn(s, p, ListOf(s, Top(s).list), []);
  }

  /** A stack lists the running calls that entered the probe, and is empty between calls. */
  lemma StacksMirrorRunningCalls(actions: seq<Action>, p: nat, maxUnreachable: int)
    requires p < |Run(actions, maxUnreachable).probes|
    ensures
      var s := Run(actions, maxUnreachable);
      && Numbers(s.probes[p].entries) == (if s.probes[p].cleared then [] else NumbersOf(s.calls, p))
      && (s.calls == [] ==> s.probes[p].entries == [])
  {
    RunKeepsInv(actions, maxUnreachable);
    var s := Run(actions, maxUnreachable);
    assert ProbeOk(s, p);
    if s.calls == [] {
      assert |Numbers(s.probes[p].entries)| == 0;
    }
  }

  /** A probe sends at most its lifetime limit plus the activations that were recorded when the limit was
      reached, and none if its limit is zero. */
  lemma LifetimeBudgetBounds(actions: seq<Action>, p: nat, maxUnreachable: int)
    requires p < |Run(actions, maxUnreachable).probes|
    ensures
      var probe := Run(actions, maxUnreachable).probes[p];
      && probe.eventsSent <= probe.limit + probe.pendingAtLimit
      && (probe.limit == 0 ==> probe.eventsSent == 0)
      && (Registered(Run(actions, maxUnreachable), p) && probe.limit > 0 ==> probe.eventsSent < probe.limit)
  {
    RunKeepsInv(actions, maxUnreachable);
    assert ProbeOk(Run(actions, maxUnreachable), p);
  }

  // ---- Circuit breaker ------------------------------------------------------------------------------

  /** A time-out, too many requests, or an error of the server. */
  predicate IsTransient(status: int) {
    status == 408 || status == 429 || status >= 500
  }

  predicate IsFailure(a: Action) {
    a.PollFailed? || (a.PollRejected? && IsTransient(a.status))
  }

  predicate IsContact(a: Action) {
    a.ServerReached?
  }

  /** The k-th action was a failure at that time, and the server was not reached since. */
  ghost predicate FailingSince(actions: seq<Action>, k: int, time: int) {
    && 0 <= k < |actions| && IsFailure(actions[k]) && actions[k].now == time
    && forall j | k < j < |actions| :: !IsContact(actions[j])
  }

  /** The server was reached after the j-th action, at the k-th at the latest. */
  ghost predicate ContactBetween(actions: seq<Action>, j: int, k: int) {
    exists i :: j < i <= k && 0 <= i < |actions| && IsContact(actions[i])
  }

  ghost predicate WindowOpenedAt(actions: seq<Action>, k: int, time: int) {
    && FailingSince(actions, k, time)
    && forall j | 0 <= j < k && IsFailure(actions[j]) :: ContactBetween(actions, j, k)
  }

  ghost predicate WindowClosed(actions: seq<Action>) {
    forall j | 0 <= j < |actions| && IsFailure(actions[j]) :: ContactBetween(actions, j, |actions| - 1)
  }

  lemma ContactStill(before: seq<Action>, a: Action, j: int, k: int)
    requires ContactBetween(before, j, k)
    ensures ContactBetween(before + [a], j, k)
  {
    var i :| j < i <= k && 0 <= i < |before| && IsContact(before[i]);
    assert (before + [a])[i] == before[i];
  }

  lemma WindowStaysOpen(before: seq<Action>, a: Action, k: int, time: int)
    requires WindowOpenedAt(before, k, time) && !IsContact(a)
    ensures WindowOpenedAt(before + [a], k, time)
  {
    var actions := before + [a];
    forall j | 0 <= j < k && IsFailure(actions[j]) ensures ContactBetween(actions, j, k) {
      assert before[j] == actions[j];
      ContactStill(before, a, j, k);
    }
  }

  lemma WindowOpens(before: seq<Action>, a: Action)
    requires WindowClosed(before) && IsFailure(a)
    ensures WindowOpenedAt(before + [a], |before|, a.now)
  {
    var actions := before + [a];
    forall j | 0 <= j < |before| && IsFailure(actions[j]) ensures ContactBetween(actions, j, |before|) {
      assert actions[j] == before[j] && actions[|before|] == a;
      if !IsContact(a) {
        ContactStill(before, a, j, |before| - 1);
      }
    }
  }

  lemma WindowStaysClosed(before: seq<Action>, a: Action)
    requires (WindowClosed(before) || IsContact(a)) && !IsFailure(a)
    ensures WindowClosed(before + [a])
  {
    var actions := before + [a];
    forall j | 0 <= j < |actions| && IsFailure(actions[j]) ensures ContactBetween(actions, j, |actions| - 1) {
      assert actions[j] == before[j] && actions[|before|] == a;
      if !IsContact(a) {
        ContactStill(before, a, j, |before| - 1);
      }
    }
  }

  /** The failure window opens with the first failure after the server was last reached. */
  lemma {:induction false} WindowOpensAtFirstFailure(actions: seq<Action>, maxUnreachable: int)
    requires !Run(actions, maxUnreachable).tripped
    ensures
      match Run(actions, maxUnreachable).firstFailure
      case Never => WindowClosed(actions)
      case At(time) => exists k :: WindowOpenedAt(actions, k, time)
  {
    if actions != [] {
      var before, a := actions[..|actions| - 1], actions[|actions| - 1];
      assert before + [a] == actions;
      var s := Run(before, maxUnreachable);
      RunKeepsInv(before, maxUnreachable);
      StepKeepsInv(s, a, maxUnreachable);
      WindowOpensAtFirstFailure(before, maxUnreachable);
      if IsFailure(a) && s.firstFailure.Never? {
        WindowOpens(before, a);
      } else if s.firstFailure.At? && !IsContact(a) {
        var k :| WindowOpenedAt(before, k, s.firstFailure.ms);
        WindowStaysOpen(before, a, k, s.firstFailure.ms);
      } else {
        WindowStaysClosed(before, a);
      }
    }
  }

  lemma OneWindow(actions: seq<Action>, k: int, time: int, other: int, otherTime: int)
    requires WindowOpenedAt(actions, k, time) && WindowOpenedAt(actions, other, otherTime)
    ensures k == other && time == otherTime
  {
    assert k < other ==> ContactBetween(actions, k, other);
    assert other < k ==> ContactBetween(actions, other, k);
  }

  lemma ClosedMeansNotOpen(actions: seq<Action>, k: int, time: int)
    requires WindowClosed(actions)
    ensures !WindowOpenedAt(actions, k, time)
  {
    if 0 <= k < |actions| && IsFailure(actions[k]) {
      assert ContactBetween(actions, k, |actions| - 1);
    }
  }

  /** The failure window has been open for long enough. */
  ghost predicate UnreachableFor(actions: seq<Action>, now: int, maxUnreachable: int) {
    exists k, time :: WindowOpenedAt(actions, k, time) && now - time >= maxUnreachable
  }

  lemma WindowIsTheRecordedOne(actions: seq<Action>, now: int, maxUnreachable: int)
    requires !Run(actions, maxUnreachable).tripped
    ensures
      var first := Run(actions, maxUnreachable).firstFailure;
      UnreachableFor(actions, now, maxUnreachable) <==> first.At? && now - first.ms >= maxUnreachable
  {
    WindowOpensAtFirstFailure(actions, maxUnreachable);
    var first := Run(actions, maxUnreachable).firstFailure;
    if first.Never? {
      forall k, time ensures !WindowOpenedAt(actions, k, time) {
        ClosedMeansNotOpen(actions, k, time);
      }
    } else {
      var k0 :| WindowOpenedAt(actions, k0, first.ms);
      forall k, time | WindowOpenedAt(actions, k, time) ensures time == first.ms {
        OneWindow(actions, k, time, k0, first.ms);
      }
    }
  }

  /** The breaker trips at once on a response that is not transient, and otherwise exactly on a failure that
      comes when the server has not been reached since a first failure long enough ago. It never resets. */
  lemma BreakerTripsExactly(actions: seq<Action>, a: Action, maxUnreachable: int)
    ensures
      var s := Run(actions, maxUnreachable);
      Step(s, a, maxUnreachable).tripped <==>
      || s.tripped
      || (a.PollRejected? && !IsTransient(a.status))
      || (IsFailure(a) && UnreachableFor(actions, a.now, maxUnreachable))
  {
    var s := Run(actions, maxUnreachable);
    RunKeepsInv(actions, maxUnreachable);
    StepKeepsInv(s, a, maxUnreachable);
    if IsFailure(a) && !s.tripped {
      WindowIsTheRecordedOne(actions, a.now, maxUnreachable);
    }
  }

  // ---- What hooks remove ----------------------------------------------------------------------------

  /** Only probes without budget have disappeared. */
  ghost predicate LosesExhausted(s: State, t: State) {
    && |t.probes| == |s.probes|
    && (forall q: nat | q < |s.probes| ::
          t.probes[q].eventsSent >= s.probes[q].eventsSent && t.probes[q].limit == s.probes[q].limit)
    && (forall q: nat | Registered(t, q) :: Registered(s, q))
    && (forall q: nat | Registered(s, q) && !Registered(t, q) :: Exhausted(t.probes[q]))
  }

  lemma LosesTransitive(s: State, t: State, u: State)
    requires LosesExhausted(s, t) && LosesExhausted(t, u)
    ensures LosesExhausted(s, u)
  {
    forall q: nat | Registered(s, q) && !Registered(u, q) ensures Exhausted(u.probes[q]) {
      assert t.probes[q].eventsSent <= u.probes[q].eventsSent;
      if !Registered(t, q) {
        assert Exhausted(t.probes[q]);
      }
    }
  }

  lemma SameRegistryLosesNothing(s: State, t: State)
    requires |t.probes| == |s.probes| && t.lists == s.lists && t.active == s.active
    requires forall q | 0 <= q < |s.probes| ::
               SameIdentity(s.probes[q], t.probes[q]) && t.probes[q].eventsSent >= s.probes[q].eventsSent
    ensures LosesExhausted(s, t)
  {
    assert forall q: nat :: Registered(t, q) <==> Registered(s, q);
  }

  lemma RemovalLosesExhausted(s: State, p: nat)
    requires RegistryInv(s) && p < |s.probes| && Exhausted(s.probes[p])
    ensures LosesExhausted(s, RemoveInstance(s, p))
  {
    var t := RemoveInstance(s, p);
    RemoveInstanceRemoves(s, p);
    forall q: nat | Registered(s, q) && !Registered(t, q) ensures Exhausted(t.probes[q]) {
      assert Registered(t, q) <==> Registered(s, q) && q != p;
    }
    forall q: nat | Registered(t, q) ensures Registered(s, q) {}
  }

  lemma SendLosesExhausted(s: State, p: nat)
    requires RegistryInv(s) && p < |s.probes|
    ensures LosesExhausted(s, SendEvent(s, p))
  {
    var counted := SetProbe(s, p, Counted(s.probes[p]));
    SendIsCountAndRemoval(s, p);
    SetProbeKeepsRegistry(s, p, Counted(s.probes[p]));
    SameRegistryLosesNothing(s, counted);
    if Exhausted(counted.probes[p]) {
      RemovalLosesExhausted(counted, p);
      LosesTransitive(s, counted, RemoveInstance(counted, p));
    }
  }

  lemma EnterProbeLosesExhausted(s: State, p: nat, outcome: EntryOutcome)
    requires RegistryInv(s) && p < |s.probes| && s.calls != []
    ensures LosesExhausted(s, EnterProbe(s, p, outcome))
  {
    if Exhausted(s.probes[p]) {
      RemovalLosesExhausted(s, p);
    } else {
      var sent := if outcome == SkipAndReportError then SendEvent(s, p) else s;
      SendLosesExhausted(s, p);
      SameRegistryLosesNothing(s, s);
      SameRegistryLosesNothing(sent, EnterProbe(s, p, outcome));
      LosesTransitive(s, sent, EnterProbe(s, p, outcome));
    }
  }

  lemma ExitProbeLosesExhausted(s: State, p: nat, outcome: ExitOutcome)
    requires RegistryInv(s) && AllUnspent(s) && p < |s.probes| && s.calls != []
    ensures LosesExhausted(s, ExitProbe(s, p, outcome))
  {
    var popped := Popped(s, p);
    PopKeepsRegistry(s, p);
    SameRegistryLosesNothing(s, popped);
    SendLosesExhausted(popped, p);
    LosesTransitive(s, popped, SendEvent(popped, p));
  }

  lemma {:induction false} EnterProbesLoseExhausted(s: State, todo: seq<nat>, onEntry: nat -> EntryOutcome)
    requires Inv(s, todo) && ToEnter(s, todo) && UnspentOnes(s, todo)
    ensures LosesExhausted(s, EnterProbes(s, todo, onEntry))
    decreases |todo|
  {
    if todo == [] {
      SameRegistryLosesNothing(s, s);
    } else {
      var p, rest := todo[0], todo[1..];
      assert [p] + rest == todo;
      assert CallOk(s, Top(s));
      var t := EnterProbe(s, p, onEntry(p));
      EnterProbeKeepsInv(s, p, onEntry(p), rest);
      TouchesKeepsTodo(s, t, p, rest);
      EnterProbeLosesExhausted(s, p, onEntry(p));
      EnterProbesLoseExhausted(t, rest, onEntry);
      LosesTransitive(s, t, EnterProbes(t, rest, onEntry));
    }
  }

  lemma {:induction false} ExitProbesLoseExhausted(s: State, todo: seq<nat>, done: seq<nat>, onExit: nat -> ExitOutcome)
    requires Inv(s, done) && ToExit(s, todo, done)
    ensures LosesExhausted(s, ExitProbes(s, todo, onExit))
    decreases |todo|
  {
    if todo == [] {
      SameRegistryLosesNothing(s, s);
    } else {
      var p, rest := todo[0], todo[1..];
      assert [p] + rest == todo;
      assert CallOk(s, Top(s));
      var t := ExitProbe(s, p, onExit(p));
      ExitProbeKeepsInv(s, p, onExit(p), todo, done);
      StillToExit(s, t, p, rest, done);
      ExitProbeLosesExhausted(s, p, onExit(p));
      ExitProbesLoseExhausted(t, rest, done + [p], onExit);
      LosesTransitive(s, t, ExitProbes(t, rest, onExit));
    }
  }

  /** Calls never add a probe, and remove exactly the probes that run out of lifetime budget (a probe that
      never had any goes with the first call that meets it). */
  lemma CallsRemoveExactlyTheExhausted(actions: seq<Action>, a: Action, p: nat, maxUnreachable: int)
    requires (a.Enter? || a.Exit?) && Registered(Run(actions, maxUnreachable), p)
    ensures
      var t := Step(Run(actions, maxUnreachable), a, maxUnreachable);
      && p < |t.probes| && (!Registered(t, p) ==> Exhausted(t.probes[p]))
      && (Exhausted(t.probes[p]) && t.probes[p].limit > 0 ==> !Registered(t, p))
  {
    RunKeepsInv(actions, maxUnreachable);
    var s := Run(actions, maxUnreachable);
    if a.Enter? {
      EnteringLosesExhausted(s, a, p, maxUnreachable);
    } else {
      LeavingLosesExhausted(s, a, p, maxUnreachable);
    }
    if Registered(Step(s, a, maxUnreachable), p) {
      UnspentIsKept(s, a, p, maxUnreachable);
    }
  }

  lemma EnteringLosesExhausted(s: State, a: Action, p: nat, maxUnreachable: int)
    requires Inv(s, []) && a.Enter? && Registered(s, p)
    ensures
      var t := Step(s, a, maxUnreachable);
      p < |t.probes| && (!Registered(t, p) ==> Exhausted(t.probes[p]))
  {
    var entered := EnterCall(s, a.functionId);
    EnterCallKeepsInv(s, a.functionId);
    assert Registered(entered, p);
    EnterProbesLoseExhausted(entered, ListOf(entered, Top(entered).list), a.onEntry);
  }

  lemma LeavingLosesExhausted(s: State, a: Action, p: nat, maxUnreachable: int)
    requires Inv(s, []) && a.Exit? && Registered(s, p)
    ensures
      var t := Step(s, a, maxUnreachable);
      p < |t.probes| && (!Registered(t, p) ==> Exhausted(t.probes[p]))
  {
    if s.calls != [] {
      var list := ListOf(s, Top(s).list);
      ReadyToExit(s);
      ExitProbesLoseExhausted(s, list, [], a.onExit);
      var left := ExitProbes(s, list, a.onExit);
      var t := Step(s, a, maxUnreachable);
      assert Registered(t, p) <==> Registered(left, p);
    }
  }

  lemma UnspentIsKept(s: State, a: Action, p: nat, maxUnreachable: int)
    requires Inv(s, []) && Registered(Step(s, a, maxUnreachable), p)
    ensures p < |Step(s, a, maxUnreachable).probes| && Unspent(Step(s, a, maxUnreachable).probes[p])
  {
    StepKeepsInv(s, a, maxUnreachable);
  }
}
