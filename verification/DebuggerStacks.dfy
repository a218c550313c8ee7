/** Activation stacks: for properly nested calls, whatever happens to the registry in between, a probe's
    stack holds one entry for each running call that entered it, innermost on top. */
module DebuggerStacks {
  import opened Debugger
  import opened DebuggerRegistry
  import opened DebuggerDelivery

  // ---- Invariant ------------------------------------------------------------------------------------

  function Numbers(entries: seq<Entry>): seq<nat> {
    seq(|entries|, k requires 0 <= k < |entries| => entries[k].call)
  }

  /** The running calls that entered a probe, outermost first. */
  function NumbersOf(calls: seq<Call>, p: nat): seq<nat> {
    if calls == [] then []
    else
      var last := calls[|calls| - 1];
      NumbersOf(calls[..|calls| - 1], p) + if p in last.entered then [last.number] else []
  }

  /** At most the lifetime limit, plus what was recorded when the limit was reached. */
  ghost predicate WithinBudget(probe: Probe) {
    || probe.eventsSent < probe.limit
    || (probe.limit == 0 && probe.eventsSent == 0 && probe.entries == [])
    || (probe.limit > 0 && probe.eventsSent + Recorded(probe.entries) <= probe.limit + probe.pendingAtLimit)
  }

  ghost predicate ProbeOk(s: State, p: nat)
    requires p < |s.probes|
  {
    && Numbers(s.probes[p].entries) == (if s.probes[p].cleared then [] else NumbersOf(s.calls, p))
    && WithinBudget(s.probes[p])
  }

  ghost predicate CallOk(s: State, call: Call) {
    && (call.list.ListAt? ==> call.list.at < |s.lists|)
    && forall p | p in call.entered :: p in ListOf(s, call.list) && p < |s.probes| && s.probes[p].limit > 0
  }

  /** A call that entered a probe is followed only by calls that entered it too, if it is on their list. */
  ghost predicate Follows(s: State, k: int, l: int, exempt: seq<nat>) {
    0 <= k < l < |s.calls| ==>
      forall p | p in s.calls[k].entered && p in ListOf(s, s.calls[l].list) ::
        || p in s.calls[l].entered
        || (p < |s.probes| && s.probes[p].cleared)
        || (l == |s.calls| - 1 && p in exempt)
  }

  /** `exempt` are the probes of the innermost call that are not entered yet, or already left. */
  ghost predicate StackInv(s: State, exempt: seq<nat>) {
    && (forall p | 0 <= p < |s.probes| :: ProbeOk(s, p))
    && (forall k | 0 <= k < |s.calls| :: CallOk(s, s.calls[k]))
    && (forall k, l :: Follows(s, k, l, exempt))
  }

  // ---- Small steps ----------------------------------------------------------------------------------

  lemma {:induction false} NotEntered(calls: seq<Call>, p: nat)
    requires forall k | 0 <= k < |calls| :: p !in calls[k].entered
    ensures NumbersOf(calls, p) == []
  {
    if calls != [] {
      NotEntered(calls[..|calls| - 1], p);
    }
  }

  /** Only the innermost call changes. */
  lemma NumbersOfTop(calls: seq<Call>, top: Call, p: nat)
    requires calls != []
    ensures NumbersOf(calls[|calls| - 1 := top], p) ==
            NumbersOf(calls[..|calls| - 1], p) + if p in top.entered then [top.number] else []
  {
    var changed := calls[|calls| - 1 := top];
    assert changed[..|calls| - 1] == calls[..|calls| - 1];
  }

  lemma RecordedPush(entries: seq<Entry>, e: Entry)
    ensures Recorded(entries + [e]) == Recorded(entries) + if e.skipped then 0 else 1
  {
    assert (entries + [e])[..|entries|] == entries;
  }

  // ---- Registry changes -----------------------------------------------------------------------------

  lemma GrowsKeepsStacks(s: State, t: State, exempt: seq<nat>)
    requires StackInv(s, exempt) && Grows(s, t)
    ensures StackInv(t, exempt)
  {
    GrowsKeepsCalls(s, t);
    forall p | 0 <= p < |t.probes| ensures ProbeOk(t, p) {
      if p < |s.probes| {
        assert t.probes[p] == t.probes[..|s.probes|][p] == s.probes[p];
        assert ProbeOk(s, p);
      } else {
        NewNotEntered(s, p);
      }
    }
    forall k, l ensures Follows(t, k, l, exempt) {
      assert Follows(s, k, l, exempt);
      if 0 <= k < l < |s.calls| {
        assert CallOk(s, s.calls[k]) && CallOk(s, s.calls[l]);
        forall p | p in t.calls[k].entered && p in ListOf(t, t.calls[l].list)
          ensures
            || p in t.calls[l].entered
            || (p < |t.probes| && t.probes[p].cleared)
            || (l == |t.calls| - 1 && p in exempt)
        {
          GrownList(s, t, s.calls[l].list, p);
          assert t.probes[p] == t.probes[..|s.probes|][p] == s.probes[p];
        }
      }
    }
  }

  lemma NewNotEntered(s: State, p: nat)
    requires p >= |s.probes| && forall k | 0 <= k < |s.calls| :: CallOk(s, s.calls[k])
    ensures NumbersOf(s.calls, p) == []
  {
    NotEntered(s.calls, p);
  }

  /** An old probe on a grown list was on it before. */
  lemma GrownList(s: State, t: State, list: ListRef, p: nat)
    requires Grows(s, t) && (list.ListAt? ==> list.at < |s.lists|)
    ensures p in ListOf(s, list) ==> p in ListOf(t, list)
    ensures p in ListOf(t, list) && p < |s.probes| ==> p in ListOf(s, list)
  {
    if list.ListAt? {
      var a, b := s.lists[list.at], t.lists[list.at];
      assert Extends(a, b, |s.probes|);
      assert forall k | 0 <= k < |a| :: b[k] == b[..|a|][k] == a[k];
    }
  }

  lemma GrowsKeepsCalls(s: State, t: State)
    requires Grows(s, t) && forall k | 0 <= k < |s.calls| :: CallOk(s, s.calls[k])
    ensures forall k | 0 <= k < |t.calls| :: CallOk(t, t.calls[k])
  {
    forall k | 0 <= k < |t.calls| ensures CallOk(t, t.calls[k]) {
      var call := s.calls[k];
      assert CallOk(s, call);
      forall p | p in call.entered ensures p in ListOf(t, call.list) && p < |t.probes| && t.probes[p].limit > 0 {
        GrownList(s, t, call.list, p);
        assert t.probes[p] == t.probes[..|s.probes|][p] == s.probes[p];
      }
    }
  }

  lemma RemovesKeepsStacks(s: State, t: State, p: nat, exempt: seq<nat>)
    requires StackInv(s, exempt) && Removes(s, t, p)
    ensures StackInv(t, exempt)
  {
    forall l | 0 <= l < |s.lists| ensures Extends(s.lists[l], t.lists[l], |s.probes|) {
      ExtendsSelf(s.lists[l], |s.probes|);
    }
    GrowsKeepsStacks(s, t, exempt);
  }

  lemma RemoveInstanceKeepsStacks(s: State, p: nat, exempt: seq<nat>)
    requires RegistryInv(s) && p < |s.probes| && StackInv(s, exempt)
    ensures StackInv(RemoveInstance(s, p), exempt)
  {
    RemoveInstanceRemoves(s, p);
    if Registered(s, p) {
      RemovesKeepsStacks(s, RemoveInstance(s, p), p, exempt);
    }
  }

  lemma ClearKeepsStacks(s: State)
    requires StackInv(s, [])
    ensures StackInv(ClearProbes(s), [])
  {
    var t := ClearProbes(s);
    forall p | 0 <= p < |t.probes| ensures ProbeOk(t, p) {
      assert ProbeOk(s, p);
      if Registered(s, p) {
        assert WithinBudget(s.probes[p]);
        assert Recorded([]) == 0;
      }
    }
    forall k | 0 <= k < |t.calls| ensures CallOk(t, t.calls[k]) {
      assert CallOk(s, s.calls[k]);
    }
    forall k, l ensures Follows(t, k, l, []) {
      assert Follows(s, k, l, []);
    }
  }

  // ---- Probe changes --------------------------------------------------------------------------------

  /** Changing one probe leaves the registry alone, as long as its identity does not change. */
  ghost predicate SameIdentity(a: Probe, b: Probe) {
    a.id == b.id && a.functionId == b.functionId && a.cleared == b.cleared && a.limit == b.limit
  }

  lemma SetProbeKeepsRegistry(s: State, p: nat, probe: Probe)
    requires RegistryInv(s) && p < |s.probes| && SameIdentity(s.probes[p], probe)
    ensures RegistryInv(SetProbe(s, p, probe))
    ensures forall q: nat :: Registered(SetProbe(s, p, probe), q) <==> Registered(s, q)
  {
    var t := SetProbe(s, p, probe);
    assert forall f, i, id :: HasIdAt(t, f, i, id) <==> HasIdAt(s, f, i, id);
    if !s.tripped {
      forall f | f in t.active
        ensures t.active[f] < |t.lists| && t.lists[t.active[f]] != []
        ensures forall k | 0 <= k < |t.lists[t.active[f]]| :: Mapped(t, f, t.lists[t.active[f]][k])
      {
        assert forall k | 0 <= k < |s.lists[s.active[f]]| :: Mapped(s, f, s.lists[s.active[f]][k]);
      }
    }
  }

  lemma SetProbeKeepsStacks(s: State, p: nat, probe: Probe, exempt: seq<nat>)
    requires StackInv(s, exempt) && p < |s.probes| && SameIdentity(s.probes[p], probe)
    requires Numbers(probe.entries) == Numbers(s.probes[p].entries) && WithinBudget(probe)
    ensures StackInv(SetProbe(s, p, probe), exempt)
  {
    var t := SetProbe(s, p, probe);
    forall q | 0 <= q < |t.probes| ensures ProbeOk(t, q) {
      assert ProbeOk(s, q);
    }
    forall k | 0 <= k < |t.calls| ensures CallOk(t, t.calls[k]) {
      assert CallOk(s, s.calls[k]);
    }
    forall k, l ensures Follows(t, k, l, exempt) {
      assert Follows(s, k, l, exempt);
    }
  }

  /** Every registered probe but one has budget left. */
  ghost predicate UnspentBut(s: State, except: int) {
    forall p: nat | Registered(s, p) && p != except :: Unspent(s.probes[p])
  }

  /** A probe whose lifetime budget runs out is removed. */
  lemma RemovalRestoresBudgets(s: State, p: nat)
    requires RegistryInv(s) && p < |s.probes| && UnspentBut(s, p)
    ensures AllUnspent(RemoveInstance(s, p)) && RegistryInv(RemoveInstance(s, p))
    ensures RemoveInstance(s, p).tripped == s.tripped
    ensures RemoveInstance(s, p).callCount == s.callCount
    ensures |RemoveInstance(s, p).lists| >= |s.lists|
    ensures forall l | 0 <= l < |s.lists| :: RemoveInstance(s, p).lists[l] == s.lists[l]
  {
    RemoveInstanceRemoves(s, p);
    var t := RemoveInstance(s, p);
    forall q: nat | Registered(t, q) ensures Unspent(t.probes[q]) {
      assert Registered(s, q);
    }
  }

  // ---- Hooks ----------------------------------------------------------------------------------------

  ghost predicate Inv(s: State, exempt: seq<nat>) {
    RegistryInv(s) && AllUnspent(s) && StackInv(s, exempt)
  }

  function Top(s: State): Call
    requires s.calls != []
  {
    s.calls[|s.calls| - 1]
  }

  /** Only `p` and the set of probes that the innermost call entered have changed. */
  ghost predicate OnlyTouches(s: State, t: State, p: nat) {
    && |t.probes| == |s.probes| && (forall q | 0 <= q < |s.probes| && q != p :: t.probes[q] == s.probes[q])
    && s.calls != [] && |t.calls| == |s.calls| && t.calls[..|s.calls| - 1] == s.calls[..|s.calls| - 1]
    && Top(t).number == Top(s).number && Top(t).list == Top(s).list
    && (forall q | q != p :: q in Top(t).entered <==> q in Top(s).entered)
    && |s.lists| <= |t.lists| && (forall l | 0 <= l < |s.lists| :: t.lists[l] == s.lists[l])
    && t.callCount == s.callCount && t.tripped == s.tripped
  }

  lemma RecallKeepsRegistry(s: State, t: State)
    requires RegistryInv(s) && AllUnspent(s) && t == s.(calls := t.calls)
    ensures RegistryInv(t) && AllUnspent(t)
  {
    assert forall q: nat :: Registered(t, q) <==> Registered(s, q);
    assert forall f, i, id :: HasIdAt(t, f, i, id) <==> HasIdAt(s, f, i, id);
    assert forall f, q :: Mapped(t, f, q) <==> Mapped(s, f, q);
  }

  /** Room for one more event: the limit is not reached, or a recorded activation was just popped. */
  ghost predicate MaySend(probe: Probe) {
    || probe.eventsSent < probe.limit
    || (probe.limit > 0 && probe.eventsSent + 1 + Recorded(probe.entries) <= probe.limit + probe.pendingAtLimit)
  }

  /** The probe after one more event. */
  function Counted(probe: Probe): Probe {
    var sent := probe.(eventsSent := probe.eventsSent + 1);
    if sent.eventsSent == sent.limit then sent.(pendingAtLimit := Recorded(sent.entries)) else sent
  }

  lemma CountKeepsInv(s: State, p: nat, exempt: seq<nat>)
    requires Inv(s, exempt) && p < |s.probes| && MaySend(s.probes[p])
    ensures
      var t := SetProbe(s, p, Counted(s.probes[p]));
      && RegistryInv(t) && StackInv(t, exempt) && UnspentBut(t, p) && WithinBudget(t.probes[p])
      && (!Exhausted(t.probes[p]) ==> AllUnspent(t))
  {
    var counted := Counted(s.probes[p]);
    SetProbeKeepsRegistry(s, p, counted);
    SetProbeKeepsStacks(s, p, counted, exempt);
  }

  lemma SendIsCountAndRemoval(s: State, p: nat)
    requires p < |s.probes|
    ensures
      var counted := SetProbe(s, p, Counted(s.probes[p]));
      SendEvent(s, p) == if Exhausted(counted.probes[p]) then RemoveInstance(counted, p) else counted
  {}

  lemma RemovalTouchesNothing(s: State, p: nat)
    requires RegistryInv(s) && p < |s.probes| && s.calls != []
    ensures OnlyTouches(s, RemoveInstance(s, p), p) && RemoveInstance(s, p).probes == s.probes
  {
    RemoveInstanceRemoves(s, p);
  }

  lemma SendTouches(s: State, p: nat)
    requires RegistryInv(s) && p < |s.probes| && s.calls != []
    ensures
      var t := SendEvent(s, p);
      OnlyTouches(s, t, p) && t.calls == s.calls && t.probes == s.probes[p := Counted(s.probes[p])]
  {
    var counted := SetProbe(s, p, Counted(s.probes[p]));
    SetProbeKeepsRegistry(s, p, Counted(s.probes[p]));
    RemovalTouchesNothing(counted, p);
    OnlyTouchesTransitive(s, counted, RemoveInstance(counted, p), p);
    SendIsCountAndRemoval(s, p);
  }

  lemma SendKeepsInv(s: State, p: nat, exempt: seq<nat>)
    requires Inv(s, exempt) && p < |s.probes| && MaySend(s.probes[p]) && s.calls != []
    ensures Inv(SendEvent(s, p), exempt)
  {
    var counted := SetProbe(s, p, Counted(s.probes[p]));
    SendIsCountAndRemoval(s, p);
    CountKeepsInv(s, p, exempt);
    if Exhausted(counted.probes[p]) {
      RemovalRestoresBudgets(counted, p);
      RemoveInstanceKeepsStacks(counted, p, exempt);
    }
  }

  // ---- onEntry --------------------------------------------------------------------------------------

  ghost predicate ToEnter(s: State, todo: seq<nat>) {
    && s.calls != [] && (forall j, k | 0 <= j < k < |todo| :: todo[j] != todo[k])
    && forall k | 0 <= k < |todo| ::
         && todo[k] < |s.probes| && todo[k] in ListOf(s, Top(s).list) && todo[k] !in Top(s).entered
         && !s.probes[todo[k]].cleared
  }

  ghost predicate UnspentOnes(s: State, todo: seq<nat>) {
    forall k | 0 <= k < |todo| :: todo[k] < |s.probes| && Unspent(s.probes[todo[k]])
  }

  lemma TouchesKeepsTodo(s: State, t: State, p: nat, todo: seq<nat>)
    requires ToEnter(s, [p] + todo) && OnlyTouches(s, t, p) && (Top(s).list.ListAt? ==> Top(s).list.at < |s.lists|)
    requires UnspentOnes(s, [p] + todo)
    ensures ToEnter(t, todo) && UnspentOnes(t, todo)
  {
    var all := [p] + todo;
    assert forall k | 0 <= k < |todo| :: todo[k] == all[k + 1] && todo[k] != all[0];
  }

  /** The entry of the innermost call goes on top of the stack. */
  lemma PushKeepsProbes(s: State, p: nat, skipped: bool, rest: seq<nat>)
    requires StackInv(s, [p] + rest) && ToEnter(s, [p] + rest)
    requires p < |s.probes| && s.probes[p].limit > 0 && (skipped || s.probes[p].eventsSent < s.probes[p].limit)
    ensures
      var t := Cover(PushEntry(s, p, Top(s).number, skipped), p);
      forall q | 0 <= q < |t.probes| :: ProbeOk(t, q)
  {
    var all := [p] + rest;
    assert all[0] == p;
    var e := Entry(Top(s).number, skipped);
    var t := Cover(PushEntry(s, p, Top(s).number, skipped), p);
    forall q | 0 <= q < |t.probes| ensures ProbeOk(t, q) {
      assert ProbeOk(s, q);
      NumbersOfTop(s.calls, Top(t), q);
      if q == p {
        RecordedPush(s.probes[p].entries, e);
        assert Numbers(t.probes[p].entries) == Numbers(s.probes[p].entries) + [e.call];
      }
    }
  }

  lemma PushKeepsCalls(s: State, p: nat, skipped: bool, rest: seq<nat>)
    requires StackInv(s, [p] + rest) && ToEnter(s, [p] + rest) && p < |s.probes| && s.probes[p].limit > 0
    ensures
      var t := Cover(PushEntry(s, p, Top(s).number, skipped), p);
      && (forall k | 0 <= k < |t.calls| :: CallOk(t, t.calls[k]))
      && (forall k, l :: Follows(t, k, l, rest))
  {
    var all := [p] + rest;
    assert all[0] == p;
    var t := Cover(PushEntry(s, p, Top(s).number, skipped), p);
    forall k | 0 <= k < |t.calls| ensures CallOk(t, t.calls[k]) {
      assert CallOk(s, s.calls[k]);
    }
    forall k, l ensures Follows(t, k, l, rest) {
      assert Follows(s, k, l, all);
      if 0 <= k < l < |s.calls| {
        assert t.calls[k] == s.calls[k];
      }
    }
  }

  lemma PushKeepsInv(s: State, p: nat, skipped: bool, rest: seq<nat>)
    requires Inv(s, [p] + rest) && ToEnter(s, [p] + rest)
    requires p < |s.probes| && s.probes[p].limit > 0 && (skipped || s.probes[p].eventsSent < s.probes[p].limit)
    ensures
      var t := Cover(PushEntry(s, p, Top(s).number, skipped), p);
      Inv(t, rest) && OnlyTouches(s, t, p)
  {
    var all := [p] + rest;
    assert all[0] == p;
    var probe := s.probes[p].(entries := s.probes[p].entries + [Entry(Top(s).number, skipped)]);
    SetProbeKeepsRegistry(s, p, probe);
    var pushed := SetProbe(s, p, probe);
    assert AllUnspent(pushed);
    RecallKeepsRegistry(pushed, Cover(pushed, p));
    PushKeepsProbes(s, p, skipped, rest);
    PushKeepsCalls(s, p, skipped, rest);
  }

  /** A probe without any budget is on no stack. */
  lemma UnenteredNeedsNoExemption(s: State, p: nat, rest: seq<nat>)
    requires StackInv(s, [p] + rest) && p < |s.probes| && s.probes[p].limit == 0
    ensures StackInv(s, rest)
  {
    forall k, l ensures Follows(s, k, l, rest) {
      assert Follows(s, k, l, [p] + rest);
      if 0 <= k < l < |s.calls| {
        assert CallOk(s, s.calls[k]);
        assert forall q | q in [p] + rest && q != p :: q in rest;
      }
    }
  }

  lemma ReportKeepsInv(s: State, p: nat, rest: seq<nat>)
    requires Inv(s, [p] + rest) && ToEnter(s, [p] + rest) && p < |s.probes| && !Exhausted(s.probes[p])
    ensures
      var t := Cover(PushEntry(SendEvent(s, p), p, Top(s).number, true), p);
      Inv(t, rest) && OnlyTouches(s, t, p)
  {
    var sent := SendEvent(s, p);
    SendTouches(s, p);
    SendKeepsInv(s, p, [p] + rest);
    StillToEnter(s, sent, p, [p] + rest);
    PushKeepsInv(sent, p, true, rest);
    OnlyTouchesTransitive(s, sent, Cover(PushEntry(sent, p, Top(sent).number, true), p), p);
  }

  lemma EnterProbeKeepsInv(s: State, p: nat, outcome: EntryOutcome, rest: seq<nat>)
    requires Inv(s, [p] + rest) && ToEnter(s, [p] + rest) && p < |s.probes| && Unspent(s.probes[p])
    ensures Inv(EnterProbe(s, p, outcome), rest) && OnlyTouches(s, EnterProbe(s, p, outcome), p)
  {
    var all := [p] + rest;
    assert all[0] == p;
    if Exhausted(s.probes[p]) {
      UnenteredNeedsNoExemption(s, p, rest);
      RemoveInstanceKeepsStacks(s, p, rest);
      assert UnspentBut(s, p);
      RemovalRestoresBudgets(s, p);
    } else if outcome == SkipAndReportError {
      ReportKeepsInv(s, p, rest);
    } else {
      PushKeepsInv(s, p, outcome == Skip, rest);
    }
  }

  lemma OnlyTouchesTransitive(s: State, t: State, u: State, p: nat)
    requires OnlyTouches(s, t, p) && OnlyTouches(t, u, p)
    ensures OnlyTouches(s, u, p)
  {}

  /** Sending an event does not change what has to be entered. */
  lemma StillToEnter(s: State, t: State, p: nat, todo: seq<nat>)
    requires StackInv(s, todo) && ToEnter(s, todo) && OnlyTouches(s, t, p) && t.calls == s.calls
    requires p < |s.probes| && t.probes[p].cleared == s.probes[p].cleared
    ensures ToEnter(t, todo)
  {
    assert CallOk(s, Top(s));
  }

  lemma {:induction false} EnterProbesKeepsInv(s: State, todo: seq<nat>, onEntry: nat -> EntryOutcome)
    requires Inv(s, todo) && ToEnter(s, todo) && UnspentOnes(s, todo)
    ensures Inv(EnterProbes(s, todo, onEntry), [])
    ensures EnterProbes(s, todo, onEntry).tripped == s.tripped
    decreases |todo|
  {
    if todo != [] {
      var p, rest := todo[0], todo[1..];
      assert [p] + rest == todo;
      assert CallOk(s, Top(s));
      var t := EnterProbe(s, p, onEntry(p));
      EnterProbeKeepsInv(s, p, onEntry(p), rest);
      TouchesKeepsTodo(s, t, p, rest);
      EnterProbesKeepsInv(t, rest, onEntry);
    }
  }

  lemma EnterCallKeepsInv(s: State, functionId: string)
    requires Inv(s, [])
    ensures
      var t := EnterCall(s, functionId);
      var todo := ListOf(t, Top(t).list);
      Inv(t, todo) && ToEnter(t, todo) && UnspentOnes(t, todo)
  {
    var t := EnterCall(s, functionId);
    var todo := ListOf(t, Top(t).list);
    RecallKeepsRegistry(s, s.(calls := t.calls));
    assert t == s.(calls := t.calls).(callCount := t.callCount);
    RecountKeepsRegistry(s.(calls := t.calls), t);
    assert t.calls[..|s.calls|] == s.calls;
    forall p | 0 <= p < |t.probes| ensures ProbeOk(t, p) {
      assert ProbeOk(s, p);
    }
    forall k | 0 <= k < |t.calls| ensures CallOk(t, t.calls[k]) {
      if k < |s.calls| {
        assert CallOk(s, s.calls[k]);
      } else if functionId in s.active {
        assert s.active[functionId] < |s.lists|;
      }
    }
    forall k, l ensures Follows(t, k, l, todo) {
      assert Follows(s, k, l, []);
    }
    forall k | 0 <= k < |todo| ensures Registered(s, todo[k]) && !s.probes[todo[k]].cleared {
      RegisteredAt(s, functionId, k);
      RegisteredMapped(s, todo[k]);
    }
  }

  lemma RecountKeepsRegistry(s: State, t: State)
    requires RegistryInv(s) && AllUnspent(s) && t == s.(callCount := t.callCount)
    ensures RegistryInv(t) && AllUnspent(t)
  {
    assert forall q: nat :: Registered(t, q) <==> Registered(s, q);
    assert forall f, i, id :: HasIdAt(t, f, i, id) <==> HasIdAt(s, f, i, id);
    assert forall f, q :: Mapped(t, f, q) <==> Mapped(s, f, q);
  }

  // ---- onReturn and onThrow -------------------------------------------------------------------------

  ghost predicate ToExit(s: State, todo: seq<nat>, done: seq<nat>) {
    && s.calls != [] && (forall j, k | 0 <= j < k < |todo| :: todo[j] != todo[k])
    && (forall k | 0 <= k < |todo| ::
          todo[k] < |s.probes| && todo[k] in ListOf(s, Top(s).list) && todo[k] !in done)
    && forall q | q in Top(s).entered :: q in todo
  }

  /** On top of a probe's stack is the entry of the innermost call, or the stack is empty. */
  lemma TopEntryIsOwn(s: State, p: nat, todo: seq<nat>, done: seq<nat>)
    requires StackInv(s, done) && ToExit(s, todo, done) && p in todo
    ensures
      var entries := s.probes[p].entries;
      if p in Top(s).entered && !s.probes[p].cleared
      then
        && entries != [] && entries[|entries| - 1].call == Top(s).number
        && Numbers(entries[..|entries| - 1]) == NumbersOf(s.calls[..|s.calls| - 1], p)
      else entries == []
  {
    var entries := s.probes[p].entries;
    var outer := s.calls[..|s.calls| - 1];
    assert ProbeOk(s, p);
    if s.probes[p].cleared {
      assert |Numbers(entries)| == 0;
    } else if p in Top(s).entered {
      assert Numbers(entries) == NumbersOf(outer, p) + [Top(s).number];
      assert Numbers(entries)[..|entries| - 1] == NumbersOf(outer, p);
      assert Numbers(entries)[|entries| - 1] == Top(s).number;
      assert Numbers(entries[..|entries| - 1]) == Numbers(entries)[..|entries| - 1];
    } else {
      forall k | 0 <= k < |outer| ensures p !in outer[k].entered {
        assert Follows(s, k, |s.calls| - 1, done);
      }
      NotEntered(outer, p);
      assert |Numbers(entries)| == 0;
    }
  }

  function Popped(s: State, p: nat): State
    requires p < |s.probes| && s.calls != []
  {
    Uncover(PopEntry(s, p), p)
  }

  lemma PopKeepsOthers(s: State, p: nat, q: nat)
    requires p < |s.probes| && q < |s.probes| && p != q && s.calls != [] && ProbeOk(s, q)
    ensures ProbeOk(Popped(s, p), q)
  {
    NumbersOfTop(s.calls, Top(Popped(s, p)), q);
  }

  lemma PopStaysWithinBudget(probe: Probe)
    requires WithinBudget(probe) && probe.entries != []
    ensures WithinBudget(probe.(entries := probe.entries[..|probe.entries| - 1]))
  {}

  lemma PopKeepsOwn(s: State, p: nat, todo: seq<nat>, done: seq<nat>)
    requires StackInv(s, done) && ToExit(s, todo, done) && p in todo
    ensures ProbeOk(Popped(s, p), p)
  {
    TopEntryIsOwn(s, p, todo, done);
    assert ProbeOk(s, p);
    var t := Popped(s, p);
    NumbersOfTop(s.calls, Top(t), p);
    assert p !in Top(t).entered;
    if s.probes[p].entries != [] {
      PopStaysWithinBudget(s.probes[p]);
    } else if !s.probes[p].cleared {
      assert |NumbersOf(s.calls, p)| == 0;
    }
  }

  lemma PopKeepsProbes(s: State, p: nat, todo: seq<nat>, done: seq<nat>)
    requires StackInv(s, done) && ToExit(s, todo, done) && p in todo
    ensures forall q | 0 <= q < |s.probes| :: ProbeOk(Popped(s, p), q)
  {
    forall q | 0 <= q < |s.probes| ensures ProbeOk(Popped(s, p), q) {
      if q == p {
        PopKeepsOwn(s, p, todo, done);
      } else {
        PopKeepsOthers(s, p, q);
      }
    }
  }

  lemma PopKeepsCalls(s: State, p: nat, todo: seq<nat>, done: seq<nat>)
    requires StackInv(s, done) && ToExit(s, todo, done) && p in todo
    ensures
      var t := Popped(s, p);
      && (forall k | 0 <= k < |t.calls| :: CallOk(t, t.calls[k]))
      && (forall k, l :: Follows(t, k, l, done + [p]))
  {
    var t := Popped(s, p);
    forall k | 0 <= k < |t.calls| ensures CallOk(t, t.calls[k]) {
      assert CallOk(s, s.calls[k]);
    }
    forall k, l ensures Follows(t, k, l, done + [p]) {
      assert Follows(s, k, l, done);
      if 0 <= k < l < |s.calls| {
        assert t.calls[k] == s.calls[k];
      }
    }
  }

  lemma PopKeepsRegistry(s: State, p: nat)
    requires RegistryInv(s) && AllUnspent(s) && p < |s.probes| && s.calls != []
    ensures RegistryInv(Popped(s, p)) && AllUnspent(Popped(s, p))
  {
    var entries := s.probes[p].entries;
    var probe := if entries == [] then s.probes[p] else s.probes[p].(entries := entries[..|entries| - 1]);
    assert entries == [] ==> s.probes[p := probe] == s.probes;
    var popped := SetProbe(s, p, probe);
    SetProbeKeepsRegistry(s, p, probe);
    assert AllUnspent(popped);
    RecallKeepsRegistry(popped, Uncover(popped, p));
  }

  lemma PopKeepsInv(s: State, p: nat, todo: seq<nat>, done: seq<nat>)
    requires Inv(s, done) && ToExit(s, todo, done) && p in todo
    ensures Inv(Popped(s, p), done + [p]) && OnlyTouches(s, Popped(s, p), p)
    ensures p !in Top(Popped(s, p)).entered
  {
    PopKeepsRegistry(s, p);
    PopKeepsProbes(s, p, todo, done);
    PopKeepsCalls(s, p, todo, done);
  }

  lemma PoppedMaySend(s: State, p: nat, exempt: seq<nat>)
    requires StackInv(s, exempt) && p < |s.probes| && s.calls != [] && s.probes[p].entries != []
    requires !s.probes[p].entries[|s.probes[p].entries| - 1].skipped
    ensures MaySend(Popped(s, p).probes[p])
  {
    assert ProbeOk(s, p);
  }

  lemma ExitProbeKeepsInv(s: State, p: nat, outcome: ExitOutcome, todo: seq<nat>, done: seq<nat>)
    requires Inv(s, done) && ToExit(s, todo, done) && p in todo
    ensures Inv(ExitProbe(s, p, outcome), done + [p]) && OnlyTouches(s, ExitProbe(s, p, outcome), p)
    ensures p !in Top(ExitProbe(s, p, outcome)).entered
  {
    var entries := s.probes[p].entries;
    var popped := Popped(s, p);
    PopKeepsInv(s, p, todo, done);
    if entries != [] && !entries[|entries| - 1].skipped && outcome == Report {
      PoppedMaySend(s, p, done);
      SendTouches(popped, p);
      SendKeepsInv(popped, p, done + [p]);
      OnlyTouchesTransitive(s, popped, SendEvent(popped, p), p);
    }
  }

  lemma {:induction false} ExitProbesKeepsInv(s: State, todo: seq<nat>, done: seq<nat>, onExit: nat -> ExitOutcome)
    requires Inv(s, done) && ToExit(s, todo, done)
    ensures
      var t := ExitProbes(s, todo, onExit);
      Inv(t, done + todo) && Top(t).entered == {} && t.tripped == s.tripped
    decreases |todo|
  {
    if todo == [] {
      assert done + todo == done;
    } else {
      var p, rest := todo[0], todo[1..];
      assert [p] + rest == todo;
      assert CallOk(s, Top(s));
      var t := ExitProbe(s, p, onExit(p));
      ExitProbeKeepsInv(s, p, onExit(p), todo, done);
      StillToExit(s, t, p, rest, done);
      ExitProbesKeepsInv(t, rest, done + [p], onExit);
      assert done + [p] + rest == done + todo;
    }
  }

  lemma StillToExit(s: State, t: State, p: nat, rest: seq<nat>, done: seq<nat>)
    requires ToExit(s, [p] + rest, done) && OnlyTouches(s, t, p) && p !in Top(t).entered && CallOk(s, Top(s))
    ensures ToExit(t, rest, done + [p])
  {
    var todo := [p] + rest;
    assert forall k | 0 <= k < |rest| :: rest[k] == todo[k + 1] && rest[k] != todo[0];
    forall q | q in Top(t).entered ensures q in rest {
      assert q in todo && q != p;
    }
  }

  /** The innermost call has left every probe, and can go. */
  lemma DropCallKeepsInv(s: State, exempt: seq<nat>)
    requires Inv(s, exempt) && s.calls != [] && Top(s).entered == {}
    ensures Inv(s.(calls := s.calls[..|s.calls| - 1]), [])
  {
    var t := s.(calls := s.calls[..|s.calls| - 1]);
    RecallKeepsRegistry(s, t);
    forall p | 0 <= p < |t.probes| ensures ProbeOk(t, p) {
      assert ProbeOk(s, p);
    }
    forall k | 0 <= k < |t.calls| ensures CallOk(t, t.calls[k]) {
      assert CallOk(s, s.calls[k]);
    }
    forall k, l ensures Follows(t, k, l, []) {
      assert Follows(s, k, l, exempt);
    }
  }

  lemma ReadyToExit(s: State)
    requires Inv(s, []) && s.calls != []
    ensures ToExit(s, ListOf(s, Top(s).list), [])
  {
    assert CallOk(s, Top(s));
  }
}
