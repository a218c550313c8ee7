/** The registry, the processing of poll responses and the hooks as code that changes its state in place,
    proved against `Debugger`. */
module DebuggerRuntime {
  import opened Debugger
  import opened DebuggerRegistry
  import opened DebuggerDelivery
  import opened DebuggerStacks
  import opened DebuggerTheorems

  class LiveDebugger {
    const maxUnreachable: int
    var probes: seq<Probe>
    var lists: seq<seq<nat>>
    var active: map<string, nat>
    var functionOf: map<string, string>
    var known: set<string>
    var firstFailure: Time
    var tripped: bool
    var callCount: nat
    var calls: seq<Call>

    ghost function Abs(): State
      reads this
    {
      State(probes, lists, active, functionOf, known, firstFailure, tripped, callCount, calls)
    }

    ghost predicate Valid()
      reads this
    {
      Inv(Abs(), [])
    }

    constructor (maxUnreachable: int)
      ensures Abs() == Init() && Valid() && this.maxUnreachable == maxUnreachable
    {
      this.maxUnreachable := maxUnreachable;
      probes, lists, active, functionOf, known := [], [], map[], map[], {};
      firstFailure, tripped, callCount, calls := Never, false, 0, [];
      new;
      InitSatisfiesInv();
    }

    // ---- Registry ---------------------------------------------------------------------------------

    method TakeOut(functionId: string, id: string, i: nat)
      requires functionId in active && active[functionId] < |lists| && i < |lists[active[functionId]]|
      modifies this
      ensures Abs() == RemoveAt(old(Abs()), functionId, id, i)
    {
      var list := lists[active[functionId]];
      var remaining := list[..i] + list[i + 1..];
      if |remaining| == 0 {
        active := active - {functionId};
      } else {
        active := active[functionId := |lists|];
        lists := lists + [remaining];
      }
      functionOf := functionOf - {id};
    }

    method RemoveProbeById(id: string) returns (found: bool)
      modifies this
      ensures found == RemoveById(old(Abs()), id).Removed?
      ensures Abs() == if found then RemoveById(old(Abs()), id).state else old(Abs())
    {
      if id !in functionOf || functionOf[id] !in active || active[functionOf[id]] >= |lists| {
        return false;
      }
      var functionId := functionOf[id];
      var list := lists[active[functionId]];
      var i := 0;
      while i < |list|
        invariant 0 <= i <= |list| && Abs() == old(Abs())
        invariant IndexOfId(probes, list, id) == i + IndexOfId(probes, list[i..], id)
      {
        assert list[i..][1..] == list[i + 1..];
        if list[i] < |probes| && probes[list[i]].id == id {
          TakeOut(functionId, id, i);
          return true;
        }
        i := i + 1;
      }
      assert IndexOfId(probes, [], id) == 0;
      functionOf := functionOf - {id};
      if |list| == 0 {
        active := active - {functionId};
      }
      return true;
    }

    method RemoveProbeInstance(p: nat)
      requires p < |probes|
      modifies this
      ensures Abs() == RemoveInstance(old(Abs()), p)
    {
      var id := probes[p].id;
      if id !in functionOf || functionOf[id] !in active || active[functionOf[id]] >= |lists| {
        return;
      }
      var functionId := functionOf[id];
      var list := lists[active[functionId]];
      var i := 0;
      var hasReplacement := false;
      while i < |list|
        invariant 0 <= i <= |list| && Abs() == old(Abs())
        invariant IndexOf(list, p) == i + IndexOf(list[i..], p)
        invariant hasReplacement ==> IndexOfId(probes, list, id) < |list|
        invariant !hasReplacement ==> IndexOfId(probes, list, id) == i + IndexOfId(probes, list[i..], id)
      {
        assert list[i..][1..] == list[i + 1..];
        if list[i] == p {
          TakeOut(functionId, id, i);
          return;
        }
        if list[i] < |probes| && probes[list[i]].id == id {
          hasReplacement := true;
        }
        i := i + 1;
      }
      assert IndexOf([], p) == 0 && IndexOfId(probes, [], id) == 0;
      if hasReplacement {
        return;
      }
      functionOf := functionOf - {id};
      if |list| == 0 {
        active := active - {functionId};
      }
    }

    method Add(u: Update)
      modifies this
      ensures Abs() == AddProbe(old(Abs()), u)
    {
      var p := |probes|;
      probes := probes + [Probe(u.id, u.functionId, u.limit, 0, [], false, 0)];
      functionOf := functionOf[u.id := u.functionId];
      if u.functionId in active && active[u.functionId] < |lists| {
        var l := active[u.functionId];
        lists := lists[l := lists[l] + [p]];
      } else {
        active := active[u.functionId := |lists|];
        lists := lists + [[p]];
      }
    }

    method Clear()
      modifies this
      ensures Abs() == ClearProbes(old(Abs()))
    {
      var p := 0;
      var cleared: seq<Probe> := [];
      while p < |probes|
        invariant 0 <= p <= |probes| && |cleared| == p && Abs() == old(Abs())
        invariant forall q | 0 <= q < p ::
                    cleared[q] == if Registered(old(Abs()), q) then probes[q].(entries := [], cleared := true) else probes[q]
      {
        var f := probes[p].functionId;
        var registered := f in active && active[f] < |lists| && p in lists[active[f]];
        cleared := cleared + [if registered then probes[p].(entries := [], cleared := true) else probes[p]];
        p := p + 1;
      }
      probes := cleared;
      active := map[];
      functionOf := map id | id in functionOf && id == PLACEHOLDER :: functionOf[id];
    }

    // ---- Delivery API -----------------------------------------------------------------------------

    method TripBreaker()
      modifies this
      ensures Abs() == Trip(old(Abs()))
    {
      if tripped {
        return;
      }
      tripped := true;
      Clear();
      known := {};
    }

    method NoteFailureAndTrip(now: int)
      modifies this
      ensures Abs() == NoteFailure(old(Abs()), now, maxUnreachable)
    {
      if firstFailure.Never? {
        firstFailure := At(now);
      } else if now - firstFailure.ms >= maxUnreachable {
        TripBreaker();
      }
    }

    method ApplyDeletion(id: string)
      modifies this
      ensures Abs() == Delete(old(Abs()), id)
    {
      if id in known {
        var found := RemoveProbeById(id);
        if found {
          known := known - {id};
        }
      }
    }

    method ApplyUpdate(u: Update)
      modifies this
      ensures Abs() == Apply(old(Abs()), u)
    {
      if u.id == "" {
        return;
      }
      if u.id in known {
        var _ := RemoveProbeById(u.id);
      }
      assert Abs() == RemoveIfKnown(old(Abs()), u.id);
      if !u.supported {
        known := known - {u.id};
        return;
      }
      if u.compiles {
        Add(u);
        known := known + {u.id};
      }
    }

    method ReachServer()
      requires Valid()
      modifies this
      ensures Abs() == Step(old(Abs()), ServerReached, maxUnreachable) && Valid()
    {
      StepKeepsInv(Abs(), ServerReached, maxUnreachable);
      if !tripped {
        firstFailure := Never;
      }
    }

    method ProcessResponse(deletions: seq<string>, updates: seq<Update>)
      requires Valid()
      modifies this
      ensures Abs() == Step(old(Abs()), PollSucceeded(deletions, updates), maxUnreachable) && Valid()
    {
      StepKeepsInv(Abs(), PollSucceeded(deletions, updates), maxUnreachable);
      if tripped {
        return;
      }
      var i := 0;
      while i < |deletions|
        invariant 0 <= i <= |deletions|
        invariant DeleteAll(Abs(), deletions[i..]) == DeleteAll(old(Abs()), deletions)
      {
        assert deletions[i..][1..] == deletions[i + 1..];
        ApplyDeletion(deletions[i]);
        i := i + 1;
      }
      ghost var deleted := Abs();
      var j := 0;
      while j < |updates|
        invariant 0 <= j <= |updates|
        invariant ApplyAll(Abs(), updates[j..]) == ApplyAll(deleted, updates)
      {
        assert updates[j..][1..] == updates[j + 1..];
        ApplyUpdate(updates[j]);
        j := j + 1;
      }
    }

    method ProcessRejection(status: int, now: int)
      requires Valid()
      modifies this
      ensures Abs() == Step(old(Abs()), PollRejected(status, now), maxUnreachable) && Valid()
    {
      StepKeepsInv(Abs(), PollRejected(status, now), maxUnreachable);
      if tripped {
        return;
      }
      if status >= 500 || status == 408 || status == 429 {
        NoteFailureAndTrip(now);
      } else {
        TripBreaker();
      }
    }

    method ProcessFailure(now: int)
      requires Valid()
      modifies this
      ensures Abs() == Step(old(Abs()), PollFailed(now), maxUnreachable) && Valid()
    {
      StepKeepsInv(Abs(), PollFailed(now), maxUnreachable);
      if !tripped {
        NoteFailureAndTrip(now);
      }
    }

    // ---- Hooks ------------------------------------------------------------------------------------

    method QueueDebuggerSnapshot(p: nat)
      requires p < |probes|
      modifies this
      ensures Abs() == SendEvent(old(Abs()), p)
    {
      var probe := probes[p];
      probe := probe.(eventsSent := probe.eventsSent + 1);
      if probe.eventsSent == probe.limit {
        probe := probe.(pendingAtLimit := Recorded(probe.entries));
      }
      probes := probes[p := probe];
      if probe.eventsSent >= probe.limit {
        RemoveProbeInstance(p);
      }
    }

    method PushActiveEntry(p: nat, skipped: bool)
      requires p < |probes| && calls != []
      modifies this
      ensures Abs() == Cover(PushEntry(old(Abs()), p, old(calls)[|old(calls)| - 1].number, skipped), p)
    {
      var top := calls[|calls| - 1];
      probes := probes[p := probes[p].(entries := probes[p].entries + [Entry(top.number, skipped)])];
      calls := calls[|calls| - 1 := top.(entered := top.entered + {p})];
    }

    method EnterOne(p: nat, outcome: EntryOutcome)
      requires p < |probes| && calls != []
      modifies this
      ensures Abs() == EnterProbe(old(Abs()), p, outcome)
    {
      if probes[p].eventsSent >= probes[p].limit {
        RemoveProbeInstance(p);
        return;
      }
      if outcome == SkipAndReportError {
        QueueDebuggerSnapshot(p);
      }
      PushActiveEntry(p, outcome != Record);
    }

    method BeginCall(functionId: string) returns (hit: seq<nat>)
      modifies this
      ensures Abs() == EnterCall(old(Abs()), functionId)
      ensures calls != [] && hit == ListOf(Abs(), Top(Abs()).list)
    {
      var list := if functionId in active then ListAt(active[functionId]) else NoList;
      calls := calls + [Call(callCount, list, {})];
      callCount := callCount + 1;
      hit := if list.ListAt? && list.at < |lists| then lists[list.at] else [];
    }

    method EnterHits(hit: seq<nat>, onEntry: nat -> EntryOutcome)
      requires calls != []
      modifies this
      ensures Abs() == EnterProbes(old(Abs()), hit, onEntry)
    {
      var i := 0;
      while i < |hit|
        invariant 0 <= i <= |hit| && calls != []
        invariant EnterProbes(Abs(), hit[i..], onEntry) == EnterProbes(old(Abs()), hit, onEntry)
      {
        assert hit[i..][1..] == hit[i + 1..];
        if hit[i] < |probes| {
          EnterOne(hit[i], onEntry(hit[i]));
        }
        i := i + 1;
      }
    }

    /** An instrumented function is called: it gets its list and runs `onEntry` on it. */
    method OnEntry(functionId: string, onEntry: nat -> EntryOutcome)
      requires Valid()
      modifies this
      ensures Abs() == Step(old(Abs()), Enter(functionId, onEntry), maxUnreachable) && Valid()
    {
      StepKeepsInv(Abs(), Enter(functionId, onEntry), maxUnreachable);
      var hit := BeginCall(functionId);
      EnterHits(hit, onEntry);
    }

    method PopActiveEntry(p: nat) returns (recorded: bool)
      requires p < |probes| && calls != []
      modifies this
      ensures Abs() == Popped(old(Abs()), p)
      ensures recorded <==> old(probes)[p].entries != [] && !old(probes)[p].entries[|old(probes)[p].entries| - 1].skipped
    {
      var entries := probes[p].entries;
      var top := calls[|calls| - 1];
      recorded := |entries| > 0 && !entries[|entries| - 1].skipped;
      if |entries| > 0 {
        probes := probes[p := probes[p].(entries := entries[..|entries| - 1])];
      }
      calls := calls[|calls| - 1 := top.(entered := top.entered - {p})];
    }

    method ExitOne(p: nat, outcome: ExitOutcome)
      requires p < |probes| && calls != []
      modifies this
      ensures Abs() == ExitProbe(old(Abs()), p, outcome)
    {
      var recorded := PopActiveEntry(p);
      if recorded && outcome == Report {
        QueueDebuggerSnapshot(p);
      }
    }

    /** The innermost call returns or throws. */
    method OnReturnOrThrow(onExit: nat -> ExitOutcome)
      requires Valid()
      modifies this
      ensures Abs() == Step(old(Abs()), Exit(onExit), maxUnreachable) && Valid()
    {
      StepKeepsInv(Abs(), Exit(onExit), maxUnreachable);
      if calls == [] {
        return;
      }
      var list := calls[|calls| - 1].list;
      var hit := if list.ListAt? && list.at < |lists| then lists[list.at] else [];
      ghost var started := Abs();
      var i := 0;
      while i < |hit|
        invariant 0 <= i <= |hit| && |calls| == |started.calls|
        invariant ExitProbes(Abs(), hit[i..], onExit) == ExitProbes(started, hit, onExit)
      {
        assert hit[i..][1..] == hit[i + 1..];
        if hit[i] < |probes| {
          ExitOne(hit[i], onExit(hit[i]));
        }
        i := i + 1;
      }
      calls := calls[..|calls| - 1];
    }
  }
}
