/** The live debugger as a transition system: the two-way registry of probes, the set of known ids, the
    circuit breaker of the delivery API, and one stack of activations per probe.

    Probe instances and lists of probes are objects with an identity; they are numbered in creation order.
    A running call of an instrumented function keeps the list it got on entry, which later additions change in
    place and removals leave alone. Rate limits, conditions and captures decide what a hook does with an
    activation; what they decide is an input (`EntryOutcome`, `ExitOutcome`). */
module Debugger {

  /** The key that is always in the two records of the registry, and that `clearProbes` leaves there. */
  const PLACEHOLDER: string := "__placeholder__"

  /** One element of `activeEntries`, with the call that pushed it. A skipped one is null in the source. */
  datatype Entry = Entry(call: nat, skipped: bool)

  /** Two facts are recorded on top of the source's fields: that `clearProbes` tore the probe down, and how
      many activations it had recorded when its lifetime budget ran out. */
  datatype Probe = Probe(
    id: string,
    functionId: string,
    limit: nat,
    eventsSent: nat,
    entries: seq<Entry>,
    cleared: bool,
    pendingAtLimit: nat)

  datatype ListRef = NoList | ListAt(at: nat)

  /** A running call: its number, the list of probes it got, and the probes that hold an entry of it. */
  datatype Call = Call(number: nat, list: ListRef, entered: set<nat>)

  datatype Time = Never | At(ms: int)

  datatype State = State(
    probes: seq<Probe>,
    lists: seq<seq<nat>>,
    active: map<string, nat>,
    functionOf: map<string, string>,
    known: set<string>,
    firstFailure: Time,
    tripped: bool,
    callCount: nat,
    calls: seq<Call>)

  /** A probe of a poll response. The limit is that of its kind. */
  datatype Update = Update(id: string, functionId: string, limit: nat, supported: bool, compiles: bool)

  datatype EntryOutcome = Skip | SkipAndReportError | Record

  datatype ExitOutcome = Discard | Report

  /** A poll that is answered first reaches the server, and is processed once its body is read; polls overlap.
      It can be rejected instead, or fail, also while its body is read. */
  datatype Action =
    | ServerReached
    | PollSucceeded(deletions: seq<string>, updates: seq<Update>)
    | PollRejected(status: int, now: int)
    | PollFailed(now: int)
    | Enter(functionId: string, onEntry: nat -> EntryOutcome)
    | Exit(onExit: nat -> ExitOutcome)

  function Init(): State {
    State([], [], map[], map[], {}, Never, false, 0, [])
  }

  // ---- Registry -----------------------------------------------------------------------------------

  /** The position of the first element with an id, or the length. */
  function IndexOfId(probes: seq<Probe>, list: seq<nat>, id: string): (i: nat)
    ensures i <= |list|
  {
    if list == [] then 0
    else if list[0] < |probes| && probes[list[0]].id == id then 0
    else 1 + IndexOfId(probes, list[1..], id)
  }

  function IndexOf(list: seq<nat>, p: nat): (i: nat)
    ensures i <= |list|
    ensures i < |list| ==> list[i] == p
    ensures i == |list| ==> p !in list
  {
    if list == [] then 0 else if list[0] == p then 0 else 1 + IndexOf(list[1..], p)
  }

  function RemoveAt(s: State, functionId: string, id: string, i: nat): (t: State)
    requires functionId in s.active && s.active[functionId] < |s.lists| && i < |s.lists[s.active[functionId]]|
    ensures t.firstFailure == s.firstFailure && t.tripped == s.tripped
  {
    var list := s.lists[s.active[functionId]];
    var remaining := list[..i] + list[i + 1..];
    var unmapped := s.(functionOf := s.functionOf - {id});
    if remaining == [] then unmapped.(active := s.active - {functionId})
    else unmapped.(lists := s.lists + [remaining], active := s.active[functionId := |s.lists|])
  }

  /** No registered probe matches: the mapping of the id is orphaned. */
  function DropOrphan(s: State, functionId: string, id: string): State
    requires functionId in s.active && s.active[functionId] < |s.lists|
  {
    s.(functionOf := s.functionOf - {id},
       active := if s.lists[s.active[functionId]] == [] then s.active - {functionId} else s.active)
  }

  predicate HasList(s: State, id: string) {
    id in s.functionOf && s.functionOf[id] in s.active && s.active[s.functionOf[id]] < |s.lists|
  }

  datatype Removal = Removed(state: State) | NotFound

  /** `removeProbe(id)` */
  function RemoveById(s: State, id: string): (r: Removal)
    ensures r.Removed? ==> r.state.firstFailure == s.firstFailure && r.state.tripped == s.tripped
  {
    if !HasList(s, id) then NotFound
    else
      var functionId := s.functionOf[id];
      var list := s.lists[s.active[functionId]];
      var i := IndexOfId(s.probes, list, id);
      Removed(if i < |list| then RemoveAt(s, functionId, id, i) else DropOrphan(s, functionId, id))
  }

  /** `removeProbe(probe)` */
  function RemoveInstance(s: State, p: nat): (t: State)
    requires p < |s.probes|
    ensures t.probes == s.probes && t.calls == s.calls && t.firstFailure == s.firstFailure && t.tripped == s.tripped
  {
    var id := s.probes[p].id;
    if !HasList(s, id) then s
    else
      var functionId := s.functionOf[id];
      var list := s.lists[s.active[functionId]];
      var i := IndexOf(list, p);
      if i < |list| then RemoveAt(s, functionId, id, i)
      else if IndexOfId(s.probes, list, id) < |list| then s
      else DropOrphan(s, functionId, id)
  }

  /** `addProbe`, once the probe is initialized. */
  function AddProbe(s: State, u: Update): State {
    var p := |s.probes|;
    var added := s.(probes := s.probes + [Probe(u.id, u.functionId, u.limit, 0, [], false, 0)],
                    functionOf := s.functionOf[u.id := u.functionId]);
    if u.functionId in s.active && s.active[u.functionId] < |s.lists| then
      var l := s.active[u.functionId];
      added.(lists := s.lists[l := s.lists[l] + [p]])
    else added.(lists := s.lists + [[p]], active := s.active[u.functionId := |s.lists|])
  }

  predicate Registered(s: State, p: nat) {
    p < |s.probes| && s.probes[p].functionId in s.active
    && s.active[s.probes[p].functionId] < |s.lists| && p in s.lists[s.active[s.probes[p].functionId]]
  }

  function ClearProbes(s: State): State {
    s.(probes := seq(|s.probes|, p requires 0 <= p < |s.probes| =>
                   if Registered(s, p) then s.probes[p].(entries := [], cleared := true) else s.probes[p]),
       active := map[],
       functionOf := map id | id in s.functionOf && id == PLACEHOLDER :: s.functionOf[id])
  }

  // ---- Delivery API -------------------------------------------------------------------------------

  function Delete(s: State, id: string): (t: State)
    ensures t.firstFailure == s.firstFailure && t.tripped == s.tripped
  {
    if id !in s.known then s
    else
      match RemoveById(s, id)
      case Removed(t) => t.(known := t.known - {id})
      case NotFound => s
  }

  function DeleteAll(s: State, ids: seq<string>): (t: State)
    ensures t.firstFailure == s.firstFailure && t.tripped == s.tripped
    decreases |ids|
  {
    if ids == [] then s else DeleteAll(Delete(s, ids[0]), ids[1..])
  }

  function RemoveIfKnown(s: State, id: string): (t: State)
    ensures t.firstFailure == s.firstFailure && t.tripped == s.tripped
  {
    if id !in s.known then s
    else
      match RemoveById(s, id)
      case Removed(t) => t
      case NotFound => s
  }

  function Apply(s: State, u: Update): (t: State)
    ensures t.firstFailure == s.firstFailure && t.tripped == s.tripped
  {
    if u.id == "" then s
    else
      var removed := RemoveIfKnown(s, u.id);
      if !u.supported then removed.(known := removed.known - {u.id})
      else if !u.compiles then removed
      else
        var added := AddProbe(removed, u);
        added.(known := added.known + {u.id})
  }

  function ApplyAll(s: State, updates: seq<Update>): (t: State)
    ensures t.firstFailure == s.firstFailure && t.tripped == s.tripped
    decreases |updates|
  {
    if updates == [] then s else ApplyAll(Apply(s, updates[0]), updates[1..])
  }

  predicate IsTransientFailureStatus(status: int) {
    status >= 500 || status == 408 || status == 429
  }

  function Trip(s: State): State {
    if s.tripped then s else ClearProbes(s).(tripped := true, known := {})
  }

  /** `noteFailureAndCheckTrip`, and the trip */
  function NoteFailure(s: State, now: int, maxUnreachable: int): State {
    if s.firstFailure.Never? then s.(firstFailure := At(now))
    else if now - s.firstFailure.ms >= maxUnreachable then Trip(s)
    else s
  }

  // ---- Hooks --------------------------------------------------------------------------------------

  function SetProbe(s: State, p: nat, probe: Probe): State
    requires p < |s.probes|
  {
    s.(probes := s.probes[p := probe])
  }

  function Recorded(entries: seq<Entry>): nat {
    if entries == [] then 0
    else Recorded(entries[..|entries| - 1]) + if entries[|entries| - 1].skipped then 0 else 1
  }

  predicate Exhausted(probe: Probe) {
    probe.eventsSent >= probe.limit
  }

  /** `queueDebuggerSnapshot`: the event is sent and counted. */
  function SendEvent(s: State, p: nat): (t: State)
    requires p < |s.probes|
    ensures |t.probes| == |s.probes| && t.calls == s.calls
    ensures t.firstFailure == s.firstFailure && t.tripped == s.tripped
  {
    var probe := s.probes[p];
    var sent := probe.(eventsSent := probe.eventsSent + 1);
    var noted := if sent.eventsSent == sent.limit then sent.(pendingAtLimit := Recorded(sent.entries)) else sent;
    var counted := SetProbe(s, p, noted);
    if Exhausted(sent) then RemoveInstance(counted, p) else counted
  }

  function PushEntry(s: State, p: nat, number: nat, skipped: bool): State
    requires p < |s.probes|
  {
    var probe := s.probes[p];
    SetProbe(s, p, probe.(entries := probe.entries + [Entry(number, skipped)]))
  }

  /** The running call that is on top enters a probe. */
  function Cover(s: State, p: nat): State
    requires s.calls != []
  {
    var top := s.calls[|s.calls| - 1];
    s.(calls := s.calls[|s.calls| - 1 := top.(entered := top.entered + {p})])
  }

  function Uncover(s: State, p: nat): State
    requires s.calls != []
  {
    var top := s.calls[|s.calls| - 1];
    s.(calls := s.calls[|s.calls| - 1 := top.(entered := top.entered - {p})])
  }

  /** One round of the loop of `onEntry`. */
  function EnterProbe(s: State, p: nat, outcome: EntryOutcome): (t: State)
    requires p < |s.probes| && s.calls != []
    ensures |t.probes| == |s.probes| && |t.calls| == |s.calls|
    ensures t.firstFailure == s.firstFailure && t.tripped == s.tripped
  {
    var number := s.calls[|s.calls| - 1].number;
    if Exhausted(s.probes[p]) then RemoveInstance(s, p)
    else
      match outcome
      case Skip => Cover(PushEntry(s, p, number, true), p)
      case SkipAndReportError => Cover(PushEntry(SendEvent(s, p), p, number, true), p)
      case Record => Cover(PushEntry(s, p, number, false), p)
  }

  function EnterProbes(s: State, list: seq<nat>, onEntry: nat -> EntryOutcome): (t: State)
    requires s.calls != []
    ensures |t.calls| == |s.calls| && t.firstFailure == s.firstFailure && t.tripped == s.tripped
    decreases |list|
  {
    if list == [] then s
    else
      EnterProbes(if list[0] < |s.probes| then EnterProbe(s, list[0], onEntry(list[0])) else s, list[1..], onEntry)
  }

  function PopEntry(s: State, p: nat): State
    requires p < |s.probes|
  {
    var probe := s.probes[p];
    if probe.entries == [] then s else SetProbe(s, p, probe.(entries := probe.entries[..|probe.entries| - 1]))
  }

  /** One round of the loop of `onReturn` or `onThrow`. */
  function ExitProbe(s: State, p: nat, outcome: ExitOutcome): (t: State)
    requires p < |s.probes| && s.calls != []
    ensures |t.probes| == |s.probes| && |t.calls| == |s.calls|
    ensures t.firstFailure == s.firstFailure && t.tripped == s.tripped
  {
    var entries := s.probes[p].entries;
    var popped := Uncover(PopEntry(s, p), p);
    if entries == [] || entries[|entries| - 1].skipped || outcome.Discard? then popped else SendEvent(popped, p)
  }

  function ExitProbes(s: State, list: seq<nat>, onExit: nat -> ExitOutcome): (t: State)
    requires s.calls != []
    ensures |t.calls| == |s.calls| && t.firstFailure == s.firstFailure && t.tripped == s.tripped
    decreases |list|
  {
    if list == [] then s
    else
      ExitProbes(if list[0] < |s.probes| then ExitProbe(s, list[0], onExit(list[0])) else s, list[1..], onExit)
  }

  function ListOf(s: State, list: ListRef): seq<nat> {
    if list.ListAt? && list.at < |s.lists| then s.lists[list.at] else []
  }

  function EnterCall(s: State, functionId: string): State {
    var list := if functionId in s.active then ListAt(s.active[functionId]) else NoList;
    s.(callCount := s.callCount + 1, calls := s.calls + [Call(s.callCount, list, {})])
  }

  function Step(s: State, a: Action, maxUnreachable: int): State {
    match a
    case ServerReached => if s.tripped then s else s.(firstFailure := Never)
    case PollSucceeded(deletions, updates) => if s.tripped then s else ApplyAll(DeleteAll(s, deletions), updates)
    case PollRejected(status, now) =>
      if s.tripped then s
      else if IsTransientFailureStatus(status) then NoteFailure(s, now, maxUnreachable)
      else Trip(s)
    case PollFailed(now) => if s.tripped then s else NoteFailure(s, now, maxUnreachable)
    case Enter(functionId, onEntry) =>
      var entered := EnterCall(s, functionId);
      EnterProbes(entered, ListOf(entered, entered.calls[|s.calls|].list), onEntry)
    case Exit(onExit) =>
      if s.calls == [] then s
      else
        var left := ExitProbes(s, ListOf(s, s.calls[|s.calls| - 1].list), onExit);
        left.(calls := left.calls[..|left.calls| - 1])
  }

  function Run(actions: seq<Action>, maxUnreachable: int): State {
    if actions == [] then Init() else Step(Run(actions[..|actions| - 1], maxUnreachable), actions[|actions| - 1], maxUnreachable)
  }
}
