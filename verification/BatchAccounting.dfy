/** Every message that is accepted is added exactly once, also when requests report telemetry while they are
    sent: given messages and reported ones are all accounted for. */
module BatchAccounting {
  import opened Wrappers
  import opened BatchProtocol
  import opened BatchProofs

  predicate IsShort(message: string) {
    Length(message) < MESSAGE_BYTES_LIMIT
  }

  /** How often a message is among some, if it is not too long. */
  function Times(messages: seq<string>, x: string): nat {
    if messages == [] then 0
    else (if messages[0] == x && IsShort(x) then 1 else 0) + Times(messages[1..], x)
  }

  /** How often the next requests will report it. */
  function ToBeReported(telemetry: seq<seq<string>>, x: string): nat {
    if telemetry == [] then 0 else Times(telemetry[0], x) + ToBeReported(telemetry[1..], x)
  }

  /** How often it has been added. */
  function AddedTimes(log: seq<Event>, x: string): nat {
    if log == [] then 0 else AddedTimes(log[..|log| - 1], x) + if log[|log| - 1] == Added(x) then 1 else 0
  }

  /** Added, or still to be reported. */
  function Accounted(s: State, x: string): nat {
    AddedTimes(s.log, x) + ToBeReported(s.telemetry, x)
  }

  lemma AddedAppend(log: seq<Event>, e: Event, x: string)
    ensures AddedTimes(log + [e], x) == AddedTimes(log, x) + if e == Added(x) then 1 else 0
  {
    assert (log + [e])[..|log|] == log;
  }

  lemma FlushAccounts(s: State, reason: Reason, limit: nat, x: string)
    ensures Accounted(Flush(s, reason, limit), x) == Accounted(s, x)
    decreases |s.telemetry|, 0, 0
  {
    if s.messagesCount > 0 {
      var emptied := Emptied(s, reason);
      AddedAppend(s.log, Flushed(RequestOf(s, reason)), x);
      if s.telemetry != [] {
        AddAllAccounts(emptied.(telemetry := s.telemetry[1..]), s.telemetry[0], limit, x);
      }
    }
  }

  lemma BeforeAddAccounts(s: State, estimate: nat, limit: nat, x: string)
    ensures Accounted(BeforeAdd(s, estimate, limit), x) == Accounted(s, x)
    decreases |s.telemetry|, 1, 0
  {
    FlushAccounts(s, ForcedOr(s, BytesLimit), limit, x);
  }

  lemma AfterAddAccounts(s: State, difference: int, limit: nat, x: string)
    ensures Accounted(AfterAdd(s, difference, limit), x) == Accounted(s, x)
    decreases |s.telemetry|, 1, 0
  {
    var t := s.(bytesCount := s.bytesCount + difference);
    FlushAccounts(t, ForcedOr(t, MessagesLimit), limit, x);
    FlushAccounts(t, ForcedOr(t, BytesLimit), limit, x);
  }

  lemma AddMessageAccounts(s: State, message: string, limit: nat, x: string)
    ensures Accounted(AddMessage(s, message, limit), x) == Accounted(s, x) + Times([message], x)
    decreases |s.telemetry|, 2, 0
  {
    var estimate := Length(message);
    assert [message][1..] == [];
    if estimate >= MESSAGE_BYTES_LIMIT {
      AddedAppend(s.log, Discarded(message), x);
    } else {
      var ready := BeforeAdd(s, estimate, limit);
      var written := Write(ready, message);
      BeforeAddAccounts(s, estimate, limit, x);
      AddedAppend(ready.log, Added(message), x);
      AfterAddAccounts(written, Utf8Length(Separated(ready.output, message)) - estimate, limit, x);
    }
  }

  lemma {:induction false} AddAllAccounts(s: State, messages: seq<string>, limit: nat, x: string)
    ensures Accounted(AddAll(s, messages, limit), x) == Accounted(s, x) + Times(messages, x)
    decreases |s.telemetry|, 3, |messages|
  {
    if messages != [] {
      assert [messages[0]][1..] == [];
      AddMessageAccounts(s, messages[0], limit, x);
      AddAllAccounts(AddMessage(s, messages[0], limit), messages[1..], limit, x);
    }
  }

  lemma UpsertingAccounts(s: State, message: string, key: string, limit: nat, x: string)
    ensures Accounted(Upserting(s, message, key, limit), x) == Accounted(s, x)
  {
    var estimate := Length(message);
    var i := IndexOfKey(s.upserts, key);
    if estimate >= MESSAGE_BYTES_LIMIT {
      AddedAppend(s.log, Discarded(message), x);
    } else if i < |s.upserts| {
      StoringAccounts(s, message, key, estimate - Length(s.upserts[i].message), limit, x);
    } else {
      BeforeAddAccounts(s, estimate, limit, x);
      StoringAccounts(BeforeAdd(s, estimate, limit), message, key, 0, limit, x);
    }
  }

  lemma StoringAccounts(s: State, message: string, key: string, difference: int, limit: nat, x: string)
    ensures Accounted(AfterAdd(Store(s, key, message), difference, limit), x) == Accounted(s, x)
  {
    AddedAppend(s.log, Upserted(key, message), x);
    AfterAddAccounts(Store(s, key, message), difference, limit, x);
  }

  /** The messages that are given to be added. */
  function Given(ops: seq<Operation>): seq<string> {
    if ops == [] then [] else (if ops[0].Add? then [ops[0].message] else []) + Given(ops[1..])
  }

  function GivenBy(a: Action): seq<string> {
    match a
    case Perform(op) => Given([op])
    case PageMayExit(_, prepared) => Given(prepared)
    case _ => []
  }

  function GivenTimes(actions: seq<Action>, x: string): nat {
    if actions == [] then 0 else GivenTimes(actions[..|actions| - 1], x) + Times(GivenBy(actions[|actions| - 1]), x)
  }

  lemma PerformOneAccounts(s: State, op: Operation, limit: nat, x: string)
    ensures Accounted(PerformOne(s, op, limit), x) == Accounted(s, x) + Times(Given([op]), x)
  {
    assert [op][1..] == [];
    match op
    case Add(message) =>
      assert Given([op]) == [message];
      AddMessageAccounts(s, message, limit, x);
    case UpsertMessage(message, key) =>
      assert Given([op]) == [];
      UpsertingAccounts(s, message, key, limit, x);
  }

  lemma {:induction false} PerformAllAccounts(s: State, ops: seq<Operation>, limit: nat, x: string)
    ensures Accounted(PerformAll(s, ops, limit), x) == Accounted(s, x) + Times(Given(ops), x)
    decreases |ops|
  {
    if ops != [] {
      PerformOneAccounts(s, ops[0], limit, x);
      PerformAllAccounts(PerformOne(s, ops[0], limit), ops[1..], limit, x);
      GivenFirst(ops, x);
    }
  }

  lemma GivenFirst(ops: seq<Operation>, x: string)
    requires ops != []
    ensures Times(Given(ops), x) == Times(Given([ops[0]]), x) + Times(Given(ops[1..]), x)
  {
    assert [ops[0]][1..] == [];
    if ops[0].Add? {
      assert Given(ops)[1..] == Given(ops[1..]);
      assert Given([ops[0]]) == [ops[0].message] && [ops[0].message][1..] == [];
    } else {
      assert Given(ops) == Given(ops[1..]) && Given([ops[0]]) == [];
    }
  }

  lemma StepAccounts(s: State, a: Action, limit: nat, x: string)
    ensures Accounted(Step(s, a, limit), x) == Accounted(s, x) + Times(GivenBy(a), x)
  {
    match a
    case Perform(op) => PerformOneAccounts(s, op, limit, x);
    case TimerFires => FlushAccounts(s, DurationLimit, limit, x);
    case ForceFlush(reason) => FlushAccounts(s, reason, limit, x);
    case PageMayExit(kind, prepared) =>
      PerformAllAccounts(s.(forcedReason := Some(PageExit(kind))), prepared, limit, x);
      FlushAccounts(Prepare(s, kind, prepared, limit), PageExit(kind), limit, x);
  }

  /** In every run, each message that is not too long has been added as often as it was given to be added or
      reported by a request, less the reports that are still to come; a longer one never. */
  lemma {:induction false} EveryMessageIsAddedOnce(actions: seq<Action>, telemetry: seq<seq<string>>, limit: nat, x: string)
    ensures
      var s := Run(actions, telemetry, limit);
      AddedTimes(s.log, x) + ToBeReported(s.telemetry, x) == GivenTimes(actions, x) + ToBeReported(telemetry, x)
  {
    if actions != [] {
      var before := actions[..|actions| - 1];
      EveryMessageIsAddedOnce(before, telemetry, limit, x);
      StepAccounts(Run(before, telemetry, limit), actions[|actions| - 1], limit, x);
    }
  }

  /** One call adds its message once if it is not too long, whatever the requests that it causes report. */
  lemma AcceptedOnce(s: State, message: string, limit: nat, x: string)
    ensures
      var t := AddMessage(s, message, limit);
      AddedTimes(t.log, x) + ToBeReported(t.telemetry, x) ==
      AddedTimes(s.log, x) + ToBeReported(s.telemetry, x) + if x == message && IsShort(message) then 1 else 0
  {
    AddMessageAccounts(s, message, limit, x);
    assert [message][1..] == [];
  }

  lemma {:induction false} TimesConcat(a: seq<string>, b: seq<string>, x: string)
    ensures Times(a + b, x) == Times(a, x) + Times(b, x)
    decreases |a|
  {
    if a == [] {
      assert a + b == b;
    } else {
      assert (a + b)[1..] == a[1..] + b;
      TimesConcat(a[1..], b, x);
    }
  }

  /** The sequence of all added messages, which leaves in requests or is buffered, holds it as often. */
  lemma {:induction false} AddedTimesInOrder(log: seq<Event>, x: string)
    requires IsShort(x)
    ensures Times(AllAdds(log), x) == AddedTimes(log, x)
  {
    if log != [] {
      var before, e := log[..|log| - 1], log[|log| - 1];
      AddedTimesInOrder(before, x);
      if e.Added? {
        TimesConcat(AllAdds(before), [e.message], x);
        assert [e.message][1..] == [];
      } else {
        assert AllAdds(before) + [] == AllAdds(before);
      }
    }
  }
}
