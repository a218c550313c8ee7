/** The upload batch with its flush controller and the identity encoder, as functions on one state.

    Messages are JSON texts. Sending a request may report telemetry, which adds messages to the same batch
    while it is being flushed; `telemetry` holds what the next requests will report. */
module BatchProtocol {
  import opened Wrappers

  const RECOMMENDED_REQUEST_BYTES_LIMIT: nat := 16 * 1024
  const MESSAGE_BYTES_LIMIT: nat := 256 * 1024

  datatype Reason = PageExit(kind: nat) | DurationLimit | BytesLimit | MessagesLimit | SessionExpire

  /** One flush: what the controller announces (reason, its two counters) and what is sent. */
  datatype Request = Request(
    reason: Reason,
    messagesCount: nat,
    bytesCount: int,
    body: string,
    bodyBytesCount: nat,
    sentOnExit: bool)

  datatype Event =
    | Added(message: string)
    | Upserted(key: string, message: string)
    | Flushed(request: Request)
    | Discarded(message: string)

  /** An entry of the upsert buffer, which keeps the order in which its keys were first set. */
  datatype Upsert = Upsert(key: string, message: string)

  datatype State = State(
    output: string,
    outputBytesCount: nat,
    upserts: seq<Upsert>,
    bytesCount: int,
    messagesCount: nat,
    timerArmed: bool,
    forcedReason: Option<Reason>,
    telemetry: seq<seq<string>>,
    log: seq<Event>)

  datatype Operation =
    | Add(message: string)
    | UpsertMessage(message: string, key: string)

  datatype Action =
    | Perform(operation: Operation)
    | TimerFires
    | ForceFlush(reason: Reason)
    | PageMayExit(kind: nat, prepared: seq<Operation>)

  function Init(telemetry: seq<seq<string>>): State {
    State("", 0, [], 0, 0, false, None, telemetry, [])
  }

  // ---- Texts --------------------------------------------------------------------------------------

  /** `length` of a string: its UTF-16 code units. */
  function Length(s: string): nat {
    if s == "" then 0 else Length(s[..|s| - 1]) + if s[|s| - 1] as int < 0x1_0000 then 1 else 2
  }

  /** `computeBytesCount`: its length in UTF-8. */
  function Utf8Length(s: string): nat {
    if s == "" then 0
    else
      var c := s[|s| - 1] as int;
      Utf8Length(s[..|s| - 1]) + if c < 0x80 then 1 else if c < 0x800 then 2 else if c < 0x1_0000 then 3 else 4
  }

  function Join(lines: seq<string>): string {
    if lines == [] then ""
    else if |lines| == 1 then lines[0]
    else Join(lines[..|lines| - 1]) + "\n" + lines[|lines| - 1]
  }

  function Messages(upserts: seq<Upsert>): seq<string> {
    seq(|upserts|, k requires 0 <= k < |upserts| => upserts[k].message)
  }

  /** The index of a key, or the length. */
  function IndexOfKey(upserts: seq<Upsert>, key: string): (i: nat)
    ensures i <= |upserts|
    ensures i < |upserts| ==> upserts[i].key == key
    ensures i == |upserts| ==> forall k | 0 <= k < |upserts| :: upserts[k].key != key
  {
    if upserts == [] then 0 else if upserts[0].key == key then 0 else 1 + IndexOfKey(upserts[1..], key)
  }

  function Put(upserts: seq<Upsert>, key: string, message: string): seq<Upsert> {
    var i := IndexOfKey(upserts, key);
    if i < |upserts| then upserts[i := Upsert(key, message)] else upserts + [Upsert(key, message)]
  }

  // ---- Flush --------------------------------------------------------------------------------------

  function Separated(output: string, text: string): string {
    if output == "" then text else "\n" + text
  }

  /** What the encoder is given before it is finished. */
  function UpsertText(output: string, upserts: seq<Upsert>): string {
    var upsertMessages := Join(Messages(upserts));
    if upsertMessages == "" then "" else Separated(output, upsertMessages)
  }

  function Flush(s: State, reason: Reason, limit: nat): (t: State)
    ensures |t.telemetry| <= |s.telemetry| && t.forcedReason == s.forcedReason
    decreases |s.telemetry|, 0, 0
  {
    if s.messagesCount == 0 then s
    else
      var text := UpsertText(s.output, s.upserts);
      var request := Request(reason, s.messagesCount, s.bytesCount, s.output + text,
                             s.outputBytesCount + Utf8Length(text), reason.PageExit?);
      var flushed := s.(output := "", outputBytesCount := 0, upserts := [], bytesCount := 0, messagesCount := 0,
                        timerArmed := false, log := s.log + [Flushed(request)]);
      if s.telemetry == [] then flushed
      else AddAll(flushed.(telemetry := s.telemetry[1..]), s.telemetry[0], limit)
  }

  function ForcedOr(s: State, reason: Reason): Reason {
    if s.forcedReason.Some? then s.forcedReason.value else reason
  }

  function BeforeAdd(s: State, estimate: nat, limit: nat): (t: State)
    ensures |t.telemetry| <= |s.telemetry| && t.forcedReason == s.forcedReason
    decreases |s.telemetry|, 1, 0
  {
    var t :=
      if s.bytesCount + estimate >= RECOMMENDED_REQUEST_BYTES_LIMIT then Flush(s, ForcedOr(s, BytesLimit), limit) else s;
    t.(messagesCount := t.messagesCount + 1, bytesCount := t.bytesCount + estimate, timerArmed := true)
  }

  function AfterAdd(s: State, difference: int, limit: nat): (t: State)
    ensures |t.telemetry| <= |s.telemetry| && t.forcedReason == s.forcedReason
    decreases |s.telemetry|, 1, 0
  {
    var t := s.(bytesCount := s.bytesCount + difference);
    if t.messagesCount >= limit then Flush(t, ForcedOr(t, MessagesLimit), limit)
    else if t.bytesCount >= RECOMMENDED_REQUEST_BYTES_LIMIT then Flush(t, ForcedOr(t, BytesLimit), limit)
    else t
  }

  // ---- Messages -----------------------------------------------------------------------------------

  function Write(s: State, message: string): State {
    var text := Separated(s.output, message);
    s.(output := s.output + text, outputBytesCount := s.outputBytesCount + Utf8Length(text),
       log := s.log + [Added(message)])
  }

  function AddMessage(s: State, message: string, limit: nat): (t: State)
    ensures |t.telemetry| <= |s.telemetry| && t.forcedReason == s.forcedReason
    decreases |s.telemetry|, 2, 0
  {
    var estimate := Length(message);
    if estimate >= MESSAGE_BYTES_LIMIT then s.(log := s.log + [Discarded(message)])
    else
      var ready := BeforeAdd(s, estimate, limit);
      AfterAdd(Write(ready, message), Utf8Length(Separated(ready.output, message)) - estimate, limit)
  }

  function AddAll(s: State, messages: seq<string>, limit: nat): (t: State)
    ensures |t.telemetry| <= |s.telemetry| && t.forcedReason == s.forcedReason
    decreases |s.telemetry|, 3, |messages|
  {
    if messages == [] then s else AddAll(AddMessage(s, messages[0], limit), messages[1..], limit)
  }

  function Store(s: State, key: string, message: string): State {
    s.(upserts := Put(s.upserts, key, message), log := s.log + [Upserted(key, message)])
  }

  function Upserting(s: State, message: string, key: string, limit: nat): (t: State)
    ensures |t.telemetry| <= |s.telemetry| && t.forcedReason == s.forcedReason
  {
    var estimate := Length(message);
    var i := IndexOfKey(s.upserts, key);
    if estimate >= MESSAGE_BYTES_LIMIT then s.(log := s.log + [Discarded(message)])
    else if i < |s.upserts| then AfterAdd(Store(s, key, message), estimate - Length(s.upserts[i].message), limit)
    else AfterAdd(Store(BeforeAdd(s, estimate, limit), key, message), 0, limit)
  }

  // ---- Steps --------------------------------------------------------------------------------------

  function PerformOne(s: State, op: Operation, limit: nat): (t: State)
    ensures t.forcedReason == s.forcedReason
  {
    match op
    case Add(message) => AddMessage(s, message, limit)
    case UpsertMessage(message, key) => Upserting(s, message, key, limit)
  }

  function PerformAll(s: State, ops: seq<Operation>, limit: nat): (t: State)
    ensures t.forcedReason == s.forcedReason
    decreases |ops|
  {
    if ops == [] then s else PerformAll(PerformOne(s, ops[0], limit), ops[1..], limit)
  }

  function Prepare(s: State, kind: nat, prepared: seq<Operation>, limit: nat): State {
    PerformAll(s.(forcedReason := Some(PageExit(kind))), prepared, limit).(forcedReason := None)
  }

  function Step(s: State, a: Action, limit: nat): State {
    match a
    case Perform(op) => PerformOne(s, op, limit)
    case TimerFires => if s.timerArmed then Flush(s, DurationLimit, limit) else s
    case ForceFlush(reason) => Flush(s, reason, limit)
    case PageMayExit(kind, prepared) => Flush(Prepare(s, kind, prepared, limit), PageExit(kind), limit)
  }

  function Run(actions: seq<Action>, telemetry: seq<seq<string>>, limit: nat): State {
    if actions == [] then Init(telemetry)
    else Step(Run(actions[..|actions| - 1], telemetry, limit), actions[|actions| - 1], limit)
  }
}
