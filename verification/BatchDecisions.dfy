/** When the batch is flushed, and why: exactly when a limit is reached, when the timer fires, or when it is
    asked to be, and not before. */
module BatchDecisions {
  import opened Wrappers
  import opened BatchProtocol
  import opened BatchProofs

  // ---- The log grows ----------------------------------------------------------------------------------

  ghost predicate Extends(s: State, t: State) {
    |s.log| <= |t.log| && t.log[..|s.log|] == s.log
  }

  lemma ExtendsTransitive(s: State, t: State, u: State)
    requires Extends(s, t) && Extends(t, u)
    ensures Extends(s, u)
  {
    assert u.log[..|s.log|] == u.log[..|t.log|][..|s.log|];
  }

  lemma {:induction false} FlushExtends(s: State, reason: Reason, limit: nat)
    ensures Extends(s, Flush(s, reason, limit))
    ensures s.messagesCount > 0 ==> Extends(Emptied(s, reason), Flush(s, reason, limit))
    decreases |s.telemetry|, 0, 0
  {
    if s.messagesCount > 0 {
      var emptied := Emptied(s, reason);
      if s.telemetry != [] {
        AddAllExtends(emptied.(telemetry := s.telemetry[1..]), s.telemetry[0], limit);
      }
      ExtendsTransitive(s, emptied, Flush(s, reason, limit));
    }
  }

  lemma {:induction false} BeforeAddExtends(s: State, estimate: nat, limit: nat)
    ensures Extends(s, BeforeAdd(s, estimate, limit))
    decreases |s.telemetry|, 1, 0
  {
    FlushExtends(s, ForcedOr(s, BytesLimit), limit);
  }

  lemma {:induction false} AfterAddExtends(s: State, difference: int, limit: nat)
    ensures Extends(s, AfterAdd(s, difference, limit))
    decreases |s.telemetry|, 1, 0
  {
    var t := s.(bytesCount := s.bytesCount + difference);
    FlushExtends(t, ForcedOr(t, MessagesLimit), limit);
    FlushExtends(t, ForcedOr(t, BytesLimit), limit);
  }

  lemma {:induction false} AddMessageExtends(s: State, message: string, limit: nat)
    ensures Extends(s, AddMessage(s, message, limit))
    decreases |s.telemetry|, 2, 0
  {
    var estimate := Length(message);
    if estimate < MESSAGE_BYTES_LIMIT {
      var ready := BeforeAdd(s, estimate, limit);
      var written := Write(ready, message);
      BeforeAddExtends(s, estimate, limit);
      AfterAddExtends(written, Utf8Length(Separated(ready.output, message)) - estimate, limit);
      ExtendsTransitive(s, ready, written);
      ExtendsTransitive(s, written, AddMessage(s, message, limit));
    }
  }

  lemma {:induction false} AddAllExtends(s: State, messages: seq<string>, limit: nat)
    ensures Extends(s, AddAll(s, messages, limit))
    decreases |s.telemetry|, 3, |messages|
  {
    if messages != [] {
      var t := AddMessage(s, messages[0], limit);
      AddMessageExtends(s, messages[0], limit);
      AddAllExtends(t, messages[1..], limit);
      ExtendsTransitive(s, t, AddAll(s, messages, limit));
    }
  }

  // ---- Lengths ----------------------------------------------------------------------------------------

  /** The bytes of a character, after section 3 of RFC 3629. */
  function Utf8Bytes(c: char): seq<nat> {
    var n := c as nat;
    if n < 0x80 then [n]
    else if n < 0x800 then [0xC0 + n / 64, 0x80 + n % 64]
    else if n < 0x1_0000 then [0xE0 + n / 4096, 0x80 + n / 64 % 64, 0x80 + n % 64]
    else [0xF0 + n / 262144, 0x80 + n / 4096 % 64, 0x80 + n / 64 % 64, 0x80 + n % 64]
  }

  /** The code units of a character, after section 2.1 of RFC 2781. */
  function Utf16Units(c: char): seq<nat> {
    var n := c as nat;
    if n < 0x1_0000 then [n] else [0xD800 + (n - 0x1_0000) / 1024, 0xDC00 + (n - 0x1_0000) % 1024]
  }

  function Encoded(s: string, unitsOf: char -> seq<nat>): seq<nat> {
    if s == "" then [] else Encoded(s[..|s| - 1], unitsOf) + unitsOf(s[|s| - 1])
  }

  /** The estimate counts the units of UTF-16, the size of a request the bytes of UTF-8. */
  lemma {:induction false} LengthsCountUnits(s: string)
    ensures Utf8Length(s) == |Encoded(s, Utf8Bytes)| && Length(s) == |Encoded(s, Utf16Units)|
  {
    if s != "" {
      LengthsCountUnits(s[..|s| - 1]);
    }
  }

  // ---- What happens next ------------------------------------------------------------------------------

  /** A request with this reason goes out when these events have been logged. */
  ghost predicate FlushesAfter(t: State, logged: seq<Event>, reason: Reason) {
    && |logged| < |t.log| && t.log[..|logged|] == logged
    && t.log[|logged|].Flushed? && t.log[|logged|].request.reason == reason
  }

  lemma FlushIsNext(s: State, reason: Reason, limit: nat)
    requires s.messagesCount > 0
    ensures FlushesAfter(Flush(s, reason, limit), s.log, reason)
  {
    FlushExtends(s, reason, limit);
    var t, emptied := Flush(s, reason, limit), Emptied(s, reason);
    assert t.log[..|s.log|] == t.log[..|emptied.log|][..|s.log|];
    assert t.log[|s.log|] == t.log[..|emptied.log|][|s.log|];
  }

  lemma FlushesStill(t: State, u: State, logged: seq<Event>, reason: Reason)
    requires FlushesAfter(t, logged, reason) && Extends(t, u)
    ensures FlushesAfter(u, logged, reason)
  {
    assert u.log[..|logged|] == u.log[..|t.log|][..|logged|];
    assert u.log[|logged|] == u.log[..|t.log|][|logged|];
  }

  /** After a message was written or stored: flushed exactly at one of the limits. */
  ghost predicate FlushedAtLimits(t: State, logged: seq<Event>, count: int, bytes: int, limit: nat) {
    if count >= limit then FlushesAfter(t, logged, MessagesLimit)
    else if bytes >= 16 * 1024 then FlushesAfter(t, logged, BytesLimit)
    else t.log == logged
  }

  lemma AfterAddDecides(s: State, difference: int, limit: nat)
    requires s.forcedReason.None? && s.messagesCount > 0
    ensures FlushedAtLimits(AfterAdd(s, difference, limit), s.log, s.messagesCount, s.bytesCount + difference, limit)
  {
    var t := s.(bytesCount := s.bytesCount + difference);
    FlushIsNext(t, MessagesLimit, limit);
    FlushIsNext(t, BytesLimit, limit);
  }

  /** What is pending would reach 16 KiB with the message. */
  predicate FlushedBefore(s: State, message: string) {
    s.messagesCount > 0 && s.bytesCount + Length(message) >= 16 * 1024
  }

  lemma BeforeAddDecides(s: State, message: string, limit: nat)
    requires s.forcedReason.None?
    ensures
      var t := BeforeAdd(s, Length(message), limit);
      if FlushedBefore(s, message) then FlushesAfter(t, s.log, BytesLimit)
      else
        t == s.(messagesCount := s.messagesCount + 1, bytesCount := s.bytesCount + Length(message), timerArmed := true)
  {
    if FlushedBefore(s, message) {
      FlushIsNext(s, BytesLimit, limit);
    }
  }

  lemma LineLength(output: string, message: string)
    ensures Utf8Length(Separated(output, message)) == (if output == "" then 0 else 1) + Utf8Length(message)
  {
    Utf8Concat("\n", message);
    assert "\n"[..0] == "";
  }

  lemma AddDecides(s: State, message: string, limit: nat)
    requires s.forcedReason.None? && Length(message) < MESSAGE_BYTES_LIMIT
    ensures
      var t := AddMessage(s, message, limit);
      if FlushedBefore(s, message) then FlushesAfter(t, s.log, BytesLimit)
      else
        FlushedAtLimits(t, s.log + [Added(message)], s.messagesCount + 1,
                        s.bytesCount + (if s.output == "" then 0 else 1) + Utf8Length(message), limit)
  {
    var ready := BeforeAdd(s, Length(message), limit);
    var written := Write(ready, message);
    var difference := Utf8Length(Separated(ready.output, message)) - Length(message);
    BeforeAddDecides(s, message, limit);
    if FlushedBefore(s, message) {
      FlushesStill(ready, written, s.log, BytesLimit);
      AfterAddExtends(written, difference, limit);
      FlushesStill(written, AfterAdd(written, difference, limit), s.log, BytesLimit);
    } else {
      LineLength(s.output, message);
      AfterAddDecides(written, difference, limit);
    }
  }

  lemma InsertDecides(s: State, message: string, key: string, limit: nat)
    requires s.forcedReason.None? && Length(message) < MESSAGE_BYTES_LIMIT && IndexOfKey(s.upserts, key) == |s.upserts|
    ensures
      var t := Upserting(s, message, key, limit);
      if FlushedBefore(s, message) then FlushesAfter(t, s.log, BytesLimit)
      else
        FlushedAtLimits(t, s.log + [Upserted(key, message)], s.messagesCount + 1, s.bytesCount + Length(message), limit)
  {
    var ready := BeforeAdd(s, Length(message), limit);
    var stored := Store(ready, key, message);
    BeforeAddDecides(s, message, limit);
    if FlushedBefore(s, message) {
      FlushesStill(ready, stored, s.log, BytesLimit);
      AfterAddExtends(stored, 0, limit);
      FlushesStill(stored, AfterAdd(stored, 0, limit), s.log, BytesLimit);
    } else {
      AfterAddDecides(stored, 0, limit);
    }
  }

  lemma ReplaceDecides(s: State, message: string, key: string, limit: nat)
    requires s.forcedReason.None? && Length(message) < MESSAGE_BYTES_LIMIT && IndexOfKey(s.upserts, key) < |s.upserts|
    requires s.messagesCount > 0
    ensures
      FlushedAtLimits(Upserting(s, message, key, limit), s.log + [Upserted(key, message)], s.messagesCount,
                      s.bytesCount - Length(s.upserts[IndexOfKey(s.upserts, key)].message) + Length(message), limit)
  {
    var was := s.upserts[IndexOfKey(s.upserts, key)].message;
    AfterAddDecides(Store(s, key, message), Length(message) - Length(was), limit);
  }

  /** What holds between calls. */
  lemma BetweenCalls(actions: seq<Action>, telemetry: seq<seq<string>>, limit: nat)
    requires CleanRun(actions, telemetry) && limit > 0
    ensures
      var s := Run(actions, telemetry, limit);
      && s.forcedReason.None? && s.upserts == UpsertsSince(s.log)
      && s.messagesCount == |AddsSince(s.log)| + |s.upserts| < limit
      && (s.timerArmed <==> s.messagesCount > 0)
  {
    RunKeepsInv(actions, telemetry, limit);
  }

  lemma OnlyPlace(log: seq<Event>, key: string, i: nat)
    requires i < |UpsertsSince(log)| && UpsertsSince(log)[i].key == key
    ensures IndexOfKey(UpsertsSince(log), key) == i
  {
    BufferHoldsLatestUpserts(log, key);
  }

  // ---- Theorems -------------------------------------------------------------------------------------

  /** Adding a message discards it from 256 KiB on; flushes first what is pending, if the estimate reaches 16 KiB
      with it; and otherwise flushes with it exactly if the number of messages reaches its limit, or the actual
      bytes reach 16 KiB. No other add causes a request. */
  lemma AddsFlushAtTheLimits(actions: seq<Action>, telemetry: seq<seq<string>>, limit: nat, message: string)
    requires CleanRun(actions, telemetry) && limit > 0
    ensures
      var s := Run(actions, telemetry, limit);
      var t := Step(s, Perform(Add(message)), limit);
      if Length(message) >= 256 * 1024 then t.log == s.log + [Discarded(message)]
      else if FlushedBefore(s, message) then FlushesAfter(t, s.log, BytesLimit)
      else
        FlushedAtLimits(t, s.log + [Added(message)], s.messagesCount + 1,
                        s.bytesCount + (if s.output == "" then 0 else 1) + Utf8Length(message), limit)
  {
    BetweenCalls(actions, telemetry, limit);
    if Length(message) < MESSAGE_BYTES_LIMIT {
      AddDecides(Run(actions, telemetry, limit), message, limit);
    }
  }

  /** Replacing a buffered upsert corrects the bytes, and flushes exactly if they reach 16 KiB. */
  lemma ReplacementsFlushAtTheLimits(
    actions: seq<Action>, telemetry: seq<seq<string>>, limit: nat, message: string, key: string, i: nat
  )
    requires CleanRun(actions, telemetry) && limit > 0
    requires i < |Run(actions, telemetry, limit).upserts| && Run(actions, telemetry, limit).upserts[i].key == key
    ensures
      var s := Run(actions, telemetry, limit);
      var t := Step(s, Perform(UpsertMessage(message, key)), limit);
      var logged := s.log + [Upserted(key, message)];
      if Length(message) >= 256 * 1024 then t.log == s.log + [Discarded(message)]
      else if s.bytesCount - Length(s.upserts[i].message) + Length(message) >= 16 * 1024
      then FlushesAfter(t, logged, BytesLimit)
      else t.log == logged
  {
    BetweenCalls(actions, telemetry, limit);
    var s := Run(actions, telemetry, limit);
    OnlyPlace(s.log, key, i);
    if Length(message) < MESSAGE_BYTES_LIMIT {
      ReplaceDecides(s, message, key, limit);
    }
  }

  /** A new key counts like an added message. */
  lemma NewKeysFlushAtTheLimits(
    actions: seq<Action>, telemetry: seq<seq<string>>, limit: nat, message: string, key: string
  )
    requires CleanRun(actions, telemetry) && limit > 0
    requires forall u | u in Run(actions, telemetry, limit).upserts :: u.key != key
    ensures
      var s := Run(actions, telemetry, limit);
      var t := Step(s, Perform(UpsertMessage(message, key)), limit);
      if Length(message) >= 256 * 1024 then t.log == s.log + [Discarded(message)]
      else if FlushedBefore(s, message) then FlushesAfter(t, s.log, BytesLimit)
      else
        FlushedAtLimits(t, s.log + [Upserted(key, message)], s.messagesCount + 1, s.bytesCount + Length(message), limit)
  {
    BetweenCalls(actions, telemetry, limit);
    var s := Run(actions, telemetry, limit);
    assert IndexOfKey(s.upserts, key) == |s.upserts|;
    if Length(message) < MESSAGE_BYTES_LIMIT {
      InsertDecides(s, message, key, limit);
    }
  }

  /** The timer, and whoever forces a flush, sends what is pending, and nothing if nothing is. */
  lemma PendingIsFlushed(actions: seq<Action>, telemetry: seq<seq<string>>, limit: nat, reason: Reason)
    requires CleanRun(actions, telemetry) && limit > 0
    ensures
      var s := Run(actions, telemetry, limit);
      var byTimer, forced := Step(s, TimerFires, limit), Step(s, ForceFlush(reason), limit);
      if AddsSince(s.log) == [] && UpsertsSince(s.log) == [] then byTimer == forced == s
      else FlushesAfter(byTimer, s.log, DurationLimit) && FlushesAfter(forced, s.log, reason)
  {
    BetweenCalls(actions, telemetry, limit);
    var s := Run(actions, telemetry, limit);
    if s.messagesCount > 0 {
      FlushIsNext(s, DurationLimit, limit);
      FlushIsNext(s, reason, limit);
    }
  }
}
