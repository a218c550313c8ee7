/** The batch and the flush controller agree in every run: what is buffered, what is counted, and what is
    sent. */
module BatchProofs {
  import opened Wrappers
  import opened BatchProtocol

  // ---- What the log says ----------------------------------------------------------------------------

  /** The messages added since the last flush. */
  function AddsSince(log: seq<Event>): seq<string> {
    if log == [] then []
    else
      var before := log[..|log| - 1];
      match log[|log| - 1]
      case Added(message) => AddsSince(before) + [message]
      case Flushed(_) => []
      case _ => AddsSince(before)
  }

  /** The latest upsert of each key since the last flush, keys in the order of their first one. */
  function UpsertsSince(log: seq<Event>): seq<Upsert> {
    if log == [] then []
    else
      var before := log[..|log| - 1];
      match log[|log| - 1]
      case Upserted(key, message) => Put(UpsertsSince(before), key, message)
      case Flushed(_) => []
      case _ => UpsertsSince(before)
  }

  lemma SinceAppend(log: seq<Event>, e: Event)
    ensures AddsSince(log + [e]) ==
            if e.Added? then AddsSince(log) + [e.message] else if e.Flushed? then [] else AddsSince(log)
    ensures UpsertsSince(log + [e]) ==
            if e.Upserted? then Put(UpsertsSince(log), e.key, e.message) else if e.Flushed? then [] else UpsertsSince(log)
  {
    assert (log + [e])[..|log|] == log;
  }

  // ---- Lines ----------------------------------------------------------------------------------------

  /** A message that can be framed by line breaks: JSON text of an object. */
  predicate IsLine(s: string) {
    s != "" && '\n' !in s
  }

  ghost predicate AreLines(lines: seq<string>) {
    forall k | 0 <= k < |lines| :: IsLine(lines[k])
  }

  /** The lines of a text. */
  function Split(s: string): (lines: seq<string>)
    ensures |lines| > 0
  {
    if s == "" then [""]
    else
      var lines := Split(s[..|s| - 1]);
      var c := s[|s| - 1];
      if c == '\n' then lines + [""] else lines[..|lines| - 1] + [lines[|lines| - 1] + [c]]
  }

  lemma {:induction false} SplitLine(s: string)
    requires '\n' !in s
    ensures Split(s) == [s]
  {
    if s != "" {
      SplitLine(s[..|s| - 1]);
      assert s == s[..|s| - 1] + [s[|s| - 1]];
    }
  }

  lemma {:induction false} SplitAfterBreak(a: string, line: string)
    requires '\n' !in line
    ensures Split(a + "\n" + line) == Split(a) + [line]
  {
    var text := a + "\n" + line;
    if line == "" {
      assert text[..|text| - 1] == a;
    } else {
      var shorter := line[..|line| - 1];
      var c := line[|line| - 1];
      assert text[..|text| - 1] == a + "\n" + shorter;
      assert text[|text| - 1] == c;
      SplitAfterBreak(a, shorter);
      var lines := Split(a) + [shorter];
      assert lines[..|lines| - 1] == Split(a);
      assert shorter + [c] == line;
    }
  }

  lemma {:induction false} SplitJoin(lines: seq<string>)
    requires lines != [] && AreLines(lines)
    ensures Split(Join(lines)) == lines
  {
    var last := lines[|lines| - 1];
    if |lines| == 1 {
      SplitLine(last);
    } else {
      SplitJoin(lines[..|lines| - 1]);
      SplitAfterBreak(Join(lines[..|lines| - 1]), last);
      assert lines[..|lines| - 1] + [last] == lines;
    }
  }

  lemma {:induction false} JoinConcat(a: seq<string>, b: seq<string>)
    requires a != [] && b != []
    ensures Join(a + b) == Join(a) + "\n" + Join(b)
    decreases |b|
  {
    if |b| == 1 {
      assert (a + b)[..|a|] == a;
      assert |a + b| == |a| + 1 && (a + b)[|a|] == b[0];
      assert Join(a + b) == Join(a) + "\n" + b[0];
    } else {
      var shorter := b[..|b| - 1];
      JoinConcat(a, shorter);
      assert (a + b)[..|a + b| - 1] == a + shorter;
      assert (a + b)[|a + b| - 1] == b[|b| - 1];
      assert Join(a + b) == Join(a + shorter) + "\n" + b[|b| - 1];
      assert Join(b) == Join(shorter) + "\n" + b[|b| - 1];
    }
  }

  lemma JoinEmpty(lines: seq<string>)
    requires AreLines(lines)
    ensures Join(lines) == "" <==> lines == []
  {
    if |lines| > 0 {
      assert IsLine(lines[|lines| - 1]);
    }
  }

  lemma {:induction false} Utf8Concat(a: string, b: string)
    ensures Utf8Length(a + b) == Utf8Length(a) + Utf8Length(b)
    decreases |b|
  {
    if b == "" {
      assert a + b == a;
    } else {
      assert (a + b)[..|a + b| - 1] == a + b[..|b| - 1];
      Utf8Concat(a, b[..|b| - 1]);
    }
  }

  lemma {:induction false} LengthAtMostUtf8(s: string)
    ensures Length(s) <= Utf8Length(s)
    ensures s != "" ==> Length(s) > 0
  {
    if s != "" {
      LengthAtMostUtf8(s[..|s| - 1]);
    }
  }

  // ---- Upsert buffer --------------------------------------------------------------------------------

  function TotalLength(upserts: seq<Upsert>): nat {
    if upserts == [] then 0
    else TotalLength(upserts[..|upserts| - 1]) + Length(upserts[|upserts| - 1].message)
  }

  lemma {:induction false} TotalLengthUpdate(upserts: seq<Upsert>, i: nat, u: Upsert)
    requires i < |upserts|
    ensures TotalLength(upserts[i := u]) == TotalLength(upserts) - Length(upserts[i].message) + Length(u.message)
    decreases |upserts|
  {
    var n := |upserts| - 1;
    if i == n {
      assert upserts[i := u][..n] == upserts[..n];
    } else {
      assert upserts[i := u][..n] == upserts[..n][i := u];
      TotalLengthUpdate(upserts[..n], i, u);
    }
  }

  lemma TotalLengthAppend(upserts: seq<Upsert>, u: Upsert)
    ensures TotalLength(upserts + [u]) == TotalLength(upserts) + Length(u.message)
  {
    assert (upserts + [u])[..|upserts|] == upserts;
  }

  // ---- Invariant ------------------------------------------------------------------------------------

  ghost predicate LinesOk(s: State) {
    && AreLines(AddsSince(s.log)) && AreLines(Messages(s.upserts))
    && forall k | 0 <= k < |s.telemetry| :: AreLines(s.telemetry[k])
  }

  /** The buffers hold what was accepted since the last flush. */
  ghost predicate BuffersMatch(s: State) {
    s.output == Join(AddsSince(s.log)) && s.outputBytesCount == Utf8Length(s.output) && s.upserts == UpsertsSince(s.log)
  }

  /** The counters agree with the buffers, up to a message that is announced but not stored yet. */
  ghost predicate CountersMatch(s: State, announced: nat, bytes: int) {
    && s.messagesCount == |AddsSince(s.log)| + |s.upserts| + announced
    && s.bytesCount == s.outputBytesCount + TotalLength(s.upserts) + bytes
    && (s.timerArmed <==> s.messagesCount > 0)
  }

  ghost predicate Core(s: State, announced: nat, bytes: int) {
    LinesOk(s) && BuffersMatch(s) && CountersMatch(s, announced, bytes)
  }

  predicate UnderLimits(s: State, limit: nat) {
    s.messagesCount < limit && s.bytesCount < RECOMMENDED_REQUEST_BYTES_LIMIT
  }

  /** The k-th event is a flush that sends exactly what was accepted since the flush before. */
  ghost predicate FramedAt(log: seq<Event>, k: nat)
    requires k < |log| && log[k].Flushed?
  {
    var r := log[k].request;
    var lines := AddsSince(log[..k]) + Messages(UpsertsSince(log[..k]));
    && lines != [] && AreLines(lines) && Split(r.body) == lines && r.messagesCount == |lines|
    && r.bodyBytesCount == Utf8Length(r.body) && r.bytesCount <= r.bodyBytesCount
    && r.sentOnExit == r.reason.PageExit?
  }

  ghost predicate Framed(log: seq<Event>) {
    forall k: nat | k < |log| && log[k].Flushed? :: FramedAt(log, k)
  }

  /** The log has grown; if a reason is forced, every new flush carries it. */
  ghost predicate Proceeds(s: State, t: State) {
    && |s.log| <= |t.log| && t.log[..|s.log|] == s.log && t.forcedReason == s.forcedReason
    && (s.forcedReason.Some? ==>
          forall k | |s.log| <= k < |t.log| && t.log[k].Flushed? :: t.log[k].request.reason == s.forcedReason.value)
  }

  lemma ProceedsTransitive(s: State, t: State, u: State)
    requires Proceeds(s, t) && Proceeds(t, u)
    ensures Proceeds(s, u)
  {
    assert u.log[..|s.log|] == u.log[..|t.log|][..|s.log|];
    forall k | |s.log| <= k < |u.log| && u.log[k].Flushed? && s.forcedReason.Some?
      ensures u.log[k].request.reason == s.forcedReason.value
    {
      if k < |t.log| {
        assert u.log[k] == u.log[..|t.log|][k];
      }
    }
  }

  lemma FramedAppend(log: seq<Event>, e: Event)
    requires Framed(log) && (e.Flushed? ==> FramedAt(log + [e], |log|))
    ensures Framed(log + [e])
  {
    forall k: nat | k < |log + [e]| && (log + [e])[k].Flushed? ensures FramedAt(log + [e], k) {
      if k < |log| {
        assert (log + [e])[..k] == log[..k];
        assert FramedAt(log, k);
      }
    }
  }

  // ---- Flush ----------------------------------------------------------------------------------------

  /** The request of a flush. */
  function RequestOf(s: State, reason: Reason): Request {
    var text := UpsertText(s.output, s.upserts);
    Request(reason, s.messagesCount, s.bytesCount, s.output + text, s.outputBytesCount + Utf8Length(text), reason.PageExit?)
  }

  function Emptied(s: State, reason: Reason): State {
    s.(output := "", outputBytesCount := 0, upserts := [], bytesCount := 0, messagesCount := 0,
       timerArmed := false, log := s.log + [Flushed(RequestOf(s, reason))])
  }

  lemma {:induction false} UpsertBytes(upserts: seq<Upsert>)
    ensures TotalLength(upserts) <= Utf8Length(Join(Messages(upserts)))
  {
    if upserts != [] {
      var before, last := upserts[..|upserts| - 1], upserts[|upserts| - 1].message;
      UpsertBytes(before);
      LengthAtMostUtf8(last);
      assert Messages(upserts)[..|upserts| - 1] == Messages(before);
      assert Messages(upserts)[|upserts| - 1] == last;
      if before != [] {
        Utf8Concat(Join(Messages(before)) + "\n", last);
        Utf8Concat(Join(Messages(before)), "\n");
      }
    }
  }

  lemma JoinAfter(adds: seq<string>, messages: seq<string>)
    requires AreLines(adds) && AreLines(messages)
    ensures
      Join(adds + messages) ==
      Join(adds) + if Join(messages) == "" then "" else Separated(Join(adds), Join(messages))
  {
    JoinEmpty(adds);
    JoinEmpty(messages);
    var a, b := Join(adds), Join(messages);
    if adds == [] {
      assert adds + messages == messages && "" + b == b;
    } else if messages == [] {
      assert adds + messages == adds && a + "" == a;
    } else {
      JoinConcat(adds, messages);
      JoinedBySeparator(a, b);
    }
  }

  lemma JoinedBySeparator(a: string, b: string)
    requires a != "" && b != ""
    ensures a + "\n" + b == a + Separated(a, b)
  {}

  lemma BodyLines(s: State, reason: Reason)
    requires Core(s, 0, 0) && s.messagesCount > 0
    ensures
      var lines := AddsSince(s.log) + Messages(s.upserts);
      lines != [] && AreLines(lines) && RequestOf(s, reason).body == Join(lines)
  {
    JoinAfter(AddsSince(s.log), Messages(s.upserts));
  }

  lemma BodyBytes(s: State, reason: Reason)
    requires Core(s, 0, 0)
    ensures
      var r := RequestOf(s, reason);
      r.bodyBytesCount == Utf8Length(r.body) && r.bytesCount <= r.bodyBytesCount
  {
    var text, joined := UpsertText(s.output, s.upserts), Join(Messages(s.upserts));
    Utf8Concat(s.output, text);
    UpsertBytes(s.upserts);
    if text != joined {
      Utf8Concat("\n", joined);
    }
  }

  lemma EmptiedIsFramed(s: State, reason: Reason)
    requires Core(s, 0, 0) && s.messagesCount > 0 && Framed(s.log)
    ensures Core(Emptied(s, reason), 0, 0) && Framed(Emptied(s, reason).log)
  {
    var e := Flushed(RequestOf(s, reason));
    var lines := AddsSince(s.log) + Messages(s.upserts);
    BodyLines(s, reason);
    BodyBytes(s, reason);
    SplitJoin(lines);
    assert (s.log + [e])[..|s.log|] == s.log;
    FramedAppend(s.log, e);
    SinceAppend(s.log, e);
  }

  lemma FlushKeeps(s: State, reason: Reason, limit: nat)
    requires Core(s, 0, 0) && Framed(s.log) && limit > 0 && (s.forcedReason.Some? ==> reason == s.forcedReason.value)
    ensures
      var t := Flush(s, reason, limit);
      Core(t, 0, 0) && Framed(t.log) && Proceeds(s, t) && UnderLimits(t, limit)
    decreases |s.telemetry|, 0, 0
  {
    if s.messagesCount > 0 {
      var emptied := Emptied(s, reason);
      EmptiedIsFramed(s, reason);
      assert Proceeds(s, emptied);
      if s.telemetry != [] {
        var reported := emptied.(telemetry := s.telemetry[1..]);
        assert Flush(s, reason, limit) == AddAll(reported, s.telemetry[0], limit);
        AddAllKeeps(reported, s.telemetry[0], limit);
        assert Proceeds(emptied, AddAll(reported, s.telemetry[0], limit));
        ProceedsTransitive(s, emptied, Flush(s, reason, limit));
      }
    }
  }

  // ---- Messages -------------------------------------------------------------------------------------

  lemma BeforeAddKeeps(s: State, estimate: nat, limit: nat)
    requires Core(s, 0, 0) && Framed(s.log) && limit > 0
    ensures
      var t := BeforeAdd(s, estimate, limit);
      Core(t, 1, estimate) && Framed(t.log) && Proceeds(s, t)
    decreases |s.telemetry|, 1, 0
  {
    FlushKeeps(s, ForcedOr(s, BytesLimit), limit);
  }

  lemma AfterAddKeeps(s: State, difference: int, limit: nat)
    requires Core(s, 0, -difference) && Framed(s.log) && limit > 0
    ensures
      var t := AfterAdd(s, difference, limit);
      Core(t, 0, 0) && Framed(t.log) && Proceeds(s, t) && UnderLimits(t, limit)
    decreases |s.telemetry|, 1, 0
  {
    var t := s.(bytesCount := s.bytesCount + difference);
    assert Core(t, 0, 0) && Proceeds(s, t);
    if t.messagesCount >= limit || t.bytesCount >= RECOMMENDED_REQUEST_BYTES_LIMIT {
      var reason := ForcedOr(t, if t.messagesCount >= limit then MessagesLimit else BytesLimit);
      FlushKeeps(t, reason, limit);
      ProceedsTransitive(s, t, Flush(t, reason, limit));
    }
  }

  lemma WriteKeeps(s: State, message: string, bytes: int, difference: int)
    requires Core(s, 1, bytes) && Framed(s.log) && IsLine(message)
    requires difference == Utf8Length(Separated(s.output, message)) - bytes
    ensures
      var t := Write(s, message);
      && Core(t, 0, -difference) && Framed(t.log) && Proceeds(s, t)
  {
    var adds := AddsSince(s.log);
    SinceAppend(s.log, Added(message));
    FramedAppend(s.log, Added(message));
    JoinEmpty(adds);
    Utf8Concat(s.output, Separated(s.output, message));
    assert (adds + [message])[..|adds|] == adds;
    if adds == [] {
      assert adds + [message] == [message];
    }
  }

  lemma WritingKeeps(ready: State, message: string, difference: int, limit: nat)
    requires Core(ready, 1, Length(message)) && Framed(ready.log) && limit > 0 && IsLine(message)
    requires difference == Utf8Length(Separated(ready.output, message)) - Length(message)
    ensures
      var t := AfterAdd(Write(ready, message), difference, limit);
      Core(t, 0, 0) && Framed(t.log) && Proceeds(ready, t) && UnderLimits(t, limit)
    decreases |ready.telemetry|, 1, 2
  {
    WriteKeeps(ready, message, Length(message), difference);
    StoredKeeps(ready, Write(ready, message), difference, limit);
  }

  lemma AddMessageKeeps(s: State, message: string, limit: nat)
    requires Core(s, 0, 0) && Framed(s.log) && limit > 0 && IsLine(message) && UnderLimits(s, limit)
    ensures
      var t := AddMessage(s, message, limit);
      Core(t, 0, 0) && Framed(t.log) && Proceeds(s, t) && UnderLimits(t, limit)
    decreases |s.telemetry|, 2, 0
  {
    if Length(message) >= MESSAGE_BYTES_LIMIT {
      DiscardKeeps(s, message);
    } else {
      var ready := BeforeAdd(s, Length(message), limit);
      BeforeAddKeeps(s, Length(message), limit);
      WritingKeeps(ready, message, Utf8Length(Separated(ready.output, message)) - Length(message), limit);
      ProceedsTransitive(s, ready, AddMessage(s, message, limit));
    }
  }

  lemma DiscardKeeps(s: State, message: string)
    requires Core(s, 0, 0) && Framed(s.log)
    ensures
      var t := s.(log := s.log + [Discarded(message)]);
      Core(t, 0, 0) && Framed(t.log) && Proceeds(s, t)
  {
    SinceAppend(s.log, Discarded(message));
    FramedAppend(s.log, Discarded(message));
  }

  lemma {:induction false} AddAllKeeps(s: State, messages: seq<string>, limit: nat)
    requires Core(s, 0, 0) && Framed(s.log) && limit > 0 && AreLines(messages) && UnderLimits(s, limit)
    ensures
      var t := AddAll(s, messages, limit);
      Core(t, 0, 0) && Framed(t.log) && Proceeds(s, t) && UnderLimits(t, limit)
    decreases |s.telemetry|, 3, |messages|
  {
    if messages != [] {
      AddMessageKeeps(s, messages[0], limit);
      AddAllKeeps(AddMessage(s, messages[0], limit), messages[1..], limit);
      ProceedsTransitive(s, AddMessage(s, messages[0], limit), AddAll(s, messages, limit));
    }
  }

  lemma StoreKeeps(s: State, key: string, message: string, bytes: int)
    requires IsLine(message) && Framed(s.log) && LinesOk(s) && BuffersMatch(s)
    ensures
      var t := Store(s, key, message);
      && LinesOk(t) && BuffersMatch(t) && Framed(t.log) && Proceeds(s, t) && AddsSince(t.log) == AddsSince(s.log)
  {
    SinceAppend(s.log, Upserted(key, message));
    FramedAppend(s.log, Upserted(key, message));
    var i := IndexOfKey(s.upserts, key);
    var t := Store(s, key, message);
    forall k | 0 <= k < |Messages(t.upserts)| ensures IsLine(Messages(t.upserts)[k]) {
      if k < |s.upserts| && k != i {
        assert Messages(t.upserts)[k] == Messages(s.upserts)[k];
      }
    }
  }

  lemma ReplacedCore(s: State, message: string, key: string, difference: int)
    requires Core(s, 0, 0) && Framed(s.log) && IsLine(message) && IndexOfKey(s.upserts, key) < |s.upserts|
    requires difference == Length(message) - Length(s.upserts[IndexOfKey(s.upserts, key)].message)
    ensures
      var t := Store(s, key, message);
      Core(t, 0, -difference) && Framed(t.log) && Proceeds(s, t)
  {
    StoreKeeps(s, key, message, 0);
    TotalLengthUpdate(s.upserts, IndexOfKey(s.upserts, key), Upsert(key, message));
  }

  lemma StoredKeeps(s: State, stored: State, difference: int, limit: nat)
    requires Core(stored, 0, -difference) && Framed(stored.log) && Proceeds(s, stored) && limit > 0
    ensures
      var t := AfterAdd(stored, difference, limit);
      Framed(t.log) && Proceeds(s, t) && Core(t, 0, 0) && UnderLimits(t, limit)
    decreases |stored.telemetry|, 1, 1
  {
    AfterAddKeeps(stored, difference, limit);
    ProceedsTransitive(s, stored, AfterAdd(stored, difference, limit));
  }

  lemma ReplacingKeeps(s: State, message: string, key: string, difference: int, limit: nat)
    requires Core(s, 0, 0) && Framed(s.log) && limit > 0 && IsLine(message)
    requires IndexOfKey(s.upserts, key) < |s.upserts|
    requires difference == Length(message) - Length(s.upserts[IndexOfKey(s.upserts, key)].message)
    ensures
      var t := AfterAdd(Store(s, key, message), difference, limit);
      Framed(t.log) && Proceeds(s, t) && Core(t, 0, 0) && UnderLimits(t, limit)
  {
    ReplacedCore(s, message, key, difference);
    StoredKeeps(s, Store(s, key, message), difference, limit);
  }

  lemma InsertingKeeps(ready: State, message: string, key: string, limit: nat)
    requires Core(ready, 1, Length(message)) && Framed(ready.log) && limit > 0 && IsLine(message)
    requires IndexOfKey(ready.upserts, key) == |ready.upserts|
    ensures
      var t := AfterAdd(Store(ready, key, message), 0, limit);
      Framed(t.log) && Proceeds(ready, t) && Core(t, 0, 0) && UnderLimits(t, limit)
  {
    var stored := Store(ready, key, message);
    StoreKeeps(ready, key, message, Length(message));
    TotalLengthAppend(ready.upserts, Upsert(key, message));
    assert Core(stored, 0, 0);
    AfterAddKeeps(stored, 0, limit);
    ProceedsTransitive(ready, stored, AfterAdd(stored, 0, limit));
  }

  lemma UpsertingKeeps(s: State, message: string, key: string, limit: nat)
    requires Core(s, 0, 0) && Framed(s.log) && limit > 0 && IsLine(message) && UnderLimits(s, limit)
    ensures
      var t := Upserting(s, message, key, limit);
      Framed(t.log) && Proceeds(s, t) && Core(t, 0, 0) && UnderLimits(t, limit)
  {
    if Length(message) >= MESSAGE_BYTES_LIMIT {
      DiscardKeeps(s, message);
    } else if IndexOfKey(s.upserts, key) < |s.upserts| {
      var difference := Length(message) - Length(s.upserts[IndexOfKey(s.upserts, key)].message);
      ReplacingKeeps(s, message, key, difference, limit);
    } else {
      var ready := BeforeAdd(s, Length(message), limit);
      BeforeAddKeeps(s, Length(message), limit);
      BeforeAddFreesKey(s, Length(message), key, limit);
      InsertingKeeps(ready, message, key, limit);
      ProceedsTransitive(s, ready, Upserting(s, message, key, limit));
    }
  }

  /** Telemetry only adds, so a key that is free stays free. */
  lemma {:induction false} BeforeAddFreesKey(s: State, estimate: nat, key: string, limit: nat)
    requires IndexOfKey(s.upserts, key) == |s.upserts|
    ensures IndexOfKey(BeforeAdd(s, estimate, limit).upserts, key) == |BeforeAdd(s, estimate, limit).upserts|
  {
    FlushKeepsUpserts(s, ForcedOr(s, BytesLimit), limit);
  }

  lemma {:induction false} FlushKeepsUpserts(s: State, reason: Reason, limit: nat)
    ensures Flush(s, reason, limit).upserts == s.upserts || Flush(s, reason, limit).upserts == []
    decreases |s.telemetry|, 0, 0
  {
    if s.messagesCount > 0 && s.telemetry != [] {
      AddAllKeepsUpserts(Emptied(s, reason).(telemetry := s.telemetry[1..]), s.telemetry[0], limit);
    }
  }

  lemma {:induction false} AddAllKeepsUpserts(s: State, messages: seq<string>, limit: nat)
    ensures AddAll(s, messages, limit).upserts == s.upserts || AddAll(s, messages, limit).upserts == []
    decreases |s.telemetry|, 3, |messages|
  {
    if messages != [] {
      AddMessageKeepsUpserts(s, messages[0], limit);
      AddAllKeepsUpserts(AddMessage(s, messages[0], limit), messages[1..], limit);
    }
  }

  lemma {:induction false} BeforeAddKeepsUpserts(s: State, estimate: nat, limit: nat)
    ensures BeforeAdd(s, estimate, limit).upserts == s.upserts || BeforeAdd(s, estimate, limit).upserts == []
    decreases |s.telemetry|, 1, 0
  {
    FlushKeepsUpserts(s, ForcedOr(s, BytesLimit), limit);
  }

  lemma {:induction false} AfterAddKeepsUpserts(s: State, difference: int, limit: nat)
    ensures AfterAdd(s, difference, limit).upserts == s.upserts || AfterAdd(s, difference, limit).upserts == []
    decreases |s.telemetry|, 1, 0
  {
    var t := s.(bytesCount := s.bytesCount + difference);
    FlushKeepsUpserts(t, ForcedOr(t, MessagesLimit), limit);
    FlushKeepsUpserts(t, ForcedOr(t, BytesLimit), limit);
  }

  lemma {:induction false} AddMessageKeepsUpserts(s: State, message: string, limit: nat)
    ensures AddMessage(s, message, limit).upserts == s.upserts || AddMessage(s, message, limit).upserts == []
    decreases |s.telemetry|, 2, 0
  {
    var estimate := Length(message);
    if estimate < MESSAGE_BYTES_LIMIT {
      var ready := BeforeAdd(s, estimate, limit);
      BeforeAddKeepsUpserts(s, estimate, limit);
      AfterAddKeepsUpserts(Write(ready, message), Utf8Length(Separated(ready.output, message)) - estimate, limit);
    }
  }

  // ---- Every run ------------------------------------------------------------------------------------

  ghost predicate Inv(s: State, limit: nat) {
    Core(s, 0, 0) && Framed(s.log) && UnderLimits(s, limit) && s.forcedReason.None?
  }

  ghost predicate CleanOperation(op: Operation) {
    IsLine(op.message)
  }

  ghost predicate CleanOperations(ops: seq<Operation>) {
    forall k | 0 <= k < |ops| :: CleanOperation(ops[k])
  }

  ghost predicate CleanAction(a: Action) {
    && (a.Perform? ==> CleanOperation(a.operation))
    && (a.PageMayExit? ==> CleanOperations(a.prepared))
  }

  /** Every message that is given to the batch is a line. */
  ghost predicate CleanRun(actions: seq<Action>, telemetry: seq<seq<string>>) {
    && (forall k | 0 <= k < |actions| :: CleanAction(actions[k]))
    && (forall k | 0 <= k < |telemetry| :: AreLines(telemetry[k]))
  }

  lemma PerformOneKeeps(s: State, op: Operation, limit: nat)
    requires Core(s, 0, 0) && Framed(s.log) && UnderLimits(s, limit) && limit > 0 && CleanOperation(op)
    ensures
      var t := PerformOne(s, op, limit);
      Core(t, 0, 0) && Framed(t.log) && Proceeds(s, t) && UnderLimits(t, limit)
  {
    match op
    case Add(message) => AddMessageKeeps(s, message, limit);
    case UpsertMessage(message, key) => UpsertingKeeps(s, message, key, limit);
  }

  lemma {:induction false} PerformAllKeeps(s: State, ops: seq<Operation>, limit: nat)
    requires Core(s, 0, 0) && Framed(s.log) && UnderLimits(s, limit) && limit > 0 && CleanOperations(ops)
    ensures
      var t := PerformAll(s, ops, limit);
      Core(t, 0, 0) && Framed(t.log) && Proceeds(s, t) && UnderLimits(t, limit)
    decreases |ops|
  {
    if ops != [] {
      PerformOneKeeps(s, ops[0], limit);
      PerformAllKeeps(PerformOne(s, ops[0], limit), ops[1..], limit);
      ProceedsTransitive(s, PerformOne(s, ops[0], limit), PerformAll(s, ops, limit));
    }
  }

  lemma PrepareKeeps(s: State, kind: nat, prepared: seq<Operation>, limit: nat)
    requires Inv(s, limit) && limit > 0 && CleanOperations(prepared)
    ensures
      var t := Prepare(s, kind, prepared, limit);
      && Inv(t, limit) && |s.log| <= |t.log| && t.log[..|s.log|] == s.log
      && forall k | |s.log| <= k < |t.log| && t.log[k].Flushed? :: t.log[k].request.reason == PageExit(kind)
  {
    PerformAllKeeps(s.(forcedReason := Some(PageExit(kind))), prepared, limit);
  }

  lemma StepKeepsInv(s: State, a: Action, limit: nat)
    requires Inv(s, limit) && limit > 0 && CleanAction(a)
    ensures Inv(Step(s, a, limit), limit)
    ensures |s.log| <= |Step(s, a, limit).log| && Step(s, a, limit).log[..|s.log|] == s.log
  {
    match a
    case Perform(op) => PerformOneKeeps(s, op, limit);
    case TimerFires => FlushKeeps(s, DurationLimit, limit);
    case ForceFlush(reason) => FlushKeeps(s, reason, limit);
    case PageMayExit(kind, prepared) =>
      PrepareKeeps(s, kind, prepared, limit);
      var t := Prepare(s, kind, prepared, limit);
      FlushKeeps(t, PageExit(kind), limit);
      assert Step(s, a, limit).log[..|s.log|] == Step(s, a, limit).log[..|t.log|][..|s.log|];
  }

  lemma {:induction false} RunKeepsInv(actions: seq<Action>, telemetry: seq<seq<string>>, limit: nat)
    requires CleanRun(actions, telemetry) && limit > 0
    ensures Inv(Run(actions, telemetry, limit), limit)
  {
    if actions != [] {
      var before := actions[..|actions| - 1];
      RunKeepsInv(before, telemetry, limit);
      StepKeepsInv(Run(before, telemetry, limit), actions[|actions| - 1], limit);
    }
  }

  // ---- Theorems -------------------------------------------------------------------------------------

  /** Every request is framed: its body, split at line breaks, is the messages added since the request before
      in order, then the latest upsert of each key, with no empty line; the controller counted exactly these,
      and estimated no more bytes than are sent. */
  lemma RequestsAreFramed(actions: seq<Action>, telemetry: seq<seq<string>>, limit: nat, k: nat)
    requires CleanRun(actions, telemetry) && limit > 0
    requires k < |Run(actions, telemetry, limit).log| && Run(actions, telemetry, limit).log[k].Flushed?
    ensures
      var log := Run(actions, telemetry, limit).log;
      var r := log[k].request;
      var lines := AddsSince(log[..k]) + Messages(UpsertsSince(log[..k]));
      && Split(r.body) == lines && r.messagesCount == |lines| > 0 && "" !in lines
      && r.bytesCount <= r.bodyBytesCount == Utf8Length(r.body)
      && r.sentOnExit == r.reason.PageExit?
  {
    RunKeepsInv(actions, telemetry, limit);
    assert FramedAt(Run(actions, telemetry, limit).log, k);
  }

  /** Between calls the counters are exact and under their limits, and the timer runs if there is anything
      to flush. */
  lemma CountersAreExact(actions: seq<Action>, telemetry: seq<seq<string>>, limit: nat)
    requires CleanRun(actions, telemetry) && limit > 0
    ensures
      var s := Run(actions, telemetry, limit);
      && s.messagesCount == |AddsSince(s.log)| + |UpsertsSince(s.log)| < limit
      && s.bytesCount == Utf8Length(s.output) + TotalLength(s.upserts) < RECOMMENDED_REQUEST_BYTES_LIMIT
      && (s.timerArmed <==> s.messagesCount > 0)
  {
    RunKeepsInv(actions, telemetry, limit);
  }

  /** Every request that goes out while a page exit is prepared carries its reason, and so does the one that
      ends the preparation. */
  lemma PageExitsAreUrgent(
    actions: seq<Action>, telemetry: seq<seq<string>>, limit: nat, kind: nat, prepared: seq<Operation>
  )
    requires CleanRun(actions, telemetry) && limit > 0 && CleanOperations(prepared)
    ensures
      var s := Run(actions, telemetry, limit);
      var t := Prepare(s, kind, prepared, limit);
      var u := Step(s, PageMayExit(kind, prepared), limit);
      && |s.log| <= |t.log|
      && (forall k | |s.log| <= k < |t.log| && t.log[k].Flushed? :: t.log[k].request.reason == PageExit(kind))
      && (t.messagesCount > 0 ==>
            |t.log| < |u.log| && u.log[|t.log|].Flushed? && u.log[|t.log|].request.reason == PageExit(kind))
      && (t.messagesCount == 0 ==> u == t)
  {
    RunKeepsInv(actions, telemetry, limit);
    var s := Run(actions, telemetry, limit);
    PrepareKeeps(s, kind, prepared, limit);
    UrgentFlush(Prepare(s, kind, prepared, limit), kind, limit);
  }

  lemma UrgentFlush(t: State, kind: nat, limit: nat)
    requires Inv(t, limit) && limit > 0
    ensures
      var u := Flush(t, PageExit(kind), limit);
      && (t.messagesCount > 0 ==>
            |t.log| < |u.log| && u.log[|t.log|].Flushed? && u.log[|t.log|].request.reason == PageExit(kind))
      && (t.messagesCount == 0 ==> u == t)
  {
    if t.messagesCount > 0 {
      var emptied := Emptied(t, PageExit(kind));
      EmptiedIsFramed(t, PageExit(kind));
      if t.telemetry != [] {
        AddAllKeeps(emptied.(telemetry := t.telemetry[1..]), t.telemetry[0], limit);
        var u := Flush(t, PageExit(kind), limit);
        assert u.log[|t.log|] == u.log[..|t.log| + 1][|t.log|];
      }
    }
  }

  // ---- Conservation ---------------------------------------------------------------------------------

  /** All messages that were added, in the order in which they were written. */
  function AllAdds(log: seq<Event>): seq<string> {
    if log == [] then []
    else AllAdds(log[..|log| - 1]) + if log[|log| - 1].Added? then [log[|log| - 1].message] else []
  }

  /** All added messages that have been sent: the first lines of each request. */
  function SentAdds(log: seq<Event>): seq<string> {
    if log == [] then []
    else
      var before := log[..|log| - 1];
      SentAdds(before)
      + if log[|log| - 1].Flushed? && |AddsSince(before)| <= |Split(log[|log| - 1].request.body)|
        then Split(log[|log| - 1].request.body)[..|AddsSince(before)|] else []
  }

  lemma {:induction false} SentAndBuffered(log: seq<Event>)
    requires Framed(log)
    ensures AllAdds(log) == SentAdds(log) + AddsSince(log)
  {
    if log != [] {
      var before, e := log[..|log| - 1], log[|log| - 1];
      assert log == before + [e];
      forall k: nat | k < |before| && before[k].Flushed? ensures FramedAt(before, k) {
        assert FramedAt(log, k);
        assert before[..k] == log[..k];
      }
      SentAndBuffered(before);
      SinceAppend(before, e);
      if e.Flushed? {
        assert FramedAt(log, |before|);
        var lines := AddsSince(before) + Messages(UpsertsSince(before));
        assert lines[..|AddsSince(before)|] == AddsSince(before);
      }
    }
  }

  /** Every accepted add has left in exactly one request, or is buffered, in order. */
  lemma AddsAreConserved(actions: seq<Action>, telemetry: seq<seq<string>>, limit: nat)
    requires CleanRun(actions, telemetry) && limit > 0
    ensures
      var s := Run(actions, telemetry, limit);
      && AllAdds(s.log) == SentAdds(s.log) + AddsSince(s.log) && s.output == Join(AddsSince(s.log))
  {
    RunKeepsInv(actions, telemetry, limit);
    SentAndBuffered(Run(actions, telemetry, limit).log);
  }

  /** The last message upserted for a key since the last flush. */
  function LatestUpsert(log: seq<Event>, key: string): Option<string> {
    if log == [] then None
    else
      var e := log[|log| - 1];
      if e.Flushed? then None
      else if e.Upserted? && e.key == key then Some(e.message)
      else LatestUpsert(log[..|log| - 1], key)
  }

  /** A key is in the buffer once, with its latest message, exactly if it was upserted since the last flush. */
  lemma {:induction false} BufferHoldsLatestUpserts(log: seq<Event>, key: string)
    ensures
      var upserts := UpsertsSince(log);
      var i := IndexOfKey(upserts, key);
      && LatestUpsert(log, key) == (if i < |upserts| then Some(upserts[i].message) else None)
      && forall j | 0 <= j < |upserts| && upserts[j].key == key :: j == i
  {
    if log != [] {
      var before, e := log[..|log| - 1], log[|log| - 1];
      BufferHoldsLatestUpserts(before, key);
      if e.Upserted? {
        var was := UpsertsSince(before);
        var now := Put(was, e.key, e.message);
        PutKeys(was, e.key, e.message, key);
      }
    }
  }

  lemma {:induction false} IndexIsFirst(upserts: seq<Upsert>, key: string, i: nat)
    requires i <= |upserts| && (i < |upserts| ==> upserts[i].key == key)
    requires forall j | 0 <= j < i :: upserts[j].key != key
    ensures IndexOfKey(upserts, key) == i
  {
    if i > 0 {
      IndexIsFirst(upserts[1..], key, i - 1);
    }
  }

  lemma {:induction false} FirstIndex(upserts: seq<Upsert>, key: string)
    ensures forall j | 0 <= j < IndexOfKey(upserts, key) :: upserts[j].key != key
  {
    if upserts != [] {
      FirstIndex(upserts[1..], key);
    }
  }

  lemma PutKeys(upserts: seq<Upsert>, key: string, message: string, other: string)
    ensures
      var now := Put(upserts, key, message);
      IndexOfKey(now, other) ==
      if other == key || IndexOfKey(upserts, other) < |upserts| then IndexOfKey(upserts, other) else |now|
  {
    var now := Put(upserts, key, message);
    var i := IndexOfKey(upserts, other);
    FirstIndex(upserts, other);
    IndexIsFirst(now, other, if other == key || i < |upserts| then i else |now|);
  }
}
