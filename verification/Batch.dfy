/** The identity encoder and the batch with its flush controller, proved against `BatchProtocol`. */
module Batches {
  import opened Wrappers
  import opened BatchProtocol
  import opened BatchProofs

  class IdentityEncoder {
    var output: string
    var outputBytesCount: nat

    constructor ()
      ensures output == "" && outputBytesCount == 0
    {
      output, outputBytesCount := "", 0;
    }

    method Write(data: string) returns (additionalEncodedBytesCount: nat)
      modifies this
      ensures additionalEncodedBytesCount == Utf8Length(data)
      ensures output == old(output) + data && outputBytesCount == old(outputBytesCount) + additionalEncodedBytesCount
    {
      additionalEncodedBytesCount := Utf8Length(data);
      outputBytesCount := outputBytesCount + additionalEncodedBytesCount;
      output := output + data;
    }

    method FinishSync() returns (encoded: string, bytesCount: nat)
      modifies this
      ensures encoded == old(output) && bytesCount == old(outputBytesCount)
      ensures output == "" && outputBytesCount == 0
    {
      encoded, bytesCount := output, outputBytesCount;
      output, outputBytesCount := "", 0;
    }
  }

  class Batch {
    const encoder: IdentityEncoder
    const messagesLimit: nat
    var upsertBuffer: seq<Upsert>
    var currentBytesCount: int
    var currentMessagesCount: nat
    var durationTimerArmed: bool
    var forcedFlushReason: Option<Reason>
    var telemetry: seq<seq<string>>
    var log: seq<Event>

    ghost function Abs(): State
      reads this, encoder
    {
      State(encoder.output, encoder.outputBytesCount, upsertBuffer, currentBytesCount, currentMessagesCount,
            durationTimerArmed, forcedFlushReason, telemetry, log)
    }

    ghost predicate Valid()
      reads this, encoder
    {
      Inv(Abs(), messagesLimit) && messagesLimit > 0
    }

    constructor (messagesLimit: nat, telemetry: seq<seq<string>>)
      requires messagesLimit > 0 && forall k | 0 <= k < |telemetry| :: AreLines(telemetry[k])
      ensures Abs() == Init(telemetry) && Valid() && this.messagesLimit == messagesLimit && fresh(encoder)
    {
      encoder := new IdentityEncoder();
      this.messagesLimit := messagesLimit;
      upsertBuffer, currentBytesCount, currentMessagesCount := [], 0, 0;
      durationTimerArmed, forcedFlushReason, this.telemetry, log := false, None, telemetry, [];
      new;
      RunKeepsInv([], telemetry, messagesLimit);
    }

    // ---- Flush controller -------------------------------------------------------------------------

    method FlushPool(reason: Reason)
      modifies this, encoder
      ensures Abs() == Flush(old(Abs()), reason, messagesLimit)
      decreases |telemetry|, 0, 0
    {
      if currentMessagesCount == 0 {
        return;
      }
      EmptyPool(reason);
      if |telemetry| > 0 {
        var reported := telemetry[0];
        telemetry := telemetry[1..];
        AddEach(reported);
      }
    }

    /** The counters restart, the timer is cancelled, and the observer of flushes sends what is buffered. */
    method EmptyPool(reason: Reason)
      modifies this, encoder
      ensures Abs() == Emptied(old(Abs()), reason)
    {
      var messagesCount, bytesCount := currentMessagesCount, currentBytesCount;
      currentMessagesCount, currentBytesCount := 0, 0;
      durationTimerArmed := false;
      SendPool(reason, messagesCount, bytesCount);
    }

    /** The batch's part of a flush: what is buffered goes out in one request. */
    method SendPool(reason: Reason, messagesCount: nat, bytesCount: int)
      modifies this`upsertBuffer, this`log, encoder
      ensures
        var text := UpsertText(old(encoder.output), old(upsertBuffer));
        log == old(log) + [Flushed(Request(reason, messagesCount, bytesCount, old(encoder.output) + text,
                                           old(encoder.outputBytesCount) + Utf8Length(text), reason.PageExit?))]
      ensures upsertBuffer == [] && encoder.output == "" && encoder.outputBytesCount == 0
    {
      var upsertMessages := Join(Messages(upsertBuffer));
      upsertBuffer := [];
      assert encoder.output + "" == encoder.output;
      if upsertMessages != "" {
        var _ := encoder.Write(if encoder.output == "" then upsertMessages else "\n" + upsertMessages);
      }
      var body, bodyBytesCount := encoder.FinishSync();
      log := log + [Flushed(Request(reason, messagesCount, bytesCount, body, bodyBytesCount, reason.PageExit?))];
    }

    method NotifyBeforeAddMessage(estimatedMessageBytesCount: nat)
      modifies this, encoder
      ensures Abs() == BeforeAdd(old(Abs()), estimatedMessageBytesCount, messagesLimit)
      decreases |telemetry|, 1, 0
    {
      if currentBytesCount + estimatedMessageBytesCount >= RECOMMENDED_REQUEST_BYTES_LIMIT {
        FlushPool(if forcedFlushReason.Some? then forcedFlushReason.value else BytesLimit);
      }
      currentMessagesCount := currentMessagesCount + 1;
      currentBytesCount := currentBytesCount + estimatedMessageBytesCount;
      durationTimerArmed := true;
    }

    method NotifyAfterAddMessage(messageBytesCountDiff: int)
      modifies this, encoder
      ensures Abs() == AfterAdd(old(Abs()), messageBytesCountDiff, messagesLimit)
      decreases |telemetry|, 1, 0
    {
      ghost var t := old(Abs()).(bytesCount := old(currentBytesCount) + messageBytesCountDiff);
      currentBytesCount := currentBytesCount + messageBytesCountDiff;
      assert Abs() == t;
      if currentMessagesCount >= messagesLimit {
        FlushPool(if forcedFlushReason.Some? then forcedFlushReason.value else MessagesLimit);
      } else if currentBytesCount >= RECOMMENDED_REQUEST_BYTES_LIMIT {
        FlushPool(if forcedFlushReason.Some? then forcedFlushReason.value else BytesLimit);
      }
    }

    // ---- Batch ------------------------------------------------------------------------------------

    method WriteMessage(message: string) returns (written: nat)
      modifies this`log, encoder
      ensures Abs() == Write(old(Abs()), message) && written == Utf8Length(Separated(old(encoder.output), message))
    {
      written := encoder.Write(if encoder.output == "" then message else "\n" + message);
      log := log + [Added(message)];
    }

    method AddOne(message: string)
      modifies this, encoder
      ensures Abs() == AddMessage(old(Abs()), message, messagesLimit)
      decreases |telemetry|, 2, 0
    {
      var estimatedMessageBytesCount := Length(message);
      if estimatedMessageBytesCount >= MESSAGE_BYTES_LIMIT {
        log := log + [Discarded(message)];
        return;
      }
      NotifyBeforeAddMessage(estimatedMessageBytesCount);
      var written := WriteMessage(message);
      NotifyAfterAddMessage(written - estimatedMessageBytesCount);
    }

    method AddEach(messages: seq<string>)
      modifies this, encoder
      ensures Abs() == AddAll(old(Abs()), messages, messagesLimit)
      decreases |telemetry|, 3, |messages|
    {
      if messages != [] {
        AddOne(messages[0]);
        AddEach(messages[1..]);
      }
    }

    method UpsertOne(message: string, key: string)
      modifies this, encoder
      ensures Abs() == Upserting(old(Abs()), message, key, messagesLimit)
    {
      var estimatedMessageBytesCount := Length(message);
      if estimatedMessageBytesCount >= MESSAGE_BYTES_LIMIT {
        log := log + [Discarded(message)];
        return;
      }
      var i := IndexOfKey(upsertBuffer, key);
      var bytesDiff := 0;
      if i < |upsertBuffer| {
        bytesDiff := estimatedMessageBytesCount - Length(upsertBuffer[i].message);
      } else {
        NotifyBeforeAddMessage(estimatedMessageBytesCount);
      }
      upsertBuffer := Put(upsertBuffer, key, message);
      log := log + [Upserted(key, message)];
      NotifyAfterAddMessage(bytesDiff);
    }

    method PerformOperation(op: Operation)
      modifies this, encoder
      ensures Abs() == PerformOne(old(Abs()), op, messagesLimit)
    {
      match op
      case Add(message) => AddOne(message);
      case UpsertMessage(message, key) => UpsertOne(message, key);
    }

    // ---- Entry points -----------------------------------------------------------------------------

    method AddOrUpsert(op: Operation)
      requires Valid() && CleanOperation(op)
      modifies this, encoder
      ensures Abs() == Step(old(Abs()), Perform(op), messagesLimit) && Valid()
    {
      StepKeepsInv(Abs(), Perform(op), messagesLimit);
      PerformOperation(op);
    }

    method FireDurationTimer()
      requires Valid()
      modifies this, encoder
      ensures Abs() == Step(old(Abs()), TimerFires, messagesLimit) && Valid()
    {
      StepKeepsInv(Abs(), TimerFires, messagesLimit);
      if durationTimerArmed {
        FlushPool(DurationLimit);
      }
    }

    method Force(reason: Reason)
      requires Valid()
      modifies this, encoder
      ensures Abs() == Step(old(Abs()), ForceFlush(reason), messagesLimit) && Valid()
    {
      StepKeepsInv(Abs(), ForceFlush(reason), messagesLimit);
      FlushPool(reason);
    }

    /** Subscribers get to add what they have, with the reason forced. */
    method PrepareUrgentFlush(kind: nat, prepared: seq<Operation>)
      modifies this, encoder
      ensures Abs() == Prepare(old(Abs()), kind, prepared, messagesLimit)
    {
      forcedFlushReason := Some(PageExit(kind));
      ghost var started := Abs();
      var k := 0;
      while k < |prepared|
        invariant 0 <= k <= |prepared|
        invariant PerformAll(Abs(), prepared[k..], messagesLimit) == PerformAll(started, prepared, messagesLimit)
      {
        assert prepared[k..][1..] == prepared[k + 1..];
        PerformOperation(prepared[k]);
        k := k + 1;
      }
      forcedFlushReason := None;
    }

    /** The page may exit: everything is flushed after that. */
    method OnPageMayExit(kind: nat, prepared: seq<Operation>)
      requires Valid() && CleanOperations(prepared)
      modifies this, encoder
      ensures Abs() == Step(old(Abs()), PageMayExit(kind, prepared), messagesLimit) && Valid()
    {
      StepKeepsInv(Abs(), PageMayExit(kind, prepared), messagesLimit);
      PrepareUrgentFlush(kind, prepared);
      FlushPool(PageExit(kind));
    }
  }
}
