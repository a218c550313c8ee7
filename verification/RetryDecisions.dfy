/** What the transport decides, step by step and in plain numbers: which responses deliver a payload, where a
    payload goes that is not delivered, and when one is dropped. */
module RetryDecisions {
  import opened RetryProtocol
  import opened RetryProtocolProofs
  import opened RetryTheorems

  // ---- The log of one step ----------------------------------------------------------------------------

  lemma {:induction false} SentsAreSent(payloads: seq<Payload>, e: Event)
    requires !e.Sent?
    ensures Count(Sents(payloads), e) == 0
    decreases |payloads|
  {
    if payloads != [] {
      var init := payloads[..|payloads| - 1];
      assert Sents(payloads)[..|payloads| - 1] == Sents(init);
      SentsAreSent(init, e);
    }
  }

  predicate Reports(s: State, reason: RetryReason) {
    reason == AfterSuccess && Bytes(s.queue) >= 20 * 1024 * 1024 && !s.fullReported
  }

  /** Draining logs transmissions, and a report if it is due. */
  lemma DrainLog(s: State, reason: RetryReason, e: Event)
    requires s.status == Up && QueueBounded(s.queue) && !e.Sent?
    ensures Count(RetryQueuedPayloads(s, reason).log, e) ==
            Count(s.log, e) + if e == QueueFullReported && Reports(s, reason) then 1 else 0
  {
    var k := DrainingSplitsTheQueue(s, reason);
    var reported := ReportQueueFull(s, reason);
    LogCounts(s.log, QueueFullReported);
    CountConcat(reported.log, Sents(reported.queue[..k]), e);
    SentsAreSent(reported.queue[..k], e);
  }

  /** What a success logs. */
  lemma SuccessLog(s: State, i: nat, response: HttpResponse, online: bool, e: Event)
    requires Control(s) && QueueBounded(s.queue) && i < |s.flights| && !IsFailure(response, online) && !e.Sent?
    ensures Count(Respond(s, i, response, online).log, e) ==
            Count(s.log, e)
            + (if e == Succeeded(s.flights[i].payload) then 1 else 0)
            + (if e == QueueFullReported && !s.flights[i].isRetry && Reports(s, AfterSuccess) then 1 else 0)
  {
    if s.flights[i].isRetry {
      RetriedIsHead(s, i);
      RetrySuccessLog(s, e);
    } else {
      FirstSuccessLog(s, i, e);
    }
  }

  lemma FirstSuccessLog(s: State, i: nat, e: Event)
    requires QueueBounded(s.queue) && i < |s.flights| && !e.Sent?
    ensures
      var t := Log(Land(s, i), Succeeded(s.flights[i].payload)).(status := Up);
      Count(RetryQueuedPayloads(t, AfterSuccess).log, e) ==
      Count(s.log, e) + (if e == Succeeded(s.flights[i].payload) then 1 else 0)
      + (if e == QueueFullReported && Reports(s, AfterSuccess) then 1 else 0)
  {
    LogCounts(s.log, Succeeded(s.flights[i].payload));
    DrainLog(Log(Land(s, i), Succeeded(s.flights[i].payload)).(status := Up), AfterSuccess, e);
  }

  lemma RetrySuccessLog(s: State, e: Event)
    requires QueueBounded(s.queue) && s.queue != [] && !e.Sent?
    ensures Count(RetryQueuedPayloads(Resume(s), AfterResume).log, e) ==
            Count(s.log, e) + if e == Succeeded(s.queue[0]) then 1 else 0
  {
    LogCounts(s.log, Succeeded(s.queue[0]));
    BoundedSuffix(s.queue, 1);
    DrainLog(Resume(s), AfterResume, e);
  }

  predicate IsDropped(s: State, f: Flight) {
    !f.isRetry && Bytes(s.queue) >= 20 * 1024 * 1024
  }

  /** What a failure does to the log, the queue and the payload. */
  lemma FailureEffect(s: State, i: nat, response: HttpResponse, online: bool)
    requires i < |s.flights| && IsFailure(response, online)
    ensures
      var f := s.flights[i];
      var u := Respond(s, i, response, online);
      && u.log == s.log + [Failed(f.payload, f.isRetry)] + (if IsDropped(s, f) then [QueueFull(f.payload)] else [])
      && u.queue == (if f.isRetry || IsDropped(s, f) then s.queue else s.queue + [f.payload])
      && u.flights == Remove(s.flights, i)
      && f.payload.id in u.retries && u.retries[f.payload.id].lastFailureStatus == response.status
  {}

  lemma FailureLog(s: State, i: nat, response: HttpResponse, online: bool, e: Event)
    requires i < |s.flights| && IsFailure(response, online)
    ensures
      var f := s.flights[i];
      Count(Respond(s, i, response, online).log, e) ==
      Count(s.log, e) + (if e == Failed(f.payload, f.isRetry) then 1 else 0)
                      + (if e == QueueFull(f.payload) && IsDropped(s, f) then 1 else 0)
  {
    var f := s.flights[i];
    FailureEffect(s, i, response, online);
    LogCounts(s.log, Failed(f.payload, f.isRetry));
    LogCounts(s.log + [Failed(f.payload, f.isRetry)], QueueFull(f.payload));
  }

  /** What a response logs, other than successes, failures and transmissions. */
  lemma ResponseLog(s: State, i: nat, response: HttpResponse, online: bool, e: Event)
    requires Control(s) && QueueBounded(s.queue) && i < |s.flights|
    requires e.QueueFull? || e == QueueFullReported
    ensures Count(Respond(s, i, response, online).log, e) ==
            Count(s.log, e)
            + (if IsFailure(response, online) && e == QueueFull(s.flights[i].payload) && IsDropped(s, s.flights[i])
               then 1 else 0)
            + (if !IsFailure(response, online) && e == QueueFullReported && !s.flights[i].isRetry
                  && Reports(s, AfterSuccess)
               then 1 else 0)
  {
    if IsFailure(response, online) {
      FailureLog(s, i, response, online, e);
    } else {
      SuccessLog(s, i, response, online, e);
    }
  }

  lemma FireLog(s: State, i: nat, e: Event)
    requires Control(s) && i < |s.timers| && !e.Sent?
    ensures Count(Fire(s, i).log, e) == Count(s.log, e)
  {
    ArmedFindsPayload(s);
    LogCounts(s.log, Sent(s.queue[0]));
  }

  /** What is in flight has been neither delivered nor dropped, and is in flight once. */
  lemma FlightWasSubmittedOnce(s: State, i: nat)
    requires Control(s) && Conserved(s) && Ranked(s.log) && Traced(s) && i < |s.flights|
    ensures
      var p := s.flights[i].payload;
      && Count(s.log, Submitted(p)) == 1 && Count(s.log, Succeeded(p)) == 0 && Count(s.log, QueueFull(p)) == 0
      && Count(s.flights, Flight(p, false)) == if s.flights[i].isRetry then 0 else 1
  {
    var p := s.flights[i].payload;
    FailedWasSubmitted(s, i);
    assert Found(s, p) == 1;
    if s.flights[i].isRetry {
      RetriedIsHead(s, i);
      CountIn(s.queue, 0);
    } else {
      CountIn(s.flights, i);
    }
  }

  /** What the log and the flights say of the payload that failed. */
  lemma FailureIsRecorded(s: State, i: nat, response: HttpResponse, online: bool)
    requires Control(s) && Conserved(s) && Ranked(s.log) && Traced(s)
    requires i < |s.flights| && IsFailure(response, online)
    ensures
      var p := s.flights[i].payload;
      var u := Respond(s, i, response, online);
      && Count(u.log, Submitted(p)) == 1 && Count(u.log, Succeeded(p)) == 0
      && Count(u.log, QueueFull(p)) == (if IsDropped(s, s.flights[i]) then 1 else 0)
      && Count(u.flights, Flight(p, false)) == 0
      && p.id in u.retries && u.retries[p.id].lastFailureStatus == response.status
  {
    var p := s.flights[i].payload;
    FlightWasSubmittedOnce(s, i);
    CountRemove(s.flights, i);
    FailureLog(s, i, response, online, Submitted(p));
    FailureLog(s, i, response, online, Succeeded(p));
    FailureLog(s, i, response, online, QueueFull(p));
    FailureEffect(s, i, response, online);
  }

  /** Exactly one payload is delivered, or none. */
  lemma ResponseDelivers(s: State, i: nat, response: HttpResponse, online: bool, q: Payload)
    requires Control(s) && QueueBounded(s.queue) && i < |s.flights|
    ensures Count(Respond(s, i, response, online).log, Succeeded(q)) ==
            Count(s.log, Succeeded(q)) + if q == s.flights[i].payload && !IsFailure(response, online) then 1 else 0
  {
    if IsFailure(response, online) {
      FailureLog(s, i, response, online, Succeeded(q));
    } else {
      SuccessLog(s, i, response, online, Succeeded(q));
    }
  }

  lemma Unpacked(steps: seq<Step>, s: State)
    requires Run(Init(), steps, s)
    ensures Inv(s) && Control(s) && QueueBounded(s.queue)
    ensures Conserved(s) && Ranked(s.log) && Traced(s) && ReportedOnce(s) && Annotated(s)
  {
    InitSatisfiesInv();
    RunKeepsInv(Init(), steps, s);
  }

  lemma LedgerAfter(s: State, step: Step)
    requires Inv(s) && Enabled(s, step)
    ensures Conserved(Take(s, step)) && Annotated(Take(s, step))
  {
    StepKeepsInv(s, step);
  }

  // ---- Theorems -------------------------------------------------------------------------------------

  /** In every reachable state, a response delivers the payload it answers, and no other, exactly if it is no
      failure. */
  lemma ResponsesAreJudged(steps: seq<Step>, s: State, i: nat, response: HttpResponse, online: bool)
    requires Run(Init(), steps, s) && i < |s.flights|
    ensures
      var p := s.flights[i].payload;
      var u := Take(s, DoRespond(i, response, online));
      && Count(s.log, Succeeded(p)) == 0
      && forall q :: Count(u.log, Succeeded(q)) ==
                     Count(s.log, Succeeded(q)) + if q == p && !IsFailure(response, online) then 1 else 0
  {
    Unpacked(steps, s);
    FlightWasSubmittedOnce(s, i);
    forall q { ResponseDelivers(s, i, response, online, q); }
  }

  /** After a failure the payload is in the queue once, or it was dropped as 20 MiB were queued; it carries the
      status, and the number of its failures. */
  lemma FailedPayloadsAreKept(steps: seq<Step>, s: State, i: nat, response: HttpResponse, online: bool)
    requires Run(Init(), steps, s) && i < |s.flights| && IsFailure(response, online)
    ensures
      var p := s.flights[i].payload;
      var u := Take(s, DoRespond(i, response, online));
      var dropped := !s.flights[i].isRetry && Bytes(s.queue) >= 20 * 1024 * 1024;
      && Count(u.queue, p) == (if dropped then 0 else 1) && Count(u.log, QueueFull(p)) == (if dropped then 1 else 0)
      && p.id in u.retries && u.retries[p.id] == RetryInfo(Failures(u.log, p), response.status)
  {
    Unpacked(steps, s);
    var p := s.flights[i].payload;
    FailureIsRecorded(s, i, response, online);
    LedgerAfter(s, DoRespond(i, response, online));
    assert Found(Take(s, DoRespond(i, response, online)), p) == 1;
  }

  /** A submission is sent at once exactly if the transport is up, nothing is queued, and there is room: no
      request, or less than 32 and 80 KiB with it. Otherwise it is queued, or dropped if 20 MiB are queued. */
  lemma SubmissionsAreRouted(s: State, bytesCount: nat)
    ensures
      var p := Payload(Submissions(s.log), bytesCount);
      var u := Take(s, DoSubmit(bytesCount));
      var atOnce := s.status == Up && s.queue == [] && HasRoom(s.flights, bytesCount);
      var full := Bytes(s.queue) >= 20 * 1024 * 1024;
      && u.flights == (if atOnce then s.flights + [Flight(p, false)] else s.flights)
      && u.queue == (if atOnce || full then s.queue else s.queue + [p])
      && (forall e :: Count(u.log, e) ==
                      Count(s.log, e) + (if e == Submitted(p) then 1 else 0) + (if e == Sent(p) && atOnce then 1 else 0)
                      + if e == QueueFull(p) && !atOnce && full then 1 else 0)
  {
    var p := Payload(Submissions(s.log), bytesCount);
    LogCounts(s.log, Submitted(p));
    LogCounts(s.log + [Submitted(p)], Sent(p));
    LogCounts(s.log + [Submitted(p)], QueueFull(p));
  }

  /** What a step logs about a full queue. */
  lemma FullQueueLog(s: State, step: Step, e: Event)
    requires Control(s) && QueueBounded(s.queue) && Enabled(s, step) && (e.QueueFull? || e == QueueFullReported)
    ensures Count(Take(s, step).log, e) == Count(s.log, e) + if ReportsFull(s, step, e) then 1 else 0
  {
    match step
    case DoSubmit(bytesCount) => SubmissionsAreRouted(s, bytesCount);
    case DoRespond(i, response, online) => ResponseLog(s, i, response, online, e);
    case DoFire(i) => FireLog(s, i, e);
  }

  predicate ReportsFull(s: State, step: Step, e: Event)
    requires Enabled(s, step)
  {
    match step
    case DoSubmit(bytesCount) =>
      && e == QueueFull(Payload(Submissions(s.log), bytesCount)) && Bytes(s.queue) >= 20 * 1024 * 1024
      && !(s.status == Up && s.queue == [] && HasRoom(s.flights, bytesCount))
    case DoRespond(i, response, online) =>
      if IsFailure(response, online) then e == QueueFull(s.flights[i].payload) && IsDropped(s, s.flights[i])
      else e == QueueFullReported && !s.flights[i].isRetry && Reports(s, AfterSuccess)
    case DoFire(_) => false
  }

  /** A payload is only ever dropped when it is submitted, or its first transmission fails, while 20 MiB are
      queued. */
  lemma DropsNeedAFullQueue(steps: seq<Step>, s: State, step: Step, p: Payload)
    requires Run(Init(), steps, s) && Enabled(s, step)
    requires Count(Take(s, step).log, QueueFull(p)) != Count(s.log, QueueFull(p))
    ensures Bytes(s.queue) >= 20 * 1024 * 1024
    ensures
      match step
      case DoSubmit(bytesCount) => p == Payload(Submissions(s.log), bytesCount)
      case DoRespond(i, response, online) => s.flights[i] == Flight(p, false) && IsFailure(response, online)
      case DoFire(_) => false
  {
    Unpacked(steps, s);
    FullQueueLog(s, step, QueueFull(p));
  }

  /** A full queue is reported exactly by the first success of a first transmission that finds 20 MiB queued. */
  lemma FullQueueIsReported(steps: seq<Step>, s: State, step: Step)
    requires Run(Init(), steps, s) && Enabled(s, step)
    ensures
      var found := step.DoRespond? && !IsFailure(step.response, step.online) && !s.flights[step.flight].isRetry
                   && Bytes(s.queue) >= 20 * 1024 * 1024;
      Count(Take(s, step).log, QueueFullReported) == if found then 1 else Count(s.log, QueueFullReported)
  {
    Unpacked(steps, s);
    FullQueueLog(s, step, QueueFullReported);
  }
}
