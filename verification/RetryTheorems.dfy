/** The promises of the upload retry protocol, for every run from the initial state: any payloads, any
    responses, requests answering in any order. */
module RetryTheorems {
  import opened RetryProtocol
  import opened RetryProtocolProofs

  /** What the status says about timers, requests in flight and the queue. In particular a timer that
      fires always finds a payload, a queued payload always waits for something, and the payload removed
      from the queue after a successful retry is the one that was sent. */
  lemma ControlInvariant(steps: seq<Step>, t: State)
    requires Run(Init(), steps, t)
    ensures t.status == Down ==>
              && t.queue != []
              && ((t.timers == [t.backoff] && t.flights == []) || (t.timers == [] && t.flights == [Flight(t.queue[0], true)]))
    ensures t.status == FailureDetected ==> t.flights != [] && t.timers == []
    ensures t.status == Up ==> t.timers == []
    ensures t.status != Down ==> forall i | 0 <= i < |t.flights| :: !t.flights[i].isRetry
    ensures t.queue != [] ==> t.flights != [] || t.timers != []
    ensures Count(t.log, NothingToRetry) == 0
  {
    InitSatisfiesInv();
    RunKeepsInv(Init(), steps, t);
  }

  /** A timer that fires re-sends the head of a non-empty queue. */
  lemma TimersFindAPayload(steps: seq<Step>, t: State, i: nat)
    requires Run(Init(), steps, t) && i < |t.timers|
    ensures t.queue != [] && Fire(t, i) == Send(t.(timers := []), t.queue[0], true)
  {
    InitSatisfiesInv();
    RunKeepsInv(Init(), steps, t);
    ArmedFindsPayload(t);
    FireIsRetry(t, i);
  }

  /** Every submission is in exactly one place: delivered, dropped with an event, queued, or in flight
      for the first time. */
  lemma PayloadsAreConserved(steps: seq<Step>, t: State, p: Payload)
    requires Run(Init(), steps, t)
    ensures Count(t.log, Submitted(p)) <= 1
    ensures Count(t.log, Submitted(p))
         == Count(t.log, Succeeded(p)) + Count(t.log, QueueFull(p))
            + Count(t.queue, p) + Count(t.flights, Flight(p, false))
  {
    InitSatisfiesInv();
    RunKeepsInv(Init(), steps, t);
    assert Found(t, p) == Count(t.log, Submitted(p));
  }

  /** First transmissions happen in submission order. */
  lemma SubmissionOrderIsKept(steps: seq<Step>, t: State)
    requires Run(Init(), steps, t)
    ensures forall p :: p in FirstSends(t.log) <==> Count(t.log, Sent(p)) > 0
    ensures forall i, j | 0 <= i < j < |FirstSends(t.log)| :: FirstSends(t.log)[i].id < FirstSends(t.log)[j].id
  {
    InitSatisfiesInv();
    RunKeepsInv(Init(), steps, t);
    FirstSendsAreSent(t.log);
  }

  lemma {:induction false} ProperPrefixesBounded(queue: seq<Payload>, k: nat)
    requires QueueBounded(queue) && k < |queue|
    ensures Bytes(queue[..k]) < MAX_QUEUE_BYTES_COUNT
  {
    BytesPrefix(queue[..|queue| - 1], k);
    assert queue[..|queue| - 1][..k] == queue[..k];
  }

  /** Requests in flight, queued bytes and the backoff time stay within their limits. */
  lemma TransportBounds(steps: seq<Step>, t: State)
    requires Run(Init(), steps, t)
    ensures |t.flights| <= 1
         || (|t.flights| <= 32 && OngoingBytes(t.flights) <= 80 * 1024)
    ensures forall k | 0 <= k < |t.queue| :: Bytes(t.queue[..k]) < 20 * 1024 * 1024
    ensures t.backoff == Min(60_000, 1_000 * Pow2(FailedRetries(t.log)))
    ensures t.status != Down ==> t.backoff == 1_000
    ensures Count(t.log, QueueFullReported) <= 1
  {
    InitSatisfiesInv();
    RunKeepsInv(Init(), steps, t);
    forall k | 0 <= k < |t.queue| ensures Bytes(t.queue[..k]) < MAX_QUEUE_BYTES_COUNT {
      ProperPrefixesBounded(t.queue, k);
    }
  }

  /** Each payload carries the number of its failed transmissions. */
  lemma RetryInfoCountsFailures(steps: seq<Step>, t: State, p: Payload)
    requires Run(Init(), steps, t) && Count(t.log, Submitted(p)) == 1
    ensures Failures(t.log, p) == if p.id in t.retries then t.retries[p.id].count else 0
  {
    InitSatisfiesInv();
    RunKeepsInv(Init(), steps, t);
  }

  /** Another request fits: there is none, or there are less than 32, and 80 KiB with it. */
  predicate HasRoom(flights: seq<Flight>, bytesCount: nat) {
    flights == [] || (OngoingBytes(flights) + bytesCount <= 80 * 1024 && |flights| < 32)
  }

  /** Draining the queue after a success drops nothing: a prefix of the queue, as long as bandwidth
      allows, is sent in order and the rest is kept in order. */
  lemma DrainingSplitsTheQueue(s: State, reason: RetryReason) returns (k: nat)
    requires s.status == Up && QueueBounded(s.queue)
    ensures k <= |s.queue|
    ensures forall j | 0 <= j < k :: HasRoom(s.flights + Fresh(s.queue[..j]), s.queue[j].bytesCount)
    ensures k < |s.queue| ==> !HasRoom(s.flights + Fresh(s.queue[..k]), s.queue[k].bytesCount)
    ensures RetryQueuedPayloads(s, reason) == SentUpTo(ReportQueueFull(s, reason), k)
  {
    DrainIsPump(s, reason);
    k := PumpSplitsQueue(ReportQueueFull(s, reason));
  }

  // ---- Recovery -------------------------------------------------------------------------------

  /** The server, or the way to it, is to blame for now: a time-out, too many requests, an error of the server,
      or no network. Opaque responses are never blamed. */
  predicate IsFailure(response: HttpResponse, online: bool) {
    && !response.isOpaque
    && (response.status == 408 || response.status == 429 || response.status >= 500 || (response.status == 0 && !online))
  }

  /** The server accepts what it gets and no new payload arrives. */
  predicate Healthy(step: Step) {
    match step
    case DoSubmit(_) => false
    case DoRespond(_, response, online) => !IsFailure(response, online)
    case DoFire(_) => true
  }

  function Remaining(s: State): nat {
    2 * |s.queue| + (if s.status == Down then 0 else |s.flights|) + |s.timers|
  }

  lemma DrainDecreases(s: State, reason: RetryReason)
    requires s.status == Up && QueueBounded(s.queue)
    ensures Remaining(RetryQueuedPayloads(s, reason)) <= Remaining(s)
  {
    var k := DrainingSplitsTheQueue(s, reason);
  }

  lemma HealthyStepDecreases(s: State, step: Step)
    requires Inv(s) && Enabled(s, step) && Healthy(step)
    ensures Remaining(Take(s, step)) < Remaining(s)
  {
    match step
    case DoRespond(i, response, online) =>
      if s.flights[i].isRetry {
        RetriedIsHead(s, i);
        BoundedSuffix(s.queue, 1);
        DrainDecreases(Resume(s), AfterResume);
      } else {
        FreshFlightNotDown(s, i);
        DrainDecreases(Log(Land(s, i), Succeeded(s.flights[i].payload)).(status := Up), AfterSuccess);
      }
    case DoFire(i) =>
      RetryKeepsControl(s);
      assert Remove(s.timers, i) == [];
  }

  lemma {:induction false} HealthyRunIsBounded(s: State, steps: seq<Step>, t: State)
    requires Inv(s) && Run(s, steps, t) && forall i | 0 <= i < |steps| :: Healthy(steps[i])
    ensures |steps| <= Remaining(s)
    decreases |steps|
  {
    if steps != [] {
      HealthyStepDecreases(s, steps[0]);
      StepKeepsInv(s, steps[0]);
      HealthyRunIsBounded(Take(s, steps[0]), steps[1..], t);
    }
  }

  lemma QuietMeansSettled(t: State, p: Payload)
    requires Inv(t) && t.flights == [] && t.timers == []
    ensures t.queue == [] && t.status == Up
    ensures Count(t.log, Submitted(p)) == Count(t.log, Succeeded(p)) + Count(t.log, QueueFull(p))
  {
    assert Found(t, p) == Count(t.log, Submitted(p));
  }

  /** From any reachable state, once the server accepts every request, only boundedly many steps are
      left; when none is left, the queue is empty and every submission was delivered or dropped. */
  lemma RecoveryDeliversEverything(before: seq<Step>, s: State, steps: seq<Step>, t: State)
    requires Run(Init(), before, s) && Run(s, steps, t) && forall i | 0 <= i < |steps| :: Healthy(steps[i])
    ensures |steps| <= Remaining(s)
    ensures t.flights == [] && t.timers == [] ==>
              && t.queue == [] && t.status == Up
              && forall p :: Count(t.log, Submitted(p)) == Count(t.log, Succeeded(p)) + Count(t.log, QueueFull(p))
  {
    InitSatisfiesInv();
    RunKeepsInv(Init(), before, s);
    RunKeepsInv(s, steps, t);
    HealthyRunIsBounded(s, steps, t);
    if t.flights == [] && t.timers == [] {
      forall p { QuietMeansSettled(t, p); }
      QuietMeansSettled(t, Payload(0, 0));
    }
  }
}
