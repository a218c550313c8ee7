/** The retry protocol in the form of the source: a queue and a bandwidth monitor that keep running
    counts, and a transport whose methods update its fields. Every method computes the transition of
    `RetryProtocol` it is named after, so the theorems of `RetryTheorems` hold of the objects. */
module RetryTransport {
  import opened Wrappers
  import opened RetryProtocol
  import opened RetryProtocolProofs

  lemma FiringKeepsInv(s: State, i: nat)
    requires i < |s.timers|
    ensures Inv(s) ==> Inv(Fire(s, i))
  {
    if Inv(s) {
      StepKeepsInv(s, DoFire(i));
    }
  }

  class PayloadQueue {
    var queue: seq<Payload>
    var bytesCount: int

    /** The running count is the size of what is queued. */
    ghost predicate Valid() reads this {
      bytesCount == Bytes(queue)
    }

    constructor ()
      ensures Valid() && queue == []
    {
      queue, bytesCount := [], 0;
    }

    method IsFull() returns (full: bool)
      requires Valid()
      ensures full == RetryProtocol.IsFull(queue)
    {
      full := bytesCount >= MAX_QUEUE_BYTES_COUNT;
    }

    method Enqueue(payload: Payload) returns (accepted: bool)
      requires Valid()
      modifies this
      ensures Valid()
      ensures accepted == !RetryProtocol.IsFull(old(queue))
      ensures queue == if accepted then old(queue) + [payload] else old(queue)
    {
      var full := IsFull();
      if full {
        return false;
      }
      BytesConcat(queue, [payload]);
      BytesCons(payload, []);
      assert [payload] + [] == [payload];
      queue := queue + [payload];
      bytesCount := bytesCount + payload.bytesCount;
      accepted := true;
    }

    method First() returns (payload: Option<Payload>)
      ensures payload == if queue == [] then None else Some(queue[0])
    {
      payload := if |queue| == 0 then None else Some(queue[0]);
    }

    method Dequeue() returns (payload: Option<Payload>)
      requires Valid()
      modifies this
      ensures Valid()
      ensures payload == if old(queue) == [] then None else Some(old(queue)[0])
      ensures queue == Tail(old(queue))
    {
      if |queue| == 0 {
        return None;
      }
      BytesCons(queue[0], queue[1..]);
      assert queue == [queue[0]] + queue[1..];
      payload := Some(queue[0]);
      bytesCount := bytesCount - queue[0].bytesCount;
      queue := queue[1..];
    }
  }

  class BandwidthMonitor {
    var ongoingRequestCount: int
    var ongoingByteCount: int

    /** The running counts are those of the requests in flight. */
    ghost predicate Counts(flights: seq<Flight>) reads this {
      ongoingRequestCount == |flights| && ongoingByteCount == OngoingBytes(flights)
    }

    constructor ()
      ensures Counts([])
    {
      ongoingRequestCount, ongoingByteCount := 0, 0;
      assert FlightPayloads([]) == [];
    }

    method CanHandle(payload: Payload, ghost flights: seq<Flight>) returns (handled: bool)
      requires Counts(flights)
      ensures handled == RetryProtocol.CanHandle(flights, payload)
    {
      handled :=
        || ongoingRequestCount == 0
        || (ongoingByteCount + payload.bytesCount <= MAX_ONGOING_BYTES_COUNT && ongoingRequestCount < MAX_ONGOING_REQUESTS);
    }

    method Add(payload: Payload, ghost flights: seq<Flight>, ghost isRetry: bool)
      requires Counts(flights)
      modifies this
      ensures Counts(flights + [Flight(payload, isRetry)])
    {
      OngoingSend(flights, Flight(payload, isRetry));
      ongoingRequestCount := ongoingRequestCount + 1;
      ongoingByteCount := ongoingByteCount + payload.bytesCount;
    }

    method Remove(payload: Payload, ghost flights: seq<Flight>, ghost i: nat)
      requires i < |flights| && flights[i].payload == payload && Counts(flights)
      modifies this
      ensures Counts(RetryProtocol.Remove(flights, i))
    {
      OngoingRemove(flights, i);
      ongoingRequestCount := ongoingRequestCount - 1;
      ongoingByteCount := ongoingByteCount - payload.bytesCount;
    }
  }

  class RetryTransport {
    // RetryState
    var transportStatus: TransportStatus
    var currentBackoffTime: nat
    const bandwidthMonitor: BandwidthMonitor
    var queuedPayloads: PayloadQueue
    var queueFullReported: bool
    // The network and the clock: callbacks that wait for a response or a timer, and what was observed.
    var flights: seq<Flight>
    var timers: seq<nat>
    var retries: map<nat, RetryInfo>
    var log: seq<Event>

    ghost predicate Valid()
      reads this, bandwidthMonitor, queuedPayloads
    {
      queuedPayloads.Valid() && bandwidthMonitor.Counts(flights)
    }

    ghost function Abs(): State
      reads this, queuedPayloads
    {
      State(transportStatus, currentBackoffTime, queuedPayloads.queue, queueFullReported, flights, timers, retries, log)
    }

    constructor ()
      ensures Valid() && Abs() == Init() && Inv(Abs()) && fresh(bandwidthMonitor) && fresh(queuedPayloads)
    {
      transportStatus := Up;
      currentBackoffTime := INITIAL_BACKOFF_TIME;
      bandwidthMonitor := new BandwidthMonitor();
      queuedPayloads := new PayloadQueue();
      queueFullReported := false;
      flights, timers, retries, log := [], [], map[], [];
      InitSatisfiesInv();
    }

    /** A new payload is handed to the transport. */
    method Submit(bytesCount: nat)
      requires Valid()
      modifies this, bandwidthMonitor, queuedPayloads
      ensures Valid() && queuedPayloads == old(queuedPayloads)
      ensures Abs() == RetryProtocol.Submit(old(Abs()), bytesCount)
      ensures old(Inv(Abs())) ==> Inv(Abs())
    {
      ghost var before := Abs();
      var payload := Payload(Submissions(log), bytesCount);
      log := log + [Submitted(payload)];
      SendWithRetryStrategy(payload);
      if Inv(before) {
        StepKeepsInv(before, DoSubmit(bytesCount));
      }
    }

    method SendWithRetryStrategy(payload: Payload)
      requires Valid()
      modifies this, bandwidthMonitor, queuedPayloads
      ensures Valid() && queuedPayloads == old(queuedPayloads)
      ensures Abs() == SendOrQueue(old(Abs()), payload)
    {
      var handled := bandwidthMonitor.CanHandle(payload, flights);
      if transportStatus == Up && |queuedPayloads.queue| == 0 && handled {
        Send(payload, false);
      } else {
        EnqueueOrDrop(payload);
      }
    }

    method EnqueueOrDrop(payload: Payload)
      requires Valid()
      modifies this, queuedPayloads
      ensures Valid() && queuedPayloads == old(queuedPayloads)
      ensures Abs() == Enqueue(old(Abs()), payload)
    {
      var accepted := queuedPayloads.Enqueue(payload);
      if !accepted {
        log := log + [QueueFull(payload)];
      }
    }

    method ScheduleRetry()
      requires Valid()
      modifies this`timers
      ensures Valid()
      ensures Abs() == RetryProtocol.ScheduleRetry(old(Abs()))
    {
      if transportStatus != Down {
        return;
      }
      timers := timers + [currentBackoffTime];
    }

    method Send(payload: Payload, isRetry: bool)
      requires Valid()
      modifies this`flights, this`log, bandwidthMonitor
      ensures Valid()
      ensures Abs() == RetryProtocol.Send(old(Abs()), payload, isRetry)
    {
      bandwidthMonitor.Add(payload, flights, isRetry);
      flights := flights + [Flight(payload, isRetry)];
      log := log + [Sent(payload)];
    }

    /** The response callback given to the send strategy. */
    method OnResponse(i: nat, response: HttpResponse, online: bool)
      requires Valid() && i < |flights|
      modifies this, bandwidthMonitor, queuedPayloads
      ensures Valid() && (queuedPayloads == old(queuedPayloads) || fresh(queuedPayloads))
      ensures Abs() == Respond(old(Abs()), i, response, online)
      ensures old(Inv(Abs())) ==> Inv(Abs())
    {
      ghost var before := Abs();
      var flight := flights[i];
      bandwidthMonitor.Remove(flight.payload, flights, i);
      flights := RetryProtocol.Remove(flights, i);
      if !ShouldRetryRequest(response, online) {
        OnSuccess(flight);
      } else {
        OnFailure(flight, response.status);
      }
      if Inv(before) {
        StepKeepsInv(before, DoRespond(i, response, online));
      }
    }

    method OnSuccess(flight: Flight)
      requires Valid()
      modifies this, bandwidthMonitor, queuedPayloads
      ensures Valid() && fresh(queuedPayloads)
      ensures Abs() == RetryProtocol.OnSuccess(old(Abs()), flight)
    {
      transportStatus := Up;
      log := log + [Succeeded(flight.payload)];
      if flight.isRetry {
        var _ := queuedPayloads.Dequeue();
        currentBackoffTime := INITIAL_BACKOFF_TIME;
        RetryQueuedPayloads(AfterResume);
      } else {
        RetryQueuedPayloads(AfterSuccess);
      }
    }

    method OnFailure(flight: Flight, status: int)
      requires Valid()
      modifies this, queuedPayloads
      ensures Valid() && queuedPayloads == old(queuedPayloads)
      ensures Abs() == RetryProtocol.OnFailure(old(Abs()), flight, status)
    {
      RecordFailure(flight, status);
      if flight.isRetry {
        currentBackoffTime := Min(MAX_BACKOFF_TIME, currentBackoffTime * 2);
      } else {
        EnqueueOrDrop(flight.payload);
      }
      ScheduleRetry();
    }

    method RecordFailure(flight: Flight, status: int)
      requires Valid()
      modifies this`transportStatus, this`retries, this`log
      ensures Valid()
      ensures Abs() == RetryProtocol.RecordFailure(old(Abs()), flight, status)
    {
      var id := flight.payload.id;
      transportStatus := if bandwidthMonitor.ongoingRequestCount > 0 then FailureDetected else Down;
      retries := retries[id := RetryInfo(if id in retries then retries[id].count + 1 else 1, status)];
      log := log + [Failed(flight.payload, flight.isRetry)];
    }

    /** The callback of the `i`-th pending retry timer. */
    method FireTimer(i: nat)
      requires Valid() && i < |timers|
      modifies this, bandwidthMonitor
      ensures Valid() && queuedPayloads == old(queuedPayloads)
      ensures Abs() == Fire(old(Abs()), i)
      ensures old(Inv(Abs())) ==> Inv(Abs())
    {
      ghost var before := Abs();
      FiringKeepsInv(before, i);
      timers := RetryProtocol.Remove(timers, i);
      var payload := queuedPayloads.First();
      if payload.None? {
        log := log + [NothingToRetry];
      } else {
        Send(payload.value, true);
      }
      assert Abs() == Fire(before, i);
    }

    method RetryQueuedPayloads(reason: RetryReason)
      requires Valid()
      modifies this, bandwidthMonitor, queuedPayloads
      ensures Valid() && fresh(queuedPayloads)
      ensures Abs() == RetryProtocol.RetryQueuedPayloads(old(Abs()), reason)
    {
      var full := queuedPayloads.IsFull();
      if reason == AfterSuccess && full && !queueFullReported {
        log := log + [QueueFullReported];
        queueFullReported := true;
      }
      var previousQueue := queuedPayloads;
      queuedPayloads := new PayloadQueue();
      while |previousQueue.queue| > 0
        invariant Valid() && previousQueue.Valid()
        invariant fresh(queuedPayloads) && previousQueue == old(queuedPayloads)
        invariant Redistribute(Abs(), previousQueue.queue) == RetryProtocol.RetryQueuedPayloads(old(Abs()), reason)
        decreases |previousQueue.queue|
      {
        var next := previousQueue.Dequeue();
        SendWithRetryStrategy(next.value);
      }
    }
  }
}
