/** The upload retry protocol as a transition system.

    A state holds what `RetryState` holds, plus the environment the source leaves implicit in its
    closures: the requests that have not been answered yet, the retry timers that have not fired, and
    the log of everything that left the component. The functions below are the specification that the
    classes of `RetryTransport` are proved against; the protocol's properties are in
    `RetryProtocolProofs`.
 */
module RetryProtocol {

  const MAX_ONGOING_BYTES_COUNT: nat := 80 * 1024
  const MAX_ONGOING_REQUESTS: nat := 32
  const MAX_QUEUE_BYTES_COUNT: nat := 20 * 1024 * 1024
  const MAX_BACKOFF_TIME: nat := 60_000
  const INITIAL_BACKOFF_TIME: nat := 1_000

  /** A payload is identified by the rank of its submission. */
  datatype Payload = Payload(id: nat, bytesCount: nat)

  /** What a retried payload carries along: `payload.retry` in the source. */
  datatype RetryInfo = RetryInfo(count: nat, lastFailureStatus: int)

  datatype TransportStatus = Up | FailureDetected | Down

  /** A request without response. The flag tells which pair of callbacks waits for the response: the
      one of `sendWithRetryStrategy` or the one of the retry timer. */
  datatype Flight = Flight(payload: Payload, isRetry: bool)

  datatype HttpResponse = HttpResponse(status: int, isOpaque: bool)

  datatype RetryReason = AfterSuccess | AfterResume

  datatype Event =
    | Submitted(payload: Payload)
    | Sent(payload: Payload)
    | Succeeded(payload: Payload)
    | Failed(payload: Payload, isRetry: bool)
    | QueueFull(payload: Payload)
    | QueueFullReported
    | NothingToRetry

  datatype State = State(
    status: TransportStatus,
    backoff: nat,
    queue: seq<Payload>,
    fullReported: bool,
    flights: seq<Flight>,
    timers: seq<nat>,
    retries: map<nat, RetryInfo>,
    log: seq<Event>)

  function Init(): State {
    State(Up, INITIAL_BACKOFF_TIME, [], false, [], [], map[], [])
  }

  function Bytes(payloads: seq<Payload>): nat {
    if payloads == [] then 0 else Bytes(payloads[..|payloads| - 1]) + payloads[|payloads| - 1].bytesCount
  }

  function FlightPayloads(flights: seq<Flight>): seq<Payload> {
    seq(|flights|, i requires 0 <= i < |flights| => flights[i].payload)
  }

  function OngoingBytes(flights: seq<Flight>): nat {
    Bytes(FlightPayloads(flights))
  }

  predicate IsFull(queue: seq<Payload>) {
    Bytes(queue) >= MAX_QUEUE_BYTES_COUNT
  }

  predicate CanHandle(flights: seq<Flight>, payload: Payload) {
    || |flights| == 0
    || (OngoingBytes(flights) + payload.bytesCount <= MAX_ONGOING_BYTES_COUNT && |flights| < MAX_ONGOING_REQUESTS)
  }

  predicate IsServerError(status: int) {
    status >= 500
  }

  predicate ShouldRetryRequest(response: HttpResponse, online: bool) {
    && !response.isOpaque
    && ((response.status == 0 && !online) || response.status == 408 || response.status == 429 || IsServerError(response.status))
  }

  // ---- Operations -----------------------------------------------------------------------------

  function Log(s: State, e: Event): State {
    s.(log := s.log + [e])
  }

  function Send(s: State, p: Payload, isRetry: bool): State {
    s.(flights := s.flights + [Flight(p, isRetry)], log := s.log + [Sent(p)])
  }

  function Enqueue(s: State, p: Payload): State {
    if IsFull(s.queue) then Log(s, QueueFull(p)) else s.(queue := s.queue + [p])
  }

  /** `sendWithRetryStrategy` */
  function SendOrQueue(s: State, p: Payload): State {
    if s.status == Up && s.queue == [] && CanHandle(s.flights, p) then Send(s, p, false) else Enqueue(s, p)
  }

  function ScheduleRetry(s: State): State {
    if s.status != Down then s else s.(timers := s.timers + [s.backoff])
  }

  /** The loop of `retryQueuedPayloads`: `previous` is the detached queue. */
  function Redistribute(s: State, previous: seq<Payload>): State
    decreases |previous|
  {
    if previous == [] then s else Redistribute(SendOrQueue(s, previous[0]), previous[1..])
  }

  function ReportQueueFull(s: State, reason: RetryReason): State {
    if reason == AfterSuccess && IsFull(s.queue) && !s.fullReported
    then Log(s, QueueFullReported).(fullReported := true)
    else s
  }

  function RetryQueuedPayloads(s: State, reason: RetryReason): State {
    Redistribute(ReportQueueFull(s, reason).(queue := []), s.queue)
  }

  function Remove<T>(items: seq<T>, i: nat): seq<T>
    requires i < |items|
  {
    items[..i] + items[i + 1..]
  }

  function Tail<T>(items: seq<T>): seq<T> {
    if items == [] then [] else items[1..]
  }

  function RecordFailure(s: State, flight: Flight, status: int): State {
    var p := flight.payload;
    var count := if p.id in s.retries then s.retries[p.id].count + 1 else 1;
    s.(status := if |s.flights| > 0 then FailureDetected else Down,
       retries := s.retries[p.id := RetryInfo(count, status)],
       log := s.log + [Failed(p, flight.isRetry)])
  }

  function Min(a: nat, b: nat): nat {
    if a < b then a else b
  }

  // ---- Steps ----------------------------------------------------------------------------------

  /** A new payload is handed to the transport. */
  function Submit(s: State, bytesCount: nat): State {
    var p := Payload(Submissions(s.log), bytesCount);
    SendOrQueue(Log(s, Submitted(p)), p)
  }

  function OnSuccess(s: State, flight: Flight): State {
    var s1 := Log(s, Succeeded(flight.payload)).(status := Up);
    if flight.isRetry
    then RetryQueuedPayloads(s1.(queue := Tail(s1.queue), backoff := INITIAL_BACKOFF_TIME), AfterResume)
    else RetryQueuedPayloads(s1, AfterSuccess)
  }

  function OnFailure(s: State, flight: Flight, status: int): State {
    var s1 := RecordFailure(s, flight, status);
    if flight.isRetry
    then ScheduleRetry(s1.(backoff := Min(MAX_BACKOFF_TIME, s1.backoff * 2)))
    else ScheduleRetry(Enqueue(s1, flight.payload))
  }

  /** The `i`-th unanswered request gets its response. */
  function Respond(s: State, i: nat, response: HttpResponse, online: bool): State
    requires i < |s.flights|
  {
    var landed := s.(flights := Remove(s.flights, i));
    if ShouldRetryRequest(response, online)
    then OnFailure(landed, s.flights[i], response.status)
    else OnSuccess(landed, s.flights[i])
  }

  /** A retry timer fires. `NothingToRetry` stands for the source's failure on an undefined payload. */
  function Fire(s: State, i: nat): State
    requires i < |s.timers|
  {
    var s1 := s.(timers := Remove(s.timers, i));
    if s1.queue == [] then Log(s1, NothingToRetry) else Send(s1, s1.queue[0], true)
  }

  function Submissions(log: seq<Event>): nat {
    if log == [] then 0
    else Submissions(log[..|log| - 1]) + (if log[|log| - 1].Submitted? then 1 else 0)
  }

  /** How often `item` occurs. */
  ghost function Count<T>(items: seq<T>, item: T): nat {
    if items == [] then 0
    else Count(items[..|items| - 1], item) + (if items[|items| - 1] == item then 1 else 0)
  }

  // ---- Runs -----------------------------------------------------------------------------------

  datatype Step =
    | DoSubmit(bytesCount: nat)
    | DoRespond(flight: nat, response: HttpResponse, online: bool)
    | DoFire(timer: nat)

  predicate Enabled(s: State, step: Step) {
    match step
    case DoSubmit(_) => true
    case DoRespond(i, _, _) => i < |s.flights|
    case DoFire(i) => i < |s.timers|
  }

  function Take(s: State, step: Step): State
    requires Enabled(s, step)
  {
    match step
    case DoSubmit(bytesCount) => Submit(s, bytesCount)
    case DoRespond(i, response, online) => Respond(s, i, response, online)
    case DoFire(i) => Fire(s, i)
  }

  /** `steps` leads from `s` to `t`, requests answering and timers firing in any order. */
  ghost predicate Run(s: State, steps: seq<Step>, t: State)
    decreases |steps|
  {
    if steps == [] then s == t
    else Enabled(s, steps[0]) && Run(Take(s, steps[0]), steps[1..], t)
  }
}
