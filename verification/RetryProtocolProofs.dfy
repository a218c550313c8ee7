/** What every reachable state of the upload retry protocol satisfies. */
module RetryProtocolProofs {
  import opened RetryProtocol

  // ---- The joint invariant --------------------------------------------------------------------

  ghost predicate AllFresh(flights: seq<Flight>) {
    forall i | 0 <= i < |flights| :: !flights[i].isRetry
  }

  /** The status against the timers, the requests in flight and the queue. */
  ghost predicate Control(s: State) {
    && Count(s.log, NothingToRetry) == 0
    && match s.status
       case Up =>
         s.timers == [] && AllFresh(s.flights) && (s.queue != [] ==> s.flights != [])
       case FailureDetected =>
         s.timers == [] && AllFresh(s.flights) && s.flights != []
       case Down =>
         && s.queue != []
         && (|| (s.timers == [s.backoff] && s.flights == [])
             || (s.timers == [] && s.flights == [Flight(s.queue[0], true)]))
  }

  ghost predicate Bandwidth(flights: seq<Flight>) {
    || |flights| <= 1
    || (|flights| <= MAX_ONGOING_REQUESTS && OngoingBytes(flights) <= MAX_ONGOING_BYTES_COUNT)
  }

  ghost predicate QueueBounded(queue: seq<Payload>) {
    queue == [] || Bytes(queue[..|queue| - 1]) < MAX_QUEUE_BYTES_COUNT
  }

  /** The places where `p` is found: delivered, dropped, queued, in flight. A timer retry does not
      count: its payload is still at the head of the queue. */
  ghost function Found(s: State, p: Payload): nat {
    Count(s.log, Succeeded(p)) + Count(s.log, QueueFull(p))
    + Count(s.queue, p) + Count(s.flights, Flight(p, false))
  }

  /** Every submission is found in exactly one place. */
  ghost predicate Conserved(s: State) {
    forall p :: Found(s, p) == Count(s.log, Submitted(p))
  }

  /** A submission is identified by its rank. */
  ghost predicate Ranked(log: seq<Event>) {
    && (forall p :: Count(log, Submitted(p)) <= 1)
    && (forall p :: Count(log, Submitted(p)) > 0 ==> p.id < Submissions(log))
    && (forall p, q :: Count(log, Submitted(p)) > 0 && Count(log, Submitted(q)) > 0 && p.id == q.id ==> p == q)
  }

  /** Only submissions are sent, and whatever is in flight was sent. */
  ghost predicate Traced(s: State) {
    && (forall p :: Count(s.log, Sent(p)) > 0 ==> Count(s.log, Submitted(p)) > 0)
    && (forall i | 0 <= i < |s.flights| :: Count(s.log, Sent(s.flights[i].payload)) > 0)
  }

  /** Payloads in the order of their first transmission. */
  ghost function FirstSends(log: seq<Event>): seq<Payload> {
    if log == [] then []
    else
      var before := log[..|log| - 1];
      var last := log[|log| - 1];
      if last.Sent? && Count(before, last) == 0 then FirstSends(before) + [last.payload] else FirstSends(before)
  }

  ghost predicate Increasing(payloads: seq<Payload>) {
    forall i, j | 0 <= i < j < |payloads| :: payloads[i].id < payloads[j].id
  }

  /** Queued payloads that were never sent come after all the sent ones. */
  ghost predicate UnsentLast(s: State) {
    forall p, j | Count(s.log, Sent(p)) > 0 && 0 <= j < |s.queue| && Count(s.log, Sent(s.queue[j])) == 0 ::
      p.id < s.queue[j].id
  }

  ghost predicate UnsentIncreasing(s: State) {
    forall i, j | 0 <= i < j < |s.queue| && Count(s.log, Sent(s.queue[i])) == 0 && Count(s.log, Sent(s.queue[j])) == 0 ::
      s.queue[i].id < s.queue[j].id
  }

  ghost predicate Ordered(s: State) {
    Increasing(FirstSends(s.log)) && UnsentLast(s) && UnsentIncreasing(s)
  }

  ghost function Pow2(k: nat): nat {
    if k == 0 then 1 else 2 * Pow2(k - 1)
  }

  /** Failed retries since the last success. */
  ghost function FailedRetries(log: seq<Event>): nat {
    if log == [] then 0
    else
      var last := log[|log| - 1];
      if last.Succeeded? then 0
      else FailedRetries(log[..|log| - 1]) + (if last.Failed? && last.isRetry then 1 else 0)
  }

  ghost predicate BackedOff(s: State) {
    && s.backoff == Min(MAX_BACKOFF_TIME, INITIAL_BACKOFF_TIME * Pow2(FailedRetries(s.log)))
    && (s.status != Down ==> FailedRetries(s.log) == 0)
  }

  ghost function Failures(log: seq<Event>, p: Payload): nat {
    Count(log, Failed(p, false)) + Count(log, Failed(p, true))
  }

  /** A payload carries the number of its failed transmissions. */
  ghost predicate Annotated(s: State) {
    && (forall p :: Count(s.log, Submitted(p)) > 0 ==>
          Failures(s.log, p) == if p.id in s.retries then s.retries[p.id].count else 0)
    && (forall id | id in s.retries :: id < Submissions(s.log))
    && (forall p :: Failures(s.log, p) > 0 ==> Count(s.log, Submitted(p)) > 0)
  }

  /** A full queue is reported once. */
  ghost predicate ReportedOnce(s: State) {
    Count(s.log, QueueFullReported) == (if s.fullReported then 1 else 0)
  }

  /** The parts of the invariant in which the status takes no part. */
  ghost predicate Ledger(s: State) {
    && Bandwidth(s.flights)
    && QueueBounded(s.queue)
    && Conserved(s)
    && Ranked(s.log)
    && Traced(s)
    && Ordered(s)
    && Annotated(s)
    && ReportedOnce(s)
  }

  ghost predicate Inv(s: State) {
    Control(s) && BackedOff(s) && Ledger(s)
  }

  // ---- Byte counts ----------------------------------------------------------------------------

  lemma {:induction false} BytesConcat(a: seq<Payload>, b: seq<Payload>)
    ensures Bytes(a + b) == Bytes(a) + Bytes(b)
    decreases |b|
  {
    if b == [] {
      assert a + b == a;
    } else {
      var b' := b[..|b| - 1];
      assert (a + b)[..|a + b| - 1] == a + b';
      BytesConcat(a, b');
    }
  }

  lemma BytesCons(p: Payload, rest: seq<Payload>)
    ensures Bytes([p] + rest) == p.bytesCount + Bytes(rest)
  {
    BytesConcat([p], rest);
    assert [p][..0] == [];
    assert Bytes([p]) == p.bytesCount;
  }

  lemma BytesPrefix(a: seq<Payload>, k: nat)
    requires k <= |a|
    ensures Bytes(a[..k]) <= Bytes(a)
  {
    assert a == a[..k] + a[k..];
    BytesConcat(a[..k], a[k..]);
  }

  lemma OngoingSend(flights: seq<Flight>, f: Flight)
    ensures OngoingBytes(flights + [f]) == OngoingBytes(flights) + f.payload.bytesCount
  {
    var all := FlightPayloads(flights + [f]);
    assert all[..|all| - 1] == FlightPayloads(flights);
  }

  lemma OngoingRemove(flights: seq<Flight>, i: nat)
    requires i < |flights|
    ensures OngoingBytes(flights) == OngoingBytes(Remove(flights, i)) + flights[i].payload.bytesCount
  {
    var l, p, r := FlightPayloads(flights[..i]), flights[i].payload, FlightPayloads(flights[i + 1..]);
    assert FlightPayloads(flights) == l + ([p] + r);
    assert FlightPayloads(Remove(flights, i)) == l + r;
    BytesConcat(l, [p] + r);
    BytesCons(p, r);
    BytesConcat(l, r);
  }

  lemma BoundedSuffix(queue: seq<Payload>, k: nat)
    requires QueueBounded(queue) && k <= |queue|
    ensures QueueBounded(queue[k..])
  {
    if k < |queue| {
      var init := queue[..|queue| - 1];
      assert queue[k..][..|queue[k..]| - 1] == init[k..];
      assert init == init[..k] + init[k..];
      BytesConcat(init[..k], init[k..]);
    }
  }

  // ---- Draining -------------------------------------------------------------------------------

  function SendHead(s: State): State
    requires s.queue != []
  {
    Send(s.(queue := s.queue[1..]), s.queue[0], false)
  }

  /** What draining amounts to: transmit the head of the queue for as long as bandwidth allows. */
  function Pump(s: State): State
    decreases |s.queue|
  {
    if s.queue != [] && CanHandle(s.flights, s.queue[0]) then Pump(SendHead(s)) else s
  }

  /** The source detaches the queue and re-submits its payloads one by one; no payload is dropped on
      the way and the outcome is that of `Pump`. */
  lemma {:induction false} RedistributeIsPump(s: State, previous: seq<Payload>)
    requires s.status == Up && QueueBounded(s.queue + previous)
    requires s.queue == [] || !CanHandle(s.flights, s.queue[0])
    ensures Redistribute(s, previous) == Pump(s.(queue := s.queue + previous))
    decreases |previous|
  {
    if previous == [] {
      assert s.queue + previous == s.queue;
    } else {
      var p, rest := previous[0], previous[1..];
      var v := s.(queue := s.queue + previous);
      if s.queue == [] && CanHandle(s.flights, p) {
        assert s.queue + previous == previous;
        assert [] + rest == rest;
        assert SendHead(v) == Send(s, p, false).(queue := rest);
        BoundedSuffix(previous, 1);
        if rest == [] { } else { assert QueueBounded(rest); }
        RedistributeIsPump(Send(s, p, false), rest);
      } else {
        assert s.queue + previous == (s.queue + [p]) + rest;
        var init := (s.queue + previous)[..|s.queue + previous| - 1];
        assert s.queue == init[..|s.queue|];
        BytesPrefix(init, |s.queue|);
        assert Enqueue(s, p) == s.(queue := s.queue + [p]);
        RedistributeIsPump(Enqueue(s, p), rest);
      }
    }
  }

  function Fresh(payloads: seq<Payload>): seq<Flight> {
    seq(|payloads|, i requires 0 <= i < |payloads| => Flight(payloads[i], false))
  }

  function Sents(payloads: seq<Payload>): seq<Event> {
    seq(|payloads|, i requires 0 <= i < |payloads| => Sent(payloads[i]))
  }

  /** `s` after the first `k` queued payloads were sent. */
  function SentUpTo(s: State, k: nat): State
    requires k <= |s.queue|
  {
    s.(queue := s.queue[k..],
       flights := s.flights + Fresh(s.queue[..k]),
       log := s.log + Sents(s.queue[..k]))
  }

  /** `k` is the longest prefix of `queue` whose payloads all find bandwidth, each given the ones sent
      before it. */
  ghost predicate GreedyPrefix(flights: seq<Flight>, queue: seq<Payload>, k: nat) {
    && k <= |queue|
    && (forall j | 0 <= j < k :: CanHandle(flights + Fresh(queue[..j]), queue[j]))
    && (k < |queue| ==> !CanHandle(flights + Fresh(queue[..k]), queue[k]))
  }

  lemma FreshCons(flights: seq<Flight>, queue: seq<Payload>, k: nat)
    requires k < |queue|
    ensures flights + [Flight(queue[0], false)] + Fresh(queue[1..][..k]) == flights + Fresh(queue[..k + 1])
  { }

  lemma SentUpToStep(s: State, k: nat)
    requires k < |s.queue|
    ensures SentUpTo(SendHead(s), k) == SentUpTo(s, k + 1)
  {
    FreshCons(s.flights, s.queue, k);
    assert s.log + [Sent(s.queue[0])] + Sents(s.queue[1..][..k]) == s.log + Sents(s.queue[..k + 1]);
  }

  lemma GreedyPrefixStep(flights: seq<Flight>, queue: seq<Payload>, k: nat)
    requires queue != [] && CanHandle(flights, queue[0])
    requires GreedyPrefix(flights + [Flight(queue[0], false)], queue[1..], k)
    ensures GreedyPrefix(flights, queue, k + 1)
  {
    assert flights + Fresh(queue[..0]) == flights;
    forall j | 0 <= j < k + 1 ensures CanHandle(flights + Fresh(queue[..j]), queue[j]) {
      if j > 0 {
        FreshCons(flights, queue, j - 1);
        assert queue[1..][j - 1] == queue[j];
      }
    }
    if k + 1 < |queue| {
      FreshCons(flights, queue, k);
    }
  }

  /** Draining cuts the queue into a sent prefix and a kept suffix, the prefix being as long as bandwidth
      allows. */
  lemma {:induction false} PumpSplitsQueue(s: State) returns (k: nat)
    ensures GreedyPrefix(s.flights, s.queue, k)
    ensures Pump(s) == SentUpTo(s, k)
    decreases |s.queue|
  {
    if s.queue != [] && CanHandle(s.flights, s.queue[0]) {
      var k' := PumpSplitsQueue(SendHead(s));
      SentUpToStep(s, k');
      GreedyPrefixStep(s.flights, s.queue, k');
      k := k' + 1;
    } else {
      k := 0;
      assert s.flights + Fresh(s.queue[..0]) == s.flights;
      assert s.log + Sents(s.queue[..0]) == s.log;
    }
  }

  // ---- Counting -------------------------------------------------------------------------------

  lemma LogCounts(log: seq<Event>, e: Event)
    ensures forall x :: Count(log + [e], x) == Count(log, x) + (if x == e then 1 else 0)
    ensures Submissions(log + [e]) == Submissions(log) + (if e.Submitted? then 1 else 0)
  {
    assert (log + [e])[..|log + [e]| - 1] == log;
  }

  lemma LogFailedRetries(log: seq<Event>, e: Event)
    ensures FailedRetries(log + [e]) ==
            if e.Succeeded? then 0 else FailedRetries(log) + (if e.Failed? && e.isRetry then 1 else 0)
  {
    assert (log + [e])[..|log + [e]| - 1] == log;
  }

  lemma LogFirstSends(log: seq<Event>, e: Event)
    ensures FirstSends(log + [e]) ==
            if e.Sent? && Count(log, e) == 0 then FirstSends(log) + [e.payload] else FirstSends(log)
  {
    assert (log + [e])[..|log + [e]| - 1] == log;
  }

  lemma {:induction false} CountConcat<T>(a: seq<T>, b: seq<T>, x: T)
    ensures Count(a + b, x) == Count(a, x) + Count(b, x)
    decreases |b|
  {
    if b == [] {
      assert a + b == a;
    } else {
      assert (a + b)[..|a + b| - 1] == a + b[..|b| - 1];
      CountConcat(a, b[..|b| - 1], x);
    }
  }

  lemma CountAppend<T>(a: seq<T>, y: T)
    ensures forall x :: Count(a + [y], x) == Count(a, x) + (if x == y then 1 else 0)
  {
    assert (a + [y])[..|a + [y]| - 1] == a;
  }

  lemma CountRemove<T>(a: seq<T>, i: nat)
    requires i < |a|
    ensures forall x :: Count(Remove(a, i), x) == Count(a, x) - (if x == a[i] then 1 else 0)
  {
    forall x ensures Count(Remove(a, i), x) == Count(a, x) - (if x == a[i] then 1 else 0) {
      var l, r := a[..i], a[i + 1..];
      assert a == l + [a[i]] + r;
      CountConcat(l + [a[i]], r, x);
      CountConcat(l, r, x);
      CountAppend(l, a[i]);
    }
  }

  lemma {:induction false} CountIn<T>(a: seq<T>, i: nat)
    requires i < |a|
    ensures Count(a, a[i]) > 0
    decreases |a|
  {
    if i < |a| - 1 {
      assert a[..|a| - 1][i] == a[i];
      CountIn(a[..|a| - 1], i);
    }
  }

  /** First transmissions are exactly the payloads of the `Sent` events. */
  lemma {:induction false} FirstSendsAreSent(log: seq<Event>)
    ensures forall p :: p in FirstSends(log) <==> Count(log, Sent(p)) > 0
    decreases |log|
  {
    if log != [] {
      FirstSendsAreSent(log[..|log| - 1]);
    }
  }

  // ---- One more event -------------------------------------------------------------------------

  lemma RankedLog(log: seq<Event>, e: Event)
    requires Ranked(log) && (e.Submitted? ==> e.payload.id == Submissions(log))
    ensures Ranked(log + [e])
  {
    LogCounts(log, e);
  }

  lemma SentIncreases(log: seq<Event>, p: Payload)
    requires Increasing(FirstSends(log))
    requires Count(log, Sent(p)) == 0 ==> forall q :: Count(log, Sent(q)) > 0 ==> q.id < p.id
    ensures Increasing(FirstSends(log + [Sent(p)]))
  {
    LogFirstSends(log, Sent(p));
    FirstSendsAreSent(log);
    var first := FirstSends(log);
    if Count(log, Sent(p)) == 0 {
      forall i | 0 <= i < |first| ensures first[i].id < p.id {
        assert first[i] in first;
      }
    }
  }

  /** An event that is not a transmission, over the same queue or a suffix of it. */
  lemma OrderedLog(s: State, e: Event, t: State, k: nat)
    requires Ordered(s) && !e.Sent? && k <= |s.queue|
    requires t.log == s.log + [e] && t.queue == s.queue[k..]
    ensures Ordered(t)
  {
    LogCounts(s.log, e);
    LogFirstSends(s.log, e);
    assert forall j | 0 <= j < |t.queue| :: t.queue[j] == s.queue[j + k];
  }

  lemma AnnotatedLog(s: State, e: Event, t: State)
    requires Annotated(s) && Ranked(s.log) && !e.Failed?
    requires e.Submitted? ==> e.payload.id == Submissions(s.log)
    requires t.log == s.log + [e] && t.retries == s.retries
    ensures Annotated(t)
  {
    LogCounts(s.log, e);
    assert forall p :: Failures(t.log, p) == Failures(s.log, p);
  }

  lemma ReportedLog(s: State, e: Event, t: State)
    requires ReportedOnce(s) && e != QueueFullReported
    requires t.log == s.log + [e] && t.fullReported == s.fullReported
    ensures ReportedOnce(t)
  {
    LogCounts(s.log, e);
  }

  lemma TracedLog(s: State, e: Event, t: State)
    requires Traced(s) && !e.Sent?
    requires t.log == s.log + [e] && t.flights == s.flights
    ensures Traced(t)
  {
    LogCounts(s.log, e);
  }

  lemma OrderedSame(s: State, e: Event, t: State)
    requires Ordered(s) && !e.Sent?
    requires t.log == s.log + [e] && t.queue == s.queue
    ensures Ordered(t)
  {
    assert s.queue == s.queue[0..];
    OrderedLog(s, e, t, 0);
  }

  // ---- Sending the head of the queue ----------------------------------------------------------

  lemma QueuedIsSubmitted(s: State, j: nat)
    requires Conserved(s) && j < |s.queue|
    ensures Count(s.log, Submitted(s.queue[j])) > 0
  {
    CountIn(s.queue, j);
    assert Found(s, s.queue[j]) == Count(s.log, Submitted(s.queue[j]));
  }

  lemma SendHeadConserves(s: State)
    requires s.queue != [] && Conserved(s)
    ensures Conserved(SendHead(s))
  {
    var t, p := SendHead(s), s.queue[0];
    LogCounts(s.log, Sent(p));
    CountAppend(s.flights, Flight(p, false));
    assert Remove(s.queue, 0) == t.queue;
    CountRemove(s.queue, 0);
    forall q ensures Found(t, q) == Count(t.log, Submitted(q)) {
      assert Found(s, q) == Count(s.log, Submitted(q));
    }
  }

  lemma SendTraced(s: State, f: Flight, t: State)
    requires Traced(s) && Count(s.log, Submitted(f.payload)) > 0
    requires t.log == s.log + [Sent(f.payload)] && t.flights == s.flights + [f]
    ensures Traced(t)
  {
    LogCounts(s.log, Sent(f.payload));
  }

  lemma SendHeadOrders(s: State)
    requires s.queue != [] && Ordered(s)
    ensures Ordered(SendHead(s))
  {
    var t, p := SendHead(s), s.queue[0];
    LogCounts(s.log, Sent(p));
    SentIncreases(s.log, p);
    assert forall j | 0 <= j < |t.queue| :: t.queue[j] == s.queue[j + 1];
  }

  lemma SendHeadKeepsLedger(s: State)
    requires s.queue != [] && CanHandle(s.flights, s.queue[0]) && Ledger(s)
    ensures Ledger(SendHead(s))
  {
    var t, p := SendHead(s), s.queue[0];
    OngoingSend(s.flights, Flight(p, false));
    BoundedSuffix(s.queue, 1);
    SendHeadConserves(s);
    RankedLog(s.log, Sent(p));
    QueuedIsSubmitted(s, 0);
    SendTraced(s, Flight(p, false), t);
    SendHeadOrders(s);
    AnnotatedLog(s, Sent(p), t);
    ReportedLog(s, Sent(p), t);
  }

  ghost predicate UpAndIdle(s: State) {
    && s.status == Up && s.timers == [] && AllFresh(s.flights) && Count(s.log, NothingToRetry) == 0
    && BackedOff(s)
  }

  lemma SendHeadKeepsUpAndIdle(s: State)
    requires UpAndIdle(s) && s.queue != []
    ensures UpAndIdle(SendHead(s))
  {
    LogCounts(s.log, Sent(s.queue[0]));
    LogFailedRetries(s.log, Sent(s.queue[0]));
  }

  /** Draining with the transport up leaves a state in which a queued payload has a request to wait for. */
  lemma {:induction false} PumpKeepsInv(s: State)
    requires UpAndIdle(s) && Ledger(s)
    ensures Inv(Pump(s)) && Pump(s).status == Up
    decreases |s.queue|
  {
    if s.queue != [] && CanHandle(s.flights, s.queue[0]) {
      SendHeadKeepsUpAndIdle(s);
      SendHeadKeepsLedger(s);
      PumpKeepsInv(SendHead(s));
    }
  }

  lemma DrainIsPump(s: State, reason: RetryReason)
    requires s.status == Up && QueueBounded(s.queue)
    ensures RetryQueuedPayloads(s, reason) == Pump(ReportQueueFull(s, reason))
  {
    var r := ReportQueueFull(s, reason);
    assert [] + s.queue == s.queue;
    assert r.(queue := []).(queue := s.queue) == r;
    RedistributeIsPump(r.(queue := []), s.queue);
  }

  lemma ReportConserves(s: State, q: Payload)
    ensures Found(Log(s, QueueFullReported), q) == Found(s, q)
    ensures Count(Log(s, QueueFullReported).log, Submitted(q)) == Count(s.log, Submitted(q))
    ensures Count(Log(s, QueueFullReported).log, QueueFullReported) == Count(s.log, QueueFullReported) + 1
  {
    CountOne(s.log, QueueFullReported, Succeeded(q));
    CountOne(s.log, QueueFullReported, QueueFull(q));
    CountOne(s.log, QueueFullReported, Submitted(q));
    CountOne(s.log, QueueFullReported, QueueFullReported);
  }

  lemma CountOne(log: seq<Event>, e: Event, x: Event)
    ensures Count(log + [e], x) == Count(log, x) + if x == e then 1 else 0
  {
    assert (log + [e])[..|log|] == log;
  }

  lemma ReportKeepsLedger(s: State, reason: RetryReason)
    requires Ledger(s)
    ensures Ledger(ReportQueueFull(s, reason))
  {
    var e, t := QueueFullReported, ReportQueueFull(s, reason);
    if t != s {
      forall q ensures Found(t, q) == Count(t.log, Submitted(q)) {
        ReportConserves(s, q);
        assert Found(s, q) == Count(s.log, Submitted(q));
      }
      ReportConserves(s, Payload(0, 0));
      RankedLog(s.log, e);
      TracedLog(s, e, t);
      OrderedSame(s, e, t);
      AnnotatedLog(s, e, t);
    }
  }

  lemma ReportKeepsUpAndIdle(s: State, reason: RetryReason)
    requires UpAndIdle(s)
    ensures UpAndIdle(ReportQueueFull(s, reason))
  {
    LogCounts(s.log, QueueFullReported);
    LogFailedRetries(s.log, QueueFullReported);
  }

  lemma DrainKeepsInv(s: State, reason: RetryReason)
    requires UpAndIdle(s) && Ledger(s)
    ensures Inv(RetryQueuedPayloads(s, reason))
  {
    DrainIsPump(s, reason);
    ReportKeepsUpAndIdle(s, reason);
    ReportKeepsLedger(s, reason);
    PumpKeepsInv(ReportQueueFull(s, reason));
  }

  // ---- A payload that has left one place and not reached the next -------------------------------

  ghost predicate ConservedBut(s: State, p: Payload) {
    forall q :: Found(s, q) + (if q == p then 1 else 0) == Count(s.log, Submitted(q))
  }

  lemma SubmittedIsMissing(s: State, p: Payload)
    requires Conserved(s)
    ensures ConservedBut(Log(s, Submitted(p)), p)
  {
    LogCounts(s.log, Submitted(p));
    forall q ensures Found(Log(s, Submitted(p)), q) == Found(s, q) { }
  }

  lemma SendConserves(s: State, p: Payload)
    requires ConservedBut(s, p)
    ensures Conserved(Send(s, p, false))
  {
    LogCounts(s.log, Sent(p));
    CountAppend(s.flights, Flight(p, false));
  }

  lemma EnqueueConserves(s: State, p: Payload)
    requires ConservedBut(s, p)
    ensures Conserved(Enqueue(s, p))
  {
    LogCounts(s.log, QueueFull(p));
    CountAppend(s.queue, p);
  }

  lemma EnqueueBounded(s: State, p: Payload)
    requires QueueBounded(s.queue)
    ensures QueueBounded(Enqueue(s, p).queue) && Enqueue(s, p).queue != []
  {
    assert (s.queue + [p])[..|s.queue + [p]| - 1] == s.queue;
  }

  /** Nothing that was sent or is waiting comes after `p`. */
  ghost predicate Newest(s: State, p: Payload) {
    && (forall q :: Count(s.log, Sent(q)) > 0 ==> q.id < p.id)
    && (forall j | 0 <= j < |s.queue| :: s.queue[j].id < p.id)
  }

  lemma EnqueueOrders(s: State, p: Payload)
    requires Ordered(s) && (Count(s.log, Sent(p)) == 0 ==> Newest(s, p))
    ensures Ordered(Enqueue(s, p))
  {
    if IsFull(s.queue) {
      OrderedSame(s, QueueFull(p), Enqueue(s, p));
    }
  }

  lemma SendOrders(s: State, p: Payload)
    requires Ordered(s) && Newest(s, p) && s.queue == []
    ensures Ordered(Send(s, p, false))
  {
    SentIncreases(s.log, p);
  }

  lemma EnqueueTraced(s: State, p: Payload)
    requires Traced(s)
    ensures Traced(Enqueue(s, p))
  {
    LogCounts(s.log, QueueFull(p));
  }

  lemma EnqueueKeepsLog(s: State, p: Payload)
    requires Ranked(s.log) && Annotated(s) && ReportedOnce(s)
    ensures Ranked(Enqueue(s, p).log) && Annotated(Enqueue(s, p)) && ReportedOnce(Enqueue(s, p))
  {
    if IsFull(s.queue) {
      RankedLog(s.log, QueueFull(p));
      AnnotatedLog(s, QueueFull(p), Enqueue(s, p));
      ReportedLog(s, QueueFull(p), Enqueue(s, p));
    }
  }

  /** What remains of the ledger while `p` is between two places. */
  ghost predicate LedgerBut(s: State, p: Payload) {
    && Bandwidth(s.flights)
    && QueueBounded(s.queue)
    && ConservedBut(s, p)
    && Ranked(s.log)
    && Traced(s)
    && Ordered(s)
    && Annotated(s)
    && ReportedOnce(s)
  }

  lemma EnqueueKeepsLedger(s: State, p: Payload)
    requires LedgerBut(s, p) && (Count(s.log, Sent(p)) == 0 ==> Newest(s, p))
    ensures Ledger(Enqueue(s, p))
  {
    EnqueueConserves(s, p);
    EnqueueBounded(s, p);
    EnqueueOrders(s, p);
    EnqueueTraced(s, p);
    EnqueueKeepsLog(s, p);
  }

  lemma SendKeepsLedger(s: State, p: Payload)
    requires LedgerBut(s, p) && Newest(s, p) && s.queue == [] && CanHandle(s.flights, p)
    requires Count(s.log, Submitted(p)) > 0
    ensures Ledger(Send(s, p, false))
  {
    OngoingSend(s.flights, Flight(p, false));
    SendConserves(s, p);
    RankedLog(s.log, Sent(p));
    SendTraced(s, Flight(p, false), Send(s, p, false));
    SendOrders(s, p);
    AnnotatedLog(s, Sent(p), Send(s, p, false));
    ReportedLog(s, Sent(p), Send(s, p, false));
  }

  // ---- Submitting -----------------------------------------------------------------------------

  lemma SubmittedIsNewest(s: State, p: Payload)
    requires Conserved(s) && Ranked(s.log) && Traced(s) && p.id == Submissions(s.log)
    ensures Newest(Log(s, Submitted(p)), p)
  {
    LogCounts(s.log, Submitted(p));
    forall j | 0 <= j < |s.queue| ensures s.queue[j].id < p.id {
      QueuedIsSubmitted(s, j);
    }
  }

  lemma SubmittedLedger(s: State, p: Payload)
    requires Ledger(s) && p.id == Submissions(s.log)
    ensures LedgerBut(Log(s, Submitted(p)), p)
  {
    var s1 := Log(s, Submitted(p));
    SubmittedIsMissing(s, p);
    RankedLog(s.log, Submitted(p));
    TracedLog(s, Submitted(p), s1);
    OrderedSame(s, Submitted(p), s1);
    AnnotatedLog(s, Submitted(p), s1);
    ReportedLog(s, Submitted(p), s1);
  }

  lemma SubmitKeepsLedger(s: State, bytesCount: nat)
    requires Ledger(s)
    ensures Ledger(Submit(s, bytesCount))
  {
    var p := Payload(Submissions(s.log), bytesCount);
    var s1 := Log(s, Submitted(p));
    SubmittedLedger(s, p);
    SubmittedIsNewest(s, p);
    if s1.status == Up && s1.queue == [] && CanHandle(s1.flights, p) {
      assert Count(s1.log, Submitted(p)) > 0 by { LogCounts(s.log, Submitted(p)); }
      SendKeepsLedger(s1, p);
    } else {
      EnqueueKeepsLedger(s1, p);
    }
  }

  lemma SubmitLog(s: State, bytesCount: nat)
    ensures Count(Submit(s, bytesCount).log, NothingToRetry) == Count(s.log, NothingToRetry)
    ensures FailedRetries(Submit(s, bytesCount).log) == FailedRetries(s.log)
  {
    var p := Payload(Submissions(s.log), bytesCount);
    var log1 := s.log + [Submitted(p)];
    CountOne(s.log, Submitted(p), NothingToRetry);
    LogFailedRetries(s.log, Submitted(p));
    CountOne(log1, Sent(p), NothingToRetry);
    LogFailedRetries(log1, Sent(p));
    CountOne(log1, QueueFull(p), NothingToRetry);
    LogFailedRetries(log1, QueueFull(p));
  }

  lemma SubmitKeepsControl(s: State, bytesCount: nat)
    requires Control(s) && BackedOff(s)
    ensures Control(Submit(s, bytesCount)) && BackedOff(Submit(s, bytesCount))
  {
    SubmitLog(s, bytesCount);
  }

  // ---- Responses ------------------------------------------------------------------------------

  lemma RemoveFlight(s: State, i: nat)
    requires i < |s.flights| && Bandwidth(s.flights) && Traced(s)
    ensures Bandwidth(Remove(s.flights, i)) && Traced(s.(flights := Remove(s.flights, i)))
  {
    OngoingRemove(s.flights, i);
  }

  lemma LandedIsMissing(s: State, i: nat)
    requires i < |s.flights| && Conserved(s) && !s.flights[i].isRetry
    ensures ConservedBut(s.(flights := Remove(s.flights, i)), s.flights[i].payload)
  {
    CountRemove(s.flights, i);
    forall q ensures
      Found(s.(flights := Remove(s.flights, i)), q) == Found(s, q) - (if q == s.flights[i].payload then 1 else 0)
    { }
    forall q ensures Found(s, q) == Count(s.log, Submitted(q)) { }
  }

  /** A first transmission has landed. */
  function Land(s: State, i: nat): State
    requires i < |s.flights|
  {
    s.(flights := Remove(s.flights, i))
  }

  lemma LandKeepsLedger(s: State, i: nat)
    requires i < |s.flights| && Ledger(s) && !s.flights[i].isRetry
    ensures LedgerBut(Land(s, i), s.flights[i].payload)
  {
    RemoveFlight(s, i);
    LandedIsMissing(s, i);
  }

  lemma SucceededConserves(s: State, p: Payload)
    requires ConservedBut(s, p)
    ensures Conserved(Log(s, Succeeded(p)).(status := Up))
  {
    LogCounts(s.log, Succeeded(p));
  }

  lemma SucceededKeepsLedger(s: State, p: Payload)
    requires LedgerBut(s, p)
    ensures Ledger(Log(s, Succeeded(p)).(status := Up))
  {
    var t := Log(s, Succeeded(p)).(status := Up);
    SucceededConserves(s, p);
    RankedLog(s.log, Succeeded(p));
    TracedLog(s, Succeeded(p), t);
    OrderedSame(s, Succeeded(p), t);
    AnnotatedLog(s, Succeeded(p), t);
    ReportedLog(s, Succeeded(p), t);
  }

  lemma LandedUpAndIdle(s: State, i: nat)
    requires Control(s) && BackedOff(s) && i < |s.flights| && !s.flights[i].isRetry
    ensures UpAndIdle(Log(Land(s, i), Succeeded(s.flights[i].payload)).(status := Up))
  {
    LogCounts(s.log, Succeeded(s.flights[i].payload));
    LogFailedRetries(s.log, Succeeded(s.flights[i].payload));
  }

  /** A successful first transmission. */
  lemma SuccessKeepsInv(s: State, i: nat, response: HttpResponse, online: bool)
    requires Inv(s) && i < |s.flights| && !s.flights[i].isRetry && !ShouldRetryRequest(response, online)
    ensures Inv(Respond(s, i, response, online))
  {
    var p := s.flights[i].payload;
    LandKeepsLedger(s, i);
    SucceededKeepsLedger(Land(s, i), p);
    LandedUpAndIdle(s, i);
    DrainKeepsInv(Log(Land(s, i), Succeeded(p)).(status := Up), AfterSuccess);
  }

  /** The state from which the queue is drained after a successful retry. */
  function Resume(s: State): State
    requires s.queue != []
  {
    Log(s.(flights := []), Succeeded(s.queue[0])).(status := Up, queue := s.queue[1..], backoff := INITIAL_BACKOFF_TIME)
  }

  lemma ResumeFinds(s: State, q: Payload)
    requires s.queue != [] && s.flights == [Flight(s.queue[0], true)]
    ensures Found(Resume(s), q) == Found(s, q)
    ensures Count(Resume(s).log, Submitted(q)) == Count(s.log, Submitted(q))
  {
    LogCounts(s.log, Succeeded(s.queue[0]));
    CountRemove(s.queue, 0);
    assert Remove(s.queue, 0) == s.queue[1..];
    CountAppend([], s.flights[0]);
    assert [] + s.flights == s.flights;
  }

  lemma ResumeTraced(s: State)
    requires Traced(s) && s.queue != []
    ensures Traced(Resume(s))
  {
    LogCounts(s.log, Succeeded(s.queue[0]));
  }

  lemma ResumeKeepsLedger(s: State)
    requires Ledger(s) && s.queue != [] && s.flights == [Flight(s.queue[0], true)]
    ensures Ledger(Resume(s))
  {
    var e := Succeeded(s.queue[0]);
    BoundedSuffix(s.queue, 1);
    forall q ensures Found(Resume(s), q) == Count(Resume(s).log, Submitted(q)) {
      ResumeFinds(s, q);
      assert Found(s, q) == Count(s.log, Submitted(q));
    }
    RankedLog(s.log, e);
    ResumeTraced(s);
    OrderedLog(s, e, Resume(s), 1);
    AnnotatedLog(s, e, Resume(s));
    ReportedLog(s, e, Resume(s));
  }

  lemma ResumeIsUpAndIdle(s: State)
    requires Control(s) && s.status == Down && s.timers == []
    ensures s.queue != [] && UpAndIdle(Resume(s))
  {
    LogCounts(s.log, Succeeded(s.queue[0]));
    LogFailedRetries(s.log, Succeeded(s.queue[0]));
  }

  lemma RetriedIsHead(s: State, i: nat)
    requires Control(s) && i < |s.flights| && s.flights[i].isRetry
    ensures s.status == Down && s.queue != [] && s.timers == []
    ensures i == 0 && s.flights == [Flight(s.queue[0], true)] && Remove(s.flights, i) == []
  { }

  lemma RetrySuccessKeepsInv(s: State, i: nat, response: HttpResponse, online: bool)
    requires Inv(s) && i < |s.flights| && s.flights[i].isRetry && !ShouldRetryRequest(response, online)
    ensures Inv(Respond(s, i, response, online))
  {
    RetriedIsHead(s, i);
    ResumeKeepsLedger(s);
    ResumeIsUpAndIdle(s);
    DrainKeepsInv(Resume(s), AfterResume);
  }

  lemma RecordFailureAnnotates(s: State, f: Flight, status: int)
    requires Annotated(s) && Ranked(s.log) && Count(s.log, Submitted(f.payload)) > 0
    ensures Annotated(RecordFailure(s, f, status))
  {
    var e := Failed(f.payload, f.isRetry);
    var t := RecordFailure(s, f, status);
    LogCounts(s.log, e);
    forall q ensures Failures(t.log, q) == Failures(s.log, q) + (if q == f.payload then 1 else 0) { }
  }

  lemma RecordFailureTraced(s: State, f: Flight, status: int)
    requires Traced(s)
    ensures Traced(RecordFailure(s, f, status))
  {
    LogCounts(s.log, Failed(f.payload, f.isRetry));
  }

  lemma RecordFailureKeepsLog(s: State, f: Flight, status: int)
    requires Ranked(s.log) && Ordered(s) && ReportedOnce(s)
    ensures Ranked(RecordFailure(s, f, status).log)
    ensures Ordered(RecordFailure(s, f, status)) && ReportedOnce(RecordFailure(s, f, status))
  {
    var e := Failed(f.payload, f.isRetry);
    RankedLog(s.log, e);
    OrderedSame(s, e, RecordFailure(s, f, status));
    ReportedLog(s, e, RecordFailure(s, f, status));
  }

  lemma RecordFailureFinds(s: State, f: Flight, status: int)
    ensures forall q :: Found(RecordFailure(s, f, status), q) == Found(s, q)
    ensures forall q :: Count(RecordFailure(s, f, status).log, Submitted(q)) == Count(s.log, Submitted(q))
    ensures forall q :: Count(RecordFailure(s, f, status).log, Sent(q)) == Count(s.log, Sent(q))
  {
    LogCounts(s.log, Failed(f.payload, f.isRetry));
  }

  /** A failed first transmission: its payload goes back to the queue. */
  function Requeue(s: State, i: nat, status: int): State
    requires i < |s.flights|
  {
    Enqueue(RecordFailure(Land(s, i), s.flights[i], status), s.flights[i].payload)
  }

  lemma FailedWasSubmitted(s: State, i: nat)
    requires Traced(s) && i < |s.flights|
    ensures Count(s.log, Sent(s.flights[i].payload)) > 0 && Count(s.log, Submitted(s.flights[i].payload)) > 0
  { }

  lemma RequeueKeepsLedger(s: State, i: nat, status: int)
    requires Ledger(s) && i < |s.flights| && !s.flights[i].isRetry
    ensures Ledger(Requeue(s, i, status))
  {
    var f := s.flights[i];
    var s1 := RecordFailure(Land(s, i), f, status);
    FailedWasSubmitted(s, i);
    LandKeepsLedger(s, i);
    RecordFailureAnnotates(Land(s, i), f, status);
    RecordFailureTraced(Land(s, i), f, status);
    RecordFailureKeepsLog(Land(s, i), f, status);
    RecordFailureFinds(Land(s, i), f, status);
    EnqueueKeepsLedger(s1, f.payload);
  }

  lemma RequeueLog(s: State, i: nat, status: int)
    requires i < |s.flights| && !s.flights[i].isRetry
    ensures Count(Requeue(s, i, status).log, NothingToRetry) == Count(s.log, NothingToRetry)
    ensures FailedRetries(Requeue(s, i, status).log) == FailedRetries(s.log)
  {
    var p := s.flights[i].payload;
    var log1 := s.log + [Failed(p, false)];
    LogCounts(s.log, Failed(p, false));
    LogFailedRetries(s.log, Failed(p, false));
    LogCounts(log1, QueueFull(p));
    LogFailedRetries(log1, QueueFull(p));
  }

  lemma RequeueFields(s: State, i: nat, status: int)
    requires QueueBounded(s.queue) && i < |s.flights|
    ensures var t := Requeue(s, i, status);
            && t.status == (if |s.flights| > 1 then FailureDetected else Down)
            && t.timers == s.timers && t.backoff == s.backoff
            && t.flights == Remove(s.flights, i) && t.queue != []
  {
    EnqueueBounded(RecordFailure(Land(s, i), s.flights[i], status), s.flights[i].payload);
  }

  lemma FreshFlightNotDown(s: State, i: nat)
    requires Control(s) && i < |s.flights| && !s.flights[i].isRetry
    ensures s.status != Down && s.timers == [] && AllFresh(Remove(s.flights, i))
  { }

  lemma RequeueControl(s: State, i: nat, status: int)
    requires Control(s) && BackedOff(s) && QueueBounded(s.queue) && i < |s.flights| && !s.flights[i].isRetry
    ensures Control(ScheduleRetry(Requeue(s, i, status))) && BackedOff(ScheduleRetry(Requeue(s, i, status)))
  {
    FreshFlightNotDown(s, i);
    RequeueLog(s, i, status);
    RequeueFields(s, i, status);
    var t := Requeue(s, i, status);
    assert t.status == Down ==> t.flights == [];
  }

  lemma FailureIsRequeue(s: State, i: nat, response: HttpResponse, online: bool)
    requires i < |s.flights| && !s.flights[i].isRetry && ShouldRetryRequest(response, online)
    ensures Respond(s, i, response, online) == ScheduleRetry(Requeue(s, i, response.status))
  { }

  lemma FailureKeepsInv(s: State, i: nat, response: HttpResponse, online: bool)
    requires Inv(s) && i < |s.flights| && !s.flights[i].isRetry && ShouldRetryRequest(response, online)
    ensures Inv(Respond(s, i, response, online))
  {
    RequeueKeepsLedger(s, i, response.status);
    RequeueControl(s, i, response.status);
    var t := Requeue(s, i, response.status);
    LedgerIgnoresTimers(t, ScheduleRetry(t));
    FailureIsRequeue(s, i, response, online);
  }

  lemma LedgerIgnoresTimers(s: State, t: State)
    requires Ledger(s)
    requires t == s.(timers := t.timers, status := t.status, backoff := t.backoff)
    ensures Ledger(t)
  {
    assert forall q :: Found(t, q) == Found(s, q);
  }

  /** A failed retry. */
  function Rearm(s: State, status: int): State
    requires s.flights != []
  {
    var s2 := RecordFailure(s.(flights := []), s.flights[0], status);
    s2.(backoff := Min(MAX_BACKOFF_TIME, s2.backoff * 2))
  }

  lemma RearmKeepsLedger(s: State, status: int)
    requires Ledger(s) && s.queue != [] && s.flights == [Flight(s.queue[0], true)]
    ensures Ledger(Rearm(s, status))
  {
    var f := s.flights[0];
    var s1 := s.(flights := []);
    FailedWasSubmitted(s, 0);
    assert Conserved(s1) by {
      forall q ensures Found(s1, q) == Count(s1.log, Submitted(q)) {
        assert Found(s, q) == Count(s.log, Submitted(q));
        CountRemove(s.flights, 0);
        assert Remove(s.flights, 0) == [];
      }
    }
    RecordFailureAnnotates(s1, f, status);
    RecordFailureTraced(s1, f, status);
    RecordFailureKeepsLog(s1, f, status);
    RecordFailureFinds(s1, f, status);
    LedgerIgnoresTimers(RecordFailure(s1, f, status), Rearm(s, status));
  }

  lemma BackoffDoubles(k: nat)
    ensures Min(MAX_BACKOFF_TIME, Min(MAX_BACKOFF_TIME, INITIAL_BACKOFF_TIME * Pow2(k)) * 2)
         == Min(MAX_BACKOFF_TIME, INITIAL_BACKOFF_TIME * Pow2(k + 1))
  { }

  lemma RearmControl(s: State, status: int)
    requires Control(s) && BackedOff(s) && s.status == Down && s.timers == []
    ensures s.flights != []
    ensures Control(ScheduleRetry(Rearm(s, status))) && BackedOff(ScheduleRetry(Rearm(s, status)))
  {
    var f := s.flights[0];
    LogCounts(s.log, Failed(f.payload, true));
    LogFailedRetries(s.log, Failed(f.payload, true));
    BackoffDoubles(FailedRetries(s.log));
  }

  lemma RetryFailureKeepsInv(s: State, i: nat, response: HttpResponse, online: bool)
    requires Inv(s) && i < |s.flights| && s.flights[i].isRetry && ShouldRetryRequest(response, online)
    ensures Inv(Respond(s, i, response, online))
  {
    RetriedIsHead(s, i);
    RearmKeepsLedger(s, response.status);
    RearmControl(s, response.status);
    var t := Rearm(s, response.status);
    LedgerIgnoresTimers(t, ScheduleRetry(t));
  }

  // ---- Timers ---------------------------------------------------------------------------------

  function Retry(s: State): State
    requires s.queue != []
  {
    Send(s.(timers := []), s.queue[0], true)
  }

  lemma RetryConserves(s: State)
    requires Conserved(s) && s.queue != []
    ensures Conserved(Retry(s))
  {
    LogCounts(s.log, Sent(s.queue[0]));
    CountAppend(s.flights, Flight(s.queue[0], true));
    forall q ensures Found(Retry(s), q) == Count(Retry(s).log, Submitted(q)) {
      assert Found(s, q) == Count(s.log, Submitted(q));
    }
  }

  lemma RetryOrders(s: State)
    requires Ordered(s) && s.queue != []
    ensures Ordered(Retry(s))
  {
    LogCounts(s.log, Sent(s.queue[0]));
    SentIncreases(s.log, s.queue[0]);
  }

  lemma RetryKeepsLedger(s: State)
    requires Ledger(s) && s.queue != [] && s.flights == []
    ensures Ledger(Retry(s))
  {
    var e := Sent(s.queue[0]);
    RetryConserves(s);
    RankedLog(s.log, e);
    QueuedIsSubmitted(s, 0);
    SendTraced(s, Flight(s.queue[0], true), Retry(s));
    RetryOrders(s);
    AnnotatedLog(s, e, Retry(s));
    ReportedLog(s, e, Retry(s));
  }

  lemma RetryKeepsControl(s: State)
    requires Control(s) && BackedOff(s) && s.timers != []
    ensures s.queue != [] && s.flights == [] && Control(Retry(s)) && BackedOff(Retry(s))
  {
    LogCounts(s.log, Sent(s.queue[0]));
    LogFailedRetries(s.log, Sent(s.queue[0]));
  }

  lemma FireIsRetry(s: State, i: nat)
    requires i < |s.timers| && |s.timers| == 1 && s.queue != []
    ensures Fire(s, i) == Retry(s)
  {
    assert Remove(s.timers, i) == [];
  }

  lemma ArmedFindsPayload(s: State)
    requires Control(s) && s.timers != []
    ensures |s.timers| == 1 && s.queue != [] && s.flights == []
  { }

  lemma FireKeepsInv(s: State, i: nat)
    requires Inv(s) && i < |s.timers|
    ensures Inv(Fire(s, i))
  {
    ArmedFindsPayload(s);
    RetryKeepsControl(s);
    RetryKeepsLedger(s);
    FireIsRetry(s, i);
  }

  // ---- Theorems -------------------------------------------------------------------------------

  lemma InitSatisfiesInv()
    ensures Inv(Init())
  {
    forall p ensures Found(Init(), p) == Count(Init().log, Submitted(p)) { }
  }

  lemma StepKeepsInv(s: State, step: Step)
    requires Inv(s) && Enabled(s, step)
    ensures Inv(Take(s, step))
  {
    match step
    case DoSubmit(bytesCount) =>
      SubmitKeepsLedger(s, bytesCount);
      SubmitKeepsControl(s, bytesCount);
    case DoRespond(i, response, online) =>
      if ShouldRetryRequest(response, online) {
        if s.flights[i].isRetry {
          RetryFailureKeepsInv(s, i, response, online);
        } else {
          FailureKeepsInv(s, i, response, online);
        }
      } else if s.flights[i].isRetry {
        RetrySuccessKeepsInv(s, i, response, online);
      } else {
        SuccessKeepsInv(s, i, response, online);
      }
    case DoFire(i) =>
      FireKeepsInv(s, i);
  }

  lemma {:induction false} RunKeepsInv(s: State, steps: seq<Step>, t: State)
    requires Inv(s) && Run(s, steps, t)
    ensures Inv(t)
    decreases |steps|
  {
    if steps != [] {
      StepKeepsInv(s, steps[0]);
      RunKeepsInv(Take(s, steps[0]), steps[1..], t);
    }
  }
}
