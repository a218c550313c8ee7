/** RUM before it is started: API calls are buffered as callbacks, and replayed once RUM starts. A callback is
    identified by its rank among the calls. */
module PreStart {
  import opened Wrappers
  import opened BufferedReplay
  import opened BufferedReplayProofs

  const BUFFER_LIMIT: nat := 500

  /** The function with which RUM subscribes to the buffered calls. */
  const RUM_OBSERVER: nat := 0

  /** Its subscription, the only one. */
  const RUM_SUBSCRIPTION: nat := 0

  datatype Configuration = Configuration(trackViewsManually: bool)

  /** One call of `doStartRum`: the callback whose options describe the initial view, if any. */
  datatype Start = Start(configuration: Configuration, initialView: Option<nat>)

  datatype Boot = Boot(
    api: State<nat>,
    initialized: bool,
    configuration: Option<Configuration>,
    sessionManager: bool,
    telemetry: bool,
    watchesConsent: bool,
    firstStartViewCall: Option<nat>,
    callbackToSkip: Option<nat>,
    started: bool,
    starts: seq<Start>)

  datatype Event =
    | InitCalled(configuration: Option<Configuration>)
    | TelemetryStarted
    | SessionManagerResolved(found: bool)
    | ConsentChanged
    | ApiCalled
    | StartViewCalled
    | MicrotaskRun

  /** Running a callback neither subscribes nor unsubscribes. */
  function NoReaction(n: nat): seq<Reaction> { [] }

  function InitBoot(): Boot {
    Boot(Init(BUFFER_LIMIT), false, None, false, false, true, None, None, false, [])
  }

  function BufferCall(b: Boot): Boot {
    b.(api := Step(b.api, Notify(|b.api.log|), NoReaction))
  }

  predicate Startable(b: Boot) {
    b.initialized && b.configuration.Some? && b.sessionManager && b.telemetry
  }

  /** The subscription of RUM, followed at once by unbuffering. */
  function Subscribed(s: State<nat>): State<nat> {
    ReactOnce(AddSubscription(s, RUM_OBSERVER), ReactUnbuffer)
  }

  function TryStartRum(b: Boot): Boot {
    if b.started || !Startable(b) then b
    else
      var manual := b.configuration.value.trackViewsManually;
      if manual && b.firstStartViewCall.None? then b.(watchesConsent := false)
      else
        var view := if manual then b.firstStartViewCall else None;
        b.(watchesConsent := false, started := true, callbackToSkip := view,
           starts := b.starts + [Start(b.configuration.value, view)],
           api := Subscribed(b.api))
  }

  function Handle(b: Boot, e: Event): Boot {
    match e
    case InitCalled(configuration) =>
      b.(initialized := true, configuration := if b.configuration.Some? then b.configuration else configuration)
    case TelemetryStarted => if b.configuration.Some? then b.(telemetry := true) else b
    case SessionManagerResolved(found) =>
      if found && b.telemetry then TryStartRum(b.(sessionManager := true)) else b
    case ConsentChanged => if b.watchesConsent then TryStartRum(b) else b
    case ApiCalled => BufferCall(b)
    case StartViewCalled =>
      var called := BufferCall(b);
      if b.firstStartViewCall.Some? then called else TryStartRum(called.(firstStartViewCall := Some(|b.api.log|)))
    case MicrotaskRun => b.(api := Step(b.api, RunMicrotask, NoReaction))
  }

  function Boots(events: seq<Event>): Boot {
    if events == [] then InitBoot() else Handle(Boots(events[..|events| - 1]), events[|events| - 1])
  }

  function Skipping(callbacks: seq<nat>, skip: Option<nat>): seq<nat> {
    if callbacks == [] then []
    else (if skip == Some(callbacks[0]) then [] else [callbacks[0]]) + Skipping(callbacks[1..], skip)
  }

  /** The callbacks that have run on the started RUM. */
  function Executed(b: Boot): seq<nat> {
    Skipping(Received(b.api.calls, RUM_SUBSCRIPTION), b.callbackToSkip)
  }

  function Ranks(from: nat, to: nat): seq<nat>
    requires from <= to
  {
    seq(to - from, k requires 0 <= k < to - from => from + k)
  }

  // ---- Invariant ------------------------------------------------------------------------------------

  ghost predicate Numbered(log: seq<nat>) {
    forall k | 0 <= k < |log| :: log[k] == k
  }

  /** How far the subscription of RUM has come. */
  ghost predicate Staged(b: Boot) {
    var s := b.api;
    if !b.started then s.subscriptions == [] && s.microtasks == [] && s.maxBufferSize == BUFFER_LIMIT
    else
      && |s.subscriptions| == 1 && s.subscriptions[0].observer == RUM_OBSERVER && !s.subscriptions[0].closed
      && s.subscriptions[0].silenced.None?
      && if s.subscriptions[0].from.None?
         then s.microtasks == [Replay(0), DropBuffer] && s.maxBufferSize == BUFFER_LIMIT
         else (s.microtasks == [DropBuffer] && s.maxBufferSize == BUFFER_LIMIT) || s.microtasks == []
  }

  ghost predicate Decided(b: Boot) {
    && (b.started <==> Startable(b) && (b.configuration.value.trackViewsManually ==> b.firstStartViewCall.Some?))
    && b.callbackToSkip ==
       (if b.started && b.configuration.value.trackViewsManually then b.firstStartViewCall else None)
    && b.starts == (if b.started then [Start(b.configuration.value, b.callbackToSkip)] else [])
    && (b.telemetry ==> b.configuration.Some?) && (b.sessionManager ==> b.telemetry)
    && (b.configuration.Some? ==> b.initialized)
  }

  ghost predicate BootInv(b: Boot) {
    Inv(b.api, BUFFER_LIMIT) && Numbered(b.api.log) && Staged(b) && Decided(b)
  }

  /** Without reactions a notification changes neither subscriptions nor microtasks. */
  lemma {:induction false} DeliverQuietly(s: State<nat>, observers: seq<Listed>, data: nat)
    ensures
      var t := Deliver(s, observers, data, NoReaction);
      t.subscriptions == s.subscriptions && t.microtasks == s.microtasks && t.log == s.log && t.maxBufferSize == s.maxBufferSize
    decreases |observers|
  {
    if observers != [] {
      DeliverQuietly(CallObserver(s, observers[0], data, NoReaction), observers[1..], data);
    }
  }

  lemma {:induction false} ReplayQuietly(s: State<nat>, i: nat, k: nat)
    requires i < |s.subscriptions| && k <= |s.buffer| && !s.subscriptions[i].closed
    ensures
      var t := ReplayFrom(s, i, k, NoReaction);
      t.subscriptions == s.subscriptions && t.microtasks == s.microtasks && t.log == s.log && t.maxBufferSize == s.maxBufferSize
    decreases |s.buffer| - k
  {
    if k < |s.buffer| {
      ReplayQuietly(CallObserver(s, Listed(s.subscriptions[i].observer, i), s.buffer[k], NoReaction), i, k + 1);
    }
  }

  lemma NotifyQuietly(s: State<nat>, data: nat)
    ensures
      var t := Step(s, Notify(data), NoReaction);
      && t.subscriptions == s.subscriptions && t.microtasks == s.microtasks && t.maxBufferSize == s.maxBufferSize
      && t.log == s.log + [data]
  {
    DeliverQuietly(Push(s, data), s.observers, data);
  }

  lemma BufferCallKeepsInv(b: Boot)
    requires BootInv(b)
    ensures BootInv(BufferCall(b)) && BufferCall(b).api.log == b.api.log + [|b.api.log|]
    ensures BufferCall(b).api.subscriptions == b.api.subscriptions
  {
    StepKeepsInv(b.api, Notify(|b.api.log|), BUFFER_LIMIT, NoReaction);
    NotifyQuietly(b.api, |b.api.log|);
    var t := BufferCall(b);
    assert Staged(t) && Decided(t);
  }

  /** What `tryStartRum` is called with: everything but the decision itself. */
  ghost predicate Undecided(b: Boot) {
    && Inv(b.api, BUFFER_LIMIT) && Numbered(b.api.log) && Staged(b)
    && (b.started ==> Decided(b))
    && (!b.started ==> b.callbackToSkip == None && b.starts == [])
    && (b.telemetry ==> b.configuration.Some?) && (b.sessionManager ==> b.telemetry)
    && (b.configuration.Some? ==> b.initialized)
  }

  lemma SubscribedKeepsInv(s: State<nat>)
    requires Inv(s, BUFFER_LIMIT)
    ensures Inv(Subscribed(s), BUFFER_LIMIT)
  {
    ReactionKeepsInv(s, ReactSubscribe(RUM_OBSERVER), BUFFER_LIMIT);
    ReactionKeepsInv(AddSubscription(s, RUM_OBSERVER), ReactUnbuffer, BUFFER_LIMIT);
  }

  lemma SubscribedQueues(s: State<nat>)
    requires s.subscriptions == [] && s.microtasks == []
    ensures
      var t := Subscribed(s);
      && t.log == s.log && t.maxBufferSize == s.maxBufferSize
      && t.subscriptions == [Subscription(RUM_OBSERVER, false, None, 0, None)] && t.microtasks == [Replay(0), DropBuffer]
  {}

  lemma TryStartDecides(b: Boot)
    requires Undecided(b)
    ensures BootInv(TryStartRum(b)) && TryStartRum(b).api.log == b.api.log
  {
    var t := TryStartRum(b);
    if t.started && !b.started {
      SubscribedKeepsInv(b.api);
      SubscribedQueues(b.api);
      assert Staged(t) && Decided(t);
    }
  }

  lemma MicrotaskKeepsInv(b: Boot)
    requires BootInv(b)
    ensures BootInv(Handle(b, MicrotaskRun)) && Handle(b, MicrotaskRun).api.log == b.api.log
  {
    StepKeepsInv(b.api, RunMicrotask, BUFFER_LIMIT, NoReaction);
    if b.api.microtasks != [] && b.api.microtasks[0] == Replay(0) {
      ReplayQuietly(Join(b.api.(microtasks := b.api.microtasks[1..]), 0), 0, 0);
    }
  }

  lemma HandleKeepsInv(b: Boot, e: Event)
    requires BootInv(b)
    ensures BootInv(Handle(b, e))
  {
    match e
    case InitCalled(_) =>
    case TelemetryStarted =>
    case SessionManagerResolved(found) =>
      if found && b.telemetry {
        TryStartDecides(b.(sessionManager := true));
      }
    case ConsentChanged => TryStartDecides(b);
    case ApiCalled => BufferCallKeepsInv(b);
    case StartViewCalled =>
      BufferCallKeepsInv(b);
      if b.firstStartViewCall.None? {
        TryStartDecides(BufferCall(b).(firstStartViewCall := Some(|b.api.log|)));
      }
    case MicrotaskRun => MicrotaskKeepsInv(b);
  }

  lemma {:induction false} BootsKeepInv(events: seq<Event>)
    ensures BootInv(Boots(events))
  {
    if events != [] {
      BootsKeepInv(events[..|events| - 1]);
      HandleKeepsInv(Boots(events[..|events| - 1]), events[|events| - 1]);
    }
  }

  lemma ReceivedRanks(b: Boot)
    requires BootInv(b) && b.started && b.api.subscriptions[0].from.Some?
    ensures b.api.subscriptions[0].from.value <= |b.api.log|
    ensures Received(b.api.calls, RUM_SUBSCRIPTION) == Ranks(b.api.subscriptions[0].from.value, |b.api.log|)
  {
    assert Exact(b.api, 0, []);
  }

  // ---- What has happened ------------------------------------------------------------------------------

  predicate Configures(e: Event) {
    e.InitCalled? && e.configuration.Some?
  }

  /** A valid configuration was given. */
  ghost predicate Configured(events: seq<Event>) {
    exists k :: 0 <= k < |events| && Configures(events[k])
  }

  /** Telemetry was started after that. */
  ghost predicate HasTelemetry(events: seq<Event>) {
    exists k :: 0 <= k < |events| && events[k].TelemetryStarted? && Configured(events[..k])
  }

  /** A session manager was found after that. */
  ghost predicate HasSession(events: seq<Event>) {
    exists k :: 0 <= k < |events| && events[k] == SessionManagerResolved(true) && HasTelemetry(events[..k])
  }

  ghost predicate HasView(events: seq<Event>) {
    exists k :: 0 <= k < |events| && events[k].StartViewCalled?
  }

  /** The number of buffered calls. */
  function CallCount(events: seq<Event>): nat {
    if events == [] then 0
    else
      var last := events[|events| - 1];
      CallCount(events[..|events| - 1]) + if last.ApiCalled? || last.StartViewCalled? then 1 else 0
  }

  /** What the closure variables say of the events. */
  ghost predicate Remembers(b: Boot, events: seq<Event>) {
    && (b.configuration.Some? <==> Configured(events)) && (b.telemetry <==> HasTelemetry(events))
    && (b.sessionManager <==> HasSession(events)) && (b.firstStartViewCall.Some? <==> HasView(events))
    && |b.api.log| == CallCount(events)
  }

  lemma HappensAppend(events: seq<Event>, e: Event)
    ensures Configured(events + [e]) <==> Configured(events) || Configures(e)
    ensures HasTelemetry(events + [e]) <==> HasTelemetry(events) || (e.TelemetryStarted? && Configured(events))
    ensures HasSession(events + [e]) <==> HasSession(events) || (e == SessionManagerResolved(true) && HasTelemetry(events))
    ensures HasView(events + [e]) <==> HasView(events) || e.StartViewCalled?
    ensures CallCount(events + [e]) == CallCount(events) + if e.ApiCalled? || e.StartViewCalled? then 1 else 0
  {
    var all := events + [e];
    assert all[..|events|] == events && all[|events|] == e;
    assert forall k | 0 <= k < |events| :: all[k] == events[k] && all[..k] == events[..k];
  }

  lemma {:induction false} EventsAreRemembered(events: seq<Event>)
    ensures Remembers(Boots(events), events)
  {
    if events != [] {
      var before, e := events[..|events| - 1], events[|events| - 1];
      assert before + [e] == events;
      EventsAreRemembered(before);
      BootsKeepInv(before);
      HappensAppend(before, e);
      HandleRemembers(Boots(before), before, e);
    }
  }

  lemma HandleRemembers(b: Boot, before: seq<Event>, e: Event)
    requires BootInv(b) && Remembers(b, before)
    ensures
      var t := Handle(b, e);
      && (t.configuration.Some? <==> b.configuration.Some? || Configures(e))
      && (t.telemetry <==> b.telemetry || (e.TelemetryStarted? && b.configuration.Some?))
      && (t.sessionManager <==> b.sessionManager || (e == SessionManagerResolved(true) && b.telemetry))
      && (t.firstStartViewCall.Some? <==> b.firstStartViewCall.Some? || e.StartViewCalled?)
      && |t.api.log| == |b.api.log| + if e.ApiCalled? || e.StartViewCalled? then 1 else 0
  {
    match e
    case ApiCalled => BufferCallKeepsInv(b);
    case StartViewCalled => BufferCallKeepsInv(b);
    case MicrotaskRun => MicrotaskKeepsInv(b);
    case _ =>
  }

  lemma StartingForgetsNothing(b: Boot)
    ensures TryStartRum(b).configuration == b.configuration && TryStartRum(b).firstStartViewCall == b.firstStartViewCall
  {}

  lemma HandleKeepsTheFirst(b: Boot, e: Event)
    ensures
      var t := Handle(b, e);
      && t.configuration == (if b.configuration.None? && Configures(e) then e.configuration else b.configuration)
      && t.firstStartViewCall ==
         (if b.firstStartViewCall.None? && e.StartViewCalled? then Some(|b.api.log|) else b.firstStartViewCall)
  {
    match e
    case SessionManagerResolved(_) => StartingForgetsNothing(b.(sessionManager := true));
    case ConsentChanged => StartingForgetsNothing(b);
    case StartViewCalled => StartingForgetsNothing(BufferCall(b).(firstStartViewCall := Some(|b.api.log|)));
    case _ =>
  }

  /** The first valid configuration is the one that is used. */
  lemma {:induction false} FirstConfigurationIsKept(events: seq<Event>, k: nat)
    requires k < |events| && Configures(events[k]) && !Configured(events[..k])
    ensures Boots(events).configuration == events[k].configuration
    decreases |events|
  {
    var before, e := events[..|events| - 1], events[|events| - 1];
    HandleKeepsTheFirst(Boots(before), e);
    assert Boots(events) == Handle(Boots(before), e);
    if k < |before| {
      assert before[..k] == events[..k] && before[k] == events[k];
      FirstConfigurationIsKept(before, k);
    } else {
      EventsAreRemembered(before);
    }
  }

  /** The initial view, if views are tracked manually, is that of the first startView call. */
  lemma {:induction false} FirstViewIsKept(events: seq<Event>, k: nat)
    requires k < |events| && events[k].StartViewCalled? && !HasView(events[..k])
    ensures Boots(events).firstStartViewCall == Some(CallCount(events[..k]))
    decreases |events|
  {
    var before, e := events[..|events| - 1], events[|events| - 1];
    HandleKeepsTheFirst(Boots(before), e);
    assert Boots(events) == Handle(Boots(before), e);
    if k < |before| {
      assert before[..k] == events[..k] && before[k] == events[k];
      FirstViewIsKept(before, k);
    } else {
      EventsAreRemembered(before);
    }
  }

  // ---- Theorems -------------------------------------------------------------------------------------

  /** RUM starts at most once, and it has started exactly if it is configured, has a session manager and
      telemetry, and, when views are tracked manually, a view. */
  lemma RumStartsOnce(events: seq<Event>)
    ensures
      var b := Boots(events);
      && |b.starts| <= 1 && (b.started <==> |b.starts| == 1)
      && (b.started <==>
            Startable(b) && (b.configuration.value.trackViewsManually ==> b.firstStartViewCall.Some?))
  {
    BootsKeepInv(events);
  }

  /** RUM has started exactly if a valid configuration was given, telemetry was started after it, a session
      manager was found after that, and a view was started if the first such configuration has views tracked
      manually. It started with that configuration, and with the first view if they are. */
  lemma RumStartsWhenEverythingHappened(events: seq<Event>, k: nat)
    requires k < |events| && Configures(events[k]) && !Configured(events[..k])
    ensures
      var b := Boots(events);
      var manual := events[k].configuration.value.trackViewsManually;
      && (|b.starts| == 1 <==> HasSession(events) && (manual ==> HasView(events)))
      && (b.starts != [] ==>
            && b.starts[0].configuration == events[k].configuration.value
            && (!manual ==> b.starts[0].initialView.None?)
            && (manual ==> forall j: nat | j < |events| && events[j].StartViewCalled? && !HasView(events[..j]) ::
                             b.starts[0].initialView == Some(CallCount(events[..j]))))
  {
    BootsKeepInv(events);
    EventsAreRemembered(events);
    FirstConfigurationIsKept(events, k);
    forall j: nat | j < |events| && events[j].StartViewCalled? && !HasView(events[..j])
      ensures Boots(events).firstStartViewCall == Some(CallCount(events[..j]))
    {
      FirstViewIsKept(events, j);
    }
    assert Configured(events);
    assert HasSession(events) ==> HasTelemetry(events) by {
      if HasSession(events) {
        assert Boots(events).sessionManager;
      }
    }
  }

  /** Without a valid configuration it does not start. */
  lemma RumDoesNotStartUnconfigured(events: seq<Event>)
    requires !Configured(events)
    ensures Boots(events).starts == [] && !Boots(events).started
  {
    BootsKeepInv(events);
    EventsAreRemembered(events);
  }

  /** Nothing runs before RUM has started and its microtask has come. From then on exactly the calls from
      some rank on have run, in call order and once each, but for the view that became the initial view. */
  lemma BufferedCallsRunInOrder(events: seq<Event>)
    ensures
      var b := Boots(events);
      if !b.started || b.api.subscriptions == [] || b.api.subscriptions[0].from.None? then Executed(b) == []
      else
        var start := b.api.subscriptions[0].from.value;
        var skip := if b.configuration.Some? && b.configuration.value.trackViewsManually then b.firstStartViewCall else None;
        start <= |b.api.log| && Executed(b) == Skipping(Ranks(start, |b.api.log|), skip)
  {
    BootsKeepInv(events);
    var b := Boots(events);
    if b.started && b.api.subscriptions[0].from.Some? {
      ReceivedRanks(b);
    } else if b.started {
      assert Exact(b.api, 0, []);
    } else {
      assert AllMatch(b.api, []);
      NothingReceived(b.api.calls, RUM_SUBSCRIPTION);
    }
  }

  /** The first rank is that of the oldest of the last 500 calls, even though RUM unbuffers at once. */
  lemma LastCallsAreReplayed(events: seq<Event>)
    requires
      var b := Boots(events);
      b.started && |b.api.subscriptions| == 1 && b.api.subscriptions[0].from.None?
    ensures
      var t := Handle(Boots(events), MicrotaskRun);
      var n := |t.api.log|;
      && |t.api.subscriptions| == 1
      && t.api.subscriptions[0].from == Some(if n <= 500 then 0 else n - 500)
      && Executed(t) == Skipping(Ranks(if n <= 500 then 0 else n - 500, n), t.callbackToSkip)
  {
    BootsKeepInv(events);
    JoiningReplaysTheLast(Boots(events));
  }

  lemma JoiningReplaysTheLast(b: Boot)
    requires BootInv(b) && b.started && b.api.subscriptions[0].from.None?
    ensures
      var t := Handle(b, MicrotaskRun);
      var n := |t.api.log|;
      && |t.api.subscriptions| == 1
      && t.api.subscriptions[0].from == Some(if n <= BUFFER_LIMIT then 0 else n - BUFFER_LIMIT)
      && Executed(t) == Skipping(Ranks(if n <= BUFFER_LIMIT then 0 else n - BUFFER_LIMIT, n), t.callbackToSkip)
  {
    MicrotaskKeepsInv(b);
    ReplayTaskProgress(b.api, 0, NoReaction);
    FirstOfBuffer(b.api, BUFFER_LIMIT);
    ReceivedRanks(Handle(b, MicrotaskRun));
  }

  lemma {:induction false} NothingToSkip(callbacks: seq<nat>, skip: Option<nat>)
    requires skip.Some? ==> skip.value !in callbacks
    ensures Skipping(callbacks, skip) == callbacks
  {
    if callbacks != [] {
      NothingToSkip(callbacks[1..], skip);
    }
  }

  /** A skipped callback is missing once, every other one is kept. */
  lemma {:induction false} SkippingSkipsOne(from: nat, skip: nat, to: nat)
    requires from <= skip < to
    ensures Skipping(Ranks(from, to), Some(skip)) == Ranks(from, skip) + Ranks(skip + 1, to)
    decreases skip - from
  {
    var callbacks := Ranks(from, to);
    assert callbacks[0] == from && callbacks[1..] == Ranks(from + 1, to);
    if skip == from {
      NothingToSkip(Ranks(from + 1, to), Some(skip));
      assert Ranks(from, skip) == [];
    } else {
      SkippingSkipsOne(from + 1, skip, to);
      assert Ranks(from, skip) == [from] + Ranks(from + 1, skip);
    }
  }
}
