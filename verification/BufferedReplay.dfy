/** A buffered observable as a transition system: subscribers receive the retained notifications in a
    microtask, then every later one. Observers are identified by their function, as the source does when it
    removes one; which subscription an observer was listed for, and called for, is recorded beside it and
    decides nothing. An observer that is called may unsubscribe anything, subscribe anything or unbuffer; it
    does not notify. What the n-th call of an observer does is given by `react(n)`. */
module BufferedReplay {
  import opened Wrappers

  /** Its own function was removed from the observers when subscription `closer` was unsubscribed. */
  datatype Silence = Silence(at: nat, closer: nat)

  /** One subscription. Its place in the log of notifications is recorded: `from` once its microtask has
      started, `until` once it is closed, and where another subscription silenced it. */
  datatype Subscription = Subscription(
    observer: nat,
    closed: bool,
    from: Option<nat>,
    until: nat,
    silenced: Option<Silence>)

  datatype Task = Replay(subscription: nat) | DropBuffer

  datatype Listed = Listed(observer: nat, subscription: nat)

  datatype Call<T> = Call(listed: Listed, data: T)

  datatype State<T> = State(
    buffer: seq<T>,
    droppedCount: nat,
    maxBufferSize: nat,
    observers: seq<Listed>,
    subscriptions: seq<Subscription>,
    microtasks: seq<Task>,
    dropReports: seq<nat>,
    calls: seq<Call<T>>,
    log: seq<T>)

  datatype Reaction = ReactUnsubscribe(subscription: nat) | ReactSubscribe(observer: nat) | ReactUnbuffer

  type Reactions = nat -> seq<Reaction>

  datatype Action<T> =
    | Notify(data: T)
    | Subscribe(observer: nat)
    | Unsubscribe(subscription: nat)
    | Unbuffer
    | RunMicrotask

  function Init<T>(maxBufferSize: nat): State<T> {
    State([], 0, maxBufferSize, [], [], [], [], [], [])
  }

  /** `observers.filter((other) => observer !== other)` */
  function Without(observers: seq<Listed>, observer: nat): seq<Listed> {
    if observers == [] then []
    else (if observers[0].observer == observer then [] else [observers[0]]) + Without(observers[1..], observer)
  }

  predicate IsListed(observers: seq<Listed>, i: nat) {
    observers != [] && (observers[0].subscription == i || IsListed(observers[1..], i))
  }

  function AddSubscription<T>(s: State<T>, observer: nat): State<T> {
    s.(subscriptions := s.subscriptions + [Subscription(observer, false, None, 0, None)],
       microtasks := s.microtasks + [Replay(|s.subscriptions|)])
  }

  /** The k-th subscription when the i-th one is closed and its function is removed from the observers. */
  function AfterClose(subscriptions: seq<Subscription>, observers: seq<Listed>, i: nat, now: nat, k: nat): Subscription
    requires i < |subscriptions| && k < |subscriptions|
  {
    var sub := subscriptions[k];
    if k == i then (if sub.closed then sub else sub.(closed := true, until := now))
    else if sub.observer == subscriptions[i].observer && IsListed(observers, k) && sub.silenced.None?
    then sub.(silenced := Some(Silence(now, i)))
    else sub
  }

  function AllAfterClose(subscriptions: seq<Subscription>, observers: seq<Listed>, i: nat, now: nat): seq<Subscription>
    requires i < |subscriptions|
  {
    seq(|subscriptions|, k requires 0 <= k < |subscriptions| => AfterClose(subscriptions, observers, i, now, k))
  }

  function Close<T>(s: State<T>, i: nat): State<T>
    requires i < |s.subscriptions|
  {
    s.(subscriptions := AllAfterClose(s.subscriptions, s.observers, i, |s.log|),
       observers := Without(s.observers, s.subscriptions[i].observer))
  }

  function React<T>(s: State<T>, reactions: seq<Reaction>): (r: State<T>)
    ensures r.buffer == s.buffer && r.log == s.log && r.calls == s.calls
    ensures |r.subscriptions| >= |s.subscriptions|
    decreases |reactions|
  {
    if reactions == [] then s else React(ReactOnce(s, reactions[0]), reactions[1..])
  }

  function ReactOnce<T>(s: State<T>, reaction: Reaction): State<T> {
    match reaction
    case ReactUnsubscribe(i) => if i < |s.subscriptions| then Close(s, i) else s
    case ReactSubscribe(observer) => AddSubscription(s, observer)
    case ReactUnbuffer => s.(microtasks := s.microtasks + [DropBuffer])
  }

  function CallObserver<T>(s: State<T>, listed: Listed, data: T, react: Reactions): State<T> {
    React(s.(calls := s.calls + [Call(listed, data)]), react(|s.calls|))
  }

  /** `observers.forEach`, over the array that was there when the notification began. */
  function Deliver<T>(s: State<T>, observers: seq<Listed>, data: T, react: Reactions): State<T>
    decreases |observers|
  {
    if observers == [] then s else Deliver(CallObserver(s, observers[0], data, react), observers[1..], data, react)
  }

  function Push<T>(s: State<T>, data: T): State<T> {
    var buffer := s.buffer + [data];
    var pushed := s.(log := s.log + [data]);
    if |buffer| > s.maxBufferSize then pushed.(buffer := buffer[1..], droppedCount := s.droppedCount + 1)
    else pushed.(buffer := buffer)
  }

  /** The place in the log of the first notification that the buffer retains. */
  function FirstRetained<T>(s: State<T>): nat {
    if |s.buffer| <= |s.log| then |s.log| - |s.buffer| else 0
  }

  /** The replay loop from the k-th buffered notification on. */
  function ReplayFrom<T>(s: State<T>, i: nat, k: nat, react: Reactions): State<T>
    requires i < |s.subscriptions| && k <= |s.buffer|
    decreases |s.buffer| - k
  {
    var sub := s.subscriptions[i];
    if sub.closed then s.(subscriptions := s.subscriptions[i := sub.(until := FirstRetained(s) + k)])
    else if k < |s.buffer| then ReplayFrom(CallObserver(s, Listed(sub.observer, i), s.buffer[k], react), i, k + 1, react)
    else s.(observers := s.observers + [Listed(sub.observer, i)])
  }

  function Join<T>(s: State<T>, i: nat): State<T>
    requires i < |s.subscriptions|
  {
    s.(subscriptions := s.subscriptions[i := s.subscriptions[i].(from := Some(FirstRetained(s)))])
  }

  /** The microtask of a subscription. */
  function StartReplay<T>(s: State<T>, i: nat, react: Reactions): State<T> {
    if i < |s.subscriptions| then ReplayFrom(Join(s, i), i, 0, react) else s
  }

  function Drop<T>(s: State<T>): State<T> {
    s.(dropReports := if s.droppedCount > 0 then s.dropReports + [s.droppedCount] else s.dropReports,
       maxBufferSize := 0, buffer := [])
  }

  function Step<T>(s: State<T>, a: Action<T>, react: Reactions): State<T> {
    match a
    case Notify(data) => Deliver(Push(s, data), s.observers, data, react)
    case Subscribe(observer) => AddSubscription(s, observer)
    case Unsubscribe(i) => if i < |s.subscriptions| then Close(s, i) else s
    case Unbuffer => s.(microtasks := s.microtasks + [DropBuffer])
    case RunMicrotask =>
      if s.microtasks == [] then s
      else
        var rest := s.(microtasks := s.microtasks[1..]);
        match s.microtasks[0]
        case Replay(i) => StartReplay(rest, i, react)
        case DropBuffer => Drop(rest)
  }

  function Run<T>(s: State<T>, actions: seq<Action<T>>, react: Reactions): State<T> {
    if actions == [] then s else Step(Run(s, actions[..|actions| - 1], react), actions[|actions| - 1], react)
  }

  /** What a subscription's observer has been called with on its behalf, in order. */
  function Received<T>(calls: seq<Call<T>>, i: nat): seq<T> {
    if calls == [] then []
    else
      var last := calls[|calls| - 1];
      Received(calls[..|calls| - 1], i) + if last.listed.subscription == i then [last.data] else []
  }

  /** Where the notifications that the subscription should get end in the log. */
  function End<T>(s: State<T>, sub: Subscription): nat {
    if sub.closed then sub.until else |s.log|
  }

  /** Where those that it gets end. */
  function Heard<T>(s: State<T>, sub: Subscription): nat {
    if sub.silenced.Some? then sub.silenced.value.at else End(s, sub)
  }
}
