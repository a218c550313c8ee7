/** The buffered observable itself, proved against `BufferedReplay`. Its last three fields record what it
    reported, whom it called and what it was notified of; like the subscription that is recorded beside each
    observer, they never decide anything but where a subscription's slice of the notifications starts and ends. */
module BufferedObservables {
  import opened Wrappers
  import opened BufferedReplay

  lemma ReplayOneMore<T>(s: State<T>, i: nat, k: nat, react: Reactions)
    requires i < |s.subscriptions| && k < |s.buffer| && !s.subscriptions[i].closed
    ensures ReplayFrom(s, i, k, react) ==
            ReplayFrom(CallObserver(s, Listed(s.subscriptions[i].observer, i), s.buffer[k], react), i, k + 1, react)
  {}

  class BufferedObservable<T> {
    const react: Reactions
    var observers: seq<Listed>
    var buffer: seq<T>
    var droppedCount: nat
    var maxBufferSize: nat
    var subscriptions: seq<Subscription>
    var microtasks: seq<Task>
    var dropReports: seq<nat>
    var calls: seq<Call<T>>
    var log: seq<T>

    ghost function Abs(): State<T>
      reads this
    {
      State(buffer, droppedCount, maxBufferSize, observers, subscriptions, microtasks, dropReports, calls, log)
    }

    constructor (maxBufferSize: nat, react: Reactions)
      ensures Abs() == Init(maxBufferSize) && this.react == react
    {
      this.react := react;
      this.maxBufferSize := maxBufferSize;
      observers, buffer, droppedCount := [], [], 0;
      subscriptions, microtasks, dropReports, calls, log := [], [], [], [], [];
    }

    method RemoveObserver(observer: nat)
      modifies this`observers
      ensures observers == Without(old(observers), observer)
    {
      var kept := [];
      var n := 0;
      while n < |observers|
        invariant 0 <= n <= |observers| && observers == old(observers)
        invariant kept + Without(observers[n..], observer) == Without(observers, observer)
      {
        assert observers[n..][1..] == observers[n + 1..];
        if observers[n].observer != observer {
          kept := kept + [observers[n]];
        }
        n := n + 1;
      }
      assert kept + Without([], observer) == kept;
      observers := kept;
    }

    method Subscribe(observer: nat)
      modifies this
      ensures Abs() == AddSubscription(old(Abs()), observer)
    {
      microtasks := microtasks + [Replay(|subscriptions|)];
      subscriptions := subscriptions + [Subscription(observer, false, None, 0, None)];
    }

    method Unsubscribe(i: nat)
      requires i < |subscriptions|
      modifies this
      ensures Abs() == Close(old(Abs()), i)
    {
      var observer := subscriptions[i].observer;
      subscriptions := AllAfterClose(subscriptions, observers, i, |log|);
      RemoveObserver(observer);
    }

    method Unbuffer()
      modifies this
      ensures Abs() == ReactOnce(old(Abs()), ReactUnbuffer)
    {
      microtasks := microtasks + [DropBuffer];
    }

    /** One call of an observer, with whatever the observer does in return. */
    method InvokeObserver(listed: Listed, data: T)
      modifies this
      ensures Abs() == CallObserver(old(Abs()), listed, data, react)
    {
      var reactions := react(|calls|);
      calls := calls + [Call(listed, data)];
      ghost var called := Abs();
      var n := 0;
      while n < |reactions|
        invariant 0 <= n <= |reactions|
        invariant React(Abs(), reactions[n..]) == React(called, reactions)
      {
        assert reactions[n..][1..] == reactions[n + 1..];
        match reactions[n] {
          case ReactUnsubscribe(i) =>
            if i < |subscriptions| {
              Unsubscribe(i);
            }
          case ReactSubscribe(g) => Subscribe(g);
          case ReactUnbuffer => Unbuffer();
        }
        n := n + 1;
      }
    }

    method Notify(data: T)
      modifies this
      ensures Abs() == Step(old(Abs()), BufferedReplay.Notify(data), react)
    {
      log := log + [data];
      buffer := buffer + [data];
      if |buffer| > maxBufferSize {
        buffer := buffer[1..];
        droppedCount := droppedCount + 1;
      }
      var observersThen := observers;
      ghost var pushed := Abs();
      var n := 0;
      while n < |observersThen|
        invariant 0 <= n <= |observersThen|
        invariant Deliver(Abs(), observersThen[n..], data, react) == Deliver(pushed, observersThen, data, react)
      {
        assert observersThen[n..][1..] == observersThen[n + 1..];
        InvokeObserver(observersThen[n], data);
        n := n + 1;
      }
    }

    /** Where the replay stops: after everything, or at once when the subscription is closed. */
    method EndReplay(i: nat, k: nat)
      requires i < |subscriptions| && k <= |buffer| && (k == |buffer| || subscriptions[i].closed)
      modifies this
      ensures Abs() == ReplayFrom(old(Abs()), i, k, react)
    {
      if !subscriptions[i].closed {
        observers := observers + [Listed(subscriptions[i].observer, i)];
      } else {
        var start := if |buffer| <= |log| then |log| - |buffer| else 0;
        subscriptions := subscriptions[i := subscriptions[i].(until := start + k)];
      }
    }

    method JoinReplay(i: nat)
      requires i < |subscriptions|
      modifies this
      ensures Abs() == Join(old(Abs()), i)
    {
      var start := if |buffer| <= |log| then |log| - |buffer| else 0;
      subscriptions := subscriptions[i := subscriptions[i].(from := Some(start))];
    }

    method ReplayBuffer(i: nat)
      requires i < |subscriptions|
      modifies this
      ensures Abs() == StartReplay(old(Abs()), i, react)
    {
      JoinReplay(i);
      ghost var result := ReplayFrom(Abs(), i, 0, react);
      var k := 0;
      while k < |buffer|
        invariant 0 <= k <= |buffer| && i < |subscriptions|
        invariant ReplayFrom(Abs(), i, k, react) == result
      {
        if subscriptions[i].closed {
          EndReplay(i, k);
          return;
        }
        var listed := Listed(subscriptions[i].observer, i);
        ReplayOneMore(Abs(), i, k, react);
        InvokeObserver(listed, buffer[k]);
        k := k + 1;
      }
      EndReplay(i, k);
    }

    method RunNextMicrotask()
      modifies this
      ensures Abs() == Step(old(Abs()), RunMicrotask, react)
    {
      if microtasks == [] {
        return;
      }
      var task := microtasks[0];
      microtasks := microtasks[1..];
      match task
      case Replay(i) =>
        if i < |subscriptions| {
          ReplayBuffer(i);
        }
      case DropBuffer =>
        if droppedCount > 0 {
          dropReports := dropReports + [droppedCount];
        }
        maxBufferSize, buffer := 0, [];
    }
  }
}
