/** Replay is exact: what a subscriber receives is one contiguous slice of the notifications, from the first
    one retained when its microtask ran to the last one before it was unsubscribed, or before its function was
    removed because another subscription with the same function was. */
module BufferedReplayProofs {
  import opened Wrappers
  import opened BufferedReplay

  function Occurrences(observers: seq<Listed>, i: nat): nat {
    if observers == [] then 0 else (if observers[0].subscription == i then 1 else 0) + Occurrences(observers[1..], i)
  }

  lemma {:induction false} OccurrencesAppend(observers: seq<Listed>, l: Listed, i: nat)
    ensures Occurrences(observers + [l], i) == Occurrences(observers, i) + if l.subscription == i then 1 else 0
  {
    if observers == [] {
      assert [l][1..] == [];
      assert observers + [l] == [l];
    } else {
      assert (observers + [l])[1..] == observers[1..] + [l];
      OccurrencesAppend(observers[1..], l, i);
    }
  }

  /** Removing a function takes the i-th subscription out exactly if it is its function. */
  lemma {:induction false} OccurrencesWithout(observers: seq<Listed>, f: nat, i: nat, own: nat)
    requires forall k | 0 <= k < |observers| && observers[k].subscription == i :: observers[k].observer == own
    ensures Occurrences(Without(observers, f), i) == if own == f then 0 else Occurrences(observers, i)
  {
    if observers != [] {
      OccurrencesWithout(observers[1..], f, i, own);
      var rest := Without(observers[1..], f);
      if observers[0].observer == f {
        assert Without(observers, f) == rest;
      } else {
        assert ([observers[0]] + rest)[1..] == rest;
      }
    }
  }

  lemma {:induction false} WithoutIsPart(observers: seq<Listed>, f: nat)
    ensures forall l | l in Without(observers, f) :: l in observers
  {
    if observers != [] {
      WithoutIsPart(observers[1..], f);
    }
  }

  lemma {:induction false} ListedOccurs(observers: seq<Listed>, i: nat)
    ensures IsListed(observers, i) <==> Occurrences(observers, i) > 0
    ensures (forall k | 0 <= k < |observers| :: observers[k].subscription != i) ==> Occurrences(observers, i) == 0
  {
    if observers != [] {
      ListedOccurs(observers[1..], i);
    }
  }

  lemma ReceivedAppend<T>(calls: seq<Call<T>>, c: Call<T>, i: nat)
    ensures Received(calls + [c], i) == Received(calls, i) + if c.listed.subscription == i then [c.data] else []
  {
    assert (calls + [c])[..|calls|] == calls;
  }

  lemma {:induction false} NothingReceived<T>(calls: seq<Call<T>>, i: nat)
    requires forall k | 0 <= k < |calls| :: calls[k].listed.subscription != i
    ensures Received(calls, i) == []
  {
    if calls != [] {
      NothingReceived(calls[..|calls| - 1], i);
    }
  }

  // ---- Invariants -----------------------------------------------------------------------------------

  /** What the buffer holds before it is dropped, and how the drops are counted before and after. */
  ghost predicate Retained<T>(s: State<T>, capacity: nat) {
    && |s.buffer| <= |s.log| && s.buffer == s.log[|s.log| - |s.buffer|..]
    && (|| (s.maxBufferSize == capacity && s.droppedCount == |s.log| - |s.buffer|
            && |s.buffer| == if |s.log| < capacity then |s.log| else capacity)
        || (s.maxBufferSize == 0 && s.buffer == [] && |s.log| - capacity <= s.droppedCount <= |s.log|))
  }

  /** An entry of the observers is that of a subscription, with its function. */
  ghost predicate Matches<T>(s: State<T>, l: Listed) {
    l.subscription < |s.subscriptions| && s.subscriptions[l.subscription].observer == l.observer
  }

  ghost predicate AllMatch<T>(s: State<T>, pending: seq<Listed>) {
    && (forall k | 0 <= k < |s.calls| :: s.calls[k].listed.subscription < |s.subscriptions|)
    && (forall l | l in s.observers :: Matches(s, l))
    && (forall l | l in pending :: Matches(s, l))
  }

  /** What the i-th subscription has received while the observers in `pending` still have to be called with
      the last notification. */
  ghost predicate Exact<T>(s: State<T>, i: nat, pending: seq<Listed>)
    requires i < |s.subscriptions|
  {
    var sub := s.subscriptions[i];
    var due := Occurrences(pending, i);
    var listed := Occurrences(s.observers, i);
    match sub.from
    case None => Received(s.calls, i) == [] && listed == 0 && due == 0 && sub.silenced.None?
    case Some(start) =>
      && start <= Heard(s, sub) <= End(s, sub) <= |s.log|
      && listed == (if sub.closed || sub.silenced.Some? then 0 else 1)
      && (due == 0 || (due == 1 && start < Heard(s, sub) == |s.log|))
      && Received(s.calls, i) == s.log[start..Heard(s, sub) - due]
  }

  /** The i-th subscription is being replayed, `k` notifications are done. */
  ghost predicate Replaying<T>(s: State<T>, i: nat, k: nat) {
    && i < |s.subscriptions| && s.subscriptions[i].from == Some(FirstRetained(s))
    && k <= |s.buffer| <= |s.log| && s.buffer == s.log[|s.log| - |s.buffer|..]
    && s.subscriptions[i].silenced.None? && Occurrences(s.observers, i) == 0
    && Received(s.calls, i) == s.buffer[..k]
  }

  /** Every subscription is exact, but for the one that is being replayed. */
  ghost predicate AllExact<T>(s: State<T>, pending: seq<Listed>, except: int) {
    AllMatch(s, pending) && forall i | 0 <= i < |s.subscriptions| && i != except :: Exact(s, i, pending)
  }

  // ---- Reactions ------------------------------------------------------------------------------------

  lemma MatchesStill<T>(s: State<T>, t: State<T>, pending: seq<Listed>)
    requires AllMatch(s, pending) && t.calls == s.calls
    requires |t.subscriptions| >= |s.subscriptions|
    requires forall j | 0 <= j < |s.subscriptions| :: t.subscriptions[j].observer == s.subscriptions[j].observer
    requires forall l | l in t.observers :: l in s.observers
    ensures AllMatch(t, pending)
  {
    forall l | Matches(s, l) ensures Matches(t, l) {}
  }

  lemma CloseKeepsExact<T>(s: State<T>, j: nat, i: nat, pending: seq<Listed>)
    requires j < |s.subscriptions| && i < |s.subscriptions| && AllMatch(s, pending) && Exact(s, i, pending)
    ensures Exact(Close(s, j), i, pending)
  {
    forall k | 0 <= k < |s.observers| && s.observers[k].subscription == i
      ensures s.observers[k].observer == s.subscriptions[i].observer
    {
      assert Matches(s, s.observers[k]);
    }
    OccurrencesWithout(s.observers, s.subscriptions[j].observer, i, s.subscriptions[i].observer);
    ListedOccurs(s.observers, i);
    assert Close(s, j).subscriptions[i] == AfterClose(s.subscriptions, s.observers, j, |s.log|, i);
  }

  lemma NewSubscriptionIsExact<T>(s: State<T>, g: nat, pending: seq<Listed>)
    requires AllMatch(s, pending)
    ensures Exact(AddSubscription(s, g), |s.subscriptions|, pending)
  {
    var i := |s.subscriptions|;
    NothingReceived(s.calls, i);
    forall k | 0 <= k < |s.observers| ensures s.observers[k].subscription != i {
      assert Matches(s, s.observers[k]);
    }
    forall k | 0 <= k < |pending| ensures pending[k].subscription != i {
      assert Matches(s, pending[k]);
    }
    ListedOccurs(s.observers, i);
    ListedOccurs(pending, i);
  }

  lemma ReactOnceKeepsExact<T>(s: State<T>, r: Reaction, pending: seq<Listed>, except: int)
    requires AllExact(s, pending, except)
    ensures AllExact(ReactOnce(s, r), pending, except)
  {
    var t := ReactOnce(s, r);
    if r.ReactUnsubscribe? && r.subscription < |s.subscriptions| {
      WithoutIsPart(s.observers, s.subscriptions[r.subscription].observer);
    }
    MatchesStill(s, t, pending);
    forall i | 0 <= i < |t.subscriptions| && i != except ensures Exact(t, i, pending) {
      match r
      case ReactUnsubscribe(j) =>
        if j < |s.subscriptions| {
          CloseKeepsExact(s, j, i, pending);
        }
      case ReactSubscribe(g) =>
        if i == |s.subscriptions| {
          NewSubscriptionIsExact(s, g, pending);
        } else {
          assert Exact(s, i, pending);
        }
      case ReactUnbuffer => assert Exact(s, i, pending);
    }
  }

  lemma ReactOnceKeepsReplaying<T>(s: State<T>, r: Reaction, i: nat, k: nat)
    requires Replaying(s, i, k) && AllMatch(s, [])
    ensures Replaying(ReactOnce(s, r), i, k)
  {
    if r.ReactUnsubscribe? && r.subscription < |s.subscriptions| {
      var j := r.subscription;
      forall n | 0 <= n < |s.observers| && s.observers[n].subscription == i
        ensures s.observers[n].observer == s.subscriptions[i].observer
      {
        assert Matches(s, s.observers[n]);
      }
      OccurrencesWithout(s.observers, s.subscriptions[j].observer, i, s.subscriptions[i].observer);
      ListedOccurs(s.observers, i);
      assert Close(s, j).subscriptions[i] == AfterClose(s.subscriptions, s.observers, j, |s.log|, i);
    }
  }

  lemma {:induction false} ReactKeepsExact<T>(s: State<T>, rs: seq<Reaction>, pending: seq<Listed>, except: int)
    requires AllExact(s, pending, except)
    ensures AllExact(React(s, rs), pending, except)
    decreases |rs|
  {
    if rs != [] {
      ReactOnceKeepsExact(s, rs[0], pending, except);
      ReactKeepsExact(ReactOnce(s, rs[0]), rs[1..], pending, except);
    }
  }

  lemma {:induction false} ReactKeepsReplaying<T>(s: State<T>, rs: seq<Reaction>, i: nat, k: nat)
    requires Replaying(s, i, k) && AllExact(s, [], i)
    ensures Replaying(React(s, rs), i, k)
    decreases |rs|
  {
    if rs != [] {
      ReactOnceKeepsReplaying(s, rs[0], i, k);
      ReactOnceKeepsExact(s, rs[0], [], i);
      ReactKeepsReplaying(ReactOnce(s, rs[0]), rs[1..], i, k);
    }
  }

  // ---- Notification ---------------------------------------------------------------------------------

  lemma PushKeepsRetained<T>(s: State<T>, data: T, capacity: nat)
    requires Retained(s, capacity)
    ensures Retained(Push(s, data), capacity)
  {
    var t := Push(s, data);
    assert s.log + [data] == s.log[..|s.log| - |s.buffer|] + (s.buffer + [data]);
    assert t.buffer == t.log[|t.log| - |t.buffer|..];
  }

  /** The notification is now due to the observers. */
  lemma PushMakesDue<T>(s: State<T>, data: T)
    requires AllExact(s, [], -1)
    ensures AllExact(Push(s, data), s.observers, -1)
  {
    var t := Push(s, data);
    forall l | Matches(s, l) ensures Matches(t, l) {}
    forall i | 0 <= i < |t.subscriptions| ensures Exact(t, i, s.observers) {
      assert Exact(s, i, []);
      var sub := s.subscriptions[i];
      if sub.from.Some? {
        assert t.log[sub.from.value..Heard(s, sub)] == s.log[sub.from.value..Heard(s, sub)];
      }
    }
  }

  lemma DueCallKeepsExact<T>(s: State<T>, pending: seq<Listed>, data: T)
    requires pending != [] && AllExact(s, pending, -1) && s.log != [] && data == s.log[|s.log| - 1]
    ensures AllExact(s.(calls := s.calls + [Call(pending[0], data)]), pending[1..], -1)
  {
    var t := s.(calls := s.calls + [Call(pending[0], data)]);
    forall l | Matches(s, l) ensures Matches(t, l) {}
    assert Matches(s, pending[0]);
    forall i | 0 <= i < |t.subscriptions| ensures Exact(t, i, pending[1..]) {
      DueCallIsExact(s, pending, data, i);
    }
  }

  lemma DueCallIsExact<T>(s: State<T>, pending: seq<Listed>, data: T, i: nat)
    requires pending != [] && s.log != [] && data == s.log[|s.log| - 1]
    requires i < |s.subscriptions| && Exact(s, i, pending)
    ensures Exact(s.(calls := s.calls + [Call(pending[0], data)]), i, pending[1..])
  {
    var sub := s.subscriptions[i];
    ReceivedAppend(s.calls, Call(pending[0], data), i);
    if sub.from.Some? && pending[0].subscription == i {
      assert s.log[sub.from.value..|s.log|] == s.log[sub.from.value..|s.log| - 1] + [data];
    }
  }

  lemma {:induction false} DeliverKeepsExact<T>(s: State<T>, pending: seq<Listed>, data: T, react: Reactions)
    requires AllExact(s, pending, -1) && s.log != [] && data == s.log[|s.log| - 1]
    ensures AllExact(Deliver(s, pending, data, react), [], -1)
    ensures Deliver(s, pending, data, react).buffer == s.buffer && Deliver(s, pending, data, react).log == s.log
    decreases |pending|
  {
    if pending != [] {
      DueCallKeepsExact(s, pending, data);
      var called := s.(calls := s.calls + [Call(pending[0], data)]);
      ReactKeepsExact(called, react(|s.calls|), pending[1..], -1);
      DeliverKeepsExact(CallObserver(s, pending[0], data, react), pending[1..], data, react);
    }
  }

  // ---- Replay ---------------------------------------------------------------------------------------

  lemma JoinStartsReplay<T>(s: State<T>, i: nat)
    requires AllExact(s, [], -1) && i < |s.subscriptions| && s.subscriptions[i].from.None?
    requires |s.buffer| <= |s.log| && s.buffer == s.log[|s.log| - |s.buffer|..]
    ensures Replaying(Join(s, i), i, 0) && AllExact(Join(s, i), [], i)
  {
    var t := Join(s, i);
    MatchesStill(s, t, []);
    assert Exact(s, i, []);
    forall j | 0 <= j < |t.subscriptions| && j != i ensures Exact(t, j, []) {
      assert Exact(s, j, []);
    }
  }

  lemma ReplayCallKeepsExact<T>(s: State<T>, i: nat, k: nat)
    requires Replaying(s, i, k) && AllExact(s, [], i) && k < |s.buffer|
    ensures
      var t := s.(calls := s.calls + [Call(Listed(s.subscriptions[i].observer, i), s.buffer[k])]);
      Replaying(t, i, k + 1) && AllExact(t, [], i)
  {
    var c := Call(Listed(s.subscriptions[i].observer, i), s.buffer[k]);
    var t := s.(calls := s.calls + [c]);
    forall l | Matches(s, l) ensures Matches(t, l) {}
    ReceivedAppend(s.calls, c, i);
    assert s.buffer[..k + 1] == s.buffer[..k] + [s.buffer[k]];
    forall j | 0 <= j < |t.subscriptions| && j != i ensures Exact(t, j, []) {
      assert Exact(s, j, []);
      ReceivedAppend(s.calls, c, j);
    }
  }

  lemma ClosedReplayEnds<T>(s: State<T>, i: nat, k: nat, react: Reactions)
    requires Replaying(s, i, k) && AllExact(s, [], i) && s.subscriptions[i].closed
    ensures AllExact(ReplayFrom(s, i, k, react), [], -1)
  {
    var t := ReplayFrom(s, i, k, react);
    MatchesStill(s, t, []);
    forall j | 0 <= j < |t.subscriptions| ensures Exact(t, j, []) {
      if j == i {
        var start := FirstRetained(s);
        assert s.log[start..start + k] == s.buffer[..k];
      } else {
        assert Exact(s, j, []);
      }
    }
  }

  lemma JoinedIsExact<T>(s: State<T>, i: nat)
    requires Replaying(s, i, |s.buffer|) && !s.subscriptions[i].closed
    ensures Exact(s.(observers := s.observers + [Listed(s.subscriptions[i].observer, i)]), i, [])
  {
    OccurrencesAppend(s.observers, Listed(s.subscriptions[i].observer, i), i);
    assert s.buffer[..|s.buffer|] == s.log[FirstRetained(s)..|s.log|];
  }

  lemma OthersStayExact<T>(s: State<T>, i: nat, j: nat)
    requires i < |s.subscriptions| && j < |s.subscriptions| && i != j && Exact(s, j, [])
    ensures Exact(s.(observers := s.observers + [Listed(s.subscriptions[i].observer, i)]), j, [])
  {
    OccurrencesAppend(s.observers, Listed(s.subscriptions[i].observer, i), j);
  }

  lemma OpenReplayEnds<T>(s: State<T>, i: nat, react: Reactions)
    requires Replaying(s, i, |s.buffer|) && AllExact(s, [], i) && !s.subscriptions[i].closed
    ensures AllExact(ReplayFrom(s, i, |s.buffer|, react), [], -1)
  {
    var t := ReplayFrom(s, i, |s.buffer|, react);
    forall l | Matches(s, l) ensures Matches(t, l) {}
    assert Matches(t, Listed(s.subscriptions[i].observer, i));
    forall j | 0 <= j < |t.subscriptions| ensures Exact(t, j, []) {
      if j == i {
        JoinedIsExact(s, i);
      } else {
        OthersStayExact(s, i, j);
      }
    }
  }

  lemma {:induction false} ReplayIsExact<T>(s: State<T>, i: nat, k: nat, react: Reactions)
    requires Replaying(s, i, k) && AllExact(s, [], i)
    ensures AllExact(ReplayFrom(s, i, k, react), [], -1)
    ensures ReplayFrom(s, i, k, react).buffer == s.buffer && ReplayFrom(s, i, k, react).log == s.log
    decreases |s.buffer| - k
  {
    var sub := s.subscriptions[i];
    if sub.closed {
      ClosedReplayEnds(s, i, k, react);
    } else if k < |s.buffer| {
      ReplayCallKeepsExact(s, i, k);
      var listed := Listed(sub.observer, i);
      var called := s.(calls := s.calls + [Call(listed, s.buffer[k])]);
      ReactKeepsExact(called, react(|s.calls|), [], i);
      ReactKeepsReplaying(called, react(|s.calls|), i, k + 1);
      ReplayIsExact(CallObserver(s, listed, s.buffer[k], react), i, k + 1, react);
    } else {
      OpenReplayEnds(s, i, react);
    }
  }

  // ---- Microtasks -----------------------------------------------------------------------------------

  ghost predicate Queued<T>(s: State<T>, i: nat) {
    exists k | 0 <= k < |s.microtasks| :: s.microtasks[k] == Replay(i)
  }

  /** The queued replays are those of the subscriptions that have not joined, oldest first. */
  ghost predicate TasksMatch<T>(s: State<T>) {
    && (forall k | 0 <= k < |s.microtasks| && s.microtasks[k].Replay? ::
          s.microtasks[k].subscription < |s.subscriptions| && s.subscriptions[s.microtasks[k].subscription].from.None?)
    && (forall k, l | 0 <= k < l < |s.microtasks| && s.microtasks[k].Replay? && s.microtasks[l].Replay? ::
          s.microtasks[k].subscription < s.microtasks[l].subscription)
    && (forall i | 0 <= i < |s.subscriptions| && s.subscriptions[i].from.None? :: Queued(s, i))
    && SilencersMatch(s.subscriptions)
  }

  /** Only the closing of another subscription with the same function silences a subscription. */
  ghost predicate SilencedByOther(subscriptions: seq<Subscription>, i: nat)
    requires i < |subscriptions|
  {
    subscriptions[i].silenced.Some? ==>
      var j := subscriptions[i].silenced.value.closer;
      && j != i && j < |subscriptions| && subscriptions[j].closed
      && subscriptions[j].observer == subscriptions[i].observer
  }

  ghost predicate SilencersMatch(subscriptions: seq<Subscription>) {
    forall i | 0 <= i < |subscriptions| :: SilencedByOther(subscriptions, i)
  }

  lemma SilencersStill(before: seq<Subscription>, after: seq<Subscription>)
    requires SilencersMatch(before) && |before| <= |after|
    requires forall k | 0 <= k < |before| ::
               && after[k].observer == before[k].observer && after[k].silenced == before[k].silenced
               && (before[k].closed ==> after[k].closed)
    requires forall k | |before| <= k < |after| :: after[k].silenced.None?
    ensures SilencersMatch(after)
  {
    forall i | 0 <= i < |after| ensures SilencedByOther(after, i) {
      if i < |before| {
        assert SilencedByOther(before, i);
      }
    }
  }

  lemma CloseKeepsSilencers<T>(s: State<T>, j: nat)
    requires j < |s.subscriptions| && SilencersMatch(s.subscriptions)
    ensures SilencersMatch(Close(s, j).subscriptions)
  {
    var after := Close(s, j).subscriptions;
    forall i | 0 <= i < |after| ensures SilencedByOther(after, i) {
      assert SilencedByOther(s.subscriptions, i);
      assert after[i] == AfterClose(s.subscriptions, s.observers, j, |s.log|, i);
      assert after[j] == AfterClose(s.subscriptions, s.observers, j, |s.log|, j);
    }
  }

  /** Joining, leaving and being silenced are final, except that the end of `replayed` is not known before its replay ends. */
  ghost predicate Later<T>(s: State<T>, t: State<T>, replayed: int) {
    && |s.subscriptions| <= |t.subscriptions|
    && forall i | 0 <= i < |s.subscriptions| ::
         var a, b := s.subscriptions[i], t.subscriptions[i];
         && a.observer == b.observer
         && (a.from.Some? ==> b.from == a.from)
         && (a.closed ==> b.closed) && (a.silenced.Some? ==> b.silenced == a.silenced)
         && (a.closed && a.from.Some? && i != replayed ==> b.until == a.until)
  }

  /** Same queue of unjoined subscriptions, or more. */
  ghost predicate Progress<T>(s: State<T>, t: State<T>, replayed: int) {
    Later(s, t, replayed) && TasksMatch(t)
  }

  lemma QueuedAppend<T>(s: State<T>, t: State<T>, task: Task)
    requires t.microtasks == s.microtasks + [task]
    ensures forall i | Queued(s, i) :: Queued(t, i)
    ensures task.Replay? ==> Queued(t, task.subscription)
  {
    forall i | Queued(s, i) ensures Queued(t, i) {
      var k :| 0 <= k < |s.microtasks| && s.microtasks[k] == Replay(i);
      assert t.microtasks[k] == Replay(i);
    }
    assert t.microtasks[|s.microtasks|] == task;
  }

  lemma CloseProgress<T>(s: State<T>, j: nat)
    requires TasksMatch(s) && j < |s.subscriptions|
    ensures Progress(s, Close(s, j), -1)
  {
    var t := Close(s, j);
    assert forall i | Queued(s, i) :: Queued(t, i);
    CloseKeepsSilencers(s, j);
  }

  lemma SubscribeProgress<T>(s: State<T>, f: nat)
    requires TasksMatch(s)
    ensures Progress(s, AddSubscription(s, f), -1)
  {
    var t := AddSubscription(s, f);
    QueuedAppend(s, t, Replay(|s.subscriptions|));
    SilencersStill(s.subscriptions, t.subscriptions);
  }

  lemma ReactOnceProgress<T>(s: State<T>, r: Reaction)
    requires TasksMatch(s)
    ensures Progress(s, ReactOnce(s, r), -1)
  {
    match r
    case ReactUnsubscribe(j) =>
      if j < |s.subscriptions| {
        CloseProgress(s, j);
      }
    case ReactSubscribe(f) => SubscribeProgress(s, f);
    case ReactUnbuffer => QueuedAppend(s, ReactOnce(s, r), DropBuffer);
  }

  lemma {:induction false} ReactProgress<T>(s: State<T>, rs: seq<Reaction>)
    requires TasksMatch(s)
    ensures Progress(s, React(s, rs), -1)
    decreases |rs|
  {
    if rs != [] {
      ReactOnceProgress(s, rs[0]);
      ReactProgress(ReactOnce(s, rs[0]), rs[1..]);
    }
  }

  lemma CallProgress<T>(s: State<T>, listed: Listed, data: T, react: Reactions)
    requires TasksMatch(s)
    ensures Progress(s, CallObserver(s, listed, data, react), -1)
  {
    var called := s.(calls := s.calls + [Call(listed, data)]);
    assert forall i | Queued(s, i) :: Queued(called, i);
    ReactProgress(called, react(|s.calls|));
  }

  lemma {:induction false} DeliverProgress<T>(s: State<T>, observers: seq<Listed>, data: T, react: Reactions)
    requires TasksMatch(s)
    ensures Progress(s, Deliver(s, observers, data, react), -1)
    decreases |observers|
  {
    if observers != [] {
      CallProgress(s, observers[0], data, react);
      DeliverProgress(CallObserver(s, observers[0], data, react), observers[1..], data, react);
    }
  }

  lemma {:induction false} ReplayProgress<T>(s: State<T>, i: nat, k: nat, react: Reactions)
    requires TasksMatch(s) && i < |s.subscriptions| && k <= |s.buffer| && s.subscriptions[i].from.Some?
    ensures Progress(s, ReplayFrom(s, i, k, react), i)
    decreases |s.buffer| - k
  {
    var sub := s.subscriptions[i];
    if !sub.closed && k < |s.buffer| {
      CallProgress(s, Listed(sub.observer, i), s.buffer[k], react);
      ReplayProgress(CallObserver(s, Listed(sub.observer, i), s.buffer[k], react), i, k + 1, react);
    } else {
      assert forall j | Queued(s, j) :: Queued(ReplayFrom(s, i, k, react), j);
      SilencersStill(s.subscriptions, ReplayFrom(s, i, k, react).subscriptions);
    }
  }

  lemma PopProgress<T>(s: State<T>, popped: State<T>)
    requires TasksMatch(s) && s.microtasks != [] && s.microtasks[0].DropBuffer?
    requires popped.microtasks == s.microtasks[1..] && popped.subscriptions == s.subscriptions
    ensures Progress(s, popped, -1)
  {
    forall i | Queued(s, i) ensures Queued(popped, i) {
      var k :| 0 <= k < |s.microtasks| && s.microtasks[k] == Replay(i);
      assert popped.microtasks[k - 1] == Replay(i);
    }
  }

  lemma JoinProgress<T>(s: State<T>, i: nat)
    requires TasksMatch(s) && s.microtasks != [] && s.microtasks[0] == Replay(i)
    ensures i < |s.subscriptions| && s.subscriptions[i].from.None?
    ensures Progress(s, Join(s.(microtasks := s.microtasks[1..]), i), -1)
  {
    var t := Join(s.(microtasks := s.microtasks[1..]), i);
    SilencersStill(s.subscriptions, t.subscriptions);
    forall j | Queued(s, j) && j != i ensures Queued(t, j) {
      var k :| 0 <= k < |s.microtasks| && s.microtasks[k] == Replay(j);
      assert t.microtasks[k - 1] == Replay(j);
    }
    forall k | 0 <= k < |t.microtasks| && t.microtasks[k].Replay?
      ensures t.microtasks[k].subscription < |t.subscriptions| && t.subscriptions[t.microtasks[k].subscription].from.None?
    {
      assert t.microtasks[k] == s.microtasks[k + 1];
    }
  }

  // ---- Every run ------------------------------------------------------------------------------------

  ghost predicate Inv<T>(s: State<T>, capacity: nat) {
    Retained(s, capacity) && AllExact(s, [], -1) && TasksMatch(s)
  }

  lemma PushProgress<T>(s: State<T>, data: T)
    requires TasksMatch(s)
    ensures Progress(s, Push(s, data), -1)
  {
    var t := Push(s, data);
    assert forall i | Queued(s, i) :: Queued(t, i);
  }

  lemma LaterTransitive<T>(s: State<T>, t: State<T>, u: State<T>)
    requires Later(s, t, -1) && Later(t, u, -1)
    ensures Later(s, u, -1)
  {}

  lemma RetainedByBuffer<T>(s: State<T>, t: State<T>, capacity: nat)
    requires Retained(s, capacity) && t.buffer == s.buffer && t.log == s.log
    requires t.maxBufferSize == s.maxBufferSize && t.droppedCount == s.droppedCount
    ensures Retained(t, capacity)
  {}

  lemma NotifyProgress<T>(s: State<T>, data: T, react: Reactions)
    requires TasksMatch(s)
    ensures Progress(s, Step(s, Notify(data), react), -1)
  {
    var pushed := Push(s, data);
    PushProgress(s, data);
    DeliverProgress(pushed, s.observers, data, react);
    LaterTransitive(s, pushed, Deliver(pushed, s.observers, data, react));
  }

  lemma NotifyKeepsInv<T>(s: State<T>, data: T, capacity: nat, react: Reactions)
    requires Inv(s, capacity)
    ensures Inv(Step(s, Notify(data), react), capacity) && Later(s, Step(s, Notify(data), react), -1)
  {
    var pushed := Push(s, data);
    PushKeepsRetained(s, data, capacity);
    PushMakesDue(s, data);
    DeliverKeepsExact(pushed, s.observers, data, react);
    NotifyProgress(s, data, react);
    DeliverKeepsBuffer(pushed, s.observers, data, react);
    RetainedByBuffer(pushed, Deliver(pushed, s.observers, data, react), capacity);
  }

  lemma ReactionKeepsInv<T>(s: State<T>, r: Reaction, capacity: nat)
    requires Inv(s, capacity)
    ensures Inv(ReactOnce(s, r), capacity) && Later(s, ReactOnce(s, r), -1)
  {
    ReactOnceKeepsExact(s, r, [], -1);
    ReactOnceProgress(s, r);
    RetainedByBuffer(s, ReactOnce(s, r), capacity);
  }

  lemma {:induction false} ReactKeepsBuffer<T>(s: State<T>, rs: seq<Reaction>)
    ensures React(s, rs).maxBufferSize == s.maxBufferSize && React(s, rs).droppedCount == s.droppedCount
    ensures React(s, rs).dropReports == s.dropReports
    decreases |rs|
  {
    if rs != [] {
      ReactKeepsBuffer(ReactOnce(s, rs[0]), rs[1..]);
    }
  }

  lemma {:induction false} DeliverKeepsBuffer<T>(s: State<T>, observers: seq<Listed>, data: T, react: Reactions)
    ensures
      var t := Deliver(s, observers, data, react);
      && t.buffer == s.buffer && t.log == s.log && t.maxBufferSize == s.maxBufferSize
      && t.droppedCount == s.droppedCount && t.dropReports == s.dropReports
    decreases |observers|
  {
    if observers != [] {
      ReactKeepsBuffer(s.(calls := s.calls + [Call(observers[0], data)]), react(|s.calls|));
      DeliverKeepsBuffer(CallObserver(s, observers[0], data, react), observers[1..], data, react);
    }
  }

  lemma {:induction false} ReplayKeepsBuffer<T>(s: State<T>, i: nat, k: nat, react: Reactions)
    requires i < |s.subscriptions| && k <= |s.buffer|
    ensures
      var t := ReplayFrom(s, i, k, react);
      && t.buffer == s.buffer && t.log == s.log && t.maxBufferSize == s.maxBufferSize
      && t.droppedCount == s.droppedCount && t.dropReports == s.dropReports
    decreases |s.buffer| - k
  {
    var sub := s.subscriptions[i];
    if !sub.closed && k < |s.buffer| {
      ReactKeepsBuffer(s.(calls := s.calls + [Call(Listed(sub.observer, i), s.buffer[k])]), react(|s.calls|));
      ReplayKeepsBuffer(CallObserver(s, Listed(sub.observer, i), s.buffer[k], react), i, k + 1, react);
    }
  }

  lemma AllExactIgnoresTasks<T>(s: State<T>, t: State<T>)
    requires AllExact(s, [], -1) && t.subscriptions == s.subscriptions && t.observers == s.observers
    requires t.calls == s.calls && t.log == s.log
    ensures AllExact(t, [], -1)
  {
    MatchesStill(s, t, []);
    forall i | 0 <= i < |t.subscriptions| ensures Exact(t, i, []) {
      assert Exact(s, i, []);
    }
  }

  lemma LaterThroughReplay<T>(s: State<T>, joined: State<T>, t: State<T>, i: nat)
    requires Later(s, joined, -1) && Later(joined, t, i) && i < |s.subscriptions| && s.subscriptions[i].from.None?
    ensures Later(s, t, -1)
  {}

  /** What a replay microtask does, apart from what is received. */
  lemma ReplayTaskProgress<T>(s: State<T>, i: nat, react: Reactions)
    requires TasksMatch(s) && s.microtasks != [] && s.microtasks[0] == Replay(i)
    ensures
      var t := Step(s, RunMicrotask, react);
      && i < |s.subscriptions| <= |t.subscriptions| && s.subscriptions[i].from.None? && Progress(s, t, -1)
      && t.subscriptions[i].from == Some(FirstRetained(s))
  {
    var joined := Join(s.(microtasks := s.microtasks[1..]), i);
    var t := ReplayFrom(joined, i, 0, react);
    JoinProgress(s, i);
    ReplayProgress(joined, i, 0, react);
    LaterThroughReplay(s, joined, t, i);
  }

  lemma ReplayTaskIsReplay<T>(s: State<T>, i: nat, react: Reactions)
    requires s.microtasks != [] && s.microtasks[0] == Replay(i) && i < |s.subscriptions|
    ensures Step(s, RunMicrotask, react) == ReplayFrom(Join(s.(microtasks := s.microtasks[1..]), i), i, 0, react)
  {}

  lemma JoinedReplayIsExact<T>(rest: State<T>, i: nat, capacity: nat, react: Reactions)
    requires AllExact(rest, [], -1) && Retained(rest, capacity) && i < |rest.subscriptions| && rest.subscriptions[i].from.None?
    ensures AllExact(ReplayFrom(Join(rest, i), i, 0, react), [], -1)
  {
    JoinStartsReplay(rest, i);
    ReplayIsExact(Join(rest, i), i, 0, react);
  }

  lemma JoinedReplayKeepsBuffer<T>(rest: State<T>, i: nat, capacity: nat, react: Reactions)
    requires Retained(rest, capacity) && i < |rest.subscriptions|
    ensures Retained(ReplayFrom(Join(rest, i), i, 0, react), capacity)
  {
    ReplayKeepsBuffer(Join(rest, i), i, 0, react);
    RetainedByBuffer(rest, ReplayFrom(Join(rest, i), i, 0, react), capacity);
  }

  lemma ReplayTaskKeepsExact<T>(s: State<T>, i: nat, capacity: nat, react: Reactions)
    requires AllExact(s, [], -1) && Retained(s, capacity) && s.microtasks != [] && s.microtasks[0] == Replay(i)
    requires i < |s.subscriptions| && s.subscriptions[i].from.None?
    ensures AllExact(Step(s, RunMicrotask, react), [], -1) && Retained(Step(s, RunMicrotask, react), capacity)
  {
    var rest := s.(microtasks := s.microtasks[1..]);
    AllExactIgnoresTasks(s, rest);
    RetainedByBuffer(s, rest, capacity);
    ReplayTaskIsReplay(s, i, react);
    JoinedReplayIsExact(rest, i, capacity, react);
    JoinedReplayKeepsBuffer(rest, i, capacity, react);
  }

  lemma ReplayKeepsInv<T>(s: State<T>, i: nat, capacity: nat, react: Reactions)
    requires Inv(s, capacity) && s.microtasks != [] && s.microtasks[0] == Replay(i)
    ensures Inv(Step(s, RunMicrotask, react), capacity) && Later(s, Step(s, RunMicrotask, react), -1)
  {
    ReplayTaskProgress(s, i, react);
    ReplayTaskKeepsExact(s, i, capacity, react);
  }

  lemma DropKeepsInv<T>(s: State<T>, capacity: nat, react: Reactions)
    requires Inv(s, capacity) && s.microtasks != [] && s.microtasks[0] == DropBuffer
    ensures Inv(Step(s, RunMicrotask, react), capacity) && Later(s, Step(s, RunMicrotask, react), -1)
  {
    var t := Drop(s.(microtasks := s.microtasks[1..]));
    AllExactIgnoresTasks(s, t);
    PopProgress(s, t);
  }

  lemma MicrotaskKeepsInv<T>(s: State<T>, capacity: nat, react: Reactions)
    requires Inv(s, capacity)
    ensures Inv(Step(s, RunMicrotask, react), capacity) && Later(s, Step(s, RunMicrotask, react), -1)
  {
    if s.microtasks != [] {
      match s.microtasks[0]
      case Replay(i) => ReplayKeepsInv(s, i, capacity, react);
      case DropBuffer => DropKeepsInv(s, capacity, react);
    }
  }

  lemma StepKeepsInv<T>(s: State<T>, a: Action<T>, capacity: nat, react: Reactions)
    requires Inv(s, capacity)
    ensures Inv(Step(s, a, react), capacity) && Later(s, Step(s, a, react), -1)
  {
    match a
    case Notify(data) => NotifyKeepsInv(s, data, capacity, react);
    case Subscribe(f) => ReactionKeepsInv(s, ReactSubscribe(f), capacity);
    case Unsubscribe(i) => ReactionKeepsInv(s, ReactUnsubscribe(i), capacity);
    case Unbuffer => ReactionKeepsInv(s, ReactUnbuffer, capacity);
    case RunMicrotask => MicrotaskKeepsInv(s, capacity, react);
  }

  lemma {:induction false} RunKeepsInv<T>(actions: seq<Action<T>>, capacity: nat, react: Reactions)
    ensures Inv(Run(Init<T>(capacity), actions, react), capacity)
  {
    if actions != [] {
      var before := actions[..|actions| - 1];
      RunKeepsInv(before, capacity, react);
      StepKeepsInv(Run(Init<T>(capacity), before, react), actions[|actions| - 1], capacity, react);
    }
  }

  // ---- Theorems -------------------------------------------------------------------------------------

  /** In every run a subscriber receives one contiguous slice of the notifications, in order, once each;
      nothing before its microtask. */
  lemma SubscriberReceivesASlice<T>(actions: seq<Action<T>>, capacity: nat, react: Reactions, i: nat)
    requires i < |Run(Init<T>(capacity), actions, react).subscriptions|
    ensures
      var s := Run(Init<T>(capacity), actions, react);
      var sub := s.subscriptions[i];
      if sub.from.None? then Received(s.calls, i) == []
      else
        && sub.from.value <= Heard(s, sub) <= End(s, sub) <= |s.log|
        && Received(s.calls, i) == s.log[sub.from.value..Heard(s, sub)]
  {
    RunKeepsInv(actions, capacity, react);
    assert Exact(Run(Init<T>(capacity), actions, react), i, []);
  }

  /** The slice extends to the last notification before the subscription was closed, if and only if it was not
      silenced, or nothing was notified after that. */
  lemma SliceIsWholeIffHeard<T>(actions: seq<Action<T>>, capacity: nat, react: Reactions, i: nat)
    requires
      var s := Run(Init<T>(capacity), actions, react);
      i < |s.subscriptions| && s.subscriptions[i].from.Some?
    ensures
      var s := Run(Init<T>(capacity), actions, react);
      var sub := s.subscriptions[i];
      && sub.from.value <= End(s, sub) <= |s.log|
      && (Received(s.calls, i) == s.log[sub.from.value..End(s, sub)] <==>
            sub.silenced.None? || sub.silenced.value.at == End(s, sub))
  {
    SubscriberReceivesASlice(actions, capacity, react, i);
    var s := Run(Init<T>(capacity), actions, react);
    var sub := s.subscriptions[i];
    assert |s.log[sub.from.value..End(s, sub)]| == End(s, sub) - sub.from.value;
    assert |s.log[sub.from.value..Heard(s, sub)]| == Heard(s, sub) - sub.from.value;
  }

  /** A subscription is silenced only by another one that has the same function and was closed. So whoever
      shares its function with open subscriptions only, or with none, receives the whole slice. */
  lemma SilencersShareTheFunction<T>(actions: seq<Action<T>>, capacity: nat, react: Reactions, i: nat)
    requires i < |Run(Init<T>(capacity), actions, react).subscriptions|
    ensures
      var s := Run(Init<T>(capacity), actions, react);
      s.subscriptions[i].silenced.Some? ==>
        var j := s.subscriptions[i].silenced.value.closer;
        && j != i && j < |s.subscriptions| && s.subscriptions[j].closed
        && s.subscriptions[j].observer == s.subscriptions[i].observer
  {
    RunKeepsInv(actions, capacity, react);
    assert SilencedByOther(Run(Init<T>(capacity), actions, react).subscriptions, i);
  }

  /** Closing a subscription silences exactly the others with its function that have joined and are still
      listening; where a notification is being delivered, and `pending` observers are left to be called, too. */
  lemma ClosingSilencesExactly<T>(s: State<T>, j: nat, i: nat, pending: seq<Listed>, except: int)
    requires AllExact(s, pending, except) && i < |s.subscriptions| && j < |s.subscriptions| && i != j && i != except
    ensures
      var sub := s.subscriptions[i];
      var listening := sub.from.Some? && !sub.closed && sub.silenced.None?;
      Close(s, j).subscriptions[i] ==
      if listening && sub.observer == s.subscriptions[j].observer then sub.(silenced := Some(Silence(|s.log|, j))) else sub
  {
    assert Exact(s, i, pending);
    ListedOccurs(s.observers, i);
    assert Close(s, j).subscriptions[i] == AfterClose(s.subscriptions, s.observers, j, |s.log|, i);
  }

  lemma UnsubscribeSilencesExactly<T>(actions: seq<Action<T>>, capacity: nat, react: Reactions, j: nat, i: nat)
    requires
      var s := Run(Init<T>(capacity), actions, react);
      i < |s.subscriptions| && j < |s.subscriptions| && i != j
    ensures
      var s := Run(Init<T>(capacity), actions, react);
      var t := Step(s, Unsubscribe(j), react);
      var sub := s.subscriptions[i];
      var listening := sub.from.Some? && !sub.closed && sub.silenced.None?;
      && |t.subscriptions| == |s.subscriptions|
      && t.subscriptions[i] ==
         if listening && sub.observer == s.subscriptions[j].observer then sub.(silenced := Some(Silence(|s.log|, j))) else sub
  {
    RunKeepsInv(actions, capacity, react);
    ClosingSilencesExactly(Run(Init<T>(capacity), actions, react), j, i, [], -1);
  }

  // ---- Who is called --------------------------------------------------------------------------------

  lemma {:induction false} DeliverCallsThePending<T>(s: State<T>, pending: seq<Listed>, data: T, react: Reactions, i: nat)
    requires Occurrences(pending, i) <= 1
    ensures Received(Deliver(s, pending, data, react).calls, i) ==
            Received(s.calls, i) + if Occurrences(pending, i) == 1 then [data] else []
    decreases |pending|
  {
    if pending != [] {
      ReceivedAppend(s.calls, Call(pending[0], data), i);
      DeliverCallsThePending(CallObserver(s, pending[0], data, react), pending[1..], data, react, i);
      assert [data] + [] == [data];
    }
  }

  /** A notification reaches every subscription that listens when it comes, once, and no other. */
  lemma NotificationsReachTheListening<T>(actions: seq<Action<T>>, capacity: nat, react: Reactions, data: T, i: nat)
    requires i < |Run(Init<T>(capacity), actions, react).subscriptions|
    ensures
      var s := Run(Init<T>(capacity), actions, react);
      var sub := s.subscriptions[i];
      var listening := sub.from.Some? && !sub.closed && sub.silenced.None?;
      Received(Step(s, Notify(data), react).calls, i) == Received(s.calls, i) + if listening then [data] else []
  {
    RunKeepsInv(actions, capacity, react);
    var s := Run(Init<T>(capacity), actions, react);
    assert Exact(s, i, []);
    DeliverCallsThePending(Push(s, data), s.observers, data, react, i);
  }

  lemma {:induction false} ReplayCallsItsOwn<T>(s: State<T>, j: nat, k: nat, react: Reactions, i: nat)
    requires j < |s.subscriptions| && k <= |s.buffer| && (i != j || s.subscriptions[j].closed)
    ensures Received(ReplayFrom(s, j, k, react).calls, i) == Received(s.calls, i)
    decreases |s.buffer| - k
  {
    var sub := s.subscriptions[j];
    if !sub.closed && k < |s.buffer| {
      ReceivedAppend(s.calls, Call(Listed(sub.observer, j), s.buffer[k]), i);
      ReplayCallsItsOwn(CallObserver(s, Listed(sub.observer, j), s.buffer[k], react), j, k + 1, react, i);
    }
  }

  /** A closed subscription receives nothing, whatever happens; in particular its replay, if it is still to
      come, delivers nothing. */
  lemma ClosedReceivesNothing<T>(actions: seq<Action<T>>, capacity: nat, react: Reactions, a: Action<T>, i: nat)
    requires
      var s := Run(Init<T>(capacity), actions, react);
      i < |s.subscriptions| && s.subscriptions[i].closed
    ensures
      var s := Run(Init<T>(capacity), actions, react);
      Received(Step(s, a, react).calls, i) == Received(s.calls, i)
  {
    var s := Run(Init<T>(capacity), actions, react);
    match a
    case Notify(data) => NotificationsReachTheListening(actions, capacity, react, data, i);
    case RunMicrotask =>
      if s.microtasks != [] && s.microtasks[0].Replay? && s.microtasks[0].subscription < |s.subscriptions| {
        var j := s.microtasks[0].subscription;
        ReplayCallsItsOwn(Join(s.(microtasks := s.microtasks[1..]), j), j, 0, react, i);
      }
    case _ =>
  }

  /** Some reactions close a subscription exactly if they unsubscribe it. */
  lemma {:induction false} ReactCloses<T>(s: State<T>, rs: seq<Reaction>, i: nat)
    requires i < |s.subscriptions|
    ensures |React(s, rs).subscriptions| >= |s.subscriptions|
    ensures React(s, rs).subscriptions[i].observer == s.subscriptions[i].observer
    ensures React(s, rs).subscriptions[i].closed <==> s.subscriptions[i].closed || ReactUnsubscribe(i) in rs
    decreases |rs|
  {
    if rs != [] {
      var t := ReactOnce(s, rs[0]);
      if rs[0].ReactUnsubscribe? && rs[0].subscription < |s.subscriptions| {
        assert t.subscriptions[i] == AfterClose(s.subscriptions, s.observers, rs[0].subscription, |s.log|, i);
      }
      ReactCloses(t, rs[1..], i);
      assert ReactUnsubscribe(i) in rs <==> rs[0] == ReactUnsubscribe(i) || ReactUnsubscribe(i) in rs[1..];
    }
  }

  /** The observer unsubscribes the i-th subscription in the n-th call. */
  ghost predicate Leaves(react: Reactions, i: nat, n: nat) {
    ReactUnsubscribe(i) in react(n)
  }

  /** Of `total` notifications, delivered from the call `first` on, those up to the one at which the
      subscription is closed. */
  ghost predicate StopsAfter(react: Reactions, i: nat, first: nat, total: nat, done: int) {
    && 0 <= done <= total
    && (forall n: nat | first <= n < first + done - 1 :: !Leaves(react, i, n))
    && (done < total ==> done > 0 && Leaves(react, i, first + done - 1))
  }

  /** The next call of a replay. */
  function NextCall<T>(s: State<T>, i: nat, k: nat, react: Reactions): State<T>
    requires i < |s.subscriptions| && k < |s.buffer|
  {
    CallObserver(s, Listed(s.subscriptions[i].observer, i), s.buffer[k], react)
  }

  lemma NextCallIs<T>(s: State<T>, i: nat, k: nat, react: Reactions)
    requires i < |s.subscriptions| && !s.subscriptions[i].closed && k < |s.buffer|
    ensures
      var u := NextCall(s, i, k, react);
      && |u.subscriptions| >= |s.subscriptions| && u.buffer == s.buffer && |u.calls| == |s.calls| + 1
      && ReplayFrom(s, i, k, react) == ReplayFrom(u, i, k + 1, react)
      && Received(u.calls, i) == Received(s.calls, i) + [s.buffer[k]]
      && (u.subscriptions[i].closed <==> Leaves(react, i, |s.calls|))
  {
    var call := Call(Listed(s.subscriptions[i].observer, i), s.buffer[k]);
    ReceivedAppend(s.calls, call, i);
    ReactCloses(s.(calls := s.calls + [call]), react(|s.calls|), i);
  }

  lemma ClosedReplayStops<T>(s: State<T>, i: nat, k: nat, react: Reactions)
    requires i < |s.subscriptions| && s.subscriptions[i].closed && k <= |s.buffer|
    ensures ReplayFrom(s, i, k, react).calls == s.calls
  {}

  lemma OneMoreReplayed<T>(received: seq<T>, buffer: seq<T>, k: nat, later: nat)
    requires k + 1 + later <= |buffer|
    ensures received + [buffer[k]] + buffer[k + 1..k + 1 + later] == received + buffer[k..k + (1 + later)]
  {
    assert [buffer[k]] + buffer[k + 1..k + 1 + later] == buffer[k..k + (1 + later)];
  }

  lemma OneMoreBeforeStop(react: Reactions, i: nat, first: nat, total: nat, later: nat)
    requires !Leaves(react, i, first) && StopsAfter(react, i, first + 1, total, later)
    ensures StopsAfter(react, i, first, total + 1, 1 + later)
  {}

  /** What a replay does from its k-th notification on. */
  ghost predicate ReplaysUpTo<T>(s: State<T>, t: State<T>, i: nat, k: nat, react: Reactions, done: nat)
    requires k <= |s.buffer|
  {
    && |t.calls| == |s.calls| + done
    && StopsAfter(react, i, |s.calls|, |s.buffer| - k, done)
    && Received(t.calls, i) == Received(s.calls, i) + s.buffer[k..k + done]
  }

  lemma ReplaysOneMore<T>(s: State<T>, u: State<T>, t: State<T>, i: nat, k: nat, react: Reactions, later: nat)
    requires k < |s.buffer| && u.buffer == s.buffer && |u.calls| == |s.calls| + 1
    requires Received(u.calls, i) == Received(s.calls, i) + [s.buffer[k]] && !Leaves(react, i, |s.calls|)
    requires ReplaysUpTo(u, t, i, k + 1, react, later)
    ensures ReplaysUpTo(s, t, i, k, react, 1 + later)
  {
    OneMoreReplayed(Received(s.calls, i), s.buffer, k, later);
    OneMoreBeforeStop(react, i, |s.calls|, |s.buffer| - k - 1, later);
  }

  lemma ReplaysNoMore<T>(s: State<T>, u: State<T>, i: nat, k: nat, react: Reactions)
    requires k < |s.buffer| && |u.calls| == |s.calls| + 1
    requires Received(u.calls, i) == Received(s.calls, i) + [s.buffer[k]] && Leaves(react, i, |s.calls|)
    ensures ReplaysUpTo(s, u, i, k, react, 1)
  {
    assert s.buffer[k..k + 1] == [s.buffer[k]];
  }

  lemma CallsDecide<T>(s: State<T>, t: State<T>, u: State<T>, i: nat, k: nat, react: Reactions, done: nat)
    requires k <= |s.buffer| && ReplaysUpTo(s, t, i, k, react, done) && u.calls == t.calls
    ensures ReplaysUpTo(s, u, i, k, react, done)
  {}

  lemma {:induction false} ReplayStops<T>(s: State<T>, i: nat, k: nat, react: Reactions) returns (done: nat)
    requires i < |s.subscriptions| && !s.subscriptions[i].closed && k <= |s.buffer|
    ensures ReplaysUpTo(s, ReplayFrom(s, i, k, react), i, k, react, done)
    decreases |s.buffer| - k
  {
    if k == |s.buffer| {
      done := 0;
    } else {
      var u := NextCall(s, i, k, react);
      NextCallIs(s, i, k, react);
      if u.subscriptions[i].closed {
        ClosedReplayStops(u, i, k + 1, react);
        ReplaysNoMore(s, u, i, k, react);
        CallsDecide(s, u, ReplayFrom(u, i, k + 1, react), i, k, react, 1);
        done := 1;
      } else {
        var later := ReplayStops(u, i, k + 1, react);
        ReplaysOneMore(s, u, ReplayFrom(u, i, k + 1, react), i, k, react, later);
        done := 1 + later;
      }
    }
  }

  lemma ReplayTaskStops<T>(s: State<T>, i: nat, react: Reactions)
    requires i < |s.subscriptions| && !s.subscriptions[i].closed && Received(s.calls, i) == []
    requires s.microtasks != [] && s.microtasks[0] == Replay(i)
    ensures
      var t := Step(s, RunMicrotask, react);
      && |s.calls| <= |t.calls|
      && var done := |t.calls| - |s.calls|;
         StopsAfter(react, i, |s.calls|, |s.buffer|, done) && Received(t.calls, i) == s.buffer[..done]
  {
    var joined := Join(s.(microtasks := s.microtasks[1..]), i);
    var done := ReplayStops(joined, i, 0, react);
    assert [] + s.buffer[0..done] == s.buffer[..done];
    assert Step(s, RunMicrotask, react) == ReplayFrom(joined, i, 0, react);
  }

  /** A replay delivers the buffer from its start, up to the notification in reaction to which the subscription
      is closed, and all of it if it never is. */
  lemma ReplayStopsWhenClosed<T>(actions: seq<Action<T>>, capacity: nat, react: Reactions, i: nat)
    requires
      var s := Run(Init<T>(capacity), actions, react);
      s.microtasks != [] && s.microtasks[0] == Replay(i) && (i < |s.subscriptions| ==> !s.subscriptions[i].closed)
    ensures
      var s := Run(Init<T>(capacity), actions, react);
      var t := Step(s, RunMicrotask, react);
      && |s.calls| <= |t.calls|
      && var done := |t.calls| - |s.calls|;
         StopsAfter(react, i, |s.calls|, |s.buffer|, done) && Received(t.calls, i) == s.buffer[..done]
  {
    RunKeepsInv(actions, capacity, react);
    var s := Run(Init<T>(capacity), actions, react);
    assert Exact(s, i, []);
    ReplayTaskStops(s, i, react);
  }

  /** The slice starts with the last `capacity` notifications, unless the buffer has been dropped. */
  lemma ReplayStartsAtTheBuffer<T>(actions: seq<Action<T>>, capacity: nat, react: Reactions, i: nat)
    requires
      var s := Run(Init<T>(capacity), actions, react);
      s.microtasks != [] && s.microtasks[0] == Replay(i)
    ensures
      var s := Run(Init<T>(capacity), actions, react);
      var t := Step(s, RunMicrotask, react);
      && i < |s.subscriptions| <= |t.subscriptions| && s.subscriptions[i].from.None? && t.log == s.log
      && t.subscriptions[i].from ==
         Some(if s.maxBufferSize == 0 then |s.log| else if |s.log| <= capacity then 0 else |s.log| - capacity)
  {
    RunKeepsInv(actions, capacity, react);
    var s := Run(Init<T>(capacity), actions, react);
    ReplayTaskProgress(s, i, react);
    ReplayKeepsBuffer(Join(s.(microtasks := s.microtasks[1..]), i), i, 0, react);
    FirstOfBuffer(s, capacity);
  }

  lemma FirstOfBuffer<T>(s: State<T>, capacity: nat)
    requires Retained(s, capacity)
    ensures FirstRetained(s) == if s.maxBufferSize == 0 then |s.log| else if |s.log| <= capacity then 0 else |s.log| - capacity
  {}

  /** Where the slice starts never changes, nor where it ends once the subscription is closed. */
  lemma WindowsAreFinal<T>(actions: seq<Action<T>>, capacity: nat, react: Reactions, a: Action<T>)
    ensures
      var s := Run(Init<T>(capacity), actions, react);
      Later(s, Step(s, a, react), -1)
  {
    RunKeepsInv(actions, capacity, react);
    StepKeepsInv(Run(Init<T>(capacity), actions, react), a, capacity, react);
  }

  /** Every subscription has joined once no microtask is left, and the oldest queued one joins first. */
  lemma MicrotasksJoinInOrder<T>(actions: seq<Action<T>>, capacity: nat, react: Reactions, i: nat)
    requires i < |Run(Init<T>(capacity), actions, react).subscriptions|
    ensures
      var s := Run(Init<T>(capacity), actions, react);
      && (s.microtasks == [] ==> s.subscriptions[i].from.Some?)
      && (s.microtasks != [] && s.microtasks[0].Replay? && s.subscriptions[i].from.None? ==>
            s.microtasks[0].subscription <= i)
  {
    RunKeepsInv(actions, capacity, react);
    var s := Run(Init<T>(capacity), actions, react);
    if s.subscriptions[i].from.None? {
      assert Queued(s, i);
    }
  }

  lemma DropStep<T>(s: State<T>, capacity: nat, react: Reactions)
    requires Retained(s, capacity) && s.microtasks != [] && s.microtasks[0] == DropBuffer
    ensures
      var t := Step(s, RunMicrotask, react);
      && t.buffer == [] && t.maxBufferSize == 0 && t.droppedCount == s.droppedCount
      && t.dropReports == (if s.droppedCount > 0 then s.dropReports + [s.droppedCount] else s.dropReports)
      && (s.maxBufferSize > 0 ==> s.droppedCount == if |s.log| > capacity then |s.log| - capacity else 0)
      && (s.maxBufferSize == 0 ==> |s.log| - capacity <= s.droppedCount <= |s.log|)
  {}

  lemma RetainedNow<T>(s: State<T>, capacity: nat)
    requires Inv(s, capacity)
    ensures Retained(s, capacity)
  {}

  /** Dropping the buffer reports the drops so far, if there are any. At the first time these are the
      notifications that no later subscriber could have received. Later on all notifications have been counted
      but for those that the first drop found in the buffer, at most `capacity`. */
  lemma DropReportsTheLoss<T>(actions: seq<Action<T>>, capacity: nat, react: Reactions)
    requires
      var s := Run(Init<T>(capacity), actions, react);
      s.microtasks != [] && s.microtasks[0] == DropBuffer
    ensures
      var s := Run(Init<T>(capacity), actions, react);
      var t := Step(s, RunMicrotask, react);
      && t.buffer == [] && t.maxBufferSize == 0 && t.droppedCount == s.droppedCount
      && t.dropReports == (if s.droppedCount > 0 then s.dropReports + [s.droppedCount] else s.dropReports)
      && (s.maxBufferSize > 0 ==> s.droppedCount == if |s.log| > capacity then |s.log| - capacity else 0)
      && (s.maxBufferSize == 0 ==> |s.log| - capacity <= s.droppedCount <= |s.log|)
  {
    RunKeepsInv(actions, capacity, react);
    RetainedNow(Run(Init<T>(capacity), actions, react), capacity);
    DropStep(Run(Init<T>(capacity), actions, react), capacity, react);
  }

  // ---- The queue of microtasks ----------------------------------------------------------------------

  predicate TasksExtend(before: seq<Task>, after: seq<Task>) {
    |before| <= |after| && after[..|before|] == before
  }

  lemma TasksTransitive(a: seq<Task>, b: seq<Task>, c: seq<Task>)
    requires TasksExtend(a, b) && TasksExtend(b, c)
    ensures TasksExtend(a, c)
  {
    assert c[..|a|] == c[..|b|][..|a|];
  }

  lemma {:induction false} ReactionsQueue<T>(s: State<T>, rs: seq<Reaction>)
    ensures TasksExtend(s.microtasks, React(s, rs).microtasks)
    decreases |rs|
  {
    if rs != [] {
      ReactionsQueue(ReactOnce(s, rs[0]), rs[1..]);
      TasksTransitive(s.microtasks, ReactOnce(s, rs[0]).microtasks, React(s, rs).microtasks);
    }
  }

  lemma {:induction false} ReplayQueues<T>(s: State<T>, i: nat, k: nat, react: Reactions)
    requires i < |s.subscriptions| && k <= |s.buffer|
    ensures TasksExtend(s.microtasks, ReplayFrom(s, i, k, react).microtasks)
    decreases |s.buffer| - k
  {
    if !s.subscriptions[i].closed && k < |s.buffer| {
      var call := Call(Listed(s.subscriptions[i].observer, i), s.buffer[k]);
      var u := CallObserver(s, call.listed, s.buffer[k], react);
      ReactionsQueue(s.(calls := s.calls + [call]), react(|s.calls|));
      ReplayQueues(u, i, k + 1, react);
      TasksTransitive(s.microtasks, u.microtasks, ReplayFrom(u, i, k + 1, react).microtasks);
    }
  }

  lemma MicrotasksRunInOrder<T>(s: State<T>, react: Reactions)
    requires s.microtasks != []
    ensures TasksExtend(s.microtasks[1..], Step(s, RunMicrotask, react).microtasks)
  {
    var rest := s.(microtasks := s.microtasks[1..]);
    if s.microtasks[0].Replay? && s.microtasks[0].subscription < |s.subscriptions| {
      ReplayQueues(Join(rest, s.microtasks[0].subscription), s.microtasks[0].subscription, 0, react);
    }
  }

  function RunMicrotasks<T>(s: State<T>, n: nat, react: Reactions): State<T>
    decreases n
  {
    if n == 0 then s else RunMicrotasks(Step(s, RunMicrotask, react), n - 1, react)
  }

  lemma {:induction false} QueuedDropRuns<T>(s: State<T>, n: nat, react: Reactions)
    requires n < |s.microtasks| && s.microtasks[n] == DropBuffer
    ensures
      var t := RunMicrotasks(s, n + 1, react);
      t.buffer == [] && t.maxBufferSize == 0
    decreases n
  {
    var next := Step(s, RunMicrotask, react);
    if n > 0 {
      MicrotasksRunInOrder(s, react);
      assert next.microtasks[n - 1] == s.microtasks[1..][n - 1];
      QueuedDropRuns(next, n - 1, react);
    } else {
      assert RunMicrotasks(s, 1, react) == RunMicrotasks(next, 0, react) == next;
    }
  }

  /** Unbuffering drops the buffer, after everything that was queued before it, so that earlier subscribers still
      get their replay. */
  lemma UnbufferDropsTheBuffer<T>(s: State<T>, react: Reactions)
    ensures
      var t := RunMicrotasks(Step(s, Unbuffer, react), |s.microtasks| + 1, react);
      t.buffer == [] && t.maxBufferSize == 0
  {
    QueuedDropRuns(Step(s, Unbuffer, react), |s.microtasks|, react);
  }

  /** Once dropped, the buffer stays empty, and every further notification is counted as a drop, whoever
      receives it. */
  lemma NothingIsKeptAfterDrop<T>(actions: seq<Action<T>>, capacity: nat, react: Reactions, a: Action<T>)
    requires Run(Init<T>(capacity), actions, react).maxBufferSize == 0 && capacity > 0
    ensures
      var s := Run(Init<T>(capacity), actions, react);
      var t := Step(s, a, react);
      && s.buffer == [] && t.buffer == [] && t.maxBufferSize == 0
      && t.droppedCount == s.droppedCount + if a.Notify? then 1 else 0
  {
    RunKeepsInv(actions, capacity, react);
    var s := Run(Init<T>(capacity), actions, react);
    match a
    case Notify(data) => DeliverKeepsBuffer(Push(s, data), s.observers, data, react);
    case RunMicrotask =>
      if s.microtasks != [] && s.microtasks[0].Replay? {
        var i := s.microtasks[0].subscription;
        JoinProgress(s, i);
        ReplayKeepsBuffer(Join(s.(microtasks := s.microtasks[1..]), i), i, 0, react);
      }
    case _ =>
  }

  /** A shared function goes silent: when two subscriptions use one and the first is closed, the second stays
      open and receives nothing more. */
  lemma SharedObserverGoesSilent<T>(f: nat, data: T, capacity: nat, react: Reactions)
    requires forall n :: react(n) == []
    ensures
      var actions := [Subscribe(f), Subscribe(f), RunMicrotask, RunMicrotask, Unsubscribe(0), Notify(data)];
      var s := Run(Init<T>(capacity), actions, react);
      && |s.subscriptions| == 2 && !s.subscriptions[1].closed && s.subscriptions[1].from == Some(0)
      && s.subscriptions[1].silenced == Some(Silence(0, 0))
      && s.log == [data] && Received(s.calls, 1) == []
  {
    var s0 := Init<T>(capacity);
    var s2 := Step(Step(s0, Subscribe(f), react), Subscribe(f), react);
    var s4 := Step(Step(s2, RunMicrotask, react), RunMicrotask, react);
    var s5 := Step(s4, Unsubscribe(0), react);
    var a1, a2, a3 := [Subscribe(f)], [Subscribe(f), Subscribe(f)], [Subscribe(f), Subscribe(f), RunMicrotask];
    var a4 := a3 + [RunMicrotask];
    var a5 := a4 + [Unsubscribe(0)];
    var a6 := a5 + [Notify(data)];
    assert a1[..0] == [] && a2[..1] == a1 && a3[..2] == a2 && a4[..3] == a3 && a5[..4] == a4 && a6[..5] == a5;
    assert Run(s0, [], react) == s0;
    assert Run(s0, a1, react) == Step(s0, Subscribe(f), react);
    assert Run(s0, a2, react) == s2;
    assert Run(s0, a3, react) == Step(s2, RunMicrotask, react);
    assert Run(s0, a4, react) == s4;
    assert Run(s0, a5, react) == s5;
    var one, two := Listed(f, 0), Listed(f, 1);
    assert s4.observers == [one, two] && s4.calls == [] && s4.buffer == [];
    assert [one, two][1..] == [two] && [two][1..] == [];
    assert Without([two], f) == [];
    assert IsListed([two], 1) && IsListed([one, two], 1);
    assert s5.observers == [];
    assert s5.subscriptions[1] == AfterClose(s4.subscriptions, s4.observers, 0, 0, 1);
    assert Step(s5, Notify(data), react).calls == [];
    assert a6 == [Subscribe(f), Subscribe(f), RunMicrotask, RunMicrotask, Unsubscribe(0), Notify(data)];
  }
}
