/** The global snapshot budget. Its counter restarts with the first request that comes more than a second
    after the last restart: not a sliding window, yet no second sees more than twice the rate. Times are real
    numbers of milliseconds. */
module SnapshotRate {

  const WINDOW: real := 1000.0

  datatype Request = Request(now: real, captureSnapshot: bool)

  class SnapshotBudget {
    const maxSnapshotsPerSecondGlobally: real
    var globalSnapshotSamplingRateWindowStart: real
    var snapshotsSampledWithinTheLastSecond: nat

    constructor (rate: real)
      ensures maxSnapshotsPerSecondGlobally == rate && Abs() == Init()
    {
      maxSnapshotsPerSecondGlobally := rate;
      globalSnapshotSamplingRateWindowStart := 0.0;
      snapshotsSampledWithinTheLastSecond := 0;
    }

    function Abs(): Budget
      reads this
    {
      Budget(globalSnapshotSamplingRateWindowStart, snapshotsSampledWithinTheLastSecond)
    }

    /** `checkGlobalSnapshotBudget` */
    method Check(now: real, captureSnapshot: bool) returns (granted: bool)
      modifies this
      ensures granted == Granted(old(Abs()), Request(now, captureSnapshot), maxSnapshotsPerSecondGlobally)
      ensures Abs() == After(old(Abs()), Request(now, captureSnapshot), maxSnapshotsPerSecondGlobally)
    {
      if !captureSnapshot {
        return true;
      }
      if now - globalSnapshotSamplingRateWindowStart > WINDOW {
        snapshotsSampledWithinTheLastSecond := 1;
        globalSnapshotSamplingRateWindowStart := now;
        return true;
      }
      if snapshotsSampledWithinTheLastSecond as real >= maxSnapshotsPerSecondGlobally {
        return false;
      }
      snapshotsSampledWithinTheLastSecond := snapshotsSampledWithinTheLastSecond + 1;
      return true;
    }
  }

  datatype Budget = Budget(windowStart: real, count: nat)

  function Init(): Budget {
    Budget(0.0, 0)
  }

  predicate Reopens(b: Budget, r: Request) {
    r.now - b.windowStart > WINDOW
  }

  predicate Granted(b: Budget, r: Request, rate: real) {
    !r.captureSnapshot || Reopens(b, r) || (b.count as real) < rate
  }

  function After(b: Budget, r: Request, rate: real): Budget {
    if !r.captureSnapshot then b
    else if Reopens(b, r) then Budget(r.now, 1)
    else if Granted(b, r, rate) then Budget(b.windowStart, b.count + 1)
    else b
  }

  function Run(requests: seq<Request>, rate: real): Budget {
    if requests == [] then Init() else After(Run(requests[..|requests| - 1], rate), requests[|requests| - 1], rate)
  }

  /** The times at which a snapshot was granted. */
  function Grants(requests: seq<Request>, rate: real): seq<real> {
    if requests == [] then []
    else
      var before, r := requests[..|requests| - 1], requests[|requests| - 1];
      Grants(before, rate) + if r.captureSnapshot && Granted(Run(before, rate), r, rate) then [r.now] else []
  }

  function CountWithin(times: seq<real>, from: real): nat {
    if times == [] then 0
    else
      var t := times[|times| - 1];
      CountWithin(times[..|times| - 1], from) + if from <= t <= from + WINDOW then 1 else 0
  }

  function Ceil(r: real): int {
    -((-r).Floor)
  }

  /** Grants in every closed second. */
  function Limit(rate: real): int {
    if Ceil(rate) < 1 then 1 else Ceil(rate)
  }

  ghost predicate Ordered(requests: seq<Request>) {
    forall j, k | 0 <= j < k < |requests| :: requests[j].now <= requests[k].now
  }

  // ---- Counting -------------------------------------------------------------------------------------

  lemma {:induction false} CountConcat(a: seq<real>, b: seq<real>, from: real)
    ensures CountWithin(a + b, from) == CountWithin(a, from) + CountWithin(b, from)
    decreases |b|
  {
    if b == [] {
      assert a + b == a;
    } else {
      assert (a + b)[..|a + b| - 1] == a + b[..|b| - 1];
      CountConcat(a, b[..|b| - 1], from);
    }
  }

  lemma {:induction false} CountAtMostAll(times: seq<real>, from: real)
    ensures CountWithin(times, from) <= |times|
  {
    if times != [] {
      CountAtMostAll(times[..|times| - 1], from);
    }
  }

  lemma {:induction false} CountNone(times: seq<real>, from: real)
    requires forall k | 0 <= k < |times| :: !(from <= times[k] <= from + WINDOW)
    ensures CountWithin(times, from) == 0
  {
    if times != [] {
      CountNone(times[..|times| - 1], from);
    }
  }

  lemma CountAppend(times: seq<real>, t: real, from: real)
    ensures CountWithin(times + [t], from) == CountWithin(times, from) + if from <= t <= from + WINDOW then 1 else 0
  {
    assert (times + [t])[..|times|] == times;
  }

  // ---- Windows --------------------------------------------------------------------------------------

  /** The grants of the current window, of the one before, and of those before that. */
  datatype Windows = Windows(old_: seq<real>, previous: seq<real>, current: seq<real>)

  function All(w: Windows): seq<real> {
    w.old_ + w.previous + w.current
  }

  function NextWindows(w: Windows, b: Budget, r: Request, rate: real): Windows {
    if !r.captureSnapshot || !Granted(b, r, rate) then w
    else if Reopens(b, r) then Windows(w.old_ + w.previous, w.current, [r.now])
    else w.(current := w.current + [r.now])
  }

  ghost predicate WindowsMatch(w: Windows, b: Budget, rate: real) {
    && |w.previous| <= Limit(rate) && |w.current| == b.count <= Limit(rate)
    && (forall k | 0 <= k < |w.old_| :: w.old_[k] + WINDOW < b.windowStart)
    && (forall k | 0 <= k < |w.previous| :: w.previous[k] < b.windowStart)
    && (forall k | 0 <= k < |w.current| :: b.windowStart <= w.current[k] <= b.windowStart + WINDOW)
  }

  ghost predicate Bounded(times: seq<real>, rate: real) {
    forall from: real :: CountWithin(times, from) <= 2 * Limit(rate)
  }

  /** An interval that meets the current window misses everything before the previous one. */
  lemma RecentIntervalsAreBounded(w: Windows, b: Budget, rate: real, from: real)
    requires WindowsMatch(w, b, rate) && from + WINDOW >= b.windowStart
    ensures CountWithin(All(w), from) <= 2 * Limit(rate)
  {
    CountConcat(w.old_ + w.previous, w.current, from);
    CountConcat(w.old_, w.previous, from);
    CountNone(w.old_, from);
    CountAtMostAll(w.previous, from);
    CountAtMostAll(w.current, from);
  }

  lemma NextWindowsMatch(w: Windows, b: Budget, r: Request, rate: real)
    requires WindowsMatch(w, b, rate) && rate > 0.0 && r.now >= b.windowStart
    ensures WindowsMatch(NextWindows(w, b, r, rate), After(b, r, rate), rate)
  {
    if r.captureSnapshot && Granted(b, r, rate) && !Reopens(b, r) {
      assert b.count + 1 <= Ceil(rate) by {
        assert b.count as real < rate;
      }
    }
  }

  lemma NextWindowsBounded(w: Windows, b: Budget, r: Request, rate: real)
    requires WindowsMatch(w, b, rate) && WindowsMatch(NextWindows(w, b, r, rate), After(b, r, rate), rate)
    requires Bounded(All(w), rate)
    ensures Bounded(All(NextWindows(w, b, r, rate)), rate)
  {
    var next := NextWindows(w, b, r, rate);
    if next != w {
      forall from: real ensures CountWithin(All(next), from) <= 2 * Limit(rate) {
        assert All(next) == All(w) + [r.now];
        CountAppend(All(w), r.now, from);
        if from <= r.now <= from + WINDOW {
          assert next.current[|next.current| - 1] == r.now;
          RecentIntervalsAreBounded(next, After(b, r, rate), rate, from);
        }
      }
    }
  }

  function WindowsOf(requests: seq<Request>, rate: real): Windows {
    if requests == [] then Windows([], [], [])
    else
      var before := requests[..|requests| - 1];
      NextWindows(WindowsOf(before, rate), Run(before, rate), requests[|requests| - 1], rate)
  }

  lemma {:induction false} RunMatches(requests: seq<Request>, rate: real, now: real)
    requires rate > 0.0 && Ordered(requests)
    requires now >= 0.0 && forall k | 0 <= k < |requests| :: 0.0 <= requests[k].now <= now
    ensures WindowsMatch(WindowsOf(requests, rate), Run(requests, rate), rate)
    ensures Bounded(All(WindowsOf(requests, rate)), rate)
    ensures All(WindowsOf(requests, rate)) == Grants(requests, rate)
    ensures Run(requests, rate).windowStart <= now
  {
    if requests != [] {
      var before, r := requests[..|requests| - 1], requests[|requests| - 1];
      RunMatches(before, rate, r.now);
      var w, b := WindowsOf(before, rate), Run(before, rate);
      NextWindowsMatch(w, b, r, rate);
      NextWindowsBounded(w, b, r, rate);
      assert NextWindows(w, b, r, rate) != w ==> All(NextWindows(w, b, r, rate)) == All(w) + [r.now];
    }
  }

  /** Whatever the requests, no closed second contains more than twice the rate, rounded up. */
  lemma SnapshotRateIsBounded(requests: seq<Request>, rate: real, from: real)
    requires rate > 0.0 && Ordered(requests) && forall k | 0 <= k < |requests| :: requests[k].now >= 0.0
    ensures CountWithin(Grants(requests, rate), from) <= 2 * Limit(rate)
  {
    RunMatches(requests, rate, if requests == [] then 0.0 else requests[|requests| - 1].now);
  }

  lemma {:induction false} GrantsAreRequests(requests: seq<Request>, rate: real, now: real)
    requires forall k | 0 <= k < |requests| :: requests[k].now <= now
    ensures forall k | 0 <= k < |Grants(requests, rate)| :: Grants(requests, rate)[k] <= now
  {
    if requests != [] {
      GrantsAreRequests(requests[..|requests| - 1], rate, now);
    }
  }

  lemma {:induction false} CountAll(times: seq<real>, from: real)
    requires forall k | 0 <= k < |times| :: from <= times[k] <= from + WINDOW
    ensures CountWithin(times, from) == |times|
  {
    if times != [] {
      CountAll(times[..|times| - 1], from);
    }
  }

  lemma CurrentCounts(w: Windows, windowStart: real, from: real)
    requires from <= windowStart
    requires forall k | 0 <= k < |w.current| :: windowStart <= w.current[k]
    requires forall k | 0 <= k < |All(w)| :: All(w)[k] <= from + WINDOW
    ensures CountWithin(All(w), from) >= |w.current|
  {
    forall k | 0 <= k < |w.current| ensures from <= w.current[k] <= from + WINDOW {
      assert w.current[k] == All(w)[|w.old_ + w.previous| + k];
    }
    CountAll(w.current, from);
    CountConcat(w.old_ + w.previous, w.current, from);
  }

  /** A snapshot is only refused when as many as the rate were granted within the second before it; and what is no
      snapshot is never refused. */
  lemma RefusalsAreJustified(requests: seq<Request>, r: Request, rate: real)
    requires rate > 0.0 && Ordered(requests) && forall k | 0 <= k < |requests| :: 0.0 <= requests[k].now <= r.now
    requires r.now >= 0.0 && !Granted(Run(requests, rate), r, rate)
    ensures r.captureSnapshot && CountWithin(Grants(requests, rate), r.now - 1000.0) as real >= rate
  {
    var w, from := WindowsOf(requests, rate), r.now - 1000.0;
    RunMatches(requests, rate, r.now);
    GrantsAreRequests(requests, rate, r.now);
    CurrentCounts(w, Run(requests, rate).windowStart, from);
  }

  // ---- The bound is attained ------------------------------------------------------------------------

  function Burst(n: nat, now: real): seq<Request> {
    seq(n, _ => Request(now, true))
  }

  lemma BelowCeiling(rate: real, n: nat)
    requires 1 <= n <= Ceil(rate)
    ensures (n - 1) as real < rate
  {}

  lemma OneMore(requests: seq<Request>, r: Request, rate: real)
    requires r.captureSnapshot && Granted(Run(requests, rate), r, rate)
    ensures Run(requests + [r], rate) == After(Run(requests, rate), r, rate)
    ensures CountWithin(Grants(requests + [r], rate), WINDOW) ==
            CountWithin(Grants(requests, rate), WINDOW) + if WINDOW <= r.now <= WINDOW + WINDOW then 1 else 0
  {
    assert (requests + [r])[..|requests|] == requests;
    CountAppend(Grants(requests, rate), r.now, WINDOW);
  }

  /** A burst at the end of a window is granted in full, */
  lemma {:induction false} FirstBurst(rate: real, n: nat)
    requires rate > 0.0 && n <= Ceil(rate)
    ensures Run(Burst(n, WINDOW), rate) == Budget(0.0, n)
    ensures CountWithin(Grants(Burst(n, WINDOW), rate), WINDOW) == n
  {
    if n > 0 {
      assert Burst(n, WINDOW) == Burst(n - 1, WINDOW) + [Request(WINDOW, true)];
      FirstBurst(rate, n - 1);
      BelowCeiling(rate, n);
      OneMore(Burst(n - 1, WINDOW), Request(WINDOW, true), rate);
    }
  }

  /** and so is another one right after it. */
  lemma {:induction false} SecondBurst(rate: real, n: nat, first: seq<Request>)
    requires rate > 0.0 && 1 <= n <= Ceil(rate) && first == Burst(Ceil(rate), WINDOW)
    ensures
      var requests := first + Burst(n, WINDOW + 1.0);
      && Run(requests, rate) == Budget(WINDOW + 1.0, n)
      && CountWithin(Grants(requests, rate), WINDOW) == Ceil(rate) + n
  {
    var before := first + Burst(n - 1, WINDOW + 1.0);
    var r := Request(WINDOW + 1.0, true);
    assert first + Burst(n, WINDOW + 1.0) == before + [r];
    if n == 1 {
      FirstBurst(rate, Ceil(rate));
      assert before == first;
    } else {
      SecondBurst(rate, n - 1, first);
      BelowCeiling(rate, n);
    }
    assert Run(before, rate) == if n == 1 then Budget(0.0, Ceil(rate)) else Budget(WINDOW + 1.0, n - 1);
    OneMore(before, r, rate);
  }

  lemma BoundIsAttained(rate: real)
    requires rate > 0.0
    ensures
      exists requests: seq<Request>, from: real ::
        && Ordered(requests) && (forall k | 0 <= k < |requests| :: requests[k].now >= 0.0)
        && CountWithin(Grants(requests, rate), from) == 2 * Limit(rate)
  {
    SecondBurst(rate, Ceil(rate), Burst(Ceil(rate), WINDOW));
    var requests := Burst(Ceil(rate), WINDOW) + Burst(Ceil(rate), WINDOW + 1.0);
    assert Ordered(requests);
    assert CountWithin(Grants(requests, rate), WINDOW) == 2 * Limit(rate);
  }
}
