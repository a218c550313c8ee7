/** Waiting for the end of page activity: a state machine with three timers and a counter of pending requests.

    Times are milliseconds. A timer fires at some moment at or after its due time, timers in the order of
    their due times, equal ones in the order in which they were set. */
module PageActivity {
  import opened Wrappers

  const VALIDATION_DELAY: int := 100
  const END_DELAY: int := 100

  datatype Timer = Unarmed | Armed(due: int)

  datatype Outcome = NoActivity | Ended(end: int)

  /** How an outcome came about, and when. */
  datatype Report = Report(outcome: Outcome, at: int, byMaxDuration: bool)

  datatype Activity = Activity(at: int, isBusy: bool)

  /** The requests that are not excluded, as the life cycle announces them. */
  datatype RequestEvent = Started(index: nat) | Completed(index: nat)

  datatype State = State(
    start: int,
    maxDuration: Option<nat>,
    now: int,
    validationTimer: Timer,
    endTimer: Timer,
    maxDurationTimer: Timer,
    hasCompleted: bool,
    firstRequestIndex: Option<nat>,
    pendingRequestsCount: int,
    reports: seq<Report>,
    activities: seq<Activity>,
    requests: seq<RequestEvent>)

  datatype Action =
    | Elapse(ms: nat)
    | PageChanged
    | RequestStarted(index: nat)
    | RequestCompleted(index: nat)
    | FireValidation
    | FireEnd
    | FireMaxDuration
    | Stop

  function Init(start: int, maxDuration: Option<nat>): State {
    State(start, maxDuration, start, Armed(start + VALIDATION_DELAY), Unarmed,
          if maxDuration.Some? then Armed(start + maxDuration.value) else Unarmed,
          false, None, 0, [], [], [])
  }

  function Notify(s: State): State {
    var isBusy := s.pendingRequestsCount > 0;
    s.(validationTimer := Unarmed, endTimer := if isBusy then Unarmed else Armed(s.now + END_DELAY),
       activities := s.activities + [Activity(s.now, isBusy)])
  }

  function Stopped(s: State): State {
    s.(hasCompleted := true, validationTimer := Unarmed, endTimer := Unarmed, maxDurationTimer := Unarmed)
  }

  function Complete(s: State, outcome: Outcome, byMaxDuration: bool): State {
    if s.hasCompleted then s
    else Stopped(s).(reports := s.reports + [Report(outcome, s.now, byMaxDuration)])
  }

  /** The timer is due, and none that was set before it is due earlier or at the same time, none set later is
      due earlier. */
  predicate MayFire(now: int, timer: Timer, setBefore: seq<Timer>, setAfter: seq<Timer>) {
    && timer.Armed? && now >= timer.due
    && (forall k | 0 <= k < |setBefore| :: setBefore[k].Armed? ==> setBefore[k].due > timer.due)
    && (forall k | 0 <= k < |setAfter| :: setAfter[k].Armed? ==> setAfter[k].due >= timer.due)
  }

  function Step(s: State, a: Action): State {
    match a
    case Elapse(ms) => s.(now := s.now + ms)
    case PageChanged => if s.hasCompleted then s else Notify(s)
    case RequestStarted(index) =>
      if s.hasCompleted then s
      else
        Notify(s.(firstRequestIndex := if s.firstRequestIndex.None? then Some(index) else s.firstRequestIndex,
                  pendingRequestsCount := s.pendingRequestsCount + 1,
                  requests := s.requests + [Started(index)]))
    case RequestCompleted(index) =>
      if s.hasCompleted then s
      else
        var seen := s.(requests := s.requests + [Completed(index)]);
        if s.firstRequestIndex.None? || index < s.firstRequestIndex.value then seen
        else Notify(seen.(pendingRequestsCount := s.pendingRequestsCount - 1))
    case FireValidation =>
      if MayFire(s.now, s.validationTimer, [], [s.maxDurationTimer, s.endTimer])
      then Complete(s, NoActivity, false) else s
    case FireEnd =>
      if MayFire(s.now, s.endTimer, [s.validationTimer, s.maxDurationTimer], [])
      then Complete(s, Ended(s.endTimer.due - END_DELAY), false) else s
    case FireMaxDuration =>
      if MayFire(s.now, s.maxDurationTimer, [s.validationTimer], [s.endTimer])
      then Complete(s, Ended(s.now), true) else s
    case Stop => Stopped(s)
  }

  function Run(actions: seq<Action>, start: int, maxDuration: Option<nat>): State {
    if actions == [] then Init(start, maxDuration)
    else Step(Run(actions[..|actions| - 1], start, maxDuration), actions[|actions| - 1])
  }

  // ---- Invariant ------------------------------------------------------------------------------------

  ghost predicate TimersMatch(s: State) {
    if s.hasCompleted then s.validationTimer.Unarmed? && s.endTimer.Unarmed? && s.maxDurationTimer.Unarmed?
    else
      && s.maxDurationTimer == (if s.maxDuration.Some? then Armed(s.start + s.maxDuration.value) else Unarmed)
      && if s.activities == [] then s.validationTimer == Armed(s.start + VALIDATION_DELAY) && s.endTimer == Unarmed
         else
           var last := s.activities[|s.activities| - 1];
           && s.validationTimer == Unarmed
           && s.endTimer == (if last.isBusy then Unarmed else Armed(last.at + END_DELAY))
           && (last.isBusy <==> s.pendingRequestsCount > 0)
  }

  /** A report says the truth about the activities seen until then. */
  ghost predicate Truthful(s: State, r: Report) {
    match r.outcome
    case NoActivity => !r.byMaxDuration && s.activities == [] && r.at >= s.start + VALIDATION_DELAY
    case Ended(end) =>
      if r.byMaxDuration then
        && end == r.at && s.maxDuration.Some? && r.at >= s.start + s.maxDuration.value
        && (s.maxDuration.value >= VALIDATION_DELAY ==> s.activities != [])
      else
        && s.activities != [] && s.activities[|s.activities| - 1] == Activity(end, false)
        && r.at >= end + END_DELAY && s.pendingRequestsCount <= 0
  }

  ghost predicate Inv(s: State) {
    && TimersMatch(s) && s.start <= s.now
    && (forall k | 0 <= k < |s.activities| :: s.start <= s.activities[k].at <= s.now)
    && |s.reports| <= 1 && (s.reports != [] ==> s.hasCompleted && Truthful(s, s.reports[0]) && s.reports[0].at <= s.now)
  }

  lemma NotifyKeepsInv(s: State)
    requires s.start <= s.now && !s.hasCompleted && s.reports == []
    requires forall k | 0 <= k < |s.activities| :: s.start <= s.activities[k].at <= s.now
    requires s.maxDurationTimer == if s.maxDuration.Some? then Armed(s.start + s.maxDuration.value) else Unarmed
    ensures Inv(Notify(s))
  {}

  lemma FireMaxKeepsInv(s: State)
    requires Inv(s)
    ensures Inv(Step(s, FireMaxDuration))
  {
    var before := [s.validationTimer];
    assert before[0] == s.validationTimer;
  }

  lemma StepKeepsInv(s: State, a: Action)
    requires Inv(s)
    ensures Inv(Step(s, a))
    ensures s.hasCompleted ==> Step(s, a).reports == s.reports && Step(s, a).hasCompleted
  {
    match a
    case RequestStarted(index) =>
      if !s.hasCompleted {
        NotifyKeepsInv(s.(firstRequestIndex := if s.firstRequestIndex.None? then Some(index) else s.firstRequestIndex,
                          pendingRequestsCount := s.pendingRequestsCount + 1,
                          requests := s.requests + [Started(index)]));
      }
    case RequestCompleted(index) =>
      if !s.hasCompleted && s.firstRequestIndex.Some? && index >= s.firstRequestIndex.value {
        NotifyKeepsInv(s.(requests := s.requests + [Completed(index)], pendingRequestsCount := s.pendingRequestsCount - 1));
      }
    case PageChanged =>
      if !s.hasCompleted {
        NotifyKeepsInv(s);
      }
    case FireMaxDuration => FireMaxKeepsInv(s);
    case _ =>
  }

  lemma {:induction false} RunKeepsInv(actions: seq<Action>, start: int, maxDuration: Option<nat>)
    ensures Inv(Run(actions, start, maxDuration))
    ensures Run(actions, start, maxDuration).start == start && Run(actions, start, maxDuration).maxDuration == maxDuration
  {
    if actions != [] {
      RunKeepsInv(actions[..|actions| - 1], start, maxDuration);
      StepKeepsInv(Run(actions[..|actions| - 1], start, maxDuration), actions[|actions| - 1]);
    }
  }

  // ---- Pending requests -----------------------------------------------------------------------------

  /** The tracked requests that have started and not completed. */
  function Outstanding(requests: seq<RequestEvent>): set<nat> {
    if requests == [] then {}
    else
      var before := Outstanding(requests[..|requests| - 1]);
      match requests[|requests| - 1]
      case Started(index) => before + {index}
      case Completed(index) => before - {index}
  }

  /** The tracked requests. */
  function Starts(requests: seq<RequestEvent>): set<nat> {
    if requests == [] then {}
    else
      var before := Starts(requests[..|requests| - 1]);
      match requests[|requests| - 1]
      case Started(index) => before + {index}
      case Completed(_) => before
  }

  /** Requests are numbered as they start: a start has a greater index than every one before, and what
      completes is either pending, or started before the first one that was tracked. */
  ghost predicate InIndexOrder(requests: seq<RequestEvent>) {
    requests == [] ||
    var before := requests[..|requests| - 1];
    && InIndexOrder(before)
    && match requests[|requests| - 1]
       case Started(index) => forall i | i in Starts(before) :: i < index
       case Completed(index) => index in Outstanding(before) || forall i | i in Starts(before) :: index < i
  }

  /** The index that is taken for the first one: that of the first start. */
  function FirstStart(requests: seq<RequestEvent>): Option<nat> {
    if requests == [] then None
    else
      var before := FirstStart(requests[..|requests| - 1]);
      match requests[|requests| - 1]
      case Started(index) => if before.None? then Some(index) else before
      case Completed(_) => before
  }

  /** A pending request whose index is below the first one: its completion is ignored. */
  predicate IsOverlooked(before: seq<RequestEvent>, e: RequestEvent) {
    e.Completed? && e.index in Outstanding(before) && FirstStart(before).Some? && e.index < FirstStart(before).value
  }

  /** A request that is not pending, and whose index is not below the first one: its completion is counted. */
  predicate IsForeign(before: seq<RequestEvent>, e: RequestEvent) {
    e.Completed? && e.index !in Outstanding(before) && FirstStart(before).Some? && e.index >= FirstStart(before).value
  }

  /** A request that is pending already: its start is counted again. */
  predicate IsRepeated(before: seq<RequestEvent>, e: RequestEvent) {
    e.Started? && e.index in Outstanding(before)
  }

  /** How far the counter is off: one more for each overlooked completion and each repeated start, one less for
      each foreign completion. */
  function Excess(requests: seq<RequestEvent>): int {
    if requests == [] then 0
    else
      var before, e := requests[..|requests| - 1], requests[|requests| - 1];
      Excess(before)
      + (if IsOverlooked(before, e) || IsRepeated(before, e) then 1 else if IsForeign(before, e) then -1 else 0)
  }

  /** Every completion is attributed to the request that it completes. */
  predicate WellAttributed(requests: seq<RequestEvent>) {
    requests == [] ||
    var before, e := requests[..|requests| - 1], requests[|requests| - 1];
    WellAttributed(before) && !IsOverlooked(before, e) && !IsForeign(before, e) && !IsRepeated(before, e)
  }

  ghost predicate LedgerMatches(s: State) {
    s.pendingRequestsCount == |Outstanding(s.requests)| + Excess(s.requests) && s.firstRequestIndex == FirstStart(s.requests)
  }

  predicate CountIsExact(s: State) {
    s.pendingRequestsCount == |Outstanding(s.requests)|
  }

  lemma RequestsAppend(requests: seq<RequestEvent>, e: RequestEvent)
    ensures Outstanding(requests + [e]) ==
            if e.Started? then Outstanding(requests) + {e.index} else Outstanding(requests) - {e.index}
    ensures FirstStart(requests + [e]) ==
            if e.Started? && FirstStart(requests).None? then Some(e.index) else FirstStart(requests)
    ensures Excess(requests + [e]) ==
            Excess(requests) + (if IsOverlooked(requests, e) || IsRepeated(requests, e) then 1
                                else if IsForeign(requests, e) then -1 else 0)
    ensures WellAttributed(requests + [e]) <==>
            WellAttributed(requests) && !IsOverlooked(requests, e) && !IsForeign(requests, e) && !IsRepeated(requests, e)
  {
    assert (requests + [e])[..|requests|] == requests;
  }

  lemma {:induction false} NothingBeforeTheFirst(requests: seq<RequestEvent>)
    ensures FirstStart(requests).None? ==> Outstanding(requests) == {}
  {
    if requests != [] {
      NothingBeforeTheFirst(requests[..|requests| - 1]);
    }
  }

  lemma StartKeepsLedger(s: State, index: nat)
    requires !s.hasCompleted && LedgerMatches(s)
    ensures LedgerMatches(Step(s, RequestStarted(index)))
  {
    var before := Outstanding(s.requests);
    RequestsAppend(s.requests, Started(index));
    assert |before + {index}| == if index in before then |before| else |before| + 1 by {
      assert index in before ==> before + {index} == before;
    }
  }

  lemma CompletionKeepsLedger(s: State, index: nat)
    requires !s.hasCompleted && LedgerMatches(s)
    ensures LedgerMatches(Step(s, RequestCompleted(index)))
  {
    var before := Outstanding(s.requests);
    RequestsAppend(s.requests, Completed(index));
    NothingBeforeTheFirst(s.requests);
    assert |before - {index}| == if index in before then |before| - 1 else |before| by {
      assert index !in before ==> before - {index} == before;
    }
  }

  function NewRequests(s: State, a: Action): seq<RequestEvent> {
    if s.hasCompleted then []
    else
      match a
      case RequestStarted(index) => [Started(index)]
      case RequestCompleted(index) => [Completed(index)]
      case _ => []
  }

  lemma StepAppendsRequests(s: State, a: Action)
    ensures Step(s, a).requests == s.requests + NewRequests(s, a)
    ensures NewRequests(s, a) == [] ==>
              Step(s, a).pendingRequestsCount == s.pendingRequestsCount
              && Step(s, a).firstRequestIndex == s.firstRequestIndex
  {}

  lemma {:induction false} WellAttributedHasNoExcess(requests: seq<RequestEvent>)
    requires WellAttributed(requests)
    ensures Excess(requests) == 0
  {
    if requests != [] {
      WellAttributedHasNoExcess(requests[..|requests| - 1]);
    }
  }

  lemma StepKeepsLedger(s: State, a: Action)
    requires LedgerMatches(s)
    ensures LedgerMatches(Step(s, a))
  {
    StepAppendsRequests(s, a);
    if NewRequests(s, a) == [] {
      assert Step(s, a).requests == s.requests;
    } else if a.RequestStarted? {
      StartKeepsLedger(s, a.index);
    } else {
      CompletionKeepsLedger(s, a.index);
    }
  }

  lemma {:induction false} RunKeepsLedger(actions: seq<Action>, start: int, maxDuration: Option<nat>)
    ensures LedgerMatches(Run(actions, start, maxDuration))
  {
    if actions != [] {
      var before := actions[..|actions| - 1];
      RunKeepsLedger(before, start, maxDuration);
      StepKeepsLedger(Run(before, start, maxDuration), actions[|actions| - 1]);
    }
  }

  /** A step makes an exact count wrong exactly if its request event is misattributed. */
  lemma ExactStep(s: State, a: Action)
    requires LedgerMatches(s) && CountIsExact(s) && WellAttributed(s.requests)
    ensures CountIsExact(Step(s, a)) <==> WellAttributed(Step(s, a).requests)
  {
    StepKeepsLedger(s, a);
    StepAppendsRequests(s, a);
    if NewRequests(s, a) == [] {
      assert Step(s, a).requests == s.requests;
    } else {
      RequestsAppend(s.requests, NewRequests(s, a)[0]);
    }
  }

  /** The count is exact after the actions, and was after each of their prefixes. */
  predicate AlwaysExact(actions: seq<Action>, start: int, maxDuration: Option<nat>) {
    && CountIsExact(Run(actions, start, maxDuration))
    && (actions == [] || AlwaysExact(actions[..|actions| - 1], start, maxDuration))
  }

  // ---- Theorems -------------------------------------------------------------------------------------

  /** There is at most one report, and none after the end or a stop. */
  lemma {:induction false} ReportsOnce(actions: seq<Action>, more: Action, start: int, maxDuration: Option<nat>)
    ensures
      var s := Run(actions, start, maxDuration);
      var t := Step(s, more);
      |s.reports| <= 1 && (s.hasCompleted ==> t.hasCompleted && t.reports == s.reports)
      && (s.reports != [] ==> s.hasCompleted)
  {
    RunKeepsInv(actions, start, maxDuration);
    StepKeepsInv(Run(actions, start, maxDuration), more);
  }

  /** A report is true. "No activity": there was none, for as long as the validation delay. An end: it is the
      time of the last activity, after which no request was pending and nothing happened for the end delay;
      or the maximum duration has passed. */
  lemma ReportsAreTrue(actions: seq<Action>, start: int, maxDuration: Option<nat>)
    requires Run(actions, start, maxDuration).reports != []
    ensures
      var s := Run(actions, start, maxDuration);
      var r := s.reports[0];
      match r.outcome
      case NoActivity => s.activities == [] && r.at >= start + VALIDATION_DELAY
      case Ended(end) =>
        || (r.byMaxDuration && maxDuration.Some? && end == r.at >= start + maxDuration.value)
        || (&& s.activities != [] && s.activities[|s.activities| - 1] == Activity(end, false)
            && r.at >= end + END_DELAY && s.pendingRequestsCount <= 0)
  {
    RunKeepsInv(actions, start, maxDuration);
  }

  /** While it waits, one of three things is going on: nothing has happened and the validation delay runs; a
      request is pending; or the end delay runs since the last activity. */
  lemma WaitsForSomething(actions: seq<Action>, start: int, maxDuration: Option<nat>)
    requires !Run(actions, start, maxDuration).hasCompleted
    ensures
      var s := Run(actions, start, maxDuration);
      || (s.activities == [] && s.validationTimer == Armed(start + VALIDATION_DELAY))
      || (s.activities != [] && s.pendingRequestsCount > 0 && s.endTimer == Unarmed)
      || (s.activities != [] && s.endTimer == Armed(s.activities[|s.activities| - 1].at + END_DELAY))
  {
    RunKeepsInv(actions, start, maxDuration);
  }

  /** In every run, the counter is the number of tracked requests that have started and not completed, plus the
      overlooked completions and the repeated starts, minus the foreign completions. */
  lemma PendingCountLedger(actions: seq<Action>, start: int, maxDuration: Option<nat>)
    ensures
      var s := Run(actions, start, maxDuration);
      s.pendingRequestsCount == |Outstanding(s.requests)| + Excess(s.requests)
  {
    RunKeepsLedger(actions, start, maxDuration);
  }

  /** The counter is exact all along if and only if no pending request with an index below the first one
      completes, no request that is not pending completes with an index from the first one on, and no request
      starts while it is pending. */
  lemma {:induction false} PendingCountIsExact(actions: seq<Action>, start: int, maxDuration: Option<nat>)
    ensures AlwaysExact(actions, start, maxDuration) <==> WellAttributed(Run(actions, start, maxDuration).requests)
  {
    if actions != [] {
      var before, a := actions[..|actions| - 1], actions[|actions| - 1];
      PendingCountIsExact(before, start, maxDuration);
      RunKeepsLedger(before, start, maxDuration);
      var s := Run(before, start, maxDuration);
      AttributedBefore(s, a);
      if AlwaysExact(before, start, maxDuration) {
        ExactStep(s, a);
      }
    }
  }

  lemma AttributedBefore(s: State, a: Action)
    ensures WellAttributed(Step(s, a).requests) ==> WellAttributed(s.requests)
  {
    StepAppendsRequests(s, a);
    if NewRequests(s, a) == [] {
      assert Step(s, a).requests == s.requests;
    } else {
      RequestsAppend(s.requests, NewRequests(s, a)[0]);
    }
  }

  /** In particular when requests are numbered in the order in which they start, and complete once. */
  lemma {:induction false} IndexOrderAttributes(requests: seq<RequestEvent>)
    requires InIndexOrder(requests)
    ensures WellAttributed(requests) && Outstanding(requests) <= Starts(requests)
    ensures FirstStart(requests).None? ==> Starts(requests) == {}
    ensures FirstStart(requests).Some? ==>
              FirstStart(requests).value in Starts(requests)
              && forall i | i in Starts(requests) :: FirstStart(requests).value <= i
  {
    if requests != [] {
      IndexOrderAttributes(requests[..|requests| - 1]);
    }
  }

  /** Otherwise the counter can stick: the completion of a request that started later with a smaller index
      than the first one is taken for that of a request from before the tracking. */
  lemma CounterSticksOutOfOrder(start: int, maxDuration: Option<nat>, first: nat, second: nat)
    requires second < first
    ensures
      var actions := [RequestStarted(first), RequestStarted(second), RequestCompleted(first), RequestCompleted(second)];
      var s := Run(actions, start, maxDuration);
      s.pendingRequestsCount == 1 && Outstanding(s.requests) == {} && !WellAttributed(s.requests)
  {
    RunFour(start, maxDuration, RequestStarted(first), RequestStarted(second), RequestCompleted(first), RequestCompleted(second));
    var s2 := Step(Step(Init(start, maxDuration), RequestStarted(first)), RequestStarted(second));
    assert !s2.hasCompleted && s2.firstRequestIndex == Some(first) && s2.pendingRequestsCount == 2;
    var s3 := Step(s2, RequestCompleted(first));
    assert !s3.hasCompleted && s3.firstRequestIndex == Some(first) && s3.pendingRequestsCount == 1;
    assert s3.requests == [Started(first)] + [Started(second)] + [Completed(first)];
    NothingOutstanding(first, second);
    RunKeepsLedger([RequestStarted(first), RequestStarted(second), RequestCompleted(first), RequestCompleted(second)],
                   start, maxDuration);
    if WellAttributed(Step(s3, RequestCompleted(second)).requests) {
      WellAttributedHasNoExcess(Step(s3, RequestCompleted(second)).requests);
    }
  }

  lemma NothingOutstanding(first: nat, second: nat)
    ensures Outstanding([Started(first)] + [Started(second)] + [Completed(first)] + [Completed(second)]) == {}
  {
    assert [] + [Started(first)] == [Started(first)];
    assert Outstanding([]) == {};
    RequestsAppend([], Started(first));
    RequestsAppend([Started(first)], Started(second));
    RequestsAppend([Started(first)] + [Started(second)], Completed(first));
    RequestsAppend([Started(first)] + [Started(second)] + [Completed(first)], Completed(second));
  }

  lemma RunFour(start: int, maxDuration: Option<nat>, a: Action, b: Action, c: Action, d: Action)
    ensures Run([a, b, c, d], start, maxDuration) == Step(Step(Step(Step(Init(start, maxDuration), a), b), c), d)
  {
    assert [a, b, c, d][..3] == [a, b, c] && [a, b, c][..2] == [a, b] && [a, b][..1] == [a] && [a][..0] == [];
    assert Run([], start, maxDuration) == Init(start, maxDuration);
    assert Run([a], start, maxDuration) == Step(Init(start, maxDuration), a);
    assert Run([a, b], start, maxDuration) == Step(Step(Init(start, maxDuration), a), b);
    assert Run([a, b, c], start, maxDuration) == Step(Step(Step(Init(start, maxDuration), a), b), c);
  }

  // ---- What is recorded, and when it is reported ------------------------------------------------------

  /** The actions that come before the end. */
  function Seen(actions: seq<Action>, start: int, maxDuration: Option<nat>): seq<Action> {
    if actions == [] then []
    else
      var before := actions[..|actions| - 1];
      Seen(before, start, maxDuration)
      + if Run(before, start, maxDuration).hasCompleted then [] else [actions[|actions| - 1]]
  }

  function TimeAfter(actions: seq<Action>, start: int): int {
    if actions == [] then start
    else
      var last := actions[|actions| - 1];
      TimeAfter(actions[..|actions| - 1], start) + if last.Elapse? then last.ms else 0
  }

  function RequestsIn(actions: seq<Action>): seq<RequestEvent> {
    if actions == [] then []
    else
      RequestsIn(actions[..|actions| - 1]) +
      match actions[|actions| - 1]
      case RequestStarted(index) => [Started(index)]
      case RequestCompleted(index) => [Completed(index)]
      case _ => []
  }

  /** A change of the page, the start of a request, and the completion of one that is not older than the first. */
  predicate IsActivity(before: seq<Action>, a: Action) {
    || a.PageChanged? || a.RequestStarted?
    || (a.RequestCompleted? && FirstStart(RequestsIn(before)).Some? && FirstStart(RequestsIn(before)).value <= a.index)
  }

  function ActivityTimes(actions: seq<Action>, start: int): seq<int> {
    if actions == [] then []
    else
      var before := actions[..|actions| - 1];
      ActivityTimes(before, start) + if IsActivity(before, actions[|actions| - 1]) then [TimeAfter(before, start)] else []
  }

  function TimesOf(activities: seq<Activity>): seq<int> {
    seq(|activities|, k requires 0 <= k < |activities| => activities[k].at)
  }

  lemma NotifyTimes(s: State)
    ensures TimesOf(Notify(s).activities) == TimesOf(s.activities) + [s.now]
  {}

  ghost predicate Records(s: State, seen: seq<Action>) {
    && s.requests == RequestsIn(seen) && TimesOf(s.activities) == ActivityTimes(seen, s.start)
    && (!s.hasCompleted ==> s.now == TimeAfter(seen, s.start))
  }

  lemma StepRecords(s: State, seen: seq<Action>, a: Action)
    requires !s.hasCompleted && Records(s, seen) && LedgerMatches(s)
    ensures Step(s, a).start == s.start && Records(Step(s, a), seen + [a])
  {
    assert (seen + [a])[..|seen|] == seen;
    NotifyTimes(s);
    match a
    case RequestStarted(index) =>
      NotifyTimes(s.(firstRequestIndex := if s.firstRequestIndex.None? then Some(index) else s.firstRequestIndex,
                     pendingRequestsCount := s.pendingRequestsCount + 1, requests := s.requests + [Started(index)]));
    case RequestCompleted(index) =>
      NotifyTimes(s.(requests := s.requests + [Completed(index)], pendingRequestsCount := s.pendingRequestsCount - 1));
    case _ =>
  }

  lemma NothingAfterTheEnd(s: State, a: Action)
    requires s.hasCompleted
    ensures
      var t := Step(s, a);
      && t.hasCompleted && t.start == s.start
      && t.requests == s.requests && t.activities == s.activities && t.reports == s.reports
  {}

  /** A stop ends everything: whatever comes after it, nothing is recorded or reported any more. */
  lemma {:induction false} StopIsFinal(actions: seq<Action>, more: seq<Action>, start: int, maxDuration: Option<nat>)
    ensures
      var s := Run(actions, start, maxDuration);
      var t := Run(actions + [Stop] + more, start, maxDuration);
      t.hasCompleted && t.reports == s.reports && t.activities == s.activities && t.requests == s.requests
    decreases |more|
  {
    var all := actions + [Stop] + more;
    if more == [] {
      assert all[..|actions|] == actions && all[..|all| - 1] == actions;
    } else {
      var n := |more| - 1;
      assert all[..|all| - 1] == actions + [Stop] + more[..n] && all[|all| - 1] == more[n];
      StopIsFinal(actions, more[..n], start, maxDuration);
      NothingAfterTheEnd(Run(all[..|all| - 1], start, maxDuration), more[n]);
    }
  }

  /** In every run, the recorded activities are the page changes and the request events that count, at their
      times, up to the end; nothing after the end is recorded. */
  lemma {:induction false} ActivitiesAreWhatHappened(actions: seq<Action>, start: int, maxDuration: Option<nat>)
    ensures
      var s := Run(actions, start, maxDuration);
      var seen := Seen(actions, start, maxDuration);
      && s.start == start && s.requests == RequestsIn(seen) && TimesOf(s.activities) == ActivityTimes(seen, start)
      && (!s.hasCompleted ==> seen == actions && s.now == TimeAfter(actions, start))
  {
    if actions != [] {
      var before, a := actions[..|actions| - 1], actions[|actions| - 1];
      ActivitiesAreWhatHappened(before, start, maxDuration);
      RunKeepsLedger(before, start, maxDuration);
      var s := Run(before, start, maxDuration);
      assert before + [a] == actions;
      if s.hasCompleted {
        NothingAfterTheEnd(s, a);
        assert Seen(actions, start, maxDuration) == Seen(before, start, maxDuration);
      } else {
        StepRecords(s, before, a);
        assert Seen(actions, start, maxDuration) == actions;
      }
    }
  }

  ghost predicate IsQuiet(s: State) {
    !s.hasCompleted && s.activities != [] && s.pendingRequestsCount <= 0
  }

  function LastActivity(s: State): int
    requires s.activities != []
  {
    s.activities[|s.activities| - 1].at
  }

  /** Whether a timer may fire before another one, which was set earlier or later. */
  predicate Allows(timer: Timer, other: Timer, isEarlier: bool)
    requires timer.Armed?
  {
    other.Armed? ==> if isEarlier then other.due > timer.due else other.due >= timer.due
  }

  lemma MayFireAmongTwo(now: int, timer: Timer, a: Timer, b: Timer)
    requires timer.Armed?
    ensures MayFire(now, timer, [], [a, b]) <==> now >= timer.due && Allows(timer, a, false) && Allows(timer, b, false)
    ensures MayFire(now, timer, [a, b], []) <==> now >= timer.due && Allows(timer, a, true) && Allows(timer, b, true)
    ensures MayFire(now, timer, [a], [b]) <==> now >= timer.due && Allows(timer, a, true) && Allows(timer, b, false)
  {
    assert [a, b][0] == a && [a, b][1] == b && [a][0] == a && [b][0] == b;
  }

  /** No activity is reported exactly if there was none for 100 ms, and there is no shorter maximum. */
  lemma ValidationReports(s: State)
    requires TimersMatch(s)
    ensures Step(s, FireValidation).reports ==
            if !s.hasCompleted && s.activities == [] && s.now >= s.start + 100
               && (s.maxDuration.Some? ==> s.maxDuration.value >= 100)
            then s.reports + [Report(NoActivity, s.now, false)] else s.reports
  {
    if s.validationTimer.Armed? {
      MayFireAmongTwo(s.now, s.validationTimer, s.maxDurationTimer, s.endTimer);
    }
  }

  /** An end is reported exactly if nothing is pending and the last activity is 100 ms ago, unless the maximum comes
      first. */
  lemma EndReports(s: State)
    requires TimersMatch(s)
    ensures Step(s, FireEnd).reports ==
            if IsQuiet(s) && s.now >= LastActivity(s) + 100
               && (s.maxDuration.Some? ==> LastActivity(s) + 100 < s.start + s.maxDuration.value)
            then s.reports + [Report(Ended(LastActivity(s)), s.now, false)] else s.reports
  {
    if s.endTimer.Armed? {
      MayFireAmongTwo(s.now, s.endTimer, s.validationTimer, s.maxDurationTimer);
    }
  }

  /** The maximum is reported exactly if it has passed, and neither of these came first. */
  lemma MaximumReports(s: State)
    requires TimersMatch(s)
    ensures Step(s, FireMaxDuration).reports ==
            if !s.hasCompleted && s.maxDuration.Some? && s.now >= s.start + s.maxDuration.value
               && (s.activities == [] ==> s.maxDuration.value < 100)
               && (IsQuiet(s) ==> s.start + s.maxDuration.value <= LastActivity(s) + 100)
            then s.reports + [Report(Ended(s.now), s.now, true)] else s.reports
  {
    if s.maxDurationTimer.Armed? {
      MayFireAmongTwo(s.now, s.maxDurationTimer, s.validationTimer, s.endTimer);
    }
  }

  /** When the timers report, in every run. */
  lemma TimersReportExactly(actions: seq<Action>, start: int, maxDuration: Option<nat>)
    ensures
      var s := Run(actions, start, maxDuration);
      && s.start == start && s.maxDuration == maxDuration
      && Step(s, FireValidation).reports ==
         (if !s.hasCompleted && s.activities == [] && s.now >= start + 100 && (maxDuration.Some? ==> maxDuration.value >= 100)
          then s.reports + [Report(NoActivity, s.now, false)] else s.reports)
      && Step(s, FireEnd).reports ==
         (if IsQuiet(s) && s.now >= LastActivity(s) + 100
             && (maxDuration.Some? ==> LastActivity(s) + 100 < start + maxDuration.value)
          then s.reports + [Report(Ended(LastActivity(s)), s.now, false)] else s.reports)
      && Step(s, FireMaxDuration).reports ==
         (if !s.hasCompleted && maxDuration.Some? && s.now >= start + maxDuration.value
             && (s.activities == [] ==> maxDuration.value < 100)
             && (IsQuiet(s) ==> start + maxDuration.value <= LastActivity(s) + 100)
          then s.reports + [Report(Ended(s.now), s.now, true)] else s.reports)
  {
    var s := Run(actions, start, maxDuration);
    TimersMatchInRuns(actions, start, maxDuration);
    ActivitiesAreWhatHappened(actions, start, maxDuration);
    MaximumIsKept(actions, start, maxDuration);
    ValidationReports(s);
    EndReports(s);
    MaximumReports(s);
  }

  lemma TimersMatchInRuns(actions: seq<Action>, start: int, maxDuration: Option<nat>)
    ensures TimersMatch(Run(actions, start, maxDuration))
  {
    RunKeepsInv(actions, start, maxDuration);
  }

  lemma {:induction false} MaximumIsKept(actions: seq<Action>, start: int, maxDuration: Option<nat>)
    ensures Run(actions, start, maxDuration).maxDuration == maxDuration
  {
    if actions != [] {
      MaximumIsKept(actions[..|actions| - 1], start, maxDuration);
    }
  }

  /** The maximum duration only ends what was validated, if it is not shorter than the validation delay. */
  lemma MaxDurationEndsValidated(actions: seq<Action>, start: int, maxDuration: nat)
    requires maxDuration >= VALIDATION_DELAY
    requires Run(actions, start, Some(maxDuration)).reports != []
    requires Run(actions, start, Some(maxDuration)).reports[0].byMaxDuration
    ensures Run(actions, start, Some(maxDuration)).activities != []
  {
    RunKeepsInv(actions, start, Some(maxDuration));
  }

  /** A shorter one reports an activity that was not there. */
  lemma ShortMaxDurationReportsTooMuch(start: int, maxDuration: nat)
    requires maxDuration < VALIDATION_DELAY
    ensures
      var s := Run([Elapse(maxDuration), FireMaxDuration], start, Some(maxDuration));
      s.activities == [] && s.reports == [Report(Ended(start + maxDuration), start + maxDuration, true)]
  {
    var actions := [Elapse(maxDuration), FireMaxDuration];
    var first := [Elapse(maxDuration)];
    assert actions[..1] == first && first[..0] == [];
    var s0 := Init(start, Some(maxDuration));
    assert Run([], start, Some(maxDuration)) == s0;
    assert Run(first, start, Some(maxDuration)) == s0.(now := start + maxDuration);
  }
}
