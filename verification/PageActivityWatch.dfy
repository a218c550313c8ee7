/** The page activity watcher itself, proved against `PageActivity`: its timers, its flag and its counters are
    fields that the callbacks change. */
module PageActivityWatch {
  import opened Wrappers
  import opened PageActivity

  class PageActivityWatcher {
    const start: int
    const maxDuration: Option<nat>
    var now: int
    var validationTimer: Timer
    var endTimer: Timer
    var maxDurationTimer: Timer
    var hasCompleted: bool
    var firstRequestIndex: Option<nat>
    var pendingRequestsCount: int
    var reports: seq<Report>
    ghost var activities: seq<Activity>
    ghost var requests: seq<RequestEvent>

    ghost function Abs(): State
      reads this
    {
      State(start, maxDuration, now, validationTimer, endTimer, maxDurationTimer, hasCompleted, firstRequestIndex,
            pendingRequestsCount, reports, activities, requests)
    }

    ghost predicate Valid()
      reads this
    {
      Inv(Abs())
    }

    constructor (start: int, maxDuration: Option<nat>)
      ensures Abs() == Init(start, maxDuration) && Valid()
    {
      this.start, this.maxDuration, now := start, maxDuration, start;
      validationTimer, endTimer := Armed(start + VALIDATION_DELAY), Unarmed;
      maxDurationTimer := if maxDuration.Some? then Armed(start + maxDuration.value) else Unarmed;
      hasCompleted, firstRequestIndex, pendingRequestsCount, reports := false, None, 0, [];
      activities, requests := [], [];
    }

    method NotifyPageActivity()
      modifies this
      ensures Abs() == Notify(old(Abs()))
    {
      activities := activities + [Activity(now, pendingRequestsCount > 0)];
      validationTimer := Unarmed;
      endTimer := Unarmed;
      if pendingRequestsCount <= 0 {
        endTimer := Armed(now + END_DELAY);
      }
    }

    method StopWatching()
      requires Valid()
      modifies this
      ensures Abs() == Step(old(Abs()), Stop) && Valid()
    {
      StepKeepsInv(Abs(), Stop);
      hasCompleted := true;
      validationTimer, endTimer, maxDurationTimer := Unarmed, Unarmed, Unarmed;
    }

    method CompleteWith(outcome: Outcome, byMaxDuration: bool)
      requires Valid()
      modifies this
      ensures Abs() == Complete(old(Abs()), outcome, byMaxDuration)
    {
      if hasCompleted {
        return;
      }
      StopWatching();
      reports := reports + [Report(outcome, now, byMaxDuration)];
    }

    method OnPageChanged()
      requires Valid()
      modifies this
      ensures Abs() == Step(old(Abs()), PageChanged) && Valid()
    {
      StepKeepsInv(Abs(), PageChanged);
      if !hasCompleted {
        NotifyPageActivity();
      }
    }

    method OnRequestStarted(index: nat)
      requires Valid()
      modifies this
      ensures Abs() == Step(old(Abs()), RequestStarted(index)) && Valid()
    {
      StepKeepsInv(Abs(), RequestStarted(index));
      if hasCompleted {
        return;
      }
      requests := requests + [Started(index)];
      if firstRequestIndex.None? {
        firstRequestIndex := Some(index);
      }
      pendingRequestsCount := pendingRequestsCount + 1;
      NotifyPageActivity();
    }

    method OnRequestCompleted(index: nat)
      requires Valid()
      modifies this
      ensures Abs() == Step(old(Abs()), RequestCompleted(index)) && Valid()
    {
      StepKeepsInv(Abs(), RequestCompleted(index));
      if hasCompleted {
        return;
      }
      requests := requests + [Completed(index)];
      if firstRequestIndex.None? || index < firstRequestIndex.value {
        return;
      }
      pendingRequestsCount := pendingRequestsCount - 1;
      NotifyPageActivity();
    }

    method FireValidationTimer()
      requires Valid() && MayFire(now, validationTimer, [], [maxDurationTimer, endTimer])
      modifies this
      ensures Abs() == Step(old(Abs()), FireValidation) && Valid()
    {
      StepKeepsInv(Abs(), FireValidation);
      CompleteWith(NoActivity, false);
    }

    method FireEndTimer()
      requires Valid() && MayFire(now, endTimer, [validationTimer, maxDurationTimer], [])
      modifies this
      ensures Abs() == Step(old(Abs()), FireEnd) && Valid()
    {
      StepKeepsInv(Abs(), FireEnd);
      var lastChangeTime := endTimer.due - END_DELAY;
      CompleteWith(Ended(lastChangeTime), false);
    }

    method FireMaxDurationTimer()
      requires Valid() && MayFire(now, maxDurationTimer, [validationTimer], [endTimer])
      modifies this
      ensures Abs() == Step(old(Abs()), FireMaxDuration) && Valid()
    {
      StepKeepsInv(Abs(), FireMaxDuration);
      CompleteWith(Ended(now), true);
    }
  }
}
