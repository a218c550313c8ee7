/** What a hook does with an activation of a probe: the sampling interval of the probe, the global budget, the
    condition, the budget of condition errors, and the deadline of the captures decide. Times are real numbers of
    milliseconds. Whether the global budget grants a snapshot, whether the condition holds and whether the captures
    end in time are inputs. */
module ProbeSampling {
  import opened Wrappers
  import Debugger
  import SnapshotRate

  const MS_BETWEEN_CONDITION_ERRORS: real := 300_000.0

  datatype Condition = Holds | Fails | Errs

  /** A hook that is called for the probe; `granted` is the answer of the global budget, if it is asked. */
  datatype Hook =
    | Entry(now: real, granted: bool, condition: Condition, inTime: bool)
    | Exit(now: real, condition: Condition, inTime: bool)

  datatype Settings = Settings(msBetweenSampling: real, atEntry: bool)

  datatype Sampled = Sampled(lastCaptureMs: Option<real>, lastConditionErrorMs: Option<real>)

  function Init(): Sampled {
    Sampled(None, None)
  }

  /** At least so long ago, if ever. */
  predicate Elapsed(last: Option<real>, now: real, ms: real) {
    last.None? || now - last.value >= ms
  }

  /** The activation is neither sampled out nor over the global budget. */
  predicate Passes(p: Settings, s: Sampled, h: Hook) {
    h.Entry? && Elapsed(s.lastCaptureMs, h.now, p.msBetweenSampling) && h.granted
  }

  predicate EvaluatesCondition(p: Settings, s: Sampled, h: Hook) {
    if h.Entry? then p.atEntry && Passes(p, s, h) else !p.atEntry
  }

  /** The condition fails to evaluate, and this is reported. */
  predicate ReportsError(p: Settings, s: Sampled, h: Hook) {
    EvaluatesCondition(p, s, h) && h.condition.Errs? && Elapsed(s.lastConditionErrorMs, h.now, MS_BETWEEN_CONDITION_ERRORS)
  }

  function After(p: Settings, s: Sampled, h: Hook): Sampled {
    Sampled(if Passes(p, s, h) then Some(h.now) else s.lastCaptureMs,
            if ReportsError(p, s, h) then Some(h.now) else s.lastConditionErrorMs)
  }

  function OutcomeOfEntry(p: Settings, s: Sampled, h: Hook): Debugger.EntryOutcome
    requires h.Entry?
  {
    if !Passes(p, s, h) then Debugger.Skip
    else if p.atEntry && h.condition.Errs? then if ReportsError(p, s, h) then Debugger.SkipAndReportError else Debugger.Skip
    else if p.atEntry && h.condition.Fails? then Debugger.Skip
    else if !h.inTime then Debugger.Skip
    else Debugger.Record
  }

  function OutcomeOfExit(p: Settings, s: Sampled, h: Hook): Debugger.ExitOutcome
    requires h.Exit?
  {
    if !p.atEntry && h.condition.Errs? then if ReportsError(p, s, h) then Debugger.Report else Debugger.Discard
    else if !p.atEntry && h.condition.Fails? then Debugger.Discard
    else if !h.inTime then Debugger.Discard
    else Debugger.Report
  }

  function Run(p: Settings, hooks: seq<Hook>): Sampled {
    if hooks == [] then Init() else After(p, Run(p, hooks[..|hooks| - 1]), hooks[|hooks| - 1])
  }

  // ---- The probe ------------------------------------------------------------------------------------

  class ProbeSampler {
    const settings: Settings
    const producesSnapshots: bool
    const budget: SnapshotRate.SnapshotBudget
    var lastCaptureMs: Option<real>
    var lastConditionErrorMs: Option<real>

    constructor (settings: Settings, producesSnapshots: bool, budget: SnapshotRate.SnapshotBudget)
      ensures this.settings == settings && this.producesSnapshots == producesSnapshots && this.budget == budget
      ensures Abs() == Init()
    {
      this.settings, this.producesSnapshots, this.budget := settings, producesSnapshots, budget;
      lastCaptureMs, lastConditionErrorMs := None, None;
    }

    function Abs(): Sampled
      reads this
    {
      Sampled(lastCaptureMs, lastConditionErrorMs)
    }

    /** `checkConditionErrorBudget` */
    method CheckConditionErrorBudget(now: real) returns (granted: bool)
      modifies this`lastConditionErrorMs
      ensures granted == Elapsed(old(lastConditionErrorMs), now, MS_BETWEEN_CONDITION_ERRORS)
      ensures lastConditionErrorMs == if granted then Some(now) else old(lastConditionErrorMs)
    {
      if lastConditionErrorMs.Some? && now - lastConditionErrorMs.value < MS_BETWEEN_CONDITION_ERRORS {
        return false;
      }
      lastConditionErrorMs := Some(now);
      return true;
    }

    /** The decisions of `onEntry`. The global budget is only asked, and used up, when the probe's own interval
        has passed. */
    method DecideEntry(now: real, condition: Condition, inTime: bool) returns (outcome: Debugger.EntryOutcome)
      modifies this, budget
      ensures
        var asked := Elapsed(old(lastCaptureMs), now, settings.msBetweenSampling);
        var r := SnapshotRate.Request(now, producesSnapshots);
        var granted := SnapshotRate.Granted(old(budget.Abs()), r, budget.maxSnapshotsPerSecondGlobally);
        var h := Entry(now, granted, condition, inTime);
        && outcome == OutcomeOfEntry(settings, old(Abs()), h) && Abs() == After(settings, old(Abs()), h)
        && budget.Abs() ==
           (if asked then SnapshotRate.After(old(budget.Abs()), r, budget.maxSnapshotsPerSecondGlobally)
            else old(budget.Abs()))
    {
      if lastCaptureMs.Some? && now - lastCaptureMs.value < settings.msBetweenSampling {
        return Debugger.Skip;
      }
      var granted := budget.Check(now, producesSnapshots);
      if !granted {
        return Debugger.Skip;
      }
      lastCaptureMs := Some(now);
      if settings.atEntry {
        if condition.Fails? {
          return Debugger.Skip;
        }
        if condition.Errs? {
          var reported := CheckConditionErrorBudget(now);
          return if reported then Debugger.SkipAndReportError else Debugger.Skip;
        }
      }
      return if inTime then Debugger.Record else Debugger.Skip;
    }

    /** The decisions of `onReturn` and `onThrow`. */
    method DecideExit(now: real, condition: Condition, inTime: bool) returns (outcome: Debugger.ExitOutcome)
      modifies this
      ensures
        var h := Exit(now, condition, inTime);
        outcome == OutcomeOfExit(settings, old(Abs()), h) && Abs() == After(settings, old(Abs()), h)
    {
      if !settings.atEntry {
        if condition.Fails? {
          return Debugger.Discard;
        }
        if condition.Errs? {
          var reported := CheckConditionErrorBudget(now);
          return if reported then Debugger.Report else Debugger.Discard;
        }
      }
      return if inTime then Debugger.Report else Debugger.Discard;
    }
  }

  // ---- Runs -----------------------------------------------------------------------------------------

  ghost predicate Ordered(hooks: seq<Hook>) {
    forall j, k | 0 <= j < k < |hooks| :: hooks[j].now <= hooks[k].now
  }

  /** The k-th hook is an entry that passes. */
  ghost predicate PassesAt(p: Settings, hooks: seq<Hook>, k: int) {
    0 <= k < |hooks| && Passes(p, Run(p, hooks[..k]), hooks[k])
  }

  ghost predicate ReportsErrorAt(p: Settings, hooks: seq<Hook>, k: int) {
    0 <= k < |hooks| && ReportsError(p, Run(p, hooks[..k]), hooks[k])
  }

  /** What is remembered is the time of the last entry that passed, and of the last error that was reported. */
  lemma {:induction false} LastIsRemembered(p: Settings, hooks: seq<Hook>)
    ensures
      match Run(p, hooks).lastCaptureMs
      case None => forall k :: !PassesAt(p, hooks, k)
      case Some(time) =>
        exists k :: PassesAt(p, hooks, k) && hooks[k].now == time && forall j | j > k :: !PassesAt(p, hooks, j)
    ensures
      match Run(p, hooks).lastConditionErrorMs
      case None => forall k :: !ReportsErrorAt(p, hooks, k)
      case Some(time) =>
        exists k :: ReportsErrorAt(p, hooks, k) && hooks[k].now == time && forall j | j > k :: !ReportsErrorAt(p, hooks, j)
  {
    if hooks != [] {
      var n := |hooks| - 1;
      var before := hooks[..n];
      LastIsRemembered(p, before);
      assert forall k | 0 <= k < n :: before[..k] == hooks[..k] && before[k] == hooks[k];
      assert forall k | k != n :: PassesAt(p, hooks, k) <==> PassesAt(p, before, k);
      assert forall k | k != n :: ReportsErrorAt(p, hooks, k) <==> ReportsErrorAt(p, before, k);
      assert PassesAt(p, hooks, n) <==> Passes(p, Run(p, before), hooks[n]);
      assert ReportsErrorAt(p, hooks, n) <==> ReportsError(p, Run(p, before), hooks[n]);
    }
  }

  lemma BeforeIsSame(p: Settings, hooks: seq<Hook>, k: nat)
    requires k <= |hooks|
    ensures forall j | j < k :: PassesAt(p, hooks[..k], j) <==> PassesAt(p, hooks, j)
    ensures forall j | j < k :: ReportsErrorAt(p, hooks[..k], j) <==> ReportsErrorAt(p, hooks, j)
  {
    assert forall j | 0 <= j < k :: hooks[..k][..j] == hooks[..j] && hooks[..k][j] == hooks[j];
  }

  // ---- Theorems -------------------------------------------------------------------------------------

  /** An activation passes exactly if the global budget grants it and every one that passed before is at least the
      sampling interval ago. */
  lemma PassesWhenTheIntervalIsOver(p: Settings, hooks: seq<Hook>, k: nat)
    requires Ordered(hooks) && k < |hooks| && hooks[k].Entry?
    ensures PassesAt(p, hooks, k) <==>
            hooks[k].granted && forall j | PassesAt(p, hooks, j) && j < k :: hooks[k].now - hooks[j].now >= p.msBetweenSampling
  {
    LastIsRemembered(p, hooks[..k]);
    BeforeIsSame(p, hooks, k);
    var last := Run(p, hooks[..k]).lastCaptureMs;
    if last.Some? {
      var i :| PassesAt(p, hooks[..k], i) && hooks[..k][i].now == last.value
               && forall j | j > i :: !PassesAt(p, hooks[..k], j);
      assert PassesAt(p, hooks, i) && i < k && hooks[i].now == last.value;
      forall j | PassesAt(p, hooks, j) && j < k ensures j == i || hooks[j].now <= hooks[i].now {
        assert PassesAt(p, hooks[..k], j);
      }
    }
  }

  /** It is recorded exactly if, besides, its condition holds when it is evaluated on entry, and its captures end in
      time; an error of the condition is reported on entry exactly if it passes and no error of the probe was
      reported in the five minutes before. */
  lemma RecordedExactly(p: Settings, hooks: seq<Hook>, k: nat)
    requires Ordered(hooks) && k < |hooks| && hooks[k].Entry?
    ensures
      var h, outcome := hooks[k], OutcomeOfEntry(p, Run(p, hooks[..k]), hooks[k]);
      && (outcome == Debugger.Record <==> PassesAt(p, hooks, k) && (p.atEntry ==> h.condition.Holds?) && h.inTime)
      && (outcome == Debugger.SkipAndReportError <==>
            PassesAt(p, hooks, k) && p.atEntry && h.condition.Errs?
            && forall j | ReportsErrorAt(p, hooks, j) && j < k :: h.now - hooks[j].now >= 300_000.0)
  {
    ErrorsAreSpaced(p, hooks, k);
  }

  /** At an exit, an event is sent exactly if the captures end in time and the condition holds when it is evaluated
      there, or if its error is reported. */
  lemma ReportedExactly(p: Settings, hooks: seq<Hook>, k: nat)
    requires Ordered(hooks) && k < |hooks| && hooks[k].Exit?
    ensures
      var h, outcome := hooks[k], OutcomeOfExit(p, Run(p, hooks[..k]), hooks[k]);
      outcome == Debugger.Report <==>
      || (h.inTime && (p.atEntry || h.condition.Holds?))
      || (!p.atEntry && h.condition.Errs?
          && forall j | ReportsErrorAt(p, hooks, j) && j < k :: h.now - hooks[j].now >= 300_000.0)
  {
    ErrorsAreSpaced(p, hooks, k);
  }

  /** Reported errors of one probe's condition, on entry or exit, are at least five minutes apart, and no error that
      comes after five minutes is held back. */
  lemma ErrorsAreSpaced(p: Settings, hooks: seq<Hook>, k: nat)
    requires Ordered(hooks) && k < |hooks|
    ensures ReportsErrorAt(p, hooks, k) <==>
            && EvaluatesCondition(p, Run(p, hooks[..k]), hooks[k]) && hooks[k].condition.Errs?
            && forall j | ReportsErrorAt(p, hooks, j) && j < k :: hooks[k].now - hooks[j].now >= 300_000.0
  {
    LastIsRemembered(p, hooks[..k]);
    BeforeIsSame(p, hooks, k);
    var last := Run(p, hooks[..k]).lastConditionErrorMs;
    if last.Some? {
      var i :| ReportsErrorAt(p, hooks[..k], i) && hooks[..k][i].now == last.value
               && forall j | j > i :: !ReportsErrorAt(p, hooks[..k], j);
      assert ReportsErrorAt(p, hooks, i) && i < k && hooks[i].now == last.value;
      forall j | ReportsErrorAt(p, hooks, j) && j < k ensures j == i || hooks[j].now <= hooks[i].now {
        assert ReportsErrorAt(p, hooks[..k], j);
      }
    }
  }
}
