/** What a probe captures over one activation, on entry and on return or throw, and what is queued of it. The two
    hooks see different heaps and have deadlines of their own; on each side several probes may share a context, so
    it is arbitrary here. Conditions hold; an expression that cannot be evaluated gives an error. */
module CaptureHooks {
  import opened Wrappers
  import opened Capture
  import opened CaptureProofs
  import opened CaptureWalker

  /** A capture expression with its own limits, and what it evaluates to in the context of the hook. */
  datatype CaptureExpression = CaptureExpression(name: string, limits: Limits, value: Option<Value>)

  /** A probe either captures snapshots or may have capture expressions. */
  datatype Probe = Probe(captureSnapshot: bool, hasExpressions: bool, atEntry: bool, hasCondition: bool, limits: Limits) {
    predicate UsesExpressions() { !captureSnapshot && hasExpressions }

    predicate CapturesArguments() { captureSnapshot && (atEntry || !hasCondition) }
  }

  datatype Part =
    | Nothing
    | Arguments(record: Record)
    | Expressions(record: Record)
    | Return(snapshot: Snapshot)

  datatype ActiveEntry = ActiveEntry(entry: Part, errors: seq<string>)

  /** What is queued: the part of the entry, the part of the exit, and the expressions that failed. */
  datatype Queued = Queued(entry: Part, exit: Part, errors: seq<string>)

  datatype Evaluated = Evaluated(values: Record, errors: seq<string>)

  // ---- The hooks ------------------------------------------------------------------------------------

  /** The loop of `evaluateCaptureExpressions`. */
  function Evaluate(
    h: Heap, late: Clock, expressions: seq<CaptureExpression>, done: Evaluated, ctx: Context
  ): (r: (Evaluated, Context))
    ensures ctx.timedOut ==> r.1.timedOut
    decreases |expressions|
  {
    if expressions == [] then (done, ctx)
    else
      var e, rest := expressions[0], expressions[1..];
      if e.value.None? then Evaluate(h, late, rest, done.(errors := done.errors + [e.name]), ctx)
      else
        var (c, after) := CaptureValue(h, late, e.value.value, 0, e.limits, ctx);
        Evaluate(h, late, rest, done.(values := Put(done.values, e.name, c)), after)
  }

  function NothingYet(): Evaluated {
    Evaluated(Record([], []), [])
  }

  function ExpressionsPart(values: Record): Part {
    if values.names == [] then Nothing else Expressions(values)
  }

  /** `onEntry`, as far as it captures: the entry that is pushed, or nothing. */
  function CaptureEntry(
    h: Heap, late: Clock, probe: Probe, args: HeapObject, self: Option<Value>, expressions: seq<CaptureExpression>,
    ctx: Context
  ): (Option<ActiveEntry>, Context) {
    var evaluates := probe.atEntry && probe.UsesExpressions();
    var (evaluated, after) := if evaluates then Evaluate(h, late, expressions, NothingYet(), ctx) else (NothingYet(), ctx);
    if evaluates && after.timedOut then (None, after)
    else if probe.CapturesArguments() then
      var (arguments, end) := CaptureArguments(h, late, args, self, probe.limits, after);
      (if end.timedOut then None else Some(ActiveEntry(Arguments(arguments), evaluated.errors)), end)
    else (Some(ActiveEntry(ExpressionsPart(evaluated.values), evaluated.errors)), after)
  }

  /** `onReturn`, as far as it captures: what is queued for the entry, or nothing. */
  function CaptureExit(
    h: Heap, late: Clock, probe: Probe, active: ActiveEntry, args: HeapObject, self: Option<Value>, locals: HeapObject,
    returned: Value, expressions: seq<CaptureExpression>, ctx: Context
  ): Option<Queued> {
    var evaluates := !probe.atEntry && probe.UsesExpressions();
    var (evaluated, after) := if evaluates then Evaluate(h, late, expressions, NothingYet(), ctx) else (NothingYet(), ctx);
    var errors := active.errors + evaluated.errors;
    if evaluates && after.timedOut then None
    else if probe.captureSnapshot then
      match CaptureReturn(h, late, args, self, locals, returned, probe.limits, after)
      case None => None
      case Some(snapshot) => Some(Queued(active.entry, Return(snapshot), errors))
    else Some(Queued(active.entry, ExpressionsPart(evaluated.values), errors))
  }

  /** `onThrow`: the arguments instead of the return snapshot. */
  function CaptureThrow(
    h: Heap, late: Clock, probe: Probe, active: ActiveEntry, args: HeapObject, self: Option<Value>,
    expressions: seq<CaptureExpression>, ctx: Context
  ): Option<Queued> {
    var evaluates := !probe.atEntry && probe.UsesExpressions();
    var (evaluated, after) := if evaluates then Evaluate(h, late, expressions, NothingYet(), ctx) else (NothingYet(), ctx);
    var errors := active.errors + evaluated.errors;
    if evaluates && after.timedOut then None
    else if probe.captureSnapshot then
      var (arguments, end) := CaptureArguments(h, late, args, self, probe.limits, after);
      if end.timedOut then None else Some(Queued(active.entry, Arguments(arguments), errors))
    else Some(Queued(active.entry, ExpressionsPart(evaluated.values), errors))
  }

  /** The loop itself, on the context that it shares with the other captures of the hook. */
  method EvaluateCaptureExpressions(h: Heap, expressions: seq<CaptureExpression>, ctx: CaptureContext)
    returns (evaluated: Evaluated)
    modifies ctx
    ensures (evaluated, ctx.Abs()) == Evaluate(h, ctx.late, expressions, NothingYet(), old(ctx.Abs()))
  {
    evaluated := NothingYet();
    var i := 0;
    while i < |expressions|
      invariant 0 <= i <= |expressions|
      invariant Evaluate(h, ctx.late, expressions[i..], evaluated, ctx.Abs()) ==
                Evaluate(h, ctx.late, expressions, NothingYet(), old(ctx.Abs()))
    {
      assert expressions[i..][1..] == expressions[i + 1..];
      var e := expressions[i];
      if e.value.None? {
        evaluated := evaluated.(errors := evaluated.errors + [e.name]);
      } else {
        var c := WalkValue(h, e.value.value, 0, e.limits, ctx);
        evaluated := evaluated.(values := Put(evaluated.values, e.name, c));
      }
      i := i + 1;
    }
  }

  // ---- Without a clock ------------------------------------------------------------------------------

  function Failed(expressions: seq<CaptureExpression>): seq<string> {
    if expressions == [] then []
    else (if expressions[0].value.None? then [expressions[0].name] else []) + Failed(expressions[1..])
  }

  function PictureOfExpressions(h: Heap, expressions: seq<CaptureExpression>, done: Record): Record
    decreases |expressions|
  {
    if expressions == [] then done
    else
      var e := expressions[0];
      PictureOfExpressions(h, expressions[1..],
                           if e.value.None? then done else Put(done, e.name, Picture(h, e.value.value, 0, e.limits)))
  }

  function PictureOfEntry(
    h: Heap, probe: Probe, args: HeapObject, self: Option<Value>, expressions: seq<CaptureExpression>
  ): Part {
    if probe.captureSnapshot && (probe.atEntry || !probe.hasCondition) then Arguments(PictureOfArguments(h, args, self, probe.limits))
    else if probe.atEntry && probe.hasExpressions && !probe.captureSnapshot
    then ExpressionsPart(PictureOfExpressions(h, expressions, Record([], [])))
    else Nothing
  }

  /** The part of the exit: `snapshot` for a snapshot probe, else the expressions of an exit probe. */
  function PictureOfExit(h: Heap, probe: Probe, snapshot: Part, expressions: seq<CaptureExpression>): Part {
    if probe.captureSnapshot then snapshot
    else if !probe.atEntry && probe.hasExpressions
    then ExpressionsPart(PictureOfExpressions(h, expressions, Record([], [])))
    else Nothing
  }

  function PictureOfReturn(
    h: Heap, args: HeapObject, self: Option<Value>, locals: HeapObject, returned: Value, l: Limits
  ): Part {
    Return(Snapshot(PictureOfArguments(h, args, self, l),
                    Put(PictureOfFields(h, First(locals.properties, l.maxFieldCount), 0, l), "@return",
                        Picture(h, returned, 0, l))))
  }

  /** The expressions that fail: those of the hook at which the probe evaluates. */
  function Failing(probe: Probe, onEntry: seq<CaptureExpression>, onExit: seq<CaptureExpression>): seq<string> {
    if probe.captureSnapshot || !probe.hasExpressions then []
    else if probe.atEntry then Failed(onEntry)
    else Failed(onExit)
  }

  predicate CompletePart(part: Part) {
    match part
    case Nothing => true
    case Arguments(record) => AllComplete(record.fields)
    case Expressions(record) => AllComplete(record.fields)
    case Return(snapshot) => AllComplete(snapshot.arguments.fields) && AllComplete(snapshot.locals.fields)
  }

  // ---- Proofs ---------------------------------------------------------------------------------------

  lemma {:induction false} EvaluateInTime(
    h: Heap, late: Clock, expressions: seq<CaptureExpression>, done: Evaluated, ctx: Context
  )
    ensures
      var (evaluated, end) := Evaluate(h, late, expressions, done, ctx);
      !end.timedOut ==>
        && evaluated.values == PictureOfExpressions(h, expressions, done.values)
        && evaluated.errors == done.errors + Failed(expressions)
    decreases |expressions|
  {
    if expressions != [] {
      var e, rest := expressions[0], expressions[1..];
      if e.value.None? {
        EvaluateInTime(h, late, rest, done.(errors := done.errors + [e.name]), ctx);
        assert done.errors + [e.name] + Failed(rest) == done.errors + ([e.name] + Failed(rest));
      } else {
        InTimeIsPicture(h, late, e.value.value, 0, e.limits, ctx);
        var (c, after) := CaptureValue(h, late, e.value.value, 0, e.limits, ctx);
        EvaluateInTime(h, late, rest, done.(values := Put(done.values, e.name, c)), after);
      }
      assert [] + Failed(rest) == Failed(rest);
    }
  }

  lemma {:induction false} ExpressionsAreComplete(h: Heap, expressions: seq<CaptureExpression>, done: Record)
    requires AllComplete(done.fields)
    ensures AllComplete(PictureOfExpressions(h, expressions, done).fields)
    decreases |expressions|
  {
    if expressions != [] {
      var e := expressions[0];
      if e.value.Some? {
        PictureIsComplete(h, e.value.value, 0, e.limits);
        PutComplete(done, e.name, Picture(h, e.value.value, 0, e.limits));
        ExpressionsAreComplete(h, expressions[1..], Put(done, e.name, Picture(h, e.value.value, 0, e.limits)));
      } else {
        ExpressionsAreComplete(h, expressions[1..], done);
      }
    }
  }

  /** An entry that is pushed holds the picture, and the expressions that failed on entry. */
  lemma EntryInTime(
    h: Heap, late: Clock, probe: Probe, args: HeapObject, self: Option<Value>, expressions: seq<CaptureExpression>,
    ctx: Context
  )
    ensures
      var pushed := CaptureEntry(h, late, probe, args, self, expressions, ctx).0;
      pushed.Some? ==>
        && pushed.value.entry == PictureOfEntry(h, probe, args, self, expressions) && CompletePart(pushed.value.entry)
        && pushed.value.errors == (if probe.atEntry && probe.UsesExpressions() then Failed(expressions) else [])
  {
    EvaluateInTime(h, late, expressions, NothingYet(), ctx);
    ExpressionsAreComplete(h, expressions, Record([], []));
    ArgumentsInTime(h, late, args, self, probe.limits, ctx);
    ArgumentsAreComplete(h, args, self, probe.limits);
    assert [] + Failed(expressions) == Failed(expressions);
  }

  /** What is queued at a return: the entry's part as it was pushed, and the picture of the exit's part. */
  lemma ReturnInTime(
    h: Heap, late: Clock, probe: Probe, active: ActiveEntry, args: HeapObject, self: Option<Value>, locals: HeapObject,
    returned: Value, expressions: seq<CaptureExpression>, ctx: Context
  )
    ensures
      var queued := CaptureExit(h, late, probe, active, args, self, locals, returned, expressions, ctx);
      queued.Some? ==>
        && queued.value.entry == active.entry
        && queued.value.exit ==
           PictureOfExit(h, probe, PictureOfReturn(h, args, self, locals, returned, probe.limits), expressions)
        && CompletePart(queued.value.exit)
        && queued.value.errors ==
           active.errors + (if !probe.atEntry && probe.UsesExpressions() then Failed(expressions) else [])
  {
    EvaluateInTime(h, late, expressions, NothingYet(), ctx);
    ExpressionsAreComplete(h, expressions, Record([], []));
    QueuedSnapshotsAreComplete(h, late, args, self, locals, returned, probe.limits, ctx);
    assert [] + Failed(expressions) == Failed(expressions);
  }

  lemma ThrowInTime(
    h: Heap, late: Clock, probe: Probe, active: ActiveEntry, args: HeapObject, self: Option<Value>,
    expressions: seq<CaptureExpression>, ctx: Context
  )
    ensures
      var queued := CaptureThrow(h, late, probe, active, args, self, expressions, ctx);
      queued.Some? ==>
        && queued.value.entry == active.entry
        && queued.value.exit ==
           PictureOfExit(h, probe, Arguments(PictureOfArguments(h, args, self, probe.limits)), expressions)
        && CompletePart(queued.value.exit)
        && queued.value.errors ==
           active.errors + (if !probe.atEntry && probe.UsesExpressions() then Failed(expressions) else [])
  {
    EvaluateInTime(h, late, expressions, NothingYet(), ctx);
    ExpressionsAreComplete(h, expressions, Record([], []));
    ArgumentsInTime(h, late, args, self, probe.limits, ctx);
    ArgumentsAreComplete(h, args, self, probe.limits);
    assert [] + Failed(expressions) == Failed(expressions);
  }

  // ---- Theorems -------------------------------------------------------------------------------------

  /** Over a whole activation that returns, whatever the probe and whatever the two clocks say: what is queued
      holds the pictures of its entry and of its exit, each in the heap of its hook, no value that was cut by
      timeout, and the names of the expressions that failed. */
  lemma QueuedActivationIsComplete(
    h1: Heap, late1: Clock, ctx1: Context, h2: Heap, late2: Clock, ctx2: Context, probe: Probe,
    args1: HeapObject, self1: Option<Value>, onEntry: seq<CaptureExpression>,
    args2: HeapObject, self2: Option<Value>, locals: HeapObject, returned: Value, onExit: seq<CaptureExpression>
  )
    ensures
      var pushed := CaptureEntry(h1, late1, probe, args1, self1, onEntry, ctx1).0;
      pushed.Some? ==>
        var queued := CaptureExit(h2, late2, probe, pushed.value, args2, self2, locals, returned, onExit, ctx2);
        queued.Some? ==>
          && queued.value.entry == PictureOfEntry(h1, probe, args1, self1, onEntry)
          && queued.value.exit ==
             PictureOfExit(h2, probe, PictureOfReturn(h2, args2, self2, locals, returned, probe.limits), onExit)
          && CompletePart(queued.value.entry) && CompletePart(queued.value.exit)
          && queued.value.errors == Failing(probe, onEntry, onExit)
  {
    EntryInTime(h1, late1, probe, args1, self1, onEntry, ctx1);
    var pushed := CaptureEntry(h1, late1, probe, args1, self1, onEntry, ctx1).0;
    if pushed.Some? {
      ReturnInTime(h2, late2, probe, pushed.value, args2, self2, locals, returned, onExit, ctx2);
      ErrorsOfOneHook(probe, onEntry, onExit);
    }
  }

  /** The same for an activation that throws. */
  lemma QueuedThrowIsComplete(
    h1: Heap, late1: Clock, ctx1: Context, h2: Heap, late2: Clock, ctx2: Context, probe: Probe,
    args1: HeapObject, self1: Option<Value>, onEntry: seq<CaptureExpression>,
    args2: HeapObject, self2: Option<Value>, onExit: seq<CaptureExpression>
  )
    ensures
      var pushed := CaptureEntry(h1, late1, probe, args1, self1, onEntry, ctx1).0;
      pushed.Some? ==>
        var queued := CaptureThrow(h2, late2, probe, pushed.value, args2, self2, onExit, ctx2);
        queued.Some? ==>
          && queued.value.entry == PictureOfEntry(h1, probe, args1, self1, onEntry)
          && queued.value.exit ==
             PictureOfExit(h2, probe, Arguments(PictureOfArguments(h2, args2, self2, probe.limits)), onExit)
          && CompletePart(queued.value.entry) && CompletePart(queued.value.exit)
          && queued.value.errors == Failing(probe, onEntry, onExit)
  {
    EntryInTime(h1, late1, probe, args1, self1, onEntry, ctx1);
    var pushed := CaptureEntry(h1, late1, probe, args1, self1, onEntry, ctx1).0;
    if pushed.Some? {
      ThrowInTime(h2, late2, probe, pushed.value, args2, self2, onExit, ctx2);
      ErrorsOfOneHook(probe, onEntry, onExit);
    }
  }

  lemma ErrorsOfOneHook(probe: Probe, onEntry: seq<CaptureExpression>, onExit: seq<CaptureExpression>)
    ensures
      (if probe.atEntry && probe.UsesExpressions() then Failed(onEntry) else [])
      + (if !probe.atEntry && probe.UsesExpressions() then Failed(onExit) else []) == Failing(probe, onEntry, onExit)
  {}
}
