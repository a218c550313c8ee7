/** The walker itself, proved against `Capture`: one context with a sticky flag is shared by a whole walk, and
    loops that ask it before every part fill elements, entries and fields. */
module CaptureWalker {
  import opened Wrappers
  import opened Capture
  import opened CaptureProofs

  class CaptureContext {
    const late: Clock
    var readings: nat
    var timedOut: bool

    function Abs(): Context
      reads this
    {
      Context(readings, timedOut)
    }

    constructor (late: Clock)
      ensures Abs() == Context(0, false) && this.late == late
    {
      this.late, readings, timedOut := late, 0, false;
    }

    method IsTimedOut() returns (answer: bool)
      modifies this
      ensures Abs() == Check(late, old(Abs())) && answer == timedOut
    {
      if timedOut {
        return true;
      }
      var isLate := late(readings);
      readings := readings + 1;
      if isLate {
        timedOut := true;
        return true;
      }
      return false;
    }
  }

  /** `captureValue`. When the context has not timed out in the end, this is the picture of the value. */
  method WalkValue(h: Heap, v: Value, depth: nat, l: Limits, ctx: CaptureContext) returns (c: Captured)
    modifies ctx
    ensures (c, ctx.Abs()) == CaptureValue(h, ctx.late, v, depth, l, old(ctx.Abs()))
    decreases Fuel(depth, l), 3, 0
  {
    var timedOut := ctx.IsTimedOut();
    if timedOut {
      return NotCaptured(TypeOf(h, v), Timeout);
    }
    match v
    case Undefined => return Bare("undefined");
    case Null => return Bare("null");
    case Boolean(b) => return Scalar("boolean", if b then "true" else "false");
    case Number(text) => return Scalar("number", text);
    case String(s) => return CaptureString(s, l.maxLength);
    case Symbol(description) => return Scalar("symbol", description);
    case BigInt(text) => return Scalar("bigint", text);
    case Reference(at) => c := WalkObject(h, h(at), depth, l, ctx);
  }

  method WalkObject(h: Heap, o: HeapObject, depth: nat, l: Limits, ctx: CaptureContext) returns (c: Captured)
    modifies ctx
    ensures (c, ctx.Abs()) == CaptureObject(h, ctx.late, o, depth, l, old(ctx.Abs()))
    decreases Fuel(depth, l), 2, 0
  {
    if o.kind.ClassObject? {
      return Bare(o.typeName);
    }
    if depth >= l.maxReferenceDepth {
      return NotCaptured(o.typeName, Depth);
    }
    match o.kind
    case ClassObject => return Bare(o.typeName);
    case Plain => c := WalkProperties(h, o, depth, l, ctx);
    case FunctionObject => c := WalkProperties(h, o, depth, l, ctx);
    case Described(text) => return Scalar(o.typeName, text);
    case ErrorObject(_, _, _, _) => c := WalkError(h, o, depth, l, ctx);
    case Opaque(reason) => return NotCaptured(o.typeName, Uninspectable(reason));
    case ArrayObject(items) => c := WalkElements(h, "Array", items, depth, l, ctx);
    case SetObject(items) => c := WalkElements(h, "Set", items, depth, l, ctx);
    case TypedArray(items, byteLength, byteOffset, length) =>
      c := WalkElements(h, o.typeName, items, depth, l, ctx);
      c := c.(names := ["byteLength", "byteOffset", "length"],
              fields := [NumberField(byteLength), NumberField(byteOffset), NumberField(length)]);
    case MapObject(entries) => c := WalkMap(h, entries, depth, l, ctx);
    case DataView(byteLength, byteOffset, buffer) =>
      return Captured(Label("DataView", None, None, None, false), [], [], ["byteLength", "byteOffset", "buffer"],
                      [NumberField(byteLength), NumberField(byteOffset), Scalar("ArrayBuffer", buffer)]);
  }

  /** The loops of arrays, sets and typed arrays. */
  method WalkElements(h: Heap, typeName: string, items: seq<Value>, depth: nat, l: Limits, ctx: CaptureContext)
    returns (c: Captured)
    requires depth <= l.maxReferenceDepth
    modifies ctx
    ensures (c, ctx.Abs()) == CaptureElements(h, ctx.late, typeName, items, depth, l, old(ctx.Abs()))
    decreases Fuel(depth, l), 1, 0
  {
    var toCapture := First(items, l.maxCollectionSize);
    ghost var all := CaptureItems(h, ctx.late, toCapture, depth, l, ctx.Abs());
    var elements: seq<Captured> := [];
    assert toCapture[0..] == toCapture && elements + all.0 == all.0;
    var i := 0;
    while i < |toCapture|
      invariant 0 <= i <= |toCapture|
      invariant all.0 == elements + CaptureItems(h, ctx.late, toCapture[i..], depth, l, ctx.Abs()).0
      invariant all.1 == CaptureItems(h, ctx.late, toCapture[i..], depth, l, ctx.Abs()).1
    {
      assert toCapture[i..][1..] == toCapture[i + 1..];
      var timedOut := ctx.IsTimedOut();
      if timedOut {
        assert elements + [] == elements;
        break;
      }
      var element := WalkValue(h, toCapture[i], depth + 1, l, ctx);
      elements := elements + [element];
      i := i + 1;
    }
    assert all.0 == elements && all.1 == ctx.Abs();
    c := Captured(CutLabel(typeName, |items|, l.maxCollectionSize, CollectionSize), elements, [], [], []);
  }

  method WalkMap(h: Heap, entries: seq<(Value, Value)>, depth: nat, l: Limits, ctx: CaptureContext) returns (c: Captured)
    requires depth <= l.maxReferenceDepth
    modifies ctx
    ensures
      var (captured, end) := CaptureEntries(h, ctx.late, First(entries, l.maxCollectionSize), depth, l, old(ctx.Abs()));
      && c == Captured(CutLabel("Map", |entries|, l.maxCollectionSize, CollectionSize), [], captured, [], [])
      && ctx.Abs() == end
    decreases Fuel(depth, l), 1, 0
  {
    var toCapture := First(entries, l.maxCollectionSize);
    ghost var all := CaptureEntries(h, ctx.late, toCapture, depth, l, ctx.Abs());
    var captured: seq<Captured> := [];
    assert toCapture[0..] == toCapture && captured + all.0 == all.0;
    var i := 0;
    while i < |toCapture|
      invariant 0 <= i <= |toCapture|
      invariant all.0 == captured + CaptureEntries(h, ctx.late, toCapture[i..], depth, l, ctx.Abs()).0
      invariant all.1 == CaptureEntries(h, ctx.late, toCapture[i..], depth, l, ctx.Abs()).1
    {
      assert toCapture[i..][1..] == toCapture[i + 1..];
      var timedOut := ctx.IsTimedOut();
      if timedOut {
        assert captured + [] == captured;
        break;
      }
      var key := WalkValue(h, toCapture[i].0, depth + 1, l, ctx);
      var value := WalkValue(h, toCapture[i].1, depth + 1, l, ctx);
      captured := captured + [key, value];
      i := i + 1;
    }
    assert all.0 == captured && all.1 == ctx.Abs();
    c := Captured(CutLabel("Map", |entries|, l.maxCollectionSize, CollectionSize), [], captured, [], []);
  }

  method WalkProperty(h: Heap, p: Property, depth: nat, l: Limits, ctx: CaptureContext) returns (c: Captured)
    requires depth <= l.maxReferenceDepth
    modifies ctx
    ensures (c, ctx.Abs()) == CaptureProperty(h, ctx.late, p, depth, l, old(ctx.Abs()))
    decreases Fuel(depth, l), 0, 0
  {
    if p.Throws? {
      return InaccessibleProperty();
    }
    c := WalkValue(h, p.value, depth + 1, l, ctx);
  }

  /** `captureFields`. */
  method WalkFields(h: Heap, o: HeapObject, depth: nat, l: Limits, ctx: CaptureContext) returns (record: Record)
    requires depth <= l.maxReferenceDepth
    modifies ctx
    ensures (record, ctx.Abs()) == CaptureFields(h, ctx.late, o, depth, l, old(ctx.Abs()))
    decreases Fuel(depth, l), 1, |o.properties| + 1
  {
    var toCapture := First(o.properties, l.maxFieldCount);
    record := Record([], []);
    ghost var all := CaptureFieldsFrom(h, ctx.late, toCapture, record, depth, l, ctx.Abs());
    assert toCapture[0..] == toCapture;
    var i := 0;
    while i < |toCapture|
      invariant 0 <= i <= |toCapture|
      invariant all == CaptureFieldsFrom(h, ctx.late, toCapture[i..], record, depth, l, ctx.Abs())
    {
      assert toCapture[i..][1..] == toCapture[i + 1..];
      var timedOut := ctx.IsTimedOut();
      if timedOut {
        break;
      }
      var c := WalkProperty(h, toCapture[i].1, depth, l, ctx);
      record := Put(record, KeyName(toCapture[i].0), c);
      i := i + 1;
    }
    assert all == (record, ctx.Abs());
  }

  method WalkProperties(h: Heap, o: HeapObject, depth: nat, l: Limits, ctx: CaptureContext) returns (c: Captured)
    requires depth <= l.maxReferenceDepth
    modifies ctx
    ensures (c, ctx.Abs()) == CaptureProperties(h, ctx.late, o, depth, l, old(ctx.Abs()))
    decreases Fuel(depth, l), 1, |o.properties| + 2
  {
    var record := WalkFields(h, o, depth, l, ctx);
    c := Captured(CutLabel(o.typeName, |o.properties|, l.maxFieldCount, FieldCount), [], [], record.names, record.fields);
  }

  method WalkError(h: Heap, o: HeapObject, depth: nat, l: Limits, ctx: CaptureContext) returns (c: Captured)
    requires depth <= l.maxReferenceDepth && o.kind.ErrorObject?
    modifies ctx
    ensures (c, ctx.Abs()) == CaptureError(h, ctx.late, o, depth, l, old(ctx.Abs()))
    decreases Fuel(depth, l), 1, 0
  {
    var message := WalkProperty(h, o.kind.message, depth, l, ctx);
    var name := WalkProperty(h, o.kind.name, depth, l, ctx);
    var stack, cause := message, message;
    if IsPresent(o.kind.stack) {
      stack := WalkProperty(h, o.kind.stack, depth, l, ctx);
    }
    if IsPresent(o.kind.cause) {
      cause := WalkProperty(h, o.kind.cause, depth, l, ctx);
    }
    c := ErrorFields(o, message, name, stack, cause);
  }

  /** What `onReturn` captures: all parts share one context, and nothing is queued when it has timed out. */
  method WalkReturn(
    h: Heap, args: HeapObject, self: Option<Value>, locals: HeapObject, returned: Value, l: Limits, ctx: CaptureContext
  ) returns (queued: Option<Snapshot>)
    modifies ctx
    ensures queued == CaptureReturn(h, ctx.late, args, self, locals, returned, l, old(ctx.Abs()))
    ensures queued.Some? ==>
              queued.value.arguments == PictureOfArguments(h, args, self, l)
              && AllComplete(queued.value.arguments.fields) && AllComplete(queued.value.locals.fields)
  {
    QueuedSnapshotsAreComplete(h, ctx.late, args, self, locals, returned, l, ctx.Abs());
    var arguments := WalkFields(h, args, 0, l, ctx);
    if self.Some? {
      var c := WalkValue(h, self.value, 0, l, ctx);
      arguments := Put(arguments, "this", c);
    }
    var fields := WalkFields(h, locals, 0, l, ctx);
    var value := WalkValue(h, returned, 0, l, ctx);
    if ctx.timedOut {
      return None;
    }
    return Some(Snapshot(arguments, Put(fields, "@return", value)));
  }
}
