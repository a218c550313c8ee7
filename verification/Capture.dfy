/** Capturing values of the running program: a walk over an object graph that may be cyclic, or even infinite
    (getters can make objects without end), under limits of depth, size and time.

    Objects are numbered; `Heap` tells what is behind a number. The clock is read whenever the walk asks whether
    it is late; `late(n)` is what the n-th reading answers. */
module Capture {
  import opened Wrappers

  datatype Value =
    | Undefined
    | Null
    | Boolean(b: bool)
    | Number(text: string)
    | String(s: string)
    | Symbol(description: string)
    | BigInt(text: string)
    | Reference(at: nat)

  /** What reading a property gives. */
  datatype Property = Data(value: Value) | Throws

  datatype PropertyKey = StringKey(s: string) | SymbolKey(description: string)

  datatype Kind =
    | Plain
    | FunctionObject
    | ClassObject
    | Described(text: string)
    | ErrorObject(message: Property, name: Property, stack: Property, cause: Property)
    | Opaque(reason: string)
    | ArrayObject(items: seq<Value>)
    | SetObject(items: seq<Value>)
    | TypedArray(items: seq<Value>, byteLength: string, byteOffset: string, length: string)
    | MapObject(entries: seq<(Value, Value)>)
    | DataView(byteLength: string, byteOffset: string, buffer: string)

  /** An object of a kind: dates, regular expressions and buffers are `Described`; promises and weak
      collections are `Opaque`. */
  datatype HeapObject = HeapObject(kind: Kind, typeName: string, properties: seq<(PropertyKey, Property)>)

  type Heap = nat -> HeapObject

  type Clock = nat -> bool

  /** The readings of the clock so far, and whether one of them was late. */
  datatype Context = Context(readings: nat, timedOut: bool)

  datatype Limits = Limits(maxReferenceDepth: nat, maxCollectionSize: nat, maxFieldCount: nat, maxLength: nat)

  datatype Reason = Timeout | Depth | CollectionSize | FieldCount | AccessError | Uninspectable(text: string)

  datatype Label = Label(
    typeName: string,
    value: Option<string>,
    notCapturedReason: Option<Reason>,
    size: Option<nat>,
    truncated: bool)

  /** A captured value. Entries alternate keys and values; fields are named by `names`, in the same order. */
  datatype Captured = Captured(
    info: Label,
    elements: seq<Captured>,
    entries: seq<Captured>,
    names: seq<string>,
    fields: seq<Captured>)

  // ---- Parts of the result ------------------------------------------------------------------------

  function Leaf(info: Label): Captured {
    Captured(info, [], [], [], [])
  }

  function Scalar(typeName: string, text: string): Captured {
    Leaf(Label(typeName, Some(text), None, None, false))
  }

  function Bare(typeName: string): Captured {
    Leaf(Label(typeName, None, None, None, false))
  }

  function NotCaptured(typeName: string, reason: Reason): Captured {
    Leaf(Label(typeName, None, Some(reason), None, false))
  }

  function InaccessibleProperty(): Captured {
    NotCaptured("", AccessError)
  }

  function TypeOf(h: Heap, v: Value): string {
    match v
    case Undefined => "undefined"
    case Null => "null"
    case Boolean(_) => "boolean"
    case Number(_) => "number"
    case String(_) => "string"
    case Symbol(_) => "symbol"
    case BigInt(_) => "bigint"
    case Reference(at) => if h(at).kind.FunctionObject? || h(at).kind.ClassObject? then "function" else "object"
  }

  function CaptureString(s: string, maxLength: nat): Captured {
    if |s| <= maxLength then Scalar("string", s)
    else Leaf(Label("string", Some(s[..maxLength]), None, Some(|s|), true))
  }

  /** The label of a collection or an object, of which at most `limit` parts are captured. */
  function CutLabel(typeName: string, total: nat, limit: nat, reason: Reason): Label {
    if total > limit then Label(typeName, None, Some(reason), Some(total), false)
    else Label(typeName, None, None, None, false)
  }

  function First<T>(items: seq<T>, limit: nat): seq<T> {
    if |items| <= limit then items else items[..limit]
  }

  function ReplaceDots(s: string): string {
    seq(|s|, i requires 0 <= i < |s| => if s[i] == '.' then '_' else s[i])
  }

  function KeyName(key: PropertyKey): string {
    match key
    case StringKey(s) => ReplaceDots(s)
    case SymbolKey(description) => if description == "" then "Symbol()" else description
  }

  /** Fields with one more: a name that is there already is overwritten. */
  datatype Record = Record(names: seq<string>, fields: seq<Captured>)

  function IndexOfName(names: seq<string>, name: string): (i: nat)
    ensures i <= |names|
  {
    if names == [] then 0 else if names[0] == name then 0 else 1 + IndexOfName(names[1..], name)
  }

  function Put(r: Record, name: string, c: Captured): Record {
    var i := IndexOfName(r.names, name);
    if i < |r.names| && i < |r.fields| then r.(fields := r.fields[i := c])
    else Record(r.names + [name], r.fields + [c])
  }

  function NumberField(text: string): Captured {
    Scalar("number", text)
  }

  // ---- The walk -----------------------------------------------------------------------------------

  /** `isTimedOut` */
  function Check(late: Clock, ctx: Context): Context {
    if ctx.timedOut then ctx else Context(ctx.readings + 1, late(ctx.readings))
  }

  /** A walk that ends in time began in time, and no reading of the clock in between was late. */
  ghost predicate Noticed(late: Clock, before: Context, after: Context) {
    (before.timedOut ==> after.timedOut) &&
    (!after.timedOut ==>
       before.readings <= after.readings && forall n | before.readings <= n < after.readings :: !late(n))
  }

  function Fuel(depth: nat, l: Limits): nat {
    if depth <= l.maxReferenceDepth then l.maxReferenceDepth + 1 - depth else 0
  }

  function CaptureValue(h: Heap, late: Clock, v: Value, depth: nat, l: Limits, ctx: Context): (r: (Captured, Context))
    ensures Noticed(late, ctx, r.1) && (!r.1.timedOut ==> ctx.readings < r.1.readings)
    decreases Fuel(depth, l), 3, 0
  {
    var checked := Check(late, ctx);
    if checked.timedOut then (NotCaptured(TypeOf(h, v), Timeout), checked)
    else
      match v
      case Undefined => (Bare("undefined"), checked)
      case Null => (Bare("null"), checked)
      case Boolean(b) => (Scalar("boolean", if b then "true" else "false"), checked)
      case Number(text) => (Scalar("number", text), checked)
      case String(s) => (CaptureString(s, l.maxLength), checked)
      case Symbol(description) => (Scalar("symbol", description), checked)
      case BigInt(text) => (Scalar("bigint", text), checked)
      case Reference(at) => CaptureObject(h, late, h(at), depth, l, checked)
  }

  function CaptureObject(h: Heap, late: Clock, o: HeapObject, depth: nat, l: Limits, ctx: Context): (r: (Captured, Context))
    ensures Noticed(late, ctx, r.1)
    decreases Fuel(depth, l), 2, 0
  {
    if o.kind.ClassObject? then (Bare(o.typeName), ctx)
    else if depth >= l.maxReferenceDepth then (NotCaptured(o.typeName, Depth), ctx)
    else
      match o.kind
      case ClassObject => (Bare(o.typeName), ctx)
      case Plain => CaptureProperties(h, late, o, depth, l, ctx)
      case FunctionObject => CaptureProperties(h, late, o, depth, l, ctx)
      case Described(text) => (Scalar(o.typeName, text), ctx)
      case ErrorObject(_, _, _, _) => CaptureError(h, late, o, depth, l, ctx)
      case Opaque(reason) => (NotCaptured(o.typeName, Uninspectable(reason)), ctx)
      case ArrayObject(items) => CaptureElements(h, late, "Array", items, depth, l, ctx)
      case SetObject(items) => CaptureElements(h, late, "Set", items, depth, l, ctx)
      case TypedArray(items, byteLength, byteOffset, length) =>
        var (c, after) := CaptureElements(h, late, o.typeName, items, depth, l, ctx);
        (c.(names := ["byteLength", "byteOffset", "length"],
            fields := [NumberField(byteLength), NumberField(byteOffset), NumberField(length)]), after)
      case MapObject(entries) =>
        var (captured, after) := CaptureEntries(h, late, First(entries, l.maxCollectionSize), depth, l, ctx);
        (Captured(CutLabel("Map", |entries|, l.maxCollectionSize, CollectionSize), [], captured, [], []), after)
      case DataView(byteLength, byteOffset, buffer) =>
        (Captured(Label("DataView", None, None, None, false), [], [], ["byteLength", "byteOffset", "buffer"],
                  [NumberField(byteLength), NumberField(byteOffset), Scalar("ArrayBuffer", buffer)]), ctx)
  }

  function CaptureElements(
    h: Heap, late: Clock, typeName: string, items: seq<Value>, depth: nat, l: Limits, ctx: Context
  ): (r: (Captured, Context))
    requires depth <= l.maxReferenceDepth
    ensures Noticed(late, ctx, r.1)
    decreases Fuel(depth, l), 1, 0
  {
    var (captured, after) := CaptureItems(h, late, First(items, l.maxCollectionSize), depth, l, ctx);
    (Captured(CutLabel(typeName, |items|, l.maxCollectionSize, CollectionSize), captured, [], [], []), after)
  }

  function CaptureItems(h: Heap, late: Clock, items: seq<Value>, depth: nat, l: Limits, ctx: Context): (r: (seq<Captured>, Context))
    requires depth <= l.maxReferenceDepth
    ensures Noticed(late, ctx, r.1)
    decreases Fuel(depth, l), 0, |items|
  {
    if items == [] then ([], ctx)
    else
      var checked := Check(late, ctx);
      if checked.timedOut then ([], checked)
      else
        var (c, after) := CaptureValue(h, late, items[0], depth + 1, l, checked);
        var (rest, end) := CaptureItems(h, late, items[1..], depth, l, after);
        ([c] + rest, end)
  }

  function CaptureEntries(
    h: Heap, late: Clock, entries: seq<(Value, Value)>, depth: nat, l: Limits, ctx: Context
  ): (r: (seq<Captured>, Context))
    requires depth <= l.maxReferenceDepth
    ensures Noticed(late, ctx, r.1)
    decreases Fuel(depth, l), 0, |entries|
  {
    if entries == [] then ([], ctx)
    else
      var checked := Check(late, ctx);
      if checked.timedOut then ([], checked)
      else
        var (key, afterKey) := CaptureValue(h, late, entries[0].0, depth + 1, l, checked);
        var (value, after) := CaptureValue(h, late, entries[0].1, depth + 1, l, afterKey);
        var (rest, end) := CaptureEntries(h, late, entries[1..], depth, l, after);
        ([key, value] + rest, end)
  }

  /** `captureProperty` */
  function CaptureProperty(h: Heap, late: Clock, p: Property, depth: nat, l: Limits, ctx: Context): (r: (Captured, Context))
    requires depth <= l.maxReferenceDepth
    ensures Noticed(late, ctx, r.1)
    decreases Fuel(depth, l), 0, 0
  {
    match p
    case Throws => (InaccessibleProperty(), ctx)
    case Data(value) => CaptureValue(h, late, value, depth + 1, l, ctx)
  }

  /** The loop of `captureObjectPropertiesFields`. */
  function CaptureFieldsFrom(
    h: Heap, late: Clock, properties: seq<(PropertyKey, Property)>, record: Record, depth: nat, l: Limits, ctx: Context
  ): (r: (Record, Context))
    requires depth <= l.maxReferenceDepth
    ensures Noticed(late, ctx, r.1)
    decreases Fuel(depth, l), 1, |properties|
  {
    if properties == [] then (record, ctx)
    else
      var checked := Check(late, ctx);
      if checked.timedOut then (record, checked)
      else
        var (c, after) := CaptureProperty(h, late, properties[0].1, depth, l, checked);
        CaptureFieldsFrom(h, late, properties[1..], Put(record, KeyName(properties[0].0), c), depth, l, after)
  }

  function CaptureFields(h: Heap, late: Clock, o: HeapObject, depth: nat, l: Limits, ctx: Context): (r: (Record, Context))
    requires depth <= l.maxReferenceDepth
    ensures Noticed(late, ctx, r.1)
    decreases Fuel(depth, l), 1, |o.properties| + 1
  {
    CaptureFieldsFrom(h, late, First(o.properties, l.maxFieldCount), Record([], []), depth, l, ctx)
  }

  function CaptureProperties(h: Heap, late: Clock, o: HeapObject, depth: nat, l: Limits, ctx: Context): (r: (Captured, Context))
    requires depth <= l.maxReferenceDepth
    ensures Noticed(late, ctx, r.1)
    decreases Fuel(depth, l), 1, |o.properties| + 2
  {
    var (record, after) := CaptureFields(h, late, o, depth, l, ctx);
    var info := CutLabel(o.typeName, |o.properties|, l.maxFieldCount, FieldCount);
    (Captured(info, [], [], record.names, record.fields), after)
  }

  predicate IsPresent(p: Property) {
    p != Data(Undefined)
  }

  function CaptureError(h: Heap, late: Clock, o: HeapObject, depth: nat, l: Limits, ctx: Context): (r: (Captured, Context))
    requires depth <= l.maxReferenceDepth && o.kind.ErrorObject?
    ensures Noticed(late, ctx, r.1)
    decreases Fuel(depth, l), 1, 0
  {
    var (message, c1) := CaptureProperty(h, late, o.kind.message, depth, l, ctx);
    var (name, c2) := CaptureProperty(h, late, o.kind.name, depth, l, c1);
    var (stack, c3) := if IsPresent(o.kind.stack) then CaptureProperty(h, late, o.kind.stack, depth, l, c2) else (message, c2);
    var (cause, c4) := if IsPresent(o.kind.cause) then CaptureProperty(h, late, o.kind.cause, depth, l, c3) else (message, c3);
    (ErrorFields(o, message, name, stack, cause), c4)
  }

  function ErrorFields(o: HeapObject, message: Captured, name: Captured, stack: Captured, cause: Captured): Captured
    requires o.kind.ErrorObject?
  {
    var hasStack, hasCause := IsPresent(o.kind.stack), IsPresent(o.kind.cause);
    Captured(Label(o.typeName, None, None, None, false), [], [],
             ["message", "name"] + (if hasStack then ["stack"] else []) + (if hasCause then ["cause"] else []),
             [message, name] + (if hasStack then [stack] else []) + (if hasCause then [cause] else []))
  }
}
