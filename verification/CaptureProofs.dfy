/** Capture is bounded on every heap, and honest: a walk that ends in time gives exactly what a walk without
    a deadline gives. */
module CaptureProofs {
  import opened Wrappers
  import opened Capture

  // ---- The picture of a value, without a clock ------------------------------------------------------

  function FieldsOf(names: seq<string>, values: seq<Captured>): Record
    requires |names| == |values|
  {
    if names == [] then Record([], [])
    else
      var n := |names| - 1;
      Put(FieldsOf(names[..n], values[..n]), names[n], values[n])
  }

  function Picture(h: Heap, v: Value, depth: nat, l: Limits): Captured
    decreases Fuel(depth, l), 2, 0
  {
    match v
    case Undefined => Bare("undefined")
    case Null => Bare("null")
    case Boolean(b) => Scalar("boolean", if b then "true" else "false")
    case Number(text) => Scalar("number", text)
    case String(s) => CaptureString(s, l.maxLength)
    case Symbol(description) => Scalar("symbol", description)
    case BigInt(text) => Scalar("bigint", text)
    case Reference(at) => PictureOfObject(h, h(at), depth, l)
  }

  function Pictures(h: Heap, values: seq<Value>, depth: nat, l: Limits): (r: seq<Captured>)
    requires depth <= l.maxReferenceDepth
    ensures |r| == |values|
    decreases Fuel(depth, l), 0, 0
  {
    seq(|values|, i requires 0 <= i < |values| => Picture(h, values[i], depth + 1, l))
  }

  function PictureOfProperty(h: Heap, p: Property, depth: nat, l: Limits): Captured
    requires depth <= l.maxReferenceDepth
    decreases Fuel(depth, l), 0, 0
  {
    if p.Throws? then InaccessibleProperty() else Picture(h, p.value, depth + 1, l)
  }

  function Names(properties: seq<(PropertyKey, Property)>): seq<string> {
    seq(|properties|, i requires 0 <= i < |properties| => KeyName(properties[i].0))
  }

  function PictureOfFields(h: Heap, properties: seq<(PropertyKey, Property)>, depth: nat, l: Limits): Record
    requires depth <= l.maxReferenceDepth
    decreases Fuel(depth, l), 0, 1
  {
    FieldsOf(Names(properties),
             seq(|properties|, i requires 0 <= i < |properties| => PictureOfProperty(h, properties[i].1, depth, l)))
  }

  /** Keys and values of some entries, alternating. */
  function Flat(entries: seq<(Value, Value)>): seq<Value> {
    if entries == [] then [] else [entries[0].0, entries[0].1] + Flat(entries[1..])
  }

  function PictureOfObject(h: Heap, o: HeapObject, depth: nat, l: Limits): Captured
    decreases Fuel(depth, l), 1, 0
  {
    if o.kind.ClassObject? then Bare(o.typeName)
    else if depth >= l.maxReferenceDepth then NotCaptured(o.typeName, Depth)
    else
      match o.kind
      case ClassObject => Bare(o.typeName)
      case Plain => PictureOfProperties(h, o, depth, l)
      case FunctionObject => PictureOfProperties(h, o, depth, l)
      case Described(text) => Scalar(o.typeName, text)
      case ErrorObject(message, name, stack, cause) =>
        ErrorFields(o, PictureOfProperty(h, message, depth, l), PictureOfProperty(h, name, depth, l),
                    PictureOfProperty(h, stack, depth, l), PictureOfProperty(h, cause, depth, l))
      case Opaque(reason) => NotCaptured(o.typeName, Uninspectable(reason))
      case ArrayObject(items) => PictureOfElements(h, "Array", items, depth, l)
      case SetObject(items) => PictureOfElements(h, "Set", items, depth, l)
      case TypedArray(items, byteLength, byteOffset, length) =>
        PictureOfElements(h, o.typeName, items, depth, l).(
          names := ["byteLength", "byteOffset", "length"],
          fields := [NumberField(byteLength), NumberField(byteOffset), NumberField(length)])
      case MapObject(entries) =>
        Captured(CutLabel("Map", |entries|, l.maxCollectionSize, CollectionSize), [],
                 Pictures(h, Flat(First(entries, l.maxCollectionSize)), depth, l), [], [])
      case DataView(byteLength, byteOffset, buffer) =>
        Captured(Label("DataView", None, None, None, false), [], [], ["byteLength", "byteOffset", "buffer"],
                 [NumberField(byteLength), NumberField(byteOffset), Scalar("ArrayBuffer", buffer)])
  }

  function PictureOfElements(h: Heap, typeName: string, items: seq<Value>, depth: nat, l: Limits): Captured
    requires depth <= l.maxReferenceDepth
    decreases Fuel(depth, l), 0, 1
  {
    Captured(CutLabel(typeName, |items|, l.maxCollectionSize, CollectionSize),
             Pictures(h, First(items, l.maxCollectionSize), depth, l), [], [], [])
  }

  function PictureOfProperties(h: Heap, o: HeapObject, depth: nat, l: Limits): Captured
    requires depth <= l.maxReferenceDepth
    decreases Fuel(depth, l), 0, 2
  {
    var record := PictureOfFields(h, First(o.properties, l.maxFieldCount), depth, l);
    Captured(CutLabel(o.typeName, |o.properties|, l.maxFieldCount, FieldCount), [], [], record.names, record.fields)
  }

  // ---- Honesty --------------------------------------------------------------------------------------

  /** In time: the result is the picture. */
  lemma {:induction false} InTimeIsPicture(h: Heap, late: Clock, v: Value, depth: nat, l: Limits, ctx: Context)
    ensures
      var (c, end) := CaptureValue(h, late, v, depth, l, ctx);
      !end.timedOut ==> c == Picture(h, v, depth, l)
    decreases Fuel(depth, l), 3, 0
  {
    var checked := Check(late, ctx);
    if !checked.timedOut && v.Reference? {
      InTimeObject(h, late, h(v.at), depth, l, checked);
    }
  }

  lemma {:induction false} InTimeObject(h: Heap, late: Clock, o: HeapObject, depth: nat, l: Limits, ctx: Context)
    ensures
      var (c, end) := CaptureObject(h, late, o, depth, l, ctx);
      !end.timedOut ==> c == PictureOfObject(h, o, depth, l)
    decreases Fuel(depth, l), 2, 0
  {
    if !o.kind.ClassObject? && depth < l.maxReferenceDepth {
      match o.kind
      case Plain => InTimeProperties(h, late, o, depth, l, ctx);
      case FunctionObject => InTimeProperties(h, late, o, depth, l, ctx);
      case ErrorObject(_, _, _, _) => InTimeError(h, late, o, depth, l, ctx);
      case ArrayObject(items) => InTimeItems(h, late, First(items, l.maxCollectionSize), depth, l, ctx);
      case SetObject(items) => InTimeItems(h, late, First(items, l.maxCollectionSize), depth, l, ctx);
      case TypedArray(items, _, _, _) => InTimeItems(h, late, First(items, l.maxCollectionSize), depth, l, ctx);
      case MapObject(entries) => InTimeEntries(h, late, First(entries, l.maxCollectionSize), depth, l, ctx);
      case _ =>
    }
  }

  lemma {:induction false} InTimeItems(h: Heap, late: Clock, items: seq<Value>, depth: nat, l: Limits, ctx: Context)
    requires depth <= l.maxReferenceDepth
    ensures
      var (captured, end) := CaptureItems(h, late, items, depth, l, ctx);
      !end.timedOut ==> captured == Pictures(h, items, depth, l)
    decreases Fuel(depth, l), 0, |items|
  {
    if items != [] {
      var checked := Check(late, ctx);
      if !checked.timedOut {
        InTimeIsPicture(h, late, items[0], depth + 1, l, checked);
        InTimeItems(h, late, items[1..], depth, l, CaptureValue(h, late, items[0], depth + 1, l, checked).1);
        assert Pictures(h, items, depth, l) == [Picture(h, items[0], depth + 1, l)] + Pictures(h, items[1..], depth, l);
      }
    }
  }

  lemma {:induction false} InTimeEntries(
    h: Heap, late: Clock, entries: seq<(Value, Value)>, depth: nat, l: Limits, ctx: Context
  )
    requires depth <= l.maxReferenceDepth
    ensures
      var (captured, end) := CaptureEntries(h, late, entries, depth, l, ctx);
      !end.timedOut ==> captured == Pictures(h, Flat(entries), depth, l)
    decreases Fuel(depth, l), 0, |entries|
  {
    if entries != [] {
      var checked := Check(late, ctx);
      if !checked.timedOut {
        var (key, value) := entries[0];
        InTimeIsPicture(h, late, key, depth + 1, l, checked);
        var afterKey := CaptureValue(h, late, key, depth + 1, l, checked).1;
        InTimeIsPicture(h, late, value, depth + 1, l, afterKey);
        var after := CaptureValue(h, late, value, depth + 1, l, afterKey).1;
        InTimeEntries(h, late, entries[1..], depth, l, after);
        PicturesOfFlat(h, key, value, Flat(entries[1..]), depth, l);
      }
    }
  }

  lemma PicturesOfFlat(h: Heap, key: Value, value: Value, rest: seq<Value>, depth: nat, l: Limits)
    requires depth <= l.maxReferenceDepth
    ensures Pictures(h, [key, value] + rest, depth, l) ==
            [Picture(h, key, depth + 1, l), Picture(h, value, depth + 1, l)] + Pictures(h, rest, depth, l)
  {}

  lemma InTimeProperty(h: Heap, late: Clock, p: Property, depth: nat, l: Limits, ctx: Context)
    requires depth <= l.maxReferenceDepth
    ensures
      var (c, end) := CaptureProperty(h, late, p, depth, l, ctx);
      !end.timedOut ==> c == PictureOfProperty(h, p, depth, l)
    decreases Fuel(depth, l), 0, 0
  {
    if p.Data? {
      InTimeIsPicture(h, late, p.value, depth + 1, l, ctx);
    }
  }

  /** The fields captured so far, and those to come. */
  lemma {:induction false} InTimeFieldsFrom(
    h: Heap, late: Clock, properties: seq<(PropertyKey, Property)>, k: nat, depth: nat, l: Limits, ctx: Context
  )
    requires depth <= l.maxReferenceDepth && k <= |properties|
    ensures
      var (record, end) :=
        CaptureFieldsFrom(h, late, properties[k..], PictureOfFields(h, properties[..k], depth, l), depth, l, ctx);
      !end.timedOut ==> record == PictureOfFields(h, properties, depth, l)
    decreases Fuel(depth, l), 1, |properties| - k
  {
    if k == |properties| {
      assert properties[..k] == properties;
    } else {
      var checked := Check(late, ctx);
      var p := properties[k].1;
      assert properties[k..][0] == properties[k] && properties[k..][1..] == properties[k + 1..];
      if !checked.timedOut {
        InTimeProperty(h, late, p, depth, l, checked);
        OneMoreField(h, properties, k, depth, l);
        var end := CaptureProperty(h, late, p, depth, l, checked).1;
        if !end.timedOut {
          InTimeFieldsFrom(h, late, properties, k + 1, depth, l, end);
        }
      }
    }
  }

  lemma OneMoreField(h: Heap, properties: seq<(PropertyKey, Property)>, k: nat, depth: nat, l: Limits)
    requires depth <= l.maxReferenceDepth && k < |properties|
    ensures PictureOfFields(h, properties[..k + 1], depth, l) ==
            Put(PictureOfFields(h, properties[..k], depth, l), KeyName(properties[k].0),
                PictureOfProperty(h, properties[k].1, depth, l))
  {
    var more := properties[..k + 1];
    assert more[..k] == properties[..k];
    assert Names(more)[..k] == Names(properties[..k]);
    var all := seq(|more|, i requires 0 <= i < |more| => PictureOfProperty(h, more[i].1, depth, l));
    var some := seq(k, i requires 0 <= i < k => PictureOfProperty(h, properties[..k][i].1, depth, l));
    assert all[..k] == some;
  }

  lemma InTimeFields(h: Heap, late: Clock, o: HeapObject, depth: nat, l: Limits, ctx: Context)
    requires depth <= l.maxReferenceDepth
    ensures
      var (record, end) := CaptureFields(h, late, o, depth, l, ctx);
      !end.timedOut ==> record == PictureOfFields(h, First(o.properties, l.maxFieldCount), depth, l)
    decreases Fuel(depth, l), 1, |o.properties| + 1
  {
    var properties := First(o.properties, l.maxFieldCount);
    assert properties[0..] == properties && properties[..0] == [];
    assert PictureOfFields(h, [], depth, l) == Record([], []);
    InTimeFieldsFrom(h, late, properties, 0, depth, l, ctx);
  }

  lemma InTimeProperties(h: Heap, late: Clock, o: HeapObject, depth: nat, l: Limits, ctx: Context)
    requires depth <= l.maxReferenceDepth
    ensures
      var (c, end) := CaptureProperties(h, late, o, depth, l, ctx);
      !end.timedOut ==> c == PictureOfProperties(h, o, depth, l)
    decreases Fuel(depth, l), 1, |o.properties| + 2
  {
    InTimeFields(h, late, o, depth, l, ctx);
  }

  lemma InTimeError(h: Heap, late: Clock, o: HeapObject, depth: nat, l: Limits, ctx: Context)
    requires depth < l.maxReferenceDepth && o.kind.ErrorObject?
    ensures
      var (c, end) := CaptureError(h, late, o, depth, l, ctx);
      !end.timedOut ==> c == PictureOfObject(h, o, depth, l)
    decreases Fuel(depth, l), 1, 0
  {
    var k := o.kind;
    InTimeProperty(h, late, k.message, depth, l, ctx);
    var c1 := CaptureProperty(h, late, k.message, depth, l, ctx).1;
    InTimeProperty(h, late, k.name, depth, l, c1);
    var c2 := CaptureProperty(h, late, k.name, depth, l, c1).1;
    InTimeProperty(h, late, k.stack, depth, l, c2);
    var c3 := if IsPresent(k.stack) then CaptureProperty(h, late, k.stack, depth, l, c2).1 else c2;
    InTimeProperty(h, late, k.cause, depth, l, c3);
  }

  // ---- Bounds ---------------------------------------------------------------------------------------

  function Max(a: nat, b: nat): nat {
    if a < b then b else a
  }

  /** Levels of nesting. */
  function Levels(c: Captured): nat
    decreases c, 0
  {
    1 + Max(LevelsOfAll(c.elements), Max(LevelsOfAll(c.entries), LevelsOfAll(c.fields)))
  }

  function LevelsOfAll(cs: seq<Captured>): nat
    decreases cs, 1
  {
    if cs == [] then 0 else Max(Levels(cs[0]), LevelsOfAll(cs[1..]))
  }

  /** Captured values in all. */
  function Count(c: Captured): nat
    decreases c, 0
  {
    1 + CountOfAll(c.elements) + CountOfAll(c.entries) + CountOfAll(c.fields)
  }

  function CountOfAll(cs: seq<Captured>): nat
    decreases cs, 1
  {
    if cs == [] then 0 else Count(cs[0]) + CountOfAll(cs[1..])
  }

  /** How many parts a captured value can have. */
  function Width(l: Limits): nat {
    Max(4, Max(l.maxFieldCount, Max(2 * l.maxCollectionSize, l.maxCollectionSize + 3)))
  }

  /** 1 + w + w^2 + ... */
  function NodeBound(l: Limits, levels: nat): nat {
    if levels <= 1 then 1 else 1 + Width(l) * NodeBound(l, levels - 1)
  }

  predicate Fits(c: Captured, l: Limits, levels: nat) {
    Levels(c) <= levels && Count(c) <= NodeBound(l, levels)
  }

  ghost predicate AllFit(cs: seq<Captured>, l: Limits, levels: nat) {
    forall k | 0 <= k < |cs| :: Fits(cs[k], l, levels)
  }

  /** The levels that are left at a depth. */
  function LevelsLeft(depth: nat, l: Limits): nat {
    if depth < l.maxReferenceDepth then l.maxReferenceDepth - depth + 1 else 1
  }

  lemma {:induction false} BoundOfAll(cs: seq<Captured>, l: Limits, levels: nat)
    requires AllFit(cs, l, levels)
    ensures LevelsOfAll(cs) <= levels && CountOfAll(cs) <= |cs| * NodeBound(l, levels)
    decreases |cs|
  {
    if cs != [] {
      assert Fits(cs[0], l, levels);
      BoundOfAll(cs[1..], l, levels);
      assert |cs| * NodeBound(l, levels) == NodeBound(l, levels) + (|cs| - 1) * NodeBound(l, levels);
    }
  }

  lemma LeafFits(info: Label, l: Limits, levels: nat)
    requires levels >= 1
    ensures Fits(Leaf(info), l, levels)
  {
    NodeBoundPositive(l, levels);
  }

  lemma {:induction false} NodeBoundPositive(l: Limits, levels: nat)
    ensures NodeBound(l, levels) >= 1
  {}

  /** A value whose parts fit, and are not too many, fits. */
  lemma NodeFits(c: Captured, l: Limits, levels: nat)
    requires levels >= 1 && |c.elements| + |c.entries| + |c.fields| <= Width(l)
    requires AllFit(c.elements, l, levels) && AllFit(c.entries, l, levels) && AllFit(c.fields, l, levels)
    ensures Fits(c, l, levels + 1)
  {
    BoundOfAll(c.elements, l, levels);
    BoundOfAll(c.entries, l, levels);
    BoundOfAll(c.fields, l, levels);
    PartsWithin(|c.elements|, |c.entries|, |c.fields|, Width(l), NodeBound(l, levels));
  }

  lemma PartsWithin(a: nat, b: nat, c: nat, width: nat, bound: nat)
    requires a + b + c <= width
    ensures a * bound + b * bound + c * bound <= width * bound
  {
    assert a * bound + b * bound + c * bound == (a + b + c) * bound;
    assert (width - (a + b + c)) * bound >= 0;
  }

  lemma {:induction false} ValueFits(h: Heap, late: Clock, v: Value, depth: nat, l: Limits, ctx: Context)
    ensures Fits(CaptureValue(h, late, v, depth, l, ctx).0, l, LevelsLeft(depth, l))
    decreases Fuel(depth, l), 3, 0
  {
    var c := CaptureValue(h, late, v, depth, l, ctx).0;
    var checked := Check(late, ctx);
    if !checked.timedOut && v.Reference? {
      ObjectFits(h, late, h(v.at), depth, l, checked);
    } else {
      LeafFits(c.info, l, LevelsLeft(depth, l));
    }
  }

  lemma {:induction false} ObjectFits(h: Heap, late: Clock, o: HeapObject, depth: nat, l: Limits, ctx: Context)
    ensures Fits(CaptureObject(h, late, o, depth, l, ctx).0, l, LevelsLeft(depth, l))
    decreases Fuel(depth, l), 2, 0
  {
    var c := CaptureObject(h, late, o, depth, l, ctx).0;
    if o.kind.ClassObject? || depth >= l.maxReferenceDepth || o.kind.Described? || o.kind.Opaque? {
      LeafFits(c.info, l, LevelsLeft(depth, l));
    } else {
      PartsFit(h, late, o, depth, l, ctx);
      NodeFits(c, l, LevelsLeft(depth + 1, l));
    }
  }

  lemma PartsFit(h: Heap, late: Clock, o: HeapObject, depth: nat, l: Limits, ctx: Context)
    requires depth < l.maxReferenceDepth && !o.kind.ClassObject? && !o.kind.Described? && !o.kind.Opaque?
    ensures
      var c := CaptureObject(h, late, o, depth, l, ctx).0;
      var levels := LevelsLeft(depth + 1, l);
      && |c.elements| + |c.entries| + |c.fields| <= Width(l)
      && AllFit(c.elements, l, levels) && AllFit(c.entries, l, levels) && AllFit(c.fields, l, levels)
    decreases Fuel(depth, l), 1, |o.properties| + 3
  {
    match o.kind
    case ErrorObject(_, _, _, _) => ErrorFits(h, late, o, depth, l, ctx);
    case ArrayObject(items) => ItemsFit(h, late, First(items, l.maxCollectionSize), depth, l, ctx);
    case SetObject(items) => ItemsFit(h, late, First(items, l.maxCollectionSize), depth, l, ctx);
    case TypedArray(items, a, b, n) =>
      ItemsFit(h, late, First(items, l.maxCollectionSize), depth, l, ctx);
      ScalarsFit(["number", "number", "number"], [a, b, n], l, LevelsLeft(depth + 1, l));
    case MapObject(entries) => EntriesFit(h, late, First(entries, l.maxCollectionSize), depth, l, ctx);
    case DataView(a, b, buffer) =>
      ScalarsFit(["number", "number", "ArrayBuffer"], [a, b, buffer], l, LevelsLeft(depth + 1, l));
    case ClassObject =>
    case Described(_) =>
    case Opaque(_) =>
    case Plain => PropertiesFit(h, late, o, depth, l, ctx);
    case FunctionObject => PropertiesFit(h, late, o, depth, l, ctx);
  }

  lemma PropertiesFit(h: Heap, late: Clock, o: HeapObject, depth: nat, l: Limits, ctx: Context)
    requires depth <= l.maxReferenceDepth
    ensures
      var c := CaptureProperties(h, late, o, depth, l, ctx).0;
      && |c.fields| <= l.maxFieldCount && AllFit(c.fields, l, LevelsLeft(depth + 1, l))
      && c.elements == [] && c.entries == []
    decreases Fuel(depth, l), 1, |o.properties| + 1
  {
    FieldsFit(h, late, First(o.properties, l.maxFieldCount), Record([], []), depth, l, ctx);
  }

  lemma ScalarsFit(types: seq<string>, texts: seq<string>, l: Limits, levels: nat)
    requires levels >= 1 && |types| == |texts| == 3
    ensures AllFit([Scalar(types[0], texts[0]), Scalar(types[1], texts[1]), Scalar(types[2], texts[2])], l, levels)
  {
    forall k | 0 <= k < 3 ensures Fits(Scalar(types[k], texts[k]), l, levels) {
      LeafFits(Label(types[k], Some(texts[k]), None, None, false), l, levels);
    }
  }

  lemma {:induction false} ItemsFit(h: Heap, late: Clock, items: seq<Value>, depth: nat, l: Limits, ctx: Context)
    requires depth < l.maxReferenceDepth
    ensures
      var captured := CaptureItems(h, late, items, depth, l, ctx).0;
      |captured| <= |items| && AllFit(captured, l, LevelsLeft(depth + 1, l))
    decreases Fuel(depth, l), 0, |items|
  {
    if items != [] {
      var checked := Check(late, ctx);
      if !checked.timedOut {
        ValueFits(h, late, items[0], depth + 1, l, checked);
        ItemsFit(h, late, items[1..], depth, l, CaptureValue(h, late, items[0], depth + 1, l, checked).1);
      }
    }
  }

  lemma {:induction false} EntriesFit(
    h: Heap, late: Clock, entries: seq<(Value, Value)>, depth: nat, l: Limits, ctx: Context
  )
    requires depth < l.maxReferenceDepth
    ensures
      var captured := CaptureEntries(h, late, entries, depth, l, ctx).0;
      |captured| <= 2 * |entries| && AllFit(captured, l, LevelsLeft(depth + 1, l))
    decreases Fuel(depth, l), 0, |entries|
  {
    if entries != [] {
      var checked := Check(late, ctx);
      if !checked.timedOut {
        ValueFits(h, late, entries[0].0, depth + 1, l, checked);
        var afterKey := CaptureValue(h, late, entries[0].0, depth + 1, l, checked).1;
        ValueFits(h, late, entries[0].1, depth + 1, l, afterKey);
        EntriesFit(h, late, entries[1..], depth, l, CaptureValue(h, late, entries[0].1, depth + 1, l, afterKey).1);
      }
    }
  }

  lemma PropertyFits(h: Heap, late: Clock, p: Property, depth: nat, l: Limits, ctx: Context)
    requires depth <= l.maxReferenceDepth
    ensures Fits(CaptureProperty(h, late, p, depth, l, ctx).0, l, LevelsLeft(depth + 1, l))
    decreases Fuel(depth, l), 0, 0
  {
    if p.Data? {
      ValueFits(h, late, p.value, depth + 1, l, ctx);
    } else {
      LeafFits(InaccessibleProperty().info, l, LevelsLeft(depth + 1, l));
    }
  }

  lemma {:induction false} FieldsFit(
    h: Heap, late: Clock, properties: seq<(PropertyKey, Property)>, record: Record, depth: nat, l: Limits, ctx: Context
  )
    requires depth <= l.maxReferenceDepth && AllFit(record.fields, l, LevelsLeft(depth + 1, l))
    ensures
      var r := CaptureFieldsFrom(h, late, properties, record, depth, l, ctx).0;
      |r.fields| <= |record.fields| + |properties| && AllFit(r.fields, l, LevelsLeft(depth + 1, l))
    decreases Fuel(depth, l), 1, |properties|
  {
    if properties != [] {
      var checked := Check(late, ctx);
      if !checked.timedOut {
        PropertyFits(h, late, properties[0].1, depth, l, checked);
        var (c, after) := CaptureProperty(h, late, properties[0].1, depth, l, checked);
        FieldsFit(h, late, properties[1..], Put(record, KeyName(properties[0].0), c), depth, l, after);
      }
    }
  }

  lemma ErrorFits(h: Heap, late: Clock, o: HeapObject, depth: nat, l: Limits, ctx: Context)
    requires depth <= l.maxReferenceDepth && o.kind.ErrorObject?
    ensures
      var c := CaptureError(h, late, o, depth, l, ctx).0;
      |c.fields| <= 4 && AllFit(c.fields, l, LevelsLeft(depth + 1, l)) && c.elements == [] && c.entries == []
    decreases Fuel(depth, l), 1, 0
  {
    var k := o.kind;
    PropertyFits(h, late, k.message, depth, l, ctx);
    var c1 := CaptureProperty(h, late, k.message, depth, l, ctx).1;
    PropertyFits(h, late, k.name, depth, l, c1);
    var c2 := CaptureProperty(h, late, k.name, depth, l, c1).1;
    PropertyFits(h, late, k.stack, depth, l, c2);
    var c3 := if IsPresent(k.stack) then CaptureProperty(h, late, k.stack, depth, l, c2).1 else c2;
    PropertyFits(h, late, k.cause, depth, l, c3);
  }

  // ---- Nothing is cut by timeout --------------------------------------------------------------------

  predicate Complete(c: Captured)
    decreases c, 0
  {
    c.info.notCapturedReason != Some(Timeout) && AllComplete(c.elements) && AllComplete(c.entries) && AllComplete(c.fields)
  }

  predicate AllComplete(cs: seq<Captured>)
    decreases cs, 1
  {
    cs == [] || (Complete(cs[0]) && AllComplete(cs[1..]))
  }

  lemma {:induction false} CompleteEach(cs: seq<Captured>)
    requires forall k | 0 <= k < |cs| :: Complete(cs[k])
    ensures AllComplete(cs)
    decreases |cs|
  {
    if cs != [] {
      CompleteEach(cs[1..]);
    }
  }

  lemma {:induction false} PictureIsComplete(h: Heap, v: Value, depth: nat, l: Limits)
    ensures Complete(Picture(h, v, depth, l))
    decreases Fuel(depth, l), 2, 0
  {
    if v.Reference? {
      ObjectIsComplete(h, h(v.at), depth, l);
    }
  }

  lemma {:induction false} ObjectIsComplete(h: Heap, o: HeapObject, depth: nat, l: Limits)
    ensures Complete(PictureOfObject(h, o, depth, l))
    decreases Fuel(depth, l), 1, 0
  {
    if !o.kind.ClassObject? && depth < l.maxReferenceDepth {
      match o.kind
      case Plain => FieldsAreComplete(h, First(o.properties, l.maxFieldCount), depth, l);
      case FunctionObject => FieldsAreComplete(h, First(o.properties, l.maxFieldCount), depth, l);
      case ErrorObject(_, _, _, _) => ErrorIsComplete(h, o, depth, l);
      case ArrayObject(items) => PicturesAreComplete(h, First(items, l.maxCollectionSize), depth, l);
      case SetObject(items) => PicturesAreComplete(h, First(items, l.maxCollectionSize), depth, l);
      case TypedArray(items, a, b, n) =>
        PicturesAreComplete(h, First(items, l.maxCollectionSize), depth, l);
        CompleteEach([NumberField(a), NumberField(b), NumberField(n)]);
      case MapObject(entries) => PicturesAreComplete(h, Flat(First(entries, l.maxCollectionSize)), depth, l);
      case DataView(a, b, buffer) => CompleteEach([NumberField(a), NumberField(b), Scalar("ArrayBuffer", buffer)]);
      case _ =>
    }
  }

  lemma PicturesAreComplete(h: Heap, values: seq<Value>, depth: nat, l: Limits)
    requires depth <= l.maxReferenceDepth
    ensures AllComplete(Pictures(h, values, depth, l))
    decreases Fuel(depth, l), 0, 0
  {
    forall k | 0 <= k < |values| ensures Complete(Pictures(h, values, depth, l)[k]) {
      PictureIsComplete(h, values[k], depth + 1, l);
    }
    CompleteEach(Pictures(h, values, depth, l));
  }

  lemma PropertyIsComplete(h: Heap, p: Property, depth: nat, l: Limits)
    requires depth <= l.maxReferenceDepth
    ensures Complete(PictureOfProperty(h, p, depth, l))
    decreases Fuel(depth, l), 0, 0
  {
    if p.Data? {
      PictureIsComplete(h, p.value, depth + 1, l);
    }
  }

  lemma FieldsAreComplete(h: Heap, properties: seq<(PropertyKey, Property)>, depth: nat, l: Limits)
    requires depth <= l.maxReferenceDepth
    ensures AllComplete(PictureOfFields(h, properties, depth, l).fields)
    decreases Fuel(depth, l), 0, 1
  {
    var pictures := seq(|properties|, i requires 0 <= i < |properties| => PictureOfProperty(h, properties[i].1, depth, l));
    forall k | 0 <= k < |pictures| ensures Complete(pictures[k]) {
      PropertyIsComplete(h, properties[k].1, depth, l);
    }
    CompleteFields(Names(properties), pictures);
    CompleteEach(FieldsOf(Names(properties), pictures).fields);
  }

  lemma {:induction false} CompleteFields(names: seq<string>, values: seq<Captured>)
    requires |names| == |values| && forall k | 0 <= k < |values| :: Complete(values[k])
    ensures forall k | 0 <= k < |FieldsOf(names, values).fields| :: Complete(FieldsOf(names, values).fields[k])
  {
    if names != [] {
      CompleteFields(names[..|names| - 1], values[..|names| - 1]);
    }
  }

  lemma ErrorIsComplete(h: Heap, o: HeapObject, depth: nat, l: Limits)
    requires depth < l.maxReferenceDepth && o.kind.ErrorObject?
    ensures Complete(PictureOfObject(h, o, depth, l))
    decreases Fuel(depth, l), 0, 1
  {
    var k := o.kind;
    PropertyIsComplete(h, k.message, depth, l);
    PropertyIsComplete(h, k.name, depth, l);
    PropertyIsComplete(h, k.stack, depth, l);
    PropertyIsComplete(h, k.cause, depth, l);
    CompleteEach(PictureOfObject(h, o, depth, l).fields);
  }

  // ---- Theorems -------------------------------------------------------------------------------------

  /** On every heap, and whatever the clock says, the result nests at most one level more than the maximum
      depth and has at most 1 + w + ... + w^depth parts, where w is the largest number of parts of one. */
  lemma CaptureIsBounded(h: Heap, late: Clock, v: Value, l: Limits, ctx: Context)
    ensures
      var c := CaptureValue(h, late, v, 0, l, ctx).0;
      Levels(c) <= l.maxReferenceDepth + 1 && Count(c) <= NodeBound(l, l.maxReferenceDepth + 1)
  {
    ValueFits(h, late, v, 0, l, ctx);
  }

  /** If the walk ends in time, the result is the one without a deadline, and nothing in it was cut. */
  lemma CaptureIsHonest(h: Heap, late: Clock, v: Value, l: Limits, ctx: Context)
    ensures
      var (c, end) := CaptureValue(h, late, v, 0, l, ctx);
      !end.timedOut ==> c == Picture(h, v, 0, l) && Complete(c)
  {
    InTimeIsPicture(h, late, v, 0, l, ctx);
    PictureIsComplete(h, v, 0, l);
  }

  // ---- Snapshots ------------------------------------------------------------------------------------

  /** `captureArguments`: the arguments, and `this` unless it is the global object. */
  function CaptureArguments(h: Heap, late: Clock, args: HeapObject, self: Option<Value>, l: Limits, ctx: Context): (Record, Context) {
    var (record, after) := CaptureFields(h, late, args, 0, l, ctx);
    if self.None? then (record, after)
    else
      var (c, end) := CaptureValue(h, late, self.value, 0, l, after);
      (Put(record, "this", c), end)
  }

  datatype Snapshot = Snapshot(arguments: Record, locals: Record)

  /** What `onReturn` captures for a snapshot probe; nothing is queued when the clock ran out. */
  function CaptureReturn(
    h: Heap, late: Clock, args: HeapObject, self: Option<Value>, locals: HeapObject, returned: Value, l: Limits, ctx: Context
  ): Option<Snapshot> {
    var (arguments, c1) := CaptureArguments(h, late, args, self, l, ctx);
    var (fields, c2) := CaptureFields(h, late, locals, 0, l, c1);
    var (value, c3) := CaptureValue(h, late, returned, 0, l, c2);
    if c3.timedOut then None else Some(Snapshot(arguments, Put(fields, "@return", value)))
  }

  function PictureOfArguments(h: Heap, args: HeapObject, self: Option<Value>, l: Limits): Record {
    var record := PictureOfFields(h, First(args.properties, l.maxFieldCount), 0, l);
    if self.None? then record else Put(record, "this", Picture(h, self.value, 0, l))
  }

  lemma ArgumentsInTime(h: Heap, late: Clock, args: HeapObject, self: Option<Value>, l: Limits, ctx: Context)
    ensures
      var (record, end) := CaptureArguments(h, late, args, self, l, ctx);
      && (ctx.timedOut ==> end.timedOut)
      && (!end.timedOut ==> record == PictureOfArguments(h, args, self, l))
  {
    InTimeFields(h, late, args, 0, l, ctx);
    if self.Some? {
      InTimeIsPicture(h, late, self.value, 0, l, CaptureFields(h, late, args, 0, l, ctx).1);
    }
  }

  /** A snapshot that is queued holds the pictures of everything, although its parts share one deadline that
      may have passed before the first of them. */
  lemma QueuedSnapshotsAreComplete(
    h: Heap, late: Clock, args: HeapObject, self: Option<Value>, locals: HeapObject, returned: Value, l: Limits, ctx: Context
  )
    ensures
      match CaptureReturn(h, late, args, self, locals, returned, l, ctx)
      case None => true
      case Some(snapshot) =>
        && snapshot.arguments == PictureOfArguments(h, args, self, l)
        && snapshot.locals == Put(PictureOfFields(h, First(locals.properties, l.maxFieldCount), 0, l), "@return",
                                  Picture(h, returned, 0, l))
        && AllComplete(snapshot.arguments.fields) && AllComplete(snapshot.locals.fields)
  {
    var (_, c1) := CaptureArguments(h, late, args, self, l, ctx);
    var (_, c2) := CaptureFields(h, late, locals, 0, l, c1);
    ArgumentsInTime(h, late, args, self, l, ctx);
    InTimeFields(h, late, locals, 0, l, c1);
    InTimeIsPicture(h, late, returned, 0, l, c2);
    ArgumentsAreComplete(h, args, self, l);
    FieldsAreComplete(h, First(locals.properties, l.maxFieldCount), 0, l);
    PictureIsComplete(h, returned, 0, l);
    PutComplete(PictureOfFields(h, First(locals.properties, l.maxFieldCount), 0, l), "@return", Picture(h, returned, 0, l));
  }

  /** What `onEntry` and `onThrow` capture for several probes: the arguments once for each, with one deadline. */
  function CaptureForProbes(
    h: Heap, late: Clock, args: HeapObject, self: Option<Value>, limits: seq<Limits>, ctx: Context
  ): seq<Option<Record>>
    decreases |limits|
  {
    if limits == [] then []
    else
      var (record, end) := CaptureArguments(h, late, args, self, limits[0], ctx);
      [if end.timedOut then None else Some(record)] + CaptureForProbes(h, late, args, self, limits[1..], end)
  }

  /** A probe that got something got the complete picture under its own limits. */
  ghost predicate GetsPicture(h: Heap, args: HeapObject, self: Option<Value>, l: Limits, captured: Option<Record>) {
    captured.Some? ==> captured.value == PictureOfArguments(h, args, self, l) && AllComplete(captured.value.fields)
  }

  ghost predicate GetPictures(h: Heap, args: HeapObject, self: Option<Value>, limits: seq<Limits>, captured: seq<Option<Record>>) {
    |captured| == |limits| && forall k | 0 <= k < |limits| :: GetsPicture(h, args, self, limits[k], captured[k])
  }

  ghost predicate NothingAfterNothing(captured: seq<Option<Record>>) {
    forall j, k | 0 <= j < k < |captured| && captured[j].None? :: captured[k].None?
  }

  ghost predicate AllNothing(captured: seq<Option<Record>>) {
    forall k | 0 <= k < |captured| :: captured[k].None?
  }

  lemma OneMoreProbe(
    h: Heap, args: HeapObject, self: Option<Value>, limits: seq<Limits>, first: Option<Record>, rest: seq<Option<Record>>
  )
    requires limits != [] && GetsPicture(h, args, self, limits[0], first) && GetPictures(h, args, self, limits[1..], rest)
    requires NothingAfterNothing(rest) && (first.None? ==> AllNothing(rest))
    ensures GetPictures(h, args, self, limits, [first] + rest) && NothingAfterNothing([first] + rest)
    ensures first.None? ==> AllNothing([first] + rest)
  {
    forall k | 0 <= k < |limits| ensures GetsPicture(h, args, self, limits[k], ([first] + rest)[k]) {
      if k > 0 {
        assert GetsPicture(h, args, self, limits[1..][k - 1], rest[k - 1]);
      }
    }
  }

  lemma FirstProbe(h: Heap, late: Clock, args: HeapObject, self: Option<Value>, l: Limits, ctx: Context)
    ensures
      var (record, end) := CaptureArguments(h, late, args, self, l, ctx);
      && GetsPicture(h, args, self, l, if end.timedOut then None else Some(record))
      && (ctx.timedOut ==> end.timedOut)
  {
    ArgumentsInTime(h, late, args, self, l, ctx);
    ArgumentsAreComplete(h, args, self, l);
  }

  /** Each probe gets the complete picture of the arguments under its own limits, or nothing; and once one got
      nothing, so do all after it. */
  lemma {:induction false} ProbesGetCompletePictures(
    h: Heap, late: Clock, args: HeapObject, self: Option<Value>, limits: seq<Limits>, ctx: Context
  )
    ensures
      var captured := CaptureForProbes(h, late, args, self, limits, ctx);
      && GetPictures(h, args, self, limits, captured) && NothingAfterNothing(captured)
      && (ctx.timedOut ==> AllNothing(captured))
    decreases |limits|
  {
    if limits != [] {
      var (record, end) := CaptureArguments(h, late, args, self, limits[0], ctx);
      FirstProbe(h, late, args, self, limits[0], ctx);
      ProbesGetCompletePictures(h, late, args, self, limits[1..], end);
      OneMoreProbe(h, args, self, limits, if end.timedOut then None else Some(record),
                   CaptureForProbes(h, late, args, self, limits[1..], end));
    }
  }

  lemma ArgumentsAreComplete(h: Heap, args: HeapObject, self: Option<Value>, l: Limits)
    ensures AllComplete(PictureOfArguments(h, args, self, l).fields)
  {
    FieldsAreComplete(h, First(args.properties, l.maxFieldCount), 0, l);
    if self.Some? {
      PictureIsComplete(h, self.value, 0, l);
      PutComplete(PictureOfFields(h, First(args.properties, l.maxFieldCount), 0, l), "this", Picture(h, self.value, 0, l));
    }
  }

  lemma {:induction false} EachComplete(cs: seq<Captured>)
    requires AllComplete(cs)
    ensures forall k | 0 <= k < |cs| :: Complete(cs[k])
    decreases |cs|
  {
    if cs != [] {
      EachComplete(cs[1..]);
    }
  }

  lemma PutComplete(r: Record, name: string, c: Captured)
    requires AllComplete(r.fields) && Complete(c)
    ensures AllComplete(Put(r, name, c).fields)
  {
    EachComplete(r.fields);
    CompleteEach(Put(r, name, c).fields);
  }
}
