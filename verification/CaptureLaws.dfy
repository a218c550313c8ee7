/** What a capture that ends in time shows, part by part: the first ones of a collection or an object, in order,
    and whether some are missing. `Picture` stands for what is shown of a part in turn. */
module CaptureLaws {
  import opened Wrappers
  import opened Capture
  import opened CaptureProofs

  /** The capture of an object ends in time. */
  ghost predicate InTime(h: Heap, late: Clock, v: Value, depth: nat, l: Limits, ctx: Context, c: Captured) {
    CaptureValue(h, late, v, depth, l, ctx).0 == c && !CaptureValue(h, late, v, depth, l, ctx).1.timedOut
  }

  function Shown(total: nat, limit: nat): nat {
    if total < limit then total else limit
  }

  /** The label tells the total exactly if not everything is shown. */
  predicate Labelled(info: Label, typeName: string, total: nat, limit: nat, reason: Reason) {
    && info.typeName == typeName && info.value.None? && !info.truncated
    && info.notCapturedReason == (if total > limit then Some(reason) else None)
    && info.size == (if total > limit then Some(total) else None)
  }

  lemma InTimeShowsTheObject(h: Heap, late: Clock, at: nat, depth: nat, l: Limits, ctx: Context, c: Captured)
    requires InTime(h, late, Reference(at), depth, l, ctx, c)
    ensures c == PictureOfObject(h, h(at), depth, l)
  {
    InTimeIsPicture(h, late, Reference(at), depth, l, ctx);
    assert Picture(h, Reference(at), depth, l) == PictureOfObject(h, h(at), depth, l);
  }

  /** A capture that ends in time has read the clock, and no reading was late; and if the deadline has passed
      before it begins, nothing is captured. */
  lemma LatenessIsNoticed(h: Heap, late: Clock, v: Value, depth: nat, l: Limits, ctx: Context)
    ensures
      var (c, end) := CaptureValue(h, late, v, depth, l, ctx);
      && (!end.timedOut ==> ctx.readings < end.readings && forall n | ctx.readings <= n < end.readings :: !late(n))
      && (ctx.timedOut || late(ctx.readings) ==>
            && end.timedOut && c == NotCaptured(TypeOf(h, v), Timeout)
            && (v == Null ==> c.info.typeName == "null")
            && (v.Reference? && h(v.at).kind == Plain ==> c.info.typeName == "object")
            && (v.Reference? && h(v.at).kind == FunctionObject ==> c.info.typeName == "function"))
  {
    var (c, end) := CaptureValue(h, late, v, depth, l, ctx);
    assert Noticed(late, ctx, end);
  }

  /** A text is shown up to the maximum length, and its length is told if it is longer. */
  lemma TextsAreCut(h: Heap, late: Clock, s: string, depth: nat, l: Limits, ctx: Context, c: Captured)
    requires InTime(h, late, String(s), depth, l, ctx, c)
    ensures c.info.value == Some(s[..Shown(|s|, l.maxLength)]) && c.info.notCapturedReason.None?
    ensures c.info.truncated <==> |s| > l.maxLength
    ensures c.info.size == if |s| > l.maxLength then Some(|s|) else None
    ensures c.elements == [] && c.entries == [] && c.fields == []
  {
    assert s[..|s|] == s;
  }

  /** Arrays and sets show their first items, each one level deeper. */
  lemma CollectionsShowTheFirst(
    h: Heap, late: Clock, at: nat, items: seq<Value>, depth: nat, l: Limits, ctx: Context, c: Captured
  )
    requires h(at).kind == ArrayObject(items) || h(at).kind == SetObject(items)
    requires depth < l.maxReferenceDepth && InTime(h, late, Reference(at), depth, l, ctx, c)
    ensures Labelled(c.info, if h(at).kind.ArrayObject? then "Array" else "Set", |items|, l.maxCollectionSize, CollectionSize)
    ensures |c.elements| == Shown(|items|, l.maxCollectionSize)
    ensures forall k | 0 <= k < |c.elements| :: c.elements[k] == Picture(h, items[k], depth + 1, l)
    ensures c.entries == [] && c.fields == []
  {
    InTimeShowsTheObject(h, late, at, depth, l, ctx, c);
    var typeName := if h(at).kind.ArrayObject? then "Array" else "Set";
    assert c == PictureOfElements(h, typeName, items, depth, l);
    var shown := First(items, l.maxCollectionSize);
    forall k | 0 <= k < |shown| ensures c.elements[k] == Picture(h, items[k], depth + 1, l) {
      assert c.elements[k] == Pictures(h, shown, depth, l)[k] == Picture(h, shown[k], depth + 1, l);
    }
  }

  lemma {:induction false} FlatAlternates(entries: seq<(Value, Value)>, k: nat)
    requires k < |entries|
    ensures |Flat(entries)| == 2 * |entries|
    ensures Flat(entries)[2 * k] == entries[k].0 && Flat(entries)[2 * k + 1] == entries[k].1
    decreases |entries|
  {
    if |entries| > 1 {
      FlatAlternates(entries[1..], if k > 0 then k - 1 else 0);
    }
  }

  /** Maps show their first entries, keys and values alternating. */
  lemma MapsShowTheFirst(
    h: Heap, late: Clock, at: nat, entries: seq<(Value, Value)>, depth: nat, l: Limits, ctx: Context, c: Captured
  )
    requires h(at).kind == MapObject(entries)
    requires depth < l.maxReferenceDepth && InTime(h, late, Reference(at), depth, l, ctx, c)
    ensures Labelled(c.info, "Map", |entries|, l.maxCollectionSize, CollectionSize)
    ensures |c.entries| == 2 * Shown(|entries|, l.maxCollectionSize)
    ensures forall k | 0 <= k < Shown(|entries|, l.maxCollectionSize) ::
              && c.entries[2 * k] == Picture(h, entries[k].0, depth + 1, l)
              && c.entries[2 * k + 1] == Picture(h, entries[k].1, depth + 1, l)
    ensures c.elements == [] && c.fields == []
  {
    InTimeShowsTheObject(h, late, at, depth, l, ctx, c);
    assert c.entries == Pictures(h, Flat(First(entries, l.maxCollectionSize)), depth, l);
    var shown := First(entries, l.maxCollectionSize);
    if shown != [] {
      FlatAlternates(shown, 0);
    }
    forall k | 0 <= k < |shown|
      ensures
        && |Flat(shown)| == 2 * |shown| && shown[k] == entries[k]
        && Flat(shown)[2 * k] == entries[k].0 && Flat(shown)[2 * k + 1] == entries[k].1
    {
      FlatAlternates(shown, k);
    }
  }

  ghost predicate DistinctNames(names: seq<string>) {
    forall j, k | 0 <= j < k < |names| :: names[j] != names[k]
  }

  lemma {:induction false} NewName(names: seq<string>, name: string)
    requires name !in names
    ensures IndexOfName(names, name) == |names|
  {
    if names != [] {
      NewName(names[1..], name);
    }
  }

  lemma {:induction false} DistinctFields(names: seq<string>, values: seq<Captured>)
    requires |names| == |values| && DistinctNames(names)
    ensures FieldsOf(names, values) == Record(names, values)
    decreases |names|
  {
    if names != [] {
      var n := |names| - 1;
      DistinctFields(names[..n], values[..n]);
      NewName(names[..n], names[n]);
      assert names[..n] + [names[n]] == names && values[..n] + [values[n]] == values;
    }
  }

  /** The field with a name. */
  function FieldNamed(names: seq<string>, fields: seq<Captured>, name: string): Option<Captured> {
    var i := IndexOfName(names, name);
    if i < |names| && i < |fields| then Some(fields[i]) else None
  }

  lemma {:induction false} IndexFinds(names: seq<string>, name: string)
    ensures
      var i := IndexOfName(names, name);
      && (i < |names| ==> names[i] == name)
      && (i == |names| ==> name !in names)
  {
    if names != [] {
      IndexFinds(names[1..], name);
    }
  }

  lemma {:induction false} IndexInMore(names: seq<string>, more: string, name: string)
    ensures IndexOfName(names + [more], name) ==
            if IndexOfName(names, name) < |names| then IndexOfName(names, name)
            else if more == name then |names| else |names| + 1
  {
    if names == [] {
      assert names + [more] == [more] && [more][1..] == [];
    } else {
      assert (names + [more])[1..] == names[1..] + [more];
      IndexInMore(names[1..], more, name);
    }
  }

  /** Putting a field changes this one, and no other. */
  lemma PutChangesOne(r: Record, put: string, c: Captured, name: string)
    requires |r.names| == |r.fields|
    ensures |Put(r, put, c).names| == |Put(r, put, c).fields|
    ensures FieldNamed(Put(r, put, c).names, Put(r, put, c).fields, name) ==
            if name == put then Some(c) else FieldNamed(r.names, r.fields, name)
  {
    IndexFinds(r.names, put);
    IndexFinds(r.names, name);
    IndexInMore(r.names, put, name);
  }

  /** Of several values for a name the last one stays. */
  lemma {:induction false} LastValueStays(names: seq<string>, values: seq<Captured>, k: nat)
    requires |names| == |values| && k < |names| && forall j | k < j < |names| :: names[j] != names[k]
    ensures |FieldsOf(names, values).names| == |FieldsOf(names, values).fields|
    ensures FieldNamed(FieldsOf(names, values).names, FieldsOf(names, values).fields, names[k]) == Some(values[k])
    decreases |names|
  {
    var n := |names| - 1;
    FieldsMatch(names[..n], values[..n]);
    PutChangesOne(FieldsOf(names[..n], values[..n]), names[n], values[n], names[k]);
    if k < n {
      LastValueStays(names[..n], values[..n], k);
    }
  }

  lemma {:induction false} FieldsMatch(names: seq<string>, values: seq<Captured>)
    requires |names| == |values|
    ensures |FieldsOf(names, values).names| == |FieldsOf(names, values).fields|
    decreases |names|
  {
    if names != [] {
      FieldsMatch(names[..|names| - 1], values[..|names| - 1]);
    }
  }

  /** The name under which a property is shown: dots, which separate path segments, are replaced. */
  predicate IsNameOf(key: PropertyKey, name: string) {
    match key
    case StringKey(s) =>
      |name| == |s| && forall i | 0 <= i < |s| :: name[i] == if s[i] == '.' then '_' else s[i]
    case SymbolKey(description) => name == if description == "" then "Symbol()" else description
  }

  /** Objects and functions show their first fields, one level deeper, or that they cannot be accessed; if two
      names coincide, the later field replaces the earlier one. */
  lemma ObjectsShowTheFirstFields(h: Heap, late: Clock, at: nat, depth: nat, l: Limits, ctx: Context, c: Captured)
    requires h(at).kind == Plain || h(at).kind == FunctionObject
    requires depth < l.maxReferenceDepth && InTime(h, late, Reference(at), depth, l, ctx, c)
    ensures Labelled(c.info, h(at).typeName, |h(at).properties|, l.maxFieldCount, FieldCount)
    ensures c.elements == [] && c.entries == []
    ensures
      var properties := h(at).properties;
      var n := Shown(|properties|, l.maxFieldCount);
      DistinctNames(Names(properties[..n])) ==>
        && |c.names| == |c.fields| == n
        && forall k | 0 <= k < n ::
             && IsNameOf(properties[k].0, c.names[k])
             && match properties[k].1
                case Data(value) => c.fields[k] == Picture(h, value, depth + 1, l)
                case Throws => c.fields[k].info.notCapturedReason == Some(AccessError)
  {
    InTimeShowsTheObject(h, late, at, depth, l, ctx, c);
    assert c == PictureOfProperties(h, h(at), depth, l);
    var properties := h(at).properties;
    var n := Shown(|properties|, l.maxFieldCount);
    var shown := First(properties, l.maxFieldCount);
    assert shown == properties[..n];
    var values := seq(|shown|, i requires 0 <= i < |shown| => PictureOfProperty(h, shown[i].1, depth, l));
    if DistinctNames(Names(shown)) {
      DistinctFields(Names(shown), values);
      assert PictureOfFields(h, shown, depth, l) == Record(Names(shown), values);
    }
  }

  /** Where names coincide, the last field is the one that is shown. */
  lemma LastFieldOfANameIsShown(h: Heap, late: Clock, at: nat, depth: nat, l: Limits, ctx: Context, c: Captured, k: nat)
    requires h(at).kind == Plain || h(at).kind == FunctionObject
    requires depth < l.maxReferenceDepth && InTime(h, late, Reference(at), depth, l, ctx, c)
    requires k < Shown(|h(at).properties|, l.maxFieldCount)
    requires forall j | k < j < Shown(|h(at).properties|, l.maxFieldCount) ::
               KeyName(h(at).properties[j].0) != KeyName(h(at).properties[k].0)
    ensures FieldNamed(c.names, c.fields, KeyName(h(at).properties[k].0)) ==
            Some(PictureOfProperty(h, h(at).properties[k].1, depth, l))
  {
    InTimeShowsTheObject(h, late, at, depth, l, ctx, c);
    assert c == PictureOfProperties(h, h(at), depth, l);
    var shown := First(h(at).properties, l.maxFieldCount);
    assert shown == h(at).properties[..Shown(|h(at).properties|, l.maxFieldCount)];
    LastFieldStays(h, shown, depth, l, k);
  }

  lemma LastFieldStays(h: Heap, shown: seq<(PropertyKey, Property)>, depth: nat, l: Limits, k: nat)
    requires depth <= l.maxReferenceDepth && k < |shown|
    requires forall j | k < j < |shown| :: KeyName(shown[j].0) != KeyName(shown[k].0)
    ensures
      var record := PictureOfFields(h, shown, depth, l);
      FieldNamed(record.names, record.fields, KeyName(shown[k].0)) == Some(PictureOfProperty(h, shown[k].1, depth, l))
  {
    var values := seq(|shown|, i requires 0 <= i < |shown| => PictureOfProperty(h, shown[i].1, depth, l));
    LastValueStays(Names(shown), values, k);
  }

  /** Below the maximum depth, an object is only named. */
  lemma DeepObjectsAreOnlyNamed(h: Heap, late: Clock, at: nat, depth: nat, l: Limits, ctx: Context, c: Captured)
    requires !h(at).kind.ClassObject? && depth >= l.maxReferenceDepth
    requires InTime(h, late, Reference(at), depth, l, ctx, c)
    ensures c == NotCaptured(h(at).typeName, Depth)
  {
    InTimeShowsTheObject(h, late, at, depth, l, ctx, c);
  }

  /** An error shows its message and name, and its stack and cause if it has them. */
  lemma ErrorsShowTheirCause(
    h: Heap, late: Clock, at: nat, message: Value, name: Value, stack: Value, cause: Value, depth: nat, l: Limits,
    ctx: Context, c: Captured
  )
    requires h(at).kind == ErrorObject(Data(message), Data(name), Data(stack), Data(cause))
    requires depth < l.maxReferenceDepth && InTime(h, late, Reference(at), depth, l, ctx, c)
    ensures
      c.names == ["message", "name"] + (if stack == Undefined then [] else ["stack"]) + (if cause == Undefined then [] else ["cause"])
    ensures |c.fields| == |c.names|
    ensures forall k | 0 <= k < |c.names| ::
              c.fields[k] == Picture(h, match c.names[k]
                                        case "message" => message
                                        case "name" => name
                                        case "stack" => stack
                                        case _ => cause, depth + 1, l)
  {
    InTimeShowsTheObject(h, late, at, depth, l, ctx, c);
    assert "message"[0] != "name"[0] && "stack"[0] != "name"[0] && "stack"[0] != "message"[0];
    assert "cause"[0] != "name"[0] && "cause"[0] != "stack"[0] && "cause"[0] != "message"[0];
  }
}
