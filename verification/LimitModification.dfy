/** Writing the modifications of an event back, limited to the fields that may be modified.

    Values are trees: an event shares no object between two of its positions, nor with its clone, so objects
    are never identical to those of the clone. */
module LimitModification {

  datatype Value =
    | Undefined
    | Null
    | Boolean(b: bool)
    | Number(n: real)
    | String(s: string)
    | Function(id: nat)
    | Array(items: seq<Value>)
    | Object(fields: map<string, Value>)

  datatype FieldType = StringField | ObjectField | ArrayField

  /** A path is split at its dots and in front of each `[]`. */
  datatype Segment = Field(name: string) | Each

  datatype Pattern = Pattern(path: seq<Segment>, fieldType: FieldType)

  type Sanitizer = Value -> Value

  /** What reading a property gives when the path has no segment left: the code then reads `undefined`. */
  const NO_FIELD: Segment := Field("undefined")

  predicate StrictlyEqual(a: Value, b: Value) {
    a == b && !a.Array? && !a.Object?
  }

  function Get(v: Value, field: string): Value
    requires v.Object?
  {
    if field in v.fields then v.fields[field] else Undefined
  }

  predicate HasType(v: Value, fieldType: FieldType) {
    match fieldType
    case StringField => v.String?
    case ObjectField => v.Object?
    case ArrayField => v.Array?
  }

  function SetNestedValue(o: Value, field: string, value: Value, fieldType: FieldType, sanitize: Sanitizer): Value
    requires o.Object?
  {
    if StrictlyEqual(Get(o, field), value) then o
    else if HasType(value, fieldType) then Object(o.fields[field := sanitize(value)])
    else if fieldType == ObjectField && (value.Undefined? || value.Null?) then Object(o.fields[field := Object(map[])])
    else if fieldType == ArrayField && (value.Undefined? || value.Null?) then Object(o.fields[field := Array([])])
    else o
  }

  function SetValueAtPath(o: Value, c: Value, path: seq<Segment>, fieldType: FieldType, sanitize: Sanitizer): Value
    decreases |path|
  {
    var head := if path == [] then NO_FIELD else path[0];
    var rest := if path == [] then [] else path[1..];
    if head.Each? then
      if o.Array? && c.Array? then
        Array(seq(|o.items|, i requires 0 <= i < |o.items| =>
                SetValueAtPath(o.items[i], if i < |c.items| then c.items[i] else Undefined, rest, fieldType, sanitize)))
      else o
    else if !o.Object? || !c.Object? then o
    else if rest == [] then SetNestedValue(o, head.name, Get(c, head.name), fieldType, sanitize)
    else if head.name in o.fields then
      Object(o.fields[head.name :=
               SetValueAtPath(o.fields[head.name], Get(c, head.name), rest, fieldType, sanitize)])
    else o
  }

  function WriteBack(o: Value, c: Value, patterns: seq<Pattern>, sanitize: Sanitizer): Value {
    if patterns == [] then o
    else
      var n := |patterns| - 1;
      SetValueAtPath(WriteBack(o, c, patterns[..n], sanitize), c, patterns[n].path, patterns[n].fieldType, sanitize)
  }

  /** `limitModification`: the modifier works on a clone, of which only the listed fields are written back. */
  method Limit(o: Value, patterns: seq<Pattern>, modifier: Value -> Value, sanitize: Sanitizer) returns (modified: Value)
    ensures modified == WriteBack(o, modifier(o), patterns, sanitize)
  {
    var clone := modifier(o);
    modified := o;
    var i := 0;
    while i < |patterns|
      invariant 0 <= i <= |patterns|
      invariant modified == WriteBack(o, clone, patterns[..i], sanitize)
    {
      assert patterns[..i + 1][..i] == patterns[..i];
      modified := SetValueAtPath(modified, clone, patterns[i].path, patterns[i].fieldType, sanitize);
      i := i + 1;
    }
    assert patterns[..|patterns|] == patterns;
  }

  // ---- Positions ----------------------------------------------------------------------------------

  datatype Step = Key(name: string) | Index(i: nat)

  datatype Found = Missing | Here(value: Value)

  function Child(v: Value, step: Step): Found {
    match step
    case Key(name) => if v.Object? && name in v.fields then Here(v.fields[name]) else Missing
    case Index(i) => if v.Array? && i < |v.items| then Here(v.items[i]) else Missing
  }

  /** The value at a position. */
  function ValueAt(v: Value, position: seq<Step>): Found {
    if position == [] then Here(v)
    else
      match Child(v, position[0])
      case Missing => Missing
      case Here(child) => ValueAt(child, position[1..])
  }

  predicate StepMatches(segment: Segment, step: Step) {
    match segment
    case Field(name) => step == Key(name)
    case Each => step.Index?
  }

  /** The segments that lead to the field that is written. */
  function Full(path: seq<Segment>): seq<Segment> {
    if path == [] || path[|path| - 1].Each? then path + [NO_FIELD] else path
  }

  predicate Matches(path: seq<Segment>, position: seq<Step>) {
    |path| == |position| && forall k | 0 <= k < |path| :: StepMatches(path[k], position[k])
  }

  /** The position is one that the path designates, or below one. */
  predicate Covers(path: seq<Segment>, position: seq<Step>) {
    |Full(path)| <= |position| && Matches(Full(path), position[..|Full(path)|])
  }

  /** The position is above, at or below one that the path designates. */
  predicate Meets(path: seq<Segment>, position: seq<Step>) {
    forall k | 0 <= k < |Full(path)| && k < |position| :: StepMatches(Full(path)[k], position[k])
  }

  /** Same shape: what is not changed at a position when something below it is. */
  predicate SameNode(a: Found, b: Found) {
    match a
    case Missing => b.Missing?
    case Here(v) =>
      b.Here? && (if v.Array? then b.value.Array? && |b.value.items| == |v.items|
                  else if v.Object? then b.value.Object?
                  else b.value == v)
  }

  // ---- One path -----------------------------------------------------------------------------------

  lemma FullStep(path: seq<Segment>)
    ensures Full(path) != []
    ensures path != [] && (path[0].Each? || |path| > 1) ==>
              Full(path)[0] == path[0] && Full(path)[1..] == Full(path[1..])
    ensures path == [] || (|path| == 1 && path[0].Field?) ==> Full(path) == [if path == [] then NO_FIELD else path[0]]
  {
    if path != [] && (path[0].Each? || |path| > 1) {
      if |path| == 1 {
        assert path[1..] == [];
        assert Full(path) == path + [NO_FIELD];
      } else {
        assert path[1..][|path[1..]| - 1] == path[|path| - 1];
      }
    }
  }

  lemma CoversStep(path: seq<Segment>, position: seq<Step>)
    requires path != [] && (path[0].Each? || |path| > 1) && position != []
    ensures Covers(path, position) <==> StepMatches(path[0], position[0]) && Covers(path[1..], position[1..])
    ensures Meets(path, position) <==> StepMatches(path[0], position[0]) && Meets(path[1..], position[1..])
  {
    FullStep(path);
    var full, rest := Full(path), Full(path[1..]);
    assert forall k | 0 < k < |full| :: full[k] == rest[k - 1];
    assert forall k | 0 < k < |position| :: position[k] == position[1..][k - 1];
    if StepMatches(path[0], position[0]) && Covers(path[1..], position[1..]) {
      forall k | 0 <= k < |full| ensures StepMatches(full[k], position[..|full|][k]) {
        if k > 0 {
          assert StepMatches(rest[k - 1], position[1..][..|rest|][k - 1]);
        }
      }
    }
    if Covers(path, position) {
      assert StepMatches(full[0], position[..|full|][0]);
      forall k | 0 <= k < |rest| ensures StepMatches(rest[k], position[1..][..|rest|][k]) {
        assert StepMatches(full[k + 1], position[..|full|][k + 1]);
      }
    }
    if StepMatches(path[0], position[0]) && Meets(path[1..], position[1..]) {
      forall k | 0 <= k < |full| && k < |position| ensures StepMatches(full[k], position[k]) {
        if k > 0 {
          assert StepMatches(rest[k - 1], position[1..][k - 1]);
        }
      }
    }
    if Meets(path, position) {
      forall k | 0 <= k < |rest| && k < |position[1..]| ensures StepMatches(rest[k], position[1..][k]) {
        assert StepMatches(full[k + 1], position[k + 1]);
      }
    }
  }

  /** What the write does to the child at a step, when the path goes on. */
  lemma ChildOfSet(o: Value, c: Value, path: seq<Segment>, fieldType: FieldType, sanitize: Sanitizer, step: Step)
    requires path != [] && (path[0].Each? || |path| > 1)
    ensures
      var after := Child(SetValueAtPath(o, c, path, fieldType, sanitize), step);
      var before := Child(o, step);
      if before.Here? && StepMatches(path[0], step) && (if path[0].Each? then c.Array? else c.Object?)
      then
        var counterpart := if Child(c, step).Here? then Child(c, step).value else Undefined;
        after == Here(SetValueAtPath(before.value, counterpart, path[1..], fieldType, sanitize))
      else after == before
  {}

  lemma {:induction false} SetKeepsOthers(
    o: Value, c: Value, path: seq<Segment>, fieldType: FieldType, sanitize: Sanitizer, position: seq<Step>
  )
    requires !Covers(path, position)
    ensures SameNode(ValueAt(o, position), ValueAt(SetValueAtPath(o, c, path, fieldType, sanitize), position))
    ensures !Meets(path, position) ==>
              ValueAt(SetValueAtPath(o, c, path, fieldType, sanitize), position) == ValueAt(o, position)
    decreases |path|
  {
    FullStep(path);
    if position == [] {
      assert Meets(path, []);
    } else if path != [] && (path[0].Each? || |path| > 1) {
      ChildOfSet(o, c, path, fieldType, sanitize, position[0]);
      CoversStep(path, position);
      var before := Child(o, position[0]);
      if before.Here? && StepMatches(path[0], position[0]) {
        var counterpart := if Child(c, position[0]).Here? then Child(c, position[0]).value else Undefined;
        SetKeepsOthers(before.value, counterpart, path[1..], fieldType, sanitize, position[1..]);
      }
      SameNodeReflexive(ValueAt(o, position));
    } else {
      LastFieldKeepsOthers(o, c, path, fieldType, sanitize, position);
      SameNodeReflexive(ValueAt(o, position));
    }
  }

  lemma SameNodeReflexive(f: Found)
    ensures SameNode(f, f)
  {}

  lemma LastFieldKeepsOthers(
    o: Value, c: Value, path: seq<Segment>, fieldType: FieldType, sanitize: Sanitizer, position: seq<Step>
  )
    requires path == [] || (|path| == 1 && path[0].Field?)
    requires position != [] && !Covers(path, position)
    ensures ValueAt(SetValueAtPath(o, c, path, fieldType, sanitize), position) == ValueAt(o, position)
  {
    FullStep(path);
    assert position[..1] == [position[0]];
    assert !StepMatches(Full(path)[0], position[0]);
  }

  /** What ends up in a field: the sanitized value of the clone if it has the declared type, the empty default
      if it was removed, and otherwise what was there. */
  function NewField(before: Found, value: Value, fieldType: FieldType, sanitize: Sanitizer): Found {
    if StrictlyEqual(if before.Here? then before.value else Undefined, value) then before
    else if HasType(value, fieldType) then Here(sanitize(value))
    else if fieldType == ObjectField && (value.Undefined? || value.Null?) then Here(Object(map[]))
    else if fieldType == ArrayField && (value.Undefined? || value.Null?) then Here(Array([]))
    else before
  }

  /** At a designated position whose parent is an object in the event and in the clone. */
  lemma {:induction false} SetWrites(
    o: Value, c: Value, path: seq<Segment>, fieldType: FieldType, sanitize: Sanitizer, position: seq<Step>
  )
    requires Matches(Full(path), position)
    ensures
      position != []
      && var n := |position| - 1;
         var parent, counterpart := ValueAt(o, position[..n]), ValueAt(c, position[..n]);
         var after := ValueAt(SetValueAtPath(o, c, path, fieldType, sanitize), position);
         if parent.Here? && parent.value.Object? && counterpart.Here? && counterpart.value.Object? && position[n].Key?
         then
           after == NewField(ValueAt(o, position), Get(counterpart.value, position[n].name), fieldType, sanitize)
         else after == ValueAt(o, position)
    decreases |path|
  {
    FullStep(path);
    var n := |position| - 1;
    assert StepMatches(Full(path)[0], position[0]);
    if path != [] && (path[0].Each? || |path| > 1) {
      MatchesTail(path, position);
      ChildOfSet(o, c, path, fieldType, sanitize, position[0]);
      var before := Child(o, position[0]);
      assert position[..n][0] == position[0] && position[..n][1..] == position[1..][..n - 1];
      if before.Here? {
        var counterpart := if Child(c, position[0]).Here? then Child(c, position[0]).value else Undefined;
        SetWrites(before.value, counterpart, path[1..], fieldType, sanitize, position[1..]);
        UndefinedHasNoObject(position[1..][..n - 1]);
      }
    } else {
      assert position[..0] == [] && position[1..] == [];
    }
  }

  lemma UndefinedHasNoObject(position: seq<Step>)
    ensures ValueAt(Undefined, position).Here? ==> !ValueAt(Undefined, position).value.Object?
  {}

  lemma MatchesTail(path: seq<Segment>, position: seq<Step>)
    requires path != [] && (path[0].Each? || |path| > 1) && Matches(Full(path), position)
    ensures |position| > 1 && Matches(Full(path[1..]), position[1..])
  {
    FullStep(path);
    FullStep(path[1..]);
    forall k | 0 <= k < |Full(path[1..])| ensures StepMatches(Full(path[1..])[k], position[1..][k]) {
      assert StepMatches(Full(path)[k + 1], position[k + 1]);
    }
  }

  // ---- All paths ----------------------------------------------------------------------------------

  lemma SameNodeTransitive(a: Found, b: Found, c: Found)
    requires SameNode(a, b) && SameNode(b, c)
    ensures SameNode(a, c)
  {}

  /** Whatever the modifier did, the event differs from the original only at, or below, positions that a
      listed path designates: elsewhere nothing appears or disappears, no value changes, and no array gets
      longer or shorter. */
  lemma {:induction false} OnlyListedPositionsChange(
    o: Value, c: Value, patterns: seq<Pattern>, sanitize: Sanitizer, position: seq<Step>
  )
    requires forall k | 0 <= k < |patterns| :: !Covers(patterns[k].path, position)
    ensures SameNode(ValueAt(o, position), ValueAt(WriteBack(o, c, patterns, sanitize), position))
  {
    if patterns == [] {
      SameNodeReflexive(ValueAt(o, position));
    } else {
      var n := |patterns| - 1;
      var before := WriteBack(o, c, patterns[..n], sanitize);
      OnlyListedPositionsChange(o, c, patterns[..n], sanitize, position);
      SetKeepsOthers(before, c, patterns[n].path, patterns[n].fieldType, sanitize, position);
      SameNodeTransitive(ValueAt(o, position), ValueAt(before, position),
                         ValueAt(WriteBack(o, c, patterns, sanitize), position));
    }
  }

  /** Paths that neither lead to a position, nor above or below it, leave everything there as it was. */
  lemma {:induction false} UnrelatedPositionsStay(
    o: Value, c: Value, patterns: seq<Pattern>, sanitize: Sanitizer, position: seq<Step>
  )
    requires forall k | 0 <= k < |patterns| :: !Meets(patterns[k].path, position)
    ensures ValueAt(WriteBack(o, c, patterns, sanitize), position) == ValueAt(o, position)
  {
    if patterns != [] {
      var n := |patterns| - 1;
      UnrelatedPositionsStay(o, c, patterns[..n], sanitize, position);
      CoversMeets(patterns[n].path, position);
      SetKeepsOthers(WriteBack(o, c, patterns[..n], sanitize), c, patterns[n].path, patterns[n].fieldType, sanitize, position);
    }
  }

  lemma CoversMeets(path: seq<Segment>, position: seq<Step>)
    ensures Covers(path, position) ==> Meets(path, position)
  {
    if Covers(path, position) {
      forall k | 0 <= k < |Full(path)| && k < |position| ensures StepMatches(Full(path)[k], position[k]) {
        assert StepMatches(Full(path)[k], position[..|Full(path)|][k]);
      }
    }
  }

  lemma WriteOneMore(o: Value, c: Value, patterns: seq<Pattern>, sanitize: Sanitizer, p: nat)
    requires p < |patterns|
    ensures WriteBack(o, c, patterns[..p + 1], sanitize) ==
            SetValueAtPath(WriteBack(o, c, patterns[..p], sanitize), c, patterns[p].path, patterns[p].fieldType, sanitize)
  {
    assert patterns[..p + 1][..p] == patterns[..p];
  }

  lemma OtherPathKeeps(
    o: Value, c: Value, path: seq<Segment>, fieldType: FieldType, sanitize: Sanitizer, position: seq<Step>
  )
    requires !Meets(path, position)
    ensures ValueAt(SetValueAtPath(o, c, path, fieldType, sanitize), position) == ValueAt(o, position)
  {
    CoversMeets(path, position);
    SetKeepsOthers(o, c, path, fieldType, sanitize, position);
  }

  /** Paths that do not concern a position leave it alone. */
  lemma {:induction false} LaterPathsKeep(
    o: Value, c: Value, patterns: seq<Pattern>, sanitize: Sanitizer, position: seq<Step>, p: nat
  )
    requires p < |patterns| && forall k | p < k < |patterns| :: !Meets(patterns[k].path, position)
    ensures ValueAt(WriteBack(o, c, patterns, sanitize), position) ==
            ValueAt(WriteBack(o, c, patterns[..p + 1], sanitize), position)
    decreases |patterns|
  {
    var n := |patterns| - 1;
    if p == n {
      assert patterns[..p + 1] == patterns;
    } else {
      WriteOneMore(o, c, patterns, sanitize, n);
      assert patterns[..n + 1] == patterns && patterns[..n][..p + 1] == patterns[..p + 1];
      LaterPathsKeep(o, c, patterns[..n], sanitize, position, p);
      OtherPathKeeps(WriteBack(o, c, patterns[..n], sanitize), c, patterns[n].path, patterns[n].fieldType, sanitize, position);
    }
  }

  /** What is at a designated position in the end was written by the last listed path that concerns it: the
      value of the clone, sanitized, if it has the declared type; the empty default if the modifier removed it;
      and otherwise what the paths before have left there. */
  lemma ListedFieldIsWritten(
    o: Value, c: Value, patterns: seq<Pattern>, sanitize: Sanitizer, position: seq<Step>, p: nat
  )
    requires p < |patterns| && Matches(Full(patterns[p].path), position) && position != []
    requires forall k | p < k < |patterns| :: !Meets(patterns[k].path, position)
    ensures
      var n := |position| - 1;
      var before := WriteBack(o, c, patterns[..p], sanitize);
      var parent, counterpart := ValueAt(before, position[..n]), ValueAt(c, position[..n]);
      var after := ValueAt(WriteBack(o, c, patterns, sanitize), position);
      if parent.Here? && parent.value.Object? && counterpart.Here? && counterpart.value.Object? && position[n].Key?
      then
        after ==
        NewField(ValueAt(before, position), Get(counterpart.value, position[n].name), patterns[p].fieldType, sanitize)
      else after == ValueAt(before, position)
  {
    LaterPathsKeep(o, c, patterns, sanitize, position, p);
    WriteOneMore(o, c, patterns, sanitize, p);
    SetWrites(WriteBack(o, c, patterns[..p], sanitize), c, patterns[p].path, patterns[p].fieldType, sanitize, position);
  }

  /** What is written, type by type: a string over anything else than itself; an object or an array always, and an
      empty one where the modifier has left nothing; no other value. */
  predicate IsWritten(before: Found, value: Value, fieldType: FieldType, sanitize: Sanitizer, after: Found) {
    match fieldType
    case StringField =>
      (match value
       case String(_) => after == if before == Here(value) then before else Here(sanitize(value))
       case _ => after == before)
    case ObjectField =>
      (match value
       case Object(_) => after == Here(sanitize(value))
       case Undefined => after == if before in {Missing, Here(Undefined)} then before else Here(Object(map[]))
       case Null => after == if before == Here(Null) then before else Here(Object(map[]))
       case _ => after == before)
    case ArrayField =>
      (match value
       case Array(_) => after == Here(sanitize(value))
       case Undefined => after == if before in {Missing, Here(Undefined)} then before else Here(Array([]))
       case Null => after == if before == Here(Null) then before else Here(Array([]))
       case _ => after == before)
  }

  lemma FieldsAreWrittenByType(
    o: Value, c: Value, patterns: seq<Pattern>, sanitize: Sanitizer, position: seq<Step>, p: nat,
    parent: Value, counterpart: Value, name: string
  )
    requires p < |patterns| && Matches(Full(patterns[p].path), position + [Key(name)])
    requires forall k | p < k < |patterns| :: !Meets(patterns[k].path, position + [Key(name)])
    requires ValueAt(WriteBack(o, c, patterns[..p], sanitize), position) == Here(parent) && parent.Object?
    requires ValueAt(c, position) == Here(counterpart) && counterpart.Object?
    ensures IsWritten(
              ValueAt(WriteBack(o, c, patterns[..p], sanitize), position + [Key(name)]),
              if name in counterpart.fields then counterpart.fields[name] else Undefined,
              patterns[p].fieldType, sanitize,
              ValueAt(WriteBack(o, c, patterns, sanitize), position + [Key(name)]))
  {
    var whole := position + [Key(name)];
    assert whole[..|whole| - 1] == position;
    ListedFieldIsWritten(o, c, patterns, sanitize, whole, p);
  }

  /** If no other listed path concerns the position, that is what was there in the event. */
  lemma SoleListedFieldIsWritten(
    o: Value, c: Value, patterns: seq<Pattern>, sanitize: Sanitizer, position: seq<Step>, p: nat
  )
    requires p < |patterns| && Matches(Full(patterns[p].path), position) && position != []
    requires forall k | 0 <= k < |patterns| && k != p :: !Meets(patterns[k].path, position)
    ensures
      var n := |position| - 1;
      var parent, counterpart := ValueAt(o, position[..n]), ValueAt(c, position[..n]);
      var after := ValueAt(WriteBack(o, c, patterns, sanitize), position);
      if parent.Here? && parent.value.Object? && counterpart.Here? && counterpart.value.Object? && position[n].Key?
      then
        after == NewField(ValueAt(o, position), Get(counterpart.value, position[n].name), patterns[p].fieldType, sanitize)
      else after == ValueAt(o, position)
  {
    ListedFieldIsWritten(o, c, patterns, sanitize, position, p);
    ParentStays(o, c, patterns[..p], sanitize, position);
    UnrelatedPositionsStay(o, c, patterns[..p], sanitize, position);
  }

  /** The parent of a position stays an object, or not one. */
  lemma ParentStays(o: Value, c: Value, patterns: seq<Pattern>, sanitize: Sanitizer, position: seq<Step>)
    requires position != []
    requires forall k | 0 <= k < |patterns| :: !Meets(patterns[k].path, position)
    ensures SameNode(ValueAt(o, position[..|position| - 1]),
                     ValueAt(WriteBack(o, c, patterns, sanitize), position[..|position| - 1]))
  {
    forall k | 0 <= k < |patterns| ensures !Covers(patterns[k].path, position[..|position| - 1]) {
      CoveredParentMeets(patterns[k].path, position);
    }
    OnlyListedPositionsChange(o, c, patterns, sanitize, position[..|position| - 1]);
  }

  lemma CoveredParentMeets(path: seq<Segment>, position: seq<Step>)
    requires position != []
    ensures Covers(path, position[..|position| - 1]) ==> Meets(path, position)
  {
    var full, parent := Full(path), position[..|position| - 1];
    if Covers(path, parent) {
      forall j | 0 <= j < |full| && j < |position| ensures StepMatches(full[j], position[j]) {
        assert StepMatches(full[j], parent[..|full|][j]);
      }
    }
  }

  /** A field that holds no object and no array, and that the modifier left alone, is left alone, whatever
      else it changed: unless a listed path designates something above the field. */
  lemma {:induction false} UntouchedFieldStays(
    o: Value, c: Value, patterns: seq<Pattern>, sanitize: Sanitizer, position: seq<Step>, value: Value
  )
    requires ValueAt(o, position) == ValueAt(c, position) == Here(value) && !value.Array? && !value.Object?
    requires forall k | 0 <= k < |patterns| ::
               Covers(patterns[k].path, position) ==> |Full(patterns[k].path)| == |position|
    ensures ValueAt(WriteBack(o, c, patterns, sanitize), position) == Here(value)
  {
    if patterns != [] {
      var n := |patterns| - 1;
      var before := WriteBack(o, c, patterns[..n], sanitize);
      UntouchedFieldStays(o, c, patterns[..n], sanitize, position, value);
      assert forall k | 0 <= k < n :: patterns[..n][k] == patterns[k];
      if Covers(patterns[n].path, position) {
        assert position[..|position|] == position;
        SetWrites(before, c, patterns[n].path, patterns[n].fieldType, sanitize, position);
        FieldOfParent(c, position, value);
      } else {
        SetKeepsOthers(before, c, patterns[n].path, patterns[n].fieldType, sanitize, position);
      }
    }
  }

  /** A value is what its parent holds at the last step. */
  lemma {:induction false} FieldOfParent(v: Value, position: seq<Step>, value: Value)
    requires position != [] && ValueAt(v, position) == Here(value)
    ensures
      var n := |position| - 1;
      var parent := ValueAt(v, position[..n]);
      parent.Here? && (parent.value.Object? && position[n].Key? ==> Get(parent.value, position[n].name) == value)
    decreases |position|
  {
    var n := |position| - 1;
    if n > 0 {
      FieldOfParent(Child(v, position[0]).value, position[1..], value);
      assert position[1..][..n - 1] == position[..n][1..];
    } else {
      assert position[1..] == [];
    }
  }
}
