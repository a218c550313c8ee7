/** The meaning of an expression, stated on the expression itself. References are looked up in one
    environment, in which collection predicates bind only the element, or the key and the value. */
module ExpressionMeaning {
  import opened Expression
  import opened JsSemantics

  function SizeOf(host: Host, v: Value): Outcome {
    match v
    case String(_) => ReadOwn(host, v, String("length"))
    case Object(_, kind) =>
      (match kind
       case StringObject => ReadOwn(host, v, String("length"))
       case ArrayObject(_) => ReadOwn(host, v, String("length"))
       case TypedArrayObject(_) => ReadOwn(host, v, String("length"))
       case SetObject(_) => ReadOwn(host, v, String("size"))
       case MapObject => ReadOwn(host, v, String("size"))
       case PlainObject => Val(Number(host.keyCount(v)))
       case _ => Throw(TypeError))
    case _ => Throw(TypeError)
  }

  /** Comparing an object that has its own conversion to a primitive could run user code. */
  function Comparable(host: Host, v: Value): Outcome {
    if v.Object? && v.kind != FunctionObject && host.coerces(v) then Throw(CoercionSideEffect) else Val(v)
  }

  predicate IsText(v: Value) {
    v.String? || (v.Object? && v.kind == StringObject)
  }

  function ContainsValue(host: Host, container: Value, element: Value): Outcome {
    match container
    case String(_) => host.builtin(StringIncludes, container, element)
    case Object(_, kind) =>
      (match kind
       case StringObject => host.builtin(StringIncludes, container, element)
       case ArrayObject(_) => host.builtin(ArrayIncludes, container, element)
       case TypedArrayObject(_) => host.builtin(TypedArrayIncludes, container, element)
       case SetObject(_) => host.builtin(SetHas, container, element)
       case WeakSetObject => host.builtin(WeakSetHas, container, element)
       case MapObject => host.builtin(MapHas, container, element)
       case WeakMapObject => host.builtin(WeakMapHas, container, element)
       case _ => Throw(TypeError))
    case _ => Throw(TypeError)
  }

  function MatchesValue(host: Host, subject: Value, regex: Value): Outcome {
    if IsText(subject) && (IsText(regex) || host.regexUsable(regex)) then host.builtin(RegExpTest, subject, regex)
    else Throw(TypeError)
  }

  function MemberOf(host: Host, v: Value, key: Value, allowMapAccess: bool): Outcome {
    if v.Object? && v.kind == MapObject then
      if allowMapAccess then host.builtin(MapGet, v, key) else Throw(AccessNotAllowed)
    else if v.Object? && v.kind == WeakMapObject then
      if allowMapAccess then host.builtin(WeakMapGet, v, key) else Throw(AccessNotAllowed)
    else if v.Object? && (v.kind.SetObject? || v.kind.WeakSetObject?) then Throw(AccessNotAllowed)
    else ReadOwn(host, v, key)
  }

  function CompareValues(host: Host, op: CompareOp, a: Value, b: Value): Outcome {
    match op
    case Eq => Val(Boolean(StrictlyEqual(a, b)))
    case Ne => Val(Boolean(!StrictlyEqual(a, b)))
    case _ => host.compare(JsOp(op), a, b)
  }

  /** A reference, possibly wrapped in connectives of one operand. */
  predicate IsBareRef(n: Node) {
    match n
    case Ref(_) => true
    case And(args) => |args| == 1 && IsBareRef(args[0])
    case Or(args) => |args| == 1 && IsBareRef(args[0])
    case _ => false
  }

  function Meaning(host: Host, n: Node, env: Env): Outcome
    decreases n, 1, 0
  {
    match n
    case NullLiteral => Val(Null)
    case BooleanLiteral(b) => Val(Boolean(b))
    case NumberLiteral(r) => Val(Number(r))
    case StringLiteral(s) => Val(String(s))
    case Not(e) =>
      (match Meaning(host, e, env)
       case Throw(err) => Throw(err)
       case Val(v) => Val(Boolean(!Truthy(v))))
    case Size(e) =>
      (match Meaning(host, e, env)
       case Throw(err) => Throw(err)
       case Val(v) => SizeOf(host, v))
    case IsEmpty(e) =>
      (match Meaning(host, e, env)
       case Throw(err) => Throw(err)
       case Val(v) =>
         match SizeOf(host, v)
         case Throw(err) => Throw(err)
         case Val(size) => Val(Boolean(size == Number(0.0))))
    case IsDefined(e) => Val(Boolean(Meaning(host, e, env).Val?))
    case InstanceOf(e, typeName) =>
      if typeName in PRIMITIVE_TYPES then
        // An undeclared reference has type undefined.
        if IsBareRef(e) && Meaning(host, e, env).Throw? then Val(Boolean(typeName == "undefined"))
        else
          (match Meaning(host, e, env)
           case Throw(err) => Throw(err)
           case Val(v) => Val(Boolean(TypeOf(v) == typeName)))
      else
        (match Lookup(typeName, env)
         case Throw(err) => Throw(err)
         case Val(constructor_) =>
           match Meaning(host, e, env)
           case Throw(err) => Throw(err)
           case Val(v) => host.builtin(FunctionHasInstance, constructor_, v))
    case Ref(name) => Lookup(Mangle(name), env)
    case Compare(op, left, right) =>
      (match MeaningCompared(host, op, left, env)
       case Throw(err) => Throw(err)
       case Val(v) =>
         match MeaningCompared(host, op, right, env)
         case Throw(err) => Throw(err)
         case Val(w) => CompareValues(host, op, v, w))
    case And(args) => MeaningConnective(host, LogicalAnd, args, env)
    case Or(args) => MeaningConnective(host, LogicalOr, args, env)
    case Quantified(q, collection, p) =>
      (match Meaning(host, collection, env)
       case Throw(err) => Throw(err)
       case Val(v) =>
         if IsIterable(v) then MeaningItems(host, q, p, Items(v), env)
         else
           match host.entries(v)
           case NoEntries(err) => Throw(err)
           case Entries(entries) => MeaningEntries(host, q, p, entries, env))
    case Filter(collection, p) =>
      (match Meaning(host, collection, env)
       case Throw(err) => Throw(err)
       case Val(v) =>
         if IsIterable(v) then KeepItems(host, p, Items(v), [], env)
         else
           match host.entries(v)
           case NoEntries(err) => Throw(err)
           case Entries(entries) => KeepEntries(host, p, entries, [], env))
    case Affix(atEnd, subject, affix) =>
      (match MeaningText(host, subject, env)
       case Throw(err) => Throw(err)
       case Val(v) =>
         match MeaningText(host, affix, env)
         case Throw(err) => Throw(err)
         case Val(w) => host.builtin(if atEnd then EndsWith else StartsWith, v, w))
    case Contains(container, element) =>
      (match Meaning(host, container, env)
       case Throw(err) => Throw(err)
       case Val(v) =>
         match Meaning(host, element, env)
         case Throw(err) => Throw(err)
         case Val(w) => ContainsValue(host, v, w))
    case Matches(subject, regex) =>
      (match Meaning(host, subject, env)
       case Throw(err) => Throw(err)
       case Val(v) =>
         match Meaning(host, regex, env)
         case Throw(err) => Throw(err)
         case Val(w) => MatchesValue(host, v, w))
    case Substring(subject, start, end) =>
      (match MeaningText(host, subject, env)
       case Throw(err) => Throw(err)
       case Val(v) =>
         match Meaning(host, start, env)
         case Throw(err) => Throw(err)
         case Val(from) =>
           match Meaning(host, end, env)
           case Throw(err) => Throw(err)
           case Val(to) => host.substring(v, from, to))
    case Member(object_, key, allowMapAccess) =>
      (match Meaning(host, object_, env)
       case Throw(err) => Throw(err)
       case Val(v) =>
         match Meaning(host, key, env)
         case Throw(err) => Throw(err)
         case Val(k) => MemberOf(host, v, k, allowMapAccess))
    case Unknown(_) => Val(Null)
  }

  /** The operand of a comparison: guarded, unless only identity is compared. */
  function MeaningCompared(host: Host, op: CompareOp, n: Node, env: Env): Outcome
    decreases n, 2, 0
  {
    match Meaning(host, n, env)
    case Throw(err) => Throw(err)
    case Val(v) => if op == Eq || op == Ne then Val(v) else Comparable(host, v)
  }

  function MeaningText(host: Host, n: Node, env: Env): Outcome
    decreases n, 2, 0
  {
    match Meaning(host, n, env)
    case Throw(err) => Throw(err)
    case Val(v) => if IsText(v) then Val(v) else Throw(TypeError)
  }

  /** Operands from left to right, up to the first that decides; the value is that of the last one seen. */
  function MeaningConnective(host: Host, op: BinaryOp, args: seq<Node>, env: Env): Outcome
    decreases args, 0, 0
  {
    if args == [] then Val(Boolean(op == LogicalAnd))
    else
      match Meaning(host, args[0], env)
      case Throw(err) => Throw(err)
      case Val(v) => if |args| == 1 || Decides(op, v) then Val(v) else MeaningConnective(host, op, args[1..], env)
  }

  function MeaningItems(host: Host, q: Quantifier, p: Node, items: seq<Value>, env: Env): Outcome
    decreases p, 2, |items|
  {
    if items == [] then Val(Boolean(q == Every))
    else
      match Meaning(host, p, env["$dd_it" := items[0]])
      case Throw(err) => Throw(err)
      case Val(v) => if Stops(q, v) then Val(Boolean(q == Some_)) else MeaningItems(host, q, p, items[1..], env)
  }

  function MeaningEntries(host: Host, q: Quantifier, p: Node, entries: seq<(Value, Value)>, env: Env): Outcome
    decreases p, 2, |entries|
  {
    if entries == [] then Val(Boolean(q == Every))
    else
      match Meaning(host, p, env["$dd_key" := entries[0].0]["$dd_value" := entries[0].1])
      case Throw(err) => Throw(err)
      case Val(v) => if Stops(q, v) then Val(Boolean(q == Some_)) else MeaningEntries(host, q, p, entries[1..], env)
  }

  function KeepItems(host: Host, p: Node, items: seq<Value>, kept: seq<Value>, env: Env): Outcome
    decreases p, 2, |items|
  {
    if items == [] then Val(Object(Fresh, ArrayObject(kept)))
    else
      match Meaning(host, p, env["$dd_it" := items[0]])
      case Throw(err) => Throw(err)
      case Val(v) => KeepItems(host, p, items[1..], if Truthy(v) then kept + [items[0]] else kept, env)
  }

  function KeepEntries(host: Host, p: Node, entries: seq<(Value, Value)>, kept: seq<(Value, Value)>, env: Env): Outcome
    decreases p, 2, |entries|
  {
    if entries == [] then Val(host.fromEntries(kept))
    else
      match Meaning(host, p, env["$dd_key" := entries[0].0]["$dd_value" := entries[0].1])
      case Throw(err) => Throw(err)
      case Val(v) => KeepEntries(host, p, entries[1..], if Truthy(v) then kept + [entries[0]] else kept, env)
  }
}
