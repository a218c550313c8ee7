/** What the emitted JavaScript does: values, the code of the helpers, and evaluation in an environment of
    lexical bindings. Built-in operations of the language are parameters (`Host`): everything proved holds
    whatever they return or throw. Evaluation has no effects, which is what the helpers' guards are for. */
module JsSemantics {
  import opened Expression
  import opened JsSyntax

  datatype Kind =
    | PlainObject
    | ArrayObject(items: seq<Value>)
    | TypedArrayObject(items: seq<Value>)
    | SetObject(items: seq<Value>)
    | MapObject
    | WeakSetObject
    | WeakMapObject
    | StringObject
    | FunctionObject

  /** Objects made during evaluation have no identity: they are identical to nothing. */
  datatype Identity = Fresh | Existing(id: nat)

  datatype Value =
    | Undefined
    | Null
    | Boolean(b: bool)
    | Number(n: real)
    | String(s: string)
    | BigInt(i: int)
    | Symbol(id: nat)
    | Object(identity: Identity, kind: Kind)

  datatype Error =
    | ReferenceError(name: string)
    | TypeError
    | SideEffect
    | CoercionSideEffect
    | AccessNotAllowed
    | HostError(code: int)

  datatype Outcome = Val(value: Value) | Throw(error: Error)

  datatype Entries = Entries(entries: seq<(Value, Value)>) | NoEntries(error: Error)

  datatype Builtin = StringIncludes | ArrayIncludes | TypedArrayIncludes | SetHas | WeakSetHas | MapHas | WeakMapHas
                   | MapGet | WeakMapGet | StartsWith | EndsWith | RegExpTest | FunctionHasInstance

  datatype Host = Host(
    ownGetter: (Value, Value) -> Outcome,
    get: (Value, Value) -> Outcome,
    coerces: Value -> bool,
    keyCount: Value -> real,
    entries: Value -> Entries,
    fromEntries: seq<(Value, Value)> -> Value,
    compare: (BinaryOp, Value, Value) -> Outcome,
    regexUsable: Value -> bool,
    builtin: (Builtin, Value, Value) -> Outcome,
    substring: (Value, Value, Value) -> Outcome)

  type Env = map<string, Value>

  // ---- Primitive operations -----------------------------------------------------------------------

  function TypeOf(v: Value): string {
    match v
    case Undefined => "undefined"
    case Null => "object"
    case Boolean(_) => "boolean"
    case Number(_) => "number"
    case String(_) => "string"
    case BigInt(_) => "bigint"
    case Symbol(_) => "symbol"
    case Object(_, kind) => if kind == FunctionObject then "function" else "object"
  }

  predicate Truthy(v: Value) {
    match v
    case Undefined => false
    case Null => false
    case Boolean(b) => b
    case Number(n) => n != 0.0
    case String(s) => s != ""
    case BigInt(i) => i != 0
    case _ => true
  }

  predicate StrictlyEqual(a: Value, b: Value) {
    a == b && (a.Object? ==> a.identity != Fresh)
  }

  predicate IsIterable(v: Value) {
    v.Object? && (v.kind.ArrayObject? || v.kind.TypedArrayObject? || v.kind.SetObject? || v.kind.WeakSetObject?)
  }

  /** `Array.from`; a weak set has nothing to list. */
  function Items(v: Value): seq<Value>
    requires IsIterable(v)
  {
    if v.kind.WeakSetObject? then [] else v.kind.items
  }

  function ReadOwn(host: Host, v: Value, key: Value): Outcome {
    match host.ownGetter(v, key)
    case Throw(e) => Throw(e)
    case Val(hasGetter) => if Truthy(hasGetter) then Throw(SideEffect) else host.get(v, key)
  }

  // ---- The code of the helpers --------------------------------------------------------------------

  datatype Class = SetClass | MapClass | WeakSetClass | WeakMapClass

  datatype Test =
    | IsString(arg: nat)
    | IsArray(arg: nat)
    | IsTypedArray(arg: nat)
    | InstanceOfClass(class_: Class, arg: nat)
    | IsNonNullObject(arg: nat)
    | HasCoercion(arg: nat)
    | RegexUsable(arg: nat)
    | Either(a: Test, b: Test)
    | Both(a: Test, b: Test)

  datatype Code =
    | If(test: Test, yes: Code, no: Code)
    | ReturnArgument(arg: nat)
    | ReturnLength(property: string)
    | ReturnMember
    | ReturnKeyCount
    | ReturnBuiltin(builtin: Builtin)
    | Fail(error: Error)

  function IsArrayOrTypedArray(arg: nat): Test {
    Either(IsArray(arg), IsTypedArray(arg))
  }

  function HelperCode(h: Helper): Code {
    match h
    case GetSize =>
      If(Either(IsString(0), IsArrayOrTypedArray(0)), ReturnLength("length"),
         If(Either(InstanceOfClass(SetClass, 0), InstanceOfClass(MapClass, 0)), ReturnLength("size"),
            If(Either(InstanceOfClass(WeakSetClass, 0), InstanceOfClass(WeakMapClass, 0)), Fail(TypeError),
               If(IsNonNullObject(0), ReturnKeyCount, Fail(TypeError)))))
    case GuardCoercion => If(Both(IsNonNullObject(0), HasCoercion(0)), Fail(CoercionSideEffect), ReturnArgument(0))
    case AssertString => If(IsString(0), ReturnArgument(0), Fail(TypeError))
    case CallAffix(atEnd) => ReturnBuiltin(if atEnd then EndsWith else StartsWith)
    case CallContains =>
      If(IsString(0), ReturnBuiltin(StringIncludes),
         If(IsArray(0), ReturnBuiltin(ArrayIncludes),
            If(IsTypedArray(0), ReturnBuiltin(TypedArrayIncludes),
               If(InstanceOfClass(SetClass, 0), ReturnBuiltin(SetHas),
                  If(InstanceOfClass(WeakSetClass, 0), ReturnBuiltin(WeakSetHas),
                     If(InstanceOfClass(MapClass, 0), ReturnBuiltin(MapHas),
                        If(InstanceOfClass(WeakMapClass, 0), ReturnBuiltin(WeakMapHas), Fail(TypeError))))))))
    case CallMatches =>
      If(IsString(0), If(Either(IsString(1), RegexUsable(1)), ReturnBuiltin(RegExpTest), Fail(TypeError)), Fail(TypeError))
    case AccessProperty(allowMapAccess) =>
      If(InstanceOfClass(MapClass, 0), if allowMapAccess then ReturnBuiltin(MapGet) else Fail(AccessNotAllowed),
         If(InstanceOfClass(WeakMapClass, 0), if allowMapAccess then ReturnBuiltin(WeakMapGet) else Fail(AccessNotAllowed),
            If(Either(InstanceOfClass(SetClass, 0), InstanceOfClass(WeakSetClass, 0)), Fail(AccessNotAllowed), ReturnMember)))
    case HasInstance => ReturnBuiltin(FunctionHasInstance)
  }

  function Arity(h: Helper): nat {
    match h
    case GetSize => 1
    case GuardCoercion => 1
    case AssertString => 1
    case _ => 2
  }

  predicate Holds(host: Host, t: Test, args: seq<Value>) {
    match t
    case Either(a, b) => Holds(host, a, args) || Holds(host, b, args)
    case Both(a, b) => Holds(host, a, args) && Holds(host, b, args)
    case _ => t.arg < |args| && HoldsOf(host, t, args[t.arg])
  }

  predicate HoldsOf(host: Host, t: Test, v: Value) {
    match t
    case IsString(_) => v.String? || (v.Object? && v.kind == StringObject)
    case IsArray(_) => v.Object? && v.kind.ArrayObject?
    case IsTypedArray(_) => v.Object? && v.kind.TypedArrayObject?
    case InstanceOfClass(c, _) =>
      v.Object? && (match c
                    case SetClass => v.kind.SetObject?
                    case MapClass => v.kind == MapObject
                    case WeakSetClass => v.kind == WeakSetObject
                    case WeakMapClass => v.kind == WeakMapObject)
    case IsNonNullObject(_) => TypeOf(v) == "object" && v != Null
    case HasCoercion(_) => host.coerces(v)
    case RegexUsable(_) => host.regexUsable(v)
    case _ => false
  }

  function RunCode(host: Host, code: Code, args: seq<Value>): Outcome
    requires |args| == 1 || |args| == 2
  {
    match code
    case If(t, yes, no) => if Holds(host, t, args) then RunCode(host, yes, args) else RunCode(host, no, args)
    case ReturnArgument(i) => if i < |args| then Val(args[i]) else Val(Undefined)
    case ReturnLength(property) => ReadOwn(host, args[0], String(property))
    case ReturnMember => ReadOwn(host, args[0], args[|args| - 1])
    case ReturnKeyCount => Val(Number(host.keyCount(args[0])))
    case ReturnBuiltin(b) => host.builtin(b, args[0], args[|args| - 1])
    case Fail(e) => Throw(e)
  }

  function RunHelper(host: Host, h: Helper, args: seq<Value>): Outcome {
    if |args| == Arity(h) then RunCode(host, HelperCode(h), args) else Throw(TypeError)
  }

  // ---- Evaluation ---------------------------------------------------------------------------------

  datatype Outcomes = Values(values: seq<Value>) | Thrown(error: Error)

  function Lookup(name: string, env: Env): Outcome {
    if name in env then Val(env[name]) else Throw(ReferenceError(name))
  }

  /** Whether `&&` or `||` returns its left operand. */
  predicate Decides(op: BinaryOp, v: Value) {
    if op == LogicalAnd then !Truthy(v) else Truthy(v)
  }

  function ApplyBinary(host: Host, op: BinaryOp, a: Value, b: Value): Outcome {
    match op
    case StrictEq => Val(Boolean(StrictlyEqual(a, b)))
    case StrictNe => Val(Boolean(!StrictlyEqual(a, b)))
    case _ => host.compare(op, a, b)
  }

  function Eval(host: Host, e: Js, env: Env): Outcome
    decreases e, 0, 0
  {
    match e
    case JNumber(n) => Val(Number(n))
    case JString(s) => Val(String(s))
    case JBoolean(b) => Val(Boolean(b))
    case JNull => Val(Null)
    case JVariable(name) => Lookup(name, env)
    case JNegate(a) =>
      (match Eval(host, a, env)
       case Throw(err) => Throw(err)
       case Val(v) => if v.Number? then Val(Number(-v.n)) else Throw(TypeError))
    case JNot(a) =>
      (match Eval(host, a, env)
       case Throw(err) => Throw(err)
       case Val(v) => Val(Boolean(!Truthy(v))))
    case JTypeof(a) =>
      if a.JVariable? && a.name !in env then Val(String("undefined"))
      else
        (match Eval(host, a, env)
         case Throw(err) => Throw(err)
         case Val(v) => Val(String(TypeOf(v))))
    case JBinary(op, a, b) =>
      (match Eval(host, a, env)
       case Throw(err) => Throw(err)
       case Val(v) =>
         if op == LogicalAnd || op == LogicalOr then
           if Decides(op, v) then Val(v) else Eval(host, b, env)
         else
           match Eval(host, b, env)
           case Throw(err) => Throw(err)
           case Val(w) => ApplyBinary(host, op, v, w))
    case JCall(h, args) =>
      (match EvalAll(host, args, env)
       case Thrown(err) => Throw(err)
       case Values(values) => RunHelper(host, h, values))
    case JTry(a) => Val(Boolean(Eval(host, a, env).Val?))
    case JIterate(q, onItem, onEntry, collection) =>
      (match Eval(host, collection, env)
       case Throw(err) => Throw(err)
       case Val(v) =>
         var inner := env["$dd_val" := v];
         if IsIterable(v) then EvalItems(host, q, onItem, Items(v), inner)
         else
           match host.entries(v)
           case NoEntries(err) => Throw(err)
           case Entries(entries) => EvalEntries(host, q, onEntry, entries, inner))
    case JFilter(onItem, onEntry, collection) =>
      (match Eval(host, collection, env)
       case Throw(err) => Throw(err)
       case Val(v) =>
         var inner := env["$dd_var" := v];
         if IsIterable(v) then FilterItems(host, onItem, Items(v), [], inner)
         else
           match host.entries(v)
           case NoEntries(err) => Throw(err)
           case Entries(entries) => FilterEntries(host, onEntry, entries, [], inner))
    case JSubstring(start, end, subject) =>
      (match Eval(host, subject, env)
       case Throw(err) => Throw(err)
       case Val(v) =>
         var inner := env["str" := v];
         if !HoldsOf(host, IsString(0), v) then Throw(TypeError)
         else
           match Eval(host, start, inner)
           case Throw(err) => Throw(err)
           case Val(from) =>
             match Eval(host, end, inner)
             case Throw(err) => Throw(err)
             case Val(to) => host.substring(v, from, to))
  }

  function EvalAll(host: Host, es: seq<Js>, env: Env): Outcomes
    decreases es, 0, 0
  {
    if es == [] then Values([])
    else
      match Eval(host, es[0], env)
      case Throw(err) => Thrown(err)
      case Val(v) =>
        match EvalAll(host, es[1..], env)
        case Thrown(err) => Thrown(err)
        case Values(values) => Values([v] + values)
  }

  /** `some` stops at the first truthy answer, `every` at the first falsy one. */
  predicate Stops(q: Quantifier, v: Value) {
    if q == Some_ then Truthy(v) else !Truthy(v)
  }

  function EvalItems(host: Host, q: Quantifier, body: Js, items: seq<Value>, env: Env): Outcome
    decreases body, 1, |items|
  {
    if items == [] then Val(Boolean(q == Every))
    else
      match Eval(host, body, env["$dd_it" := items[0]])
      case Throw(err) => Throw(err)
      case Val(v) => if Stops(q, v) then Val(Boolean(q == Some_)) else EvalItems(host, q, body, items[1..], env)
  }

  function EvalEntries(host: Host, q: Quantifier, body: Js, entries: seq<(Value, Value)>, env: Env): Outcome
    decreases body, 1, |entries|
  {
    if entries == [] then Val(Boolean(q == Every))
    else
      match Eval(host, body, env["$dd_key" := entries[0].0]["$dd_value" := entries[0].1])
      case Throw(err) => Throw(err)
      case Val(v) => if Stops(q, v) then Val(Boolean(q == Some_)) else EvalEntries(host, q, body, entries[1..], env)
  }

  function FilterItems(host: Host, body: Js, items: seq<Value>, kept: seq<Value>, env: Env): Outcome
    decreases body, 1, |items|
  {
    if items == [] then Val(Object(Fresh, ArrayObject(kept)))
    else
      match Eval(host, body, env["$dd_it" := items[0]])
      case Throw(err) => Throw(err)
      case Val(v) => FilterItems(host, body, items[1..], if Truthy(v) then kept + [items[0]] else kept, env)
  }

  /** The `reduce` whose accumulator `acc` is in scope of the predicate. */
  function FilterEntries(
    host: Host, body: Js, entries: seq<(Value, Value)>, kept: seq<(Value, Value)>, env: Env
  ): Outcome
    decreases body, 1, |entries|
  {
    if entries == [] then Val(host.fromEntries(kept))
    else
      var inner := env["acc" := host.fromEntries(kept)]["$dd_key" := entries[0].0]["$dd_value" := entries[0].1];
      match Eval(host, body, inner)
      case Throw(err) => Throw(err)
      case Val(v) => FilterEntries(host, body, entries[1..], if Truthy(v) then kept + [entries[0]] else kept, env)
  }
}
