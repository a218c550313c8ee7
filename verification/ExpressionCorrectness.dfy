/** The compiled text means what the expression means, unless a reference is captured by a name that
    helper code binds around the place where the reference is spliced in. */
module ExpressionCorrectness {
  import opened Expression
  import opened JsSyntax
  import opened ExpressionSyntax
  import opened ExpressionTrees
  import opened JsSemantics
  import opened ExpressionMeaning

  // ---- Hygiene --------------------------------------------------------------------------------------

  /** The environments differ at most on the captured names. */
  ghost predicate Agree(js: Env, dsl: Env, captured: set<string>) {
    forall x | x !in captured :: (x in js <==> x in dsl) && (x in js ==> js[x] == dsl[x])
  }

  /** No name of `n` is captured, given those that are captured around it. */
  ghost predicate Hygienic(n: Node, captured: set<string>)
    decreases n
  {
    match n
    case Ref(name) => Mangle(name) !in captured
    case InstanceOf(e, typeName) => Hygienic(e, captured) && (typeName in PRIMITIVE_TYPES || typeName !in captured)
    case Not(e) => Hygienic(e, captured)
    case Size(e) => Hygienic(e, captured)
    case IsEmpty(e) => Hygienic(e, captured)
    case IsDefined(e) => Hygienic(e, captured)
    case Compare(_, left, right) => Hygienic(left, captured) && Hygienic(right, captured)
    case And(args) => forall i | 0 <= i < |args| :: Hygienic(args[i], captured)
    case Or(args) => forall i | 0 <= i < |args| :: Hygienic(args[i], captured)
    case Quantified(_, collection, p) => Hygienic(collection, captured) && Hygienic(p, captured + {"$dd_val"})
    case Filter(collection, p) => Hygienic(collection, captured) && Hygienic(p, captured + {"$dd_var", "acc"})
    case Affix(_, subject, affix) => Hygienic(subject, captured) && Hygienic(affix, captured)
    case Contains(container, element) => Hygienic(container, captured) && Hygienic(element, captured)
    case Matches(subject, regex) => Hygienic(subject, captured) && Hygienic(regex, captured)
    case Substring(subject, start, end) =>
      Hygienic(subject, captured) && Hygienic(start, captured + {"str"}) && Hygienic(end, captured + {"str"})
    case Member(object_, key, _) => Hygienic(object_, captured) && Hygienic(key, captured)
    case _ => true
  }

  ghost predicate Same(host: Host, n: Node, js: Env, dsl: Env) {
    Eval(host, Tree(n), js) == Meaning(host, n, dsl)
  }

  // ---- Helpers --------------------------------------------------------------------------------------

  lemma RunIf(host: Host, code: Code, args: seq<Value>)
    requires code.If? && (|args| == 1 || |args| == 2)
    ensures RunCode(host, code, args) == RunCode(host, if Holds(host, code.test, args) then code.yes else code.no, args)
  {}

  lemma EitherHolds(host: Host, t: Test, args: seq<Value>)
    requires t.Either?
    ensures Holds(host, t, args) == (Holds(host, t.a, args) || Holds(host, t.b, args))
  {}

  lemma SimpleHolds(host: Host, t: Test, args: seq<Value>)
    requires !t.Either? && !t.Both? && t.arg < |args|
    ensures Holds(host, t, args) == HoldsOf(host, t, args[t.arg])
  {}

  /** Runs four branches of a helper. */
  lemma RunFour(host: Host, code: Code, args: seq<Value>)
    requires |args| == 1 || |args| == 2
    requires code.If? && code.no.If? && code.no.no.If? && code.no.no.no.If?
    ensures RunCode(host, code, args) ==
            if Holds(host, code.test, args) then RunCode(host, code.yes, args)
            else if Holds(host, code.no.test, args) then RunCode(host, code.no.yes, args)
            else if Holds(host, code.no.no.test, args) then RunCode(host, code.no.no.yes, args)
            else if Holds(host, code.no.no.no.test, args) then RunCode(host, code.no.no.no.yes, args)
            else RunCode(host, code.no.no.no.no, args)
  {
    RunIf(host, code, args);
    RunIf(host, code.no, args);
    RunIf(host, code.no.no, args);
    RunIf(host, code.no.no.no, args);
  }

  lemma RunGetSize(host: Host, v: Value)
    ensures RunHelper(host, GetSize, [v]) == SizeOf(host, v)
  {
    var code, args := HelperCode(GetSize), [v];
    RunFour(host, code, args);
    EitherHolds(host, code.test, args);
    EitherHolds(host, code.test.b, args);
    SimpleHolds(host, IsString(0), args);
    SimpleHolds(host, IsArray(0), args);
    SimpleHolds(host, IsTypedArray(0), args);
    EitherHolds(host, code.no.test, args);
    EitherHolds(host, code.no.no.test, args);
    SimpleHolds(host, IsNonNullObject(0), args);
  }

  lemma RunGuard(host: Host, v: Value)
    ensures RunHelper(host, GuardCoercion, [v]) == Comparable(host, v)
  {
    var code, args := HelperCode(GuardCoercion), [v];
    RunIf(host, code, args);
    SimpleHolds(host, IsNonNullObject(0), args);
    SimpleHolds(host, HasCoercion(0), args);
  }

  lemma RunAssertString(host: Host, v: Value)
    ensures RunHelper(host, AssertString, [v]) == if IsText(v) then Val(v) else Throw(TypeError)
  {
    var code, args := HelperCode(AssertString), [v];
    RunIf(host, code, args);
    SimpleHolds(host, IsString(0), args);
  }

  lemma RunContains(host: Host, v: Value, w: Value)
    ensures RunHelper(host, CallContains, [v, w]) == ContainsValue(host, v, w)
  {
    var code, args := HelperCode(CallContains), [v, w];
    RunFour(host, code, args);
    RunIf(host, code.no.no.no.no, args);
    RunIf(host, code.no.no.no.no.no, args);
    RunIf(host, code.no.no.no.no.no.no, args);
    SimpleHolds(host, IsString(0), args);
    SimpleHolds(host, IsArray(0), args);
    SimpleHolds(host, IsTypedArray(0), args);
  }

  lemma RunMatches(host: Host, v: Value, w: Value)
    ensures RunHelper(host, CallMatches, [v, w]) == MatchesValue(host, v, w)
  {
    var code, args := HelperCode(CallMatches), [v, w];
    RunIf(host, code, args);
    RunIf(host, code.yes, args);
    SimpleHolds(host, IsString(0), args);
    EitherHolds(host, code.yes.test, args);
    SimpleHolds(host, IsString(1), args);
    SimpleHolds(host, RegexUsable(1), args);
  }

  lemma RunAccess(host: Host, v: Value, w: Value, allowMapAccess: bool)
    ensures RunHelper(host, AccessProperty(allowMapAccess), [v, w]) == MemberOf(host, v, w, allowMapAccess)
  {
    var code, args := HelperCode(AccessProperty(allowMapAccess)), [v, w];
    RunIf(host, code, args);
    RunIf(host, code.no, args);
    RunIf(host, code.no.no, args);
    EitherHolds(host, code.no.no.test, args);
  }

  lemma Call1(host: Host, h: Helper, a: Js, env: Env)
    ensures Eval(host, JCall(h, [a]), env) ==
            match Eval(host, a, env)
            case Throw(err) => Throw(err)
            case Val(v) => RunHelper(host, h, [v])
  {
    assert [a][1..] == [];
    assert EvalAll(host, [], env) == Values([]);
    if Eval(host, a, env).Val? {
      assert EvalAll(host, [a], env) == Values([Eval(host, a, env).value]);
    }
  }

  lemma EvalOne(host: Host, b: Js, env: Env)
    ensures EvalAll(host, [b], env) ==
            match Eval(host, b, env)
            case Throw(err) => Thrown(err)
            case Val(w) => Values([w])
  {
    assert [b][1..] == [];
    assert EvalAll(host, [], env) == Values([]);
  }

  lemma EvalTwo(host: Host, a: Js, b: Js, env: Env)
    ensures EvalAll(host, [a, b], env) ==
            match Eval(host, a, env)
            case Throw(err) => Thrown(err)
            case Val(v) =>
              match Eval(host, b, env)
              case Throw(err) => Thrown(err)
              case Val(w) => Values([v, w])
  {
    assert [a, b][1..] == [b];
    EvalOne(host, b, env);
  }

  lemma Call2(host: Host, h: Helper, a: Js, b: Js, env: Env)
    ensures Eval(host, JCall(h, [a, b]), env) ==
            match Eval(host, a, env)
            case Throw(err) => Throw(err)
            case Val(v) =>
              match Eval(host, b, env)
              case Throw(err) => Throw(err)
              case Val(w) => RunHelper(host, h, [v, w])
  {
    EvalTwo(host, a, b, env);
  }

  // ---- One node at a time ---------------------------------------------------------------------------

  lemma SizeSame(host: Host, n: Node, js: Env, dsl: Env)
    requires n.Size? && Same(host, n.e, js, dsl)
    ensures Same(host, n, js, dsl)
  {
    Call1(host, GetSize, Tree(n.e), js);
    if Meaning(host, n.e, dsl).Val? {
      RunGetSize(host, Meaning(host, n.e, dsl).value);
    }
  }

  lemma IsEmptySame(host: Host, n: Node, js: Env, dsl: Env)
    requires n.IsEmpty? && Same(host, n.e, js, dsl)
    ensures Same(host, n, js, dsl)
  {
    Call1(host, GetSize, Tree(n.e), js);
    assert Eval(host, JNumber(0.0), js) == Val(Number(0.0));
    if Meaning(host, n.e, dsl).Val? {
      RunGetSize(host, Meaning(host, n.e, dsl).value);
    }
  }

  lemma GuardedSame(host: Host, op: CompareOp, n: Node, js: Env, dsl: Env)
    requires Same(host, n, js, dsl)
    ensures Eval(host, if op == Eq || op == Ne then Tree(n) else GuardedTree(n), js) == MeaningCompared(host, op, n, dsl)
  {
    Call1(host, GuardCoercion, Tree(n), js);
    if Meaning(host, n, dsl).Val? {
      RunGuard(host, Meaning(host, n, dsl).value);
    }
  }

  lemma CompareSame(host: Host, n: Node, js: Env, dsl: Env)
    requires n.Compare? && Same(host, n.left, js, dsl) && Same(host, n.right, js, dsl)
    ensures Same(host, n, js, dsl)
  {
    GuardedSame(host, n.op, n.left, js, dsl);
    GuardedSame(host, n.op, n.right, js, dsl);
  }

  lemma TextSame(host: Host, n: Node, js: Env, dsl: Env)
    requires Same(host, n, js, dsl)
    ensures Eval(host, JCall(AssertString, [Tree(n)]), js) == MeaningText(host, n, dsl)
  {
    Call1(host, AssertString, Tree(n), js);
    if Meaning(host, n, dsl).Val? {
      RunAssertString(host, Meaning(host, n, dsl).value);
    }
  }

  lemma AffixSame(host: Host, n: Node, js: Env, dsl: Env)
    requires n.Affix? && Same(host, n.subject, js, dsl) && Same(host, n.affix, js, dsl)
    ensures Same(host, n, js, dsl)
  {
    TextSame(host, n.subject, js, dsl);
    TextSame(host, n.affix, js, dsl);
    Call2(host, CallAffix(n.atEnd), JCall(AssertString, [Tree(n.subject)]), JCall(AssertString, [Tree(n.affix)]), js);
  }

  lemma ContainsSame(host: Host, n: Node, js: Env, dsl: Env)
    requires n.Contains? && Same(host, n.container, js, dsl) && Same(host, n.element, js, dsl)
    ensures Same(host, n, js, dsl)
  {
    Call2(host, CallContains, Tree(n.container), Tree(n.element), js);
    var v, w := Meaning(host, n.container, dsl), Meaning(host, n.element, dsl);
    if v.Val? && w.Val? {
      RunContains(host, v.value, w.value);
    }
  }

  lemma MatchesSame(host: Host, n: Node, js: Env, dsl: Env)
    requires n.Matches? && Same(host, n.subject, js, dsl) && Same(host, n.regex, js, dsl)
    ensures Same(host, n, js, dsl)
  {
    Call2(host, CallMatches, Tree(n.subject), Tree(n.regex), js);
    var v, w := Meaning(host, n.subject, dsl), Meaning(host, n.regex, dsl);
    if v.Val? && w.Val? {
      RunMatches(host, v.value, w.value);
    }
  }

  lemma MemberSame(host: Host, n: Node, js: Env, dsl: Env)
    requires n.Member? && Same(host, n.object_, js, dsl) && Same(host, n.key, js, dsl)
    ensures Same(host, n, js, dsl)
  {
    Call2(host, AccessProperty(n.allowMapAccess), Tree(n.object_), Tree(n.key), js);
    var v, w := Meaning(host, n.object_, dsl), Meaning(host, n.key, dsl);
    if v.Val? && w.Val? {
      RunAccess(host, v.value, w.value, n.allowMapAccess);
    }
  }

  lemma {:induction false} BareTree(n: Node, env: Env, host: Host)
    requires WellSpliced(n) && Legal(n)
    ensures Tree(n).JVariable? <==> IsBareRef(n)
    ensures IsBareRef(n) ==> Meaning(host, n, env) == Lookup(Tree(n).name, env)
    decreases n
  {
    match n
    case And(args) => BareConnective(n, LogicalAnd, args, env, host);
    case Or(args) => BareConnective(n, LogicalOr, args, env, host);
    case Unknown(_) =>
    case _ =>
  }

  lemma {:induction false} BareConnective(n: Node, op: BinaryOp, args: seq<Node>, env: Env, host: Host)
    requires (n == And(args) && op == LogicalAnd) || (n == Or(args) && op == LogicalOr)
    requires WellSpliced(n) && Legal(n)
    ensures Tree(n).JVariable? <==> IsBareRef(n)
    ensures IsBareRef(n) ==> Meaning(host, n, env) == Lookup(Tree(n).name, env)
    decreases n, 0
  {
    BareTree(args[0], env, host);
    if |args| == 1 {
      assert args[1..] == [];
      assert MeaningConnective(host, op, args, env) == Meaning(host, args[0], env);
    } else {
      assert |ArgTrees(op, args[1..])| > 0;
      ApplyIsBinary(Tree(args[0]), ArgTrees(op, args[1..]));
    }
  }

  /** The type name that `typeof` gives for an expression. */
  function TypeNameOf(host: Host, e: Node, env: Env): Outcome {
    if IsBareRef(e) && Meaning(host, e, env).Throw? then Val(String("undefined"))
    else
      match Meaning(host, e, env)
      case Throw(err) => Throw(err)
      case Val(v) => Val(String(TypeOf(v)))
  }

  lemma TypeofSame(host: Host, e: Node, js: Env, dsl: Env)
    requires WellSpliced(e) && Legal(e) && Same(host, e, js, dsl)
    ensures Eval(host, JTypeof(Tree(e)), js) == TypeNameOf(host, e, dsl)
  {
    BareTree(e, dsl, host);
    if Tree(e).JVariable? {
      assert Eval(host, Tree(e), js) == Lookup(Tree(e).name, js);
    }
  }

  lemma PrimitiveSame(host: Host, n: Node, js: Env, dsl: Env)
    requires n.InstanceOf? && n.typeName in PRIMITIVE_TYPES
    requires Eval(host, JTypeof(Tree(n.e)), js) == TypeNameOf(host, n.e, dsl)
    ensures Same(host, n, js, dsl)
  {
    assert Eval(host, JString(n.typeName), js) == Val(String(n.typeName));
    assert Eval(host, Tree(n), js) ==
      match TypeNameOf(host, n.e, dsl)
      case Throw(err) => Throw(err)
      case Val(v) => Val(Boolean(StrictlyEqual(v, String(n.typeName))));
  }

  lemma HasInstanceSame(host: Host, n: Node, js: Env, dsl: Env)
    requires n.InstanceOf? && n.typeName !in PRIMITIVE_TYPES
    requires Same(host, n.e, js, dsl) && Lookup(n.typeName, js) == Lookup(n.typeName, dsl)
    ensures Same(host, n, js, dsl)
  {
    Call2(host, HasInstance, JVariable(n.typeName), Tree(n.e), js);
    assert Eval(host, JVariable(n.typeName), js) == Lookup(n.typeName, js);
  }

  // ---- Connectives ----------------------------------------------------------------------------------

  /** The value of a chain of one operator, given the value of its first operand. */
  function Continue(host: Host, op: BinaryOp, first: Outcome, args: seq<Node>, env: Env): Outcome {
    if first.Throw? || args == [] || Decides(op, first.value) then first else MeaningConnective(host, op, args, env)
  }

  lemma ContinueStep(host: Host, op: BinaryOp, first: Outcome, args: seq<Node>, env: Env)
    requires args != []
    ensures Continue(host, op, first, args, env) ==
            Continue(host, op,
                     if first.Throw? || Decides(op, first.value) then first else Meaning(host, args[0], env),
                     args[1..], env)
  {}

  /** Left-associated `&&` or `||` stops at the same operand as the operands read from left to right. */
  lemma {:induction false} ChainSame(host: Host, op: BinaryOp, left: Js, args: seq<Node>, js: Env, dsl: Env)
    requires op == LogicalAnd || op == LogicalOr
    requires forall i | 0 <= i < |args| :: Same(host, args[i], js, dsl)
    ensures Eval(host, Apply(left, ArgTrees(op, args)), js) == Continue(host, op, Eval(host, left, js), args, dsl)
    decreases |args|
  {
    if args != [] {
      var first := Eval(host, left, js);
      var next := JBinary(op, left, Tree(args[0]));
      assert Same(host, args[0], js, dsl);
      assert Eval(host, next, js) ==
        if first.Throw? || Decides(op, first.value) then first else Meaning(host, args[0], dsl);
      ChainSame(host, op, next, args[1..], js, dsl);
      ContinueStep(host, op, first, args, dsl);
      assert ArgTrees(op, args)[1..] == ArgTrees(op, args[1..]);
    }
  }

  lemma ConnectiveSame(host: Host, n: Node, op: BinaryOp, args: seq<Node>, js: Env, dsl: Env)
    requires (n == And(args) && op == LogicalAnd) || (n == Or(args) && op == LogicalOr)
    requires args != [] && forall i | 0 <= i < |args| :: Same(host, args[i], js, dsl)
    ensures Same(host, n, js, dsl)
  {
    assert Same(host, args[0], js, dsl);
    ChainSame(host, op, Tree(args[0]), args[1..], js, dsl);
  }

  // ---- Binders --------------------------------------------------------------------------------------

  lemma BindBoth(js: Env, dsl: Env, captured: set<string>, x: string, v: Value)
    requires Agree(js, dsl, captured)
    ensures Agree(js[x := v], dsl[x := v], captured)
  {}

  lemma BindCaptured(js: Env, dsl: Env, captured: set<string>, x: string, v: Value)
    requires Agree(js, dsl, captured) && x in captured
    ensures Agree(js[x := v], dsl, captured)
  {}

  lemma AgreeOnMore(js: Env, dsl: Env, captured: set<string>, more: set<string>)
    requires Agree(js, dsl, captured)
    ensures Agree(js, dsl, captured + more)
  {}

  lemma {:induction false} ItemsSame(
    host: Host, q: Quantifier, p: Node, items: seq<Value>, js: Env, dsl: Env, captured: set<string>
  )
    requires Fit(p, js, dsl, captured)
    ensures EvalItems(host, q, Tree(p), items, js) == MeaningItems(host, q, p, items, dsl)
    decreases p, 4, |items|
  {
    if items != [] {
      BindBoth(js, dsl, captured, "$dd_it", items[0]);
      Preserved(host, p, js["$dd_it" := items[0]], dsl["$dd_it" := items[0]], captured);
      ItemsSame(host, q, p, items[1..], js, dsl, captured);
      FirstItemSame(host, q, p, items, js, dsl);
    }
  }

  lemma FirstItemSame(host: Host, q: Quantifier, p: Node, items: seq<Value>, js: Env, dsl: Env)
    requires items != [] && Same(host, p, js["$dd_it" := items[0]], dsl["$dd_it" := items[0]])
    requires EvalItems(host, q, Tree(p), items[1..], js) == MeaningItems(host, q, p, items[1..], dsl)
    ensures EvalItems(host, q, Tree(p), items, js) == MeaningItems(host, q, p, items, dsl)
  {}

  lemma {:induction false} EntriesSame(
    host: Host, q: Quantifier, p: Node, entries: seq<(Value, Value)>, js: Env, dsl: Env, captured: set<string>
  )
    requires Fit(p, js, dsl, captured)
    ensures EvalEntries(host, q, Tree(p), entries, js) == MeaningEntries(host, q, p, entries, dsl)
    decreases p, 4, |entries|
  {
    if entries != [] {
      EntrySame(host, p, entries[0], js, dsl, captured);
      EntriesSame(host, q, p, entries[1..], js, dsl, captured);
    }
  }

  lemma EntrySame(host: Host, p: Node, entry: (Value, Value), js: Env, dsl: Env, captured: set<string>)
    requires Fit(p, js, dsl, captured)
    ensures Same(host, p, js["$dd_key" := entry.0]["$dd_value" := entry.1], dsl["$dd_key" := entry.0]["$dd_value" := entry.1])
    decreases p, 3, 0
  {
    BindBoth(js, dsl, captured, "$dd_key", entry.0);
    BindBoth(js["$dd_key" := entry.0], dsl["$dd_key" := entry.0], captured, "$dd_value", entry.1);
    Preserved(host, p, js["$dd_key" := entry.0]["$dd_value" := entry.1],
              dsl["$dd_key" := entry.0]["$dd_value" := entry.1], captured);
  }

  lemma {:induction false} KeptItemsSame(
    host: Host, p: Node, items: seq<Value>, kept: seq<Value>, js: Env, dsl: Env, captured: set<string>
  )
    requires Fit(p, js, dsl, captured)
    ensures FilterItems(host, Tree(p), items, kept, js) == KeepItems(host, p, items, kept, dsl)
    decreases p, 4, |items|
  {
    if items != [] {
      BindBoth(js, dsl, captured, "$dd_it", items[0]);
      Preserved(host, p, js["$dd_it" := items[0]], dsl["$dd_it" := items[0]], captured);
      var answer := Meaning(host, p, dsl["$dd_it" := items[0]]);
      if answer.Val? {
        KeptItemsSame(host, p, items[1..], if Truthy(answer.value) then kept + [items[0]] else kept, js, dsl, captured);
      }
    }
  }

  lemma {:induction false} KeptEntriesSame(
    host: Host, p: Node, entries: seq<(Value, Value)>, kept: seq<(Value, Value)>, js: Env, dsl: Env,
    captured: set<string>
  )
    requires Fit(p, js, dsl, captured) && "acc" in captured
    ensures FilterEntries(host, Tree(p), entries, kept, js) == KeepEntries(host, p, entries, kept, dsl)
    decreases p, 4, |entries|
  {
    if entries != [] {
      BindCaptured(js, dsl, captured, "acc", host.fromEntries(kept));
      EntrySame(host, p, entries[0], js["acc" := host.fromEntries(kept)], dsl, captured);
      var answer := Meaning(host, p, dsl["$dd_key" := entries[0].0]["$dd_value" := entries[0].1]);
      if answer.Val? {
        KeptEntriesSame(host, p, entries[1..], if Truthy(answer.value) then kept + [entries[0]] else kept, js, dsl,
                        captured);
      }
    }
  }

  lemma QuantifiedSame(host: Host, n: Node, js: Env, dsl: Env, captured: set<string>)
    requires n.Quantified? && Fit(n, js, dsl, captured)
    requires Same(host, n.collection, js, dsl)
    ensures Same(host, n, js, dsl)
    decreases n, 1, 0
  {
    var p, inside := n.predicate_, captured + {"$dd_val"};
    var c := Meaning(host, n.collection, dsl);
    if c.Val? {
      var v := c.value;
      AgreeOnMore(js, dsl, captured, {"$dd_val"});
      BindCaptured(js, dsl, inside, "$dd_val", v);
      if IsIterable(v) {
        ItemsSame(host, n.q, p, Items(v), js["$dd_val" := v], dsl, inside);
      } else if host.entries(v).Entries? {
        EntriesSame(host, n.q, p, host.entries(v).entries, js["$dd_val" := v], dsl, inside);
      }
    }
  }

  lemma FilterSame(host: Host, n: Node, js: Env, dsl: Env, captured: set<string>)
    requires n.Filter? && Fit(n, js, dsl, captured)
    requires Same(host, n.collection, js, dsl)
    ensures Same(host, n, js, dsl)
    decreases n, 1, 0
  {
    var p, inside := n.predicate_, captured + {"$dd_var", "acc"};
    var c := Meaning(host, n.collection, dsl);
    if c.Val? {
      var v := c.value;
      AgreeOnMore(js, dsl, captured, {"$dd_var", "acc"});
      BindCaptured(js, dsl, inside, "$dd_var", v);
      if IsIterable(v) {
        KeptItemsSame(host, p, Items(v), [], js["$dd_var" := v], dsl, inside);
      } else if host.entries(v).Entries? {
        KeptEntriesSame(host, p, host.entries(v).entries, [], js["$dd_var" := v], dsl, inside);
      }
    }
  }

  lemma SubstringSame(host: Host, n: Node, js: Env, dsl: Env, captured: set<string>)
    requires n.Substring? && Fit(n, js, dsl, captured)
    requires Same(host, n.subject, js, dsl)
    ensures Same(host, n, js, dsl)
    decreases n, 1, 0
  {
    var subject := Meaning(host, n.subject, dsl);
    if subject.Val? {
      AgreeOnMore(js, dsl, captured, {"str"});
      BindCaptured(js, dsl, captured + {"str"}, "str", subject.value);
      Preserved(host, n.start, js["str" := subject.value], dsl, captured + {"str"});
      Preserved(host, n.end, js["str" := subject.value], dsl, captured + {"str"});
    }
  }

  // ---- Meaning preservation -------------------------------------------------------------------------

  ghost predicate Fit(n: Node, js: Env, dsl: Env, captured: set<string>) {
    Legal(n) && WellSpliced(n) && Hygienic(n, captured) && Agree(js, dsl, captured)
  }

  lemma {:induction false} Preserved(host: Host, n: Node, js: Env, dsl: Env, captured: set<string>)
    requires Fit(n, js, dsl, captured)
    ensures Same(host, n, js, dsl)
    decreases n, 2, 0
  {
    match n
    case Unknown(_) =>
    case Not(_) => OneOperandPreserved(host, n, js, dsl, captured);
    case Size(_) => OneOperandPreserved(host, n, js, dsl, captured);
    case IsEmpty(_) => OneOperandPreserved(host, n, js, dsl, captured);
    case IsDefined(_) => OneOperandPreserved(host, n, js, dsl, captured);
    case InstanceOf(_, _) => InstanceOfPreserved(host, n, js, dsl, captured);
    case Compare(_, _, _) => TwoOperandsPreserved(host, n, js, dsl, captured);
    case And(args) => OperandsPreserved(host, args, js, dsl, captured); ConnectiveSame(host, n, LogicalAnd, args, js, dsl);
    case Or(args) => OperandsPreserved(host, args, js, dsl, captured); ConnectiveSame(host, n, LogicalOr, args, js, dsl);
    case Quantified(_, c, _) => Preserved(host, c, js, dsl, captured); QuantifiedSame(host, n, js, dsl, captured);
    case Filter(c, _) => Preserved(host, c, js, dsl, captured); FilterSame(host, n, js, dsl, captured);
    case Affix(_, _, _) => TwoOperandsPreserved(host, n, js, dsl, captured);
    case Contains(_, _) => TwoOperandsPreserved(host, n, js, dsl, captured);
    case Matches(_, _) => TwoOperandsPreserved(host, n, js, dsl, captured);
    case Substring(s, _, _) => Preserved(host, s, js, dsl, captured); SubstringSame(host, n, js, dsl, captured);
    case Member(_, _, _) => TwoOperandsPreserved(host, n, js, dsl, captured);
    case _ => LeafSame(host, n, js, dsl, captured);
  }

  lemma LeafSame(host: Host, n: Node, js: Env, dsl: Env, captured: set<string>)
    requires Fit(n, js, dsl, captured)
    requires n.NullLiteral? || n.BooleanLiteral? || n.NumberLiteral? || n.StringLiteral? || n.Ref?
    ensures Same(host, n, js, dsl)
  {}

  lemma InstanceOfPreserved(host: Host, n: Node, js: Env, dsl: Env, captured: set<string>)
    requires Fit(n, js, dsl, captured) && n.InstanceOf?
    ensures Same(host, n, js, dsl)
    decreases n, 1, 0
  {
    Preserved(host, n.e, js, dsl, captured);
    if n.typeName in PRIMITIVE_TYPES {
      TypeofSame(host, n.e, js, dsl);
      PrimitiveSame(host, n, js, dsl);
    } else {
      HasInstanceSame(host, n, js, dsl);
    }
  }

  lemma OneOperandPreserved(host: Host, n: Node, js: Env, dsl: Env, captured: set<string>)
    requires Fit(n, js, dsl, captured) && (n.Not? || n.Size? || n.IsEmpty? || n.IsDefined?)
    ensures Same(host, n, js, dsl)
    decreases n, 1, 0
  {
    Preserved(host, n.e, js, dsl, captured);
    match n
    case Size(_) => SizeSame(host, n, js, dsl);
    case IsEmpty(_) => IsEmptySame(host, n, js, dsl);
    case _ =>
  }

  /** The two operands of a node, evaluated in its own environment. */
  function Both(n: Node): (Node, Node)
    requires n.Compare? || n.Affix? || n.Contains? || n.Matches? || n.Member?
  {
    match n
    case Compare(_, a, b) => (a, b)
    case Affix(_, a, b) => (a, b)
    case Contains(a, b) => (a, b)
    case Matches(a, b) => (a, b)
    case Member(a, b, _) => (a, b)
  }

  lemma BothFit(n: Node, js: Env, dsl: Env, captured: set<string>)
    requires Fit(n, js, dsl, captured)
    requires n.Compare? || n.Affix? || n.Contains? || n.Matches? || n.Member?
    ensures Fit(Both(n).0, js, dsl, captured) && Fit(Both(n).1, js, dsl, captured)
  {}

  lemma TwoOperandsPreserved(host: Host, n: Node, js: Env, dsl: Env, captured: set<string>)
    requires Fit(n, js, dsl, captured)
    requires n.Compare? || n.Affix? || n.Contains? || n.Matches? || n.Member?
    ensures Same(host, n, js, dsl)
    decreases n, 1, 0
  {
    BothFit(n, js, dsl, captured);
    Preserved(host, Both(n).0, js, dsl, captured);
    Preserved(host, Both(n).1, js, dsl, captured);
    match n
    case Compare(_, _, _) => CompareSame(host, n, js, dsl);
    case Affix(_, _, _) => AffixSame(host, n, js, dsl);
    case Contains(_, _) => ContainsSame(host, n, js, dsl);
    case Matches(_, _) => MatchesSame(host, n, js, dsl);
    case Member(_, _, _) => MemberSame(host, n, js, dsl);
  }

  lemma {:induction false} OperandsPreserved(
    host: Host, args: seq<Node>, js: Env, dsl: Env, captured: set<string>
  )
    requires forall i | 0 <= i < |args| :: Legal(args[i]) && WellSpliced(args[i]) && Hygienic(args[i], captured)
    requires Agree(js, dsl, captured)
    ensures forall i | 0 <= i < |args| :: Same(host, args[i], js, dsl)
    decreases args, 0, 0
  {
    forall i | 0 <= i < |args| ensures Same(host, args[i], js, dsl) {
      Preserved(host, args[i], js, dsl, captured);
    }
  }

  /** Evaluating the compiled text of a well-spliced expression, as the parser reads it, gives the value or
      the error that the expression means, in every environment and whatever the built-in operations do. */
  lemma CompiledTextMeansTheExpression(host: Host, n: Node, env: Env)
    requires Compile(n).Ok? && WellSpliced(n) && Hygienic(n, {})
    ensures ParseAll(Compile(n).value).Parsed?
    ensures Eval(host, ParseAll(Compile(n).value).tree, env) == Meaning(host, n, env)
  {
    CompiledTextParsesAsMeant(n);
    LegalIffNoError(n);
    Preserved(host, n, env, env, {});
  }

  // ---- Why the conditions are there -----------------------------------------------------------------

  lemma CapturedIdentifiers()
    ensures IsIdentifier("t") && Mangle("t") == "t"
    ensures IsIdentifier("l") && Mangle("l") == "l"
    ensures IsIdentifier("str") && Mangle("str") == "str"
    ensures IsIdentifier("acc") && Mangle("acc") == "acc"
    ensures IsIdentifier("@val") && Mangle("@val") == "$dd_val"
  {
    assert "@val"[1..] == "val";
    assert Mangle("str") == "str" by { assert "str"[0] == 's'; }
    assert Mangle("acc") == "acc" by { assert "acc"[0] == 'a'; }
  }

  /** The three expressions below compile, and parse to the tree that is meant. */
  lemma CapturingExpressionsCompile(n: Node)
    requires n in {Substring(Ref("t"), Ref("str"), Ref("str")), Quantified(Some_, Ref("l"), Ref("@val")),
                   Filter(Ref("t"), Ref("acc"))}
    ensures Compile(n).Ok? && WellSpliced(n)
  {
    CapturedIdentifiers();
    LegalIffNoError(n);
  }

  lemma ReferenceValue(host: Host, name: string, env: Env)
    ensures Eval(host, Tree(Ref(name)), env) == Lookup(Mangle(name), env) == Meaning(host, Ref(name), env)
  {}

  /** `substring` with a bound named like the parameter of its own helper: the bound becomes the subject. */
  lemma SubstringCapturesStr(host: Host, n: Node, s: Value, bound: Value, env: Env)
    requires n == Substring(Ref("t"), Ref("str"), Ref("str"))
    requires env == map["t" := s, "str" := bound] && IsText(s)
    ensures Eval(host, Tree(n), env) == host.substring(s, s, s)
    ensures Meaning(host, n, env) == host.substring(s, bound, bound)
  {
    CapturedIdentifiers();
    ReferenceValue(host, "t", env);
    ReferenceValue(host, "str", env["str" := s]);
    ReferenceValue(host, "str", env);
  }

  /** A predicate that refers to the debugger variable `@val` sees the collection instead. */
  lemma QuantifierCapturesVal(host: Host, n: Node, item: Value, list: Value, env: Env)
    requires n == Quantified(Some_, Ref("l"), Ref("@val"))
    requires list == Object(Fresh, ArrayObject([item])) && env == map["l" := list, "$dd_val" := Null]
    ensures Eval(host, Tree(n), env) == Val(Boolean(true))
    ensures Meaning(host, n, env) == Val(Boolean(false))
  {
    CapturedIdentifiers();
    var p := Ref("@val");
    var inner := env["$dd_val" := list];
    ReferenceValue(host, "l", env);
    ReferenceValue(host, "@val", inner["$dd_it" := item]);
    ReferenceValue(host, "@val", env["$dd_it" := item]);
    assert Items(list) == [item] && [item][1..] == [];
    assert Truthy(list) && !Truthy(Null);
    assert Stops(Some_, list) && !Stops(Some_, Null);
    assert EvalItems(host, Some_, Tree(p), [item], inner) == Val(Boolean(true));
    assert MeaningItems(host, Some_, p, [], env) == Val(Boolean(false));
    assert MeaningItems(host, Some_, p, [item], env) == Val(Boolean(false));
  }

  /** A `filter` predicate over an object that refers to `acc` sees the object being built. */
  lemma FilterCapturesAcc(host: Host, n: Node, object_: Value, entry: (Value, Value), env: Env)
    requires n == Filter(Ref("t"), Ref("acc")) && !IsIterable(object_)
    requires host.entries(object_) == Entries([entry]) && Truthy(host.fromEntries([]))
    requires env == map["t" := object_, "acc" := Null]
    ensures Eval(host, Tree(n), env) == Val(host.fromEntries([entry]))
    ensures Meaning(host, n, env) == Val(host.fromEntries([]))
  {
    CapturedIdentifiers();
    var p := Ref("acc");
    var inner := env["$dd_var" := object_];
    var js := inner["acc" := host.fromEntries([])]["$dd_key" := entry.0]["$dd_value" := entry.1];
    var dsl := env["$dd_key" := entry.0]["$dd_value" := entry.1];
    ReferenceValue(host, "t", env);
    ReferenceValue(host, "acc", js);
    ReferenceValue(host, "acc", dsl);
    assert [entry][1..] == [] && [] + [entry] == [entry];
    assert FilterEntries(host, Tree(p), [], [entry], inner) == Val(host.fromEntries([entry]));
    assert FilterEntries(host, Tree(p), [entry], [], inner) == Val(host.fromEntries([entry]));
    assert KeepEntries(host, p, [], [], env) == Val(host.fromEntries([]));
    assert KeepEntries(host, p, [entry], [], env) == Val(host.fromEntries([]));
  }

  /** A host that tells the bounds of a substring apart, and lists one entry for every object. */
  function PlainHost(): Host {
    Host((v, key) => Val(Undefined), (v, key) => Val(Undefined), v => false, v => 0.0,
         v => Entries([(Null, Null)]),
         (entries: seq<(Value, Value)>) => Object(Existing(|entries|), PlainObject),
         (op, v, w) => Val(Undefined), v => false, (b, v, w) => Val(Undefined), (s, from, to) => Val(from))
  }

  /** The captured names change the outcome, on a host like this. */
  lemma CapturedSubstringDiffers()
    ensures
      var n := Substring(Ref("t"), Ref("str"), Ref("str"));
      var env := map["t" := String("a"), "str" := Null];
      Compile(n).Ok? && WellSpliced(n) && Eval(PlainHost(), Tree(n), env) != Meaning(PlainHost(), n, env)
  {
    var n := Substring(Ref("t"), Ref("str"), Ref("str"));
    var env := map["t" := String("a"), "str" := Null];
    CapturingExpressionsCompile(n);
    SubstringCapturesStr(PlainHost(), n, String("a"), Null, env);
  }

  lemma CapturedFilterDiffers()
    ensures
      var n := Filter(Ref("t"), Ref("acc"));
      var env := map["t" := Object(Existing(0), PlainObject), "acc" := Null];
      Compile(n).Ok? && WellSpliced(n) && Eval(PlainHost(), Tree(n), env) != Meaning(PlainHost(), n, env)
  {
    var n := Filter(Ref("t"), Ref("acc"));
    var env := map["t" := Object(Existing(0), PlainObject), "acc" := Null];
    CapturingExpressionsCompile(n);
    FilterCapturesAcc(PlainHost(), n, Object(Existing(0), PlainObject), (Null, Null), env);
    assert |[(Null, Null)]| == 1;
  }

  /** `instanceof 'null'` never holds, not even of null. */
  lemma {:induction false} NothingHasTypeNull(host: Host, e: Node, env: Env)
    ensures Meaning(host, InstanceOf(e, "null"), env) != Val(Boolean(true))
  {
    if Meaning(host, e, env).Val? {
      assert TypeOf(Meaning(host, e, env).value) != "null";
    }
  }
}
