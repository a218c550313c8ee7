/** The expression language, law by law: what the compiled text of each operator yields, in terms of what the
    compiled texts of its operands yield, with neither the compiler nor an evaluator in between. */
module ExpressionLaws {
  import opened Wrappers
  import opened Expression
  import opened JsSyntax
  import opened ExpressionSyntax
  import opened ExpressionTrees
  import opened JsSemantics
  import opened ExpressionMeaning
  import opened ExpressionCorrectness

  /** Running the compiled text gives this value or error. */
  ghost predicate Yields(host: Host, n: Node, env: Env, o: Outcome) {
    && Compile(n).Ok? && ParseAll(Compile(n).value).Parsed?
    && Eval(host, ParseAll(Compile(n).value).tree, env) == o
  }

  /** It compiles to text that parses as it is meant, and helper code captures none of its names. */
  ghost predicate Proper(n: Node) {
    Compile(n).Ok? && WellSpliced(n) && Hygienic(n, {})
  }

  lemma YieldsItsMeaning(host: Host, n: Node, env: Env, o: Outcome)
    requires Proper(n)
    ensures Yields(host, n, env, o) <==> o == Meaning(host, n, env)
  {
    CompiledTextMeansTheExpression(host, n, env);
  }

  lemma {:induction false} HygienicUnderLess(n: Node, less: set<string>, more: set<string>)
    requires less <= more && Hygienic(n, more)
    ensures Hygienic(n, less)
    decreases n, 1
  {
    match n
    case InstanceOf(e, _) => HygienicUnderLess(e, less, more);
    case Not(e) => HygienicUnderLess(e, less, more);
    case Size(e) => HygienicUnderLess(e, less, more);
    case IsEmpty(e) => HygienicUnderLess(e, less, more);
    case IsDefined(e) => HygienicUnderLess(e, less, more);
    case Compare(_, a, b) => HygienicUnderLess(a, less, more); HygienicUnderLess(b, less, more);
    case And(args) => AllHygienicUnderLess(args, less, more);
    case Or(args) => AllHygienicUnderLess(args, less, more);
    case Quantified(_, a, p) =>
      HygienicUnderLess(a, less, more);
      HygienicUnderLess(p, less + {"$dd_val"}, more + {"$dd_val"});
    case Filter(a, p) =>
      HygienicUnderLess(a, less, more);
      HygienicUnderLess(p, less + {"$dd_var", "acc"}, more + {"$dd_var", "acc"});
    case Affix(_, a, b) => HygienicUnderLess(a, less, more); HygienicUnderLess(b, less, more);
    case Contains(a, b) => HygienicUnderLess(a, less, more); HygienicUnderLess(b, less, more);
    case Matches(a, b) => HygienicUnderLess(a, less, more); HygienicUnderLess(b, less, more);
    case Substring(a, b, c) =>
      HygienicUnderLess(a, less, more);
      HygienicUnderLess(b, less + {"str"}, more + {"str"});
      HygienicUnderLess(c, less + {"str"}, more + {"str"});
    case Member(a, b, _) => HygienicUnderLess(a, less, more); HygienicUnderLess(b, less, more);
    case _ =>
  }

  lemma {:induction false} AllHygienicUnderLess(args: seq<Node>, less: set<string>, more: set<string>)
    requires less <= more && forall i | 0 <= i < |args| :: Hygienic(args[i], more)
    ensures forall i | 0 <= i < |args| :: Hygienic(args[i], less)
    decreases args, 0
  {
    forall i | 0 <= i < |args| ensures Hygienic(args[i], less) {
      HygienicUnderLess(args[i], less, more);
    }
  }

  /** An operand that is compiled by itself. */
  ghost predicate Part(n: Node, part: Node) {
    match n
    case Not(e) => part == e
    case IsDefined(e) => part == e
    case InstanceOf(e, _) => part == e
    case Compare(_, a, b) => part == a || part == b
    case And(args) => part in args
    case Or(args) => part in args
    case Quantified(_, a, p) => part == a || part == p
    case Filter(a, p) => part == a || part == p
    case Member(a, b, _) => part == a || part == b
    case _ => false
  }

  lemma PartsAreProper(n: Node, part: Node)
    requires Proper(n) && Part(n, part)
    ensures Proper(part)
  {
    LegalIffNoError(n);
    match n
    case Quantified(_, a, p) =>
      if part == p {
        assert {} + {"$dd_val"} == {"$dd_val"};
        HygienicUnderLess(p, {}, {"$dd_val"});
      }
      LegalIffNoError(part);
    case Filter(a, p) =>
      if part == p {
        assert {} + {"$dd_var", "acc"} == {"$dd_var", "acc"};
        HygienicUnderLess(p, {}, {"$dd_var", "acc"});
      }
      LegalIffNoError(part);
    case _ => LegalIffNoError(part);
  }

  lemma PartMeans(host: Host, n: Node, part: Node, env: Env, o: Outcome)
    requires Proper(n) && Part(n, part)
    ensures Yields(host, part, env, o) <==> o == Meaning(host, part, env)
  {
    PartsAreProper(n, part);
    YieldsItsMeaning(host, part, env, o);
  }

  // ---- Comparisons ------------------------------------------------------------------------------------

  /** The relational operators of the language order numbers. */
  ghost predicate OrdersNumbers(host: Host) {
    forall a: real, b: real ::
      && host.compare(Greater, Number(a), Number(b)) == Val(Boolean(a > b))
      && host.compare(GreaterEq, Number(a), Number(b)) == Val(Boolean(a >= b))
      && host.compare(Less, Number(a), Number(b)) == Val(Boolean(a < b))
      && host.compare(LessEq, Number(a), Number(b)) == Val(Boolean(a <= b))
  }

  lemma ComparisonsOrder(host: Host, op: CompareOp, left: Node, right: Node, env: Env, a: real, b: real)
    requires Proper(Compare(op, left, right)) && OrdersNumbers(host)
    requires Yields(host, left, env, Val(Number(a))) && Yields(host, right, env, Val(Number(b)))
    ensures
      var holds := match op
                   case Eq => a == b
                   case Ne => a != b
                   case Gt => a > b
                   case Ge => a >= b
                   case Lt => a < b
                   case Le => a <= b;
      Yields(host, Compare(op, left, right), env, Val(Boolean(holds)))
  {
    var n := Compare(op, left, right);
    PartMeans(host, n, left, env, Val(Number(a)));
    PartMeans(host, n, right, env, Val(Number(b)));
    assert Comparable(host, Number(a)) == Val(Number(a)) && Comparable(host, Number(b)) == Val(Number(b));
    YieldsItsMeaning(host, n, env, Meaning(host, n, env));
  }

  /** Equality is identity; what was made during evaluation is identical to nothing. */
  lemma EqualityIsIdentity(host: Host, left: Node, right: Node, env: Env, v: Value, w: Value)
    requires Proper(Compare(Eq, left, right)) && Proper(Compare(Ne, left, right))
    requires Yields(host, left, env, Val(v)) && Yields(host, right, env, Val(w))
    ensures
      var identical := v == w && (v.Object? ==> v.identity.Existing?);
      && Yields(host, Compare(Eq, left, right), env, Val(Boolean(identical)))
      && Yields(host, Compare(Ne, left, right), env, Val(Boolean(!identical)))
  {
    PartMeans(host, Compare(Eq, left, right), left, env, Val(v));
    PartMeans(host, Compare(Eq, left, right), right, env, Val(w));
    YieldsItsMeaning(host, Compare(Eq, left, right), env, Meaning(host, Compare(Eq, left, right), env));
    YieldsItsMeaning(host, Compare(Ne, left, right), env, Meaning(host, Compare(Ne, left, right), env));
  }

  // ---- Connectives ------------------------------------------------------------------------------------

  /** The values that count as false. */
  predicate IsFalsy(v: Value) {
    v in {Undefined, Null, Boolean(false), Number(0.0), String(""), BigInt(0)}
  }

  lemma NotNegates(host: Host, e: Node, env: Env, v: Value)
    requires Proper(Not(e)) && Yields(host, e, env, Val(v))
    ensures Yields(host, Not(e), env, Val(Boolean(IsFalsy(v))))
  {
    PartMeans(host, Not(e), e, env, Val(v));
    YieldsItsMeaning(host, Not(e), env, Meaning(host, Not(e), env));
  }

  function Connective(isAnd: bool, args: seq<Node>): Node {
    if isAnd then And(args) else Or(args)
  }

  /** A conjunction yields its first falsy operand, a disjunction its first truthy one, whatever comes after
      it; and the last operand if there is none. */
  lemma ConnectiveStops(host: Host, isAnd: bool, args: seq<Node>, env: Env, values: seq<Value>)
    requires Proper(Connective(isAnd, args)) && 0 < |values| <= |args|
    requires forall i | 0 <= i < |values| :: Yields(host, args[i], env, Val(values[i]))
    requires forall i | 0 <= i < |values| - 1 :: IsFalsy(values[i]) != isAnd
    requires |values| == |args| || IsFalsy(values[|values| - 1]) == isAnd
    ensures Yields(host, Connective(isAnd, args), env, Val(values[|values| - 1]))
  {
    var n := Connective(isAnd, args);
    forall i | 0 <= i < |values| ensures Meaning(host, args[i], env) == Val(values[i]) {
      PartMeans(host, n, args[i], env, Val(values[i]));
    }
    ConnectiveMeans(host, isAnd, args, env, values);
    YieldsItsMeaning(host, n, env, Meaning(host, n, env));
  }

  lemma {:induction false} ConnectiveMeans(host: Host, isAnd: bool, args: seq<Node>, env: Env, values: seq<Value>)
    requires 0 < |values| <= |args|
    requires forall i | 0 <= i < |values| :: Meaning(host, args[i], env) == Val(values[i])
    requires forall i | 0 <= i < |values| - 1 :: IsFalsy(values[i]) != isAnd
    requires |values| == |args| || IsFalsy(values[|values| - 1]) == isAnd
    ensures MeaningConnective(host, if isAnd then LogicalAnd else LogicalOr, args, env) == Val(values[|values| - 1])
    decreases |args|
  {
    assert Meaning(host, args[0], env) == Val(values[0]);
    if |values| > 1 {
      ConnectiveMeans(host, isAnd, args[1..], env, values[1..]);
    }
  }

  /** An operand that fails makes the whole fail, if it is reached. */
  lemma ConnectiveFails(host: Host, isAnd: bool, args: seq<Node>, env: Env, k: nat, values: seq<Value>, error: Error)
    requires Proper(Connective(isAnd, args)) && k < |args| && |values| == k
    requires forall i | 0 <= i < k :: Yields(host, args[i], env, Val(values[i])) && IsFalsy(values[i]) != isAnd
    requires Yields(host, args[k], env, Throw(error))
    ensures Yields(host, Connective(isAnd, args), env, Throw(error))
  {
    var n := Connective(isAnd, args);
    forall i | 0 <= i < k ensures Meaning(host, args[i], env) == Val(values[i]) {
      PartMeans(host, n, args[i], env, Val(values[i]));
    }
    PartMeans(host, n, args[k], env, Throw(error));
    FailureMeans(host, isAnd, args, env, k, values, error);
    YieldsItsMeaning(host, n, env, Meaning(host, n, env));
  }

  lemma {:induction false} FailureMeans(host: Host, isAnd: bool, args: seq<Node>, env: Env, k: nat, values: seq<Value>, error: Error)
    requires k < |args| && |values| == k
    requires forall i | 0 <= i < k :: Meaning(host, args[i], env) == Val(values[i]) && IsFalsy(values[i]) != isAnd
    requires Meaning(host, args[k], env) == Throw(error)
    ensures MeaningConnective(host, if isAnd then LogicalAnd else LogicalOr, args, env) == Throw(error)
    decreases k
  {
    if k > 0 {
      assert Meaning(host, args[0], env) == Val(values[0]);
      FailureMeans(host, isAnd, args[1..], env, k - 1, values[1..], error);
    }
  }

  // ---- Collections ------------------------------------------------------------------------------------

  /** The items of an array, a typed array or a set; a weak set has none to list. */
  predicate Lists(v: Value, items: seq<Value>) {
    && v.Object?
    && (|| v.kind == ArrayObject(items) || v.kind == TypedArrayObject(items) || v.kind == SetObject(items)
        || (v.kind == WeakSetObject && items == []))
  }

  ghost predicate ItemsYield(host: Host, p: Node, env: Env, items: seq<Value>, answers: seq<Value>) {
    |answers| == |items| &&
    forall k | 0 <= k < |items| :: Yields(host, p, env["$dd_it" := items[k]], Val(answers[k]))
  }

  lemma ListsAreIterable(v: Value, items: seq<Value>)
    requires Lists(v, items)
    ensures IsIterable(v) && Items(v) == items
  {}

  lemma FalsyIsNotTruthy(v: Value)
    ensures Truthy(v) <==> !IsFalsy(v)
  {}

  /** `any` holds if some answer is truthy, `all` if every one is. */
  ghost predicate HoldsOf(q: Quantifier, answers: seq<Value>) {
    match q
    case Some_ => exists k | 0 <= k < |answers| :: !IsFalsy(answers[k])
    case Every => forall k | 0 <= k < |answers| :: !IsFalsy(answers[k])
  }

  /** A quantifier over items asks the predicate of each with `@it` bound to it. */
  lemma QuantifiersQuantify(
    host: Host, q: Quantifier, collection: Node, p: Node, env: Env, v: Value, items: seq<Value>, answers: seq<Value>
  )
    requires Proper(Quantified(q, collection, p)) && Yields(host, collection, env, Val(v)) && Lists(v, items)
    requires ItemsYield(host, p, env, items, answers)
    ensures Yields(host, Quantified(q, collection, p), env, Val(Boolean(HoldsOf(q, answers))))
  {
    var n := Quantified(q, collection, p);
    PartMeans(host, n, collection, env, Val(v));
    forall k | 0 <= k < |items| ensures Meaning(host, p, env["$dd_it" := items[k]]) == Val(answers[k]) {
      PartMeans(host, n, p, env["$dd_it" := items[k]], Val(answers[k]));
    }
    ItemsMean(host, q, p, env, items, answers);
    ListsAreIterable(v, items);
    YieldsItsMeaning(host, n, env, MeaningItems(host, q, p, items, env));
  }

  lemma {:induction false} ItemsMean(host: Host, q: Quantifier, p: Node, env: Env, items: seq<Value>, answers: seq<Value>)
    requires |answers| == |items|
    requires forall k | 0 <= k < |items| :: Meaning(host, p, env["$dd_it" := items[k]]) == Val(answers[k])
    ensures MeaningItems(host, q, p, items, env) == Val(Boolean(HoldsOf(q, answers)))
    decreases |items|
  {
    if items != [] {
      assert Meaning(host, p, env["$dd_it" := items[0]]) == Val(answers[0]);
      ItemsMean(host, q, p, env, items[1..], answers[1..]);
      HoldsOfFirst(q, answers);
    }
  }

  lemma HoldsOfFirst(q: Quantifier, answers: seq<Value>)
    requires answers != []
    ensures HoldsOf(q, answers) == if Stops(q, answers[0]) then q == Some_ else HoldsOf(q, answers[1..])
  {
    FalsyIsNotTruthy(answers[0]);
    assert forall k | 1 <= k < |answers| :: answers[k] == answers[1..][k - 1];
    assert forall k | 0 <= k < |answers| - 1 :: answers[1..][k] == answers[k + 1];
  }

  ghost predicate EntriesYield(host: Host, p: Node, env: Env, entries: seq<(Value, Value)>, answers: seq<Value>) {
    |answers| == |entries| &&
    forall k | 0 <= k < |entries| ::
      Yields(host, p, env["$dd_key" := entries[k].0]["$dd_value" := entries[k].1], Val(answers[k]))
  }

  /** A quantifier over the entries of any other object asks it with `@key` and `@value` bound. */
  lemma QuantifiersReadEntries(
    host: Host, q: Quantifier, collection: Node, p: Node, env: Env, v: Value, entries: seq<(Value, Value)>,
    answers: seq<Value>
  )
    requires Proper(Quantified(q, collection, p)) && Yields(host, collection, env, Val(v))
    requires v.Object? && v.kind == PlainObject && host.entries(v) == Entries(entries)
    requires EntriesYield(host, p, env, entries, answers)
    ensures Yields(host, Quantified(q, collection, p), env, Val(Boolean(HoldsOf(q, answers))))
  {
    var n := Quantified(q, collection, p);
    PartMeans(host, n, collection, env, Val(v));
    forall k | 0 <= k < |entries|
      ensures Meaning(host, p, env["$dd_key" := entries[k].0]["$dd_value" := entries[k].1]) == Val(answers[k])
    {
      PartMeans(host, n, p, env["$dd_key" := entries[k].0]["$dd_value" := entries[k].1], Val(answers[k]));
    }
    EntriesMean(host, q, p, env, entries, answers);
    YieldsItsMeaning(host, n, env, MeaningEntries(host, q, p, entries, env));
  }

  lemma {:induction false} EntriesMean(
    host: Host, q: Quantifier, p: Node, env: Env, entries: seq<(Value, Value)>, answers: seq<Value>
  )
    requires |answers| == |entries|
    requires forall k | 0 <= k < |entries| ::
               Meaning(host, p, env["$dd_key" := entries[k].0]["$dd_value" := entries[k].1]) == Val(answers[k])
    ensures MeaningEntries(host, q, p, entries, env) == Val(Boolean(HoldsOf(q, answers)))
    decreases |entries|
  {
    if entries != [] {
      assert Meaning(host, p, env["$dd_key" := entries[0].0]["$dd_value" := entries[0].1]) == Val(answers[0]);
      EntriesMean(host, q, p, env, entries[1..], answers[1..]);
      HoldsOfFirst(q, answers);
    }
  }

  /** The items of which the predicate holds, in order. */
  function Where(items: seq<Value>, answers: seq<Value>): seq<Value>
    requires |items| == |answers|
  {
    if items == [] then []
    else
      var n := |items| - 1;
      Where(items[..n], answers[..n]) + if IsFalsy(answers[n]) then [] else [items[n]]
  }

  /** `filter` makes an array of them. */
  lemma FilterSelects(
    host: Host, collection: Node, p: Node, env: Env, v: Value, items: seq<Value>, answers: seq<Value>
  )
    requires Proper(Filter(collection, p)) && Yields(host, collection, env, Val(v)) && Lists(v, items)
    requires ItemsYield(host, p, env, items, answers)
    ensures Yields(host, Filter(collection, p), env, Val(Object(Fresh, ArrayObject(Where(items, answers)))))
  {
    var n := Filter(collection, p);
    PartMeans(host, n, collection, env, Val(v));
    forall k | 0 <= k < |items| ensures Meaning(host, p, env["$dd_it" := items[k]]) == Val(answers[k]) {
      PartMeans(host, n, p, env["$dd_it" := items[k]], Val(answers[k]));
    }
    KeptMean(host, p, env, items, answers, 0);
    assert items[..0] == [] && answers[..0] == [] && items[0..] == items;
    ListsAreIterable(v, items);
    YieldsItsMeaning(host, n, env, KeepItems(host, p, items, [], env));
  }

  lemma {:induction false} KeptMean(host: Host, p: Node, env: Env, items: seq<Value>, answers: seq<Value>, k: nat)
    requires |answers| == |items| && k <= |items|
    requires forall j | 0 <= j < |items| :: Meaning(host, p, env["$dd_it" := items[j]]) == Val(answers[j])
    ensures KeepItems(host, p, items[k..], Where(items[..k], answers[..k]), env) ==
            Val(Object(Fresh, ArrayObject(Where(items, answers))))
    decreases |items| - k
  {
    if k == |items| {
      assert items[..k] == items && answers[..k] == answers && items[k..] == [];
    } else {
      assert items[k..][0] == items[k] && items[k..][1..] == items[k + 1..];
      assert items[..k + 1][..k] == items[..k] && answers[..k + 1][..k] == answers[..k];
      assert Meaning(host, p, env["$dd_it" := items[k]]) == Val(answers[k]);
      var kept := Where(items[..k], answers[..k]);
      FalsyIsNotTruthy(answers[k]);
      assert Where(items[..k + 1], answers[..k + 1]) == if IsFalsy(answers[k]) then kept else kept + [items[k]];
      KeptMean(host, p, env, items, answers, k + 1);
    }
  }

  /** A member that is not behind a getter is read, one that is is an error: no code of the program runs. */
  lemma MembersAreRead(
    host: Host, object_: Node, key: Node, allowMapAccess: bool, env: Env, v: Value, k: Value, hasGetter: bool
  )
    requires Proper(Member(object_, key, allowMapAccess))
    requires Yields(host, object_, env, Val(v)) && Yields(host, key, env, Val(k))
    requires v.Object? && (v.kind == PlainObject || v.kind.ArrayObject?) && host.ownGetter(v, k) == Val(Boolean(hasGetter))
    ensures Yields(host, Member(object_, key, allowMapAccess), env,
                   if hasGetter then Throw(SideEffect) else host.get(v, k))
  {
    var n := Member(object_, key, allowMapAccess);
    PartMeans(host, n, object_, env, Val(v));
    PartMeans(host, n, key, env, Val(k));
    PlainMember(host, v, k, allowMapAccess, hasGetter);
    YieldsItsMeaning(host, n, env, MemberOf(host, v, k, allowMapAccess));
  }

  lemma PlainMember(host: Host, v: Value, k: Value, allowMapAccess: bool, hasGetter: bool)
    requires v.Object? && (v.kind == PlainObject || v.kind.ArrayObject?) && host.ownGetter(v, k) == Val(Boolean(hasGetter))
    ensures MemberOf(host, v, k, allowMapAccess) == if hasGetter then Throw(SideEffect) else host.get(v, k)
  {}

  // ---- Leaves -----------------------------------------------------------------------------------------

  /** `@` and a word, or a word that does not begin with a digit. */
  predicate IsName(s: string) {
    && s != "" && s != "@"
    && (s[0] == '@' || s[0] == '_' || s[0] == '$' || 'a' <= s[0] <= 'z' || 'A' <= s[0] <= 'Z')
    && forall k | 1 <= k < |s| ::
         s[k] == '_' || s[k] == '$' || 'a' <= s[k] <= 'z' || 'A' <= s[k] <= 'Z' || '0' <= s[k] <= '9'
  }

  /** A reference compiles exactly if its name is one, and not reserved; and so does the name of a type. */
  lemma NamesAreChecked(name: string, e: Node)
    requires Compile(e).Ok? && name !in {"string", "number", "bigint", "boolean", "undefined", "symbol", "null"}
    ensures Compile(Ref(name)).Ok? <==> IsName(name) && name !in ReservedWords(name[0])
    ensures Compile(InstanceOf(e, name)).Ok? <==> IsName(name) && name !in ReservedWords(name[0])
  {
    LegalIffNoError(Ref(name));
    LegalIffNoError(e);
    LegalIffNoError(InstanceOf(e, name));
    IdentifiersAreNames(name);
  }

  lemma IdentifiersAreNames(name: string)
    ensures IsIdentifier(name) <==> IsName(name) && name !in ReservedWords(name[0])
  {
    if |name| == 1 {
      assert name == [name[0]];
    }
  }

  /** A reference reads the variable of its name, and `@x` the debugger's variable `$dd_x`. */
  lemma ReferencesRead(host: Host, name: string, x: string, env: Env)
    requires Proper(Ref(name)) && (if name[..1] == "@" then x == "$dd_" + name[1..] else x == name)
    ensures Yields(host, Ref(name), env, if x in env then Val(env[x]) else Throw(ReferenceError(x)))
  {
    YieldsItsMeaning(host, Ref(name), env, Meaning(host, Ref(name), env));
  }

  lemma LiteralsStandForThemselves(host: Host, r: real, s: string, b: bool, env: Env)
    ensures Yields(host, NumberLiteral(r), env, Val(Number(r))) && Yields(host, StringLiteral(s), env, Val(String(s)))
    ensures Yields(host, BooleanLiteral(b), env, Val(Boolean(b))) && Yields(host, NullLiteral, env, Val(Null))
  {
    LegalIffNoError(NumberLiteral(r));
    LegalIffNoError(StringLiteral(s));
    LegalIffNoError(BooleanLiteral(b));
    LegalIffNoError(NullLiteral);
    YieldsItsMeaning(host, NumberLiteral(r), env, Val(Number(r)));
    YieldsItsMeaning(host, StringLiteral(s), env, Val(String(s)));
    YieldsItsMeaning(host, BooleanLiteral(b), env, Val(Boolean(b)));
    YieldsItsMeaning(host, NullLiteral, env, Val(Null));
  }

  /** `isDefined` tells whether its operand fails. */
  lemma IsDefinedCatches(host: Host, e: Node, env: Env, o: Outcome)
    requires Proper(IsDefined(e)) && Yields(host, e, env, o)
    ensures Yields(host, IsDefined(e), env, Val(Boolean(o.Val?)))
  {
    PartMeans(host, IsDefined(e), e, env, o);
    YieldsItsMeaning(host, IsDefined(e), env, Meaning(host, IsDefined(e), env));
  }

  /** A primitive type test tells the type of a value. */
  lemma TypeTestsTell(host: Host, e: Node, typeName: string, env: Env, v: Value)
    requires Proper(InstanceOf(e, typeName)) && Yields(host, e, env, Val(v))
    requires typeName in {"string", "number", "bigint", "boolean", "undefined", "symbol", "null"}
    ensures
      var holds := match typeName
                   case "string" => v.String?
                   case "number" => v.Number?
                   case "bigint" => v.BigInt?
                   case "boolean" => v.Boolean?
                   case "undefined" => v.Undefined?
                   case "symbol" => v.Symbol?
                   case _ => false;
      Yields(host, InstanceOf(e, typeName), env, Val(Boolean(holds)))
  {
    var n := InstanceOf(e, typeName);
    PartMeans(host, n, e, env, Val(v));
    TypeNames(v, typeName);
    YieldsItsMeaning(host, n, env, Meaning(host, n, env));
  }

  lemma TypeNames(v: Value, typeName: string)
    ensures TypeOf(v) == "string" <==> v.String?
    ensures TypeOf(v) == "number" <==> v.Number?
    ensures TypeOf(v) == "bigint" <==> v.BigInt?
    ensures TypeOf(v) == "boolean" <==> v.Boolean?
    ensures TypeOf(v) == "undefined" <==> v.Undefined?
    ensures TypeOf(v) == "symbol" <==> v.Symbol?
    ensures TypeOf(v) != "null"
  {
    assert "object"[0] == 'o' && "function"[0] == 'f' && "null"[0] == 'n';
    assert |"undefined"| == 9 && |"boolean"| == 7 && |"number"| == 6 && |"string"| == 6 && |"bigint"| == 6 && |"symbol"| == 6;
    assert "number"[0] == 'n' && "string"[1] == 't' && "bigint"[0] == 'b' && "symbol"[1] == 'y' && "string"[0] == 's';
  }
}
