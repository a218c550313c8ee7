/** The tree that the compiler means, and exactly when the emitted text parses to it. */
module ExpressionTrees {
  import opened Wrappers
  import opened Expression
  import opened JsSyntax
  import opened JsSyntaxProofs
  import opened ExpressionSyntax

  // ---- The tree that is meant -----------------------------------------------------------------------

  function Apply(left: Js, tail: seq<Operand>): Js
    decreases |tail|
  {
    if tail == [] then left else Apply(JBinary(tail[0].op, left, tail[0].tree), tail[1..])
  }

  function GuardedTree(n: Node): Js
    decreases n, 1
  {
    if n.NumberLiteral? then Number(n.n) else JCall(GuardCoercion, [Tree(n)])
  }

  function ArgTrees(op: BinaryOp, args: seq<Node>): seq<Operand>
    decreases args, 0
  {
    if args == [] then [] else [Operand(op, Tree(args[0]))] + ArgTrees(op, args[1..])
  }

  function Tree(n: Node): Js
    decreases n, 0
  {
    match n
    case NullLiteral => JNull
    case BooleanLiteral(b) => JBoolean(b)
    case NumberLiteral(r) => Number(r)
    case StringLiteral(s) => JString(s)
    case Not(e) => JNot(Tree(e))
    case Size(e) => JCall(GetSize, [Tree(e)])
    case IsEmpty(e) => JBinary(StrictEq, JCall(GetSize, [Tree(e)]), JNumber(0.0))
    case IsDefined(e) => JTry(Tree(e))
    case InstanceOf(e, typeName) =>
      if typeName in PRIMITIVE_TYPES then JBinary(StrictEq, JTypeof(Tree(e)), JString(typeName))
      else JCall(HasInstance, [JVariable(typeName), Tree(e)])
    case Ref(name) => JVariable(Mangle(name))
    case Compare(op, left, right) =>
      if op == Eq || op == Ne then JBinary(JsOp(op), Tree(left), Tree(right))
      else JBinary(JsOp(op), GuardedTree(left), GuardedTree(right))
    case And(args) => if args == [] then JBoolean(true) else Apply(Tree(args[0]), ArgTrees(LogicalAnd, args[1..]))
    case Or(args) => if args == [] then JBoolean(false) else Apply(Tree(args[0]), ArgTrees(LogicalOr, args[1..]))
    case Quantified(q, collection, p) => JIterate(q, Tree(p), Tree(p), Tree(collection))
    case Filter(collection, p) => JFilter(Tree(p), Tree(p), Tree(collection))
    case Affix(atEnd, subject, affix) =>
      JCall(CallAffix(atEnd), [JCall(AssertString, [Tree(subject)]), JCall(AssertString, [Tree(affix)])])
    case Contains(container, element) => JCall(CallContains, [Tree(container), Tree(element)])
    case Matches(subject, regex) => JCall(CallMatches, [Tree(subject), Tree(regex)])
    case Substring(subject, start, end) => JSubstring(Tree(start), Tree(end), Tree(subject))
    case Member(object_, key, allowMapAccess) => JCall(AccessProperty(allowMapAccess), [Tree(object_), Tree(key)])
    case Unknown(_) => JNull
  }

  /** The text has no operator outside its parentheses. */
  predicate Tight(n: Node) {
    match n
    case Compare(_, _, _) => false
    case IsEmpty(_) => false
    case And(args) => |args| <= 1
    case Or(args) => |args| <= 1
    case _ => true
  }

  /** A name that the compiler accepts is spliced as it is; JavaScript has no reference `super`, nor names
      that start with `@`. */
  predicate IsSpliceable(name: string) {
    name != "super" && (|name| > 0 ==> name[0] != '@')
  }

  /** Every connective has an operand, every operand of a primitive `instanceof` is tight, no reference is
      `super`, and the type name of any other `instanceof` can be spliced. */
  ghost predicate WellSpliced(n: Node)
    decreases n
  {
    match n
    case Not(e) => WellSpliced(e)
    case Size(e) => WellSpliced(e)
    case IsEmpty(e) => WellSpliced(e)
    case IsDefined(e) => WellSpliced(e)
    case Ref(name) => name != "super"
    case InstanceOf(e, typeName) => WellSpliced(e) && if typeName in PRIMITIVE_TYPES then Tight(e) else IsSpliceable(typeName)
    case Compare(_, left, right) => WellSpliced(left) && WellSpliced(right)
    case And(args) => args != [] && forall i | 0 <= i < |args| :: WellSpliced(args[i])
    case Or(args) => args != [] && forall i | 0 <= i < |args| :: WellSpliced(args[i])
    case Quantified(_, collection, p) => WellSpliced(collection) && WellSpliced(p)
    case Filter(collection, p) => WellSpliced(collection) && WellSpliced(p)
    case Affix(_, subject, affix) => WellSpliced(subject) && WellSpliced(affix)
    case Contains(container, element) => WellSpliced(container) && WellSpliced(element)
    case Matches(subject, regex) => WellSpliced(subject) && WellSpliced(regex)
    case Substring(subject, start, end) => WellSpliced(subject) && WellSpliced(start) && WellSpliced(end)
    case Member(object_, key, _) => WellSpliced(object_) && WellSpliced(key)
    case _ => true
  }

  // ---- Nesting --------------------------------------------------------------------------------------

  ghost predicate Uniform(tail: seq<Operand>, p: nat) {
    forall i | 0 <= i < |tail| :: Precedence(tail[i].op) == p
  }

  lemma {:induction false} NestStops(level: nat, head: Js, tail: seq<Operand>)
    requires level <= UNARY && (tail == [] || Precedence(tail[0].op) < level)
    ensures NestLevel(level, head, tail) == Nesting(head, tail)
    decreases 10 - level
  {
    if level < UNARY {
      NestStops(level + 1, head, tail);
    }
  }

  lemma {:induction false} LoopApplies(p: nat, left: Js, tail: seq<Operand>)
    requires p < UNARY && Uniform(tail, p)
    ensures NestLoop(p, left, tail) == Nesting(Apply(left, tail), [])
    decreases |tail|
  {
    if tail != [] {
      NestStops(p + 1, tail[0].tree, tail[1..]);
      LoopApplies(p, JBinary(tail[0].op, left, tail[0].tree), tail[1..]);
    }
  }

  /** Operators of one precedence associate to the left. */
  lemma {:induction false} UniformNests(level: nat, p: nat, head: Js, tail: seq<Operand>)
    requires level <= p < UNARY && Uniform(tail, p)
    ensures NestLevel(level, head, tail) == Nesting(Apply(head, tail), [])
    decreases 10 - level
  {
    if level == p {
      NestStops(p + 1, head, tail);
      LoopApplies(p, head, tail);
    } else {
      UniformNests(level + 1, p, head, tail);
    }
  }

  lemma {:induction false} ApplyIsBinary(left: Js, tail: seq<Operand>)
    requires tail != []
    ensures Apply(left, tail).JBinary? && Apply(left, tail).op == tail[|tail| - 1].op
    decreases |tail|
  {
    if |tail| > 1 {
      ApplyIsBinary(JBinary(tail[0].op, left, tail[0].tree), tail[1..]);
    }
  }

  lemma {:induction false} ApplyInjective(l1: Js, t1: seq<Operand>, l2: Js, t2: seq<Operand>)
    requires |t1| == |t2| && Apply(l1, t1) == Apply(l2, t2)
    ensures l1 == l2 && t1 == t2
    decreases |t1|
  {
    if t1 != [] {
      ApplyInjective(JBinary(t1[0].op, l1, t1[0].tree), t1[1..], JBinary(t2[0].op, l2, t2[0].tree), t2[1..]);
      assert t1 == [t1[0]] + t1[1..] && t2 == [t2[0]] + t2[1..];
    }
  }

  lemma {:induction false} LooseLoop(p: nat, left: Js, tail: seq<Operand>, t: Js)
    requires p < 2 && tail != [] && Uniform(tail, p)
    ensures var r := NestLoop(p, left, tail + [Operand(StrictEq, t)]);
            r.tail == [] && r.tree.JBinary? && Precedence(r.tree.op) == p
    decreases |tail|
  {
    var last := [Operand(StrictEq, t)];
    var all := tail + last;
    var op, first := tail[0].op, tail[0].tree;
    if |tail| == 1 {
      assert all[1..] == last;
      UniformNests(p + 1, 2, first, last);
      LoopApplies(p, JBinary(op, left, Apply(first, last)), []);
    } else {
      assert all[1..] == tail[1..] + last;
      NestStops(p + 1, first, all[1..]);
      LooseLoop(p, JBinary(op, left, first), tail[1..], t);
    }
  }

  lemma {:induction false} NestBelow(level: nat, head: Js, tail: seq<Operand>, x: Js)
    requires level <= UNARY && NestLevel(level, head, tail) == Nesting(x, [])
    ensures Nest(head, tail) == x
    decreases level
  {
    if level > 0 {
      assert NestLevel(level - 1, head, tail) == NestLoop(level - 1, x, []);
      NestBelow(level - 1, head, tail, x);
    }
  }

  /** `typeof` in front of operands and operators does not apply to the whole. */
  lemma LooseTypeof(head: Js, tail: seq<Operand>, p: nat, t: Js)
    requires p < UNARY && tail != [] && Uniform(tail, p)
    ensures var r := Nest(head, tail + [Operand(StrictEq, t)]);
            r.JBinary? && (r.op == StrictEq ==> r.left.JBinary?)
  {
    var last := [Operand(StrictEq, t)];
    var all := tail + last;
    if p == 3 {
      TighterThenEquality(head, tail, t);
    } else if p == 2 {
      UniformNests(0, 2, head, all);
      assert all[..|all| - 1] == tail;
      ApplyLast(head, tail, last[0]);
      ApplyIsBinary(head, tail);
    } else {
      NestStops(p + 1, head, all);
      LooseLoop(p, head, tail, t);
      NestBelow(p, head, all, NestLoop(p, head, all).tree);
    }
  }

  lemma {:induction false} ApplyLast(left: Js, tail: seq<Operand>, last: Operand)
    ensures Apply(left, tail + [last]) == JBinary(last.op, Apply(left, tail), last.tree)
    decreases |tail|
  {
    if tail == [] {
      assert tail + [last] == [last] && [last][1..] == [];
    } else {
      assert (tail + [last])[1..] == tail[1..] + [last];
      ApplyLast(JBinary(tail[0].op, left, tail[0].tree), tail[1..], last);
    }
  }

  lemma {:induction false} RelationalLoop(left: Js, tail: seq<Operand>, last: Operand)
    requires Uniform(tail, 3) && last.op == StrictEq
    ensures NestLoop(3, left, tail + [last]) == Nesting(Apply(left, tail), [last])
    decreases |tail|
  {
    if tail == [] {
      assert tail + [last] == [last];
    } else {
      assert (tail + [last])[1..] == tail[1..] + [last];
      RelationalLoop(JBinary(tail[0].op, left, tail[0].tree), tail[1..], last);
    }
  }

  lemma TighterThenEquality(head: Js, tail: seq<Operand>, t: Js)
    requires tail != [] && Uniform(tail, 3)
    ensures Nest(head, tail + [Operand(StrictEq, t)]) == JBinary(StrictEq, Apply(head, tail), t)
    ensures Apply(head, tail).JBinary?
  {
    var last := Operand(StrictEq, t);
    var all := tail + [last];
    ApplyIsBinary(head, tail);
    RelationalLoop(head, tail, last);
    var x := Apply(head, tail);
    NestStops(4, head, all);
    assert NestLevel(3, head, all) == Nesting(x, [last]);
    LoopApplies(2, x, [last]);
    assert [last][1..] == [];
    NestBelow(2, head, all, JBinary(StrictEq, x, t));
  }

  // ---- When the text parses to the tree that is meant -------------------------------------------------

  ghost predicate Meant(n: Node) {
    ParsedTree(n) == Some(Tree(n))
  }

  lemma {:induction false} ArgsMeant(op: BinaryOp, args: seq<Node>)
    ensures Operands(SplicedArgs(op, args)) == Some(ArgTrees(op, args)) <==> forall i | 0 <= i < |args| :: Meant(args[i])
    decreases |args|
  {
    if args != [] {
      ArgsMeant(op, args[1..]);
      var rest := Operands(SplicedArgs(op, args[1..]));
      assert SplicedArgs(op, args)[1..] == SplicedArgs(op, args[1..]);
      assert forall i | 0 <= i < |args| - 1 :: args[1..][i] == args[i + 1];
      if Operands(SplicedArgs(op, args)) == Some(ArgTrees(op, args)) {
        assert rest.value == ArgTrees(op, args)[1..] == ArgTrees(op, args[1..]);
        assert ArgTrees(op, args)[0].tree == ParsedTree(args[0]).value;
        assert forall i | 1 <= i < |args| :: args[i] == args[1..][i - 1];
      }
    }
  }

  lemma {:induction false} ArgsUniform(op: BinaryOp, args: seq<Node>)
    ensures |ArgTrees(op, args)| == |args| && |SplicedArgs(op, args)| == |args|
    ensures Uniform(ArgTrees(op, args), Precedence(op))
    ensures var ops := Operands(SplicedArgs(op, args));
            ops.Some? ==> |ops.value| == |args| && Uniform(ops.value, Precedence(op))
    decreases |args|
  {
    if args != [] {
      ArgsUniform(op, args[1..]);
      assert SplicedArgs(op, args)[1..] == SplicedArgs(op, args[1..]);
    }
  }

  lemma SplitTree(n: Node)
    ensures ParsedTree(n) == TreeOf(Split(n).tree, Split(n).tail)
  { }

  lemma ConnectiveTree(n: Node, op: BinaryOp, args: seq<Node>)
    requires (n == And(args) && op == LogicalAnd) || (n == Or(args) && op == LogicalOr)
    ensures var ops := Operands(SplicedArgs(op, if args == [] then [] else args[1..]));
            ParsedTree(n) == if args == [] || ParsedTree(args[0]).None? || ops.None? then None
                             else Some(Apply(ParsedTree(args[0]).value, ops.value))
  {
    SplitTree(n);
    if args != [] {
      var ops := Operands(SplicedArgs(op, args[1..]));
      ArgsUniform(op, args[1..]);
      if ParsedTree(args[0]).Some? && ops.Some? {
        UniformNests(0, Precedence(op), ParsedTree(args[0]).value, ops.value);
      }
    }
  }

  lemma ConnectiveMeant(n: Node, op: BinaryOp, args: seq<Node>)
    requires (n == And(args) && op == LogicalAnd) || (n == Or(args) && op == LogicalOr)
    ensures Meant(n) <==> args != [] && forall i | 0 <= i < |args| :: Meant(args[i])
  {
    ConnectiveTree(n, op, args);
    if args != [] {
      var first, rest := args[0], args[1..];
      var ops := Operands(SplicedArgs(op, rest));
      ArgsUniform(op, rest);
      ArgsMeant(op, rest);
      assert forall i | 1 <= i < |args| :: args[i] == rest[i - 1];
      assert forall i | 0 <= i < |rest| :: rest[i] == args[i + 1];
      if Meant(n) {
        ApplyInjective(ParsedTree(first).value, ops.value, Tree(first), ArgTrees(op, rest));
      }
    }
  }

  lemma OneOperandTree(a: Option<Js>, op: BinaryOp, text: seq<Token>, b: Option<Js>)
    ensures TreeOf(a, [Spliced(op, text, b)]) == if a.None? || b.None? then None else Some(JBinary(op, a.value, b.value))
  {
    var tail := [Spliced(op, text, b)];
    assert tail[1..] == [];
    if a.Some? && b.Some? {
      var ops := [Operand(op, b.value)];
      assert Operands(tail) == Some(ops) by { assert [Operand(op, b.value)] + [] == ops; }
      UniformNests(0, Precedence(op), a.value, ops);
      assert ops[1..] == [];
    }
  }

  lemma CompareMeant(n: Node)
    requires n.Compare?
    ensures Meant(n) <==> Meant(n.left) && Meant(n.right)
  {
    SplitTree(n);
    if n.op == Eq || n.op == Ne {
      OneOperandTree(ParsedTree(n.left), JsOp(n.op), Parenthesized(Emit(n.right)), ParsedTree(n.right));
    } else {
      OneOperandTree(Guarded(n.left), JsOp(n.op), EmitGuarded(n.right), Guarded(n.right));
      GuardedMeant(n.left);
      GuardedMeant(n.right);
    }
  }

  lemma GuardedMeant(n: Node)
    ensures Guarded(n) == Some(GuardedTree(n)) <==> Meant(n)
  {
    if n.NumberLiteral? {
      TightTree(n);
      assert Split(n).tree == UnarySplit(n) == Some(Number(n.n));
    }
  }

  lemma IsEmptyMeant(n: Node)
    requires n.IsEmpty?
    ensures Meant(n) <==> Meant(n.e)
  {
    SplitTree(n);
    OneOperandTree(Called1(GetSize, ParsedTree(n.e)), StrictEq, [NumberToken(0.0)], Some(JNumber(0.0)));
  }

  lemma TightTree(n: Node)
    requires Tight(n)
    ensures Split(n).tail == [] && ParsedTree(n) == Split(n).tree
  {
    UnaryTree(Split(n).tree);
  }

  lemma {:induction false} OperandsLast(tail: seq<Spliced>, last: Spliced)
    ensures Operands(tail + [last])
         == if Operands(tail).None? || last.tree.None? then None
            else Some(Operands(tail).value + [Operand(last.op, last.tree.value)])
    decreases |tail|
  {
    if tail == [] {
      assert tail + [last] == [last] && [last][1..] == [];
      if last.tree.Some? {
        var l := Operand(last.op, last.tree.value);
        assert [l] + [] == [] + [l];
      }
    } else {
      assert (tail + [last])[1..] == tail[1..] + [last];
      OperandsLast(tail[1..], last);
      var rest := Operands(tail[1..]);
      if tail[0].tree.Some? && rest.Some? && last.tree.Some? {
        var (h, l) := (Operand(tail[0].op, tail[0].tree.value), Operand(last.op, last.tree.value));
        assert [h] + (rest.value + [l]) == ([h] + rest.value) + [l];
      }
    }
  }

  lemma LooseSplit(n: Node) returns (p: nat)
    requires !Tight(n)
    ensures p < UNARY && Split(n).tail != []
    ensures var ops := Operands(Split(n).tail); ops.Some? ==> ops.value != [] && Uniform(ops.value, p)
  {
    match n
    case Compare(op, left, right) =>
      p := Precedence(JsOp(op));
      assert Split(n).tail[1..] == [];
    case IsEmpty(_) =>
      p := 2;
      assert Split(n).tail[1..] == [];
    case And(args) =>
      p := 1;
      ArgsUniform(LogicalAnd, args[1..]);
    case Or(args) =>
      p := 0;
      ArgsUniform(LogicalOr, args[1..]);
  }

  lemma TypeofMeant(e: Node, typeName: string)
    ensures TypeofTree(e, typeName) == Some(JBinary(StrictEq, JTypeof(Tree(e)), JString(typeName))) <==> Meant(e) && Tight(e)
  {
    var flat := Split(e);
    var last := Spliced(StrictEq, [StringToken(typeName)], Some(JString(typeName)));
    OperandsLast(flat.tail, last);
    if Tight(e) {
      TightTree(e);
      assert [] + [last] == [last];
      OneOperandTree(Prefixed(Typeof, flat.tree), StrictEq, [StringToken(typeName)], Some(JString(typeName)));
    } else {
      var p := LooseSplit(e);
      var ops := Operands(flat.tail);
      if flat.tree.Some? && ops.Some? {
        LooseTypeof(JTypeof(flat.tree.value), ops.value, p, JString(typeName));
      }
    }
  }

  lemma InstanceOfMeant(n: Node)
    requires n.InstanceOf?
    ensures Meant(n) <==> Meant(n.e) && if n.typeName in PRIMITIVE_TYPES then Tight(n.e) else IsReference(n.typeName)
  {
    TightTree(n);
    if n.typeName in PRIMITIVE_TYPES {
      TypeofMeant(n.e, n.typeName);
    }
  }

  /** Nodes whose text is a unary expression mean what their parts mean. */
  lemma UnaryMeant(n: Node)
    requires Tight(n) && !n.And? && !n.Or? && !n.InstanceOf? && !n.Unknown?
    ensures Meant(n) <==>
      match n
      case Not(e) => Meant(e)
      case Size(e) => Meant(e)
      case IsDefined(e) => Meant(e)
      case Quantified(_, a, b) => Meant(a) && Meant(b)
      case Filter(a, b) => Meant(a) && Meant(b)
      case Affix(_, a, b) => Meant(a) && Meant(b)
      case Contains(a, b) => Meant(a) && Meant(b)
      case Matches(a, b) => Meant(a) && Meant(b)
      case Substring(a, b, c) => Meant(a) && Meant(b) && Meant(c)
      case Member(a, b, _) => Meant(a) && Meant(b)
      case Ref(name) => IsReference(Mangle(name))
      case _ => true
  {
    TightTree(n);
  }

  lemma JsWordsAreReserved(letter: char)
    ensures JsReservedWords(letter) <= ReservedWords(letter) + {"super", "this"}
    ensures letter == 's' ==> "super" in JsReservedWords(letter)
  {}

  /** The names that are accepted and cannot be referred to: `super`, and those that start with `@` where they
      are not mangled. */
  lemma ReferencesAmongIdentifiers(name: string)
    requires IsIdentifier(name)
    ensures IsReference(Mangle(name)) <==> name != "super"
    ensures IsReference(name) <==> IsSpliceable(name)
  {
    if name[0] == '@' {
      var mangled := Mangle(name);
      assert mangled == "$dd_" + name[1..] && mangled[0] == '$';
      assert forall i | 4 <= i < |mangled| :: mangled[i] == name[i - 3];
      assert IsReference(mangled);
      assert !IsWordChar(name[0]);
    } else {
      assert Mangle(name) == name;
      JsWordsAreReserved(name[0]);
      assert forall i | 0 <= i < |name| :: IsWordChar(name[i]);
    }
  }

  /** The emitted text parses to the tree that is meant exactly if it is well spliced. */
  lemma {:induction false} MeantIffWellSpliced(n: Node)
    requires Legal(n)
    ensures Meant(n) <==> WellSpliced(n)
    decreases n
  {
    match n
    case Not(e) => MeantIffWellSpliced(e); UnaryMeant(n);
    case Size(e) => MeantIffWellSpliced(e); UnaryMeant(n);
    case IsDefined(e) => MeantIffWellSpliced(e); UnaryMeant(n);
    case IsEmpty(e) => MeantIffWellSpliced(e); IsEmptyMeant(n);
    case InstanceOf(e, typeName) =>
      MeantIffWellSpliced(e);
      InstanceOfMeant(n);
      if typeName !in PRIMITIVE_TYPES {
        ReferencesAmongIdentifiers(typeName);
      }
    case Ref(name) => ReferencesAmongIdentifiers(name); UnaryMeant(n);
    case Compare(_, a, b) => MeantIffWellSpliced(a); MeantIffWellSpliced(b); CompareMeant(n);
    case And(args) => ArgsMeantIff(args); ConnectiveMeant(n, LogicalAnd, args);
    case Or(args) => ArgsMeantIff(args); ConnectiveMeant(n, LogicalOr, args);
    case Quantified(_, a, b) => MeantIffWellSpliced(a); MeantIffWellSpliced(b); UnaryMeant(n);
    case Filter(a, b) => MeantIffWellSpliced(a); MeantIffWellSpliced(b); UnaryMeant(n);
    case Affix(_, a, b) => MeantIffWellSpliced(a); MeantIffWellSpliced(b); UnaryMeant(n);
    case Contains(a, b) => MeantIffWellSpliced(a); MeantIffWellSpliced(b); UnaryMeant(n);
    case Matches(a, b) => MeantIffWellSpliced(a); MeantIffWellSpliced(b); UnaryMeant(n);
    case Member(a, b, _) => MeantIffWellSpliced(a); MeantIffWellSpliced(b); UnaryMeant(n);
    case Substring(a, b, c) => MeantIffWellSpliced(a); MeantIffWellSpliced(b); MeantIffWellSpliced(c); UnaryMeant(n);
    case Unknown(_) =>
    case _ => UnaryMeant(n);
  }

  lemma {:induction false} ArgsMeantIff(args: seq<Node>)
    requires forall i | 0 <= i < |args| :: Legal(args[i])
    ensures forall i | 0 <= i < |args| :: Meant(args[i]) <==> WellSpliced(args[i])
    decreases args, 0
  {
    forall i | 0 <= i < |args| ensures Meant(args[i]) <==> WellSpliced(args[i]) {
      MeantIffWellSpliced(args[i]);
    }
  }

  /** The compiler and a parser for ECMA-262 agree: whatever compiles parses to the tree that is meant if
      and only if every connective has an operand, every operand of a primitive `instanceof` is tight, no
      reference is `super`, and no other type name is `super` or starts with `@`. */
  lemma CompiledTextParsesAsMeant(n: Node)
    requires Compile(n).Ok?
    ensures ParseAll(Compile(n).value) == Parsed(Tree(n), []) <==> WellSpliced(n)
  {
    TextParsesToParsedTree(n);
    MeantIffWellSpliced(n);
  }

  lemma TextParsesToParsedTree(n: Node)
    requires Compile(n).Ok?
    ensures Legal(n) && ParseAll(Compile(n).value) == Outcome(ParsedTree(n), [])
  {
    LegalIffNoError(n);
    NodeReads(n);
    assert Emit(n) + [] == Emit(n);
    assert ParseExpression(Emit(n) + []) == Outcome(ParsedTree(n), []);
  }

  // ---- Names that compile to no expression ----------------------------------------------------------

  /** A reference to `super` is accepted, and is no expression. */
  lemma SuperDoesNotParse()
    ensures Compile(Size(Ref("super"))).Ok? && ParseAll(Compile(Size(Ref("super"))).value) == NoParse
  {
    var n := Size(Ref("super"));
    SomeIdentifiers();
    assert FirstError(Ref("super")).Ok?;
    TextParsesToParsedTree(n);
    ReferencesAmongIdentifiers("super");
    TightTree(n.e);
    TightTree(n);
  }

  /** A type name that starts with `@` is accepted, and spliced without being mangled. */
  lemma AtTypeNameDoesNotParse()
    ensures
      var n := InstanceOf(Ref("x"), "@T");
      Compile(n).Ok? && ParseAll(Compile(n).value) == NoParse
  {
    var n := InstanceOf(Ref("x"), "@T");
    SomeIdentifiers();
    assert FirstError(Ref("x")).Ok?;
    TextParsesToParsedTree(n);
    ReferencesAmongIdentifiers("@T");
    TightTree(n);
  }

  lemma SomeIdentifiers()
    ensures IsIdentifier("super") && IsIdentifier("x") && IsIdentifier("@T")
    ensures Mangle("super") == "super" && Mangle("x") == "x" && "@T" !in PRIMITIVE_TYPES
  {
    assert "super"[0] == 's';
    assert "@T"[0] == '@';
  }
}
