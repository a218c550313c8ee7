/** How the emitted text of an expression parses: for every node, and compared with the tree that the
    compiler means. */
module ExpressionSyntax {
  import opened Wrappers
  import opened Expression
  import opened JsSyntax
  import opened JsSyntaxProofs

  // ---- When compilation succeeds ------------------------------------------------------------------

  /** Every identifier is legal and every node type known. */
  ghost predicate Legal(n: Node)
    decreases n
  {
    match n
    case Unknown(_) => false
    case Ref(name) => IsIdentifier(name)
    case InstanceOf(e, typeName) => (typeName in PRIMITIVE_TYPES || IsIdentifier(typeName)) && Legal(e)
    case Not(e) => Legal(e)
    case Size(e) => Legal(e)
    case IsEmpty(e) => Legal(e)
    case IsDefined(e) => Legal(e)
    case Compare(_, left, right) => Legal(left) && Legal(right)
    case And(args) => forall i | 0 <= i < |args| :: Legal(args[i])
    case Or(args) => forall i | 0 <= i < |args| :: Legal(args[i])
    case Quantified(_, collection, p) => Legal(collection) && Legal(p)
    case Filter(collection, p) => Legal(collection) && Legal(p)
    case Affix(_, subject, affix) => Legal(subject) && Legal(affix)
    case Contains(container, element) => Legal(container) && Legal(element)
    case Matches(subject, regex) => Legal(subject) && Legal(regex)
    case Substring(subject, start, end) => Legal(subject) && Legal(start) && Legal(end)
    case Member(object_, key, _) => Legal(object_) && Legal(key)
    case _ => true
  }

  lemma {:induction false} LegalIffNoError(n: Node)
    ensures Legal(n) <==> FirstError(n).Ok?
    decreases n, 1
  {
    match n
    case Not(e) => LegalIffNoError(e);
    case Size(e) => LegalIffNoError(e);
    case IsEmpty(e) => LegalIffNoError(e);
    case IsDefined(e) => LegalIffNoError(e);
    case InstanceOf(e, _) => LegalIffNoError(e);
    case Compare(_, left, right) => LegalIffNoError(left); LegalIffNoError(right);
    case And(args) => LegalIffNoErrors(args);
    case Or(args) => LegalIffNoErrors(args);
    case Quantified(_, collection, p) => LegalIffNoError(collection); LegalIffNoError(p);
    case Filter(collection, p) => LegalIffNoError(collection); LegalIffNoError(p);
    case Affix(_, subject, affix) => LegalIffNoError(subject); LegalIffNoError(affix);
    case Contains(container, element) => LegalIffNoError(container); LegalIffNoError(element);
    case Matches(subject, regex) => LegalIffNoError(subject); LegalIffNoError(regex);
    case Substring(subject, start, end) => LegalIffNoError(subject); LegalIffNoError(start); LegalIffNoError(end);
    case Member(object_, key, _) => LegalIffNoError(object_); LegalIffNoError(key);
    case _ =>
  }

  lemma {:induction false} LegalIffNoErrors(args: seq<Node>)
    ensures (forall i | 0 <= i < |args| :: Legal(args[i])) <==> FirstErrorOf(args).Ok?
    decreases args, 0
  {
    if args != [] {
      LegalIffNoError(args[0]);
      LegalIffNoErrors(args[1..]);
      assert forall i | 1 <= i < |args| :: args[i] == args[1..][i - 1];
      assert forall i | 0 <= i < |args| - 1 :: args[1..][i] == args[i + 1];
    }
  }

  // ---- What the emitted text parses to ------------------------------------------------------------

  /** A text split at its operators: a first operand, then operators with their operands. */
  datatype Flat = Flat(text: seq<Token>, tree: Option<Js>, tail: seq<Spliced>)

  function Number(r: real): Js {
    if r < 0.0 then JNegate(JNumber(-r)) else JNumber(r)
  }

  /** The tree that the parser finds in the text of `n`, if it finds one. */
  function ParsedTree(n: Node): Option<Js>
    decreases n, 2
  {
    var flat := Split(n);
    TreeOf(flat.tree, flat.tail)
  }

  function Guarded(n: Node): Option<Js>
    decreases n, 3
  {
    if n.NumberLiteral? then Some(Number(n.n)) else Called1(GuardCoercion, ParsedTree(n))
  }

  function SplicedArgs(op: BinaryOp, args: seq<Node>): seq<Spliced>
    decreases args, 0
  {
    if args == [] then []
    else [Spliced(op, Parenthesized(Emit(args[0])), ParsedTree(args[0]))] + SplicedArgs(op, args[1..])
  }

  function Split(n: Node): Flat
    decreases n, 1
  {
    match n
    case Compare(op, left, right) =>
      if op == Eq || op == Ne
      then Flat(Parenthesized(Emit(left)), ParsedTree(left),
                [Spliced(JsOp(op), Parenthesized(Emit(right)), ParsedTree(right))])
      else Flat(EmitGuarded(left), Guarded(left), [Spliced(JsOp(op), EmitGuarded(right), Guarded(right))])
    case IsEmpty(e) =>
      Flat(Call(GetSize, Emit(e)), Called1(GetSize, ParsedTree(e)),
           [Spliced(StrictEq, [NumberToken(0.0)], Some(JNumber(0.0)))])
    case And(args) =>
      if args == [] then Flat([Open, Close], None, [])
      else Flat(Parenthesized(Emit(args[0])), ParsedTree(args[0]), SplicedArgs(LogicalAnd, args[1..]))
    case Or(args) =>
      if args == [] then Flat([Open, Close], None, [])
      else Flat(Parenthesized(Emit(args[0])), ParsedTree(args[0]), SplicedArgs(LogicalOr, args[1..]))
    case _ => Flat(Emit(n), UnarySplit(n), [])
  }

  /** The operand of a primitive `instanceof` is spliced after `typeof` without parentheses: if it has
      operators of its own, `typeof` takes only what stands before the first of them. */
  function TypeofTree(e: Node, typeName: string): Option<Js>
    decreases e, 3
  {
    var flat := Split(e);
    TreeOf(Prefixed(Typeof, flat.tree), flat.tail + [Spliced(StrictEq, [StringToken(typeName)], Some(JString(typeName)))])
  }

  function UnarySplit(n: Node): Option<Js>
    decreases n, 0
  {
    match n
    case NullLiteral => Some(JNull)
    case BooleanLiteral(b) => Some(JBoolean(b))
    case NumberLiteral(r) => Some(Number(r))
    case StringLiteral(s) => Some(JString(s))
    case Not(e) => Prefixed(Bang, ParsedTree(e))
    case Size(e) => Called1(GetSize, ParsedTree(e))
    case IsDefined(e) => Tried(ParsedTree(e))
    case InstanceOf(e, typeName) =>
      if typeName in PRIMITIVE_TYPES then TypeofTree(e, typeName)
      else Called2(HasInstance, Reference(typeName), ParsedTree(e))
    case Ref(name) => Reference(Mangle(name))
    case Quantified(q, collection, p) =>
      TripleTree(Iteration(q), ParsedTree(p), ParsedTree(p), ParsedTree(collection))
    case Filter(collection, p) => TripleTree(Filtering, ParsedTree(p), ParsedTree(p), ParsedTree(collection))
    case Affix(atEnd, subject, affix) =>
      Called2(CallAffix(atEnd), Called1(AssertString, ParsedTree(subject)), Called1(AssertString, ParsedTree(affix)))
    case Contains(container, element) => Called2(CallContains, ParsedTree(container), ParsedTree(element))
    case Matches(subject, regex) => Called2(CallMatches, ParsedTree(subject), ParsedTree(regex))
    case Substring(subject, start, end) =>
      TripleTree(Substringing, ParsedTree(start), ParsedTree(end), ParsedTree(subject))
    case Member(object_, key, allowMapAccess) =>
      Called2(AccessProperty(allowMapAccess), ParsedTree(object_), ParsedTree(key))
    case _ => None
  }

  // ---- Every node parses to its `ParsedTree` ------------------------------------------------------

  ghost predicate Reads(n: Node) {
    IsExpression(Emit(n), ParsedTree(n))
  }

  ghost predicate SplitReads(flat: Flat, text: seq<Token>) {
    && IsUnary(flat.text, flat.tree)
    && Readable(flat.tail)
    && text == flat.text + TailText(flat.tail)
  }

  lemma SplitMeansReads(n: Node)
    requires SplitReads(Split(n), Emit(n))
    ensures Reads(n)
  {
    OperandsAreExpression(Split(n).text, Split(n).tree, Split(n).tail);
  }

  lemma OneOperand(text: seq<Token>, tree: Option<Js>, op: BinaryOp, text': seq<Token>, tree': Option<Js>)
    requires IsUnary(text, tree) && IsUnary(text', tree')
    ensures SplitReads(Flat(text, tree, [Spliced(op, text', tree')]), text + [Operator(op)] + text')
  {
    assert TailText([Spliced(op, text', tree')][1..]) == [];
    assert text + [Operator(op)] + text' == text + ([Operator(op)] + text' + []);
  }

  lemma NoOperand(text: seq<Token>, tree: Option<Js>)
    requires IsUnary(text, tree)
    ensures SplitReads(Flat(text, tree, []), text)
  {
    assert text + TailText([]) == text;
  }

  lemma NumberReads(r: real)
    ensures IsUnary(Emit(NumberLiteral(r)), Some(Number(r)))
  {
    if r < 0.0 {
      AtomIsUnary(NumberToken(-r), JNumber(-r));
      PrefixedIsUnary(Minus, [NumberToken(-r)], Some(JNumber(-r)));
      assert [Minus] + [NumberToken(-r)] == [Minus, NumberToken(-r)];
    } else {
      AtomIsUnary(NumberToken(r), JNumber(r));
    }
  }

  lemma GuardedReads(n: Node)
    requires Reads(n)
    ensures IsUnary(EmitGuarded(n), Guarded(n))
  {
    if n.NumberLiteral? {
      NumberReads(n.n);
    } else {
      Call1IsUnary(GuardCoercion, Emit(n), ParsedTree(n));
    }
  }

  lemma CompareReads(n: Node)
    requires n.Compare? && Reads(n.left) && Reads(n.right)
    ensures SplitReads(Split(n), Emit(n))
  {
    if n.op == Eq || n.op == Ne {
      ParenthesizedIsUnary(Emit(n.left), ParsedTree(n.left));
      ParenthesizedIsUnary(Emit(n.right), ParsedTree(n.right));
      OneOperand(Parenthesized(Emit(n.left)), ParsedTree(n.left), JsOp(n.op), Parenthesized(Emit(n.right)), ParsedTree(n.right));
    } else {
      GuardedReads(n.left);
      GuardedReads(n.right);
      OneOperand(EmitGuarded(n.left), Guarded(n.left), JsOp(n.op), EmitGuarded(n.right), Guarded(n.right));
    }
  }

  lemma IsEmptyReads(n: Node)
    requires n.IsEmpty? && Reads(n.e)
    ensures SplitReads(Split(n), Emit(n))
  {
    Call1IsUnary(GetSize, Emit(n.e), ParsedTree(n.e));
    AtomIsUnary(NumberToken(0.0), JNumber(0.0));
    OneOperand(Call(GetSize, Emit(n.e)), Called1(GetSize, ParsedTree(n.e)), StrictEq, [NumberToken(0.0)], Some(JNumber(0.0)));
    assert [Operator(StrictEq)] + [NumberToken(0.0)] == [Operator(StrictEq), NumberToken(0.0)];
    assert Call(GetSize, Emit(n.e)) + [Operator(StrictEq), NumberToken(0.0)]
        == Call(GetSize, Emit(n.e)) + [Operator(StrictEq)] + [NumberToken(0.0)];
  }

  lemma TailTextCons(op: BinaryOp, text: seq<Token>, tree: Option<Js>, tail: seq<Spliced>)
    ensures TailText([Spliced(op, text, tree)] + tail) == [Operator(op)] + text + TailText(tail)
  {
    assert ([Spliced(op, text, tree)] + tail)[1..] == tail;
  }

  lemma OperandsCons(op: BinaryOp, args: seq<Node>)
    requires |args| > 1
    ensures EmitOperands(op, args) == Parenthesized(Emit(args[0])) + [Operator(op)] + EmitOperands(op, args[1..])
  { }

  lemma {:induction false} ArgsText(op: BinaryOp, args: seq<Node>)
    requires args != []
    ensures EmitOperands(op, args) == Parenthesized(Emit(args[0])) + TailText(SplicedArgs(op, args[1..]))
    decreases |args|
  {
    if |args| == 1 {
      assert Parenthesized(Emit(args[0])) + [] == Parenthesized(Emit(args[0]));
    } else {
      OperandsCons(op, args);
      ArgsText(op, args[1..]);
      TailTextCons(op, Parenthesized(Emit(args[1])), ParsedTree(args[1]), SplicedArgs(op, args[1..][1..]));
      SequenceAssociates(Parenthesized(Emit(args[0])), [Operator(op)], Parenthesized(Emit(args[1])),
                         TailText(SplicedArgs(op, args[1..][1..])));
    }
  }

  lemma SequenceAssociates(a: seq<Token>, b: seq<Token>, c: seq<Token>, d: seq<Token>)
    ensures a + b + (c + d) == a + (b + c + d)
  { }

  lemma {:induction false} ArgsReadable(op: BinaryOp, args: seq<Node>)
    requires forall i | 0 <= i < |args| :: Reads(args[i])
    ensures Readable(SplicedArgs(op, args))
    decreases |args|
  {
    if args != [] {
      ParenthesizedIsUnary(Emit(args[0]), ParsedTree(args[0]));
      ArgsReadable(op, args[1..]);
    }
  }

  lemma EmptyParentheses()
    ensures IsUnary([Open, Close], None)
  {
    forall rest ensures ParseUnary([Open, Close] + rest) == NoParse {
      var after := [Close] + rest;
      assert [Open, Close] + rest == [Open] + after;
      OpenHead(after);
      PrimaryHead(after);
      ExpressionHead(after);
    }
  }

  lemma ConnectiveReads(n: Node, op: BinaryOp, args: seq<Node>)
    requires (n == And(args) && op == LogicalAnd) || (n == Or(args) && op == LogicalOr)
    requires forall i | 0 <= i < |args| :: Reads(args[i])
    ensures SplitReads(Split(n), Emit(n))
  {
    if args == [] {
      EmptyParentheses();
      NoOperand([Open, Close], None);
    } else {
      ParenthesizedIsUnary(Emit(args[0]), ParsedTree(args[0]));
      ArgsReadable(op, args[1..]);
      ArgsText(op, args);
    }
  }

  lemma {:induction false} TailTextConcat(a: seq<Spliced>, b: seq<Spliced>)
    ensures TailText(a + b) == TailText(a) + TailText(b)
    decreases |a|
  {
    if a == [] {
      assert a + b == b;
    } else {
      TailTextConcat(a[1..], b);
      assert (a + b)[1..] == a[1..] + b;
    }
  }

  lemma TypeofText(flat: Flat, typeName: string)
    ensures
      var last := [Spliced(StrictEq, [StringToken(typeName)], Some(JString(typeName)))];
      ([Typeof] + flat.text) + TailText(flat.tail + last)
      == [Typeof] + (flat.text + TailText(flat.tail)) + [Operator(StrictEq), StringToken(typeName)]
  {
    var last := [Spliced(StrictEq, [StringToken(typeName)], Some(JString(typeName)))];
    TailTextConcat(flat.tail, last);
    TailTextCons(StrictEq, [StringToken(typeName)], Some(JString(typeName)), []);
    assert last + [] == last;
  }

  lemma TypeofReads(e: Node, typeName: string)
    requires SplitReads(Split(e), Emit(e))
    ensures IsExpression([Typeof] + Emit(e) + [Operator(StrictEq), StringToken(typeName)], TypeofTree(e, typeName))
  {
    var flat := Split(e);
    var last := [Spliced(StrictEq, [StringToken(typeName)], Some(JString(typeName)))];
    PrefixedIsUnary(Typeof, flat.text, flat.tree);
    AtomIsUnary(StringToken(typeName), JString(typeName));
    OperandsAreExpression([Typeof] + flat.text, Prefixed(Typeof, flat.tree), flat.tail + last);
    TypeofText(flat, typeName);
  }

  lemma InstanceOfReads(n: Node)
    requires n.InstanceOf? && Reads(n.e) && SplitReads(Split(n.e), Emit(n.e))
    ensures IsUnary(Emit(n), UnarySplit(n))
  {
    if n.typeName in PRIMITIVE_TYPES {
      TypeofReads(n.e, n.typeName);
      ParenthesizedIsUnary([Typeof] + Emit(n.e) + [Operator(StrictEq), StringToken(n.typeName)], TypeofTree(n.e, n.typeName));
    } else {
      ReferenceIsUnary(n.typeName);
      UnaryIsExpression([Identifier(n.typeName)], Reference(n.typeName));
      Call2IsUnary(HasInstance, [Identifier(n.typeName)], Reference(n.typeName), Emit(n.e), ParsedTree(n.e));
    }
  }

  lemma AffixReads(n: Node)
    requires n.Affix? && Reads(n.subject) && Reads(n.affix)
    ensures IsUnary(Emit(n), UnarySplit(n))
  {
    var a, b := Call(AssertString, Emit(n.subject)), Call(AssertString, Emit(n.affix));
    var ta, tb := Called1(AssertString, ParsedTree(n.subject)), Called1(AssertString, ParsedTree(n.affix));
    Call1IsUnary(AssertString, Emit(n.subject), ParsedTree(n.subject));
    Call1IsUnary(AssertString, Emit(n.affix), ParsedTree(n.affix));
    UnaryIsExpression(a, ta);
    UnaryIsExpression(b, tb);
    Call2IsUnary(CallAffix(n.atEnd), a, ta, b, tb);
  }

  lemma LiteralReads(n: Node)
    requires n.NullLiteral? || n.BooleanLiteral? || n.NumberLiteral? || n.StringLiteral? || n.Ref?
    ensures IsUnary(Emit(n), UnarySplit(n))
  {
    match n
    case NullLiteral => AtomIsUnary(NullToken, JNull);
    case BooleanLiteral(b) => AtomIsUnary(BooleanToken(b), JBoolean(b));
    case NumberLiteral(r) => NumberReads(r);
    case StringLiteral(s) => AtomIsUnary(StringToken(s), JString(s));
    case Ref(name) => ReferenceIsUnary(Mangle(name));
  }

  lemma PrefixLikeReads(n: Node)
    requires (n.Not? || n.Size? || n.IsDefined?) && Reads(n.e)
    ensures IsUnary(Emit(n), UnarySplit(n))
  {
    match n
    case Not(e) =>
      ParenthesizedIsUnary(Emit(e), ParsedTree(e));
      PrefixedIsUnary(Bang, Parenthesized(Emit(e)), ParsedTree(e));
    case Size(e) => Call1IsUnary(GetSize, Emit(e), ParsedTree(e));
    case IsDefined(e) => TryIsUnary(Emit(e), ParsedTree(e));
  }

  lemma TripleReads(n: Node)
    requires (n.Quantified? || n.Filter?) && Reads(n.collection) && Reads(n.predicate_)
    ensures IsUnary(Emit(n), UnarySplit(n))
  {
    var p, c := n.predicate_, n.collection;
    var t := if n.Quantified? then Iteration(n.q) else Filtering;
    TripleIsUnary(t, Emit(p), ParsedTree(p), Emit(p), ParsedTree(p), Emit(c), ParsedTree(c));
  }

  lemma SubstringReads(n: Node)
    requires n.Substring? && Reads(n.subject) && Reads(n.start) && Reads(n.end)
    ensures IsUnary(Emit(n), UnarySplit(n))
  {
    TripleIsUnary(Substringing, Emit(n.start), ParsedTree(n.start), Emit(n.end), ParsedTree(n.end),
                  Emit(n.subject), ParsedTree(n.subject));
  }

  /** Whatever the node, the parser finds `ParsedTree` in its text. */
  lemma {:induction false} NodeReads(n: Node)
    requires Legal(n)
    ensures SplitReads(Split(n), Emit(n)) && Reads(n)
    decreases n, 2
  {
    NodeSplits(n);
    SplitMeansReads(n);
  }

  lemma {:induction false} NodeSplits(n: Node)
    requires Legal(n)
    ensures SplitReads(Split(n), Emit(n))
    decreases n, 1
  {
    match n
    case Compare(_, left, right) => NodeReads(left); NodeReads(right); CompareReads(n);
    case IsEmpty(e) => NodeReads(e); IsEmptyReads(n);
    case And(args) => ArgsRead(args); ConnectiveReads(n, LogicalAnd, args);
    case Or(args) => ArgsRead(args); ConnectiveReads(n, LogicalOr, args);
    case Unknown(_) =>
    case _ => UnaryNodeReads(n); NoOperand(Emit(n), UnarySplit(n));
  }

  lemma {:induction false} ArgsRead(args: seq<Node>)
    requires forall i | 0 <= i < |args| :: Legal(args[i])
    ensures forall i | 0 <= i < |args| :: Reads(args[i])
    decreases args, 0
  {
    forall i | 0 <= i < |args| ensures Reads(args[i]) { NodeReads(args[i]); }
  }

  lemma {:induction false} UnaryNodeReads(n: Node)
    requires Legal(n) && !n.Compare? && !n.IsEmpty? && !n.And? && !n.Or?
    ensures IsUnary(Emit(n), UnarySplit(n))
    decreases n, 0
  {
    match n
    case Not(e) => NodeReads(e); PrefixLikeReads(n);
    case Size(e) => NodeReads(e); PrefixLikeReads(n);
    case IsDefined(e) => NodeReads(e); PrefixLikeReads(n);
    case InstanceOf(e, _) => NodeReads(e); InstanceOfReads(n);
    case Quantified(_, collection, p) => NodeReads(collection); NodeReads(p); TripleReads(n);
    case Filter(collection, p) => NodeReads(collection); NodeReads(p); TripleReads(n);
    case Affix(_, subject, affix) => NodeReads(subject); NodeReads(affix); AffixReads(n);
    case Contains(a, b) =>
      NodeReads(a); NodeReads(b);
      Call2IsUnary(CallContains, Emit(a), ParsedTree(a), Emit(b), ParsedTree(b));
    case Matches(a, b) =>
      NodeReads(a); NodeReads(b);
      Call2IsUnary(CallMatches, Emit(a), ParsedTree(a), Emit(b), ParsedTree(b));
    case Substring(subject, start, end) => NodeReads(subject); NodeReads(start); NodeReads(end); SubstringReads(n);
    case Member(a, b, allowMapAccess) =>
      NodeReads(a); NodeReads(b);
      Call2IsUnary(AccessProperty(allowMapAccess), Emit(a), ParsedTree(a), Emit(b), ParsedTree(b));
    case _ => LiteralReads(n);
  }
}
