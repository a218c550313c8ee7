/** The parser on texts made of operands and operators. */
module JsSyntaxProofs {
  import opened Wrappers
  import opened Expression
  import opened JsSyntax

  function Outcome(tree: Option<Js>, rest: seq<Token>): Parse {
    if tree.Some? then Parsed(tree.value, rest) else NoParse
  }

  /** The parser reads `text` as a unary expression, or fails on it, whatever follows. */
  ghost predicate IsUnary(text: seq<Token>, tree: Option<Js>) {
    forall rest :: ParseUnary(text + rest) == Outcome(tree, rest)
  }

  predicate Ends(rest: seq<Token>) {
    rest == [] || !rest[0].Operator?
  }

  /** The parser reads `text` as an expression, or fails on it, where no operator follows. */
  ghost predicate IsExpression(text: seq<Token>, tree: Option<Js>) {
    forall rest | Ends(rest) :: ParseExpression(text + rest) == Outcome(tree, rest)
  }

  // ---- Operands and operators ---------------------------------------------------------------------

  /** An operator, the text of the operand that follows, and what that text parses to. */
  datatype Spliced = Spliced(op: BinaryOp, text: seq<Token>, tree: Option<Js>)

  function TailText(tail: seq<Spliced>): seq<Token> {
    if tail == [] then [] else [Operator(tail[0].op)] + tail[0].text + TailText(tail[1..])
  }

  function Operands(tail: seq<Spliced>): Option<seq<Operand>> {
    if tail == [] then Some([])
    else
      var rest := Operands(tail[1..]);
      if tail[0].tree.None? || rest.None? then None else Some([Operand(tail[0].op, tail[0].tree.value)] + rest.value)
  }

  ghost predicate Readable(tail: seq<Spliced>) {
    forall i | 0 <= i < |tail| :: IsUnary(tail[i].text, tail[i].tree)
  }

  function TreeOf(head: Option<Js>, tail: seq<Spliced>): Option<Js> {
    if head.None? || Operands(tail).None? then None else Some(Nest(head.value, Operands(tail).value))
  }

  lemma OperandHead(op: BinaryOp, after: seq<Token>)
    ensures ParseOperands([Operator(op)] + after)
         == var p := ParseUnary(after);
            if p.NoParse? then NoTail
            else
              var q := ParseOperands(p.rest);
              if q.NoTail? then NoTail else ParsedTail([Operand(op, p.tree)] + q.operands, q.rest)
  {
    assert ([Operator(op)] + after)[1..] == after;
  }

  lemma OperandEnd(rest: seq<Token>)
    requires Ends(rest)
    ensures ParseOperands(rest) == ParsedTail([], rest)
  { }

  lemma {:induction false} OperandsParse(tail: seq<Spliced>, rest: seq<Token>)
    requires Readable(tail) && Ends(rest)
    ensures ParseOperands(TailText(tail) + rest)
         == if Operands(tail).None? then NoTail else ParsedTail(Operands(tail).value, rest)
    decreases |tail|
  {
    if tail == [] {
      OperandEnd(rest);
      assert TailText(tail) + rest == rest;
    } else {
      var after := TailText(tail[1..]) + rest;
      assert TailText(tail) + rest == [Operator(tail[0].op)] + (tail[0].text + after);
      OperandHead(tail[0].op, tail[0].text + after);
      assert ParseUnary(tail[0].text + after) == Outcome(tail[0].tree, after);
      OperandsParse(tail[1..], rest);
    }
  }

  lemma ExpressionHead(ts: seq<Token>)
    ensures ParseExpression(ts)
         == var p := ParseUnary(ts);
            if p.NoParse? then NoParse
            else
              var q := ParseOperands(p.rest);
              if q.NoTail? then NoParse else Parsed(Nest(p.tree, q.operands), q.rest)
  { }

  lemma OperandsAreExpression(text: seq<Token>, head: Option<Js>, tail: seq<Spliced>)
    requires IsUnary(text, head) && Readable(tail)
    ensures IsExpression(text + TailText(tail), TreeOf(head, tail))
  {
    forall rest | Ends(rest)
      ensures ParseExpression(text + TailText(tail) + rest) == Outcome(TreeOf(head, tail), rest)
    {
      var after := TailText(tail) + rest;
      assert text + TailText(tail) + rest == text + after;
      ExpressionHead(text + after);
      assert ParseUnary(text + after) == Outcome(head, after);
      OperandsParse(tail, rest);
    }
  }

  lemma NestNothing(head: Js)
    ensures Nest(head, []) == head
  {
    assert NestLevel(3, head, []) == Nesting(head, []);
    assert NestLevel(2, head, []) == Nesting(head, []);
    assert NestLevel(1, head, []) == Nesting(head, []);
  }

  lemma UnaryTree(head: Option<Js>)
    ensures TreeOf(head, []) == head
  {
    if head.Some? {
      NestNothing(head.value);
    }
  }

  lemma UnaryIsExpression(text: seq<Token>, tree: Option<Js>)
    requires IsUnary(text, tree)
    ensures IsExpression(text, tree)
  {
    OperandsAreExpression(text, tree, []);
    UnaryTree(tree);
    assert text + TailText([]) == text;
  }

  lemma PrimaryHead(ts: seq<Token>)
    requires ts != [] && ts[0] != Bang && ts[0] != Minus && ts[0] != Typeof
    ensures ParseUnary(ts) == ParsePrimary(ts)
  { }

  // ---- Unary expressions --------------------------------------------------------------------------

  lemma UpTo(text: seq<Token>, tree: Option<Js>, end: Token, rest: seq<Token>)
    requires IsExpression(text, tree) && !end.Operator?
    ensures ParseUpTo(text + ([end] + rest), end) == Outcome(tree, rest)
  {
    assert Ends([end] + rest);
    assert ([end] + rest)[1..] == rest;
  }

  lemma OpenHead(after: seq<Token>)
    ensures ParseUnary([Open] + after) == ParseUpTo(after, Close)
  {
    assert ([Open] + after)[1..] == after;
  }

  lemma ParenthesizedIsUnary(text: seq<Token>, tree: Option<Js>)
    requires IsExpression(text, tree)
    ensures IsUnary(Parenthesized(text), tree)
  {
    forall rest ensures ParseUnary(Parenthesized(text) + rest) == Outcome(tree, rest) {
      assert Parenthesized(text) + rest == [Open] + (text + ([Close] + rest));
      OpenHead(text + ([Close] + rest));
      UpTo(text, tree, Close, rest);
    }
  }

  function Prefixed(token: Token, tree: Option<Js>): Option<Js> {
    if tree.None? then None
    else if token == Bang then Some(JNot(tree.value))
    else if token == Minus then Some(JNegate(tree.value))
    else Some(JTypeof(tree.value))
  }

  lemma PrefixedIsUnary(token: Token, text: seq<Token>, tree: Option<Js>)
    requires token == Bang || token == Minus || token == Typeof
    requires IsUnary(text, tree)
    ensures IsUnary([token] + text, Prefixed(token, tree))
  {
    forall rest ensures ParseUnary([token] + text + rest) == Outcome(Prefixed(token, tree), rest) {
      assert ([token] + text + rest)[1..] == text + rest;
    }
  }

  lemma AtomIsUnary(token: Token, tree: Js)
    requires match token
             case NumberToken(n) => tree == JNumber(n)
             case StringToken(s) => tree == JString(s)
             case BooleanToken(b) => tree == JBoolean(b)
             case NullToken => tree == JNull
             case _ => false
    ensures IsUnary([token], Some(tree))
  {
    forall rest ensures ParseUnary([token] + rest) == Outcome(Some(tree), rest) {
      assert ([token] + rest)[1..] == rest;
    }
  }

  /** A name parses if one can refer to it. */
  function Reference(name: string): Option<Js> {
    if IsReference(name) then Some(JVariable(name)) else None
  }

  lemma ReferenceIsUnary(name: string)
    ensures IsUnary([Identifier(name)], Reference(name))
  {
    forall rest ensures ParseUnary([Identifier(name)] + rest) == Outcome(Reference(name), rest) {
      assert ([Identifier(name)] + rest)[1..] == rest;
    }
  }

  function Tried(tree: Option<Js>): Option<Js> {
    if tree.None? then None else Some(JTry(tree.value))
  }

  lemma TryHead(after: seq<Token>)
    ensures ParseUnary([TryOpen] + after)
         == var p := ParseUpTo(after, TryClose); if p.NoParse? then NoParse else Parsed(JTry(p.tree), p.rest)
  {
    assert ([TryOpen] + after)[1..] == after;
  }

  lemma TryIsUnary(text: seq<Token>, tree: Option<Js>)
    requires IsExpression(text, tree)
    ensures IsUnary([TryOpen] + text + [TryClose], Tried(tree))
  {
    forall rest ensures ParseUnary([TryOpen] + text + [TryClose] + rest) == Outcome(Tried(tree), rest) {
      assert [TryOpen] + text + [TryClose] + rest == [TryOpen] + (text + ([TryClose] + rest));
      TryHead(text + ([TryClose] + rest));
      UpTo(text, tree, TryClose, rest);
    }
  }

  function Called1(h: Helper, a: Option<Js>): Option<Js> {
    if a.None? then None else Some(JCall(h, [a.value]))
  }

  function Called2(h: Helper, a: Option<Js>, b: Option<Js>): Option<Js> {
    if a.None? || b.None? then None else Some(JCall(h, [a.value, b.value]))
  }

  lemma Call1IsUnary(h: Helper, text: seq<Token>, tree: Option<Js>)
    requires IsExpression(text, tree)
    ensures IsUnary(Call(h, text), Called1(h, tree))
  {
    forall rest ensures ParseUnary(Call(h, text) + rest) == Outcome(Called1(h, tree), rest) {
      LastArgument(text, tree, rest);
      assert Call(h, text) + rest == [HelperOpen(h)] + (text + ([Close] + rest));
      HelperHead(h, text + ([Close] + rest));
    }
  }

  lemma LastArgument(text: seq<Token>, tree: Option<Js>, rest: seq<Token>)
    requires IsExpression(text, tree)
    ensures ParseArguments(text + ([Close] + rest)) == if tree.None? then NoList else ParsedList([tree.value], rest)
  {
    assert Ends([Close] + rest);
    assert ([Close] + rest)[1..] == rest;
  }

  lemma TwoArguments(text1: seq<Token>, tree1: Option<Js>, text2: seq<Token>, tree2: Option<Js>, rest: seq<Token>)
    requires IsExpression(text1, tree1) && IsExpression(text2, tree2)
    ensures ParseArguments(text1 + ([Comma] + (text2 + ([Close] + rest))))
         == if tree1.None? || tree2.None? then NoList else ParsedList([tree1.value, tree2.value], rest)
  {
    var after := text2 + ([Close] + rest);
    LastArgument(text2, tree2, rest);
    assert Ends([Comma] + after) && ([Comma] + after)[1..] == after;
    assert ParseExpression(text1 + ([Comma] + after)) == Outcome(tree1, [Comma] + after);
  }

  lemma Call2Parses(
    h: Helper, text1: seq<Token>, tree1: Option<Js>, text2: seq<Token>, tree2: Option<Js>, rest: seq<Token>
  )
    requires IsExpression(text1, tree1) && IsExpression(text2, tree2)
    ensures ParseUnary(Call(h, text1 + [Comma] + text2) + rest) == Outcome(Called2(h, tree1, tree2), rest)
  {
    var after := text1 + ([Comma] + (text2 + ([Close] + rest)));
    TwoArguments(text1, tree1, text2, tree2, rest);
    Call2Text(h, text1, text2, rest);
    HelperHead(h, after);
  }

  lemma Call2Text(h: Helper, text1: seq<Token>, text2: seq<Token>, rest: seq<Token>)
    ensures Call(h, text1 + [Comma] + text2) + rest == [HelperOpen(h)] + (text1 + ([Comma] + (text2 + ([Close] + rest))))
  { }

  lemma HelperHead(h: Helper, after: seq<Token>)
    ensures ParseUnary([HelperOpen(h)] + after)
         == var p := ParseArguments(after); if p.NoList? then NoParse else Parsed(JCall(h, p.trees), p.rest)
  {
    assert ([HelperOpen(h)] + after)[1..] == after;
  }

  lemma Call2IsUnary(h: Helper, text1: seq<Token>, tree1: Option<Js>, text2: seq<Token>, tree2: Option<Js>)
    requires IsExpression(text1, tree1) && IsExpression(text2, tree2)
    ensures IsUnary(Call(h, text1 + [Comma] + text2), Called2(h, tree1, tree2))
  {
    forall rest ensures ParseUnary(Call(h, text1 + [Comma] + text2) + rest) == Outcome(Called2(h, tree1, tree2), rest) {
      Call2Parses(h, text1, tree1, text2, tree2, rest);
    }
  }

  datatype Triple = Iteration(q: Quantifier) | Filtering | Substringing

  function TripleOpen(t: Triple): Token {
    match t
    case Iteration(q) => IterateOpen(q)
    case Filtering => FilterOpen
    case Substringing => SubstringOpen
  }

  function TripleEnds(t: Triple): (Token, Token) {
    match t
    case Iteration(_) => (IterateElse, IterateClose)
    case Filtering => (FilterElse, FilterClose)
    case Substringing => (Comma, SubstringClose)
  }

  function TripleTree(t: Triple, a: Option<Js>, b: Option<Js>, c: Option<Js>): Option<Js> {
    if a.None? || b.None? || c.None? then None
    else
      match t
      case Iteration(q) => Some(JIterate(q, a.value, b.value, c.value))
      case Filtering => Some(JFilter(a.value, b.value, c.value))
      case Substringing => Some(JSubstring(a.value, b.value, c.value))
  }

  function TripleText(t: Triple, a: seq<Token>, b: seq<Token>, c: seq<Token>): seq<Token> {
    [TripleOpen(t)] + a + [TripleEnds(t).0] + b + [TripleEnds(t).1] + c + [Close]
  }

  lemma ThreeExpressions(
    a: seq<Token>, ta: Option<Js>, b: seq<Token>, tb: Option<Js>, c: seq<Token>, tc: Option<Js>,
    end1: Token, end2: Token, rest: seq<Token>
  )
    requires IsExpression(a, ta) && IsExpression(b, tb) && IsExpression(c, tc)
    requires !end1.Operator? && !end2.Operator?
    ensures ParseThree(a + ([end1] + (b + ([end2] + (c + ([Close] + rest))))), end1, end2, Close)
         == if ta.None? || tb.None? || tc.None? then NoList else ParsedList([ta.value, tb.value, tc.value], rest)
  {
    UpTo(a, ta, end1, b + ([end2] + (c + ([Close] + rest))));
    UpTo(b, tb, end2, c + ([Close] + rest));
    UpTo(c, tc, Close, rest);
  }

  lemma TripleHead(t: Triple, after: seq<Token>)
    ensures ParseUnary([TripleOpen(t)] + after)
         == var p := ParseThree(after, TripleEnds(t).0, TripleEnds(t).1, Close);
            if p.NoList? then NoParse
            else Outcome(TripleTree(t, Some(p.trees[0]), Some(p.trees[1]), Some(p.trees[2])), p.rest)
  {
    var ts := [TripleOpen(t)] + after;
    assert ts[1..] == after;
    PrimaryHead(ts);
  }

  lemma TripleParses(
    t: Triple, a: seq<Token>, ta: Option<Js>, b: seq<Token>, tb: Option<Js>, c: seq<Token>, tc: Option<Js>, rest: seq<Token>
  )
    requires IsExpression(a, ta) && IsExpression(b, tb) && IsExpression(c, tc)
    ensures ParseUnary(TripleText(t, a, b, c) + rest) == Outcome(TripleTree(t, ta, tb, tc), rest)
  {
    var (end1, end2) := TripleEnds(t);
    var after := a + ([end1] + (b + ([end2] + (c + ([Close] + rest)))));
    ThreeExpressions(a, ta, b, tb, c, tc, end1, end2, rest);
    TripleHead(t, after);
    TripleTextHead(t, a, b, c, rest);
  }

  lemma TripleTextHead(t: Triple, a: seq<Token>, b: seq<Token>, c: seq<Token>, rest: seq<Token>)
    ensures TripleText(t, a, b, c) + rest
         == [TripleOpen(t)] + (a + ([TripleEnds(t).0] + (b + ([TripleEnds(t).1] + (c + ([Close] + rest))))))
  { }

  lemma TripleIsUnary(
    t: Triple, a: seq<Token>, ta: Option<Js>, b: seq<Token>, tb: Option<Js>, c: seq<Token>, tc: Option<Js>
  )
    requires IsExpression(a, ta) && IsExpression(b, tb) && IsExpression(c, tc)
    ensures IsUnary(TripleText(t, a, b, c), TripleTree(t, ta, tb, tc))
  {
    forall rest ensures ParseUnary(TripleText(t, a, b, c) + rest) == Outcome(TripleTree(t, ta, tb, tc), rest) {
      TripleParses(t, a, ta, b, tb, c, tc, rest);
    }
  }
}
