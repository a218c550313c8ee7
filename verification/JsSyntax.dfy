/** The JavaScript the compiler emits: its syntax trees, and a parser that follows the precedence of
    ECMA-262 (sections 13.5, 13.10, 13.11 and 13.13). The parser reads operands, each with its prefix
    operators, and the binary operators between them; precedence then decides how they nest: relational
    operators bind tightest, then equality, then `&&`, then `||`, all associating to the left. */
module JsSyntax {
  import opened Expression

  datatype Js =
    | JNumber(n: real)
    | JString(s: string)
    | JBoolean(b: bool)
    | JNull
    | JVariable(name: string)
    | JNegate(e: Js)
    | JNot(e: Js)
    | JTypeof(e: Js)
    | JBinary(op: BinaryOp, left: Js, right: Js)
    | JCall(h: Helper, args: seq<Js>)
    | JTry(e: Js)
    | JIterate(q: Quantifier, onItem: Js, onEntry: Js, collection: Js)
    | JFilter(onItem: Js, onEntry: Js, collection: Js)
    | JSubstring(start: Js, end: Js, subject: Js)

  datatype Parse = NoParse | Parsed(tree: Js, rest: seq<Token>)

  datatype ParseList = NoList | ParsedList(trees: seq<Js>, rest: seq<Token>)

  // ---- Precedence -------------------------------------------------------------------------------

  /** An operator and the operand on its right. */
  datatype Operand = Operand(op: BinaryOp, tree: Js)

  datatype Nesting = Nesting(tree: Js, tail: seq<Operand>)

  /** 0 for the operator that binds least. */
  function Precedence(op: BinaryOp): nat {
    match op
    case LogicalOr => 0
    case LogicalAnd => 1
    case StrictEq => 2
    case StrictNe => 2
    case _ => 3
  }

  const UNARY: nat := 4

  /** The longest expression built from operators of precedence `level` or more, and what is left. */
  function NestLevel(level: nat, head: Js, tail: seq<Operand>): (r: Nesting)
    requires level <= UNARY
    ensures |r.tail| <= |tail|
    ensures r.tail != [] ==> Precedence(r.tail[0].op) < level
    decreases |tail|, 10 - level
  {
    if level == UNARY then Nesting(head, tail)
    else
      var left := NestLevel(level + 1, head, tail);
      NestLoop(level, left.tree, left.tail)
  }

  function NestLoop(level: nat, left: Js, tail: seq<Operand>): (r: Nesting)
    requires level < UNARY && (tail != [] ==> Precedence(tail[0].op) <= level)
    ensures |r.tail| <= |tail|
    ensures r.tail != [] ==> Precedence(r.tail[0].op) < level
    decreases |tail|, 0
  {
    if tail != [] && Precedence(tail[0].op) == level then
      var right := NestLevel(level + 1, tail[0].tree, tail[1..]);
      NestLoop(level, JBinary(tail[0].op, left, right.tree), right.tail)
    else Nesting(left, tail)
  }

  function Nest(head: Js, tail: seq<Operand>): Js {
    NestLevel(0, head, tail).tree
  }

  // ---- References -------------------------------------------------------------------------------

  /** The reserved words that start with a letter (section 12.7.2 of ECMA-262), but for `await` and `yield`,
      which a function body outside strict mode may refer to. */
  function JsReservedWords(letter: char): set<string> {
    match letter
    case 'b' => {"break"}
    case 'c' => {"case", "catch", "class", "const", "continue"}
    case 'd' => {"debugger", "default", "delete", "do"}
    case 'e' => {"else", "enum", "export", "extends"}
    case 'f' => {"false", "finally", "for", "function"}
    case 'i' => {"if", "import", "in", "instanceof"}
    case 'n' => {"new", "null"}
    case 'r' => {"return"}
    case 's' => {"super", "switch"}
    case 't' => {"this", "throw", "true", "try", "typeof"}
    case 'v' => {"var", "void"}
    case 'w' => {"while", "with"}
    case _ => {}
  }

  /** A name that is a primary expression by itself: an identifier reference (section 13.1), or `this`. Names
      are written in ASCII, as the compiler's are. */
  predicate IsReference(name: string) {
    || name == "this"
    || (&& |name| > 0 && !('0' <= name[0] <= '9')
        && (forall i | 0 <= i < |name| :: IsWordChar(name[i]))
        && name !in JsReservedWords(name[0]))
  }

  // ---- Parsing ----------------------------------------------------------------------------------

  datatype ParseTail = NoTail | ParsedTail(operands: seq<Operand>, rest: seq<Token>)

  function ParseExpression(ts: seq<Token>): (r: Parse)
    ensures r.Parsed? ==> |r.rest| < |ts|
    decreases |ts|, 10
  {
    match ParseUnary(ts)
    case NoParse => NoParse
    case Parsed(head, rest) =>
      match ParseOperands(rest)
      case NoTail => NoParse
      case ParsedTail(operands, rest') => Parsed(Nest(head, operands), rest')
  }

  /** As many operators with their operands as there are. */
  function ParseOperands(ts: seq<Token>): (r: ParseTail)
    ensures r.ParsedTail? ==> |r.rest| <= |ts|
    decreases |ts|, 0
  {
    if ts != [] && ts[0].Operator? then
      match ParseUnary(ts[1..])
      case NoParse => NoTail
      case Parsed(operand, rest) =>
        match ParseOperands(rest)
        case NoTail => NoTail
        case ParsedTail(operands, rest') => ParsedTail([Operand(ts[0].op, operand)] + operands, rest')
    else ParsedTail([], ts)
  }

  function ParseUnary(ts: seq<Token>): (r: Parse)
    ensures r.Parsed? ==> |r.rest| < |ts|
    decreases |ts|, 4
  {
    if ts == [] then NoParse
    else if ts[0] == Bang || ts[0] == Minus || ts[0] == Typeof then
      match ParseUnary(ts[1..])
      case NoParse => NoParse
      case Parsed(e, rest) =>
        Parsed(if ts[0] == Bang then JNot(e) else if ts[0] == Minus then JNegate(e) else JTypeof(e), rest)
    else ParsePrimary(ts)
  }

  /** An expression followed by the token `end`. */
  function ParseUpTo(ts: seq<Token>, end: Token): (r: Parse)
    ensures r.Parsed? ==> |r.rest| < |ts|
    decreases |ts|, 11
  {
    match ParseExpression(ts)
    case NoParse => NoParse
    case Parsed(e, rest) => if rest != [] && rest[0] == end then Parsed(e, rest[1..]) else NoParse
  }

  /** Arguments separated by commas, up to the closing parenthesis. */
  function ParseArguments(ts: seq<Token>): (r: ParseList)
    ensures r.ParsedList? ==> |r.rest| < |ts|
    decreases |ts|, 11
  {
    match ParseExpression(ts)
    case NoParse => NoList
    case Parsed(e, rest) =>
      if rest == [] then NoList
      else if rest[0] == Close then ParsedList([e], rest[1..])
      else if rest[0] == Comma then
        match ParseArguments(rest[1..])
        case NoList => NoList
        case ParsedList(es, rest') => ParsedList([e] + es, rest')
      else NoList
  }

  /** Three expressions, each followed by its token. */
  function ParseThree(ts: seq<Token>, end1: Token, end2: Token, end3: Token): (r: ParseList)
    ensures r.ParsedList? ==> |r.rest| < |ts| && |r.trees| == 3
    decreases |ts|, 12
  {
    match ParseUpTo(ts, end1)
    case NoParse => NoList
    case Parsed(a, rest1) =>
      match ParseUpTo(rest1, end2)
      case NoParse => NoList
      case Parsed(b, rest2) =>
        match ParseUpTo(rest2, end3)
        case NoParse => NoList
        case Parsed(c, rest3) => ParsedList([a, b, c], rest3)
  }

  function ParsePrimary(ts: seq<Token>): (r: Parse)
    ensures r.Parsed? ==> |r.rest| < |ts|
    decreases |ts|, 3
  {
    if ts == [] then NoParse
    else
      match ts[0]
      case NumberToken(n) => Parsed(JNumber(n), ts[1..])
      case StringToken(s) => Parsed(JString(s), ts[1..])
      case BooleanToken(b) => Parsed(JBoolean(b), ts[1..])
      case NullToken => Parsed(JNull, ts[1..])
      case Identifier(name) => if IsReference(name) then Parsed(JVariable(name), ts[1..]) else NoParse
      case Open => ParseUpTo(ts[1..], Close)
      case TryOpen =>
        (match ParseUpTo(ts[1..], TryClose)
         case NoParse => NoParse
         case Parsed(e, rest) => Parsed(JTry(e), rest))
      case HelperOpen(h) =>
        (match ParseArguments(ts[1..])
         case NoList => NoParse
         case ParsedList(es, rest) => Parsed(JCall(h, es), rest))
      case IterateOpen(q) =>
        (match ParseThree(ts[1..], IterateElse, IterateClose, Close)
         case NoList => NoParse
         case ParsedList(es, rest) => Parsed(JIterate(q, es[0], es[1], es[2]), rest))
      case FilterOpen =>
        (match ParseThree(ts[1..], FilterElse, FilterClose, Close)
         case NoList => NoParse
         case ParsedList(es, rest) => Parsed(JFilter(es[0], es[1], es[2]), rest))
      case SubstringOpen =>
        (match ParseThree(ts[1..], Comma, SubstringClose, Close)
         case NoList => NoParse
         case ParsedList(es, rest) => Parsed(JSubstring(es[0], es[1], es[2]), rest))
      case _ => NoParse
  }

  /** The whole text is one expression. */
  function ParseAll(ts: seq<Token>): Parse {
    match ParseExpression(ts)
    case NoParse => NoParse
    case Parsed(e, rest) => if rest == [] then Parsed(e, []) else NoParse
  }
}
