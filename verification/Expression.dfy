/** The expression language of the Live Debugger and its compiler to JavaScript.

    The emitted text is a sequence of tokens. Punctuators, literals and identifiers are the tokens of
    ECMA-262. Each fixed run of helper code between two splice points is a single token: what matters here
    is where the spliced operands stand in it, and which names it binds. */
module Expression {
  import opened Wrappers

  datatype CompareOp = Eq | Ne | Gt | Ge | Lt | Le

  datatype Quantifier = Some_ | Every

  datatype Node =
    | NullLiteral
    | BooleanLiteral(b: bool)
    | NumberLiteral(n: real)
    | StringLiteral(s: string)
    | Not(e: Node)
    | Size(e: Node)
    | IsEmpty(e: Node)
    | IsDefined(e: Node)
    | InstanceOf(e: Node, typeName: string)
    | Ref(name: string)
    | Compare(op: CompareOp, left: Node, right: Node)
    | And(args: seq<Node>)
    | Or(args: seq<Node>)
    | Quantified(q: Quantifier, collection: Node, predicate_: Node)
    | Filter(collection: Node, predicate_: Node)
    | Affix(atEnd: bool, subject: Node, affix: Node)
    | Contains(container: Node, element: Node)
    | Matches(subject: Node, regex: Node)
    | Substring(subject: Node, start: Node, end: Node)
    | Member(object_: Node, key: Node, allowMapAccess: bool)
    | Unknown(kind: string)

  datatype CompileError = IllegalIdentifier(name: string) | UnknownNodeType(kind: string)

  // ---- Identifiers ------------------------------------------------------------------------------

  /** The reserved words that start with a letter. */
  function ReservedWords(letter: char): set<string> {
    match letter
    case 'N' => {"NaN"}
    case 'a' => {"await"}
    case 'b' => {"break"}
    case 'c' => {"case", "catch", "class", "const", "continue"}
    case 'd' => {"debugger", "default", "delete", "do"}
    case 'e' => {"else", "enum", "export", "extends"}
    case 'f' => {"false", "finally", "for", "function"}
    case 'i' => {"if", "implements", "import", "in", "instanceof", "interface"}
    case 'l' => {"let"}
    case 'n' => {"new", "null"}
    case 'p' => {"package", "private", "protected", "public"}
    case 'r' => {"return"}
    case 's' => {"static", "switch"}
    case 't' => {"throw", "true", "try", "typeof"}
    case 'v' => {"var", "void"}
    case 'w' => {"while", "with"}
    case 'y' => {"yield"}
    case _ => {}
  }

  const PRIMITIVE_TYPES: set<string> := {"string", "number", "bigint", "boolean", "undefined", "symbol", "null"}

  predicate IsWordChar(c: char) {
    'a' <= c <= 'z' || 'A' <= c <= 'Z' || '0' <= c <= '9' || c == '_' || c == '$'
  }

  predicate IsIdentifier(s: string) {
    && |s| > 0
    && (forall i | 1 <= i < |s| :: IsWordChar(s[i]))
    && (if s[0] == '@' then |s| > 1 else IsWordChar(s[0]) && !('0' <= s[0] <= '9'))
    && s !in ReservedWords(s[0])
  }

  /** The JavaScript name of a reference: `@x` names the debugger variable `$dd_x`. */
  function Mangle(name: string): string {
    if |name| > 0 && name[0] == '@' then "$dd_" + name[1..] else name
  }

  // ---- Tokens -----------------------------------------------------------------------------------

  datatype BinaryOp = StrictEq | StrictNe | Greater | GreaterEq | Less | LessEq | LogicalAnd | LogicalOr

  /** Fixed helper code in front of an argument list. */
  datatype Helper =
    | GetSize
    | GuardCoercion
    | AssertString
    | CallAffix(atEnd: bool)
    | CallContains
    | CallMatches
    | AccessProperty(allowMapAccess: bool)
    | HasInstance

  datatype Token =
    | Open
    | Close
    | Comma
    | Bang
    | Minus
    | Typeof
    | Operator(op: BinaryOp)
    | NumberToken(n: real)
    | StringToken(s: string)
    | BooleanToken(b: bool)
    | NullToken
    | Identifier(name: string)
    | HelperOpen(h: Helper)
    | TryOpen
    | TryClose
    | IterateOpen(q: Quantifier)
    | IterateElse
    | IterateClose
    | FilterOpen
    | FilterElse
    | FilterClose
    | SubstringOpen
    | SubstringClose

  function JsOp(op: CompareOp): BinaryOp {
    match op
    case Eq => StrictEq
    case Ne => StrictNe
    case Gt => Greater
    case Ge => GreaterEq
    case Lt => Less
    case Le => LessEq
  }

  // ---- Emission ---------------------------------------------------------------------------------

  function Call(h: Helper, arguments: seq<Token>): seq<Token> {
    [HelperOpen(h)] + arguments + [Close]
  }

  function Parenthesized(text: seq<Token>): seq<Token> {
    [Open] + text + [Close]
  }

  /** The text of a node whose identifiers are legal. */
  function Emit(n: Node): seq<Token>
    decreases n, 2
  {
    match n
    case NullLiteral => [NullToken]
    case BooleanLiteral(b) => [BooleanToken(b)]
    case NumberLiteral(r) => if r < 0.0 then [Minus, NumberToken(-r)] else [NumberToken(r)]
    case StringLiteral(s) => [StringToken(s)]
    case Not(e) => [Bang] + Parenthesized(Emit(e))
    case Size(e) => Call(GetSize, Emit(e))
    case IsEmpty(e) => Call(GetSize, Emit(e)) + [Operator(StrictEq), NumberToken(0.0)]
    case IsDefined(e) => [TryOpen] + Emit(e) + [TryClose]
    case InstanceOf(e, typeName) =>
      if typeName in PRIMITIVE_TYPES
      then Parenthesized([Typeof] + Emit(e) + [Operator(StrictEq), StringToken(typeName)])
      else Call(HasInstance, [Identifier(typeName)] + [Comma] + Emit(e))
    case Ref(name) => [Identifier(Mangle(name))]
    case Compare(op, left, right) =>
      if op == Eq || op == Ne
      then Parenthesized(Emit(left)) + [Operator(JsOp(op))] + Parenthesized(Emit(right))
      else EmitGuarded(left) + [Operator(JsOp(op))] + EmitGuarded(right)
    case And(args) => if args == [] then [Open, Close] else EmitOperands(LogicalAnd, args)
    case Or(args) => if args == [] then [Open, Close] else EmitOperands(LogicalOr, args)
    case Quantified(q, collection, p) =>
      [IterateOpen(q)] + Emit(p) + [IterateElse] + Emit(p) + [IterateClose] + Emit(collection) + [Close]
    case Filter(collection, p) =>
      [FilterOpen] + Emit(p) + [FilterElse] + Emit(p) + [FilterClose] + Emit(collection) + [Close]
    case Affix(atEnd, subject, affix) =>
      Call(CallAffix(atEnd), Call(AssertString, Emit(subject)) + [Comma] + Call(AssertString, Emit(affix)))
    case Contains(container, element) => Call(CallContains, Emit(container) + [Comma] + Emit(element))
    case Matches(subject, regex) => Call(CallMatches, Emit(subject) + [Comma] + Emit(regex))
    case Substring(subject, start, end) =>
      [SubstringOpen] + Emit(start) + [Comma] + Emit(end) + [SubstringClose] + Emit(subject) + [Close]
    case Member(object_, key, allowMapAccess) =>
      Call(AccessProperty(allowMapAccess), Emit(object_) + [Comma] + Emit(key))
    case Unknown(_) => []
  }

  /** Number literals are compared as they are, other operands go through a guard. */
  function EmitGuarded(n: Node): seq<Token>
    decreases n, 3
  {
    if n.NumberLiteral? then Emit(n) else Call(GuardCoercion, Emit(n))
  }

  function EmitOperands(op: BinaryOp, args: seq<Node>): seq<Token>
    requires args != []
    decreases args, 1
  {
    if |args| == 1 then Parenthesized(Emit(args[0]))
    else Parenthesized(Emit(args[0])) + [Operator(op)] + EmitOperands(op, args[1..])
  }

  function Then(first: Result<(), CompileError>, second: Result<(), CompileError>): Result<(), CompileError> {
    if first.Err? then first else second
  }

  /** The first error the compiler throws, in the order in which it visits the tree. */
  function FirstError(n: Node): Result<(), CompileError>
    decreases n, 1
  {
    match n
    case NullLiteral => Ok(())
    case BooleanLiteral(_) => Ok(())
    case NumberLiteral(_) => Ok(())
    case StringLiteral(_) => Ok(())
    case Not(e) => FirstError(e)
    case Size(e) => FirstError(e)
    case IsEmpty(e) => FirstError(e)
    case IsDefined(e) => FirstError(e)
    case InstanceOf(e, typeName) =>
      if typeName in PRIMITIVE_TYPES || IsIdentifier(typeName) then FirstError(e) else Err(IllegalIdentifier(typeName))
    case Ref(name) => if IsIdentifier(name) then Ok(()) else Err(IllegalIdentifier(name))
    case Compare(_, left, right) => Then(FirstError(left), FirstError(right))
    case And(args) => FirstErrorOf(args)
    case Or(args) => FirstErrorOf(args)
    case Quantified(_, collection, p) => Then(FirstError(collection), FirstError(p))
    case Filter(collection, p) => Then(FirstError(collection), FirstError(p))
    case Affix(_, subject, affix) => Then(FirstError(subject), FirstError(affix))
    case Contains(container, element) => Then(FirstError(container), FirstError(element))
    case Matches(subject, regex) => Then(FirstError(subject), FirstError(regex))
    case Substring(subject, start, end) => Then(FirstError(subject), Then(FirstError(start), FirstError(end)))
    case Member(object_, key, _) => Then(FirstError(object_), FirstError(key))
    case Unknown(kind) => Err(UnknownNodeType(kind))
  }

  function FirstErrorOf(args: seq<Node>): Result<(), CompileError>
    decreases args, 0
  {
    if args == [] then Ok(())
    else Then(FirstError(args[0]), FirstErrorOf(args[1..]))
  }

  function Compile(n: Node): Result<seq<Token>, CompileError> {
    var _ :- FirstError(n);
    Ok(Emit(n))
  }
}
