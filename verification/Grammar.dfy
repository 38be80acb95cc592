/** Reading printed expressions back: the lexical grammar of words, quoted strings
    and punctuators, and the expression grammar from primary expressions to the
    conditional operator (of ECMA-262, the parts of sections 12.7 to 12.9 and 13.1
    to 13.14 that names, strings, the words true, false and null, accesses, calls,
    updates and operators need). */
module Grammar {
  import opened Prelude
  import opened Expressions

  datatype Token = Word(text: string) | Quoted(text: string) | Punct(text: string)

  // ---------------------------------------------------------------------
  // Tokens
  // ---------------------------------------------------------------------

  predicate WordStart(c: char) {
    IsLetter(c) || c == '_' || c == '$'
  }

  predicate WordChar(c: char) {
    WordStart(c) || '0' <= c <= '9'
  }

  predicate IsWord(s: string) {
    s != [] && WordStart(s[0]) && forall i :: 0 <= i < |s| ==> WordChar(s[i])
  }

  /** No identifier is one of these: the reserved words of section 12.7.2, those of
      strict mode and of modules, and the words of an asynchronous function. */
  const RESERVED: set<string> := {
    "await", "break", "case", "catch", "class", "const", "continue", "debugger", "default", "delete", "do", "else", "enum", "export", "extends",
    "false", "finally", "for", "function", "if", "import", "in", "instanceof", "new", "null", "return", "super", "switch", "this", "throw",
    "true", "try", "typeof", "var", "void", "while", "with", "yield",
    "let", "static", "implements", "interface", "package", "private", "protected", "public", "async"}

  /** Words that are values. */
  const LITERAL_WORDS: set<string> := {"true", "false", "null"}

  const PUNCT2: set<string> := {"=>", "==", "!=", "<=", ">=", "&&", "||", "??", "++", "--", "+=", "-=", "*=", "/=", "%=", "&=", "|=", "^=", "<<", ">>",
                                "**", "?."}
  const PUNCT3: set<string> := {"===", "!==", ">>>", "<<=", ">>=", "**=", "&&=", "||=", "??=", "..."}
  const PUNCT4: set<string> := {">>>="}
  const PUNCT1: string := "{}()[];,<>+-*/%&|^!~?:=."

  /** The length of the longest punctuator that `s` starts with. */
  function MunchLength(s: string): (n: nat)
    ensures n <= |s|
  {
    if |s| >= 4 && s[..4] in PUNCT4 then 4
    else if |s| >= 3 && s[..3] in PUNCT3 then 3
    else if |s| >= 2 && s[..2] in PUNCT2 then 2
    else if |s| >= 1 && s[0] in PUNCT1 then 1
    else 0
  }

  function WordLength(s: string): (n: nat)
    ensures n <= |s|
  {
    if s == [] || !WordChar(s[0]) then 0 else 1 + WordLength(s[1..])
  }

  predicate IsQuote(c: char) {
    c == '"' || c == '\''
  }

  /** How far a string goes that an opening quote has begun, up to and with the quote
      that ends it; nothing when no quote does on the same line. What is escaped is
      passed over. */
  function QuotedLength(s: string, quote: char): (n: nat)
    ensures n <= |s|
  {
    if s == [] || s[0] == '\n' || s[0] == '\r' then 0
    else if s[0] == quote then 1
    else
      var skip := if s[0] == '\\' && |s| > 1 then 2 else 1;
      var n := QuotedLength(s[skip..], quote);
      if n == 0 then 0 else skip + n
  }

  /** The length of the token that a text begins with; nothing when it begins with
      none. */
  function TokenLength(s: string): (n: nat)
    requires s != []
    ensures n <= |s|
  {
    if WordStart(s[0]) then WordLength(s)
    else if IsQuote(s[0]) then (if QuotedLength(s[1..], s[0]) == 0 then 0 else 1 + QuotedLength(s[1..], s[0]))
    else MunchLength(s)
  }

  function TokenOf(text: string): Token
    requires text != []
  {
    if WordStart(text[0]) then Word(text) else if IsQuote(text[0]) then Quoted(text) else Punct(text)
  }

  function Prepend(t: Token, ts: Option<seq<Token>>): Option<seq<Token>> {
    match ts
    case None => None
    case Some(rest) => Some([t] + rest)
  }

  /** Words, strings and longest punctuators, spaces between them dropped. */
  function Lex(s: string): Option<seq<Token>>
    decreases |s|
  {
    if s == [] then Some([])
    else if s[0] == ' ' then Lex(s[1..])
    else
      var n := TokenLength(s);
      if n == 0 then None else Prepend(TokenOf(s[..n]), Lex(s[n..]))
  }

  // ---------------------------------------------------------------------
  // Syntax trees
  // ---------------------------------------------------------------------

  datatype Tree =
    | Name(name: string)
    | Constant(text: string)
    | Member(obj: Tree, prop: string)
    | Index(obj: Tree, index: Tree)
    | Apply(callee: Tree, args: seq<Tree>)
    | Infix(left: Tree, op: BinaryOp, right: Tree)
    | Prefix(operator: string, operand: Tree)
    | Update(operator: string, operand: Tree, prefix: bool)
    | Cond(condition: Tree, whenTrue: Tree, whenFalse: Tree)

  /** The rung of an operator's production on the ladder from AssignmentExpression
      (1) down to MultiplicativeExpression (13): sections 13.7 to 13.13. */
  function Rung(op: BinaryOp): nat {
    match op
    case LogicalOr => 4
    case LogicalAnd => 5
    case BitOr => 6
    case BitXor => 7
    case BitAnd => 8
    case LooseEq | LooseNeq | StrictEq | StrictNeq => 9
    case Less | Greater | LessEq | GreaterEq | InstanceOf | In => 10
    case ShiftLeft | ShiftRight | ShiftRightZero => 11
    case Plus | Minus => 12
    case Times | Over | Modulo => 13
    case _ => 0
  }

  /** The left-associative operators, without `??`. */
  predicate LeftAssociative(op: BinaryOp) {
    4 <= Rung(op) <= 13
  }

  predicate IsPrefixOp(op: string) {
    op == "!" || op == "-" || op == "+" || op == "~"
  }

  predicate IsUpdateOp(op: string) {
    op == "++" || op == "--"
  }

  /** An increment or a decrement, before or after its operand. */
  predicate IsUpdate(t: Token) {
    t.Punct? && IsUpdateOp(t.text)
  }

  /** What an update may be applied to. */
  predicate IsTarget(t: Tree) {
    t.Name? || t.Member? || t.Index?
  }

  function OpToken(op: BinaryOp): Token {
    if op.InstanceOf? || op.In? then Word(OpText(op)) else Punct(OpText(op))
  }

  function PunctOp(s: string): Option<BinaryOp> {
    if s == "||" then Some(LogicalOr)
    else if s == "&&" then Some(LogicalAnd)
    else if s == "|" then Some(BitOr)
    else if s == "^" then Some(BitXor)
    else if s == "&" then Some(BitAnd)
    else if s == "==" then Some(LooseEq)
    else if s == "!=" then Some(LooseNeq)
    else if s == "===" then Some(StrictEq)
    else if s == "!==" then Some(StrictNeq)
    else if s == "<" then Some(Less)
    else if s == ">" then Some(Greater)
    else if s == "<=" then Some(LessEq)
    else if s == ">=" then Some(GreaterEq)
    else if s == "<<" then Some(ShiftLeft)
    else if s == ">>" then Some(ShiftRight)
    else if s == ">>>" then Some(ShiftRightZero)
    else if s == "+" then Some(Plus)
    else if s == "-" then Some(Minus)
    else if s == "*" then Some(Times)
    else if s == "/" then Some(Over)
    else if s == "%" then Some(Modulo)
    else None
  }

  /** The binary operator a token stands for, where one may stand. */
  function OpOf(t: Token): Option<BinaryOp> {
    match t
    case Word(s) => if s == "in" then Some(In) else if s == "instanceof" then Some(InstanceOf) else None
    case Quoted(_) => None
    case Punct(s) => PunctOp(s)
  }

  lemma OpOfToken(op: BinaryOp)
    requires LeftAssociative(op)
    ensures OpOf(OpToken(op)) == Some(op)
  {
  }

  // ---------------------------------------------------------------------
  // Parsing
  // ---------------------------------------------------------------------

  datatype Parsed = Parsed(tree: Tree, rest: seq<Token>)

  /** ConditionalExpression. */
  function ParseConditional(ts: seq<Token>): (p: Option<Parsed>)
    ensures p.Some? ==> |p.value.rest| < |ts|
    decreases |ts|, 6
  {
    match ParseBinary(1, ts)
    case None => None
    case Some(c) => ConditionalRest(c.tree, c.rest)
  }

  /** After a ShortCircuitExpression. */
  function ConditionalRest(c: Tree, ts: seq<Token>): (p: Option<Parsed>)
    ensures p.Some? ==> |p.value.rest| <= |ts|
    decreases |ts|, 0
  {
    if ts == [] || ts[0] != Punct("?") then Some(Parsed(c, ts))
    else match ParseConditional(ts[1..])
      case None => None
      case Some(t) =>
        if t.rest == [] || t.rest[0] != Punct(":") then None
        else match ParseConditional(t.rest[1..])
          case None => None
          case Some(f) => Some(Parsed(Cond(c, t.tree, f.tree), f.rest))
  }

  /** The binary operators of precedence `min` and above, by precedence climbing. */
  function ParseBinary(min: nat, ts: seq<Token>): (p: Option<Parsed>)
    ensures p.Some? ==> |p.value.rest| < |ts|
    decreases |ts|, 5
  {
    match ParseUnary(ts)
    case None => None
    case Some(u) => BinaryRest(u.tree, min, u.rest)
  }

  function BinaryRest(left: Tree, min: nat, ts: seq<Token>): (p: Option<Parsed>)
    ensures p.Some? ==> |p.value.rest| <= |ts|
    decreases |ts|, 0
  {
    if ts == [] || OpOf(ts[0]).None? || Rung(OpOf(ts[0]).value) < min then Some(Parsed(left, ts))
    else
      var op := OpOf(ts[0]).value;
      match ParseBinary(Rung(op) + 1, ts[1..])
      case None => None
      case Some(right) => BinaryRest(Infix(left, op, right.tree), min, right.rest)
  }

  /** UnaryExpression and UpdateExpression. */
  function ParseUnary(ts: seq<Token>): (p: Option<Parsed>)
    ensures p.Some? ==> |p.value.rest| < |ts|
    decreases |ts|, 4
  {
    if ts != [] && ts[0].Punct? && IsPrefixOp(ts[0].text) then
      match ParseUnary(ts[1..])
      case None => None
      case Some(u) => Some(Parsed(Prefix(ts[0].text, u.tree), u.rest))
    else if ts != [] && IsUpdate(ts[0]) then
      match ParseUnary(ts[1..])
      case None => None
      case Some(u) => if IsTarget(u.tree) then Some(Parsed(Update(ts[0].text, u.tree, true), u.rest)) else None
    else
      match ParsePrimary(ts)
      case None => None
      case Some(b) =>
        match PostfixRest(b.tree, b.rest)
        case None => None
        case Some(l) => UpdateRest(l)
  }

  /** After a LeftHandSideExpression. */
  function UpdateRest(l: Parsed): Option<Parsed> {
    if l.rest == [] || !IsUpdate(l.rest[0]) then Some(l)
    else if IsTarget(l.tree) then Some(Parsed(Update(l.rest[0].text, l.tree, false), l.rest[1..]))
    else None
  }

  /** An identifier, a constant, or an expression in parentheses. */
  function ParsePrimary(ts: seq<Token>): (p: Option<Parsed>)
    ensures p.Some? ==> |p.value.rest| < |ts|
    decreases |ts|, 3
  {
    if ts == [] then None
    else if ts[0].Quoted? || (ts[0].Word? && ts[0].text in LITERAL_WORDS) then Some(Parsed(Constant(ts[0].text), ts[1..]))
    else if ts[0].Word? then if ts[0].text in RESERVED then None else Some(Parsed(Name(ts[0].text), ts[1..]))
    else if ts[0] == Punct("(") then
      match ParseConditional(ts[1..])
      case None => None
      case Some(e) => if e.rest == [] || e.rest[0] != Punct(")") then None else Some(Parsed(e.tree, e.rest[1..]))
    else None
  }

  /** Member accesses, element accesses and calls. */
  function PostfixRest(base: Tree, ts: seq<Token>): (p: Option<Parsed>)
    ensures p.Some? ==> |p.value.rest| <= |ts|
    decreases |ts|, 2
  {
    if ts == [] then Some(Parsed(base, ts))
    else if ts[0] == Punct(".") then
      if |ts| > 1 && ts[1].Word? then PostfixRest(Member(base, ts[1].text), ts[2..]) else None
    else if ts[0] == Punct("[") then
      match ParseConditional(ts[1..])
      case None => None
      case Some(e) => if e.rest == [] || e.rest[0] != Punct("]") then None else PostfixRest(Index(base, e.tree), e.rest[1..])
    else if ts[0] == Punct("(") then
      match ParseArguments(ts[1..])
      case None => None
      case Some(a) => PostfixRest(Apply(base, a.args), a.rest)
    else Some(Parsed(base, ts))
  }

  datatype ParsedArgs = ParsedArgs(args: seq<Tree>, rest: seq<Token>)

  /** Arguments after the opening parenthesis. */
  function ParseArguments(ts: seq<Token>): (p: Option<ParsedArgs>)
    ensures p.Some? ==> |p.value.rest| < |ts|
    decreases |ts|, 8
  {
    if ts != [] && ts[0] == Punct(")") then Some(ParsedArgs([], ts[1..]))
    else match ParseConditional(ts)
      case None => None
      case Some(e) => ArgumentsRest([e.tree], e.rest)
  }

  function ArgumentsRest(args: seq<Tree>, ts: seq<Token>): (p: Option<ParsedArgs>)
    ensures p.Some? ==> |p.value.rest| < |ts|
    decreases |ts|, 7
  {
    if ts == [] then None
    else if ts[0] == Punct(")") then Some(ParsedArgs(args, ts[1..]))
    else if ts[0] == Punct(",") then
      match ParseConditional(ts[1..])
      case None => None
      case Some(e) => ArgumentsRest(args + [e.tree], e.rest)
    else None
  }

  /** A whole text as one expression. */
  function ReadExpression(s: string): Option<Tree> {
    match Lex(s)
    case None => None
    case Some(ts) =>
      match ParseConditional(ts)
      case None => None
      case Some(p) => if p.rest == [] then Some(p.tree) else None
  }
}
