/** Printing an expression and reading it back gives the expression. */
module RoundTrip {
  import opened Prelude
  import opened Expressions
  import opened Grammar

  // ---------------------------------------------------------------------
  // The fragment
  // ---------------------------------------------------------------------

  predicate IsName(s: string) {
    IsWord(s) && s !in RESERVED
  }

  /** An operand that hides a prefix operator from the printer: where bindings are
      expanded, one of an expression that begins with the operator. */
  predicate Hides(expand: bool, op: string, operand: ExpressionIR) {
    expand && operand.BindingRef? && WouldMerge(op, operand.expression)
  }

  /** Such an operator that runs together with the one before it. */
  predicate HidesSign(expand: bool, op: string, operand: ExpressionIR) {
    Hides(expand, op, operand) && (op == "+" || op == "-")
  }

  /** Names, accesses, calls, reads of refs, left-associative operators, prefix
      operators and conditionals. A binding stands for its name; where bindings are
      expanded, only hiding ones are left. */
  predicate InFragment(expand: bool, e: ExpressionIR) {
    match e
    case Identifier(name) => IsName(name)
    case BindingRef(name, _) => !expand && IsName(name)
    case RefRead(ref, _) => InFragment(expand, ref)
    case Snapshot(ref, args, _) => InFragment(expand, ref) && forall i :: 0 <= i < |args| ==> InFragment(expand, args[i])
    case MethodCall(receiver, method_, args) => InFragment(expand, receiver) && IsWord(method_) && forall i :: 0 <= i < |args| ==> InFragment(expand, args[i])
    case PropertyAccess(object_, property) => InFragment(expand, object_) && IsWord(property)
    case Call(callee, args) => InFragment(expand, callee) && forall i :: 0 <= i < |args| ==> InFragment(expand, args[i])
    case Binary(left, op, right) => LeftAssociative(op) && InFragment(expand, left) && InFragment(expand, right)
    case Unary(op, operand, prefix) => prefix && IsPrefixOp(op) && if Hides(expand, op, operand) then InFragment(expand, operand.expression) else InFragment(expand, operand)
    case Ternary(condition, whenTrue, whenFalse) => InFragment(expand, condition) && InFragment(expand, whenTrue) && InFragment(expand, whenFalse)
    case ElementAccess(object_, index) => InFragment(expand, object_) && InFragment(expand, index)
    case _ => false
  }

  /** No plus stands over a hidden plus, and no minus over a hidden minus. */
  predicate NoHiddenSign(expand: bool, e: ExpressionIR) {
    match e
    case BindingRef(_, expression) => expand ==> NoHiddenSign(expand, expression)
    case RefRead(ref, _) => NoHiddenSign(expand, ref)
    case Snapshot(ref, args, _) => NoHiddenSign(expand, ref) && forall i :: 0 <= i < |args| ==> NoHiddenSign(expand, args[i])
    case MethodCall(receiver, _, args) => NoHiddenSign(expand, receiver) && forall i :: 0 <= i < |args| ==> NoHiddenSign(expand, args[i])
    case PropertyAccess(object_, _) => NoHiddenSign(expand, object_)
    case Call(callee, args) => NoHiddenSign(expand, callee) && forall i :: 0 <= i < |args| ==> NoHiddenSign(expand, args[i])
    case Binary(left, _, right) => NoHiddenSign(expand, left) && NoHiddenSign(expand, right)
    case Unary(op, operand, _) => !HidesSign(expand, op, operand) && NoHiddenSign(expand, operand)
    case Ternary(condition, whenTrue, whenFalse) => NoHiddenSign(expand, condition) && NoHiddenSign(expand, whenTrue) && NoHiddenSign(expand, whenFalse)
    case ElementAccess(object_, index) => NoHiddenSign(expand, object_) && NoHiddenSign(expand, index)
    case _ => true
  }

  predicate Readable(expand: bool, e: ExpressionIR) {
    InFragment(expand, e) && NoHiddenSign(expand, e)
  }

  /** No conditional is the condition of a conditional. */
  predicate NoTernaryCondition(expand: bool, e: ExpressionIR) {
    match e
    case BindingRef(_, expression) => expand ==> NoTernaryCondition(expand, expression)
    case RefRead(ref, _) => NoTernaryCondition(expand, ref)
    case Snapshot(ref, args, _) => NoTernaryCondition(expand, ref) && forall i :: 0 <= i < |args| ==> NoTernaryCondition(expand, args[i])
    case MethodCall(receiver, _, args) => NoTernaryCondition(expand, receiver) && forall i :: 0 <= i < |args| ==> NoTernaryCondition(expand, args[i])
    case PropertyAccess(object_, _) => NoTernaryCondition(expand, object_)
    case Call(callee, args) => NoTernaryCondition(expand, callee) && forall i :: 0 <= i < |args| ==> NoTernaryCondition(expand, args[i])
    case Binary(left, _, right) => NoTernaryCondition(expand, left) && NoTernaryCondition(expand, right)
    case Unary(_, operand, _) => NoTernaryCondition(expand, operand)
    case Ternary(condition, whenTrue, whenFalse) =>
      !condition.Ternary? && NoTernaryCondition(expand, condition) && NoTernaryCondition(expand, whenTrue) && NoTernaryCondition(expand, whenFalse)
    case ElementAccess(object_, index) => NoTernaryCondition(expand, object_) && NoTernaryCondition(expand, index)
    case _ => true
  }

  // ---------------------------------------------------------------------
  // What an expression means as syntax
  // ---------------------------------------------------------------------

  /** The syntax an expression stands for. Reads and snapshots of refs and method
      calls are calls. */
  function Syntax(expand: bool, e: ExpressionIR): Tree
    decreases e
  {
    match e
    case Identifier(name) => Name(name)
    case BindingRef(name, expression) => if expand then Syntax(expand, expression) else Name(name)
    case RefRead(ref, _) => Apply(Syntax(expand, ref), [])
    case Snapshot(ref, args, _) => Apply(Syntax(expand, ref), seq(|args|, i requires 0 <= i < |args| => Syntax(expand, args[i])))
    case MethodCall(receiver, method_, args) =>
      Apply(Member(Syntax(expand, receiver), method_), seq(|args|, i requires 0 <= i < |args| => Syntax(expand, args[i])))
    case PropertyAccess(object_, property) => Member(Syntax(expand, object_), property)
    case Call(callee, args) => Apply(Syntax(expand, callee), seq(|args|, i requires 0 <= i < |args| => Syntax(expand, args[i])))
    case Binary(left, op, right) => Infix(Syntax(expand, left), op, Syntax(expand, right))
    case Unary(op, operand, _) => Prefix(op, Syntax(expand, operand))
    case Ternary(condition, whenTrue, whenFalse) => Cond(Syntax(expand, condition), Syntax(expand, whenTrue), Syntax(expand, whenFalse))
    case ElementAccess(object_, index) => Index(Syntax(expand, object_), Syntax(expand, index))
    case _ => Name("")
  }

  /** A conditional put where the last alternative of `c` is, as reading without
      parentheses does. */
  function Rotate(c: Tree, t: Tree, f: Tree): Tree {
    if c.Cond? then Cond(c.condition, c.whenTrue, Rotate(c.whenFalse, t, f)) else Cond(c, t, f)
  }

  /** What the printed text reads as: the expression, with every conditional in the
      condition of another moved to its last alternative. */
  function ReadsAs(expand: bool, e: ExpressionIR): Tree
    decreases e
  {
    match e
    case Identifier(name) => Name(name)
    case BindingRef(name, expression) => if expand then ReadsAs(expand, expression) else Name(name)
    case RefRead(ref, _) => Apply(ReadsAs(expand, ref), [])
    case Snapshot(ref, args, _) => Apply(ReadsAs(expand, ref), seq(|args|, i requires 0 <= i < |args| => ReadsAs(expand, args[i])))
    case MethodCall(receiver, method_, args) =>
      Apply(Member(ReadsAs(expand, receiver), method_), seq(|args|, i requires 0 <= i < |args| => ReadsAs(expand, args[i])))
    case PropertyAccess(object_, property) => Member(ReadsAs(expand, object_), property)
    case Call(callee, args) => Apply(ReadsAs(expand, callee), seq(|args|, i requires 0 <= i < |args| => ReadsAs(expand, args[i])))
    case Binary(left, op, right) => Infix(ReadsAs(expand, left), op, ReadsAs(expand, right))
    case Unary(op, operand, _) => Prefix(op, ReadsAs(expand, operand))
    case Ternary(condition, whenTrue, whenFalse) => Rotate(ReadsAs(expand, condition), ReadsAs(expand, whenTrue), ReadsAs(expand, whenFalse))
    case ElementAccess(object_, index) => Index(ReadsAs(expand, object_), ReadsAs(expand, index))
    case _ => Name("")
  }

  function ReadsArgs(expand: bool, args: seq<ExpressionIR>, n: nat): seq<Tree>
    requires n <= |args|
  {
    seq(n, i requires 0 <= i < n => ReadsAs(expand, args[i]))
  }

  lemma OnlyTernariesReadAsConditionals(expand: bool, e: ExpressionIR)
    requires InFragment(expand, e)
    ensures ReadsAs(expand, e).Cond? <==> e.Ternary?
  {
  }

  // ---------------------------------------------------------------------
  // Tokens of the printed text
  // ---------------------------------------------------------------------

  function Enclosed(ts: seq<Token>): seq<Token> {
    [Punct("(")] + ts + [Punct(")")]
  }

  function Tokens(expand: bool, e: ExpressionIR, parentPrec: nat, side: Side): seq<Token>
    decreases e, 0
  {
    match e
    case Identifier(name) => [Word(name)]
    case BindingRef(name, expression) => if expand then Tokens(expand, expression, parentPrec, side) else [Word(name)]
    case RefRead(ref, _) => TokensAtomic(expand, ref) + Enclosed([])
    case Snapshot(ref, args, _) => TokensAtomic(expand, ref) + Enclosed(TokensArgs(expand, e, args, |args|))
    case MethodCall(receiver, method_, args) =>
      TokensAtomic(expand, receiver) + [Punct("."), Word(method_)] + Enclosed(TokensArgs(expand, e, args, |args|))
    case PropertyAccess(object_, property) => TokensAtomic(expand, object_) + [Punct("."), Word(property)]
    case Call(callee, args) => TokensAtomic(expand, callee) + Enclosed(TokensArgs(expand, e, args, |args|))
    case Binary(left, op, right) =>
      var result := Tokens(expand, left, Precedence(op), Side.Left) + [OpToken(op)] + Tokens(expand, right, Precedence(op), Side.Right);
      if NeedsParens(Precedence(op), parentPrec, op, side) then Enclosed(result) else result
    case Unary(op, operand, _) =>
      if HidesSign(expand, op, operand) then [Punct(op + op)] + OperandTokens(expand, op, operand.expression.operand)
      else [Punct(op)] + OperandTokens(expand, op, operand)
    case Ternary(condition, whenTrue, whenFalse) =>
      var result := Tokens(expand, condition, TERNARY_PRECEDENCE, Side.Left) + [Punct("?")] + Tokens(expand, whenTrue, 0, Neither) + [Punct(":")] + Tokens(expand, whenFalse, 0, Neither);
      if parentPrec > TERNARY_PRECEDENCE then Enclosed(result) else result
    case ElementAccess(object_, index) => TokensAtomic(expand, object_) + [Punct("[")] + Tokens(expand, index, 0, Neither) + [Punct("]")]
    case _ => []
  }

  /** An operand after its prefix operator. */
  function OperandTokens(expand: bool, op: string, operand: ExpressionIR): seq<Token>
    decreases operand, 1
  {
    var rendered := Tokens(expand, operand, UNARY_PRECEDENCE, Neither);
    if WouldMerge(op, operand) then Enclosed(rendered) else rendered
  }

  function TokensAtomic(expand: bool, e: ExpressionIR): seq<Token>
    decreases e, 1
  {
    if IsAtomic(e) then Tokens(expand, e, 0, Neither) else Enclosed(Tokens(expand, e, 0, Neither))
  }

  function TokensArgs(expand: bool, parent: ExpressionIR, args: seq<ExpressionIR>, n: nat): seq<Token>
    requires n <= |args| && forall i :: 0 <= i < |args| ==> args[i] < parent
    decreases parent, 0, n
  {
    if n == 0 then []
    else if n == 1 then Tokens(expand, args[0], 0, Neither)
    else TokensArgs(expand, parent, args, n - 1) + [Punct(",")] + Tokens(expand, args[n - 1], 0, Neither)
  }

  // ---------------------------------------------------------------------
  // What may follow
  // ---------------------------------------------------------------------

  /** Does not go on with an access, a call or an update. */
  predicate EndsPostfix(rest: seq<Token>) {
    rest == [] || (rest[0] != Punct(".") && rest[0] != Punct("[") && rest[0] != Punct("(") && !IsUpdate(rest[0]))
  }

  /** Begins a unary expression that is not a left-hand side. */
  predicate StartsUnary(t: Token) {
    t.Punct? && (IsPrefixOp(t.text) || IsUpdateOp(t.text))
  }

  /** Binary operators that may follow bind no tighter than `prec`. */
  predicate EndsAt(rest: seq<Token>, prec: nat) {
    EndsPostfix(rest) && (rest == [] || OpOf(rest[0]).None? || Rung(OpOf(rest[0]).value) <= prec)
  }

  predicate EndsBinary(rest: seq<Token>) {
    EndsPostfix(rest) && (rest == [] || OpOf(rest[0]).None?)
  }

  /** Accesses and calls on what comes first. */
  function ParseLeftHandSide(ts: seq<Token>): Option<Parsed> {
    match ParsePrimary(ts)
    case None => None
    case Some(b) => PostfixRest(b.tree, b.rest)
  }

  /** What follows an expression read at the top: a `?` continues its last
      alternative. */
  function Tail(tree: Tree, ts: seq<Token>): Option<Parsed> {
    if tree.Cond? then
      match Tail(tree.whenFalse, ts)
      case None => None
      case Some(p) => Some(Parsed(Cond(tree.condition, tree.whenTrue, p.tree), p.rest))
    else ConditionalRest(tree, ts)
  }

  lemma {:induction false} TailEnds(tree: Tree, ts: seq<Token>)
    requires ts == [] || ts[0] != Punct("?")
    ensures Tail(tree, ts) == Some(Parsed(tree, ts))
    decreases tree
  {
    if tree.Cond? {
      TailEnds(tree.whenFalse, ts);
    }
  }

  lemma {:induction false} TailRotates(c: Tree, t: Tree, f: Tree, ts: seq<Token>, afterTrue: seq<Token>, rest: seq<Token>)
    requires ts != [] && ts[0] == Punct("?") && ParseConditional(ts[1..]) == Some(Parsed(t, afterTrue))
    requires afterTrue != [] && afterTrue[0] == Punct(":") && ParseConditional(afterTrue[1..]) == Tail(f, rest)
    ensures Tail(c, ts) == Tail(Rotate(c, t, f), rest)
    decreases c
  {
    if c.Cond? {
      TailRotates(c.whenFalse, t, f, ts, afterTrue, rest);
    }
  }

  predicate Parenthesized(e: ExpressionIR, parentPrec: nat, side: Side) {
    (e.Binary? && NeedsParens(Precedence(e.op), parentPrec, e.op, side)) || (e.Ternary? && parentPrec > TERNARY_PRECEDENCE)
  }

  /** How tightly an expression that is not a conditional holds together. */
  function Level(e: ExpressionIR): nat {
    if e.Binary? then Precedence(e.op) else UNARY_PRECEDENCE
  }

  // ---------------------------------------------------------------------
  // Reading the tokens
  // ---------------------------------------------------------------------

  /** In parentheses anything is primary. */
  lemma EnclosedIsPrimary(ts: seq<Token>, tree: Tree, rest: seq<Token>)
    requires ParseConditional(ts + ([Punct(")")] + rest)) == Some(Parsed(tree, [Punct(")")] + rest))
    ensures ParsePrimary(Enclosed(ts) + rest) == Some(Parsed(tree, rest))
    ensures ParseLeftHandSide(Enclosed(ts) + rest) == PostfixRest(tree, rest)
    ensures EndsPostfix(rest) ==> ParseUnary(Enclosed(ts) + rest) == Some(Parsed(tree, rest))
  {
    var all := Enclosed(ts) + rest;
    assert all[1..] == ts + ([Punct(")")] + rest);
    assert ([Punct(")")] + rest)[1..] == rest;
  }

  /** An expression printed up to a closing bracket, a comma or a colon. */
  lemma {:induction false} WholeReads(expand: bool, e: ExpressionIR, rest: seq<Token>)
    requires Readable(expand, e) && rest != []
    requires rest[0] == Punct(")") || rest[0] == Punct("]") || rest[0] == Punct(",") || rest[0] == Punct(":")
    ensures ParseConditional(Tokens(expand, e, 0, Neither) + rest) == Some(Parsed(ReadsAs(expand, e), rest))
    decreases e, 9
  {
    hide Tokens, ReadsAs, InFragment, NoHiddenSign, ParseConditional, Tail;
    TopReads(expand, e, 0, Neither, rest);
    TailEnds(ReadsAs(expand, e), rest);
  }

  lemma {:induction false} AtomicReads(expand: bool, e: ExpressionIR, rest: seq<Token>)
    requires Readable(expand, e)
    ensures ParseLeftHandSide(TokensAtomic(expand, e) + rest) == PostfixRest(ReadsAs(expand, e), rest)
    ensures TokensAtomic(expand, e) != [] && !StartsUnary(TokensAtomic(expand, e)[0])
    decreases e, if IsAtomic(e) then 2 else 20, 1
  {
    if !IsAtomic(e) {
      WholeReads(expand, e, [Punct(")")] + rest);
      EnclosedIsPrimary(Tokens(expand, e, 0, Neither), ReadsAs(expand, e), rest);
    } else if e.RefRead? || e.Snapshot? || e.Call? || e.MethodCall? {
      AppliedReads(expand, e, rest);
    } else if e.Identifier? {
      assert ([Word(e.name)] + rest)[1..] == rest;
    } else if e.PropertyAccess? {
      MemberReads(expand, e.object_, e.property, rest);
    } else {
      IndexReads(expand, e.object_, e.index, rest);
    }
  }

  /** Everything that ends in arguments. */
  lemma {:induction false} AppliedReads(expand: bool, e: ExpressionIR, rest: seq<Token>)
    requires Readable(expand, e) && (e.RefRead? || e.Snapshot? || e.Call? || e.MethodCall?)
    ensures ParseLeftHandSide(TokensAtomic(expand, e) + rest) == PostfixRest(ReadsAs(expand, e), rest)
    ensures TokensAtomic(expand, e) != [] && !StartsUnary(TokensAtomic(expand, e)[0])
    decreases e, 2, 0
  {
    hide ParseLeftHandSide, PostfixRest, StartsUnary;
    match e
    case RefRead(ref, _) =>
      CallReads(expand, ref, e, [], rest);
      assert ReadsArgs(expand, [], 0) == [];
    case Snapshot(ref, args, _) => CallReads(expand, ref, e, args, rest);
    case Call(callee, args) => CallReads(expand, callee, e, args, rest);
    case MethodCall(receiver, method_, args) => MethodReads(expand, receiver, method_, e, args, rest);
  }

  /** Arguments after anything. */
  lemma ApplyFollows(base: Tree, inside: seq<Token>, args: seq<Tree>, rest: seq<Token>)
    requires ParseArguments(inside + ([Punct(")")] + rest)) == Some(ParsedArgs(args, rest))
    ensures PostfixRest(base, Enclosed(inside) + rest) == PostfixRest(Apply(base, args), rest)
  {
    var tail := Enclosed(inside) + rest;
    assert tail[1..] == inside + ([Punct(")")] + rest);
  }

  /** An element access after anything. */
  lemma IndexFollows(base: Tree, inside: seq<Token>, index: Tree, rest: seq<Token>)
    requires ParseConditional(inside + ([Punct("]")] + rest)) == Some(Parsed(index, [Punct("]")] + rest))
    ensures PostfixRest(base, [Punct("[")] + inside + ([Punct("]")] + rest)) == PostfixRest(Index(base, index), rest)
  {
    var close := [Punct("]")] + rest;
    var tail := [Punct("[")] + inside + close;
    assert tail[1..] == inside + close && close[1..] == rest;
  }

  lemma MemberFollows(base: Tree, name: string, rest: seq<Token>)
    ensures PostfixRest(base, [Punct("."), Word(name)] + rest) == PostfixRest(Member(base, name), rest)
  {
    assert ([Punct("."), Word(name)] + rest)[2..] == rest;
  }

  lemma {:induction false} CallReads(expand: bool, callee: ExpressionIR, parent: ExpressionIR, args: seq<ExpressionIR>, rest: seq<Token>)
    requires Readable(expand, callee) && callee < parent && forall i :: 0 <= i < |args| ==> Readable(expand, args[i]) && args[i] < parent
    ensures var ts := TokensAtomic(expand, callee) + Enclosed(TokensArgs(expand, parent, args, |args|));
      && ParseLeftHandSide(ts + rest) == PostfixRest(Apply(ReadsAs(expand, callee), ReadsArgs(expand, args, |args|)), rest)
      && ts != [] && !StartsUnary(ts[0])
    decreases parent, 1
  {
    hide Tokens, TokensAtomic, TokensArgs, ReadsAs, ReadsArgs, InFragment, NoHiddenSign, ParseLeftHandSide, PostfixRest, ParseArguments, ParseConditional, ParsePrimary, StartsUnary, Enclosed, Tail;
    var inside := TokensArgs(expand, parent, args, |args|);
    var tail := Enclosed(inside) + rest;
    AtomicReads(expand, callee, tail);
    ArgumentsRead(expand, parent, args, rest);
    ApplyFollows(ReadsAs(expand, callee), inside, ReadsArgs(expand, args, |args|), rest);
    assert TokensAtomic(expand, callee) + Enclosed(inside) + rest == TokensAtomic(expand, callee) + tail;
  }

  lemma {:induction false} MethodReads(expand: bool, receiver: ExpressionIR, method_: string, parent: ExpressionIR, args: seq<ExpressionIR>, rest: seq<Token>)
    requires Readable(expand, receiver) && receiver < parent && forall i :: 0 <= i < |args| ==> Readable(expand, args[i]) && args[i] < parent
    ensures var ts := TokensAtomic(expand, receiver) + [Punct("."), Word(method_)] + Enclosed(TokensArgs(expand, parent, args, |args|));
      && ParseLeftHandSide(ts + rest) == PostfixRest(Apply(Member(ReadsAs(expand, receiver), method_), ReadsArgs(expand, args, |args|)), rest)
      && ts != [] && !StartsUnary(ts[0])
    decreases parent, 1
  {
    hide Tokens, TokensAtomic, TokensArgs, ReadsAs, ReadsArgs, InFragment, NoHiddenSign, ParseLeftHandSide, PostfixRest, ParseArguments, ParseConditional, ParsePrimary, StartsUnary, Enclosed, Tail;
    var inside := TokensArgs(expand, parent, args, |args|);
    var after := Enclosed(inside) + rest;
    var tail := [Punct("."), Word(method_)] + after;
    AtomicReads(expand, receiver, tail);
    ArgumentsRead(expand, parent, args, rest);
    MemberFollows(ReadsAs(expand, receiver), method_, after);
    ApplyFollows(Member(ReadsAs(expand, receiver), method_), inside, ReadsArgs(expand, args, |args|), rest);
    assert TokensAtomic(expand, receiver) + [Punct("."), Word(method_)] + Enclosed(inside) + rest == TokensAtomic(expand, receiver) + tail;
  }

  lemma {:induction false} MemberReads(expand: bool, object_: ExpressionIR, property: string, rest: seq<Token>)
    requires Readable(expand, object_)
    ensures var ts := TokensAtomic(expand, object_) + [Punct("."), Word(property)];
      && ParseLeftHandSide(ts + rest) == PostfixRest(Member(ReadsAs(expand, object_), property), rest)
      && ts != [] && !StartsUnary(ts[0])
    decreases object_, 30
  {
    hide Tokens, TokensAtomic, TokensArgs, ReadsAs, ReadsArgs, InFragment, NoHiddenSign, ParseLeftHandSide, PostfixRest, ParseArguments, ParseConditional, ParsePrimary, StartsUnary, Enclosed, Tail;
    var tail := [Punct("."), Word(property)] + rest;
    AtomicReads(expand, object_, tail);
    MemberFollows(ReadsAs(expand, object_), property, rest);
    assert TokensAtomic(expand, object_) + [Punct("."), Word(property)] + rest == TokensAtomic(expand, object_) + tail;
  }

  lemma {:induction false} IndexReads(expand: bool, object_: ExpressionIR, index: ExpressionIR, rest: seq<Token>)
    requires Readable(expand, object_) && Readable(expand, index)
    ensures var ts := TokensAtomic(expand, object_) + [Punct("[")] + Tokens(expand, index, 0, Neither) + [Punct("]")];
      && ParseLeftHandSide(ts + rest) == PostfixRest(Index(ReadsAs(expand, object_), ReadsAs(expand, index)), rest)
      && ts != [] && !StartsUnary(ts[0])
    decreases ElementAccess(object_, index), 1
  {
    hide Tokens, TokensAtomic, TokensArgs, ReadsAs, ReadsArgs, InFragment, NoHiddenSign, ParseLeftHandSide, PostfixRest, ParseArguments, ParseConditional, ParsePrimary, StartsUnary, Enclosed, Tail;
    var close := [Punct("]")] + rest;
    var tail := [Punct("[")] + Tokens(expand, index, 0, Neither) + close;
    AtomicReads(expand, object_, tail);
    WholeReads(expand, index, close);
    IndexFollows(ReadsAs(expand, object_), Tokens(expand, index, 0, Neither), ReadsAs(expand, index), rest);
    assert TokensAtomic(expand, object_) + [Punct("[")] + Tokens(expand, index, 0, Neither) + [Punct("]")] + rest == TokensAtomic(expand, object_) + tail;
  }

  /** Arguments up to the closing parenthesis. */
  lemma {:induction false} ArgumentsRead(expand: bool, parent: ExpressionIR, args: seq<ExpressionIR>, rest: seq<Token>)
    requires forall i :: 0 <= i < |args| ==> Readable(expand, args[i]) && args[i] < parent
    ensures ParseArguments(TokensArgs(expand, parent, args, |args|) + ([Punct(")")] + rest)) == Some(ParsedArgs(ReadsArgs(expand, args, |args|), rest))
    decreases parent, 0, |args| + 1
  {
    var close := [Punct(")")] + rest;
    if args == [] {
      assert [] + close == close && close[1..] == rest;
      assert ReadsArgs(expand, args, 0) == [];
    } else {
      ArgumentsReadFirst(expand, parent, args, |args|, close);
      assert close[1..] == rest;
    }
  }

  lemma {:induction false} ArgumentsReadFirst(expand: bool, parent: ExpressionIR, args: seq<ExpressionIR>, n: nat, rest: seq<Token>)
    requires 0 < n <= |args| && forall i :: 0 <= i < |args| ==> Readable(expand, args[i]) && args[i] < parent
    requires rest != [] && (rest[0] == Punct(")") || rest[0] == Punct(","))
    ensures ParseArguments(TokensArgs(expand, parent, args, n) + rest) == ArgumentsRest(ReadsArgs(expand, args, n), rest)
    decreases parent, 0, n
  {
    hide InFragment, NoHiddenSign, ParsePrimary, ParseBinary, Tail;
    WholeReads(expand, args[n - 1], rest);
    if n == 1 {
      assert ReadsArgs(expand, args, 1) == [ReadsAs(expand, args[0])];
      FirstToken(expand, args[0], 0, Neither);
    } else {
      ArgumentsReadFirst(expand, parent, args, n - 1, [Punct(",")] + Tokens(expand, args[n - 1], 0, Neither) + rest);
      assert ReadsArgs(expand, args, n - 1) + [ReadsAs(expand, args[n - 1])] == ReadsArgs(expand, args, n);
      NextArgument(TokensArgs(expand, parent, args, n - 1), ReadsArgs(expand, args, n - 1), Tokens(expand, args[n - 1], 0, Neither), ReadsAs(expand, args[n - 1]), rest);
    }
  }

  lemma NextArgument(before: seq<Token>, read: seq<Tree>, next: seq<Token>, tree: Tree, rest: seq<Token>)
    requires ParseArguments(before + ([Punct(",")] + next + rest)) == ArgumentsRest(read, [Punct(",")] + next + rest)
    requires ParseConditional(next + rest) == Some(Parsed(tree, rest))
    ensures ParseArguments(before + [Punct(",")] + next + rest) == ArgumentsRest(read + [tree], rest)
  {
    var tail := [Punct(",")] + next + rest;
    assert before + [Punct(",")] + next + rest == before + tail;
    assert tail[1..] == next + rest;
  }

  /** No printed expression starts with a closing parenthesis. */
  lemma {:induction false} FirstToken(expand: bool, e: ExpressionIR, parentPrec: nat, side: Side)
    requires Readable(expand, e)
    ensures Tokens(expand, e, parentPrec, side) != [] && Tokens(expand, e, parentPrec, side)[0] != Punct(")")
    decreases e, 0
  {
    hide WordStart, IsWord, TokensArgs, OpToken, NeedsParens;
    match e
    case Binary(left, op, _) => FirstToken(expand, left, Precedence(op), Side.Left);
    case Ternary(condition, _, _) => FirstToken(expand, condition, TERNARY_PRECEDENCE, Side.Left);
    case RefRead(ref, _) => FirstTokenAtomic(expand, ref);
    case Snapshot(ref, _, _) => FirstTokenAtomic(expand, ref);
    case MethodCall(receiver, _, _) => FirstTokenAtomic(expand, receiver);
    case PropertyAccess(object_, _) => FirstTokenAtomic(expand, object_);
    case Call(callee, _) => FirstTokenAtomic(expand, callee);
    case ElementAccess(object_, _) => FirstTokenAtomic(expand, object_);
    case _ =>
  }

  lemma {:induction false} FirstTokenAtomic(expand: bool, e: ExpressionIR)
    requires Readable(expand, e)
    ensures TokensAtomic(expand, e) != [] && TokensAtomic(expand, e)[0] != Punct(")")
    decreases e, 1
  {
    FirstToken(expand, e, 0, Neither);
  }

  /** An operand of a prefix operator. */
  lemma {:induction false} UnaryReads(expand: bool, e: ExpressionIR, parentPrec: nat, side: Side, rest: seq<Token>)
    requires Readable(expand, e) && !e.Binary? && !e.Ternary? && EndsPostfix(rest)
    ensures ParseUnary(Tokens(expand, e, parentPrec, side) + rest) == Some(Parsed(ReadsAs(expand, e), rest))
    decreases e, 3
  {
    if e.Unary? {
      SignedReads(expand, e, parentPrec, side, rest);
    } else if e.BindingRef? {
      assert ([Word(e.name)] + rest)[1..] == rest;
    } else {
      AtomicReads(expand, e, rest);
    }
  }

  /** A prefix operator and its operand. */
  lemma {:induction false} SignedReads(expand: bool, e: ExpressionIR, parentPrec: nat, side: Side, rest: seq<Token>)
    requires Readable(expand, e) && e.Unary? && EndsPostfix(rest)
    ensures ParseUnary(Tokens(expand, e, parentPrec, side) + rest) == Some(Parsed(ReadsAs(expand, e), rest))
    decreases e, 2
  {
    hide ParseUnary, EndsPostfix;
    var operand := e.operand;
    var inner := Tokens(expand, operand, UNARY_PRECEDENCE, Neither);
    if WouldMerge(e.operator, operand) {
      EnclosedReads(expand, operand, UNARY_PRECEDENCE, Neither, rest);
      PrefixReads(e.operator, Enclosed(inner), ReadsAs(expand, operand), rest);
    } else {
      if Hides(expand, e.operator, operand) {
        assert NoHiddenSign(expand, operand);
        OperandReads(expand, operand.expression, UNARY_PRECEDENCE, Neither, rest);
      } else {
        OperandReads(expand, operand, UNARY_PRECEDENCE, Neither, rest);
      }
      PrefixReads(e.operator, inner, ReadsAs(expand, operand), rest);
    }
  }

  lemma PrefixReads(op: string, inner: seq<Token>, operand: Tree, rest: seq<Token>)
    requires IsPrefixOp(op) && ParseUnary(inner + rest) == Some(Parsed(operand, rest))
    ensures ParseUnary([Punct(op)] + inner + rest) == Some(Parsed(Prefix(op, operand), rest))
  {
    assert ([Punct(op)] + inner + rest)[1..] == inner + rest;
  }

  /** At the precedence of prefix operators everything weaker is in parentheses. */
  lemma {:induction false} OperandReads(expand: bool, e: ExpressionIR, parentPrec: nat, side: Side, rest: seq<Token>)
    requires Readable(expand, e) && EndsPostfix(rest)
    requires (e.Binary? || e.Ternary?) ==> Parenthesized(e, parentPrec, side)
    ensures ParseUnary(Tokens(expand, e, parentPrec, side) + rest) == Some(Parsed(ReadsAs(expand, e), rest))
    decreases e, if Parenthesized(e, parentPrec, side) then 12 else 4
  {
    if e.Binary? || e.Ternary? {
      EnclosedReads(expand, e, 0, Neither, rest);
      assert Tokens(expand, e, parentPrec, side) == Enclosed(Tokens(expand, e, 0, Neither));
    } else {
      UnaryReads(expand, e, parentPrec, side, rest);
    }
  }

  lemma {:induction false} EnclosedReads(expand: bool, e: ExpressionIR, parentPrec: nat, side: Side, rest: seq<Token>)
    requires Readable(expand, e) && EndsPostfix(rest) && !Parenthesized(e, parentPrec, side)
    ensures ParseUnary(Enclosed(Tokens(expand, e, parentPrec, side)) + rest) == Some(Parsed(ReadsAs(expand, e), rest))
    decreases e, 11
  {
    var close := [Punct(")")] + rest;
    TopReads(expand, e, parentPrec, side, close);
    TailEnds(ReadsAs(expand, e), close);
    EnclosedIsPrimary(Tokens(expand, e, parentPrec, side), ReadsAs(expand, e), rest);
  }

  /** Read where operators of precedence `min` are wanted, an expression that holds
      together at least that tightly is read whole. */
  lemma {:induction false} BinaryReads(expand: bool, e: ExpressionIR, parentPrec: nat, side: Side, min: nat, rest: seq<Token>)
    requires Readable(expand, e) && (e.Ternary? ==> Parenthesized(e, parentPrec, side))
    requires !Parenthesized(e, parentPrec, side) ==> min <= Level(e) && EndsAt(rest, Level(e))
    requires EndsPostfix(rest)
    ensures ParseBinary(min, Tokens(expand, e, parentPrec, side) + rest) == BinaryRest(ReadsAs(expand, e), min, rest)
    decreases e, if Parenthesized(e, parentPrec, side) then 13 else 7
  {
    if Parenthesized(e, parentPrec, side) || !e.Binary? {
      OperandReads(expand, e, parentPrec, side, rest);
    } else {
      OperandsFit(expand, e);
      OperandsRead(expand, e.left, e.op, e.right, e, min, rest);
    }
  }

  /** An operator between two operands. */
  lemma {:induction false} OperandsRead(expand: bool, l: ExpressionIR, op: BinaryOp, r: ExpressionIR, parent: ExpressionIR, min: nat, rest: seq<Token>)
    requires LeftAssociative(op) && l < parent && r < parent && Readable(expand, l) && Readable(expand, r)
    requires OperandFits(l, op, Side.Left, Precedence(op)) && OperandFits(r, op, Side.Right, Precedence(op) + 1)
    requires min <= Precedence(op) && EndsAt(rest, Precedence(op))
    ensures ParseBinary(min, Tokens(expand, l, Precedence(op), Side.Left) + [OpToken(op)] + Tokens(expand, r, Precedence(op), Side.Right) + rest)
      == BinaryRest(Infix(ReadsAs(expand, l), op, ReadsAs(expand, r)), min, rest)
    decreases parent, 0
  {
    hide Tokens, ReadsAs, InFragment, NoHiddenSign, ParseBinary, BinaryRest, OpToken, LeftAssociative, Parenthesized, EndsAt, EndsPostfix, Level, Precedence;
    var prec := Precedence(op);
    var left, right := Tokens(expand, l, prec, Side.Left), Tokens(expand, r, prec, Side.Right);
    LeftEnds(l, op, right, rest);
    RightEnds(r, op, rest);
    BinaryReads(expand, l, prec, Side.Left, min, [OpToken(op)] + right + rest);
    BinaryReads(expand, r, prec, Side.Right, prec + 1, rest);
    InfixReads(left, ReadsAs(expand, l), op, right, ReadsAs(expand, r), min, rest);
  }

  /** An operand is in parentheses or holds together tightly enough. */
  predicate OperandFits(e: ExpressionIR, op: BinaryOp, side: Side, min: nat) {
    && (e.Ternary? ==> Parenthesized(e, Precedence(op), side))
    && (!Parenthesized(e, Precedence(op), side) ==> min <= Level(e))
  }

  lemma OperandsFit(expand: bool, e: ExpressionIR)
    requires e.Binary? && LeftAssociative(e.op) && Readable(expand, e)
    ensures OperandFits(e.left, e.op, Side.Left, Precedence(e.op)) && OperandFits(e.right, e.op, Side.Right, Precedence(e.op) + 1)
  {
  }

  lemma LeftEnds(l: ExpressionIR, op: BinaryOp, right: seq<Token>, rest: seq<Token>)
    requires LeftAssociative(op) && OperandFits(l, op, Side.Left, Precedence(op))
    ensures EndsPostfix([OpToken(op)] + right + rest)
    ensures !Parenthesized(l, Precedence(op), Side.Left) ==> EndsAt([OpToken(op)] + right + rest, Level(l))
  {
    hide Parenthesized, OpToken, Level, LeftAssociative;
    OperatorEnds(op, right + rest);
    assert [OpToken(op)] + (right + rest) == [OpToken(op)] + right + rest;
    assert EndsAt([OpToken(op)] + right + rest, Precedence(op));
  }

  lemma RightEnds(r: ExpressionIR, op: BinaryOp, rest: seq<Token>)
    requires EndsAt(rest, Precedence(op)) && OperandFits(r, op, Side.Right, Precedence(op) + 1)
    ensures EndsPostfix(rest) && (!Parenthesized(r, Precedence(op), Side.Right) ==> EndsAt(rest, Level(r)))
  {
    hide Parenthesized, Level;
  }

  lemma OperatorEnds(op: BinaryOp, rest: seq<Token>)
    requires LeftAssociative(op)
    ensures forall prec :: Precedence(op) <= prec ==> EndsAt([OpToken(op)] + rest, prec)
  {
    OpOfToken(op);
  }

  /** The printer's precedences are the grammar's rungs. */
  lemma PrintedByRung(op: BinaryOp)
    requires LeftAssociative(op)
    ensures Precedence(op) == Rung(op)
  {
  }

  lemma InfixReads(l: seq<Token>, left: Tree, op: BinaryOp, r: seq<Token>, right: Tree, min: nat, rest: seq<Token>)
    requires LeftAssociative(op) && min <= Precedence(op) && EndsAt(rest, Precedence(op))
    requires ParseBinary(min, l + ([OpToken(op)] + r + rest)) == BinaryRest(left, min, [OpToken(op)] + r + rest)
    requires ParseBinary(Precedence(op) + 1, r + rest) == BinaryRest(right, Precedence(op) + 1, rest)
    ensures ParseBinary(min, l + [OpToken(op)] + r + rest) == BinaryRest(Infix(left, op, right), min, rest)
  {
    hide ParseBinary, Precedence, Rung, LeftAssociative;
    OpOfToken(op);
    PrintedByRung(op);
    var tail := [OpToken(op)] + r + rest;
    assert l + [OpToken(op)] + r + rest == l + tail;
    assert tail[1..] == r + rest;
  }

  /** An expression printed where a conditional needs no parentheses. */
  lemma {:induction false} TopReads(expand: bool, e: ExpressionIR, parentPrec: nat, side: Side, rest: seq<Token>)
    requires Readable(expand, e) && !Parenthesized(e, parentPrec, side) && EndsBinary(rest)
    ensures ParseConditional(Tokens(expand, e, parentPrec, side) + rest) == Tail(ReadsAs(expand, e), rest)
    decreases e, 8
  {
    OnlyTernariesReadAsConditionals(expand, e);
    if !e.Ternary? {
      BinaryReads(expand, e, parentPrec, side, 1, rest);
    } else {
      ChoiceReads(expand, e.condition, e.whenTrue, e.whenFalse, e, rest);
    }
  }

  /** The three parts of a conditional. */
  lemma {:induction false} ChoiceReads(expand: bool, c: ExpressionIR, t: ExpressionIR, f: ExpressionIR, parent: ExpressionIR, rest: seq<Token>)
    requires c < parent && t < parent && f < parent && Readable(expand, c) && Readable(expand, t) && Readable(expand, f)
    requires !Parenthesized(c, TERNARY_PRECEDENCE, Side.Left) && EndsBinary(rest)
    ensures ParseConditional(Tokens(expand, c, TERNARY_PRECEDENCE, Side.Left) + [Punct("?")] + Tokens(expand, t, 0, Neither) + [Punct(":")] + Tokens(expand, f, 0, Neither) + rest)
      == Tail(Rotate(ReadsAs(expand, c), ReadsAs(expand, t), ReadsAs(expand, f)), rest)
    decreases parent, 0
  {
    hide Tokens, ReadsAs, InFragment, NoHiddenSign, ParseConditional, Tail;
    var us, vs := Tokens(expand, t, 0, Neither), Tokens(expand, f, 0, Neither);
    var afterTrue := [Punct(":")] + vs + rest;
    TopReads(expand, c, TERNARY_PRECEDENCE, Side.Left, [Punct("?")] + us + afterTrue);
    WholeReads(expand, t, afterTrue);
    TopReads(expand, f, 0, Neither, rest);
    ConditionalReads(Tokens(expand, c, TERNARY_PRECEDENCE, Side.Left), ReadsAs(expand, c), us, ReadsAs(expand, t), vs, ReadsAs(expand, f), rest);
  }

  lemma ConditionalReads(c: seq<Token>, condition: Tree, t: seq<Token>, whenTrue: Tree, f: seq<Token>, whenFalse: Tree, rest: seq<Token>)
    requires ParseConditional(c + ([Punct("?")] + t + ([Punct(":")] + f + rest))) == Tail(condition, [Punct("?")] + t + ([Punct(":")] + f + rest))
    requires ParseConditional(t + ([Punct(":")] + f + rest)) == Some(Parsed(whenTrue, [Punct(":")] + f + rest))
    requires ParseConditional(f + rest) == Tail(whenFalse, rest)
    ensures ParseConditional(c + [Punct("?")] + t + [Punct(":")] + f + rest) == Tail(Rotate(condition, whenTrue, whenFalse), rest)
  {
    var afterTrue := [Punct(":")] + f + rest;
    var tail := [Punct("?")] + t + afterTrue;
    assert c + [Punct("?")] + t + [Punct(":")] + f + rest == c + tail;
    assert tail[1..] == t + afterTrue && afterTrue[1..] == f + rest;
    TailRotates(condition, whenTrue, whenFalse, tail, afterTrue, rest);
  }

  // ---------------------------------------------------------------------
  // Lexing the text
  // ---------------------------------------------------------------------

  function PrependAll(ts: seq<Token>, rest: Option<seq<Token>>): Option<seq<Token>> {
    match rest
    case None => None
    case Some(more) => Some(ts + more)
  }

  /** Does not go on with a word. */
  predicate Follow(rest: string) {
    rest == [] || !WordChar(rest[0])
  }

  /** The text lexes to the tokens, wherever no word runs on after it. */
  ghost predicate LexesTo(s: string, ts: seq<Token>) {
    forall rest :: Follow(rest) ==> LexesOn(s, ts, rest)
  }

  predicate LexesOn(s: string, ts: seq<Token>, rest: string) {
    Lex(s + rest) == PrependAll(ts, Lex(rest))
  }

  /** The text lexes to the tokens whatever comes after it. */
  ghost predicate LexesAlways(s: string, ts: seq<Token>) {
    forall rest :: LexesOn(s, ts, rest)
  }

  lemma AlwaysThen(a: string, ts: seq<Token>, b: string, us: seq<Token>)
    requires LexesAlways(a, ts) && LexesTo(b, us)
    ensures LexesTo(a + b, ts + us)
  {
    forall rest | Follow(rest) ensures LexesOn(a + b, ts + us, rest) {
      assert LexesOn(b, us, rest) && LexesOn(a, ts, b + rest);
      Joined(a, ts, b, us, rest);
    }
  }

  lemma Joined(a: string, ts: seq<Token>, b: string, us: seq<Token>, rest: string)
    requires LexesOn(b, us, rest) && LexesOn(a, ts, b + rest)
    ensures LexesOn(a + b, ts + us, rest)
  {
    assert a + b + rest == a + (b + rest);
    PrependTwice(ts, us, Lex(rest));
  }

  lemma PrependTwice(ts: seq<Token>, us: seq<Token>, rest: Option<seq<Token>>)
    ensures PrependAll(ts, PrependAll(us, rest)) == PrependAll(ts + us, rest)
  {
    if rest.Some? {
      assert ts + (us + rest.value) == ts + us + rest.value;
    }
  }

  lemma ThenOther(a: string, ts: seq<Token>, b: string, us: seq<Token>)
    requires LexesTo(a, ts) && LexesTo(b, us) && b != [] && !WordChar(b[0])
    ensures LexesTo(a + b, ts + us)
  {
    forall rest | Follow(rest) ensures LexesOn(a + b, ts + us, rest) {
      assert LexesOn(b, us, rest) && LexesOn(a, ts, b + rest);
      Joined(a, ts, b, us, rest);
    }
  }

  lemma AlwaysIsTo(a: string, ts: seq<Token>)
    requires LexesAlways(a, ts)
    ensures LexesTo(a, ts)
  {
  }

  lemma {:induction false} WordLengthOf(w: string, rest: string)
    requires Follow(rest) && forall i :: 0 <= i < |w| ==> WordChar(w[i])
    ensures WordLength(w + rest) == |w|
  {
    if w == [] {
      assert w + rest == rest;
    } else {
      assert (w + rest)[1..] == w[1..] + rest;
      WordLengthOf(w[1..], rest);
    }
  }

  lemma LexWordOn(w: string, rest: string)
    requires IsWord(w) && Follow(rest)
    ensures LexesOn(w, [Word(w)], rest)
  {
    WordLengthOf(w, rest);
    assert (w + rest)[..|w|] == w && (w + rest)[|w|..] == rest;
  }

  lemma LexWord(w: string)
    requires IsWord(w)
    ensures LexesTo(w, [Word(w)])
  {
    forall rest | Follow(rest) ensures LexesOn(w, [Word(w)], rest) {
      LexWordOn(w, rest);
    }
  }

  /** A punctuator that the text after it does not lengthen. */
  lemma LexPunctOn(p: string, rest: string)
    requires p != [] && p[0] != ' ' && !WordStart(p[0]) && !IsQuote(p[0]) && MunchLength(p + rest) == |p|
    ensures LexesOn(p, [Punct(p)], rest)
  {
    assert (p + rest)[..|p|] == p && (p + rest)[|p|..] == rest;
  }

  lemma LexNothingOn(rest: string)
    ensures LexesOn("", [], rest)
  {
    assert "" + rest == rest;
    if Lex(rest).Some? {
      assert [] + Lex(rest).value == Lex(rest).value;
    }
  }

  lemma LexSpaceOn(rest: string)
    ensures LexesOn(" ", [], rest)
  {
    assert (" " + rest)[1..] == rest;
    LexNothingOn(rest);
    assert "" + rest == rest;
  }

  /** A text with spaces around it. */
  lemma SpacedOn(p: string, t: Token, rest: string)
    requires LexesOn(p, [t], " " + rest)
    ensures LexesOn(" " + p + " ", [t], rest)
  {
    LexSpaceOn(rest);
    Joined(p, [t], " ", [], rest);
    LexSpaceOn(p + " " + rest);
    Joined(" ", [], p + " ", [t] + [], rest);
    assert " " + (p + " ") == " " + p + " ";
    assert [] + ([t] + []) == [t];
  }

  /** Brackets and commas are never part of a longer punctuator. */
  lemma MunchSingle(c: char, rest: string)
    requires c == '(' || c == ')' || c == '[' || c == ']' || c == ',' || c == ':'
    ensures MunchLength([c] + rest) == 1
  {
    var s := [c] + rest;
    assert s[0] == c;
    assert |s| >= 2 ==> s[..2][0] == c;
    assert |s| >= 3 ==> s[..3][0] == c;
    assert |s| >= 4 ==> s[..4][0] == c;
  }

  lemma LexSingle(c: char)
    requires c == '(' || c == ')' || c == '[' || c == ']' || c == ',' || c == ':'
    ensures LexesAlways([c], [Punct([c])])
  {
    hide Lex, MunchLength, LexesOn;
    forall rest ensures LexesOn([c], [Punct([c])], rest) {
      MunchSingle(c, rest);
      LexPunctOn([c], rest);
    }
  }

  lemma LexComma()
    ensures LexesAlways(", ", [Punct(",")])
  {
    hide Lex, MunchLength;
    LexSingle(',');
    forall rest ensures LexesOn(", ", [Punct(",")], rest) {
      LexSpaceOn(rest);
      assert LexesOn([','], [Punct([','])], " " + rest);
      Joined(",", [Punct(",")], " ", [], rest);
      assert "," + " " == ", " && [Punct(",")] + [] == [Punct(",")];
    }
  }

  /** A space ends every punctuator. */
  lemma MunchBeforeSpace(p: string, rest: string)
    requires 1 <= |p| <= 3 && ' ' !in p
    requires |p| == 1 ==> p[0] in PUNCT1
    requires |p| == 2 ==> p in PUNCT2
    requires |p| == 3 ==> p in PUNCT3
    ensures MunchLength(p + (" " + rest)) == |p|
  {
    var s := p + (" " + rest);
    assert s[|p|] == ' ' && s[..|p|] == p;
    assert |s| >= 2 && |p| < 2 ==> s[..2][|p|] == ' ';
    assert |s| >= 3 && |p| < 3 ==> s[..3][|p|] == ' ';
    assert |s| >= 4 ==> s[..4][|p|] == ' ';
  }

  predicate IsPunctuator(p: string) {
    && 1 <= |p| <= 3 && ' ' !in p && !WordStart(p[0]) && !IsQuote(p[0])
    && (|p| == 1 ==> p[0] in PUNCT1)
    && (|p| == 2 ==> p in PUNCT2)
    && (|p| == 3 ==> p in PUNCT3)
  }

  lemma OperatorIsPunctuator(op: BinaryOp)
    requires LeftAssociative(op) && !op.InstanceOf? && !op.In?
    ensures IsPunctuator(OpText(op)) && OpToken(op) == Punct(OpText(op))
  {
  }

  lemma OperatorIsWord(op: BinaryOp)
    requires op.InstanceOf? || op.In?
    ensures IsWord(OpText(op)) && OpToken(op) == Word(OpText(op))
  {
  }

  lemma LexSpacedPunct(p: string)
    requires IsPunctuator(p)
    ensures LexesAlways(" " + p + " ", [Punct(p)])
  {
    forall rest ensures LexesOn(" " + p + " ", [Punct(p)], rest) {
      MunchBeforeSpace(p, rest);
      LexPunctOn(p, " " + rest);
      SpacedOn(p, Punct(p), rest);
    }
  }

  lemma LexSpacedWord(w: string)
    requires IsWord(w)
    ensures LexesAlways(" " + w + " ", [Word(w)])
  {
    forall rest ensures LexesOn(" " + w + " ", [Word(w)], rest) {
      LexWordOn(w, " " + rest);
      SpacedOn(w, Word(w), rest);
    }
  }

  lemma LexOperator(op: BinaryOp)
    requires LeftAssociative(op)
    ensures LexesAlways(" " + OpText(op) + " ", [OpToken(op)])
  {
    hide Lex, MunchLength, LexesOn, LexesAlways, IsPunctuator, IsWord, OpText, OpToken;
    if op.InstanceOf? || op.In? {
      OperatorIsWord(op);
      LexSpacedWord(OpText(op));
    } else {
      OperatorIsPunctuator(op);
      LexSpacedPunct(OpText(op));
    }
  }

  lemma LexEnclosed(s: string, ts: seq<Token>)
    requires LexesTo(s, ts)
    ensures LexesTo(Parens(s), Enclosed(ts))
  {
    LexSingle('(');
    LexSingle(')');
    AlwaysIsTo(")", [Punct(")")]);
    ThenOther(s, ts, ")", [Punct(")")]);
    AlwaysThen("(", [Punct("(")], s + ")", ts + [Punct(")")]);
    assert Parens(s) == "(" + (s + ")");
    assert Enclosed(ts) == [Punct("(")] + (ts + [Punct(")")]);
  }

  lemma LexNothing()
    ensures LexesTo("", [])
  {
    forall rest | Follow(rest) ensures LexesOn("", [], rest) {
      LexNothingOn(rest);
    }
  }

  lemma MunchDot(name: string, rest: string)
    requires IsWord(name)
    ensures MunchLength("." + (name + rest)) == 1
  {
    var s := "." + (name + rest);
    assert s[0] == '.' && s[1] == name[0];
    assert |s| >= 2 ==> s[..2][0] == '.' && s[..2][1] == name[0];
    assert |s| >= 3 ==> s[..3][0] == '.' && s[..3][1] == name[0];
    assert |s| >= 4 ==> s[..4][0] == '.' && s[..4][1] == name[0];
  }

  lemma LexProperty(name: string)
    requires IsWord(name)
    ensures LexesTo("." + name, [Punct("."), Word(name)])
  {
    forall rest | Follow(rest) ensures LexesOn("." + name, [Punct("."), Word(name)], rest) {
      LexWordOn(name, rest);
      MunchDot(name, rest);
      LexPunctOn(".", name + rest);
      Joined(".", [Punct(".")], name, [Word(name)], rest);
      assert [Punct(".")] + [Word(name)] == [Punct("."), Word(name)];
    }
  }

  /** What a prefix operator may stand directly before without merging. */
  predicate MayFollowPrefix(op: string, c: char) {
    WordStart(c) || c == '(' || (IsPrefixOp([c]) && ([c] != op || op == "!" || op == "~"))
  }

  lemma LexPrefix(op: string, s: string, ts: seq<Token>)
    requires IsPrefixOp(op) && LexesTo(s, ts) && s != [] && MayFollowPrefix(op, s[0])
    ensures LexesTo(op + s, [Punct(op)] + ts)
  {
    forall rest | Follow(rest) ensures LexesOn(op + s, [Punct(op)] + ts, rest) {
      var all := op + (s + rest);
      assert all[..2] == op + [s[0]];
      PrefixMunch(op, s[0], all);
      LexPunctOn(op, s + rest);
      assert LexesOn(s, ts, rest);
      Joined(op, [Punct(op)], s, ts, rest);
    }
  }

  lemma PrefixMunch(op: string, c: char, s: string)
    requires IsPrefixOp(op) && MayFollowPrefix(op, c) && |s| >= 2 && s[..2] == op + [c]
    ensures MunchLength(s) == 1
  {
    assert s[0] == op[0] && s[1] == c;
    assert |s| >= 3 ==> s[..3][0] == op[0] && s[..3][1] == c;
    assert |s| >= 4 ==> s[..4][0] == op[0];
  }

  // ---------------------------------------------------------------------
  // The printed text has the tokens
  // ---------------------------------------------------------------------

  /** A printed expression starts with a name, a parenthesis, or, where it is not
      atomic, a prefix operator. */
  predicate BeginsWell(s: string, e: ExpressionIR) {
    s != [] && (WordStart(s[0]) || s[0] == '(' || (IsPrefixOp([s[0]]) && !IsAtomic(e) && !e.BindingRef?))
  }

  lemma {:induction false} FirstChar(expand: bool, e: ExpressionIR, parentPrec: nat, side: Side)
    requires InFragment(expand, e)
    ensures BeginsWell(Render(e, expand, parentPrec, side), e)
    ensures e.Unary? ==> Render(e, expand, parentPrec, side)[0] == e.operator[0]
    decreases e, 0, 1
  {
    match e
    case Binary(left, op, _) => FirstChar(expand, left, Precedence(op), Side.Left);
    case Ternary(condition, _, _) => FirstChar(expand, condition, TERNARY_PRECEDENCE, Side.Left);
    case RefRead(_, _) => FirstOfAccess(expand, e, parentPrec, side);
    case Snapshot(_, _, _) => FirstOfAccess(expand, e, parentPrec, side);
    case MethodCall(_, _, _) => FirstOfAccess(expand, e, parentPrec, side);
    case PropertyAccess(_, _) => FirstOfAccess(expand, e, parentPrec, side);
    case Call(_, _) => FirstOfAccess(expand, e, parentPrec, side);
    case ElementAccess(_, _) => FirstOfAccess(expand, e, parentPrec, side);
    case _ =>
  }

  /** An access or a call begins as what it is applied to. */
  lemma {:induction false} FirstOfAccess(expand: bool, e: ExpressionIR, parentPrec: nat, side: Side)
    requires InFragment(expand, e)
    requires e.RefRead? || e.Snapshot? || e.MethodCall? || e.PropertyAccess? || e.Call? || e.ElementAccess?
    ensures BeginsWell(Render(e, expand, parentPrec, side), e)
    decreases e, 0, 0
  {
    match e
    case RefRead(ref, _) => FirstCharAtomic(expand, ref);
    case Snapshot(ref, _, _) => FirstCharAtomic(expand, ref);
    case MethodCall(receiver, _, _) => FirstCharAtomic(expand, receiver);
    case PropertyAccess(object_, _) => FirstCharAtomic(expand, object_);
    case Call(callee, _) => FirstCharAtomic(expand, callee);
    case ElementAccess(object_, _) => FirstCharAtomic(expand, object_);
  }

  lemma {:induction false} FirstCharAtomic(expand: bool, e: ExpressionIR)
    requires InFragment(expand, e)
    ensures var s := RenderAtomic(e, expand); s != [] && (WordStart(s[0]) || s[0] == '(')
    decreases e, 1
  {
    FirstChar(expand, e, 0, Neither);
  }

  lemma {:induction false} TextHasTokens(expand: bool, e: ExpressionIR, parentPrec: nat, side: Side)
    requires InFragment(expand, e)
    ensures LexesTo(Render(e, expand, parentPrec, side), Tokens(expand, e, parentPrec, side))
    decreases e, 0
  {
    match e
    case Identifier(name) => LexWord(name);
    case BindingRef(name, _) => LexWord(name);
    case RefRead(ref, _) =>
      CallHasTokens(expand, ref, e, []);
      assert Parens("") == "()";
    case Snapshot(ref, args, _) =>
      CallHasTokens(expand, ref, e, args);
      assert Parens("") == "()";
    case Call(callee, args) => CallHasTokens(expand, callee, e, args);
    case MethodCall(receiver, method_, args) => MethodHasTokens(expand, receiver, method_, e, args);
    case PropertyAccess(object_, property) =>
      AtomicHasTokens(expand, object_);
      LexProperty(property);
      ThenOther(RenderAtomic(object_, expand), TokensAtomic(expand, object_), "." + property, [Punct("."), Word(property)]);
      assert RenderAtomic(object_, expand) + "." + property == RenderAtomic(object_, expand) + ("." + property);
    case Binary(left, op, right) => BinaryHasTokens(expand, e, parentPrec, side);
    case Unary(op, operand, _) => UnaryHasTokens(expand, e, parentPrec, side);
    case Ternary(condition, whenTrue, whenFalse) => TernaryHasTokens(expand, e, parentPrec, side);
    case ElementAccess(object_, index) => ElementHasTokens(expand, e);
  }

  lemma {:induction false} AtomicHasTokens(expand: bool, e: ExpressionIR)
    requires InFragment(expand, e)
    ensures LexesTo(RenderAtomic(e, expand), TokensAtomic(expand, e))
    decreases e, 1
  {
    TextHasTokens(expand, e, 0, Neither);
    LexEnclosed(Render(e, expand, 0, Neither), Tokens(expand, e, 0, Neither));
  }

  lemma {:induction false} ArgsHaveTokens(expand: bool, parent: ExpressionIR, args: seq<ExpressionIR>, n: nat)
    requires n <= |args| && forall i :: 0 <= i < |args| ==> InFragment(expand, args[i]) && args[i] < parent
    ensures LexesTo(RenderArgs(parent, args, n, expand), TokensArgs(expand, parent, args, n))
    decreases parent, 0, n
  {
    if n == 0 {
      LexNothing();
    } else {
      TextHasTokens(expand, args[n - 1], 0, Neither);
      if n > 1 {
        ArgsHaveTokens(expand, parent, args, n - 1);
        LexComma();
        AlwaysThen(", ", [Punct(",")], Render(args[n - 1], expand, 0, Neither), Tokens(expand, args[n - 1], 0, Neither));
        ThenOther(RenderArgs(parent, args, n - 1, expand), TokensArgs(expand, parent, args, n - 1),
                  ", " + Render(args[n - 1], expand, 0, Neither), [Punct(",")] + Tokens(expand, args[n - 1], 0, Neither));
        Reassociate(RenderArgs(parent, args, n - 1, expand), ", ", Render(args[n - 1], expand, 0, Neither));
        Reassociate(TokensArgs(expand, parent, args, n - 1), [Punct(",")], Tokens(expand, args[n - 1], 0, Neither));
      }
    }
  }

  lemma Reassociate<T>(a: seq<T>, b: seq<T>, c: seq<T>)
    ensures a + b + c == a + (b + c)
  {
  }

  lemma {:induction false} CallHasTokens(expand: bool, callee: ExpressionIR, parent: ExpressionIR, args: seq<ExpressionIR>)
    requires InFragment(expand, callee) && callee < parent && forall i :: 0 <= i < |args| ==> InFragment(expand, args[i]) && args[i] < parent
    ensures LexesTo(RenderAtomic(callee, expand) + Parens(RenderArgs(parent, args, |args|, expand)), TokensAtomic(expand, callee) + Enclosed(TokensArgs(expand, parent, args, |args|)))
    decreases parent, 0, |args| + 1
  {
    AtomicHasTokens(expand, callee);
    ArgsHaveTokens(expand, parent, args, |args|);
    LexEnclosed(RenderArgs(parent, args, |args|, expand), TokensArgs(expand, parent, args, |args|));
    ThenOther(RenderAtomic(callee, expand), TokensAtomic(expand, callee), Parens(RenderArgs(parent, args, |args|, expand)), Enclosed(TokensArgs(expand, parent, args, |args|)));
  }

  lemma {:induction false} MethodHasTokens(expand: bool, receiver: ExpressionIR, method_: string, parent: ExpressionIR, args: seq<ExpressionIR>)
    requires InFragment(expand, receiver) && IsWord(method_) && receiver < parent && forall i :: 0 <= i < |args| ==> InFragment(expand, args[i]) && args[i] < parent
    ensures LexesTo(RenderAtomic(receiver, expand) + "." + method_ + Parens(RenderArgs(parent, args, |args|, expand)),
                    TokensAtomic(expand, receiver) + [Punct("."), Word(method_)] + Enclosed(TokensArgs(expand, parent, args, |args|)))
    decreases parent, 0, |args| + 1
  {
    AtomicHasTokens(expand, receiver);
    ArgsHaveTokens(expand, parent, args, |args|);
    LexProperty(method_);
    LexEnclosed(RenderArgs(parent, args, |args|, expand), TokensArgs(expand, parent, args, |args|));
    ThenOther(RenderAtomic(receiver, expand), TokensAtomic(expand, receiver), "." + method_, [Punct("."), Word(method_)]);
    Reassociate(RenderAtomic(receiver, expand), ".", method_);
    ThenOther(RenderAtomic(receiver, expand) + "." + method_, TokensAtomic(expand, receiver) + [Punct("."), Word(method_)],
              Parens(RenderArgs(parent, args, |args|, expand)), Enclosed(TokensArgs(expand, parent, args, |args|)));
  }

  lemma {:induction false} ElementHasTokens(expand: bool, e: ExpressionIR)
    requires InFragment(expand, e) && e.ElementAccess?
    ensures LexesTo(Render(e, expand, 0, Neither), Tokens(expand, e, 0, Neither))
    decreases e, 0, 0
  {
    var a, ts := RenderAtomic(e.object_, expand), TokensAtomic(expand, e.object_);
    var i, us := Render(e.index, expand, 0, Neither), Tokens(expand, e.index, 0, Neither);
    AtomicHasTokens(expand, e.object_);
    TextHasTokens(expand, e.index, 0, Neither);
    LexSingle('[');
    LexSingle(']');
    AlwaysIsTo("]", [Punct("]")]);
    AlwaysThen("[", [Punct("[")], i, us);
    ThenOther(a, ts, "[" + i, [Punct("[")] + us);
    Reassociate(a, "[", i);
    Reassociate(ts, [Punct("[")], us);
    ThenOther(a + "[" + i, ts + [Punct("[")] + us, "]", [Punct("]")]);
  }

  /** Two texts with a spaced operator between them. */
  lemma SpacedHasTokens(a: string, ts: seq<Token>, op: string, t: Token, b: string, us: seq<Token>)
    requires LexesTo(a, ts) && LexesAlways(" " + op + " ", [t]) && LexesTo(b, us)
    ensures LexesTo(a + " " + op + " " + b, ts + [t] + us)
  {
    var mid := " " + op + " ";
    AlwaysThen(mid, [t], b, us);
    ThenOther(a, ts, mid + b, [t] + us);
    assert a + " " + op + " " + b == a + (mid + b);
    Reassociate(ts, [t], us);
  }

  lemma {:induction false} BinaryHasTokens(expand: bool, e: ExpressionIR, parentPrec: nat, side: Side)
    requires InFragment(expand, e) && e.Binary?
    ensures LexesTo(Render(e, expand, parentPrec, side), Tokens(expand, e, parentPrec, side))
    decreases e, 0, 0
  {
    var prec := Precedence(e.op);
    var a, b := Render(e.left, expand, prec, Side.Left), Render(e.right, expand, prec, Side.Right);
    var ts, us := Tokens(expand, e.left, prec, Side.Left), Tokens(expand, e.right, prec, Side.Right);
    TextHasTokens(expand, e.left, prec, Side.Left);
    TextHasTokens(expand, e.right, prec, Side.Right);
    LexOperator(e.op);
    SpacedHasTokens(a, ts, OpText(e.op), OpToken(e.op), b, us);
    LexEnclosed(a + " " + OpText(e.op) + " " + b, ts + [OpToken(e.op)] + us);
  }

  lemma {:induction false} TernaryHasTokens(expand: bool, e: ExpressionIR, parentPrec: nat, side: Side)
    requires InFragment(expand, e) && e.Ternary?
    ensures LexesTo(Render(e, expand, parentPrec, side), Tokens(expand, e, parentPrec, side))
    decreases e, 0, 0
  {
    var a, b, c := Render(e.condition, expand, TERNARY_PRECEDENCE, Side.Left), Render(e.whenTrue, expand, 0, Neither), Render(e.whenFalse, expand, 0, Neither);
    var ts, us, vs := Tokens(expand, e.condition, TERNARY_PRECEDENCE, Side.Left), Tokens(expand, e.whenTrue, 0, Neither), Tokens(expand, e.whenFalse, 0, Neither);
    TextHasTokens(expand, e.condition, TERNARY_PRECEDENCE, Side.Left);
    TextHasTokens(expand, e.whenTrue, 0, Neither);
    TextHasTokens(expand, e.whenFalse, 0, Neither);
    LexSpacedPunct("?");
    LexSpacedPunct(":");
    SpacedHasTokens(a, ts, "?", Punct("?"), b, us);
    SpacedHasTokens(a + " " + "?" + " " + b, ts + [Punct("?")] + us, ":", Punct(":"), c, vs);
    var text := a + " ? " + b + " : " + c;
    assert " ? " == " " + "?" + " " && " : " == " " + ":" + " ";
    assert a + " ? " == a + " " + "?" + " ";
    assert text == (a + " " + "?" + " " + b) + " " + ":" + " " + c;
    LexEnclosed(text, ts + [Punct("?")] + us + [Punct(":")] + vs);
  }

  lemma {:induction false} UnaryHasTokens(expand: bool, e: ExpressionIR, parentPrec: nat, side: Side)
    requires InFragment(expand, e) && e.Unary?
    ensures LexesTo(Render(e, expand, parentPrec, side), Tokens(expand, e, parentPrec, side))
    decreases e, 0, 0
  {
    var op, operand := e.operator, e.operand;
    assert !IsLetter(op[0]);
    assert op + "" == op;
    if HidesSign(expand, op, operand) {
      OperandHasTokens(expand, op, operand.expression.operand, e);
      LexDouble(op, PrintedOperand(expand, op, operand.expression.operand), OperandTokens(expand, op, operand.expression.operand));
      HiddenText(expand, op, operand);
    } else {
      OperandHasTokens(expand, op, operand, e);
      OperandStart(expand, op, operand);
      LexPrefix(op, PrintedOperand(expand, op, operand), OperandTokens(expand, op, operand));
    }
  }

  /** An operand as it is printed after its operator. */
  function PrintedOperand(expand: bool, op: string, operand: ExpressionIR): string {
    var rendered := Render(operand, expand, UNARY_PRECEDENCE, Neither);
    if WouldMerge(op, operand) then Parens(rendered) else rendered
  }

  /** A hidden sign is printed right after the sign over it. */
  lemma HiddenText(expand: bool, op: string, operand: ExpressionIR)
    requires IsPrefixOp(op) && HidesSign(expand, op, operand)
    ensures op + PrintedOperand(expand, op, operand) == op + op + PrintedOperand(expand, op, operand.expression.operand)
  {
    assert !IsLetter(op[0]);
    var inner := operand.expression;
    assert Render(inner, expand, UNARY_PRECEDENCE, Neither) == op + "" + PrintedOperand(expand, op, inner.operand);
    assert op + "" == op;
    assert op + (op + PrintedOperand(expand, op, inner.operand)) == op + op + PrintedOperand(expand, op, inner.operand);
  }

  lemma {:induction false} OperandHasTokens(expand: bool, op: string, operand: ExpressionIR, e: ExpressionIR)
    requires IsPrefixOp(op) && operand < e && if Hides(expand, op, operand) then InFragment(expand, operand.expression) else InFragment(expand, operand)
    ensures LexesTo(PrintedOperand(expand, op, operand), OperandTokens(expand, op, operand))
    decreases operand, 3
  {
    TextHasTokens(expand, if Hides(expand, op, operand) then operand.expression else operand, UNARY_PRECEDENCE, Neither);
    LexEnclosed(Render(operand, expand, UNARY_PRECEDENCE, Neither), Tokens(expand, operand, UNARY_PRECEDENCE, Neither));
  }

  lemma OperandStart(expand: bool, op: string, operand: ExpressionIR)
    requires IsPrefixOp(op) && !HidesSign(expand, op, operand)
    requires if Hides(expand, op, operand) then InFragment(expand, operand.expression) else InFragment(expand, operand)
    ensures var s := PrintedOperand(expand, op, operand); s != [] && MayFollowPrefix(op, s[0])
  {
    var shown := if Hides(expand, op, operand) then operand.expression else operand;
    FirstChar(expand, shown, UNARY_PRECEDENCE, Neither);
    if shown.Unary? {
      assert [shown.operator[0]] == shown.operator;
    }
  }

  /** Two signs in a row are one punctuator. */
  lemma LexDouble(op: string, s: string, ts: seq<Token>)
    requires (op == "+" || op == "-") && LexesTo(s, ts)
    ensures LexesTo(op + op + s, [Punct(op + op)] + ts)
  {
    forall rest | Follow(rest) ensures LexesOn(op + op + s, [Punct(op + op)] + ts, rest) {
      DoubleMunch(op, op + op + (s + rest));
      LexPunctOn(op + op, s + rest);
      assert LexesOn(s, ts, rest);
      Joined(op + op, [Punct(op + op)], s, ts, rest);
    }
  }

  lemma DoubleMunch(op: string, s: string)
    requires (op == "+" || op == "-") && |s| >= 2 && s[..2] == op + op
    ensures MunchLength(s) == 2
  {
    assert s[0] == op[0] && s[1] == op[0];
    assert op + op == "++" || op + op == "--";
    assert |s| >= 3 ==> s[..3][0] == op[0] && s[..3][1] == op[0];
    assert |s| >= 4 ==> s[..4][0] == op[0];
  }

  // ---------------------------------------------------------------------
  // The round trip
  // ---------------------------------------------------------------------

  /** What a printed expression reads as, exactly. */
  lemma PrintedReadsAs(expand: bool, e: ExpressionIR)
    requires Readable(expand, e)
    ensures ReadExpression(RenderExpression(e, expand)) == Some(ReadsAs(expand, e))
  {
    var s, ts := Render(e, expand, 0, Neither), Tokens(expand, e, 0, Neither);
    TextHasTokens(expand, e, 0, Neither);
    WholeText(s, ts);
    TopReads(expand, e, 0, Neither, []);
    TailEnds(ReadsAs(expand, e), []);
    assert ts + [] == ts;
  }

  lemma WholeText(s: string, ts: seq<Token>)
    requires LexesTo(s, ts)
    ensures Lex(s) == Some(ts)
  {
    assert LexesOn(s, ts, "");
    assert s + "" == s && ts + [] == ts;
  }

  /** No conditional has a conditional for its condition. */
  predicate Straight(t: Tree) {
    match t
    case Name(_) => true
    case Constant(_) => true
    case Member(obj, _) => Straight(obj)
    case Index(obj, index) => Straight(obj) && Straight(index)
    case Apply(callee, args) => Straight(callee) && forall i :: 0 <= i < |args| ==> Straight(args[i])
    case Infix(left, _, right) => Straight(left) && Straight(right)
    case Prefix(_, operand) => Straight(operand)
    case Update(_, operand, _) => Straight(operand)
    case Cond(c, whenTrue, whenFalse) => !c.Cond? && Straight(c) && Straight(whenTrue) && Straight(whenFalse)
  }

  lemma {:induction false} RotateStraight(c: Tree, t: Tree, f: Tree)
    requires Straight(c) && Straight(t) && Straight(f)
    ensures Straight(Rotate(c, t, f))
    decreases c
  {
    if c.Cond? {
      RotateStraight(c.whenFalse, t, f);
    }
  }

  /** Reading never gives a conditional as a condition, because the printer never
      prints the parentheses it would take. */
  lemma {:induction false} ReadingIsStraight(expand: bool, e: ExpressionIR)
    ensures Straight(ReadsAs(expand, e))
    decreases e
  {
    match e
    case BindingRef(_, expression) => ReadingIsStraight(expand, expression);
    case RefRead(ref, _) => ReadingIsStraight(expand, ref);
    case Snapshot(ref, args, _) =>
      ReadingIsStraight(expand, ref);
      forall i | 0 <= i < |args| ensures Straight(ReadsAs(expand, args[i])) { ReadingIsStraight(expand, args[i]); }
    case MethodCall(receiver, _, args) =>
      ReadingIsStraight(expand, receiver);
      forall i | 0 <= i < |args| ensures Straight(ReadsAs(expand, args[i])) { ReadingIsStraight(expand, args[i]); }
    case PropertyAccess(object_, _) => ReadingIsStraight(expand, object_);
    case Call(callee, args) =>
      ReadingIsStraight(expand, callee);
      forall i | 0 <= i < |args| ensures Straight(ReadsAs(expand, args[i])) { ReadingIsStraight(expand, args[i]); }
    case Binary(left, _, right) =>
      ReadingIsStraight(expand, left);
      ReadingIsStraight(expand, right);
    case Unary(_, operand, _) => ReadingIsStraight(expand, operand);
    case Ternary(c, t, f) =>
      ReadingIsStraight(expand, c);
      ReadingIsStraight(expand, t);
      ReadingIsStraight(expand, f);
      RotateStraight(ReadsAs(expand, c), ReadsAs(expand, t), ReadsAs(expand, f));
    case ElementAccess(object_, index) =>
      ReadingIsStraight(expand, object_);
      ReadingIsStraight(expand, index);
    case _ =>
  }

  /** Straight as written means read as written. */
  ghost predicate StraightAsRead(expand: bool, e: ExpressionIR) {
    && (Straight(Syntax(expand, e)) <==> NoTernaryCondition(expand, e))
    && (NoTernaryCondition(expand, e) ==> ReadsAs(expand, e) == Syntax(expand, e))
  }

  lemma {:induction false} StraightSyntax(expand: bool, e: ExpressionIR)
    requires InFragment(expand, e)
    ensures StraightAsRead(expand, e)
    decreases e, 2
  {
    match e
    case RefRead(ref, _) => StraightSyntax(expand, ref);
    case Snapshot(ref, args, _) => StraightCall(expand, ref, args, e);
    case MethodCall(_, _, _) => StraightMethodCall(expand, e);
    case PropertyAccess(object_, _) => StraightSyntax(expand, object_);
    case Call(callee, args) => StraightCall(expand, callee, args, e);
    case Binary(left, _, right) => StraightPair(expand, left, right, e);
    case Unary(op, operand, _) => StraightSyntax(expand, if Hides(expand, op, operand) then operand.expression else operand);
    case Ternary(_, _, _) => StraightChoice(expand, e);
    case ElementAccess(object_, index) => StraightPair(expand, object_, index, e);
    case _ =>
  }

  lemma {:induction false} StraightPair(expand: bool, a: ExpressionIR, b: ExpressionIR, e: ExpressionIR)
    requires InFragment(expand, e)
    requires (e.Binary? && e.left == a && e.right == b) || (e.ElementAccess? && e.object_ == a && e.index == b)
    ensures StraightAsRead(expand, e)
    decreases e, 0
  {
    StraightSyntax(expand, a);
    StraightSyntax(expand, b);
  }

  lemma {:induction false} StraightChoice(expand: bool, e: ExpressionIR)
    requires InFragment(expand, e) && e.Ternary?
    ensures StraightAsRead(expand, e)
    decreases e, 0
  {
    StraightSyntax(expand, e.condition);
    StraightSyntax(expand, e.whenTrue);
    StraightSyntax(expand, e.whenFalse);
    OnlyTernariesReadAsConditionals(expand, e.condition);
  }

  lemma {:induction false} StraightCall(expand: bool, callee: ExpressionIR, args: seq<ExpressionIR>, e: ExpressionIR)
    requires InFragment(expand, e)
    requires (e.Snapshot? && e.ref == callee && e.args == args) || (e.Call? && e.callee == callee && e.args == args)
    ensures StraightAsRead(expand, e)
    decreases e, 0
  {
    StraightSyntax(expand, callee);
    StraightArgs(expand, e, args);
    assert forall i :: 0 <= i < |args| ==> Syntax(expand, e).args[i] == Syntax(expand, args[i]);
  }

  lemma {:induction false} StraightMethodCall(expand: bool, e: ExpressionIR)
    requires InFragment(expand, e) && e.MethodCall?
    ensures StraightAsRead(expand, e)
    decreases e, 0
  {
    StraightSyntax(expand, e.receiver);
    StraightArgs(expand, e, e.args);
    assert forall i :: 0 <= i < |e.args| ==> Syntax(expand, e).args[i] == Syntax(expand, e.args[i]);
  }

  lemma {:induction false} StraightArgs(expand: bool, parent: ExpressionIR, args: seq<ExpressionIR>)
    requires forall i :: 0 <= i < |args| ==> InFragment(expand, args[i]) && args[i] < parent
    ensures forall i :: 0 <= i < |args| ==> (Straight(Syntax(expand, args[i])) <==> NoTernaryCondition(expand, args[i]))
    ensures (forall i :: 0 <= i < |args| ==> NoTernaryCondition(expand, args[i])) ==>
      seq(|args|, i requires 0 <= i < |args| => ReadsAs(expand, args[i])) == seq(|args|, i requires 0 <= i < |args| => Syntax(expand, args[i]))
    decreases parent, 0, 0
  {
    forall i | 0 <= i < |args| ensures StraightAsRead(expand, args[i])
    {
      StraightSyntax(expand, args[i]);
    }
  }
}
