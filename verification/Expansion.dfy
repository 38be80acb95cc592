/** Printing with bindings by name, and with bindings replaced by their expressions
    (experimental/compiler/src/expression-ir.ts, `expandBindings`). */
module Expansion {
  import opened Prelude
  import opened Expressions
  import opened Grammar
  import opened RoundTrip
  import opened Updates

  // ---------------------------------------------------------------------
  // Bindings by name
  // ---------------------------------------------------------------------

  lemma {:induction false} NamesHideNothing(e: ExpressionIR)
    ensures NoHiddenSign(false, e)
    decreases e
  {
    match e
    case RefRead(ref, _) => NamesHideNothing(ref);
    case Snapshot(ref, args, _) =>
      NamesHideNothing(ref);
      forall i | 0 <= i < |args| ensures NoHiddenSign(false, args[i]) { NamesHideNothing(args[i]); }
    case MethodCall(receiver, _, args) =>
      NamesHideNothing(receiver);
      forall i | 0 <= i < |args| ensures NoHiddenSign(false, args[i]) { NamesHideNothing(args[i]); }
    case PropertyAccess(object_, _) => NamesHideNothing(object_);
    case Call(callee, args) =>
      NamesHideNothing(callee);
      forall i | 0 <= i < |args| ensures NoHiddenSign(false, args[i]) { NamesHideNothing(args[i]); }
    case Binary(left, _, right) =>
      NamesHideNothing(left);
      NamesHideNothing(right);
    case Unary(_, operand, _) => NamesHideNothing(operand);
    case Ternary(c, t, f) =>
      NamesHideNothing(c);
      NamesHideNothing(t);
      NamesHideNothing(f);
    case ElementAccess(object_, index) =>
      NamesHideNothing(object_);
      NamesHideNothing(index);
    case _ =>
  }

  /** Printing and reading back gives the expression, exactly when it has no
      conditional as the condition of a conditional. */
  lemma PrintingRoundTrips(e: ExpressionIR)
    requires InFragment(false, e)
    ensures ReadExpression(RenderExpression(e, false)) == Some(Syntax(false, e)) <==> NoTernaryCondition(false, e)
  {
    NamesHideNothing(e);
    TreeRoundTrips(false, e);
  }

  function Conditional(a: string, b: string, c: string): ExpressionIR {
    Ternary(Identifier(a), Identifier(b), Identifier(c))
  }

  /** A conditional as a condition: `(a ? b : c) ? d : e` is printed without its
      parentheses, and reads as `a ? b : (c ? d : e)`, whatever the names. */
  lemma TernaryConditionIsMisread(a: string, b: string, c: string, d: string, e: string)
    requires IsName(a) && IsName(b) && IsName(c) && IsName(d) && IsName(e)
    ensures var x := Ternary(Conditional(a, b, c), Identifier(d), Identifier(e));
      && RenderExpression(x, false) == RenderExpression(Ternary(Identifier(a), Identifier(b), Conditional(c, d, e)), false)
      && ReadExpression(RenderExpression(x, false)) == Some(Cond(Name(a), Name(b), Cond(Name(c), Name(d), Name(e))))
      && Syntax(false, x) == Cond(Cond(Name(a), Name(b), Name(c)), Name(d), Name(e))
  {
    var inner := Conditional(a, b, c);
    TernaryReads(Identifier(a), Identifier(b), Identifier(c));
    TernaryReads(inner, Identifier(d), Identifier(e));
    NamesHideNothing(Ternary(inner, Identifier(d), Identifier(e)));
    PrintedReadsAs(false, Ternary(inner, Identifier(d), Identifier(e)));
    SameText(a, b, c, d, e);
  }

  lemma TernaryReads(c: ExpressionIR, t: ExpressionIR, f: ExpressionIR)
    requires InFragment(false, c) && InFragment(false, t) && InFragment(false, f)
    ensures InFragment(false, Ternary(c, t, f))
    ensures ReadsAs(false, Ternary(c, t, f)) == Rotate(ReadsAs(false, c), ReadsAs(false, t), ReadsAs(false, f))
    ensures Syntax(false, Ternary(c, t, f)) == Cond(Syntax(false, c), Syntax(false, t), Syntax(false, f))
  {
  }

  lemma SameText(a: string, b: string, c: string, d: string, e: string)
    ensures RenderExpression(Ternary(Conditional(a, b, c), Identifier(d), Identifier(e)), false)
         == RenderExpression(Ternary(Identifier(a), Identifier(b), Conditional(c, d, e)), false)
  {
    var x := a + " ? " + b + " : " + c;
    var y := c + " ? " + d + " : " + e;
    assert Render(Conditional(a, b, c), false, TERNARY_PRECEDENCE, Side.Left) == x;
    assert Render(Conditional(c, d, e), false, 0, Neither) == y;
    var start := a + " ? " + b + " : ";
    RenderConditional(Conditional(a, b, c), Identifier(d), Identifier(e));
    RenderConditional(Identifier(a), Identifier(b), Conditional(c, d, e));
    assert x == start + c;
    assert x + " ? " + d + " : " + e == start + y;
  }

  lemma RenderConditional(c: ExpressionIR, t: ExpressionIR, f: ExpressionIR)
    ensures Render(Ternary(c, t, f), false, 0, Neither)
      == Render(c, false, TERNARY_PRECEDENCE, Side.Left) + " ? " + Render(t, false, 0, Neither) + " : " + Render(f, false, 0, Neither)
  {
  }

  // ---------------------------------------------------------------------
  // Bindings expanded
  // ---------------------------------------------------------------------

  /** `Expand`, except that a binding stays where it hides a prefix operator from
      the printer: right under the same operator. */
  function Marked(e: ExpressionIR): ExpressionIR
    decreases e
  {
    match e
    case BindingRef(_, expression) => Marked(expression)
    case RefRead(ref, kind) => RefRead(Marked(ref), kind)
    case Snapshot(ref, args, kind) => Snapshot(Marked(ref), seq(|args|, i requires 0 <= i < |args| => Marked(args[i])), kind)
    case MethodCall(receiver, method_, args) => MethodCall(Marked(receiver), method_, seq(|args|, i requires 0 <= i < |args| => Marked(args[i])))
    case PropertyAccess(object_, property) => PropertyAccess(Marked(object_), property)
    case Call(callee, args) => Call(Marked(callee), seq(|args|, i requires 0 <= i < |args| => Marked(args[i])))
    case Binary(left, op, right) => Binary(Marked(left), op, Marked(right))
    case Unary(op, operand, prefix) =>
      Unary(op, if operand.BindingRef? && WouldMerge(op, Marked(operand)) then BindingRef("", Marked(operand)) else Marked(operand), prefix)
    case Template(parts) => Template(seq(|parts|, i requires 0 <= i < |parts| => Marked(parts[i])))
    case Ternary(condition, whenTrue, whenFalse) => Ternary(Marked(condition), Marked(whenTrue), Marked(whenFalse))
    case ElementAccess(object_, index) => ElementAccess(Marked(object_), Marked(index))
    case _ => e
  }

  /** No plus stands over a binding of an expression that begins with a plus, and no
      minus over one of an expression that begins with a minus. */
  predicate NoSignHidden(e: ExpressionIR)
    decreases e
  {
    match e
    case BindingRef(_, expression) => NoSignHidden(expression)
    case RefRead(ref, _) => NoSignHidden(ref)
    case Snapshot(ref, args, _) => NoSignHidden(ref) && forall i :: 0 <= i < |args| ==> NoSignHidden(args[i])
    case MethodCall(receiver, _, args) => NoSignHidden(receiver) && forall i :: 0 <= i < |args| ==> NoSignHidden(args[i])
    case PropertyAccess(object_, _) => NoSignHidden(object_)
    case Call(callee, args) => NoSignHidden(callee) && forall i :: 0 <= i < |args| ==> NoSignHidden(args[i])
    case Binary(left, _, right) => NoSignHidden(left) && NoSignHidden(right)
    case Unary(op, operand, _) =>
      NoSignHidden(operand) && ((op == "+" || op == "-") && operand.BindingRef? ==> !WouldMerge(op, Expand(operand)))
    case Ternary(condition, whenTrue, whenFalse) => NoSignHidden(condition) && NoSignHidden(whenTrue) && NoSignHidden(whenFalse)
    case ElementAccess(object_, index) => NoSignHidden(object_) && NoSignHidden(index)
    case _ => true
  }

  /** Marking changes nothing but which bindings are left. */
  ghost predicate SameButMarks(e: ExpressionIR, m: ExpressionIR, x: ExpressionIR) {
    && (InFragment(true, m) <==> InFragment(true, x))
    && Syntax(true, m) == Syntax(true, x)
    && (NoTernaryCondition(true, m) <==> NoTernaryCondition(true, x))
    && (NoHiddenSign(true, m) <==> NoSignHidden(e))
    && m.Ternary? == x.Ternary? && !m.BindingRef? && !x.BindingRef?
    && (forall op :: WouldMerge(op, m) <==> WouldMerge(op, x))
  }

  lemma {:induction false} MarkedIs(e: ExpressionIR)
    ensures MarkedSame(e)
    decreases e
  {
    match e
    case BindingRef(_, expression) => MarkedIs(expression);
    case RefRead(ref, _) =>
      MarkedIs(ref);
      MarkedOne(e, ref);
    case Snapshot(ref, args, _) =>
      MarkedIs(ref);
      MarkedArgs(e, args);
      MarkedCall(e, ref, args);
    case MethodCall(receiver, _, args) =>
      MarkedIs(receiver);
      MarkedArgs(e, args);
      MarkedCall(e, receiver, args);
    case PropertyAccess(object_, _) =>
      MarkedIs(object_);
      MarkedOne(e, object_);
    case Call(callee, args) =>
      MarkedIs(callee);
      MarkedArgs(e, args);
      MarkedCall(e, callee, args);
    case Binary(left, _, right) =>
      MarkedIs(left);
      MarkedIs(right);
      MarkedTwo(e, left, right);
    case Unary(op, operand, prefix) =>
      MarkedIs(operand);
      MarkedUnary(e);
    case Ternary(c, t, f) =>
      MarkedIs(c);
      MarkedIs(t);
      MarkedIs(f);
      MarkedTernary(e);
    case ElementAccess(object_, index) =>
      MarkedIs(object_);
      MarkedIs(index);
      MarkedTwo(e, object_, index);
    case _ =>
  }

  ghost predicate MarkedSame(e: ExpressionIR) {
    SameButMarks(e, Marked(e), Expand(e))
  }

  lemma MarkedOne(e: ExpressionIR, part: ExpressionIR)
    requires (e.RefRead? && e.ref == part) || (e.PropertyAccess? && e.object_ == part)
    requires MarkedSame(part)
    ensures MarkedSame(e)
  {
  }

  lemma MarkedTwo(e: ExpressionIR, a: ExpressionIR, b: ExpressionIR)
    requires (e.Binary? && e.left == a && e.right == b) || (e.ElementAccess? && e.object_ == a && e.index == b)
    requires MarkedSame(a) && MarkedSame(b)
    ensures MarkedSame(e)
  {
    hide IsName, IsWord, LeftAssociative, Hides, HidesSign;
  }

  lemma MarkedTernary(e: ExpressionIR)
    requires e.Ternary? && MarkedSame(e.condition) && MarkedSame(e.whenTrue) && MarkedSame(e.whenFalse)
    ensures MarkedSame(e)
  {
    hide IsName, IsWord, LeftAssociative, Hides, HidesSign;
  }

  lemma MarkedCall(e: ExpressionIR, callee: ExpressionIR, args: seq<ExpressionIR>)
    requires (e.Snapshot? && e.ref == callee && e.args == args) || (e.MethodCall? && e.receiver == callee && e.args == args)
      || (e.Call? && e.callee == callee && e.args == args)
    requires MarkedSame(callee) && SameArgs(args)
    ensures MarkedSame(e)
  {
    hide IsName, IsWord, LeftAssociative, Hides, HidesSign;
    var ms, xs := Marked(e).args, Expand(e).args;
    forall i | 0 <= i < |args| ensures SameButMarks(args[i], ms[i], xs[i]) {
      assert MarkedSame(args[i]);
    }
    assert seq(|ms|, i requires 0 <= i < |ms| => Syntax(true, ms[i])) == seq(|xs|, i requires 0 <= i < |xs| => Syntax(true, xs[i]));
  }

  ghost predicate SameArgs(args: seq<ExpressionIR>) {
    forall i :: 0 <= i < |args| ==> MarkedSame(args[i])
  }

  lemma MarkedUnary(e: ExpressionIR)
    requires e.Unary? && MarkedSame(e.operand)
    ensures MarkedSame(e)
  {
    var op, m, x := e.operator, Marked(e.operand), Expand(e.operand);
    assert WouldMerge(op, m) <==> WouldMerge(op, x);
  }

  lemma {:induction false} MarkedArgs(parent: ExpressionIR, args: seq<ExpressionIR>)
    requires forall i :: 0 <= i < |args| ==> args[i] < parent
    ensures SameArgs(args)
    decreases parent, 0
  {
    forall i | 0 <= i < |args| ensures MarkedSame(args[i]) {
      MarkedIs(args[i]);
    }
  }

  /** Printing with bindings expanded is printing the marked expression. */
  lemma {:induction false} MarkedPrints(e: ExpressionIR, parentPrec: nat, side: Side)
    ensures Render(e, true, parentPrec, side) == Render(Marked(e), true, parentPrec, side)
    decreases e, 0
  {
    match e
    case BindingRef(_, expression) => MarkedPrints(expression, parentPrec, side);
    case RefRead(ref, _) => MarkedPrintsAtomic(ref);
    case Snapshot(ref, args, _) =>
      MarkedPrintsAtomic(ref);
      MarkedPrintsArgs(e, Marked(e), args, Marked(e).args, |args|);
    case MethodCall(receiver, _, args) =>
      MarkedPrintsAtomic(receiver);
      MarkedPrintsArgs(e, Marked(e), args, Marked(e).args, |args|);
    case PropertyAccess(object_, _) => MarkedPrintsAtomic(object_);
    case Call(callee, args) =>
      MarkedPrintsAtomic(callee);
      MarkedPrintsArgs(e, Marked(e), args, Marked(e).args, |args|);
    case Binary(left, op, right) =>
      MarkedPrints(left, Precedence(op), Side.Left);
      MarkedPrints(right, Precedence(op), Side.Right);
    case Unary(op, operand, prefix) => MarkedPrintsUnary(e, parentPrec, side);
    case Template(parts) => MarkedPrintsParts(e, Marked(e), parts, Marked(e).parts, |parts|);
    case Ternary(condition, whenTrue, whenFalse) =>
      MarkedPrints(condition, TERNARY_PRECEDENCE, Side.Left);
      MarkedPrints(whenTrue, 0, Neither);
      MarkedPrints(whenFalse, 0, Neither);
    case ElementAccess(object_, index) =>
      MarkedPrintsAtomic(object_);
      MarkedPrints(index, 0, Neither);
    case _ =>
  }

  lemma {:induction false} MarkedPrintsUnary(e: ExpressionIR, parentPrec: nat, side: Side)
    requires e.Unary?
    ensures Render(e, true, parentPrec, side) == Render(Marked(e), true, parentPrec, side)
    decreases e, 0, 0
  {
    var m := Marked(e.operand);
    MarkedPrints(e.operand, UNARY_PRECEDENCE, Neither);
    MarkedPrintsAtomic(e.operand);
    assert Render(BindingRef("", m), true, UNARY_PRECEDENCE, Neither) == Render(m, true, UNARY_PRECEDENCE, Neither);
    assert RenderAtomic(BindingRef("", m), true) == RenderAtomic(m, true);
    assert !e.operand.BindingRef? ==> (WouldMerge(e.operator, e.operand) <==> WouldMerge(e.operator, m));
    assert !WouldMerge(e.operator, BindingRef("", m));
  }

  lemma {:induction false} MarkedPrintsAtomic(e: ExpressionIR)
    ensures RenderAtomic(e, true) == RenderAtomic(Marked(e), true)
    decreases e, 1
  {
    if e.BindingRef? {
      MarkedPrintsAtomic(e.expression);
    } else {
      MarkedPrints(e, 0, Neither);
      assert IsAtomic(e) <==> IsAtomic(Marked(e));
    }
  }

  lemma {:induction false} MarkedPrintsArgs(e: ExpressionIR, e': ExpressionIR, args: seq<ExpressionIR>, args': seq<ExpressionIR>, n: nat)
    requires n <= |args| == |args'| && forall i :: 0 <= i < |args| ==> args[i] < e && args'[i] < e' && args'[i] == Marked(args[i])
    ensures RenderArgs(e, args, n, true) == RenderArgs(e', args', n, true)
    decreases e, 0, n
  {
    if n > 0 {
      MarkedPrints(args[n - 1], 0, Neither);
      if n > 1 {
        MarkedPrintsArgs(e, e', args, args', n - 1);
      }
    }
  }

  lemma {:induction false} MarkedPrintsParts(e: ExpressionIR, e': ExpressionIR, parts: seq<ExpressionIR>, parts': seq<ExpressionIR>, n: nat)
    requires n <= |parts| == |parts'| && forall i :: 0 <= i < |parts| ==> parts[i] < e && parts'[i] < e' && parts'[i] == Marked(parts[i])
    ensures RenderParts(e, parts, n, true) == RenderParts(e', parts', n, true)
    decreases e, 0, n
  {
    if n > 0 {
      MarkedPrints(parts[n - 1], 0, Neither);
      MarkedPrintsParts(e, e', parts, parts', n - 1);
      LiteralPrints(parts[n - 1]);
      LiteralPrints(parts'[n - 1]);
    }
  }

  lemma LiteralPrints(part: ExpressionIR)
    ensures (if part.Literal? then part.value else Render(part, true, 0, Neither)) == Render(part, true, 0, Neither)
  {
  }

  /** The round trip with bindings expanded: exactly without a conditional as a
      condition, and without a sign over the same sign in a binding. Over a binding,
      `!` and `~` may be repeated. */
  lemma ExpandedRoundTrips(e: ExpressionIR)
    requires InFragment(true, Expand(e))
    ensures ReadExpression(RenderExpression(e, true)) == Some(Syntax(true, Expand(e))) <==> NoTernaryCondition(true, Expand(e)) && NoSignHidden(e)
  {
    MarkedIs(e);
    MarkedPrints(e, 0, Neither);
    TreeRoundTrips(true, Marked(e));
  }

  /** A minus over a binding of a negated name: it is printed as a decrement, and
      reads as one. */
  lemma HiddenMinusDecrements(name: string, a: string)
    requires IsName(a)
    ensures var e := Unary("-", BindingRef(name, Unary("-", Identifier(a), true)), true);
      && RenderExpression(e, true) == "--" + a
      && ReadExpression(RenderExpression(e, true)) == Some(Update("--", Name(a), true))
      && Syntax(true, Expand(e)) == Prefix("-", Prefix("-", Name(a)))
  {
    MarkedMinus(name, a);
    MarkedPrints(Unary("-", BindingRef(name, Minus(a)), true), 0, Neither);
    MinusReads(a);
    MinusText(name, a);
    MinusSyntax(name, a);
  }

  lemma MinusReads(a: string)
    requires IsName(a)
    ensures ReadExpression(RenderExpression(Unary("-", BindingRef("", Minus(a)), true), true)) == Some(Update("--", Name(a), true))
  {
    var m := Unary("-", BindingRef("", Minus(a)), true);
    MinusTokens(a);
    TextHasTokens(true, m, 0, Neither);
    WholeText(RenderExpression(m, true), [Punct("--"), Word(a)]);
    DecrementReads(a);
  }

  lemma MinusSyntax(name: string, a: string)
    ensures Syntax(true, Expand(Unary("-", BindingRef(name, Minus(a)), true))) == Prefix("-", Prefix("-", Name(a)))
  {
    assert Expand(Identifier(a)) == Identifier(a);
    assert Expand(Minus(a)) == Minus(a);
    assert Expand(BindingRef(name, Minus(a))) == Expand(Minus(a));
    assert Syntax(true, Identifier(a)) == Name(a);
    assert Syntax(true, Minus(a)) == Prefix("-", Name(a));
  }

  function Minus(a: string): ExpressionIR {
    Unary("-", Identifier(a), true)
  }

  lemma MarkedMinus(name: string, a: string)
    ensures Marked(Unary("-", BindingRef(name, Minus(a)), true)) == Unary("-", BindingRef("", Minus(a)), true)
  {
    var operand := BindingRef(name, Minus(a));
    assert Marked(Identifier(a)) == Identifier(a);
    assert Marked(Minus(a)) == Minus(a);
    assert operand.expression == Minus(a) && Marked(operand) == Marked(operand.expression);
    assert WouldMerge("-", Marked(operand));
  }

  lemma MinusTokens(a: string)
    requires IsName(a)
    ensures var m := Unary("-", BindingRef("", Minus(a)), true);
      InFragment(true, m) && Tokens(true, m, 0, Neither) == [Punct("--"), Word(a)]
  {
    assert InFragment(true, Minus(a));
    assert HidesSign(true, "-", BindingRef("", Minus(a))) && "-" + "-" == "--";
    assert OperandTokens(true, "-", Identifier(a)) == [Word(a)];
  }

  lemma MinusText(name: string, a: string)
    ensures RenderExpression(Unary("-", BindingRef(name, Minus(a)), true), true) == "--" + a
  {
    HiddenText(true, "-", BindingRef(name, Minus(a)));
    assert PrintedOperand(true, "-", Identifier(a)) == a;
    assert !IsLetter("-"[0]);
    assert "-" + "" == "-" && "-" + "-" + a == "--" + a;
  }

  lemma DecrementReads(a: string)
    requires IsName(a)
    ensures ParseConditional([Punct("--"), Word(a)]) == Some(Parsed(Update("--", Name(a), true), []))
  {
    var ts, us := [Punct("--"), Word(a)], [Word(a)];
    assert ts[1..] == us && us[1..] == [];
    assert ParsePrimary(us) == Some(Parsed(Name(a), []));
    assert PostfixRest(Name(a), []) == Some(Parsed(Name(a), []));
    assert ParseUnary(us) == Some(Parsed(Name(a), []));
    assert !IsPrefixOp("--") && IsUpdate(Punct("--"));
    var read := Parsed(Update("--", Name(a), true), []);
    assert ParseUnary(ts) == Some(read);
    assert ParseBinary(1, ts) == Some(read);
  }
}
