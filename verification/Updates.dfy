/** Where a printed expression holds an increment or a decrement, it is read as one:
    no such expression reads as what was printed. */
module Updates {
  import opened Prelude
  import opened Expressions
  import opened Grammar
  import opened RoundTrip

  predicate NoUpdate(t: Tree) {
    match t
    case Name(_) => true
    case Constant(_) => true
    case Member(obj, _) => NoUpdate(obj)
    case Index(obj, index) => NoUpdate(obj) && NoUpdate(index)
    case Apply(callee, args) => NoUpdate(callee) && forall i :: 0 <= i < |args| ==> NoUpdate(args[i])
    case Infix(left, _, right) => NoUpdate(left) && NoUpdate(right)
    case Prefix(_, operand) => NoUpdate(operand)
    case Update(_, _, _) => false
    case Cond(c, whenTrue, whenFalse) => NoUpdate(c) && NoUpdate(whenTrue) && NoUpdate(whenFalse)
  }

  lemma {:induction false} SyntaxHasNoUpdate(expand: bool, e: ExpressionIR)
    ensures NoUpdate(Syntax(expand, e))
    decreases e
  {
    match e
    case BindingRef(_, expression) => SyntaxHasNoUpdate(expand, expression);
    case RefRead(ref, _) => SyntaxHasNoUpdate(expand, ref);
    case Snapshot(ref, args, _) =>
      SyntaxHasNoUpdate(expand, ref);
      forall i | 0 <= i < |args| ensures NoUpdate(Syntax(expand, args[i])) { SyntaxHasNoUpdate(expand, args[i]); }
    case MethodCall(receiver, _, args) =>
      SyntaxHasNoUpdate(expand, receiver);
      forall i | 0 <= i < |args| ensures NoUpdate(Syntax(expand, args[i])) { SyntaxHasNoUpdate(expand, args[i]); }
    case PropertyAccess(object_, _) => SyntaxHasNoUpdate(expand, object_);
    case Call(callee, args) =>
      SyntaxHasNoUpdate(expand, callee);
      forall i | 0 <= i < |args| ensures NoUpdate(Syntax(expand, args[i])) { SyntaxHasNoUpdate(expand, args[i]); }
    case Binary(left, _, right) =>
      SyntaxHasNoUpdate(expand, left);
      SyntaxHasNoUpdate(expand, right);
    case Unary(_, operand, _) => SyntaxHasNoUpdate(expand, operand);
    case Ternary(c, t, f) =>
      SyntaxHasNoUpdate(expand, c);
      SyntaxHasNoUpdate(expand, t);
      SyntaxHasNoUpdate(expand, f);
    case ElementAccess(object_, index) =>
      SyntaxHasNoUpdate(expand, object_);
      SyntaxHasNoUpdate(expand, index);
    case _ =>
  }

  // ---------------------------------------------------------------------
  // What a parse without updates consumes
  // ---------------------------------------------------------------------

  /** `rest` is what is left of `ts` after some tokens, none of them an update. */
  predicate Consumes(ts: seq<Token>, rest: seq<Token>) {
    && |rest| <= |ts| && rest == ts[|ts| - |rest|..]
    && forall i :: 0 <= i < |ts| - |rest| ==> !IsUpdate(ts[i])
  }

  lemma ConsumesOne(ts: seq<Token>)
    requires ts != [] && !IsUpdate(ts[0])
    ensures Consumes(ts, ts[1..])
  {
  }

  lemma ConsumesThen(ts: seq<Token>, us: seq<Token>, vs: seq<Token>)
    requires Consumes(ts, us) && Consumes(us, vs)
    ensures Consumes(ts, vs)
  {
    forall i | 0 <= i < |ts| - |vs| ensures !IsUpdate(ts[i]) {
      if i >= |ts| - |us| {
        assert us[i - (|ts| - |us|)] == ts[i];
      }
    }
  }

  lemma ConsumesOneThen(ts: seq<Token>, rest: seq<Token>)
    requires ts != [] && !IsUpdate(ts[0]) && Consumes(ts[1..], rest)
    ensures Consumes(ts, rest)
  {
    ConsumesOne(ts);
    ConsumesThen(ts, ts[1..], rest);
  }

  lemma {:induction false} ConditionalConsumes(ts: seq<Token>)
    ensures var p := ParseConditional(ts); p.Some? && NoUpdate(p.value.tree) ==> Consumes(ts, p.value.rest)
    decreases |ts|, 6
  {
    BinaryConsumes(1, ts);
    var c := ParseBinary(1, ts);
    if c.Some? {
      ConditionalRestConsumes(c.value.tree, c.value.rest);
      var p := ParseConditional(ts);
      if p.Some? && NoUpdate(p.value.tree) {
        ConsumesThen(ts, c.value.rest, p.value.rest);
      }
    }
  }

  lemma {:induction false} ConditionalRestConsumes(c: Tree, ts: seq<Token>)
    ensures var p := ConditionalRest(c, ts); p.Some? && NoUpdate(p.value.tree) ==> NoUpdate(c) && Consumes(ts, p.value.rest)
    decreases |ts|, 0
  {
    hide ParseConditional;
    var p := ConditionalRest(c, ts);
    if p.Some? && NoUpdate(p.value.tree) && ts != [] && ts[0] == Punct("?") {
      var t := ParseConditional(ts[1..]).value;
      ConditionalConsumes(ts[1..]);
      ConditionalConsumes(t.rest[1..]);
      ConsumesOneThen(ts, t.rest);
      ConsumesOneThen(t.rest, p.value.rest);
      ConsumesThen(ts, t.rest, p.value.rest);
    }
  }

  lemma {:induction false} BinaryConsumes(min: nat, ts: seq<Token>)
    ensures var p := ParseBinary(min, ts); p.Some? && NoUpdate(p.value.tree) ==> Consumes(ts, p.value.rest)
    decreases |ts|, 5
  {
    UnaryConsumes(ts);
    var u := ParseUnary(ts);
    if u.Some? {
      BinaryRestConsumes(u.value.tree, min, u.value.rest);
      var p := ParseBinary(min, ts);
      if p.Some? && NoUpdate(p.value.tree) {
        ConsumesThen(ts, u.value.rest, p.value.rest);
      }
    }
  }

  lemma OperatorIsNoUpdate(t: Token)
    requires OpOf(t).Some?
    ensures !IsUpdate(t)
  {
  }

  lemma {:induction false} BinaryRestConsumes(left: Tree, min: nat, ts: seq<Token>)
    ensures var p := BinaryRest(left, min, ts); p.Some? && NoUpdate(p.value.tree) ==> NoUpdate(left) && Consumes(ts, p.value.rest)
    decreases |ts|, 0
  {
    hide ParseBinary, PunctOp, OpOf, Rung, IsUpdate;
    var p := BinaryRest(left, min, ts);
    if ts != [] && OpOf(ts[0]).Some? && Rung(OpOf(ts[0]).value) >= min && p.Some? && NoUpdate(p.value.tree) {
      var op := OpOf(ts[0]).value;
      var right := ParseBinary(Rung(op) + 1, ts[1..]).value;
      BinaryConsumes(Rung(op) + 1, ts[1..]);
      BinaryRestConsumes(Infix(left, op, right.tree), min, right.rest);
      OperatorIsNoUpdate(ts[0]);
      ConsumesOneThen(ts, right.rest);
      ConsumesThen(ts, right.rest, p.value.rest);
    }
  }

  lemma {:induction false} UnaryConsumes(ts: seq<Token>)
    ensures var p := ParseUnary(ts); p.Some? && NoUpdate(p.value.tree) ==> Consumes(ts, p.value.rest)
    decreases |ts|, 4
  {
    hide ParsePrimary, PostfixRest, Consumes;
    var p := ParseUnary(ts);
    if p.Some? && NoUpdate(p.value.tree) {
      if ts[0].Punct? && IsPrefixOp(ts[0].text) {
        UnaryConsumes(ts[1..]);
        ConsumesOneThen(ts, p.value.rest);
      } else {
        var b := ParsePrimary(ts).value;
        PrimaryConsumes(ts);
        PostfixConsumes(b.tree, b.rest);
        ConsumesThen(ts, b.rest, p.value.rest);
      }
    }
  }

  lemma {:induction false} PrimaryConsumes(ts: seq<Token>)
    ensures var p := ParsePrimary(ts); p.Some? && NoUpdate(p.value.tree) ==> Consumes(ts, p.value.rest)
    decreases |ts|, 3
  {
    var p := ParsePrimary(ts);
    if p.Some? && NoUpdate(p.value.tree) {
      if ts[0] != Punct("(") {
        ConsumesOne(ts);
      } else {
        var e := ParseConditional(ts[1..]).value;
        ConditionalConsumes(ts[1..]);
        ConsumesOneThen(ts, e.rest);
        ConsumesOne(e.rest);
        ConsumesThen(ts, e.rest, p.value.rest);
      }
    }
  }

  lemma {:induction false} PostfixConsumes(base: Tree, ts: seq<Token>)
    ensures var p := PostfixRest(base, ts); p.Some? && NoUpdate(p.value.tree) ==> NoUpdate(base) && Consumes(ts, p.value.rest)
    decreases |ts|, 2
  {
    var p := PostfixRest(base, ts);
    if ts != [] && p.Some? && NoUpdate(p.value.tree) {
      if ts[0] == Punct(".") {
        MemberConsumes(base, ts, p.value);
      } else if ts[0] == Punct("[") {
        IndexConsumes(base, ts, p.value);
      } else if ts[0] == Punct("(") {
        CallConsumes(base, ts, p.value);
      }
    }
  }

  lemma {:induction false} MemberConsumes(base: Tree, ts: seq<Token>, p: Parsed)
    requires ts != [] && ts[0] == Punct(".") && PostfixRest(base, ts) == Some(p) && NoUpdate(p.tree)
    ensures NoUpdate(base) && Consumes(ts, p.rest)
    decreases |ts|, 1
  {
    PostfixConsumes(Member(base, ts[1].text), ts[2..]);
    assert ts[1..][1..] == ts[2..];
    ConsumesOneThen(ts[1..], p.rest);
    ConsumesOneThen(ts, p.rest);
  }

  lemma {:induction false} IndexConsumes(base: Tree, ts: seq<Token>, p: Parsed)
    requires ts != [] && ts[0] == Punct("[") && PostfixRest(base, ts) == Some(p) && NoUpdate(p.tree)
    ensures NoUpdate(base) && Consumes(ts, p.rest)
    decreases |ts|, 1
  {
    var e := ParseConditional(ts[1..]).value;
    ConditionalConsumes(ts[1..]);
    PostfixConsumes(Index(base, e.tree), e.rest[1..]);
    ConsumesOneThen(ts, e.rest);
    ConsumesOneThen(e.rest, p.rest);
    ConsumesThen(ts, e.rest, p.rest);
  }

  lemma {:induction false} CallConsumes(base: Tree, ts: seq<Token>, p: Parsed)
    requires ts != [] && ts[0] == Punct("(") && PostfixRest(base, ts) == Some(p) && NoUpdate(p.tree)
    ensures NoUpdate(base) && Consumes(ts, p.rest)
    decreases |ts|, 1
  {
    var a := ParseArguments(ts[1..]).value;
    ArgumentsConsume(ts[1..]);
    PostfixConsumes(Apply(base, a.args), a.rest);
    ConsumesOneThen(ts, a.rest);
    ConsumesThen(ts, a.rest, p.rest);
  }

  predicate NoUpdates(args: seq<Tree>) {
    forall i :: 0 <= i < |args| ==> NoUpdate(args[i])
  }

  lemma {:induction false} ArgumentsConsume(ts: seq<Token>)
    ensures var p := ParseArguments(ts); p.Some? && NoUpdates(p.value.args) ==> Consumes(ts, p.value.rest)
    decreases |ts|, 8
  {
    var p := ParseArguments(ts);
    if p.Some? && NoUpdates(p.value.args) {
      if ts != [] && ts[0] == Punct(")") {
        ConsumesOne(ts);
      } else {
        var e := ParseConditional(ts).value;
        ConditionalConsumes(ts);
        ArgumentsRestConsumes([e.tree], e.rest);
        assert [e.tree][0] == e.tree;
        ConsumesThen(ts, e.rest, p.value.rest);
      }
    }
  }

  lemma {:induction false} ArgumentsRestConsumes(args: seq<Tree>, ts: seq<Token>)
    ensures var p := ArgumentsRest(args, ts); p.Some? && NoUpdates(p.value.args) ==> NoUpdates(args) && Consumes(ts, p.value.rest)
    decreases |ts|, 7
  {
    var p := ArgumentsRest(args, ts);
    if p.Some? && NoUpdates(p.value.args) {
      if ts[0] == Punct(")") {
        ConsumesOne(ts);
      } else {
        var e := ParseConditional(ts[1..]).value;
        ConditionalConsumes(ts[1..]);
        ArgumentsRestConsumes(args + [e.tree], e.rest);
        assert forall i :: 0 <= i < |args| ==> (args + [e.tree])[i] == args[i];
        assert (args + [e.tree])[|args|] == e.tree;
        ConsumesOneThen(ts, e.rest);
        ConsumesThen(ts, e.rest, p.value.rest);
      }
    }
  }

  // ---------------------------------------------------------------------
  // Updates in what is printed
  // ---------------------------------------------------------------------

  predicate HasUpdate(ts: seq<Token>) {
    exists i :: 0 <= i < |ts| && IsUpdate(ts[i])
  }

  lemma UpdateIn(a: seq<Token>, b: seq<Token>)
    ensures HasUpdate(a) || HasUpdate(b) ==> HasUpdate(a + b)
  {
    if i :| 0 <= i < |a| && IsUpdate(a[i]) {
      assert (a + b)[i] == a[i];
    }
    if i :| 0 <= i < |b| && IsUpdate(b[i]) {
      assert (a + b)[|a| + i] == b[i];
    }
  }

  lemma UpdateInThree(a: seq<Token>, b: seq<Token>, c: seq<Token>)
    ensures HasUpdate(a) || HasUpdate(b) || HasUpdate(c) ==> HasUpdate(a + b + c)
  {
    UpdateIn(a, b);
    UpdateIn(a + b, c);
  }

  /** A hidden sign puts an update among the tokens. */
  lemma {:induction false} HiddenSignIsUpdate(expand: bool, e: ExpressionIR, parentPrec: nat, side: Side)
    requires InFragment(expand, e) && !NoHiddenSign(expand, e)
    ensures HasUpdate(Tokens(expand, e, parentPrec, side))
    decreases e, 0
  {
    match e
    case RefRead(ref, _) => HiddenInAtomic(expand, ref, Enclosed([]));
    case Snapshot(ref, args, _) => HiddenInCall(expand, ref, [], e, args);
    case MethodCall(receiver, method_, args) => HiddenInCall(expand, receiver, [Punct("."), Word(method_)], e, args);
    case PropertyAccess(object_, property) => HiddenInAtomic(expand, object_, [Punct("."), Word(property)]);
    case Call(callee, args) => HiddenInCall(expand, callee, [], e, args);
    case Binary(left, op, right) => HiddenInBinary(expand, e, parentPrec, side);
    case Unary(op, operand, _) => HiddenInUnary(expand, e, parentPrec, side);
    case Ternary(c, t, f) => HiddenInTernary(expand, e, parentPrec, side);
    case ElementAccess(object_, index) =>
      var a, i := TokensAtomic(expand, object_), Tokens(expand, index, 0, Neither);
      if !NoHiddenSign(expand, object_) {
        HiddenInAtomic(expand, object_, []);
      } else {
        HiddenSignIsUpdate(expand, index, 0, Neither);
      }
      UpdateInThree(a, [Punct("[")], i);
      UpdateIn(a + [Punct("[")] + i, [Punct("]")]);
  }

  lemma {:induction false} HiddenInAtomic(expand: bool, e: ExpressionIR, after: seq<Token>)
    requires InFragment(expand, e) && !NoHiddenSign(expand, e)
    ensures HasUpdate(TokensAtomic(expand, e)) && HasUpdate(TokensAtomic(expand, e) + after)
    decreases e, 1
  {
    HiddenSignIsUpdate(expand, e, 0, Neither);
    UpdateInThree([Punct("(")], Tokens(expand, e, 0, Neither), [Punct(")")]);
    UpdateIn(TokensAtomic(expand, e), after);
  }

  lemma {:induction false} HiddenInCall(expand: bool, callee: ExpressionIR, middle: seq<Token>, parent: ExpressionIR, args: seq<ExpressionIR>)
    requires InFragment(expand, callee) && callee < parent && forall i :: 0 <= i < |args| ==> InFragment(expand, args[i]) && args[i] < parent
    requires !NoHiddenSign(expand, callee) || exists i :: 0 <= i < |args| && !NoHiddenSign(expand, args[i])
    ensures HasUpdate(TokensAtomic(expand, callee) + Enclosed(TokensArgs(expand, parent, args, |args|)))
    ensures HasUpdate(TokensAtomic(expand, callee) + middle + Enclosed(TokensArgs(expand, parent, args, |args|)))
    decreases parent, 0, |args| + 1
  {
    var inside := TokensArgs(expand, parent, args, |args|);
    if !NoHiddenSign(expand, callee) {
      HiddenInAtomic(expand, callee, []);
    } else {
      HiddenInArgs(expand, parent, args, |args|);
      UpdateInThree([Punct("(")], inside, [Punct(")")]);
    }
    UpdateIn(TokensAtomic(expand, callee), Enclosed(inside));
    UpdateInThree(TokensAtomic(expand, callee), middle, Enclosed(inside));
  }

  lemma {:induction false} HiddenInArgs(expand: bool, parent: ExpressionIR, args: seq<ExpressionIR>, n: nat)
    requires n <= |args| && forall i :: 0 <= i < |args| ==> InFragment(expand, args[i]) && args[i] < parent
    requires exists i :: 0 <= i < n && !NoHiddenSign(expand, args[i])
    ensures HasUpdate(TokensArgs(expand, parent, args, n))
    decreases parent, 0, n
  {
    var last := Tokens(expand, args[n - 1], 0, Neither);
    if !NoHiddenSign(expand, args[n - 1]) {
      HiddenSignIsUpdate(expand, args[n - 1], 0, Neither);
    } else {
      HiddenInArgs(expand, parent, args, n - 1);
    }
    if n > 1 {
      UpdateInThree(TokensArgs(expand, parent, args, n - 1), [Punct(",")], last);
    }
  }

  lemma {:induction false} HiddenInBinary(expand: bool, e: ExpressionIR, parentPrec: nat, side: Side)
    requires InFragment(expand, e) && e.Binary? && !NoHiddenSign(expand, e)
    ensures HasUpdate(Tokens(expand, e, parentPrec, side))
    decreases e, 0, 0
  {
    var prec := Precedence(e.op);
    var l, r := Tokens(expand, e.left, prec, Side.Left), Tokens(expand, e.right, prec, Side.Right);
    if !NoHiddenSign(expand, e.left) {
      HiddenSignIsUpdate(expand, e.left, prec, Side.Left);
    } else {
      HiddenSignIsUpdate(expand, e.right, prec, Side.Right);
    }
    UpdateInThree(l, [OpToken(e.op)], r);
    UpdateInThree([Punct("(")], l + [OpToken(e.op)] + r, [Punct(")")]);
  }

  lemma {:induction false} HiddenInTernary(expand: bool, e: ExpressionIR, parentPrec: nat, side: Side)
    requires InFragment(expand, e) && e.Ternary? && !NoHiddenSign(expand, e)
    ensures HasUpdate(Tokens(expand, e, parentPrec, side))
    decreases e, 0, 0
  {
    var c, t, f := Tokens(expand, e.condition, TERNARY_PRECEDENCE, Side.Left), Tokens(expand, e.whenTrue, 0, Neither), Tokens(expand, e.whenFalse, 0, Neither);
    if !NoHiddenSign(expand, e.condition) {
      HiddenSignIsUpdate(expand, e.condition, TERNARY_PRECEDENCE, Side.Left);
    } else if !NoHiddenSign(expand, e.whenTrue) {
      HiddenSignIsUpdate(expand, e.whenTrue, 0, Neither);
    } else {
      HiddenSignIsUpdate(expand, e.whenFalse, 0, Neither);
    }
    var first := c + [Punct("?")] + t;
    UpdateInThree(c, [Punct("?")], t);
    UpdateInThree(first, [Punct(":")], f);
    UpdateInThree([Punct("(")], first + [Punct(":")] + f, [Punct(")")]);
  }

  lemma {:induction false} HiddenInUnary(expand: bool, e: ExpressionIR, parentPrec: nat, side: Side)
    requires InFragment(expand, e) && e.Unary? && !NoHiddenSign(expand, e)
    ensures HasUpdate(Tokens(expand, e, parentPrec, side))
    decreases e, 0, 0
  {
    var op, operand := e.operator, e.operand;
    if HidesSign(expand, op, operand) {
      assert Tokens(expand, e, parentPrec, side)[0] == Punct(op + op);
      assert op + op == "++" || op + op == "--";
    } else {
      var shown := Tokens(expand, operand, UNARY_PRECEDENCE, Neither);
      HiddenSignIsUpdate(expand, if Hides(expand, op, operand) then operand.expression else operand, UNARY_PRECEDENCE, Neither);
      UpdateInThree([Punct("(")], shown, [Punct(")")]);
      UpdateIn([Punct(op)], OperandTokens(expand, op, operand));
    }
  }

  /** An expression with a hidden sign does not read as itself. */
  lemma HiddenSignIsMisread(expand: bool, e: ExpressionIR)
    requires InFragment(expand, e) && !NoHiddenSign(expand, e)
    ensures ReadExpression(RenderExpression(e, expand)) != Some(Syntax(expand, e))
  {
    var s, ts := RenderExpression(e, expand), Tokens(expand, e, 0, Neither);
    TextHasTokens(expand, e, 0, Neither);
    WholeText(s, ts);
    HiddenSignIsUpdate(expand, e, 0, Neither);
    SyntaxHasNoUpdate(expand, e);
    ConditionalConsumes(ts);
  }

  /** Printing and reading back gives the expression, exactly when it has no
      conditional as the condition of a conditional, and no sign over the same
      sign in a binding. */
  lemma TreeRoundTrips(expand: bool, e: ExpressionIR)
    requires InFragment(expand, e)
    ensures ReadExpression(RenderExpression(e, expand)) == Some(Syntax(expand, e)) <==> NoTernaryCondition(expand, e) && NoHiddenSign(expand, e)
  {
    if NoHiddenSign(expand, e) {
      PrintedReadsAs(expand, e);
      ReadingIsStraight(expand, e);
      StraightSyntax(expand, e);
    } else {
      HiddenSignIsMisread(expand, e);
    }
  }
}
