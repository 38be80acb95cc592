/** What the texts of merged values mean: the grammar of expressions makes a language
    that merging keeps the meaning in, and says which conditions it needs
    (experimental/compiler/src/ir.ts, `mergeContentValue`). */
module MergedTexts {
  import opened Prelude
  import opened Expressions
  import opened Grammar
  import RoundTrip
  import Merging
  import Dissolution

  // ---------------------------------------------------------------------
  // Tokens of a longer text
  // ---------------------------------------------------------------------

  /** No token goes on over a space or a closing parenthesis. */
  predicate Breaks(rest: string) {
    rest == [] || rest[0] == ' ' || rest[0] == ')'
  }

  lemma {:induction false} WordUpTo(s: string, rest: string)
    requires Breaks(rest)
    ensures WordLength(s + rest) == WordLength(s)
  {
    if s == [] {
      assert s + rest == rest;
      assert rest == [] || !WordChar(rest[0]);
    } else if WordChar(s[0]) {
      assert (s + rest)[1..] == s[1..] + rest;
      WordUpTo(s[1..], rest);
    }
  }

  /** A string that ends, ends there whatever follows. */
  lemma {:induction false} QuotedUpTo(s: string, quote: char, rest: string)
    requires QuotedLength(s, quote) > 0
    ensures QuotedLength(s + rest, quote) == QuotedLength(s, quote)
  {
    if s[0] != quote {
      var skip := if s[0] == '\\' && |s| > 1 then 2 else 1;
      assert (s + rest)[skip..] == s[skip..] + rest;
      QuotedUpTo(s[skip..], quote, rest);
    }
  }

  lemma PunctuatorsHaveNoBreaks(p: string)
    requires p in PUNCT2 || p in PUNCT3 || p in PUNCT4
    ensures |p| <= 4 && forall i :: 0 <= i < |p| ==> p[i] != ' ' && p[i] != ')'
  {
  }

  lemma MunchUpTo(s: string, rest: string)
    requires s != [] && Breaks(rest)
    ensures MunchLength(s + rest) == MunchLength(s)
  {
    var t := s + rest;
    assert t[0] == s[0];
    if |t| >= 2 { ShortPiece(s, rest, 2); }
    if |t| >= 3 { ShortPiece(s, rest, 3); }
    if |t| >= 4 { ShortPiece(s, rest, 4); }
  }

  lemma ShortPiece(s: string, rest: string, n: nat)
    requires Breaks(rest) && 2 <= n <= 4 && n <= |s + rest|
    ensures |s| >= n ==> (s + rest)[..n] == s[..n]
    ensures |s| < n ==> (s + rest)[..n] !in PUNCT2 + PUNCT3 + PUNCT4
  {
    var p := (s + rest)[..n];
    if |s| < n {
      assert p[|s|] == rest[0];
      if p in PUNCT2 + PUNCT3 + PUNCT4 {
        PunctuatorsHaveNoBreaks(p);
      }
    }
  }

  lemma TokenUpTo(s: string, rest: string)
    requires s != [] && s[0] != ' ' && TokenLength(s) > 0 && Breaks(rest)
    ensures TokenLength(s + rest) == TokenLength(s)
  {
    assert (s + rest)[0] == s[0];
    if WordStart(s[0]) {
      WordUpTo(s, rest);
    } else if IsQuote(s[0]) {
      assert (s + rest)[1..] == s[1..] + rest;
      QuotedUpTo(s[1..], s[0], rest);
    } else {
      MunchUpTo(s, rest);
    }
  }

  /** A text keeps its tokens at the end, and before a space or a closing parenthesis. */
  lemma {:induction false} LexUpTo(s: string, rest: string)
    requires Lex(s).Some? && Breaks(rest)
    ensures RoundTrip.LexesOn(s, Lex(s).value, rest)
    decreases |s|
  {
    if s == [] {
      RoundTrip.LexNothingOn(rest);
    } else if s[0] == ' ' {
      LexUpTo(s[1..], rest);
      assert s == " " + s[1..];
      RoundTrip.LexSpaceOn(s[1..] + rest);
      RoundTrip.Joined(" ", [], s[1..], Lex(s[1..]).value, rest);
      assert [] + Lex(s[1..]).value == Lex(s[1..]).value;
    } else {
      var n := TokenLength(s);
      TokenUpTo(s, rest);
      assert (s + rest)[..n] == s[..n] && (s + rest)[n..] == s[n..] + rest;
      LexUpTo(s[n..], rest);
      FirstToken(s, n, rest);
    }
  }

  lemma LexStep(s: string, n: nat)
    requires s != [] && s[0] != ' ' && n == TokenLength(s) && 0 < n <= |s|
    ensures Lex(s) == Prepend(TokenOf(s[..n]), Lex(s[n..]))
  {
  }

  lemma FirstToken(s: string, n: nat, rest: string)
    requires s != [] && s[0] != ' ' && 0 < n <= |s| && n == TokenLength(s) == TokenLength(s + rest)
    requires Lex(s).Some? && Lex(s[n..]).Some? && RoundTrip.LexesOn(s[n..], Lex(s[n..]).value, rest)
    ensures RoundTrip.LexesOn(s, Lex(s).value, rest)
  {
    LexStep(s, n);
    SplitText(s, n, rest);
    LexStep(s + rest, n);
    PrependSteps(TokenOf(s[..n]), Lex(s), Lex(s[n..]), Lex(rest), Lex(s + rest), Lex(s[n..] + rest));
  }

  lemma SplitText(s: string, n: nat, rest: string)
    requires 0 < n <= |s|
    ensures (s + rest)[0] == s[0] && (s + rest)[..n] == s[..n] && (s + rest)[n..] == s[n..] + rest
  {
  }

  lemma PrependSteps(t: Token, all: Option<seq<Token>>, tail: Option<seq<Token>>, rest: Option<seq<Token>>, longer: Option<seq<Token>>, later: Option<seq<Token>>)
    requires all.Some? && all == Prepend(t, tail) && longer == Prepend(t, later)
    requires tail.Some? && later == RoundTrip.PrependAll(tail.value, rest)
    ensures longer == RoundTrip.PrependAll(all.value, rest)
  {
    PrependThen(t, tail.value, rest);
  }

  lemma PrependThen(t: Token, ts: seq<Token>, rest: Option<seq<Token>>)
    ensures Prepend(t, RoundTrip.PrependAll(ts, rest)) == RoundTrip.PrependAll([t] + ts, rest)
  {
    if rest.Some? {
      assert [t] + (ts + rest.value) == [t] + ts + rest.value;
    }
  }

  /** The text has these tokens, before anything it keeps them before. */
  ghost predicate HasTokens(s: string, ts: seq<Token>) {
    forall rest :: Breaks(rest) ==> RoundTrip.LexesOn(s, ts, rest)
  }

  lemma TokensOf(s: string)
    requires Lex(s).Some?
    ensures HasTokens(s, Lex(s).value)
  {
    forall rest | Breaks(rest) ensures RoundTrip.LexesOn(s, Lex(s).value, rest) {
      LexUpTo(s, rest);
    }
  }

  lemma TokensLex(s: string, ts: seq<Token>)
    requires HasTokens(s, ts)
    ensures Lex(s) == Some(ts)
  {
    assert RoundTrip.LexesOn(s, ts, "");
    assert s + "" == s && Lex("") == Some([]) && ts + [] == ts;
  }

  lemma JoinTokens(a: string, ts: seq<Token>, b: string, us: seq<Token>)
    requires HasTokens(a, ts) && HasTokens(b, us) && b != [] && Breaks(b)
    ensures HasTokens(a + b, ts + us)
  {
    forall rest | Breaks(rest) ensures RoundTrip.LexesOn(a + b, ts + us, rest) {
      assert (b + rest)[0] == b[0];
      assert RoundTrip.LexesOn(b, us, rest) && RoundTrip.LexesOn(a, ts, b + rest);
      RoundTrip.Joined(a, ts, b, us, rest);
    }
  }

  lemma AlwaysJoin(a: string, ts: seq<Token>, b: string, us: seq<Token>)
    requires RoundTrip.LexesAlways(a, ts) && HasTokens(b, us)
    ensures HasTokens(a + b, ts + us)
  {
    forall rest | Breaks(rest) ensures RoundTrip.LexesOn(a + b, ts + us, rest) {
      assert RoundTrip.LexesOn(b, us, rest) && RoundTrip.LexesOn(a, ts, b + rest);
      RoundTrip.Joined(a, ts, b, us, rest);
    }
  }

  // ---------------------------------------------------------------------
  // Parsing before more tokens
  // ---------------------------------------------------------------------

  /** Ends a conditional expression. */
  predicate Ends(ts: seq<Token>) {
    ts == [] || ts[0] == Punct(")") || ts[0] == Punct(":")
  }

  /** Ends an expression of binary operators. */
  predicate EndsBinary(ts: seq<Token>) {
    Ends(ts) || ts[0] == Punct("?")
  }

  lemma TailThen(ts: seq<Token>, more: seq<Token>)
    requires ts != []
    ensures (ts + more)[0] == ts[0] && (ts + more)[1..] == ts[1..] + more
    ensures |ts| > 1 ==> (ts + more)[1] == ts[1] && (ts + more)[2..] == ts[2..] + more
  {
  }

  /** What is parsed before the end of the tokens, or up to an end, is parsed the
      same with more tokens after it. */
  lemma {:induction false} ConditionalExtends(ts: seq<Token>, more: seq<Token>)
    requires ParseConditional(ts).Some? && (ParseConditional(ts).value.rest != [] || Ends(more))
    ensures var p := ParseConditional(ts).value; ParseConditional(ts + more) == Some(Parsed(p.tree, p.rest + more))
    decreases |ts|, 6
  {
    var c := ParseBinary(1, ts).value;
    BinaryExtends(1, ts, more);
    ConditionalRestExtends(c.tree, c.rest, more);
  }

  lemma {:induction false} ConditionalRestExtends(c: Tree, ts: seq<Token>, more: seq<Token>)
    requires ConditionalRest(c, ts).Some? && (ConditionalRest(c, ts).value.rest != [] || Ends(more))
    ensures var p := ConditionalRest(c, ts).value; ConditionalRest(c, ts + more) == Some(Parsed(p.tree, p.rest + more))
    decreases |ts|, 0
  {
    if ts == [] {
      assert ts + more == more && [] + more == more;
    } else if ts[0] == Punct("?") {
      var t := ParseConditional(ts[1..]).value;
      TailThen(ts, more);
      ConditionalExtends(ts[1..], more);
      TailThen(t.rest, more);
      ConditionalExtends(t.rest[1..], more);
    }
  }

  lemma {:induction false} BinaryExtends(min: nat, ts: seq<Token>, more: seq<Token>)
    requires ParseBinary(min, ts).Some? && (ParseBinary(min, ts).value.rest != [] || EndsBinary(more))
    ensures var p := ParseBinary(min, ts).value; ParseBinary(min, ts + more) == Some(Parsed(p.tree, p.rest + more))
    decreases |ts|, 5
  {
    var u := ParseUnary(ts).value;
    UnaryExtends(ts, more);
    BinaryRestExtends(u.tree, min, u.rest, more);
  }

  lemma EndsWithoutOperator(ts: seq<Token>)
    ensures EndsBinary(ts) && ts != [] ==> OpOf(ts[0]).None?
  {
  }

  lemma {:induction false} BinaryRestExtends(left: Tree, min: nat, ts: seq<Token>, more: seq<Token>)
    requires BinaryRest(left, min, ts).Some? && (BinaryRest(left, min, ts).value.rest != [] || EndsBinary(more))
    ensures var p := BinaryRest(left, min, ts).value; BinaryRest(left, min, ts + more) == Some(Parsed(p.tree, p.rest + more))
    decreases |ts|, 0
  {
    hide ParseBinary, PunctOp, OpOf, Rung;
    EndsWithoutOperator(more);
    if ts == [] {
      assert ts + more == more && [] + more == more;
    } else if OpOf(ts[0]).Some? && Rung(OpOf(ts[0]).value) >= min {
      var op := OpOf(ts[0]).value;
      var right := ParseBinary(Rung(op) + 1, ts[1..]).value;
      TailThen(ts, more);
      BinaryExtends(Rung(op) + 1, ts[1..], more);
      BinaryRestExtends(Infix(left, op, right.tree), min, right.rest, more);
    }
  }

  lemma {:induction false} UnaryExtends(ts: seq<Token>, more: seq<Token>)
    requires ParseUnary(ts).Some? && (ParseUnary(ts).value.rest != [] || EndsBinary(more))
    ensures var p := ParseUnary(ts).value; ParseUnary(ts + more) == Some(Parsed(p.tree, p.rest + more))
    decreases |ts|, 4
  {
    hide ParsePrimary, PostfixRest;
    TailThen(ts, more);
    if ts[0].Punct? && (IsPrefixOp(ts[0].text) || IsUpdate(ts[0])) {
      UnaryExtends(ts[1..], more);
    } else {
      var b := ParsePrimary(ts).value;
      var l := PostfixRest(b.tree, b.rest).value;
      PrimaryExtends(ts, more);
      PostfixExtends(b.tree, b.rest, more);
      if l.rest == [] {
        assert [] + more == more;
      } else {
        TailThen(l.rest, more);
      }
    }
  }

  lemma {:induction false} PrimaryExtends(ts: seq<Token>, more: seq<Token>)
    requires ParsePrimary(ts).Some?
    ensures var p := ParsePrimary(ts).value; ParsePrimary(ts + more) == Some(Parsed(p.tree, p.rest + more))
    decreases |ts|, 3
  {
    TailThen(ts, more);
    if ts[0] == Punct("(") {
      ConditionalExtends(ts[1..], more);
      TailThen(ParseConditional(ts[1..]).value.rest, more);
    }
  }

  lemma {:induction false} PostfixExtends(base: Tree, ts: seq<Token>, more: seq<Token>)
    requires PostfixRest(base, ts).Some?
    requires PostfixRest(base, ts).value.rest != [] || EndsBinary(more)
    ensures var p := PostfixRest(base, ts).value; PostfixRest(base, ts + more) == Some(Parsed(p.tree, p.rest + more))
    decreases |ts|, 2
  {
    if ts == [] {
      assert ts + more == more && [] + more == more;
    } else {
      TailThen(ts, more);
      if ts[0] == Punct(".") {
        PostfixExtends(Member(base, ts[1].text), ts[2..], more);
      } else if ts[0] == Punct("[") {
        var e := ParseConditional(ts[1..]).value;
        ConditionalExtends(ts[1..], more);
        TailThen(e.rest, more);
        PostfixExtends(Index(base, e.tree), e.rest[1..], more);
      } else if ts[0] == Punct("(") {
        var a := ParseArguments(ts[1..]).value;
        ArgumentsExtend(ts[1..], more);
        PostfixExtends(Apply(base, a.args), a.rest, more);
      }
    }
  }

  lemma {:induction false} ArgumentsExtend(ts: seq<Token>, more: seq<Token>)
    requires ParseArguments(ts).Some?
    ensures var p := ParseArguments(ts).value; ParseArguments(ts + more) == Some(ParsedArgs(p.args, p.rest + more))
    decreases |ts|, 8
  {
    TailThen(ts, more);
    if ts[0] != Punct(")") {
      var e := ParseConditional(ts).value;
      ConditionalExtends(ts, more);
      ArgumentsRestExtends([e.tree], e.rest, more);
    }
  }

  lemma {:induction false} ArgumentsRestExtends(args: seq<Tree>, ts: seq<Token>, more: seq<Token>)
    requires ArgumentsRest(args, ts).Some?
    ensures var p := ArgumentsRest(args, ts).value; ArgumentsRest(args, ts + more) == Some(ParsedArgs(p.args, p.rest + more))
    decreases |ts|, 7
  {
    TailThen(ts, more);
    if ts[0] != Punct(")") {
      var e := ParseConditional(ts[1..]).value;
      ConditionalExtends(ts[1..], more);
      ArgumentsRestExtends(args + [e.tree], e.rest, more);
    }
  }

  // ---------------------------------------------------------------------
  // Merged texts
  // ---------------------------------------------------------------------

  /** The tree of some tokens that are one expression. */
  function Whole(ts: seq<Token>): Option<Tree> {
    match ParseConditional(ts)
    case None => None
    case Some(p) => if p.rest == [] then Some(p.tree) else None
  }

  /** A ShortCircuitExpression: it can stand before a `?` without parentheses. */
  predicate WholeBinary(ts: seq<Token>) {
    ParseBinary(1, ts).Some? && ParseBinary(1, ts).value.rest == []
  }

  function Enclosed(ts: seq<Token>): seq<Token> {
    [Punct("(")] + (ts + [Punct(")")])
  }

  function Chosen(ts: seq<Token>, us: seq<Token>, vs: seq<Token>): seq<Token> {
    ts + ([Punct("?")] + (us + ([Punct(":")] + vs)))
  }

  lemma EnclosedReads(ts: seq<Token>)
    requires Whole(ts).Some?
    ensures Whole(Enclosed(ts)) == Whole(ts) && WholeBinary(Enclosed(ts))
  {
    var all := Enclosed(ts);
    assert all[1..] == ts + [Punct(")")];
    ConditionalExtends(ts, [Punct(")")]);
    assert [] + [Punct(")")] == [Punct(")")];
    var t := Whole(ts).value;
    assert ParsePrimary(all) == Some(Parsed(t, []));
    assert ParseUnary(all) == Some(Parsed(t, []));
    assert ParseBinary(1, all) == Some(Parsed(t, []));
    assert ParseConditional(all) == Some(Parsed(t, []));
  }

  /** A condition, a `?` and two expressions read as a conditional of the three,
      exactly when the condition can stand without parentheses. */
  lemma ChosenReads(ts: seq<Token>, us: seq<Token>, vs: seq<Token>)
    requires Whole(ts).Some? && Whole(us).Some? && Whole(vs).Some?
    ensures Whole(Chosen(ts, us, vs)) == Some(Cond(Whole(ts).value, Whole(us).value, Whole(vs).value)) <==> WholeBinary(ts)
  {
    var more := [Punct("?")] + (us + ([Punct(":")] + vs));
    var x := ParseBinary(1, ts).value;
    assert ParseConditional(ts) == ConditionalRest(x.tree, x.rest);
    BinaryExtends(1, ts, more);
    if x.rest == [] {
      BranchesRead(x.tree, us, vs);
      assert [] + more == more;
      assert ParseConditional(ts + more) == ConditionalRest(x.tree, more);
    } else {
      assert (x.rest + more)[0] == x.rest[0] == Punct("?");
      SmallerCondition(ts, ts + more, x.tree);
    }
  }

  lemma BranchesRead(c: Tree, us: seq<Token>, vs: seq<Token>)
    requires Whole(us).Some? && Whole(vs).Some?
    ensures ConditionalRest(c, [Punct("?")] + (us + ([Punct(":")] + vs))) == Some(Parsed(Cond(c, Whole(us).value, Whole(vs).value), []))
  {
    var later := [Punct(":")] + vs;
    var more := [Punct("?")] + (us + later);
    assert more[1..] == us + later && later[1..] == vs && [] + later == later;
    ConditionalExtends(us, later);
  }

  /** Both read as conditionals with the condition `x`, so one is not the other's
      condition. */
  lemma SmallerCondition(ts: seq<Token>, all: seq<Token>, x: Tree)
    requires ParseConditional(ts).Some? && ParseBinary(1, ts).Some? && ParseBinary(1, ts).value.tree == x
    requires ParseBinary(1, ts).value.rest != [] && ParseBinary(1, ts).value.rest[0] == Punct("?")
    requires ParseBinary(1, all).Some? && ParseBinary(1, all).value.tree == x
    requires ParseBinary(1, all).value.rest != [] && ParseBinary(1, all).value.rest[0] == Punct("?")
    ensures ParseConditional(all).Some? ==> ParseConditional(all).value.tree.Cond? && ParseConditional(all).value.tree.condition == x
    ensures ParseConditional(ts).value.tree.Cond? && ParseConditional(ts).value.tree.condition == x && ParseConditional(ts).value.tree != x
  {
  }

  predicate IsExpression(s: string) {
    ReadExpression(s).Some?
  }

  predicate IsShortCircuit(s: string) {
    IsExpression(s) && WholeBinary(Lex(s).value)
  }

  /** The tree of an expression. */
  function Read(s: string): Tree
    requires IsExpression(s)
  {
    ReadExpression(s).value
  }

  lemma ReadTokens(s: string, ts: seq<Token>)
    requires HasTokens(s, ts)
    ensures ReadExpression(s) == Whole(ts)
    ensures IsShortCircuit(s) <==> Whole(ts).Some? && WholeBinary(ts)
  {
    TokensLex(s, ts);
  }

  /** Parentheses change nothing, and make a condition of any expression. */
  lemma ParensRead(s: string)
    requires IsExpression(s)
    ensures ReadExpression(Merging.Parens(s)) == Some(Read(s)) && IsShortCircuit(Merging.Parens(s))
  {
    var ts := Lex(s).value;
    TokensOf(s);
    ParensTokens(s, ts);
    ReadTokens(Merging.Parens(s), Enclosed(ts));
    EnclosedReads(ts);
  }

  lemma ParensTokens(s: string, ts: seq<Token>)
    requires HasTokens(s, ts)
    ensures HasTokens(Merging.Parens(s), Enclosed(ts))
  {
    RoundTrip.LexSingle('(');
    RoundTrip.LexSingle(')');
    JoinTokens(s, ts, ")", [Punct(")")]);
    AlwaysJoin("(", [Punct("(")], s + ")", ts + [Punct(")")]);
    assert Merging.Parens(s) == "(" + (s + ")");
  }

  lemma TernaryTokens(c: string, ts: seq<Token>, a: string, us: seq<Token>, b: string, vs: seq<Token>)
    requires HasTokens(c, ts) && HasTokens(a, us) && HasTokens(b, vs)
    ensures HasTokens(Merging.Ternary(c, a, b), Chosen(ts, us, vs))
  {
    RoundTrip.LexSpacedPunct("?");
    RoundTrip.LexSpacedPunct(":");
    assert " " + "?" + " " == " ? " && " " + ":" + " " == " : ";
    AlwaysJoin(" : ", [Punct(":")], b, vs);
    JoinTokens(a, us, " : " + b, [Punct(":")] + vs);
    AlwaysJoin(" ? ", [Punct("?")], a + (" : " + b), us + ([Punct(":")] + vs));
    JoinTokens(c, ts, " ? " + (a + (" : " + b)), [Punct("?")] + (us + ([Punct(":")] + vs)));
    assert Merging.Ternary(c, a, b) == c + (" ? " + (a + (" : " + b)));
  }

  /** A conditional text reads as the conditional of its three parts, exactly when
      the condition can stand without parentheses. */
  lemma MergedTextReads(c: string, a: string, b: string)
    requires IsExpression(c) && IsExpression(a) && IsExpression(b)
    ensures ReadExpression(Merging.Ternary(c, a, b)) == Some(Cond(Read(c), Read(a), Read(b))) <==> IsShortCircuit(c)
  {
    var ts, us, vs := Lex(c).value, Lex(a).value, Lex(b).value;
    TokensOf(c);
    TokensOf(a);
    TokensOf(b);
    TernaryTokens(c, ts, a, us, b, vs);
    ReadTokens(Merging.Ternary(c, a, b), Chosen(ts, us, vs));
    ChosenReads(ts, us, vs);
  }

  /** A conditional for a condition: the text of `(x ? y : z) ? a : b` without the
      parentheses is the text of `x ? y : (z ? a : b)`, and reads as that. */
  lemma NestedConditionIsMisread(x: string, y: string, z: string, a: string, b: string)
    requires IsShortCircuit(x) && IsExpression(y) && IsShortCircuit(z) && IsExpression(a) && IsExpression(b)
    ensures ReadExpression(Merging.Ternary(x, y, z)) == Some(Cond(Read(x), Read(y), Read(z)))
    ensures ReadExpression(Merging.Ternary(Merging.Ternary(x, y, z), a, b)) == Some(Cond(Read(x), Read(y), Cond(Read(z), Read(a), Read(b))))
  {
    MergedTextReads(x, y, z);
    MergedTextReads(z, a, b);
    MergedTextReads(x, y, Merging.Ternary(z, a, b));
    assert Merging.Ternary(Merging.Ternary(x, y, z), a, b) == Merging.Ternary(x, y, Merging.Ternary(z, a, b));
  }

  // ---------------------------------------------------------------------
  // The language
  // ---------------------------------------------------------------------

  /** What names and operators mean, and which values count as true. */
  datatype Meaning = Meaning(
    name: (Dissolution.Scope, string) -> string,
    truthy: string -> bool,
    count: (Dissolution.Scope, string) -> nat,
    node: (Tree, seq<string>) -> string)

  /** The value of a tree: a conditional is the branch its condition picks, and
      anything else is given by the values of its parts. */
  function Eval(m: Meaning, scope: Dissolution.Scope, t: Tree): string {
    match t
    case Name(name) => m.name(scope, name)
    case Constant(_) => m.node(t, [])
    case Cond(c, whenTrue, whenFalse) => if m.truthy(Eval(m, scope, c)) then Eval(m, scope, whenTrue) else Eval(m, scope, whenFalse)
    case Member(obj, _) => m.node(t, [Eval(m, scope, obj)])
    case Index(obj, index) => m.node(t, [Eval(m, scope, obj), Eval(m, scope, index)])
    case Apply(callee, args) =>
      m.node(t, [Eval(m, scope, callee)] + seq(|args|, i requires 0 <= i < |args| => Eval(m, scope, args[i])))
    case Infix(left, _, right) => m.node(t, [Eval(m, scope, left), Eval(m, scope, right)])
    case Prefix(_, operand) => m.node(t, [Eval(m, scope, operand)])
    case Update(_, operand, _) => m.node(t, [Eval(m, scope, operand)])
  }

  /** The names in a tree. */
  function NamesIn(t: Tree): set<string> {
    match t
    case Name(name) => {name}
    case Constant(_) => {}
    case Cond(c, whenTrue, whenFalse) => NamesIn(c) + NamesIn(whenTrue) + NamesIn(whenFalse)
    case Member(obj, _) => NamesIn(obj)
    case Index(obj, index) => NamesIn(obj) + NamesIn(index)
    case Apply(callee, args) => NamesIn(callee) + set i, n | 0 <= i < |args| && n in NamesIn(args[i]) :: n
    case Infix(left, _, right) => NamesIn(left) + NamesIn(right)
    case Prefix(_, operand) => NamesIn(operand)
    case Update(_, operand, _) => NamesIn(operand)
  }

  function ValueOf(m: Meaning, scope: Dissolution.Scope, s: string): string {
    if IsExpression(s) then Eval(m, scope, Read(s)) else s
  }

  function UsesOf(s: string): set<string> {
    if IsExpression(s) then NamesIn(Read(s)) else {}
  }

  function GrammarLanguage(m: Meaning): Dissolution.Language {
    Dissolution.Language((s: string) => IsExpression(s), (s: string) => IsShortCircuit(s),
      (scope: Dissolution.Scope, s: string) => ValueOf(m, scope, s), m.truthy, m.count, (s: string) => UsesOf(s))
  }

  lemma TernaryMeans(m: Meaning, c: string, a: string, b: string, text: string)
    requires IsExpression(c) && IsExpression(a) && IsExpression(b)
    requires ReadExpression(text) == Some(Cond(Read(c), Read(a), Read(b)))
    ensures GrammarLanguage(m).isExpr(text) && UsesOf(text) == UsesOf(c) + UsesOf(a) + UsesOf(b)
    ensures forall scope :: ValueOf(m, scope, text) == if m.truthy(ValueOf(m, scope, c)) then ValueOf(m, scope, a) else ValueOf(m, scope, b)
  {
  }

  /** A string literal is an expression, and a condition. */
  lemma QuotedIsExpression(text: string)
    requires forall i :: 0 <= i < |text| ==> text[i] != '"' && text[i] != '\\' && text[i] != '\n' && text[i] != '\r'
    ensures ReadExpression("\"" + text + "\"") == Some(Constant("\"" + text + "\"")) && IsShortCircuit("\"" + text + "\"")
  {
    var s := "\"" + text + "\"";
    QuotedEnds(text);
    assert s[0] == '"' && s[1..] == text + "\"";
    assert s[..|s|] == s && s[|s|..] == [];
    assert Lex(s) == Prepend(Quoted(s), Some([]));
    assert [Quoted(s)] + [] == [Quoted(s)];
    OneConstant(s);
  }

  lemma OneConstant(s: string)
    ensures Whole([Quoted(s)]) == Some(Constant(s)) && WholeBinary([Quoted(s)])
  {
    var ts := [Quoted(s)];
    assert ts[1..] == [];
    assert ParsePrimary(ts) == Some(Parsed(Constant(s), []));
    assert ParseUnary(ts) == Some(Parsed(Constant(s), []));
    assert ParseBinary(1, ts) == Some(Parsed(Constant(s), []));
    assert ParseConditional(ts) == Some(Parsed(Constant(s), []));
  }

  lemma {:induction false} QuotedEnds(text: string)
    requires forall i :: 0 <= i < |text| ==> text[i] != '"' && text[i] != '\\' && text[i] != '\n' && text[i] != '\r'
    ensures QuotedLength(text + "\"", '"') == |text| + 1
  {
    if text != [] {
      assert (text + "\"")[1..] == text[1..] + "\"";
      QuotedEnds(text[1..]);
    }
  }

  /** The texts of the expression grammar, whatever names and operators mean, obey
      the laws merging relies on. */
  lemma GrammarIsLawful(m: Meaning)
    ensures GrammarLanguage(m).Lawful()
  {
    var lang := GrammarLanguage(m);
    forall c, a, b | lang.isCondition(c) && lang.isExpr(a) && lang.isExpr(b) ensures lang.Chooses(c, a, b) {
      GrammarChooses(m, c, a, b);
    }
    forall s | lang.isExpr(s)
      ensures lang.isExpr(Merging.Parens(s)) && lang.uses(Merging.Parens(s)) == lang.uses(s)
        && forall scope :: lang.value(scope, Merging.Parens(s)) == lang.value(scope, s)
    {
      ParensRead(s);
      SameMeaning(m, s, Merging.Parens(s));
    }
  }

  lemma GrammarChooses(m: Meaning, c: string, a: string, b: string)
    requires IsShortCircuit(c) && IsExpression(a) && IsExpression(b)
    ensures GrammarLanguage(m).Chooses(c, a, b)
  {
    MergedTextReads(c, a, b);
    TernaryMeans(m, c, a, b, Merging.Ternary(c, a, b));
  }

  lemma SameMeaning(m: Meaning, s: string, text: string)
    requires IsExpression(s) && ReadExpression(text) == Some(Read(s))
    ensures GrammarLanguage(m).isExpr(text) && UsesOf(text) == UsesOf(s)
    ensures forall scope :: ValueOf(m, scope, text) == ValueOf(m, scope, s)
  {
  }

  /** What two values become when they are merged over the condition `x ? y : z`:
      where `x` does not hold, the one `z` picks, as it should be; where it does,
      neither of them but the value of `y`. */
  lemma NestedConditionMeans(m: Meaning, scope: Dissolution.Scope, x: string, y: string, z: string, a: string, b: string)
    requires IsShortCircuit(x) && IsExpression(y) && IsShortCircuit(z) && IsExpression(a) && IsExpression(b)
    ensures var picked := if m.truthy(ValueOf(m, scope, Merging.Ternary(x, y, z))) then ValueOf(m, scope, a) else ValueOf(m, scope, b);
      ValueOf(m, scope, Merging.Ternary(Merging.Ternary(x, y, z), a, b))
        == if m.truthy(ValueOf(m, scope, x)) then ValueOf(m, scope, y) else picked
  {
    NestedConditionIsMisread(x, y, z, a, b);
    NestedValues(m, scope, Read(x), Read(y), Read(z), Read(a), Read(b), Merging.Ternary(x, y, z), Merging.Ternary(Merging.Ternary(x, y, z), a, b));
  }

  lemma NestedValues(m: Meaning, scope: Dissolution.Scope, x: Tree, y: Tree, z: Tree, a: Tree, b: Tree, condition: string, text: string)
    requires ReadExpression(condition) == Some(Cond(x, y, z)) && ReadExpression(text) == Some(Cond(x, y, Cond(z, a, b)))
    ensures m.truthy(Eval(m, scope, x)) ==> ValueOf(m, scope, text) == Eval(m, scope, y)
    ensures !m.truthy(Eval(m, scope, x)) ==>
      ValueOf(m, scope, text) == if m.truthy(ValueOf(m, scope, condition)) then Eval(m, scope, a) else Eval(m, scope, b)
  {
    EvalCond(m, scope, x, y, Cond(z, a, b));
    EvalCond(m, scope, z, a, b);
    EvalCond(m, scope, x, y, z);
  }

  lemma EvalCond(m: Meaning, scope: Dissolution.Scope, c: Tree, a: Tree, b: Tree)
    ensures Eval(m, scope, Cond(c, a, b)) == if m.truthy(Eval(m, scope, c)) then Eval(m, scope, a) else Eval(m, scope, b)
  {
  }
}
