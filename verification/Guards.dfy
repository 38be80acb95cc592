/** What a guard means: the order of the values of each type, and the guards of a
    satisfied rule (packages/datalog/src/types.ts, `evaluateGuardOp`). */
module Guards {
  import opened Prelude
  import opened Numbers
  import opened Values
  import opened Syntax
  import opened Unify
  import opened ZRelation
  import opened Evaluate
  import opened Semantics
  import opened Models

  // ---------------------------------------------------------------------
  // The order of values
  // ---------------------------------------------------------------------

  /** `a` begins `b` and is not all of it, or is smaller where they first differ. */
  ghost predicate TextBefore(a: string, b: string) {
    || (|a| < |b| && b[..|a|] == a)
    || exists i :: RisesAt(a, b, i)
  }

  /** The first difference, and that it is upwards. */
  ghost predicate RisesAt(a: string, b: string, i: int) {
    0 <= i < |a| && i < |b| && a[..i] == b[..i] && a[i] < b[i]
  }

  ghost predicate BytesBefore(a: seq<Byte>, b: seq<Byte>) {
    || (|a| < |b| && b[..|a|] == a)
    || exists i :: 0 <= i < |a| && i < |b| && a[..i] == b[..i] && a[i] < b[i]
  }

  /** By the real numbers the texts denote, `-0` before `0`, the infinities at the
      ends. */
  ghost predicate NumberBefore(x: Number, y: Number) {
    || (x == "-0" && y == "0")
    || (exists r, q :: Denotes(x, r) && Denotes(y, q) && r < q)
    || (x == "-Infinity" && y != "-Infinity" && y != "NaN")
    || (y == "Infinity" && x != "Infinity" && x != "NaN")
  }

  /** The order within each type; nothing is ordered across types. */
  ghost predicate Earlier(a: Value, b: Value) {
    match (a, b)
    case (Bool(x), Bool(y)) => !x && y
    case (Num(x), Num(y)) => NumberBefore(x, y)
    case (Big(x), Big(y)) => x < y
    case (Str(x), Str(y)) => TextBefore(x, y)
    case (Bytes(x), Bytes(y)) => BytesBefore(x, y)
    case (Ref(p, c), Ref(q, d)) => TextBefore(p, q) || (p == q && c < d)
    case _ => false
  }

  /** Of one type, neither null nor NaN. */
  ghost predicate Comparable(a: Value, b: Value) {
    match (a, b)
    case (Num(x), Num(y)) => x != "NaN" && y != "NaN"
    case (Bool(_), Bool(_)) => true
    case (Big(_), Big(_)) => true
    case (Str(_), Str(_)) => true
    case (Bytes(_), Bytes(_)) => true
    case (Ref(_, _), Ref(_, _)) => true
    case _ => false
  }

  /** What each operator says of two values. */
  ghost predicate Holds(op: GuardOp, a: Value, b: Value) {
    match op
    case Eq => a == b
    case Neq => a != b
    case Lt => Earlier(a, b)
    case Gt => Earlier(b, a)
    case Lte => Earlier(a, b) || (Comparable(a, b) && a == b)
    case Gte => Earlier(b, a) || (Comparable(a, b) && a == b)
  }

  // ---------------------------------------------------------------------
  // The comparisons compute it
  // ---------------------------------------------------------------------

  lemma RisesLater(a: string, b: string, i: int)
    requires a != [] && b != [] && a[0] == b[0] && i > 0
    ensures RisesAt(a, b, i) <==> RisesAt(a[1..], b[1..], i - 1)
  {
    if i < |a| && i < |b| {
      assert a[..i] == [a[0]] + a[1..][..i - 1] && b[..i] == [b[0]] + b[1..][..i - 1];
      assert a[..i][1..] == a[1..][..i - 1] && b[..i][1..] == b[1..][..i - 1];
    }
  }

  lemma BeginsLater(a: string, b: string)
    requires a != [] && b != [] && a[0] == b[0] && |a| < |b|
    ensures b[..|a|] == a <==> b[1..][..|a| - 1] == a[1..]
  {
    assert b[..|a|] == [b[0]] + b[1..][..|a| - 1] && a == [a[0]] + a[1..];
    assert b[..|a|][1..] == b[1..][..|a| - 1];
  }

  lemma TextBeforeTail(a: string, b: string)
    requires a != [] && b != [] && a[0] == b[0]
    ensures TextBefore(a, b) <==> TextBefore(a[1..], b[1..])
  {
    if |a| < |b| {
      BeginsLater(a, b);
    }
    if i :| RisesAt(a, b, i) {
      RisesLater(a, b, i);
    }
    if i :| RisesAt(a[1..], b[1..], i) {
      RisesLater(a, b, i + 1);
    }
  }

  lemma TextBeforeHead(a: string, b: string)
    requires a != [] && b != [] && a[0] != b[0]
    ensures TextBefore(a, b) <==> a[0] < b[0]
  {
    assert a[..0] == b[..0];
    assert a[0] < b[0] ==> RisesAt(a, b, 0);
    assert |a| <= |b| ==> b[..|a|][0] == b[0];
    forall i | 0 < i < |a| && i < |b| ensures a[..i] != b[..i] {
      assert a[..i][0] == a[0] && b[..i][0] == b[0];
    }
  }

  lemma {:induction false} TextsCompare(a: string, b: string)
    ensures CompareStrings(a, b) < 0 <==> TextBefore(a, b)
    ensures CompareStrings(a, b) == 0 <==> a == b
    ensures CompareStrings(a, b) > 0 <==> TextBefore(b, a)
  {
    if a == [] || b == [] {
      assert a[..0] == b[..0];
    } else if a[0] == b[0] {
      TextsCompare(a[1..], b[1..]);
      TextBeforeTail(a, b);
      TextBeforeTail(b, a);
      assert a == [a[0]] + a[1..] && b == [b[0]] + b[1..];
    } else {
      TextBeforeHead(a, b);
      TextBeforeHead(b, a);
    }
  }

  /** A byte as the character of its code: the two orders are one. */
  function AsText(bytes: seq<Byte>): (s: string)
    ensures |s| == |bytes|
  {
    seq(|bytes|, i requires 0 <= i < |bytes| => bytes[i] as char)
  }

  lemma BytesBeforeIs(a: seq<Byte>, b: seq<Byte>)
    ensures BytesBefore(a, b) <==> TextBefore(AsText(a), AsText(b))
    ensures a == b <==> AsText(a) == AsText(b)
  {
    var x, y := AsText(a), AsText(b);
    forall i | 0 <= i <= |a| && i <= |b| ensures a[..i] == b[..i] <==> x[..i] == y[..i] {
      SameUpTo(a, b, x, y, i);
    }
    forall i | 0 <= i < |a| && i < |b| ensures RisesAt(x, y, i) <==> a[..i] == b[..i] && a[i] < b[i] {
      assert x[i] < y[i] <==> a[i] < b[i];
    }
    assert a[..|a|] == a && x[..|a|] == x && b[..|b|] == b && y[..|b|] == y;
  }

  lemma SameUpTo(a: seq<Byte>, b: seq<Byte>, x: string, y: string, i: nat)
    requires x == AsText(a) && y == AsText(b) && i <= |a| && i <= |b|
    ensures a[..i] == b[..i] <==> x[..i] == y[..i]
  {
    if x[..i] == y[..i] {
      forall j | 0 <= j < i ensures a[j] == b[j] {
        assert x[..i][j] == y[..i][j];
      }
    }
    if a[..i] == b[..i] {
      forall j | 0 <= j < i ensures x[j] == y[j] {
        assert a[..i][j] == b[..i][j];
      }
    }
  }

  lemma {:induction false} BytesCompareAsText(a: seq<Byte>, b: seq<Byte>)
    ensures CompareBytes(a, b) == CompareStrings(AsText(a), AsText(b))
  {
    if a != [] && b != [] {
      assert AsText(a)[1..] == AsText(a[1..]) && AsText(b)[1..] == AsText(b[1..]);
      BytesCompareAsText(a[1..], b[1..]);
    }
  }

  lemma FiniteOrNot(x: Number)
    requires x != "NaN"
    ensures InfinitySign(x) == 0 <==> exists r :: Denotes(x, r)
    ensures InfinitySign(x) == 0 ==> Denotes(x, RealOf(x))
  {
    if exists r :: Denotes(x, r) {
      var r :| Denotes(x, r);
      DenotedIsRead(x, r);
      InfinityDenotesNothing(x, r);
    }
  }

  lemma InfinityDenotesNothing(x: Number, r: real)
    requires Denotes(x, r)
    ensures x != "Infinity" && x != "-Infinity" && x != "NaN"
  {
    hide DecimalText;
    if x != "0" && x != "-0" {
      var negative, d: Decimal :| DenotesDecimal(x, r, negative, d);
      FirstIsDigit(d);
      assert x[|SignText(negative)|] == DecimalText(d)[0];
    }
  }

  lemma FirstIsDigit(d: Decimal)
    requires d.Normal()
    ensures DecimalText(d) != [] && '0' <= DecimalText(d)[0] <= '9'
  {
    var k, n := |d.digits|, d.point;
    if k <= n <= 21 {
      DigitsOnly(d.digits + Zeros(n - k));
    } else {
      DigitsOnly(d.digits);
    }
  }

  lemma FiniteBefore(x: Number, y: Number)
    requires Denotes(x, RealOf(x)) && Denotes(y, RealOf(y))
    ensures NumberBefore(x, y) <==> (x == "-0" && y == "0") || RealOf(x) < RealOf(y)
    ensures x == y <==> RealOf(x) == RealOf(y) && !NumberBefore(x, y) && !NumberBefore(y, x)
  {
    InfinityDenotesNothing(x, RealOf(x));
    InfinityDenotesNothing(y, RealOf(y));
    if exists r, q :: Denotes(x, r) && Denotes(y, q) && r < q {
      var r, q :| Denotes(x, r) && Denotes(y, q) && r < q;
      DenotedIsRead(x, r);
      DenotedIsRead(y, q);
    }
    if RealOf(x) == RealOf(y) {
      if RealOf(x) == 0.0 {
        ZeroTexts(x);
        ZeroTexts(y);
      } else {
        OneText(x, y, RealOf(x));
      }
    }
    ZeroReads();
  }

  lemma NumbersCompare(x: Number, y: Number)
    requires x != "NaN" && y != "NaN"
    ensures CompareNumbers(x, y) < 0 <==> NumberBefore(x, y)
    ensures CompareNumbers(x, y) == 0 <==> x == y
    ensures CompareNumbers(x, y) > 0 <==> NumberBefore(y, x)
  {
    hide RealOf, Denotes;
    FiniteOrNot(x);
    FiniteOrNot(y);
    ZeroReads();
    if InfinitySign(x) == 0 && InfinitySign(y) == 0 {
      FiniteBefore(x, y);
      FiniteBefore(y, x);
    }
  }

  /** Values of one type are ordered, and the sign of their comparison says how. */
  lemma ComparisonIsOrder(a: Value, b: Value)
    ensures CompareSameType(a, b).Some? <==> Comparable(a, b)
    ensures Comparable(a, b) ==> (CompareSameType(a, b).value < 0 <==> Earlier(a, b))
    ensures Comparable(a, b) ==> (CompareSameType(a, b).value == 0 <==> a == b)
    ensures Comparable(a, b) ==> (CompareSameType(a, b).value > 0 <==> Earlier(b, a))
  {
    hide NumberBefore, TextBefore, BytesBefore, CompareStrings, CompareBytes, CompareNumbers;
    match (a, b)
    case (Num(x), Num(y)) => if x != "NaN" && y != "NaN" { NumbersCompare(x, y); }
    case (Str(x), Str(y)) => TextsCompare(x, y);
    case (Bytes(x), Bytes(y)) =>
      BytesCompareAsText(x, y);
      TextsCompare(AsText(x), AsText(y));
      BytesBeforeIs(x, y);
      BytesBeforeIs(y, x);
    case (Ref(p, _), Ref(q, _)) => TextsCompare(p, q);
    case _ =>
  }

  lemma OnlyComparableAreOrdered(a: Value, b: Value)
    ensures Earlier(a, b) ==> Comparable(a, b)
  {
    if a.Num? && b.Num? && Earlier(a, b) {
      var x, y := a.number, b.number;
      if exists r, q :: Denotes(x, r) && Denotes(y, q) && r < q {
        var r, q :| Denotes(x, r) && Denotes(y, q) && r < q;
        InfinityDenotesNothing(x, r);
        InfinityDenotesNothing(y, q);
      }
    }
  }

  /** Each operator decides exactly what it says. */
  lemma GuardsHold(op: GuardOp, a: Value, b: Value)
    ensures EvaluateGuardOp(op, a, b) <==> Holds(op, a, b)
  {
    hide Earlier, Comparable, CompareSameType;
    ComparisonIsOrder(a, b);
    OnlyComparableAreOrdered(a, b);
    OnlyComparableAreOrdered(b, a);
    ComparableBothWays(a, b);
  }

  lemma ComparableBothWays(a: Value, b: Value)
    ensures Comparable(a, b) <==> Comparable(b, a)
  {
  }

  /** Of two comparable values either one is earlier or they are the same. */
  lemma OrderIsTotal(a: Value, b: Value)
    ensures Comparable(a, b) ==> Earlier(a, b) || a == b || Earlier(b, a)
    ensures !(Earlier(a, b) && a == b) && !(Earlier(a, b) && Earlier(b, a))
  {
    hide Earlier, Comparable, CompareSameType;
    ComparisonIsOrder(a, b);
    OnlyComparableAreOrdered(a, b);
    OnlyComparableAreOrdered(b, a);
    ComparableBothWays(a, b);
  }

  // ---------------------------------------------------------------------
  // What a rule derives
  // ---------------------------------------------------------------------

  /** `a` is what the term stands for. */
  ghost predicate StandsFor(term: Term, a: Value, sigma: Bindings) {
    !term.Wildcard? && Fits(term, a, sigma)
  }

  /** An atom is met by a fact that fits it, a negated one by the lack of any, and
      a guard by the values of its terms. */
  ghost predicate Met(el: Element, I: Interpretation, sigma: Bindings) {
    match el
    case Positive(a) => exists t :: Fact(a.pred, t) in I && FitsAll(a.terms, t, sigma)
    case Negation(a) => !exists t :: Fact(a.pred, t) in I && FitsAll(a.terms, t, sigma)
    case Guard(op, left, right) => exists a, b :: StandsFor(left, a, sigma) && StandsFor(right, b, sigma) && Holds(op, a, b)
  }

  /** Values for the variables of a body under which all of it is met and the head
      is `f`. */
  ghost predicate Yields(rule: Rule, I: Interpretation, sigma: Bindings, f: Fact) {
    && sigma.Keys == PositiveVars(rule.body)
    && (forall i :: 0 <= i < |rule.body| ==> Met(rule.body[i], I, sigma))
    && rule.head.pred == f.pred && FitsAll(rule.head.terms, f.values, sigma)
  }

  lemma MetIsWays(el: Element, I: Interpretation, sigma: Bindings)
    ensures Met(el, I, sigma) <==> Ways(el, I, sigma) > 0
  {
    match el
    case Positive(a) => SomeFits(a, I, sigma);
    case Negation(a) => SomeFits(a, I, sigma);
    case Guard(op, left, right) =>
      var l, r := ResolveTerm(left, Substitution(sigma, 1)), ResolveTerm(right, Substitution(sigma, 1));
      assert forall a :: StandsFor(left, a, sigma) <==> l == Some(a);
      assert forall b :: StandsFor(right, b, sigma) <==> r == Some(b);
      if l.Some? && r.Some? {
        GuardsHold(op, l.value, r.value);
      }
  }

  lemma SomeFits(a: Atom, I: Interpretation, sigma: Bindings)
    ensures Fitting(Tuples(I, a.pred), a.terms, sigma) != {} <==> exists t :: Fact(a.pred, t) in I && FitsAll(a.terms, t, sigma)
  {
    TuplesAre(I, a.pred);
    var fitting := Fitting(Tuples(I, a.pred), a.terms, sigma);
    assert forall t :: t in fitting <==> Fact(a.pred, t) in I && FitsAll(a.terms, t, sigma);
  }

  lemma HeadFits(head: Atom, sigma: Bindings, t: Tuple)
    requires Ground(head.terms, sigma)
    ensures HeadIs(head, sigma, t) <==> FitsAll(head.terms, t, sigma)
  {
    forall i | 0 <= i < |head.terms| ensures forall v :: Fits(head.terms[i], v, sigma) <==> v == Instance(head.terms, sigma)[i] {
      GroundTermOk(head.terms, sigma, i);
    }
    if FitsAll(head.terms, t, sigma) {
      assert t == Instance(head.terms, sigma);
    }
  }

  /** A fact is derived exactly when some rule yields it: its guards hold in the
      order of values. */
  lemma DerivesWhatHolds(rules: seq<Rule>, I: Interpretation, f: Fact)
    requires SafeProgram(rules)
    ensures Derives(rules, I, f) <==> exists r, sigma: Bindings :: 0 <= r < |rules| && Yields(rules[r], I, sigma, f)
  {
    hide Met, Ways, Ground;
    forall r, sigma: Bindings | 0 <= r < |rules| && sigma.Keys == PositiveVars(rules[r].body)
      ensures Yields(rules[r], I, sigma, f) <==> Satisfies(rules[r], I, sigma) && rules[r].head.pred == f.pred && HeadIs(rules[r].head, sigma, f.values)
    {
      YieldsIsSatisfied(rules[r], I, sigma, f);
    }
  }

  lemma YieldsIsSatisfied(rule: Rule, I: Interpretation, sigma: Bindings, f: Fact)
    requires SafeRule(rule) && sigma.Keys == PositiveVars(rule.body)
    ensures Yields(rule, I, sigma, f) <==> Satisfies(rule, I, sigma) && rule.head.pred == f.pred && HeadIs(rule.head, sigma, f.values)
  {
    hide Met, Ways;
    HeadFits(rule.head, sigma, f.values);
    forall i | 0 <= i < |rule.body| ensures Met(rule.body[i], I, sigma) <==> Ways(rule.body[i], I, sigma) > 0 {
      MetIsWays(rule.body[i], I, sigma);
    }
  }
}
