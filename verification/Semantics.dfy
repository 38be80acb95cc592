/** What a rule means over a set of facts: the weight of a valuation, the number
    of derivations of a head tuple, and how both change with the facts. */
module Semantics {
  import opened Values
  import opened Syntax
  import opened Unify
  import opened ZRelation
  import opened FiniteSums
  import opened Joins
  import opened Evaluate

  type Interpretation = set<Fact>

  ghost function Tuples(I: Interpretation, p: string): set<Tuple> {
    set f | f in I && f.pred == p :: f.values
  }

  lemma TuplesAre(I: Interpretation, p: string)
    ensures forall t :: t in Tuples(I, p) <==> Fact(p, t) in I
  {
    forall t ensures t in Tuples(I, p) <==> Fact(p, t) in I {
      if t in Tuples(I, p) {
        var f :| f in I && f.pred == p && f.values == t;
        assert f == Fact(p, t);
      }
      if Fact(p, t) in I {
        assert Fact(p, t).pred == p && Fact(p, t).values == t;
      }
    }
  }

  // ---------------------------------------------------------------------
  // Weights
  // ---------------------------------------------------------------------

  /** The number of ways `el` is satisfied under `sigma` in `I`. */
  ghost function Ways(el: Element, I: Interpretation, sigma: Bindings): nat {
    match el
    case Positive(a) => |Fitting(Tuples(I, a.pred), a.terms, sigma)|
    case Negation(a) => if Fitting(Tuples(I, a.pred), a.terms, sigma) == {} then 1 else 0
    case Guard(op, left, right) => if EvaluateGuard(op, left, right, Substitution(sigma, 1)) then 1 else 0
  }

  ghost function BodyWays(body: seq<Element>, I: Interpretation, sigma: Bindings): (ws: seq<int>)
    ensures |ws| == |body|
  {
    seq(|body|, i requires 0 <= i < |body| => Ways(body[i], I, sigma))
  }

  /** The number of derivations the valuation `sigma` stands for. */
  ghost function RuleWays(rule: Rule, I: Interpretation, sigma: Bindings): int {
    Product(BodyWays(rule.body, I, sigma))
  }

  /** `sigma` satisfies every element of the body in `I`. */
  ghost predicate Satisfies(rule: Rule, I: Interpretation, sigma: Bindings) {
    && sigma.Keys == PositiveVars(rule.body)
    && forall i :: 0 <= i < |rule.body| ==> Ways(rule.body[i], I, sigma) > 0
  }

  lemma RuleWaysPositive(rule: Rule, I: Interpretation, sigma: Bindings)
    requires sigma.Keys == PositiveVars(rule.body)
    ensures RuleWays(rule, I, sigma) >= 0
    ensures RuleWays(rule, I, sigma) > 0 <==> Satisfies(rule, I, sigma)
  {
    var ws := BodyWays(rule.body, I, sigma);
    ProductNonNegative(ws);
    assert forall i :: 0 <= i < |rule.body| ==> ws[i] == Ways(rule.body[i], I, sigma);
  }

  // ---------------------------------------------------------------------
  // Valuations over a finite domain
  // ---------------------------------------------------------------------

  /** The values that occur in the facts. */
  ghost function Domain(I: Interpretation): set<Value> {
    set f, i | f in I && 0 <= i < |f.values| :: f.values[i]
  }

  ghost predicate ValuesIn(sigma: Bindings, D: set<Value>) {
    forall x :: x in sigma ==> sigma[x] in D
  }

  /** All valuations of `vars` over `D`. */
  ghost function Valuations(vars: set<string>, D: set<Value>): set<Bindings>
    decreases vars
  {
    if vars == {} then {map[]}
    else
      var x :| x in vars;
      set rest, v | rest in Valuations(vars - {x}, D) && v in D :: rest[x := v]
  }

  lemma {:induction false} ValuationsAre(vars: set<string>, D: set<Value>, sigma: Bindings)
    ensures sigma in Valuations(vars, D) <==> sigma.Keys == vars && ValuesIn(sigma, D)
    decreases vars
  {
    if vars == {} {
      assert sigma.Keys == {} ==> sigma == map[];
    } else {
      var x :| x in vars && Valuations(vars, D) == set rest, v | rest in Valuations(vars - {x}, D) && v in D :: rest[x := v];
      if sigma in Valuations(vars, D) {
        var rest, v :| rest in Valuations(vars - {x}, D) && v in D && sigma == rest[x := v];
        ValuationsAre(vars - {x}, D, rest);
      }
      if sigma.Keys == vars && ValuesIn(sigma, D) {
        var rest := sigma - {x};
        ValuationsAre(vars - {x}, D, rest);
        assert sigma == rest[x := sigma[x]];
      }
    }
  }

  /** A tuple that fits under `sigma` gives the values of the atom's variables. */
  lemma FitBindsFrom(terms: seq<Term>, t: Tuple, sigma: Bindings, D: set<Value>, x: string)
    requires FitsAll(terms, t, sigma) && x in TermVars(terms)
    requires forall i :: 0 <= i < |t| ==> t[i] in D
    ensures x in sigma && sigma[x] in D
  {
    var i :| 0 <= i < |terms| && terms[i].Var? && terms[i].name == x;
    assert Fits(terms[i], t[i], sigma);
  }

  lemma SatisfiedInDomain(rule: Rule, I: Interpretation, sigma: Bindings)
    requires Satisfies(rule, I, sigma)
    ensures ValuesIn(sigma, Domain(I))
  {
    forall x | x in sigma ensures sigma[x] in Domain(I) {
      var i :| 0 <= i < |rule.body| && rule.body[i].Positive? && x in ElementVars(rule.body[i]);
      var a := rule.body[i].atom;
      assert Ways(rule.body[i], I, sigma) > 0;
      var t :| t in Fitting(Tuples(I, a.pred), a.terms, sigma);
      TuplesAre(I, a.pred);
      forall j | 0 <= j < |t| ensures t[j] in Domain(I) {
        assert Fact(a.pred, t) in I && Fact(a.pred, t).values[j] == t[j];
      }
      FitBindsFrom(a.terms, t, sigma, Domain(I), x);
    }
  }

  // ---------------------------------------------------------------------
  // Counting derivations
  // ---------------------------------------------------------------------

  ghost function Derivations(rule: Rule, I: Interpretation, vals: set<Bindings>, t: Tuple): map<Bindings, int> {
    map sigma | sigma in vals :: if HeadIs(rule.head, sigma, t) then RuleWays(rule, I, sigma) else 0
  }

  /** The number of derivations of head tuple `t` by `rule` in `I`. */
  ghost function Count(rule: Rule, I: Interpretation, t: Tuple): int {
    MapSum(Derivations(rule, I, Valuations(PositiveVars(rule.body), Domain(I)), t))
  }

  /** Counting over any larger set of valuations gives the same number. */
  lemma CountWide(rule: Rule, I: Interpretation, vals: set<Bindings>, t: Tuple)
    requires forall sigma :: sigma in vals ==> sigma.Keys == PositiveVars(rule.body)
    requires Valuations(PositiveVars(rule.body), Domain(I)) <= vals
    ensures MapSum(Derivations(rule, I, vals, t)) == Count(rule, I, t)
  {
    var narrow := Valuations(PositiveVars(rule.body), Domain(I));
    forall sigma | sigma in vals && sigma !in narrow ensures RuleWays(rule, I, sigma) == 0 {
      RuleWaysPositive(rule, I, sigma);
      ValuationsAre(PositiveVars(rule.body), Domain(I), sigma);
      if Satisfies(rule, I, sigma) {
        SatisfiedInDomain(rule, I, sigma);
      }
    }
    MapSumDropZeros(Derivations(rule, I, vals, t), Derivations(rule, I, narrow, t));
  }

  /** A tuple has a derivation exactly when some satisfying valuation makes it
      the instance of the head. */
  lemma CountPositive(rule: Rule, I: Interpretation, t: Tuple)
    ensures Count(rule, I, t) >= 0
    ensures Count(rule, I, t) > 0 <==> exists sigma :: Satisfies(rule, I, sigma) && HeadIs(rule.head, sigma, t)
  {
    var vals := Valuations(PositiveVars(rule.body), Domain(I));
    var m := Derivations(rule, I, vals, t);
    forall sigma | sigma in vals
      ensures m[sigma] >= 0
      ensures m[sigma] > 0 <==> Satisfies(rule, I, sigma) && HeadIs(rule.head, sigma, t)
    {
      ValuationsAre(PositiveVars(rule.body), Domain(I), sigma);
      RuleWaysPositive(rule, I, sigma);
    }
    MapSumNonNegative(m);
    if sigma :| Satisfies(rule, I, sigma) && HeadIs(rule.head, sigma, t) {
      SatisfiedInDomain(rule, I, sigma);
      ValuationsAre(PositiveVars(rule.body), Domain(I), sigma);
      assert sigma in m && m[sigma] > 0;
    }
  }

  // ---------------------------------------------------------------------
  // Relations and interpretations
  // ---------------------------------------------------------------------

  /** The present tuples of `rel` are the facts of `p` in `I`. */
  ghost predicate Shows(rel: Relation, I: Interpretation, p: string) {
    rel.Valid() && forall t :: rel.Has(t) <==> Fact(p, t) in I
  }

  ghost function Presence(I: Interpretation, f: Fact): int {
    if f in I then 1 else 0
  }

  /** `rel` holds, as 1 and -1, the facts of `p` that appear and disappear from
      `O` to `N`. */
  ghost predicate Flips(rel: Relation, O: Interpretation, N: Interpretation, p: string) {
    rel.Valid() && forall t :: rel.WeightOf(t) == Presence(N, Fact(p, t)) - Presence(O, Fact(p, t))
  }

  lemma ShownTuples(rel: Relation, I: Interpretation, p: string)
    requires Shows(rel, I, p)
    ensures PresentTuples(rel) == Tuples(I, p)
  {
    PresentTuplesAre(rel);
    TuplesAre(I, p);
  }

  lemma NoneFits(terms: seq<Term>, sigma: Bindings)
    ensures !AnyFits(terms, [], sigma) && Fitting({}, terms, sigma) == {}
  {
  }

  lemma OneMoreFits(terms: seq<Term>, before: seq<WeightedTuple>, t: Tuple, ts: set<Tuple>, sigma: Bindings)
    ensures AnyFits(terms, before + [WeightedTuple(t, 1)], sigma) <==> AnyFits(terms, before, sigma) || FitsAll(terms, t, sigma)
    ensures Fitting(ts + {t}, terms, sigma) == Fitting(ts, terms, sigma) + if FitsAll(terms, t, sigma) then {t} else {}
  {
    hide FitsAll;
    var after := before + [WeightedTuple(t, 1)];
    assert after[|before|].tuple == t;
    assert forall i :: 0 <= i < |before| ==> after[i] == before[i];
  }

  lemma {:induction false} AnyFitsInScan(rel: Relation, n: nat, terms: seq<Term>, sigma: Bindings)
    requires rel.Valid() && n <= |rel.order|
    ensures AnyFits(terms, rel.ScanPrefix(false, n), sigma) <==> Fitting(PresentIn(rel, n), terms, sigma) != {}
  {
    hide FitsAll, AnyFits, Fitting;
    if n == 0 {
      assert PresentIn(rel, 0) == {};
      NoneFits(terms, sigma);
    } else {
      var t := rel.order[n - 1];
      AnyFitsInScan(rel, n - 1, terms, sigma);
      var before, after := rel.ScanPrefix(false, n - 1), rel.ScanPrefix(false, n);
      if rel.Has(t) {
        assert PresentIn(rel, n) == PresentIn(rel, n - 1) + {t};
        assert after == before + [WeightedTuple(t, 1)];
        OneMoreFits(terms, before, t, PresentIn(rel, n - 1), sigma);
      } else {
        assert PresentIn(rel, n) == PresentIn(rel, n - 1);
        assert after == before;
      }
    }
  }

  /** A relation that shows `I` gives every element its number of ways. */
  lemma ShownWeight(el: Element, rel: Relation, I: Interpretation, sigma: Bindings)
    requires el.ReadsRelation() ==> Shows(rel, I, el.atom.pred)
    ensures ElementWeight(el, rel, false, sigma) == Ways(el, I, sigma)
  {
    if el.ReadsRelation() {
      ShownTuples(rel, I, el.atom.pred);
      PresentSum(rel, el.atom.terms, sigma);
      AnyFitsInScan(rel, |rel.order|, el.atom.terms, sigma);
    }
  }

  /** Of a wildcard-free atom at most one tuple fits. */
  lemma GroundFitting(ts: set<Tuple>, terms: seq<Term>, sigma: Bindings)
    requires Ground(terms, sigma)
    ensures |Fitting(ts, terms, sigma)| == if Instance(terms, sigma) in ts then 1 else 0
  {
    var t := Instance(terms, sigma);
    forall u | u in ts ensures FitsAll(terms, u, sigma) <==> u == t {
      FitsIsInstance(terms, u, sigma);
    }
    assert Fitting(ts, terms, sigma) == if t in ts then {t} else {};
  }

  lemma FlippedTuples(rel: Relation, O: Interpretation, N: Interpretation, p: string)
    requires Flips(rel, O, N, p)
    ensures UnitWeights(rel)
    ensures PresentTuples(rel) == Tuples(N, p) - Tuples(O, p)
    ensures NegativeTuples(rel) == Tuples(O, p) - Tuples(N, p)
  {
    forall t | t in rel.weights ensures rel.weights[t] == 1 || rel.weights[t] == -1 {
      assert rel.WeightOf(t) == rel.weights[t];
    }
    PresentTuplesAre(rel);
    TuplesAre(O, p);
    TuplesAre(N, p);
  }

  lemma FittingDifference(ts: set<Tuple>, us: set<Tuple>, terms: seq<Term>, sigma: Bindings)
    ensures |Fitting(ts, terms, sigma)| - |Fitting(us, terms, sigma)|
         == |Fitting(ts - us, terms, sigma)| - |Fitting(us - ts, terms, sigma)|
  {
    var both := Fitting(ts * us, terms, sigma);
    assert Fitting(ts, terms, sigma) == both + Fitting(ts - us, terms, sigma);
    assert Fitting(us, terms, sigma) == both + Fitting(us - ts, terms, sigma);
    assert both !! Fitting(ts - us, terms, sigma) && both !! Fitting(us - ts, terms, sigma);
  }

  lemma FittingFlips(rel: Relation, O: Interpretation, N: Interpretation, p: string, terms: seq<Term>, sigma: Bindings)
    requires Flips(rel, O, N, p)
    ensures MatchSum(terms, rel.Scan(true), sigma)
         == |Fitting(Tuples(N, p), terms, sigma)| - |Fitting(Tuples(O, p), terms, sigma)|
  {
    FlippedTuples(rel, O, N, p);
    FlipSum(rel, terms, sigma);
    FittingDifference(Tuples(N, p), Tuples(O, p), terms, sigma);
  }

  /** A delta gives an element the change in its number of ways, with the sign
      inverted for a negation. */
  lemma FlipWeight(el: Element, rel: Relation, O: Interpretation, N: Interpretation, sigma: Bindings)
    requires el.ReadsRelation() && Flips(rel, O, N, el.atom.pred)
    requires SafeElement(el, sigma.Keys)
    ensures ElementWeight(el, rel, true, sigma) == Ways(el, N, sigma) - Ways(el, O, sigma)
  {
    var a := el.atom;
    FittingFlips(rel, O, N, a.pred, a.terms, sigma);
    if el.Negation? {
      GroundFitting(Tuples(O, a.pred), a.terms, sigma);
      GroundFitting(Tuples(N, a.pred), a.terms, sigma);
    }
  }
}
