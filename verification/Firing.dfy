/** What one delta-driven evaluation derives while facts are being written to
    the live database: enough, and nothing unsupported
    (packages/datalog/src/evaluator.ts, the iteration phase). */
module Firing {
  import opened Values
  import opened Syntax
  import opened Unify
  import opened ZRelation
  import opened FiniteSums
  import opened Joins
  import opened Evaluate
  import opened Semantics
  import opened Telescope
  import opened Models

  /** `rel` shows at least the facts of `lo`, and at most those of `hi`. */
  ghost predicate Between(rel: Relation, lo: Interpretation, hi: Interpretation, p: string) {
    && rel.Valid()
    && forall t :: (Fact(p, t) in lo ==> rel.Has(t)) && (rel.Has(t) ==> Fact(p, t) in hi)
  }

  /** The relations read when element `j` is driven during an iteration. The
      live database has moved on from `S` to `I`, and a view may have been
      materialized at any moment on the way: it shows something between. */
  ghost predicate Sandwiched(body: seq<Element>, j: nat, P: Interpretation, S: Interpretation, I: Interpretation, rels: seq<Relation>) {
    && |rels| == |body|
    && forall i :: 0 <= i < |body| && body[i].ReadsRelation() ==>
         var p := body[i].atom.pred;
         && (i == j ==> Flips(rels[i], P, S, p))
         && (i != j && body[i].Negation? ==> Shows(rels[i], I, p))
         && (i < j && body[i].Positive? ==> Between(rels[i], S, I, p))
         && (i > j && body[i].Positive? ==> Between(rels[i], P, I, p))
  }

  /** The valuations the evaluation of element `j` has to catch: satisfied in
      `S`, with a fact of `S - P` at `j` and facts of `P` after it. */
  ghost predicate FiredBy(rule: Rule, j: nat, P: Interpretation, S: Interpretation, sigma: Bindings)
    requires j < |rule.body|
  {
    && sigma.Keys == PositiveVars(rule.body)
    && (forall i :: 0 <= i < j ==> Ways(rule.body[i], S, sigma) > 0)
    && Ways(rule.body[j], S, sigma) > Ways(rule.body[j], P, sigma)
    && (forall i :: j < i < |rule.body| ==> Ways(rule.body[i], P, sigma) > 0)
  }

  /** What the facts of `P`, `S` and `I` have to do with each other, as far as a
      body reads them. */
  ghost predicate Stages(body: seq<Element>, P: Interpretation, S: Interpretation, I: Interpretation) {
    forall i :: 0 <= i < |body| && body[i].ReadsRelation() ==>
      var p := body[i].atom.pred;
      && Tuples(P, p) <= Tuples(S, p) <= Tuples(I, p)
      && (body[i].Negation? ==> Tuples(P, p) == Tuples(I, p))
  }

  lemma BetweenWeight(a: Atom, rel: Relation, lo: Interpretation, hi: Interpretation, sigma: Bindings)
    requires Between(rel, lo, hi, a.pred)
    ensures Ways(Positive(a), lo, sigma) <= ElementWeight(Positive(a), rel, false, sigma) <= Ways(Positive(a), hi, sigma)
  {
    PresentSum(rel, a.terms, sigma);
    PresentTuplesAre(rel);
    TuplesAre(lo, a.pred);
    TuplesAre(hi, a.pred);
    FittingMonotone(Tuples(lo, a.pred), PresentTuples(rel), a.terms, sigma);
    FittingMonotone(PresentTuples(rel), Tuples(hi, a.pred), a.terms, sigma);
  }

  /** Every factor of a driven body is non-negative; it is positive only where
      the element is satisfied in `I`, and is positive where it fires. */
  lemma FactorSign(rule: Rule, j: nat, P: Interpretation, S: Interpretation, I: Interpretation, rels: seq<Relation>, sigma: Bindings, i: nat)
    requires SafeRule(rule) && j < |rule.body| && rule.body[j].Positive? && i < |rule.body|
    requires Stages(rule.body, P, S, I) && Sandwiched(rule.body, j, P, S, I, rels)
    requires sigma.Keys == PositiveVars(rule.body)
    ensures var w := ElementWeight(rule.body[i], rels[i], i == j, sigma);
      && w >= 0
      && (w > 0 ==> Ways(rule.body[i], I, sigma) > 0)
      && (FiredBy(rule, j, P, S, sigma) ==> w > 0)
  {
    var el := rule.body[i];
    match el
    case Positive(a) =>
      WaysGrow(el, P, S, sigma);
      WaysGrow(el, S, I, sigma);
      if i == j {
        assert SafeElement(el, sigma.Keys);
        FlipWeight(el, rels[i], P, S, sigma);
      } else {
        BetweenWeight(a, rels[i], if i < j then S else P, I, sigma);
      }
    case Negation(a) =>
      ShownWeight(el, rels[i], I, sigma);
      assert Ways(el, P, sigma) == Ways(el, S, sigma) == Ways(el, I, sigma);
    case Guard(_, _, _) => ShownWeight(el, rels[i], I, sigma);
  }

  lemma FiredProduct(rule: Rule, j: nat, P: Interpretation, S: Interpretation, I: Interpretation, rels: seq<Relation>, sigma: Bindings)
    requires SafeRule(rule) && j < |rule.body| && rule.body[j].Positive?
    requires Stages(rule.body, P, S, I) && Sandwiched(rule.body, j, P, S, I, rels)
    requires sigma.Keys == PositiveVars(rule.body)
    ensures BodyProduct(rule.body, rels, j, sigma) >= 0
    ensures BodyProduct(rule.body, rels, j, sigma) > 0 ==> Satisfies(rule, I, sigma)
    ensures FiredBy(rule, j, P, S, sigma) ==> BodyProduct(rule.body, rels, j, sigma) > 0
  {
    var ws := BodyWeights(rule.body, rels, j, sigma);
    forall i | 0 <= i < |rule.body|
      ensures ws[i] >= 0
      ensures ws[i] > 0 ==> Ways(rule.body[i], I, sigma) > 0
      ensures FiredBy(rule, j, P, S, sigma) ==> ws[i] > 0
    {
      FactorSign(rule, j, P, S, I, rels, sigma, i);
    }
    ProductNonNegative(ws);
  }

  lemma FiredCovers(rule: Rule, j: nat, P: Interpretation, S: Interpretation, I: Interpretation, rels: seq<Relation>)
    requires SafeRule(rule) && j < |rule.body| && rule.body[j].Positive?
    requires Stages(rule.body, P, S, I) && Sandwiched(rule.body, j, P, S, I, rels)
    ensures Covers(Valuations(PositiveVars(rule.body), Domain(I)), rule, rels, j)
  {
    var vars := PositiveVars(rule.body);
    forall sigma | sigma in Valuations(vars, Domain(I)) ensures sigma.Keys == vars {
      ValuationsAre(vars, Domain(I), sigma);
    }
    forall sigma: Bindings | sigma.Keys == vars && BodyProduct(rule.body, rels, j, sigma) != 0
      ensures sigma in Valuations(vars, Domain(I))
    {
      FiredProduct(rule, j, P, S, I, rels, sigma);
      SatisfiedInDomain(rule, I, sigma);
      ValuationsAre(vars, Domain(I), sigma);
    }
  }

  /** The weighted facts of the evaluation: none is negative, each is derived in
      `I`, and the head of every valuation that fires is among them. */
  lemma FiredResults(results: seq<WeightedFact>, rule: Rule, j: nat, P: Interpretation, S: Interpretation, I: Interpretation,
                     rels: seq<Relation>, f: Fact)
    requires SafeRule(rule) && j < |rule.body| && rule.body[j].Positive?
    requires Stages(rule.body, P, S, I) && Sandwiched(rule.body, j, P, S, I, rels)
    requires CountsDerivations(results, rule, rels, j) && f.pred == rule.head.pred
    ensures ListWeight(results, f) >= 0
    ensures ListWeight(results, f) > 0 ==> DerivedBy(rule, I, f)
    ensures (exists sigma :: FiredBy(rule, j, P, S, sigma) && HeadIs(rule.head, sigma, f.values)) ==> ListWeight(results, f) > 0
  {
    var vals := Valuations(PositiveVars(rule.body), Domain(I));
    FiredCovers(rule, j, P, S, I, rels);
    assert f == Fact(rule.head.pred, f.values);
    var m := Contributions(rule, rels, j, vals, f.values);
    assert ListWeight(results, f) == MapSum(m);
    forall sigma | sigma in vals
      ensures m[sigma] >= 0
      ensures m[sigma] > 0 ==> Satisfies(rule, I, sigma) && HeadIs(rule.head, sigma, f.values)
    {
      FiredProduct(rule, j, P, S, I, rels, sigma);
    }
    MapSumNonNegative(m);
    if sigma :| FiredBy(rule, j, P, S, sigma) && HeadIs(rule.head, sigma, f.values) {
      FiredProduct(rule, j, P, S, I, rels, sigma);
      assert sigma in vals && m[sigma] > 0;
    }
  }

  /** The last element that `P` does not satisfy. */
  ghost function LastUnsatisfied(body: seq<Element>, P: Interpretation, sigma: Bindings, n: nat): (j: nat)
    requires n <= |body| && exists i :: 0 <= i < n && Ways(body[i], P, sigma) == 0
    ensures j < n && Ways(body[j], P, sigma) == 0
    ensures forall i :: j < i < n ==> Ways(body[i], P, sigma) > 0
  {
    if Ways(body[n - 1], P, sigma) == 0 then n - 1 else LastUnsatisfied(body, P, sigma, n - 1)
  }

  /** A valuation satisfied in `S` is satisfied in `P` already, or is fired by
      the last element that needs a fact of `S - P`. */
  lemma SatisfiedOrFired(rule: Rule, P: Interpretation, S: Interpretation, sigma: Bindings)
    requires Stages(rule.body, P, S, S) && Satisfies(rule, S, sigma)
    ensures Satisfies(rule, P, sigma) || exists j :: 0 <= j < |rule.body| && rule.body[j].Positive? && FiredBy(rule, j, P, S, sigma)
  {
    if !Satisfies(rule, P, sigma) {
      var j := LastUnsatisfied(rule.body, P, sigma, |rule.body|);
      assert rule.body[j].Positive?;
      assert FiredBy(rule, j, P, S, sigma);
    }
  }

  lemma {:induction false} PositiveIndicesComplete(body: seq<Element>, n: nat, j: nat)
    requires j < n <= |body| && body[j].Positive?
    ensures j in PositiveIndices(body, n)
  {
    if j < n - 1 {
      PositiveIndicesComplete(body, n - 1, j);
    }
  }

  /** Stages of every rule follow from how the three interpretations relate. */
  lemma StagesFor(rules: seq<Rule>, r: nat, P: Interpretation, S: Interpretation, I: Interpretation)
    requires r < |rules| && NegationsBelow(rules)
    requires AgreeOff(P, I, HeadPredicates(rules)) && S <= I
    requires forall f :: f in P && f.pred in ReadPredicates(rules) ==> f in S
    ensures Stages(rules[r].body, P, S, I)
  {
    forall i | 0 <= i < |rules[r].body| && rules[r].body[i].ReadsRelation()
      ensures var p := rules[r].body[i].atom.pred;
        && Tuples(P, p) <= Tuples(S, p) <= Tuples(I, p)
        && (rules[r].body[i].Negation? ==> Tuples(P, p) == Tuples(I, p))
    {
      var p := rules[r].body[i].atom.pred;
      ReadsPredicate(rules, r, i);
      TuplesAre(P, p);
      TuplesAre(S, p);
      TuplesAre(I, p);
    }
  }
}
