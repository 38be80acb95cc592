/** The asymmetric join telescopes: driving every element of a body by its
    delta, with new relations before it and old ones after it, adds up to the
    change in the number of derivations
    (packages/datalog/src/evaluate.ts, `evaluateRuleDelta`; evaluator.ts,
    `driveDeltaSources`). */
module Telescope {
  import opened Values
  import opened Syntax
  import opened Unify
  import opened ZRelation
  import opened FiniteSums
  import opened Evaluate
  import opened Semantics

  /** The relations read when element `j` is driven: new before it, the flips
      at it, old after it. */
  ghost predicate Asymmetric(body: seq<Element>, j: nat, O: Interpretation, N: Interpretation, rels: seq<Relation>) {
    && |rels| == |body|
    && forall i :: 0 <= i < |body| && body[i].ReadsRelation() ==>
         var p := body[i].atom.pred;
         && (i < j ==> Shows(rels[i], N, p))
         && (i == j ==> Flips(rels[i], O, N, p))
         && (i > j ==> Shows(rels[i], O, p))
  }

  /** New ways for the first `m` elements, old ways for the rest. */
  ghost function MixedWays(body: seq<Element>, O: Interpretation, N: Interpretation, m: nat, sigma: Bindings): (ws: seq<int>)
    ensures |ws| == |body|
  {
    seq(|body|, i requires 0 <= i < |body| => Ways(body[i], if i < m then N else O, sigma))
  }

  ghost function Mixed(rule: Rule, O: Interpretation, N: Interpretation, m: nat, sigma: Bindings): int {
    Product(MixedWays(rule.body, O, N, m, sigma))
  }

  lemma MixedEnds(rule: Rule, O: Interpretation, N: Interpretation, sigma: Bindings)
    ensures Mixed(rule, O, N, 0, sigma) == RuleWays(rule, O, sigma)
    ensures Mixed(rule, O, N, |rule.body|, sigma) == RuleWays(rule, N, sigma)
  {
    assert MixedWays(rule.body, O, N, 0, sigma) == BodyWays(rule.body, O, sigma);
    assert MixedWays(rule.body, O, N, |rule.body|, sigma) == BodyWays(rule.body, N, sigma);
  }

  lemma DrivenWeights(rule: Rule, j: nat, O: Interpretation, N: Interpretation, rels: seq<Relation>, sigma: Bindings)
    requires SafeRule(rule) && j < |rule.body| && rule.body[j].ReadsRelation()
    requires Asymmetric(rule.body, j, O, N, rels)
    requires sigma.Keys == PositiveVars(rule.body)
    ensures var ws := BodyWeights(rule.body, rels, j, sigma);
      && ws[..j] == MixedWays(rule.body, O, N, j, sigma)[..j]
      && ws[j] == Ways(rule.body[j], N, sigma) - Ways(rule.body[j], O, sigma)
      && ws[j + 1..] == MixedWays(rule.body, O, N, j, sigma)[j + 1..]
  {
    var ws := BodyWeights(rule.body, rels, j, sigma);
    forall i | 0 <= i < |rule.body| && i != j
      ensures ws[i] == Ways(rule.body[i], if i < j then N else O, sigma)
    {
      ShownWeight(rule.body[i], rels[i], if i < j then N else O, sigma);
    }
    assert SafeElement(rule.body[j], PositiveVars(rule.body));
    FlipWeight(rule.body[j], rels[j], O, N, sigma);
  }

  lemma Difference(p: int, n: int, o: int)
    ensures p * (n - o) == p * n - p * o
  {
  }

  /** Driving one element moves the boundary between new and old past it. */
  lemma DrivenProduct(rule: Rule, j: nat, O: Interpretation, N: Interpretation, rels: seq<Relation>, sigma: Bindings)
    requires SafeRule(rule) && j < |rule.body| && rule.body[j].ReadsRelation()
    requires Asymmetric(rule.body, j, O, N, rels)
    requires sigma.Keys == PositiveVars(rule.body)
    ensures BodyProduct(rule.body, rels, j, sigma) == Mixed(rule, O, N, j + 1, sigma) - Mixed(rule, O, N, j, sigma)
  {
    var ws := BodyWeights(rule.body, rels, j, sigma);
    var before := MixedWays(rule.body, O, N, j, sigma);
    var a, b := before[..j], before[j + 1..];
    var n, o := Ways(rule.body[j], N, sigma), Ways(rule.body[j], O, sigma);
    assert ws == a + [n - o] + b by {
      DrivenWeights(rule, j, O, N, rels, sigma);
      SplitAt(ws, j);
    }
    MixedSplit(rule.body, O, N, j, sigma);
    ProductDifference(a, n, o, b);
  }

  lemma ProductDifference(a: seq<int>, n: int, o: int, b: seq<int>)
    ensures Product(a + [n - o] + b) == Product(a + [n] + b) - Product(a + [o] + b)
  {
    ProductMiddle(a, n - o, b);
    ProductMiddle(a, o, b);
    ProductMiddle(a, n, b);
    Difference(Product(a + b), n, o);
  }

  lemma SplitAt(ws: seq<int>, j: nat)
    requires j < |ws|
    ensures ws == ws[..j] + [ws[j]] + ws[j + 1..]
  {
  }

  lemma MixedSplit(body: seq<Element>, O: Interpretation, N: Interpretation, j: nat, sigma: Bindings)
    requires j < |body|
    ensures var before := MixedWays(body, O, N, j, sigma);
      && before == before[..j] + [Ways(body[j], O, sigma)] + before[j + 1..]
      && MixedWays(body, O, N, j + 1, sigma) == before[..j] + [Ways(body[j], N, sigma)] + before[j + 1..]
  {
  }

  // ---------------------------------------------------------------------
  // Summing over valuations
  // ---------------------------------------------------------------------

  /** Valuations over the values of both sides. */
  ghost function BothValuations(rule: Rule, O: Interpretation, N: Interpretation): set<Bindings> {
    Valuations(PositiveVars(rule.body), Domain(O) + Domain(N))
  }

  ghost function MixedTerms(rule: Rule, O: Interpretation, N: Interpretation, m: nat, t: Tuple): map<Bindings, int> {
    map sigma | sigma in BothValuations(rule, O, N) :: if HeadIs(rule.head, sigma, t) then Mixed(rule, O, N, m, sigma) else 0
  }

  ghost function MixedSum(rule: Rule, O: Interpretation, N: Interpretation, m: nat, t: Tuple): int {
    MapSum(MixedTerms(rule, O, N, m, t))
  }

  lemma ValuationsGrow(vars: set<string>, D: set<Value>, E: set<Value>)
    requires D <= E
    ensures Valuations(vars, D) <= Valuations(vars, E)
  {
    forall sigma | sigma in Valuations(vars, D) ensures sigma in Valuations(vars, E) {
      ValuationsAre(vars, D, sigma);
      ValuationsAre(vars, E, sigma);
    }
  }

  lemma MixedSumEnds(rule: Rule, O: Interpretation, N: Interpretation, t: Tuple)
    ensures MixedSum(rule, O, N, 0, t) == Count(rule, O, t)
    ensures MixedSum(rule, O, N, |rule.body|, t) == Count(rule, N, t)
  {
    forall sigma ensures Mixed(rule, O, N, 0, sigma) == RuleWays(rule, O, sigma) {
      MixedEnds(rule, O, N, sigma);
    }
    forall sigma ensures Mixed(rule, O, N, |rule.body|, sigma) == RuleWays(rule, N, sigma) {
      MixedEnds(rule, O, N, sigma);
    }
    MixedSumIs(rule, O, N, 0, O, t);
    MixedSumIs(rule, O, N, |rule.body|, N, t);
  }

  lemma MixedSumIs(rule: Rule, O: Interpretation, N: Interpretation, m: nat, I: Interpretation, t: Tuple)
    requires I == O || I == N
    requires forall sigma :: Mixed(rule, O, N, m, sigma) == RuleWays(rule, I, sigma)
    ensures MixedSum(rule, O, N, m, t) == Count(rule, I, t)
  {
    hide Mixed, RuleWays, MixedTerms, Derivations;
    var vals := BothValuations(rule, O, N);
    var vars := PositiveVars(rule.body);
    ValuationsGrow(vars, Domain(I), Domain(O) + Domain(N));
    forall sigma | sigma in vals ensures sigma.Keys == vars {
      ValuationsAre(vars, Domain(O) + Domain(N), sigma);
    }
    CountWide(rule, I, vals, t);
    MixedTermsAre(rule, O, N, m, I, t);
  }

  lemma MixedTermsAre(rule: Rule, O: Interpretation, N: Interpretation, m: nat, I: Interpretation, t: Tuple)
    requires forall sigma :: Mixed(rule, O, N, m, sigma) == RuleWays(rule, I, sigma)
    ensures MixedTerms(rule, O, N, m, t) == Derivations(rule, I, BothValuations(rule, O, N), t)
  {
    hide Mixed, RuleWays, HeadIs, BothValuations;
  }

  lemma {:induction false} ProductZero(ws: seq<int>, i: nat)
    requires i < |ws| && ws[i] == 0
    ensures Product(ws) == 0
  {
    if i < |ws| - 1 {
      ProductZero(ws[..|ws| - 1], i);
    }
  }

  lemma WaysInDomain(a: Atom, I: Interpretation, sigma: Bindings, x: string)
    requires Ways(Positive(a), I, sigma) > 0 && x in TermVars(a.terms)
    ensures x in sigma && sigma[x] in Domain(I)
  {
    var t :| t in Fitting(Tuples(I, a.pred), a.terms, sigma);
    TuplesAre(I, a.pred);
    forall k | 0 <= k < |t| ensures t[k] in Domain(I) {
      assert Fact(a.pred, t) in I && Fact(a.pred, t).values[k] == t[k];
    }
    FitBindsFrom(a.terms, t, sigma, Domain(I), x);
  }

  lemma DrivenCovers(rule: Rule, j: nat, O: Interpretation, N: Interpretation, rels: seq<Relation>)
    requires SafeRule(rule) && j < |rule.body| && rule.body[j].ReadsRelation()
    requires Asymmetric(rule.body, j, O, N, rels)
    ensures Covers(BothValuations(rule, O, N), rule, rels, j)
  {
    var vars, D := PositiveVars(rule.body), Domain(O) + Domain(N);
    forall sigma | sigma in BothValuations(rule, O, N) ensures sigma.Keys == vars {
      ValuationsAre(vars, D, sigma);
    }
    forall sigma: Bindings | sigma.Keys == vars && BodyProduct(rule.body, rels, j, sigma) != 0
      ensures sigma in BothValuations(rule, O, N)
    {
      var ws := BodyWeights(rule.body, rels, j, sigma);
      DrivenWeights(rule, j, O, N, rels, sigma);
      forall x | x in sigma ensures sigma[x] in D {
        var i :| 0 <= i < |rule.body| && rule.body[i].Positive? && x in ElementVars(rule.body[i]);
        if ws[i] == 0 {
          ProductZero(ws, i);
        }
        var el := rule.body[i];
        if i != j {
          assert ws[i] == MixedWays(rule.body, O, N, j, sigma)[i] by {
            if i < j {
              assert ws[i] == ws[..j][i];
            } else {
              assert ws[i] == ws[j + 1..][i - j - 1];
            }
          }
        }
        assert Ways(el, N, sigma) > 0 || Ways(el, O, sigma) > 0;
        if Ways(el, N, sigma) > 0 {
          WaysInDomain(el.atom, N, sigma, x);
        } else {
          WaysInDomain(el.atom, O, sigma, x);
        }
      }
      ValuationsAre(vars, D, sigma);
    }
  }

  /** What driving element `j` contributes to the weight of head tuple `t`. */
  ghost function DrivenCount(rule: Rule, O: Interpretation, N: Interpretation, j: nat, t: Tuple): int {
    MixedSum(rule, O, N, j + 1, t) - MixedSum(rule, O, N, j, t)
  }

  /** The weighted facts of one delta-driven evaluation. */
  lemma DrivenResults(results: seq<WeightedFact>, rule: Rule, j: nat, O: Interpretation, N: Interpretation, rels: seq<Relation>, t: Tuple)
    requires SafeRule(rule) && j < |rule.body| && rule.body[j].ReadsRelation()
    requires Asymmetric(rule.body, j, O, N, rels)
    requires CountsDerivations(results, rule, rels, j)
    ensures ListWeight(results, Fact(rule.head.pred, t)) == DrivenCount(rule, O, N, j, t)
  {
    var vals := BothValuations(rule, O, N);
    DrivenCovers(rule, j, O, N, rels);
    assert ListWeight(results, Fact(rule.head.pred, t)) == MapSum(Contributions(rule, rels, j, vals, t));
    forall sigma | sigma in vals
      ensures BodyProduct(rule.body, rels, j, sigma) == Mixed(rule, O, N, j + 1, sigma) - Mixed(rule, O, N, j, sigma)
    {
      DrivenProduct(rule, j, O, N, rels, sigma);
    }
    MapSumAdd(MixedTerms(rule, O, N, j + 1, t), Contributions(rule, rels, j, vals, t), MixedTerms(rule, O, N, j, t));
  }

  /** An element whose relation is the same on both sides contributes nothing:
      skipping it is not a heuristic. */
  lemma UnchangedContributesNothing(rule: Rule, O: Interpretation, N: Interpretation, j: nat, t: Tuple)
    requires j < |rule.body|
    requires rule.body[j].ReadsRelation() ==> Tuples(O, rule.body[j].atom.pred) == Tuples(N, rule.body[j].atom.pred)
    ensures DrivenCount(rule, O, N, j, t) == 0
  {
    forall sigma | sigma in BothValuations(rule, O, N)
      ensures Mixed(rule, O, N, j + 1, sigma) == Mixed(rule, O, N, j, sigma)
    {
      assert MixedWays(rule.body, O, N, j + 1, sigma) == MixedWays(rule.body, O, N, j, sigma);
    }
    assert MixedTerms(rule, O, N, j + 1, t) == MixedTerms(rule, O, N, j, t);
  }

  // ---------------------------------------------------------------------
  // The delta sources of a body
  // ---------------------------------------------------------------------

  function PositiveIndices(body: seq<Element>, n: nat): (js: seq<nat>)
    requires n <= |body|
    ensures forall k :: 0 <= k < |js| ==> js[k] < n && body[js[k]].Positive?
  {
    if n == 0 then []
    else if body[n - 1].Positive? then PositiveIndices(body, n - 1) + [n - 1]
    else PositiveIndices(body, n - 1)
  }

  function NegationIndices(body: seq<Element>, n: nat): (js: seq<nat>)
    requires n <= |body|
    ensures forall k :: 0 <= k < |js| ==> js[k] < n && body[js[k]].Negation?
  {
    if n == 0 then []
    else if body[n - 1].Negation? then NegationIndices(body, n - 1) + [n - 1]
    else NegationIndices(body, n - 1)
  }

  datatype RuleDeltaShape = RuleDeltaShape(sources: seq<nat>, hasPositiveAtom: bool, hasNegation: bool)

  /** Positive atoms first, then negations. */
  ghost predicate ShapeOf(shape: RuleDeltaShape, body: seq<Element>) {
    && shape.sources == PositiveIndices(body, |body|) + NegationIndices(body, |body|)
    && (shape.hasPositiveAtom <==> exists i :: 0 <= i < |body| && body[i].Positive?)
    && (shape.hasNegation <==> exists i :: 0 <= i < |body| && body[i].Negation?)
  }

  method ComputeShape(body: seq<Element>) returns (shape: RuleDeltaShape)
    ensures ShapeOf(shape, body)
  {
    var positives: seq<nat> := [];
    var negations: seq<nat> := [];
    for i := 0 to |body|
      invariant positives == PositiveIndices(body, i)
      invariant negations == NegationIndices(body, i)
      invariant positives != [] <==> exists k :: 0 <= k < i && body[k].Positive?
      invariant negations != [] <==> exists k :: 0 <= k < i && body[k].Negation?
    {
      match body[i] {
        case Positive(_) => positives := positives + [i];
        case Negation(_) => negations := negations + [i];
        case Guard(_, _, _) =>
      }
    }
    shape := RuleDeltaShape(positives + negations, positives != [], negations != []);
  }

  ghost function SourceSum(rule: Rule, O: Interpretation, N: Interpretation, sources: seq<nat>, t: Tuple): int {
    if sources == [] then 0
    else SourceSum(rule, O, N, sources[..|sources| - 1], t) + DrivenCount(rule, O, N, sources[|sources| - 1], t)
  }

  lemma {:induction false} SourceSumConcat(rule: Rule, O: Interpretation, N: Interpretation, a: seq<nat>, b: seq<nat>, t: Tuple)
    ensures SourceSum(rule, O, N, a + b, t) == SourceSum(rule, O, N, a, t) + SourceSum(rule, O, N, b, t)
  {
    if b == [] {
      assert a + b == a;
    } else {
      assert (a + b)[..|a + b| - 1] == a + b[..|b| - 1];
      SourceSumConcat(rule, O, N, a, b[..|b| - 1], t);
    }
  }

  lemma {:induction false} SourcesTelescope(rule: Rule, O: Interpretation, N: Interpretation, n: nat, t: Tuple)
    requires n <= |rule.body|
    ensures SourceSum(rule, O, N, PositiveIndices(rule.body, n), t) + SourceSum(rule, O, N, NegationIndices(rule.body, n), t)
         == MixedSum(rule, O, N, n, t) - MixedSum(rule, O, N, 0, t)
  {
    if n > 0 {
      SourcesTelescope(rule, O, N, n - 1, t);
      SourcesStep(rule, O, N, n, t);
    }
  }

  lemma SourcesStep(rule: Rule, O: Interpretation, N: Interpretation, n: nat, t: Tuple)
    requires 0 < n <= |rule.body|
    ensures SourceSum(rule, O, N, PositiveIndices(rule.body, n), t) + SourceSum(rule, O, N, NegationIndices(rule.body, n), t)
         == SourceSum(rule, O, N, PositiveIndices(rule.body, n - 1), t) + SourceSum(rule, O, N, NegationIndices(rule.body, n - 1), t)
          + DrivenCount(rule, O, N, n - 1, t)
  {
    match rule.body[n - 1]
    case Positive(_) => SourceSumAppend(rule, O, N, PositiveIndices(rule.body, n - 1), n - 1, t);
    case Negation(_) => SourceSumAppend(rule, O, N, NegationIndices(rule.body, n - 1), n - 1, t);
    case Guard(_, _, _) => UnchangedContributesNothing(rule, O, N, n - 1, t);
  }

  lemma SourceSumAppend(rule: Rule, O: Interpretation, N: Interpretation, js: seq<nat>, j: nat, t: Tuple)
    ensures SourceSum(rule, O, N, js + [j], t) == SourceSum(rule, O, N, js, t) + DrivenCount(rule, O, N, j, t)
  {
    assert (js + [j])[..|js|] == js;
  }

  /** Driving every positive atom and every negation, in that order, adds up to
      exactly the change in the number of derivations. */
  lemma AsymmetricJoinTelescopes(rule: Rule, shape: RuleDeltaShape, O: Interpretation, N: Interpretation, t: Tuple)
    requires ShapeOf(shape, rule.body)
    ensures SourceSum(rule, O, N, shape.sources, t) == Count(rule, N, t) - Count(rule, O, t)
  {
    var ps, ns := PositiveIndices(rule.body, |rule.body|), NegationIndices(rule.body, |rule.body|);
    SourceSumConcat(rule, O, N, ps, ns, t);
    SourcesTelescope(rule, O, N, |rule.body|, t);
    MixedSumEnds(rule, O, N, t);
  }
}
