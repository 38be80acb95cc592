/** What a stratum keeps between steps, and why the seed phase may start from it
    in each of the ways the evaluator runs a stratum
    (packages/datalog/src/evaluator.ts). */
module Invariants {
  import opened Values
  import opened Syntax
  import opened Unify
  import opened ZRelation
  import opened FiniteSums
  import opened Databases
  import opened Semantics
  import opened Telescope
  import opened Models
  import opened SemiNaive

  /** A rule that reads no relation at all: its answer is constant. */
  ghost predicate ConstantRule(rule: Rule) {
    !HasPositive(rule.body) && !HasNegation(rule.body)
  }

  /** The derivations of `f` by the rules a delta can drive. */
  ghost function DrivenDerivations(rules: seq<Rule>, n: nat, I: Interpretation, f: Fact): int
    requires n <= |rules|
  {
    if n == 0 then 0
    else
      var rule := rules[n - 1];
      DrivenDerivations(rules, n - 1, I, f) +
      (if rule.head.pred == f.pred && !ConstantRule(rule) then Count(rule, I, f.values) else 0)
  }

  ghost predicate ConstantDerives(rules: seq<Rule>, I: Interpretation, f: Fact) {
    exists r :: 0 <= r < |rules| && ConstantRule(rules[r]) && DerivedBy(rules[r], I, f)
  }

  /** The weight of a head is its ground weight plus its number of derivations;
      a constant rule, which every evaluation fires again, adds at least one. */
  ghost predicate ExactWeight(rules: seq<Rule>, ground: Store, I: Interpretation, s: Store, f: Fact) {
    var counted := WeightIn(ground, f) + DrivenDerivations(rules, |rules|, I, f);
    if ConstantDerives(rules, I, f) then WeightIn(s, f) > counted else WeightIn(s, f) == counted
  }

  ghost predicate ExactWeights(rules: seq<Rule>, ground: Store, I: Interpretation, s: Store) {
    forall f: Fact :: f.pred in HeadPredicates(rules) ==> ExactWeight(rules, ground, I, s, f)
  }

  // ---------------------------------------------------------------------
  // Counts and the facts read
  // ---------------------------------------------------------------------

  lemma CountGrows(rule: Rule, I: Interpretation, J: Interpretation, t: Tuple)
    requires BodyGrows(rule.body, I, J)
    ensures Count(rule, I, t) <= Count(rule, J, t)
  {
    var vars := PositiveVars(rule.body);
    var vals := BothValuations(rule, I, J);
    ValuationsGrow(vars, Domain(I), Domain(I) + Domain(J));
    ValuationsGrow(vars, Domain(J), Domain(I) + Domain(J));
    forall sigma | sigma in vals ensures sigma.Keys == vars {
      ValuationsAre(vars, Domain(I) + Domain(J), sigma);
    }
    CountWide(rule, I, vals, t);
    CountWide(rule, J, vals, t);
    var a, b := Derivations(rule, I, vals, t), Derivations(rule, J, vals, t);
    forall sigma | sigma in vals ensures a[sigma] <= b[sigma] {
      RuleWaysGrow(rule, I, J, sigma);
    }
    MapSumGrows(a, b);
  }

  lemma MapSumGrows<K>(a: map<K, int>, b: map<K, int>)
    requires a.Keys == b.Keys && forall k :: k in a.Keys ==> a[k] <= b[k]
    ensures MapSum(a) <= MapSum(b)
  {
    var d := map k | k in a.Keys :: b[k] - a[k];
    MapSumAdd(b, a, d);
    MapSumNonNegative(d);
  }

  lemma RuleWaysGrow(rule: Rule, I: Interpretation, J: Interpretation, sigma: Bindings)
    requires BodyGrows(rule.body, I, J)
    ensures RuleWays(rule, I, sigma) <= RuleWays(rule, J, sigma)
  {
    var a, b := BodyWays(rule.body, I, sigma), BodyWays(rule.body, J, sigma);
    forall i | 0 <= i < |a| ensures 0 <= a[i] <= b[i] {
      WaysGrow(rule.body[i], I, J, sigma);
    }
    ProductMonotone(a, b);
  }

  lemma {:induction false} ProductMonotone(a: seq<int>, b: seq<int>)
    requires |a| == |b| && forall i :: 0 <= i < |a| ==> 0 <= a[i] <= b[i]
    ensures 0 <= Product(a) <= Product(b)
  {
    if a != [] {
      var n := |a| - 1;
      ProductMonotone(a[..n], b[..n]);
      MultiplyMonotone(Product(a[..n]), Product(b[..n]), a[n], b[n]);
    }
  }

  lemma MultiplyMonotone(x: int, y: int, a: int, b: int)
    requires 0 <= x <= y && 0 <= a <= b
    ensures 0 <= x * a <= y * b
  {
    assert x * a <= y * a;
    assert y * a <= y * b;
  }

  lemma CountSameReads(rules: seq<Rule>, r: nat, I: Interpretation, J: Interpretation, t: Tuple)
    requires r < |rules| && AgreeOn(I, J, ReadPredicates(rules))
    ensures Count(rules[r], I, t) == Count(rules[r], J, t)
  {
    SameReadsGrow(rules, I, J);
    assert BodyGrows(rules[r].body, I, J) && BodyGrows(rules[r].body, J, I);
    CountGrows(rules[r], I, J, t);
    CountGrows(rules[r], J, I, t);
  }

  lemma {:induction false} DrivenSameReads(rules: seq<Rule>, n: nat, I: Interpretation, J: Interpretation, f: Fact)
    requires n <= |rules| && AgreeOn(I, J, ReadPredicates(rules))
    ensures DrivenDerivations(rules, n, I, f) == DrivenDerivations(rules, n, J, f)
  {
    if n > 0 {
      DrivenSameReads(rules, n - 1, I, J, f);
      CountSameReads(rules, n - 1, I, J, f.values);
    }
  }

  lemma ExactSameReads(rules: seq<Rule>, ground: Store, I: Interpretation, J: Interpretation, s: Store)
    requires AgreeOn(I, J, ReadPredicates(rules)) && ExactWeights(rules, ground, I, s)
    ensures ExactWeights(rules, ground, J, s)
  {
    SameReadsGrow(rules, I, J);
    forall f: Fact | f.pred in HeadPredicates(rules) ensures ExactWeight(rules, ground, J, s, f) {
      assert ExactWeight(rules, ground, I, s, f);
      DrivenSameReads(rules, |rules|, I, J, f);
      forall r | 0 <= r < |rules| ensures DerivedBy(rules[r], I, f) <==> DerivedBy(rules[r], J, f) {
        assert BodyGrows(rules[r].body, I, J) && BodyGrows(rules[r].body, J, I);
        if DerivedBy(rules[r], I, f) {
          DerivedByGrows(rules[r], I, J, f);
        }
        if DerivedBy(rules[r], J, f) {
          DerivedByGrows(rules[r], J, I, f);
        }
      }
    }
  }

  lemma CountIsDerived(rule: Rule, I: Interpretation, f: Fact)
    requires rule.head.pred == f.pred
    ensures Count(rule, I, f.values) >= 0
    ensures Count(rule, I, f.values) > 0 <==> DerivedBy(rule, I, f)
  {
    CountPositive(rule, I, f.values);
  }

  lemma {:induction false} DrivenDerivationsPositive(rules: seq<Rule>, n: nat, I: Interpretation, f: Fact)
    requires n <= |rules|
    ensures DrivenDerivations(rules, n, I, f) >= 0
    ensures DrivenDerivations(rules, n, I, f) > 0 <==> exists r :: 0 <= r < n && !ConstantRule(rules[r]) && DerivedBy(rules[r], I, f)
  {
    if n > 0 {
      DrivenDerivationsPositive(rules, n - 1, I, f);
      if rules[n - 1].head.pred == f.pred {
        CountIsDerived(rules[n - 1], I, f);
      }
    }
  }

  /** Derived means counted, or derived by a constant rule. */
  lemma DerivesIsCounted(rules: seq<Rule>, I: Interpretation, f: Fact)
    ensures DrivenDerivations(rules, |rules|, I, f) >= 0
    ensures Derives(rules, I, f) <==> DrivenDerivations(rules, |rules|, I, f) > 0 || ConstantDerives(rules, I, f)
  {
    DrivenDerivationsPositive(rules, |rules|, I, f);
  }

  // ---------------------------------------------------------------------
  // Seeds of a step over a stratum that reads none of its heads
  // ---------------------------------------------------------------------

  /** The constant rules among the first `n` that derive `f` add their count. */
  ghost function ConstantDerivations(rules: seq<Rule>, n: nat, I: Interpretation, f: Fact): int
    requires n <= |rules|
  {
    if n == 0 then 0
    else
      ConstantDerivations(rules, n - 1, I, f) +
      (if rules[n - 1].head.pred == f.pred && ConstantRule(rules[n - 1]) then Count(rules[n - 1], I, f.values) else 0)
  }

  lemma {:induction false} ConstantDerivationsPositive(rules: seq<Rule>, n: nat, I: Interpretation, f: Fact)
    requires n <= |rules|
    ensures ConstantDerivations(rules, n, I, f) >= 0
    ensures ConstantDerivations(rules, n, I, f) > 0 <==> exists r :: 0 <= r < n && ConstantRule(rules[r]) && DerivedBy(rules[r], I, f)
  {
    if n > 0 {
      ConstantDerivationsPositive(rules, n - 1, I, f);
      if rules[n - 1].head.pred == f.pred {
        CountIsDerived(rules[n - 1], I, f);
      }
    }
  }

  lemma {:induction false} StepSeedChange(rules: seq<Rule>, n: nat, O: Interpretation, N: Interpretation, f: Fact)
    requires n <= |rules|
    ensures SeedChange(rules, n, StepPass, O, N, f)
         == DrivenDerivations(rules, n, N, f) - DrivenDerivations(rules, n, O, f) + ConstantDerivations(rules, n, N, f)
  {
    if n > 0 {
      StepSeedChange(rules, n - 1, O, N, f);
    }
  }

  /** A constant rule derives the same whatever the facts. */
  lemma ConstantSame(rules: seq<Rule>, I: Interpretation, J: Interpretation, f: Fact)
    ensures ConstantDerives(rules, I, f) ==> ConstantDerives(rules, J, f)
  {
    if r :| 0 <= r < |rules| && ConstantRule(rules[r]) && DerivedBy(rules[r], I, f) {
      assert BodyGrows(rules[r].body, I, J);
      DerivedByGrows(rules[r], I, J, f);
    }
  }

  /** The seeds lead `f` to its ground weight plus its derivations, plus
      something where a constant rule derives it. */
  ghost predicate CountedSeed(rules: seq<Rule>, ground: Store, pass: StratumPass, O: Interpretation, start: Store, f: Fact) {
    var counted := WeightIn(ground, f) + DrivenDerivations(rules, |rules|, Facts(start), f);
    if ConstantDerives(rules, Facts(start), f)
    then Seeded(rules, pass, O, start, f) > counted
    else Seeded(rules, pass, O, start, f) == counted
  }

  ghost predicate CountedSeeds(rules: seq<Rule>, ground: Store, pass: StratumPass, O: Interpretation, start: Store) {
    forall f: Fact :: f.pred in HeadPredicates(rules) ==> CountedSeed(rules, ground, pass, O, start, f)
  }

  /** Exact weights move with the number of derivations. */
  lemma ExactAfterStep(rules: seq<Rule>, ground: Store, O: Interpretation, start: Store)
    requires ExactWeights(rules, ground, O, start)
    ensures CountedSeeds(rules, ground, StepPass, O, start)
  {
    forall f: Fact | f.pred in HeadPredicates(rules) ensures CountedSeed(rules, ground, StepPass, O, start, f) {
      assert ExactWeight(rules, ground, O, start, f);
      StepSeedChange(rules, |rules|, O, Facts(start), f);
      ConstantDerivationsPositive(rules, |rules|, Facts(start), f);
      ConstantSame(rules, O, Facts(start), f);
      ConstantSame(rules, Facts(start), O, f);
    }
  }

  lemma CountedSeedSign(rules: seq<Rule>, ground: Store, pass: StratumPass, O: Interpretation, start: Store, f: Fact)
    requires Carries(start, ground) && CountedSeeds(rules, ground, pass, O, start)
    ensures Seeded(rules, pass, O, start, f) >= WeightIn(ground, f)
    ensures Derives(rules, Facts(start), f) ==> Seeded(rules, pass, O, start, f) > WeightIn(ground, f)
    ensures f.pred !in HeadPredicates(rules) ==> (Seeded(rules, pass, O, start, f) > 0 <==> f in Facts(start))
    ensures f.pred in HeadPredicates(rules) ==>
      (Seeded(rules, pass, O, start, f) > 0 <==> f in Facts(ground) || Derives(rules, Facts(start), f))
  {
    FactsAre(start);
    FactsAre(ground);
    if f.pred in HeadPredicates(rules) {
      assert CountedSeed(rules, ground, pass, O, start, f);
      DerivesIsCounted(rules, Facts(start), f);
    } else {
      SeedChangeOffHeads(rules, |rules|, pass, O, Facts(start), f);
      assert !Derives(rules, Facts(start), f);
    }
  }

  lemma CountedSeedsAreGood(rules: seq<Rule>, ground: Store, pass: StratumPass, O: Interpretation, start: Store)
    requires NegationsBelow(rules) && Carries(start, ground)
    requires CountedSeeds(rules, ground, pass, O, start)
    requires NonRecursive(rules) || forall f :: f in Facts(start) && f.pred in HeadPredicates(rules) ==> f in Facts(ground)
    ensures GoodSeeds(rules, Facts(ground), ground, pass, O, start)
  {
    var N, H := Facts(start), HeadPredicates(rules);
    forall f: Fact
      ensures Seeded(rules, pass, O, start, f) >= WeightIn(ground, f)
      ensures f in N && f.pred in ReadPredicates(rules) ==> Seeded(rules, pass, O, start, f) > 0
      ensures Derives(rules, N, f) ==> Seeded(rules, pass, O, start, f) > WeightIn(ground, f)
      ensures f in Facts(ground) && f.pred in H ==> Seeded(rules, pass, O, start, f) > 0
    {
      CountedSeedSign(rules, ground, pass, O, start, f);
      if Derives(rules, N, f) {
        DerivedIsHead(rules, N, f);
      }
    }
    forall J: Interpretation, f | ModelOver(rules, Facts(ground), N, J) && Seeded(rules, pass, O, start, f) > 0 ensures f in J {
      CountedSeedSign(rules, ground, pass, O, start, f);
      if f.pred in H && f !in Facts(ground) {
        if NonRecursive(rules) {
          SameReadsGrow(rules, N, J);
        } else {
          LargerGrows(rules, N, J);
        }
        DerivesGrows(rules, N, J, f);
      }
    }
  }

  // ---------------------------------------------------------------------
  // Seeds of a step over a recursive stratum that can lose nothing
  // ---------------------------------------------------------------------

  lemma {:induction false} GrowingSeedChange(rules: seq<Rule>, n: nat, O: Interpretation, N: Interpretation, f: Fact)
    requires n <= |rules| && Grows(rules, O, N)
    ensures SeedChange(rules, n, StepPass, O, N, f) >= 0
    ensures forall r :: 0 <= r < n && DerivedBy(rules[r], N, f) && !DerivedBy(rules[r], O, f) ==> SeedChange(rules, n, StepPass, O, N, f) > 0
    ensures SeedChange(rules, n, StepPass, O, N, f) > 0 ==> Derives(rules, N, f)
  {
    if n > 0 {
      GrowingSeedChange(rules, n - 1, O, N, f);
      var rule := rules[n - 1];
      if rule.head.pred == f.pred {
        assert BodyGrows(rule.body, O, N);
        CountGrows(rule, O, N, f.values);
        CountIsDerived(rule, O, f);
        CountIsDerived(rule, N, f);
      }
    }
  }

  /** The old least model, over inputs that can only have added derivations. Of
      its heads it may have lost facts that were ground and no more; what is left
      counts as ground here if it was. */
  lemma GrowingSeedsAreGood(rules: seq<Rule>, G: Interpretation, G': Interpretation, ground: Store, O: Interpretation, start: Store)
    requires NegationsBelow(rules) && ValidStore(start) && Carries(start, ground)
    requires Least(rules, G, O) && Grows(rules, O, Facts(start))
    requires forall f :: Derives(rules, O, f) ==> WeightIn(start, f) > WeightIn(ground, f)
    requires forall f :: f in G && f in Facts(start) && f.pred in HeadPredicates(rules) ==> f in G'
    requires forall f :: f in G' && f.pred in HeadPredicates(rules) ==> f in Facts(start)
    requires forall f :: f in Facts(start) && f.pred in HeadPredicates(rules) ==> f in O || f in G'
    ensures GoodSeeds(rules, G', ground, StepPass, O, start)
  {
    var N, H := Facts(start), HeadPredicates(rules);
    FactsAre(start);
    forall f: Fact
      ensures Seeded(rules, StepPass, O, start, f) >= WeightIn(ground, f)
      ensures f in N ==> Seeded(rules, StepPass, O, start, f) > 0
      ensures Derives(rules, N, f) ==> Seeded(rules, StepPass, O, start, f) > WeightIn(ground, f)
      ensures Seeded(rules, StepPass, O, start, f) > 0 ==> f in N || Derives(rules, N, f)
    {
      GrowingSeedChange(rules, |rules|, O, N, f);
      if Derives(rules, N, f) {
        var r :| 0 <= r < |rules| && DerivedBy(rules[r], N, f);
        if DerivedBy(rules[r], O, f) {
          assert Derives(rules, O, f);
        }
      }
    }
    OldModelSupported(rules, G, G', O, N);
    forall J: Interpretation, f | ModelOver(rules, G', N, J) && Seeded(rules, StepPass, O, start, f) > 0 ensures f in J {
      if f !in N {
        LargerGrows(rules, N, J);
        DerivesGrows(rules, N, J, f);
      }
    }
  }

  /** Nothing derived yet, so nothing to lose: whatever the delta, every count
      of the old facts was zero. */
  lemma {:induction false} EmptySeedChange(rules: seq<Rule>, n: nat, O: Interpretation, N: Interpretation, f: Fact)
    requires n <= |rules| && forall g :: !Derives(rules, O, g)
    ensures SeedChange(rules, n, StepPass, O, N, f) >= 0
    ensures SeedChange(rules, n, StepPass, O, N, f) > 0 <==> exists r :: 0 <= r < n && DerivedBy(rules[r], N, f)
  {
    if n > 0 {
      EmptySeedChange(rules, n - 1, O, N, f);
      var rule := rules[n - 1];
      if rule.head.pred == f.pred {
        CountIsDerived(rule, O, f);
        CountIsDerived(rule, N, f);
        assert DerivedBy(rule, O, f) ==> Derives(rules, O, f);
      }
    }
  }

  lemma EmptySeedsAreGood(rules: seq<Rule>, G': Interpretation, ground: Store, O: Interpretation, start: Store)
    requires NegationsBelow(rules) && ValidStore(start) && Carries(start, ground)
    requires forall f :: Derives(rules, O, f) ==> WeightIn(start, f) > WeightIn(ground, f)
    requires forall f :: f in G' || f in Facts(start) ==> f.pred !in HeadPredicates(rules)
    ensures GoodSeeds(rules, G', ground, StepPass, O, start)
  {
    var N, H := Facts(start), HeadPredicates(rules);
    FactsAre(start);
    forall g ensures !Derives(rules, O, g) {
      if g.pred in H {
        assert g !in N && WeightIn(start, g) <= 0;
      }
    }
    forall f: Fact
      ensures Seeded(rules, StepPass, O, start, f) >= WeightIn(ground, f)
      ensures Seeded(rules, StepPass, O, start, f) > 0 <==> f in N || Derives(rules, N, f)
      ensures Derives(rules, N, f) ==> Seeded(rules, StepPass, O, start, f) > WeightIn(ground, f)
    {
      EmptySeedChange(rules, |rules|, O, N, f);
    }
    forall J: Interpretation, f | ModelOver(rules, G', N, J) && Seeded(rules, StepPass, O, start, f) > 0 ensures f in J {
      if f !in N {
        LargerGrows(rules, N, J);
        DerivesGrows(rules, N, J, f);
      }
    }
  }

  // ---------------------------------------------------------------------
  // Seeds of a recomputation
  // ---------------------------------------------------------------------

  /** A body with a positive atom holds nowhere when no fact it reads is left. */
  lemma NothingReadNothingDerived(rule: Rule, O: Interpretation, f: Fact)
    requires rule.head.pred == f.pred && HasPositive(rule.body)
    requires forall g :: g in O ==> g.pred !in BodyPredicates(rule.body)
    ensures Count(rule, O, f.values) == 0
  {
    CountIsDerived(rule, O, f);
    var i :| 0 <= i < |rule.body| && rule.body[i].Positive?;
    var a := rule.body[i].atom;
    assert a.pred in BodyPredicates(rule.body);
    TuplesAre(O, a.pred);
    forall sigma ensures !Satisfies(rule, O, sigma) {
      assert Fitting(Tuples(O, a.pred), a.terms, sigma) == {};
      assert Ways(rule.body[i], O, sigma) == 0;
    }
  }

  lemma {:induction false} RecomputeSeedChange(rules: seq<Rule>, n: nat, O: Interpretation, N: Interpretation, f: Fact)
    requires n <= |rules|
    requires forall g :: g in O ==> g.pred !in ReadPredicates(rules)
    ensures SeedChange(rules, n, Recompute, O, N, f) == DrivenDerivations(rules, n, N, f) + ConstantDerivations(rules, n, N, f)
  {
    if n > 0 {
      RecomputeSeedChange(rules, n - 1, O, N, f);
      var rule := rules[n - 1];
      if rule.head.pred == f.pred && HasPositive(rule.body) {
        forall g | g in O ensures g.pred !in BodyPredicates(rule.body) {
          assert g.pred in BodyPredicates(rule.body) ==> g.pred in ReadPredicates(rules);
        }
        NothingReadNothingDerived(rule, O, f);
      }
    }
  }

  /** From the ground part of the heads, with every input counted as new. */
  lemma RecomputeSeedsAreGood(rules: seq<Rule>, ground: Store, O: Interpretation, start: Store)
    requires NegationsBelow(rules) && ValidStore(start) && Carries(start, ground)
    requires forall g :: g in O ==> g.pred !in ReadPredicates(rules)
    requires forall f: Fact :: f.pred in HeadPredicates(rules) ==> WeightIn(start, f) == WeightIn(ground, f)
    ensures GoodSeeds(rules, Facts(ground), ground, Recompute, O, start)
    ensures CountedSeeds(rules, ground, Recompute, O, start)
  {
    FactsAre(start);
    FactsAre(ground);
    forall f: Fact | f.pred in HeadPredicates(rules) ensures CountedSeed(rules, ground, Recompute, O, start, f) {
      RecomputeSeedChange(rules, |rules|, O, Facts(start), f);
      ConstantDerivationsPositive(rules, |rules|, Facts(start), f);
    }
    CountedSeedsAreGood(rules, ground, Recompute, O, start);
  }
}
