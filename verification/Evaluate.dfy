/** Evaluation of one rule, and the theorem that its weighted facts count the
    derivations of the body (packages/datalog/src/evaluate.ts). */
module Evaluate {
  import opened Prelude
  import opened Values
  import opened Syntax
  import opened Unify
  import opened ZRelation
  import opened FiniteSums
  import opened Databases
  import opened Joins
  import opened Plans

  datatype WeightedFact = WeightedFact(fact: Fact, weight: int)

  /** The summed weight a list of weighted facts gives to `f`. */
  function ListWeight(list: seq<WeightedFact>, f: Fact): int {
    if list == [] then 0
    else
      var last := list[|list| - 1];
      ListWeight(list[..|list| - 1], f) + (if last.fact == f then last.weight else 0)
  }

  lemma {:induction false} ListWeightConcat(a: seq<WeightedFact>, b: seq<WeightedFact>, f: Fact)
    ensures ListWeight(a + b, f) == ListWeight(a, f) + ListWeight(b, f)
  {
    if b == [] {
      assert a + b == a;
    } else {
      assert (a + b)[..|a + b| - 1] == a + b[..|b| - 1];
      ListWeightConcat(a, b[..|b| - 1], f);
    }
  }

  /** What grounding a head yields: facts of one predicate, each once, none
      without weight. */
  ghost predicate Grounded(list: seq<WeightedFact>, p: string) {
    && (forall i :: 0 <= i < |list| ==> list[i].fact.pred == p && list[i].weight != 0)
    && (forall i, j :: 0 <= i < j < |list| ==> list[i].fact != list[j].fact)
  }

  lemma {:induction false} GroundedWeight(list: seq<WeightedFact>, p: string, k: nat)
    requires Grounded(list, p) && k < |list|
    ensures ListWeight(list, list[k].fact) == list[k].weight
  {
    var init, last := list[..|list| - 1], list[|list| - 1];
    if k < |list| - 1 {
      GroundedWeight(init, p, k);
    } else {
      ListWeightAbsent(init, last.fact);
    }
  }

  lemma {:induction false} ListWeightAbsent(list: seq<WeightedFact>, f: Fact)
    requires forall i :: 0 <= i < |list| ==> list[i].fact != f
    ensures ListWeight(list, f) == 0
  {
    if list != [] {
      ListWeightAbsent(list[..|list| - 1], f);
    }
  }

  // ---------------------------------------------------------------------
  // The weight of a body under a valuation
  // ---------------------------------------------------------------------

  /** The factors of a body whose element `i` reads `rels[i]`. */
  ghost function BodyWeights(body: seq<Element>, rels: seq<Relation>, deltaIdx: int, sigma: Bindings): (ws: seq<int>)
    requires |rels| == |body|
    ensures |ws| == |body|
  {
    seq(|body|, i requires 0 <= i < |body| => ElementWeight(body[i], rels[i], i == deltaIdx, sigma))
  }

  ghost function BodyProduct(body: seq<Element>, rels: seq<Relation>, deltaIdx: int, sigma: Bindings): int
    requires |rels| == |body|
  {
    Product(BodyWeights(body, rels, deltaIdx, sigma))
  }

  ghost predicate HeadIs(head: Atom, sigma: Bindings, t: Tuple) {
    Ground(head.terms, sigma) && Instance(head.terms, sigma) == t
  }

  /** The contributions to head tuple `t` of the valuations in `vals`. */
  ghost function Contributions(rule: Rule, rels: seq<Relation>, deltaIdx: int, vals: set<Bindings>, t: Tuple): map<Bindings, int>
    requires |rels| == |rule.body|
  {
    map sigma | sigma in vals :: if HeadIs(rule.head, sigma, t) then BodyProduct(rule.body, rels, deltaIdx, sigma) else 0
  }

  /** `vals` holds valuations of the rule's variables, and all those under which
      the body has a weight. */
  ghost predicate Covers(vals: set<Bindings>, rule: Rule, rels: seq<Relation>, deltaIdx: int)
    requires |rels| == |rule.body|
  {
    && (forall sigma :: sigma in vals ==> sigma.Keys == PositiveVars(rule.body))
    && (forall sigma: Bindings :: sigma.Keys == PositiveVars(rule.body) && BodyProduct(rule.body, rels, deltaIdx, sigma) != 0 ==> sigma in vals)
  }

  /** The weighted facts are the sum, over all valuations with a weight, of the
      product of the weights of the body's elements. */
  ghost predicate CountsDerivations(results: seq<WeightedFact>, rule: Rule, rels: seq<Relation>, deltaIdx: int)
    requires |rels| == |rule.body|
  {
    forall vals, t :: Covers(vals, rule, rels, deltaIdx) ==>
      ListWeight(results, Fact(rule.head.pred, t)) == MapSum(Contributions(rule, rels, deltaIdx, vals, t))
  }

  // ---------------------------------------------------------------------
  // Running a plan
  // ---------------------------------------------------------------------

  function RunSteps(steps: seq<EvalStep>, rels: seq<Relation>, k: nat): seq<Substitution>
    requires k <= |steps| && forall j :: 0 <= j < |steps| ==> steps[j].index < |rels|
  {
    if k == 0 then [EMPTY_SUBSTITUTION]
    else Apply(steps[k - 1].element, rels[steps[k - 1].index], steps[k - 1].isDeltaSource, RunSteps(steps, rels, k - 1))
  }

  lemma ApplyNothing(el: Element, rel: Relation, delta: bool)
    ensures Apply(el, rel, delta, []) == []
  {
  }

  lemma {:induction false} RunStepsStaysEmpty(steps: seq<EvalStep>, rels: seq<Relation>, k: nat, m: nat)
    requires k <= m <= |steps| && forall j :: 0 <= j < |steps| ==> steps[j].index < |rels|
    requires RunSteps(steps, rels, k) == []
    ensures RunSteps(steps, rels, m) == []
  {
    if k < m {
      RunStepsStaysEmpty(steps, rels, k, m - 1);
      ApplyNothing(steps[m - 1].element, rels[steps[m - 1].index], steps[m - 1].isDeltaSource);
    }
  }

  lemma {:induction false} RunStepsBind(rule: Rule, deltaIdx: int, preds: set<string>, order: seq<nat>, steps: seq<EvalStep>, rels: seq<Relation>, k: nat)
    requires PlanFor(rule, deltaIdx, preds, order, steps) && |rels| == |rule.body| && k <= |steps|
    ensures AllBind(RunSteps(steps, rels, k), BoundAfter(rule.body, deltaIdx, order[..k]))
  {
    if k > 0 {
      RunStepsBind(rule, deltaIdx, preds, order, steps, rels, k - 1);
      assert order[..k][..k - 1] == order[..k - 1];
      ApplyBinds(steps[k - 1].element, rels[steps[k - 1].index], steps[k - 1].isDeltaSource,
                 RunSteps(steps, rels, k - 1), BoundAfter(rule.body, deltaIdx, order[..k - 1]));
    }
  }

  lemma StepMaskBound(rule: Rule, deltaIdx: int, preds: set<string>, order: seq<nat>, steps: seq<EvalStep>, rels: seq<Relation>, k: nat)
    requires PlanFor(rule, deltaIdx, preds, order, steps) && |rels| == |rule.body| && k < |steps|
    requires steps[k].element.ReadsRelation()
    ensures forall i :: 0 <= i < |RunSteps(steps, rels, k)| ==>
      MaskBound(steps[k].element.atom, steps[k].mask, RunSteps(steps, rels, k)[i].bindings.Keys)
  {
    RunStepsBind(rule, deltaIdx, preds, order, steps, rels, k);
  }

  /** One step multiplies by the factor of its element. */
  lemma RunStepSum(rule: Rule, deltaIdx: int, preds: set<string>, order: seq<nat>, steps: seq<EvalStep>, rels: seq<Relation>, k: nat, sigma: Bindings)
    requires PlanFor(rule, deltaIdx, preds, order, steps) && FiltersBound(rule.body, deltaIdx, order)
    requires |rels| == |rule.body| && 0 < k <= |steps|
    ensures SubSum(RunSteps(steps, rels, k), sigma)
      == SubSum(RunSteps(steps, rels, k - 1), sigma) * BodyWeights(rule.body, rels, deltaIdx, sigma)[order[k - 1]]
  {
    hide Apply, SubSum, ElementWeight, SourceFor, KnownMask;
    var before := RunSteps(steps, rels, k - 1);
    var i := order[k - 1];
    var bound := BoundAfter(rule.body, deltaIdx, order[..k - 1]);
    RunStepsBind(rule, deltaIdx, preds, order, steps, rels, k - 1);
    ApplySum(rule.body[i], rels[i], i == deltaIdx, before, sigma, bound);
  }

  lemma {:induction false} RunStepsSum(rule: Rule, deltaIdx: int, preds: set<string>, order: seq<nat>, steps: seq<EvalStep>,
                                       rels: seq<Relation>, k: nat, sigma: Bindings)
    requires PlanFor(rule, deltaIdx, preds, order, steps) && FiltersBound(rule.body, deltaIdx, order)
    requires |rels| == |rule.body| && k <= |steps|
    ensures SubSum(RunSteps(steps, rels, k), sigma)
         == Product(Permuted(BodyWeights(rule.body, rels, deltaIdx, sigma), order[..k]))
  {
    hide FiltersBound, Apply, ElementWeight, SourceFor, KnownMask, BoundAfter;
    var ws := BodyWeights(rule.body, rels, deltaIdx, sigma);
    if k == 0 {
      assert Permuted(ws, order[..0]) == [];
      assert RunSteps(steps, rels, 0)[..0] == [];
    } else {
      RunStepsSum(rule, deltaIdx, preds, order, steps, rels, k - 1, sigma);
      RunStepSum(rule, deltaIdx, preds, order, steps, rels, k, sigma);
      PermutedStep(ws, order, k);
    }
  }

  lemma PermutedStep(ws: seq<int>, order: seq<nat>, k: nat)
    requires InRange(order, |ws|) && 0 < k <= |order|
    ensures Product(Permuted(ws, order[..k])) == Product(Permuted(ws, order[..k - 1])) * ws[order[k - 1]]
  {
    var p := Permuted(ws, order[..k]);
    assert p[..|p| - 1] == Permuted(ws, order[..k - 1]);
  }

  /** After the whole plan every valuation has the weight of the body, whatever
      the order was. */
  lemma RunAllSum(rule: Rule, deltaIdx: int, preds: set<string>, order: seq<nat>, steps: seq<EvalStep>, rels: seq<Relation>, sigma: Bindings)
    requires PlanFor(rule, deltaIdx, preds, order, steps) && FiltersBound(rule.body, deltaIdx, order)
    requires |rels| == |rule.body|
    ensures SubSum(RunSteps(steps, rels, |steps|), sigma) == BodyProduct(rule.body, rels, deltaIdx, sigma)
  {
    RunStepsSum(rule, deltaIdx, preds, order, steps, rels, |steps|, sigma);
    assert order[..|steps|] == order;
    ProductPermuted(BodyWeights(rule.body, rels, deltaIdx, sigma), order);
  }

  lemma {:induction false} BoundAfterSafe(rule: Rule, deltaIdx: int, order: seq<nat>)
    requires SafeRule(rule) && InRange(order, |rule.body|)
    ensures BoundAfter(rule.body, deltaIdx, order) <= PositiveVars(rule.body)
  {
    if order != [] {
      BoundAfterSafe(rule, deltaIdx, order[..|order| - 1]);
      var el := rule.body[order[|order| - 1]];
      assert SafeElement(el, PositiveVars(rule.body));
    }
  }

  lemma BoundAtEnd(rule: Rule, deltaIdx: int, order: seq<nat>)
    requires SafeRule(rule) && IsPermutation(order, |rule.body|) && InRange(order, |rule.body|)
    ensures BoundAfter(rule.body, deltaIdx, order) == PositiveVars(rule.body)
  {
    BoundAfterSafe(rule, deltaIdx, order);
    forall x | x in PositiveVars(rule.body) ensures x in BoundAfter(rule.body, deltaIdx, order) {
      var i: nat :| i < |rule.body| && rule.body[i].Positive? && x in ElementVars(rule.body[i]);
      assert i in order;
      var k :| 0 <= k < |order| && order[k] == i;
      BoundAfterIncludes(rule.body, deltaIdx, order, k);
    }
  }

  // ---------------------------------------------------------------------
  // Grounding the head
  // ---------------------------------------------------------------------

  /** The weight of the substitutions whose head instance is `t`. */
  ghost function HeadSum(head: Atom, subs: seq<Substitution>, t: Tuple): int {
    if subs == [] then 0
    else
      var last := subs[|subs| - 1];
      HeadSum(head, subs[..|subs| - 1], t) + (if GroundPrefix(head, last, |head.terms|) == Some(t) then last.weight else 0)
  }

  /** Duplicates are summed, in order of first occurrence, and what sums to
      zero is left out. */
  method GroundHead(head: Atom, subs: seq<Substitution>) returns (results: seq<WeightedFact>)
    ensures forall t :: ListWeight(results, Fact(head.pred, t)) == HeadSum(head, subs, t)
    ensures Grounded(results, head.pred)
  {
    var order: seq<Tuple> := [];
    var weights: map<Tuple, int> := map[];
    for k := 0 to |subs|
      invariant Distinct(order) && forall t :: t in order <==> t in weights
      invariant forall t :: (if t in weights then weights[t] else 0) == HeadSum(head, subs[..k], t)
    {
      assert subs[..k + 1][..k] == subs[..k];
      var tuple := GroundAtom(head, subs[k]);
      if tuple.Some? {
        var t := tuple.value;
        if t in weights {
          weights := weights[t := weights[t] + subs[k].weight];
        } else {
          order := order + [t];
          weights := weights[t := subs[k].weight];
        }
      }
    }
    assert subs[..|subs|] == subs;
    results := NonZeroFacts(head.pred, order, weights);
  }

  method NonZeroFacts(p: string, order: seq<Tuple>, weights: map<Tuple, int>) returns (results: seq<WeightedFact>)
    requires Distinct(order) && forall t :: t in order <==> t in weights
    ensures forall t :: ListWeight(results, Fact(p, t)) == if t in weights then weights[t] else 0
    ensures Grounded(results, p)
  {
    hide Listed, ListWeight, Distinct;
    results := [];
    NoneListed(p, weights);
    for k := 0 to |order|
      invariant Listed(results, p, order[..k], weights)
    {
      var t := order[k];
      NextListed(results, p, order, k, weights);
      if weights[t] != 0 {
        results := results + [WeightedFact(Fact(p, t), weights[t])];
      }
    }
    assert order[..|order|] == order;
    AllListed(results, p, order, weights);
  }

  /** The facts of `done` are listed with their weights, each once, and no others. */
  ghost predicate Listed(results: seq<WeightedFact>, p: string, done: seq<Tuple>, weights: map<Tuple, int>) {
    && Grounded(results, p) && (forall i :: 0 <= i < |results| ==> results[i].fact.values in done)
    && forall t :: ListWeight(results, Fact(p, t)) == if t in done && t in weights then weights[t] else 0
  }

  lemma NoneListed(p: string, weights: map<Tuple, int>)
    ensures Listed([], p, [], weights)
  {
  }

  lemma AllListed(results: seq<WeightedFact>, p: string, order: seq<Tuple>, weights: map<Tuple, int>)
    requires Listed(results, p, order, weights) && forall t :: t in order <==> t in weights
    ensures forall t :: ListWeight(results, Fact(p, t)) == if t in weights then weights[t] else 0
    ensures Grounded(results, p)
  {
  }

  lemma NextListed(results: seq<WeightedFact>, p: string, order: seq<Tuple>, k: nat, weights: map<Tuple, int>)
    requires k < |order| && Distinct(order) && order[k] in weights && Listed(results, p, order[..k], weights)
    ensures var t := order[k];
      Listed(if weights[t] == 0 then results else results + [WeightedFact(Fact(p, t), weights[t])], p, order[..k + 1], weights)
  {
    NextIsNew(order, k);
    OneMoreListed(results, p, order[..k], order[k], weights);
  }

  lemma NextIsNew<T(!new)>(order: seq<T>, k: nat)
    requires k < |order| && Distinct(order)
    ensures order[..k + 1] == order[..k] + [order[k]] && order[k] !in order[..k]
  {
  }

  lemma OneMoreListed(results: seq<WeightedFact>, p: string, done: seq<Tuple>, t: Tuple, weights: map<Tuple, int>)
    requires t !in done && t in weights && Listed(results, p, done, weights)
    ensures Listed(if weights[t] == 0 then results else results + [WeightedFact(Fact(p, t), weights[t])], p, done + [t], weights)
  {
    hide Grounded, ListWeight;
    var last := WeightedFact(Fact(p, t), weights[t]);
    var after := if weights[t] == 0 then results else results + [last];
    assert forall u :: u in done + [t] <==> u in done || u == t;
    GroundedMore(results, p, done, last);
    forall u ensures ListWeight(results + [last], Fact(p, u)) == ListWeight(results, Fact(p, u)) + if u == t then weights[t] else 0 {
      ListWeightMore(results, last, Fact(p, u));
    }
    forall i | 0 <= i < |after| ensures after[i].fact.values in done + [t] {
      assert i < |results| ==> after[i] == results[i];
    }
  }

  lemma ListWeightMore(results: seq<WeightedFact>, last: WeightedFact, f: Fact)
    ensures ListWeight(results + [last], f) == ListWeight(results, f) + if last.fact == f then last.weight else 0
  {
    assert (results + [last])[..|results|] == results;
  }

  lemma GroundedMore(results: seq<WeightedFact>, p: string, done: seq<Tuple>, last: WeightedFact)
    requires Grounded(results, p) && last.fact.pred == p && last.fact.values !in done
    requires forall i :: 0 <= i < |results| ==> results[i].fact.values in done
    ensures last.weight != 0 ==> Grounded(results + [last], p)
  {
  }

  lemma SameDomainSubMap(a: Bindings, b: Bindings)
    requires a.Keys == b.Keys
    ensures SubMap(a, b) <==> a == b
  {
    if SubMap(a, b) {
      SubMapOfSameKeys(a, b);
    }
  }

  lemma HeadOfSubstitution(head: Atom, sub: Substitution, t: Tuple)
    requires Ground(head.terms, sub.bindings)
    ensures GroundPrefix(head, sub, |head.terms|) == Some(t) <==> HeadIs(head, sub.bindings, t)
  {
    GroundIsInstance(head, sub, |head.terms|);
    var tuple := Instance(head.terms, sub.bindings);
    assert tuple[..|head.terms|] == tuple;
  }

  ghost function ValuationTerms(head: Atom, subs: seq<Substitution>, vals: set<Bindings>, t: Tuple): map<Bindings, int> {
    map sigma | sigma in vals :: if HeadIs(head, sigma, t) then SubSum(subs, sigma) else 0
  }

  /** One more substitution adds its weight to the term of its valuation. */
  lemma OneMoreTerm(head: Atom, init: seq<Substitution>, last: Substitution, vars: set<string>, vals: set<Bindings>, t: Tuple)
    requires last.bindings in vals && forall sigma :: sigma in vals ==> sigma.Keys == vars
    ensures MapSum(ValuationTerms(head, init + [last], vals, t))
      == MapSum(ValuationTerms(head, init, vals, t)) + if HeadIs(head, last.bindings, t) then last.weight else 0
  {
    hide HeadIs, MapSum;
    var m, a := ValuationTerms(head, init + [last], vals, t), ValuationTerms(head, init, vals, t);
    var b := map sigma | sigma in vals :: if HeadIs(head, sigma, t) && sigma == last.bindings then last.weight else 0;
    assert (init + [last])[..|init|] == init;
    forall sigma | sigma in vals ensures m[sigma] == a[sigma] + b[sigma] {
      SameDomainSubMap(last.bindings, sigma);
    }
    MapSumAdd(m, a, b);
    MapSumSingle(b, last.bindings);
  }

  /** The head weights of a list are a sum over the valuations it binds. */
  lemma {:induction false} HeadSumOverValuations(head: Atom, subs: seq<Substitution>, vars: set<string>, vals: set<Bindings>, t: Tuple)
    requires AllBind(subs, vars) && NoWildcard(head.terms) && TermVars(head.terms) <= vars
    requires forall sigma :: sigma in vals ==> sigma.Keys == vars
    requires forall i :: 0 <= i < |subs| ==> subs[i].bindings in vals
    ensures HeadSum(head, subs, t) == MapSum(ValuationTerms(head, subs, vals, t))
  {
    if subs == [] {
      MapSumAllZero(ValuationTerms(head, subs, vals, t));
    } else {
      var init, last := subs[..|subs| - 1], subs[|subs| - 1];
      assert subs == init + [last];
      HeadSumOverValuations(head, init, vars, vals, t);
      OneMoreTerm(head, init, last, vars, vals, t);
      HeadOfSubstitution(head, last, t);
    }
  }

  lemma {:induction false} SubSumOfUnbound(subs: seq<Substitution>, vars: set<string>, sigma: Bindings)
    requires AllBind(subs, vars) && sigma.Keys == vars
    requires forall i :: 0 <= i < |subs| ==> subs[i].bindings != sigma
    ensures SubSum(subs, sigma) == 0
  {
    if subs != [] {
      SubSumOfUnbound(subs[..|subs| - 1], vars, sigma);
      SameDomainSubMap(subs[|subs| - 1].bindings, sigma);
    }
  }

  /** Planner and executor together: for a safe rule, the grounded result of any
      plan counts the derivations of the body. */
  lemma PlanCounts(rule: Rule, deltaIdx: int, preds: set<string>, order: seq<nat>, steps: seq<EvalStep>, rels: seq<Relation>,
                   vals: set<Bindings>, t: Tuple)
    requires SafeRule(rule)
    requires PlanFor(rule, deltaIdx, preds, order, steps) && FiltersBound(rule.body, deltaIdx, order)
    requires |rels| == |rule.body| && Covers(vals, rule, rels, deltaIdx)
    ensures HeadSum(rule.head, RunSteps(steps, rels, |steps|), t) == MapSum(Contributions(rule, rels, deltaIdx, vals, t))
  {
    var subs := RunSteps(steps, rels, |steps|);
    var vars := PositiveVars(rule.body);
    RunStepsBind(rule, deltaIdx, preds, order, steps, rels, |steps|);
    assert order[..|steps|] == order;
    BoundAtEnd(rule, deltaIdx, order);
    var all := vals + set i | 0 <= i < |subs| :: subs[i].bindings;
    HeadSumOverValuations(rule.head, subs, vars, all, t);
    var wide := ValuationTerms(rule.head, subs, all, t);
    var narrow := Contributions(rule, rels, deltaIdx, vals, t);
    forall sigma | sigma in all
      ensures sigma in vals ==> wide[sigma] == narrow[sigma]
      ensures sigma !in vals ==> wide[sigma] == 0
    {
      RunAllSum(rule, deltaIdx, preds, order, steps, rels, sigma);
    }
    MapSumDropZeros(wide, narrow);
  }

  lemma ResultsCount(rule: Rule, deltaIdx: int, preds: set<string>, order: seq<nat>, steps: seq<EvalStep>, rels: seq<Relation>,
                     results: seq<WeightedFact>)
    requires SafeRule(rule)
    requires PlanFor(rule, deltaIdx, preds, order, steps) && FiltersBound(rule.body, deltaIdx, order)
    requires |rels| == |rule.body|
    requires forall t :: ListWeight(results, Fact(rule.head.pred, t)) == HeadSum(rule.head, RunSteps(steps, rels, |steps|), t)
    ensures CountsDerivations(results, rule, rels, deltaIdx)
  {
    forall vals, t | Covers(vals, rule, rels, deltaIdx)
      ensures ListWeight(results, Fact(rule.head.pred, t)) == MapSum(Contributions(rule, rels, deltaIdx, vals, t))
    {
      PlanCounts(rule, deltaIdx, preds, order, steps, rels, vals, t);
    }
  }

  // ---------------------------------------------------------------------
  // Rule evaluation
  // ---------------------------------------------------------------------

  /** The relations a body reads when nothing is driven by a delta. */
  function RelationsOf(body: seq<Element>, fullDb: Store, matchDb: Store): (rels: seq<Relation>)
    ensures |rels| == |body|
  {
    seq(|body|, i requires 0 <= i < |body| =>
      match body[i]
      case Positive(a) => Get(matchDb, a.pred)
      case Negation(a) => Get(fullDb, a.pred)
      case Guard(_, _, _) => EMPTY_RELATION)
  }

  /** One step on its relation, whichever of the four kinds it is. */
  method ExecuteStep(step: EvalStep, rel: Relation, subs: seq<Substitution>, indexed: bool) returns (results: seq<Substitution>)
    requires step.element.ReadsRelation() ==>
      forall i :: 0 <= i < |subs| ==> MaskBound(step.element.atom, step.mask, subs[i].bindings.Keys)
    ensures results == Apply(step.element, rel, step.isDeltaSource, subs)
  {
    match step.element
    case Positive(a) =>
      results := EvaluatePositiveAtom(a, rel, subs, step.isDeltaSource, step.mask, indexed);
    case Negation(a) =>
      if step.isDeltaSource {
        results := EvaluateDifferentialNegation(a, rel, subs, step.mask, indexed);
      } else {
        results := EvaluateNegation(a, rel, subs, step.mask, indexed);
      }
    case Guard(op, left, right) =>
      results := EvaluateGuardElement(op, left, right, subs);
  }

  /** The fold over the steps of a plan, cut short when nothing is left. */
  method ExecutePlan(rule: Rule, plan: seq<EvalStep>, ghost order: seq<nat>, fullDb: Database, matchDb: Database, indexed: set<nat>)
    returns (subs: seq<Substitution>)
    requires PlanFor(rule, -1, {}, order, plan)
    ensures subs == RunSteps(plan, RelationsOf(rule.body, fullDb.rels, matchDb.rels), |plan|)
  {
    ghost var rels := RelationsOf(rule.body, fullDb.rels, matchDb.rels);
    subs := [EMPTY_SUBSTITUTION];
    var k := 0;
    while k < |plan| && subs != []
      invariant 0 <= k <= |plan|
      invariant subs == RunSteps(plan, rels, k)
      decreases |plan| - k
    {
      var step := plan[k];
      if step.element.ReadsRelation() {
        StepMaskBound(rule, -1, {}, order, plan, rels, k);
      }
      var rel := match step.element
        case Positive(a) => matchDb.GetRelation(a.pred)
        case Negation(a) => fullDb.GetRelation(a.pred)
        case Guard(_, _, _) => EMPTY_RELATION;
      assert rel == rels[step.index];
      subs := ExecuteStep(step, rel, subs, step.index in indexed);
      k := k + 1;
    }
    if k < |plan| {
      RunStepsStaysEmpty(plan, rels, k, |plan|);
    }
  }

  /** Full evaluation against the current database. `indexed` says which body
      elements are answered through a join index. */
  method EvaluateRule(rule: Rule, fullDb: Database, matchDb: Database, indexed: set<nat>) returns (results: seq<WeightedFact>)
    ensures SafeRule(rule) ==> CountsDerivations(results, rule, RelationsOf(rule.body, fullDb.rels, matchDb.rels), -1)
    ensures Grounded(results, rule.head.pred)
  {
    var plan, order := PlanRuleEvaluation(rule, -1, {}, Some(PlanSizes(matchDb.rels, matchDb.rels)));
    var subs := ExecutePlan(rule, plan, order, fullDb, matchDb, indexed);
    results := GroundHead(rule.head, subs);
    if SafeRule(rule) {
      ResultsCount(rule, -1, {}, order, plan, RelationsOf(rule.body, fullDb.rels, matchDb.rels), results);
    }
  }

  /** The relation element `i` reads when the delta drives element `deltaIdx`. */
  function DeltaRelation(body: seq<Element>, i: nat, deltaIdx: nat, view: DatabaseView, db: Database, delta: Database): Relation
    requires i < |body|
    reads view, view.base, view.delta, db, delta
  {
    if body[i].Guard? then EMPTY_RELATION
    else match SourceFor(body[i], i, deltaIdx, delta.rels.Keys)
         case FromDelta => delta.GetRelation(body[i].atom.pred)
         case FromNew => db.GetRelation(body[i].atom.pred)
         case FromOld => view.Current(body[i].atom.pred)
  }

  function DeltaRelations(body: seq<Element>, deltaIdx: nat, view: DatabaseView, db: Database, delta: Database): (rels: seq<Relation>)
    reads view, view.base, view.delta, db, delta
    ensures |rels| == |body|
  {
    seq(|body|, i requires 0 <= i < |body| reads view, view.base, view.delta, db, delta =>
      DeltaRelation(body, i, deltaIdx, view, db, delta))
  }

  /** The relation a step reads. */
  method ReadRelation(body: seq<Element>, step: EvalStep, view: DatabaseView, db: Database, delta: Database, deltaIdx: nat)
    returns (rel: Relation)
    requires view.Valid()
    requires step.index < |body| && step.element == body[step.index]
    requires step.source == SourceFor(step.element, step.index, deltaIdx, delta.rels.Keys)
    modifies view
    ensures view.Valid() && view.Shown() == old(view.Shown())
    ensures rel == old(DeltaRelation(body, step.index, deltaIdx, view, db, delta))
  {
    if !step.element.ReadsRelation() {
      return EMPTY_RELATION;
    }
    var p := step.element.atom.pred;
    match step.source {
      case FromDelta => rel := delta.GetRelation(p);
      case FromNew => rel := db.GetRelation(p);
      case FromOld => rel := view.GetRelation(p);
    }
  }

  method ExecuteDeltaStep(rule: Rule, plan: seq<EvalStep>, ghost order: seq<nat>, view: DatabaseView, db: Database, delta: Database,
                          deltaIdx: nat, indexed: set<nat>, ghost rels: seq<Relation>, k: nat, subs: seq<Substitution>)
    returns (next: seq<Substitution>)
    requires view.Valid() && PlanFor(rule, deltaIdx, delta.rels.Keys, order, plan)
    requires k < |plan| && |rels| == |rule.body| && subs == RunSteps(plan, rels, k)
    requires rels[plan[k].index] == DeltaRelation(rule.body, plan[k].index, deltaIdx, view, db, delta)
    modifies view
    ensures view.Valid() && view.Shown() == old(view.Shown())
    ensures next == RunSteps(plan, rels, k + 1)
  {
    var step := plan[k];
    if step.element.ReadsRelation() {
      StepMaskBound(rule, deltaIdx, delta.rels.Keys, order, plan, rels, k);
    }
    var rel := ReadRelation(rule.body, step, view, db, delta, deltaIdx);
    next := ExecuteStep(step, rel, subs, step.index in indexed);
  }

  method ExecuteDeltaPlan(rule: Rule, plan: seq<EvalStep>, ghost order: seq<nat>, view: DatabaseView, db: Database, delta: Database,
                          deltaIdx: nat, indexed: set<nat>)
    returns (subs: seq<Substitution>)
    requires view.Valid() && PlanFor(rule, deltaIdx, delta.rels.Keys, order, plan)
    modifies view
    ensures view.Valid() && view.Shown() == old(view.Shown())
    ensures subs == RunSteps(plan, old(DeltaRelations(rule.body, deltaIdx, view, db, delta)), |plan|)
  {
    ghost var rels := DeltaRelations(rule.body, deltaIdx, view, db, delta);
    subs := [EMPTY_SUBSTITUTION];
    var k := 0;
    while k < |plan| && subs != []
      invariant 0 <= k <= |plan|
      invariant view.Valid() && view.Shown() == old(view.Shown())
      invariant subs == RunSteps(plan, rels, k)
      decreases |plan| - k
    {
      assert forall p :: view.Current(p) == view.Shown()[p] == old(view.Shown())[p] == old(view.Current(p));
      assert rels[plan[k].index] == DeltaRelation(rule.body, plan[k].index, deltaIdx, view, db, delta);
      subs := ExecuteDeltaStep(rule, plan, order, view, db, delta, deltaIdx, indexed, rels, k, subs);
      k := k + 1;
    }
    if k < |plan| {
      RunStepsStaysEmpty(plan, rels, k, |plan|);
    }
  }

  /** Delta-driven evaluation by the asymmetric join: element `deltaIdx` reads
      the delta, and every other element the old or the new database. */
  method EvaluateRuleDelta(rule: Rule, view: DatabaseView, db: Database, delta: Database, deltaIdx: nat, indexed: set<nat>)
    returns (results: seq<WeightedFact>)
    requires view.Valid()
    requires deltaIdx < |rule.body|
    modifies view
    ensures view.Valid() && view.Shown() == old(view.Shown())
    ensures SafeRule(rule) ==> CountsDerivations(results, rule, old(DeltaRelations(rule.body, deltaIdx, view, db, delta)), deltaIdx)
    ensures Grounded(results, rule.head.pred)
  {
    ghost var rels := DeltaRelations(rule.body, deltaIdx, view, db, delta);
    var deltaPreds := delta.rels.Keys;
    var plan, order := PlanRuleEvaluation(rule, deltaIdx, deltaPreds, Some(PlanSizes(db.rels, delta.rels)));
    var subs := ExecuteDeltaPlan(rule, plan, order, view, db, delta, deltaIdx, indexed);
    results := GroundHead(rule.head, subs);
    if SafeRule(rule) {
      ResultsCount(rule, deltaIdx, deltaPreds, order, plan, rels, results);
    }
  }
}
