/** Naive evaluation, the reference that the incremental engine is compared with
    (packages/datalog/src/evaluate.ts, `evaluateNaive`). */
module Naive {
  import opened Prelude
  import opened Values
  import opened Syntax
  import opened Databases
  import opened Evaluate
  import opened Semantics
  import opened Models
  import opened SemiNaive
  import opened Invariants
  import opened Programs

  ghost predicate PositiveProgram(rules: seq<Rule>) {
    forall r, i :: 0 <= r < |rules| && 0 <= i < |rules[r].body| ==> !rules[r].body[i].Negation?
  }

  lemma PositiveNegatesBelow(rules: seq<Rule>)
    requires PositiveProgram(rules)
    ensures NegationsBelow(rules)
  {
  }

  /** The database holds no fact of negative weight, holds the ground facts, and
      holds nothing that is not in every model over them. */
  ghost predicate NaiveState(rules: seq<Rule>, G: Interpretation, s: Store) {
    && ValidStore(s) && NoNegativeWeight(s)
    && G <= Facts(s) && AgreeOff(G, Facts(s), HeadPredicates(rules)) && Supported(rules, G, Facts(s))
  }

  lemma NaiveBounded(rules: seq<Rule>, G: Interpretation, s: Store)
    requires SafeProgram(rules) && NaiveState(rules, G, s)
    ensures Facts(s) <= ActiveModel(rules, G)
  {
    ActiveModelIsModel(rules, G, G);
    assert ModelOver(rules, G, Facts(s), ActiveModel(rules, G));
  }

  /** Adding a derived fact. */
  lemma AddDerived(rules: seq<Rule>, G: Interpretation, s: Store, t: Store, f: Fact)
    requires NegationsBelow(rules) && NaiveState(rules, G, s) && Derives(rules, Facts(s), f)
    requires t == AddTo(s, f.pred, f.values, 1)
    ensures NaiveState(rules, G, t) && Facts(t) == Facts(s) + {f}
  {
    AddToIsAddition(s, f.pred, f.values, 1);
    assert f == Fact(f.pred, f.values);
    FactsAre(s);
    FactsAre(t);
    SupportedGrows(rules, G, Facts(s), Facts(t));
  }

  /** Add the facts that one rule derives. */
  method AddResults(rules: seq<Rule>, ghost r: nat, derived: seq<WeightedFact>, db: Database, ghost G: Interpretation) returns (changed: bool)
    requires NegationsBelow(rules) && r < |rules| && NaiveState(rules, G, db.rels)
    requires PositiveProgram(rules) && Grounded(derived, rules[r].head.pred)
    requires forall f :: ListWeight(derived, f) == if rules[r].head.pred == f.pred then Count(rules[r], Facts(db.rels), f.values) else 0
    modifies db
    ensures NaiveState(rules, G, db.rels) && Facts(old(db.rels)) <= Facts(db.rels)
    ensures changed <==> Facts(db.rels) != Facts(old(db.rels))
    ensures forall f :: DerivedBy(rules[r], Facts(old(db.rels)), f) ==> f in Facts(db.rels)
  {
    hide Count, DerivedBy, NegationsBelow, Supported, Derives, Grounded;
    changed := false;
    ghost var start := Facts(db.rels);
    for i := 0 to |derived|
      invariant NaiveState(rules, G, db.rels) && start <= Facts(db.rels)
      invariant changed <==> Facts(db.rels) != start
      invariant forall k :: 0 <= k < i ==> derived[k].weight <= 0 || derived[k].fact in Facts(db.rels)
    {
      var wf := derived[i];
      if wf.weight > 0 {
        ResultIsDerived(rules, r, derived, i, start, Facts(db.rels));
        ghost var was := db.rels;
        var added := AddFact(db, wf.fact);
        AddDerived(rules, G, was, db.rels, wf.fact);
        changed := changed || added;
      }
    }
    AllDerivedPresent(rules[r], derived, start, Facts(db.rels));
  }

  lemma AllDerivedPresent(rule: Rule, derived: seq<WeightedFact>, start: Interpretation, now: Interpretation)
    requires Grounded(derived, rule.head.pred)
    requires forall g :: ListWeight(derived, g) == if rule.head.pred == g.pred then Count(rule, start, g.values) else 0
    requires forall k :: 0 <= k < |derived| ==> derived[k].weight <= 0 || derived[k].fact in now
    ensures forall f :: DerivedBy(rule, start, f) ==> f in now
  {
    forall f | DerivedBy(rule, start, f) ensures f in now {
      DerivedIsResult(rule, derived, start, f);
    }
  }

  /** Add with weight 1; says whether the fact became present. */
  method AddFact(db: Database, f: Fact) returns (added: bool)
    requires db.Valid()
    modifies db
    ensures db.Valid() && db.rels == AddTo(old(db.rels), f.pred, f.values, 1)
    ensures added <==> f !in Facts(old(db.rels)) && f in Facts(db.rels)
  {
    assert f == Fact(f.pred, f.values) && db.Weight(f) == WeightIn(db.rels, f);
    FactsAre(db.rels);
    var after := db.AddWeighted(f.pred, f.values, 1);
    added := after - 1 <= 0 && after > 0;
    assert db.Weight(f) == WeightIn(db.rels, f);
    FactsAre(db.rels);
  }

  lemma ResultIsDerived(rules: seq<Rule>, r: nat, derived: seq<WeightedFact>, i: nat, start: Interpretation, now: Interpretation)
    requires PositiveProgram(rules) && r < |rules| && i < |derived| && derived[i].weight > 0 && start <= now
    requires Grounded(derived, rules[r].head.pred)
    requires forall f :: ListWeight(derived, f) == if rules[r].head.pred == f.pred then Count(rules[r], start, f.values) else 0
    ensures Derives(rules, now, derived[i].fact)
  {
    var f := derived[i].fact;
    GroundedWeight(derived, rules[r].head.pred, i);
    CountIsDerived(rules[r], start, f);
    forall k | 0 <= k < |rules[r].body| && rules[r].body[k].Positive?
      ensures Tuples(start, rules[r].body[k].atom.pred) <= Tuples(now, rules[r].body[k].atom.pred)
    {
      TuplesAre(start, rules[r].body[k].atom.pred);
      TuplesAre(now, rules[r].body[k].atom.pred);
    }
    DerivedByGrows(rules[r], start, now, f);
  }

  lemma DerivedIsResult(rule: Rule, derived: seq<WeightedFact>, start: Interpretation, f: Fact)
    requires Grounded(derived, rule.head.pred) && DerivedBy(rule, start, f)
    requires forall g :: ListWeight(derived, g) == if rule.head.pred == g.pred then Count(rule, start, g.values) else 0
    ensures exists i :: 0 <= i < |derived| && derived[i].fact == f && derived[i].weight > 0
  {
    CountIsDerived(rule, start, f);
    if forall i :: 0 <= i < |derived| ==> derived[i].fact != f {
      ListWeightAbsent(derived, f);
    }
    var i :| 0 <= i < |derived| && derived[i].fact == f;
    GroundedWeight(derived, rule.head.pred, i);
  }

  /** Fire every rule over the whole database until nothing is new. It ends with
      the least model of the rules over the ground facts. */
  method EvaluateNaive(rules: seq<Rule>, facts: seq<Fact>) returns (db: Database)
    requires SafeProgram(rules) && PositiveProgram(rules)
    ensures fresh(db) && db.Valid()
    ensures Least(rules, Elements(facts), Facts(db.rels)) && AgreeOff(Elements(facts), Facts(db.rels), HeadPredicates(rules))
  {
    PositiveNegatesBelow(rules);
    ghost var G := Elements(facts);
    db := new Database();
    LoadFacts(db, facts);
    if rules == [] {
      assert NaiveState(rules, G, db.rels);
      return;
    }
    var changed := true;
    while changed
      invariant NaiveState(rules, G, db.rels)
      invariant !changed ==> Closed(rules, Facts(db.rels))
      decreases ActiveModel(rules, G) - Facts(db.rels), changed
    {
      ghost var start := Facts(db.rels);
      NaiveBounded(rules, G, db.rels);
      changed := FireAll(rules, db, G);
      NaiveBounded(rules, G, db.rels);
    }
    assert ModelOver(rules, G, Facts(db.rels), Facts(db.rels));
  }

  method LoadFacts(db: Database, facts: seq<Fact>)
    requires db.rels == map[]
    modifies db
    ensures db.Valid() && NoNegativeWeight(db.rels) && Facts(db.rels) == Elements(facts)
  {
    for i := 0 to |facts|
      invariant db.Valid() && NoNegativeWeight(db.rels) && Facts(db.rels) == Elements(facts[..i])
    {
      ghost var was := db.rels;
      var f := facts[i];
      var _ := AddFact(db, f);
      AddToIsAddition(was, f.pred, f.values, 1);
      assert f == Fact(f.pred, f.values);
      FactsAre(was);
      FactsAre(db.rels);
      assert facts[..i + 1] == facts[..i] + [f];
    }
    assert facts[..|facts|] == facts;
  }

  /** One pass over the rules. */
  method FireAll(rules: seq<Rule>, db: Database, ghost G: Interpretation) returns (changed: bool)
    requires SafeProgram(rules) && PositiveProgram(rules) && NegationsBelow(rules) && NaiveState(rules, G, db.rels)
    modifies db
    ensures NaiveState(rules, G, db.rels) && Facts(old(db.rels)) <= Facts(db.rels)
    ensures changed ==> Facts(db.rels) != Facts(old(db.rels))
    ensures !changed ==> Closed(rules, Facts(db.rels)) && Facts(db.rels) == Facts(old(db.rels))
  {
    changed := false;
    ghost var start := Facts(db.rels);
    for r := 0 to |rules|
      invariant NaiveState(rules, G, db.rels) && start <= Facts(db.rels)
      invariant changed <==> Facts(db.rels) != start
      invariant !changed ==> forall q, f :: 0 <= q < r && DerivedBy(rules[q], start, f) ==> f in start
    {
      var derived := FireRule(rules[r], db);
      var more := AddResults(rules, r, derived, db, G);
      changed := changed || more;
    }
  }

  // ---------------------------------------------------------------------
  // Against the strata
  // ---------------------------------------------------------------------

  /** On a positive program the perfect model is the least model, whatever the
      stratification. */
  lemma PositivePerfectIsLeast(strata: seq<Stratum>, rules: seq<Rule>, ground: Interpretation, I: Interpretation)
    requires PositiveProgram(rules) && Stratified(strata, rules) && PerfectModel(strata, rules, ground, I)
    ensures Least(rules, ground, I)
  {
    PerfectIsClosed(strata, rules, ground, I);
    forall J: Interpretation | ModelOver(rules, ground, I, J) ensures I <= J {
      InsideModel(strata, rules, |strata|, ground, I, J);
      forall f: Fact | f in I ensures f in J {
        if f.pred in HeadPredicates(rules) {
          var k := StratumOfPredicate(strata, rules, f.pred);
        }
      }
    }
  }

  /** Going up the strata, the perfect model stays inside any model. */
  lemma {:induction false} InsideModel(strata: seq<Stratum>, rules: seq<Rule>, n: nat, ground: Interpretation, I: Interpretation, J: Interpretation)
    requires PositiveProgram(rules) && Stratified(strata, rules) && PerfectModel(strata, rules, ground, I)
    requires n <= |strata| && ModelOver(rules, ground, I, J)
    ensures forall m, f: Fact :: 0 <= m < n && f.pred in HeadPredicates(strata[m].rules) && f in I ==> f in J
  {
    if n > 0 {
      InsideModel(strata, rules, n - 1, ground, I, J);
      var own := strata[n - 1].rules;
      HeadsOfStratum(strata, rules, n - 1);
      var K := set f | f in I && (f.pred in HeadPredicates(own) ==> f in J);
      forall f | Derives(own, K, f) ensures f in K {
        InsideStep(strata, rules, n - 1, ground, I, J, K, f);
      }
      assert Least(own, ground, I);
      assert ModelOver(own, ground, I, K);
      assert I <= K;
    }
  }

  lemma InsideStep(strata: seq<Stratum>, rules: seq<Rule>, n: nat, ground: Interpretation, I: Interpretation, J: Interpretation,
                   K: Interpretation, f: Fact)
    requires PositiveProgram(rules) && Stratified(strata, rules) && PerfectModel(strata, rules, ground, I)
    requires n < |strata| && ModelOver(rules, ground, I, J)
    requires forall m, g: Fact :: 0 <= m < n && g.pred in HeadPredicates(strata[m].rules) && g in I ==> g in J
    requires K == set g | g in I && (g.pred in HeadPredicates(strata[n].rules) ==> g in J)
    requires Derives(strata[n].rules, K, f)
    ensures f in K
  {
    hide Satisfies, Supported;
    var own := strata[n].rules;
    var r :| 0 <= r < |own| && DerivedBy(own[r], K, f);
    RulesOfMembers(rules, strata[n].predicates);
    assert own[r] in own;
    var q :| 0 <= q < |rules| && rules[q] == own[r];
    forall i | 0 <= i < |own[r].body| && own[r].body[i].Positive?
      ensures Tuples(K, own[r].body[i].atom.pred) <= Tuples(I, own[r].body[i].atom.pred)
      ensures Tuples(K, own[r].body[i].atom.pred) <= Tuples(J, own[r].body[i].atom.pred)
    {
      var p := own[r].body[i].atom.pred;
      StratumReads(strata, rules, n, r, i);
      TuplesAre(K, p);
      TuplesAre(I, p);
      TuplesAre(J, p);
    }
    assert forall i :: 0 <= i < |rules[q].body| ==> !rules[q].body[i].Negation?;
    DerivedByGrows(own[r], K, I, f);
    DerivedByGrows(own[r], K, J, f);
    assert Derives(rules, J, f);
    PerfectIsClosed(strata, rules, ground, I);
    assert Derives(rules, I, f);
  }

  /** Naive evaluation and a stratified engine agree on positive programs. */
  lemma NaiveAgrees(strata: seq<Stratum>, rules: seq<Rule>, ground: Interpretation, I: Interpretation, naive: Interpretation)
    requires PositiveProgram(rules) && Stratified(strata, rules) && PerfectModel(strata, rules, ground, I)
    requires Least(rules, ground, naive) && AgreeOff(ground, naive, HeadPredicates(rules))
    ensures naive == I
  {
    PositivePerfectIsLeast(strata, rules, ground, I);
    LeastUnique(rules, ground, naive, I);
  }
}
