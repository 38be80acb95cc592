/** How a retraction can be missed: a step sees presence, and a fact that loses its
    ground part can hold itself up through the rules. */
module Limits {
  import opened Values
  import opened Syntax
  import opened Unify
  import opened ZRelation
  import opened Databases
  import opened Evaluate
  import opened Semantics
  import opened Models
  import opened Stages
  import opened Deltas
  import opened SemiNaive
  import opened Programs
  import opened Arity
  import opened Stratification
  import opened Naive
  import opened Evaluators

  const X := Var("X")

  function CopyRule(head: string, body: string): Rule {
    Rule(Atom(head, [X]), [Positive(Atom(body, [X]))])
  }

  lemma CopyVars(head: string, body: string)
    ensures PositiveVars(CopyRule(head, body).body) == {"X"}
  {
    var rule := CopyRule(head, body);
    assert rule.body[0].Positive? && [X][0] == X;
    assert "X" in TermVars([X]);
    assert ElementVars(rule.body[0]) == TermVars([X]);
    assert "X" in ElementVars(rule.body[0]);
    forall x | x in PositiveVars(rule.body) ensures x == "X" {
      var i :| 0 <= i < |rule.body| && rule.body[i].Positive? && x in ElementVars(rule.body[i]);
    }
  }

  /** A copy rule derives exactly the one-column facts of the predicate it reads. */
  lemma CopyDerives(head: string, body: string, I: Interpretation, f: Fact)
    ensures DerivedBy(CopyRule(head, body), I, f) <==> f.pred == head && |f.values| == 1 && Fact(body, f.values) in I
  {
    var rule := CopyRule(head, body);
    CopyVars(head, body);
    TuplesAre(I, body);
    if DerivedBy(rule, I, f) {
      var sigma :| Satisfies(rule, I, sigma) && HeadIs(rule.head, sigma, f.values);
      assert Ways(rule.body[0], I, sigma) > 0;
      var t :| t in Fitting(Tuples(I, body), [X], sigma);
      FitsIsInstance([X], t, sigma);
      assert t == f.values;
    }
    if f.pred == head && |f.values| == 1 && Fact(body, f.values) in I {
      var sigma: Bindings := map["X" := f.values[0]];
      GroundTermOk([X], sigma, 0);
      assert f.values == Instance([X], sigma);
      FitsIsInstance([X], f.values, sigma);
      assert f.values in Fitting(Tuples(I, body), [X], sigma);
      assert rule.body == [Positive(Atom(body, [X]))];
      assert Ways(Positive(Atom(body, [X])), I, sigma) == |Fitting(Tuples(I, body), [X], sigma)| > 0;
      assert Satisfies(rule, I, sigma);
      assert Ground(rule.head.terms, sigma);
      assert HeadIs(rule.head, sigma, f.values);
    }
  }

  /** Each of two predicates is derived from the other. */
  function LoopRules(): seq<Rule> {
    [CopyRule("p", "q"), CopyRule("q", "p")]
  }

  lemma LoopDerives(I: Interpretation, f: Fact)
    ensures Derives(LoopRules(), I, f) <==>
      |f.values| == 1 && ((f.pred == "p" && Fact("q", f.values) in I) || (f.pred == "q" && Fact("p", f.values) in I))
  {
    CopyDerives("p", "q", I, f);
    CopyDerives("q", "p", I, f);
    assert LoopRules()[0] == CopyRule("p", "q") && LoopRules()[1] == CopyRule("q", "p");
    if Derives(LoopRules(), I, f) {
      var r :| 0 <= r < |LoopRules()| && DerivedBy(LoopRules()[r], I, f);
    }
  }

  lemma LoopHeads()
    ensures HeadPredicates(LoopRules()) == {"p", "q"}
  {
    assert LoopRules()[0].head.pred == "p" && LoopRules()[1].head.pred == "q";
  }

  lemma LoopIsLeast(a: Value)
    ensures Least(LoopRules(), {Fact("p", [a])}, {Fact("p", [a])} + {Fact("q", [a])})
  {
    var rules, p, q := LoopRules(), Fact("p", [a]), Fact("q", [a]);
    LoopHeads();
    var I: Interpretation := {p} + {q};
    forall f ensures Derives(rules, I, f) ==> f in I {
      LoopDerives(I, f);
    }
    forall J: Interpretation | ModelOver(rules, {p}, I, J) ensures I <= J {
      LoopDerives(J, q);
    }
  }

  lemma LoopIsNotLeastWithoutGround(a: Value)
    ensures !Least(LoopRules(), {}, {Fact("p", [a])} + {Fact("q", [a])})
  {
    var rules, I := LoopRules(), {Fact("p", [a])} + {Fact("q", [a])};
    LoopHeads();
    var none: Interpretation := {};
    forall f ensures !Derives(rules, none, f) {
      LoopDerives(none, f);
    }
    assert ModelOver(rules, none, I, none);
  }

  // ---------------------------------------------------------------------
  // The two rules in an evaluator
  // ---------------------------------------------------------------------

  lemma LoopMentions()
    ensures MentionsOf(LoopRules()) == [
      Mention("p", 1, CopyRule("p", "q"), Position.Head), Mention("q", 1, CopyRule("p", "q"), Position.Body),
      Mention("q", 1, CopyRule("q", "p"), Position.Head), Mention("p", 1, CopyRule("q", "p"), Position.Body)]
  {
    var first, second := CopyRule("p", "q"), CopyRule("q", "p");
    assert LoopRules()[..1] == [first] && [first][..0] == [];
    assert BodyMentions(first, 1) == [Mention("q", 1, first, Position.Body)] && BodyMentions(second, 1) == [Mention("p", 1, second, Position.Body)];
    assert MentionsOf([first]) == [Mention("p", 1, first, Position.Head), Mention("q", 1, first, Position.Body)];
  }

  lemma LoopIsAccepted()
    ensures SafeProgram(LoopRules()) && PositiveProgram(LoopRules())
    ensures Coherent(MentionsOf(LoopRules())) && !HasCyclicNegation(LoopRules())
  {
    CopyVars("p", "q");
    CopyVars("q", "p");
    LoopMentions();
    assert TermVars([X]) == {"X"} by {
      assert [X][0] == X;
    }
  }

  lemma OneFact(f: Fact, w: int, v: int)
    ensures forall g :: ListWeight([WeightedFact(f, w)], g) == if g == f then w else 0
    ensures forall g :: ListWeight([WeightedFact(f, w)] + [WeightedFact(f, v)], g) == if g == f then w + v else 0
  {
    assert [WeightedFact(f, w)][..0] == [] && [WeightedFact(f, v)][..0] == [];
    forall g ensures ListWeight([WeightedFact(f, w)] + [WeightedFact(f, v)], g) == if g == f then w + v else 0 {
      ListWeightConcat([WeightedFact(f, w)], [WeightedFact(f, v)], g);
    }
  }

  /** The two rules are in one stratum, and there are no others. */
  lemma LoopTogether(strata: seq<Stratum>) returns (k: nat)
    requires Stratified(strata, LoopRules())
    ensures k < |strata| && HeadPredicates(strata[k].rules) == {"p", "q"}
    ensures forall rule :: rule in strata[k].rules ==> rule in LoopRules()
    ensures forall m :: 0 <= m < |strata| && m != k ==> HeadPredicates(strata[m].rules) == {}
  {
    LoopHeads();
    k := StratumOfPredicate(strata, LoopRules(), "p");
    var n := StratumOfPredicate(strata, LoopRules(), "q");
    LoopReads(strata, k, n, "p", "q");
    LoopReads(strata, n, k, "q", "p");
    forall m | 0 <= m < |strata| ensures HeadPredicates(strata[m].rules) <= {"p", "q"} {
      HeadsOfStratum(strata, LoopRules(), m);
    }
    forall m | 0 <= m < |strata| && m != k ensures HeadPredicates(strata[m].rules) == {} {
      StrataDisjoint(strata, LoopRules(), m, k);
    }
    RulesOfMembers(LoopRules(), strata[k].predicates);
  }

  lemma LoopReads(strata: seq<Stratum>, k: nat, n: nat, head: string, body: string)
    requires Stratified(strata, LoopRules()) && k < |strata| && n < |strata| && {head, body} == {"p", "q"} && head != body
    requires head in HeadPredicates(strata[k].rules) && body in HeadPredicates(strata[n].rules)
    ensures n <= k && CopyRule(head, body) in strata[k].rules
  {
    LoopHeads();
    RulesOfMembers(LoopRules(), strata[k].predicates);
    var own := strata[k].rules;
    var r :| 0 <= r < |own| && own[r].head.pred == head;
    assert own[r] in own;
    StratumReads(strata, LoopRules(), k, r, 0);
    var m :| 0 <= m <= k && body in HeadPredicates(strata[m].rules);
    if m != n {
      StrataDisjoint(strata, LoopRules(), m, n);
    }
  }

  lemma LoopClosed(rules: seq<Rule>, a: Value, J: Interpretation)
    requires forall rule :: rule in rules ==> rule in LoopRules()
    requires forall f: Fact :: f.pred == "p" || f.pred == "q" ==> (f in J <==> f.values == [a])
    ensures Closed(rules, J)
  {
    forall f | Derives(rules, J, f) ensures f in J {
      var r :| 0 <= r < |rules| && DerivedBy(rules[r], J, f);
      assert rules[r] in rules;
      var i :| 0 <= i < |LoopRules()| && LoopRules()[i] == rules[r];
      assert Derives(LoopRules(), J, f);
      LoopDerives(J, f);
    }
  }

  /** A model over p(a) at most holds two facts of the heads. */
  lemma LoopBounded(rules: seq<Rule>, a: Value, G: Interpretation, I: Interpretation) returns (J: Interpretation)
    requires HeadPredicates(rules) == {"p", "q"} && forall rule :: rule in rules ==> rule in LoopRules()
    requires G <= {Fact("p", [a])}
    ensures ModelOver(rules, G, I, J) && |OnHeads(rules, J)| <= 2
  {
    var pair := {Fact("p", [a])} + {Fact("q", [a])};
    J := (set f | f in I && f.pred !in HeadPredicates(rules)) + pair;
    LoopClosed(rules, a, J);
    assert OnHeads(rules, J) <= pair;
    SubsetCardinality(OnHeads(rules, J), pair);
  }

  /** So the two rules are far from the iteration cap. */
  lemma LoopIsShort(strata: seq<Stratum>, a: Value, G: Interpretation, I: Interpretation)
    requires Stratified(strata, LoopRules()) && G <= {Fact("p", [a])}
    ensures !TakesTooLong(strata, G, I)
  {
    var k := LoopTogether(strata);
    LoopIsAccepted();
    forall m | 0 <= m < |strata| ensures !TakesMoreThan(strata[m].rules, G, I, MAX_ITERATIONS) {
      if m == k && TakesMoreThan(strata[k].rules, G, I, MAX_ITERATIONS) {
        var J := LoopBounded(strata[k].rules, a, G, I);
        SafeStratum(strata, LoopRules(), k);
        StratumNegations(strata, LoopRules(), k);
        LongIsLarge(strata[k].rules, G, I, MAX_ITERATIONS, J);
      }
    }
  }

  lemma NothingUngrounded(delta: seq<WeightedFact>, s0: Store)
    ensures Ungrounded([], delta, s0) == {}
  {
    UngroundedAre([], delta, s0);
  }

  /** What an evaluator in a valid state holds when p(a) is its one ground fact. */
  lemma LoopModel(strata: seq<Stratum>, a: Value, I: Interpretation)
    requires Stratified(strata, LoopRules()) && PerfectModel(strata, LoopRules(), {Fact("p", [a])}, I)
    ensures I == {Fact("p", [a])} + {Fact("q", [a])}
  {
    LoopIsAccepted();
    LoopHeads();
    PositivePerfectIsLeast(strata, LoopRules(), {Fact("p", [a])}, I);
    LoopIsLeast(a);
    LeastUnique(LoopRules(), {Fact("p", [a])}, I, {Fact("p", [a])} + {Fact("q", [a])});
  }

  lemma LoopIsNotPerfect(strata: seq<Stratum>, a: Value)
    requires Stratified(strata, LoopRules())
    ensures !PerfectModel(strata, LoopRules(), {}, {Fact("p", [a])} + {Fact("q", [a])})
  {
    LoopIsAccepted();
    LoopIsNotLeastWithoutGround(a);
    if PerfectModel(strata, LoopRules(), {}, {Fact("p", [a])} + {Fact("q", [a])}) {
      PositivePerfectIsLeast(strata, LoopRules(), {}, {Fact("p", [a])} + {Fact("q", [a])});
    }
  }

  /** Derived as well as given, p(a) weighs more than it was given. */
  lemma LoopWeighsTwo(strata: seq<Stratum>, history: seq<WeightedFact>, ground: Store, s: Store, a: Value)
    requires Stratified(strata, LoopRules()) && InOrder(strata, LoopRules(), history, ground, s)
    requires Fact("q", [a]) in Facts(s)
    ensures WeightIn(s, Fact("p", [a])) > ListWeight(history, Fact("p", [a]))
  {
    var k := LoopTogether(strata);
    LoopReads(strata, k, k, "p", "q");
    LoopHeads();
    var rules, f := strata[k].rules, Fact("p", [a]);
    var r :| 0 <= r < |rules| && rules[r] == CopyRule("p", "q");
    CopyDerives("p", "q", Facts(s), f);
    assert Derives(rules, Facts(s), f);
    assert f in Above(ground, s);
  }

  lemma RecursionUnharmed(strata: seq<Stratum>, delta: seq<WeightedFact>, s0: Store)
    requires Ungrounded([], delta, s0) == {}
    ensures RetractionsVanish(strata, [], delta, s0)
  {
  }

  /** Give p(a) to the two rules. */
  method GiveToLoop(a: Value) returns (e: Evaluator)
    ensures fresh(e) && fresh(e.db) && fresh(e.groundInDerived)
    ensures e.Valid() && e.rules == LoopRules() && "p" in e.arityOf && e.arityOf["p"] == 1
    ensures e.history == [WeightedFact(Fact("p", [a]), 1)] && NetGround(e.history) == {Fact("p", [a])}
  {
    hide RetractionsFollow, RetractionsSeen, RetractionsVanish, TakesTooLong, ReportsDerived, InOrder, PerfectModel;
    LoopIsAccepted();
    LoopMentions();
    ghost var p := Fact("p", [a]);
    OneFact(p, 1, -1);
    var created := CreateEvaluator(LoopRules());
    e := created.value;
    assert MentionsOf(LoopRules())[0].pred == "p";
    LoopIsShort(e.strata, a, {}, e.Model());
    NothingUngrounded([WeightedFact(p, 1)], e.db.rels);
    RecursionUnharmed(e.strata, [WeightedFact(p, 1)], e.db.rels);
    var given, exhausted := e.Step([WeightedFact(Fact("p", [a]), 1)]);
    assert e.history == [WeightedFact(p, 1)];
    NetGroundIs([]);
    NetGroundIs(e.history);
    assert [] + [WeightedFact(p, 1)] == e.history && NetGround(e.history) + {} == NetGround(e.history);
    LoopIsShort(e.strata, a, NetGround(e.history), e.Model());
    ghost var M := PerfectModelExists(e.strata, e.rules, NetGround(e.history));
  }

  /** Taking p(a) back from an evaluator that derived it too. */
  method TakeFromLoop(e: Evaluator, a: Value)
    requires e.Valid() && e.rules == LoopRules() && "p" in e.arityOf && e.arityOf["p"] == 1
    requires e.history == [WeightedFact(Fact("p", [a]), 1)] && WeightIn(e.db.rels, Fact("p", [a])) > 1
    modifies e, e.db, e.groundInDerived
    ensures e.history == [WeightedFact(Fact("p", [a]), 1), WeightedFact(Fact("p", [a]), -1)] && NetGround(e.history) == {}
    ensures e.Model() == old(e.Model())
  {
    hide RetractionsFollow, RetractionsSeen, RetractionsVanish, PerfectModel, StepTakesTooLong, ReportsDerived, FlipsNothing, InOrder, LoopRules;
    ghost var p, held := Fact("p", [a]), e.db.rels;
    OneFact(p, 1, -1);
    OneFact(p, -1, 0);
    TakesBackNothing(held, p);
    var taken, exhausted := e.Step([WeightedFact(Fact("p", [a]), -1)]);
    assert e.history == [WeightedFact(p, 1)] + [WeightedFact(p, -1)];
    NetGroundIs(e.history);
    FactsAre(held);
    FactsAre(e.db.rels);
  }

  /** Give p(a) to the two rules, and take it back. It was derived too, through
      q(a), so taking it back flips no presence and reaches no stratum: both facts
      stay, and nothing is left to derive them from. */
  method RetractionIntoRecursionIsMissed(a: Value) returns (e: Evaluator)
    ensures e.rules == LoopRules() && e.history == [WeightedFact(Fact("p", [a]), 1), WeightedFact(Fact("p", [a]), -1)]
    ensures NetGround(e.history) == {} && e.Model() == {Fact("p", [a])} + {Fact("q", [a])}
    ensures !PerfectModel(e.strata, e.rules, NetGround(e.history), e.Model())
  {
    e := GiveToLoop(a);
    OneFact(Fact("p", [a]), 1, -1);
    ValidIsPerfect(e);
    LoopModel(e.strata, a, e.Model());
    LoopWeighsTwo(e.strata, e.history, e.groundInDerived.rels, e.db.rels, a);
    TakeFromLoop(e, a);
    LoopIsNotPerfect(e.strata, a);
  }

  lemma TakesBackNothing(s: Store, p: Fact)
    requires WeightIn(s, p) > 1
    ensures FlipsNothing(s, [WeightedFact(p, -1)])
  {
    var delta := [WeightedFact(p, -1)];
    OneFact(p, -1, 0);
    forall i, f | 0 <= i <= |delta| ensures Sign(WeightIn(s, f) + ListWeight(delta[..i], f)) == Sign(WeightIn(s, f)) {
      if i == 0 {
        assert delta[..i] == [];
      } else {
        assert delta[..i] == delta;
      }
    }
  }
}
