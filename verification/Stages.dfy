/** Least models reached from below, one round of consequences at a time: what the
    number of rounds of an evaluation is measured by. */
module Stages {
  import opened Values
  import opened Syntax
  import opened Semantics
  import opened Models

  /** Everything the rules derive from `I`. */
  ghost function Consequences(rules: seq<Rule>, I: Interpretation): Interpretation {
    set f | f in HeadInstances(rules, Domain(I) + HeadConstants(rules)) && Derives(rules, I, f)
  }

  lemma ConsequencesAre(rules: seq<Rule>, I: Interpretation)
    requires SafeProgram(rules)
    ensures forall f :: f in Consequences(rules, I) <==> Derives(rules, I, f)
  {
    forall f | Derives(rules, I, f) ensures f in HeadInstances(rules, Domain(I) + HeadConstants(rules)) {
      DerivedIsInstance(rules, I, Domain(I) + HeadConstants(rules), f);
    }
  }

  /** What the rules start from: their inputs in `I`, and the ground part of their
      heads. */
  ghost function Inputs(rules: seq<Rule>, G: Interpretation, I: Interpretation): Interpretation {
    (set f | f in I && f.pred !in HeadPredicates(rules)) + (set f | f in G && f.pred in HeadPredicates(rules))
  }

  ghost function Next(rules: seq<Rule>, S: Interpretation): Interpretation {
    S + Consequences(rules, S)
  }

  /** What `n` rounds of consequences reach. */
  ghost function Stage(rules: seq<Rule>, G: Interpretation, I: Interpretation, n: nat): Interpretation {
    if n == 0 then Inputs(rules, G, I) else Next(rules, Stage(rules, G, I, n - 1))
  }

  /** Round `n` adds nothing. */
  ghost predicate StillAt(rules: seq<Rule>, G: Interpretation, I: Interpretation, n: nat) {
    Consequences(rules, Stage(rules, G, I, n)) <= Stage(rules, G, I, n)
  }

  /** Some fact that every model holds is not reached in `n` rounds. */
  ghost predicate TakesMoreThan(rules: seq<Rule>, G: Interpretation, I: Interpretation, n: nat) {
    exists f: Fact :: f.pred in HeadPredicates(rules) && Entailed(rules, G, I, f) && f !in Stage(rules, G, I, n)
  }

  lemma NextAddsHeads(rules: seq<Rule>, S: Interpretation)
    requires SafeProgram(rules)
    ensures S <= Next(rules, S) && AgreeOff(S, Next(rules, S), HeadPredicates(rules))
  {
    ConsequencesAre(rules, S);
    forall f | f in Consequences(rules, S) ensures f.pred in HeadPredicates(rules) {
      DerivedIsHead(rules, S, f);
    }
  }

  lemma {:induction false} StageInputs(rules: seq<Rule>, G: Interpretation, I: Interpretation, n: nat)
    requires SafeProgram(rules)
    ensures AgreeOff(I, Stage(rules, G, I, n), HeadPredicates(rules))
    ensures forall f :: f in G && f.pred in HeadPredicates(rules) ==> f in Stage(rules, G, I, n)
  {
    hide Next, Consequences, HeadPredicates;
    if n > 0 {
      StageInputs(rules, G, I, n - 1);
      NextAddsHeads(rules, Stage(rules, G, I, n - 1));
    }
  }

  lemma NextGrows(rules: seq<Rule>, S: Interpretation)
    ensures S <= Next(rules, S)
  {
  }

  lemma {:induction false} StagesGrow(rules: seq<Rule>, G: Interpretation, I: Interpretation, m: nat, n: nat)
    requires m <= n
    ensures Stage(rules, G, I, m) <= Stage(rules, G, I, n)
  {
    hide Consequences, HeadInstances;
    if m < n {
      StagesGrow(rules, G, I, m, n - 1);
      NextGrows(rules, Stage(rules, G, I, n - 1));
    }
  }

  /** What follows from some facts follows from anything that holds them over the
      same inputs. */
  lemma ConsequencesStay(rules: seq<Rule>, S: Interpretation, J: Interpretation)
    requires SafeProgram(rules) && NegationsBelow(rules)
    requires S <= J && AgreeOff(S, J, HeadPredicates(rules))
    ensures forall f :: f in Consequences(rules, S) ==> Derives(rules, J, f)
    ensures Closed(rules, J) ==> Next(rules, S) <= J
  {
    LargerGrows(rules, S, J);
    ConsequencesAre(rules, S);
    forall f | f in Consequences(rules, S) ensures Derives(rules, J, f) {
      DerivesGrows(rules, S, J, f);
    }
  }

  /** Every stage is inside every model. */
  lemma {:induction false} StageInside(rules: seq<Rule>, G: Interpretation, I: Interpretation, n: nat, J: Interpretation)
    requires SafeProgram(rules) && NegationsBelow(rules) && ModelOver(rules, G, I, J)
    ensures Stage(rules, G, I, n) <= J
  {
    hide Consequences, HeadInstances, OnHeads;
    if n > 0 {
      StageInside(rules, G, I, n - 1, J);
      StageInputs(rules, G, I, n - 1);
      ConsequencesStay(rules, Stage(rules, G, I, n - 1), J);
    }
  }

  /** A stage that adds nothing is the least model. */
  lemma ClosedStage(rules: seq<Rule>, G: Interpretation, I: Interpretation, n: nat)
    requires SafeProgram(rules) && NegationsBelow(rules)
    requires StillAt(rules, G, I, n)
    ensures ModelOver(rules, G, I, Stage(rules, G, I, n)) && Least(rules, G, Stage(rules, G, I, n))
  {
    var S := Stage(rules, G, I, n);
    StageInputs(rules, G, I, n);
    ConsequencesAre(rules, S);
    forall J: Interpretation | ModelOver(rules, G, S, J) ensures S <= J {
      assert ModelOver(rules, G, I, J);
      StageInside(rules, G, I, n, J);
    }
  }

  /** No round before `n` adds nothing. */
  ghost predicate GrowsUntil(rules: seq<Rule>, G: Interpretation, I: Interpretation, n: nat) {
    forall m :: 0 <= m < n ==> !StillAt(rules, G, I, m)
  }

  lemma StageStep(rules: seq<Rule>, G: Interpretation, I: Interpretation, n: nat)
    ensures Stage(rules, G, I, n + 1) == Next(rules, Stage(rules, G, I, n))
    ensures StillAt(rules, G, I, n) <==> Consequences(rules, Stage(rules, G, I, n)) <= Stage(rules, G, I, n)
  {
  }

  /** As long as the stages grow each has a head more than the last. */
  lemma {:induction false} StagesAddUp(rules: seq<Rule>, G: Interpretation, I: Interpretation, n: nat)
    requires SafeProgram(rules) && GrowsUntil(rules, G, I, n)
    ensures |OnHeads(rules, Stage(rules, G, I, n))| >= n
  {
    hide Consequences, HeadInstances, OnHeads;
    if n > 0 {
      assert GrowsUntil(rules, G, I, n - 1) && !StillAt(rules, G, I, n - 1);
      StagesAddUp(rules, G, I, n - 1);
      StageStep(rules, G, I, n - 1);
      OneMoreHead(rules, Stage(rules, G, I, n - 1));
    }
  }

  lemma OneMoreHead(rules: seq<Rule>, S: Interpretation)
    requires SafeProgram(rules) && !(Consequences(rules, S) <= S)
    ensures |OnHeads(rules, Next(rules, S))| > |OnHeads(rules, S)|
  {
    ConsequencesAre(rules, S);
    var f :| f in Consequences(rules, S) && f !in S;
    DerivedIsHead(rules, S, f);
    SubsetCardinality(OnHeads(rules, S) + {f}, OnHeads(rules, Next(rules, S)));
  }

  /** So rules that take more than `n` rounds derive more than `n` facts, in every
      model. */
  lemma LongIsLarge(rules: seq<Rule>, G: Interpretation, I: Interpretation, n: nat, J: Interpretation)
    requires SafeProgram(rules) && NegationsBelow(rules)
    requires TakesMoreThan(rules, G, I, n) && ModelOver(rules, G, I, J)
    ensures |OnHeads(rules, J)| > n
  {
    var f: Fact :| f.pred in HeadPredicates(rules) && Entailed(rules, G, I, f) && f !in Stage(rules, G, I, n);
    forall m | 0 <= m < n + 1 ensures !StillAt(rules, G, I, m) {
      if StillAt(rules, G, I, m) {
        ClosedStage(rules, G, I, m);
        StagesGrow(rules, G, I, m, n);
      }
    }
    StagesAddUp(rules, G, I, n + 1);
    StageInside(rules, G, I, n + 1, J);
    SubsetCardinality(OnHeads(rules, Stage(rules, G, I, n + 1)), OnHeads(rules, J));
  }

  /** Rules that read none of their heads are done in one round. */
  lemma NonRecursiveTakesOne(rules: seq<Rule>, G: Interpretation, I: Interpretation, n: nat)
    requires SafeProgram(rules) && NegationsBelow(rules) && NonRecursive(rules) && n > 0
    ensures !TakesMoreThan(rules, G, I, n)
  {
    var S, T := Stage(rules, G, I, 0), Stage(rules, G, I, 1);
    StageInputs(rules, G, I, 0);
    StageInputs(rules, G, I, 1);
    SameReadsGrow(rules, T, S);
    ConsequencesAre(rules, S);
    ConsequencesAre(rules, T);
    forall f | Derives(rules, T, f) ensures f in T {
      DerivesGrows(rules, T, S, f);
    }
    ClosedStage(rules, G, I, 1);
    StagesGrow(rules, G, I, 1, n);
  }

  /** Over any inputs there is a least model, and some stage is it. */
  lemma LeastExists(rules: seq<Rule>, G: Interpretation, I: Interpretation) returns (J: Interpretation)
    requires SafeProgram(rules) && NegationsBelow(rules)
    ensures Least(rules, G, J) && AgreeOff(I, J, HeadPredicates(rules))
  {
    var start := Inputs(rules, G, I);
    var bound := ActiveModel(rules, start);
    ActiveModelIsModel(rules, G, start);
    assert ModelOver(rules, G, I, bound);
    var n := |OnHeads(rules, bound)| + 1;
    if GrowsUntil(rules, G, I, n) {
      StagesAddUp(rules, G, I, n);
      StageInside(rules, G, I, n, bound);
      SubsetCardinality(OnHeads(rules, Stage(rules, G, I, n)), OnHeads(rules, bound));
      assert false;
    }
    var m :| 0 <= m < n && StillAt(rules, G, I, m);
    ClosedStage(rules, G, I, m);
    J := Stage(rules, G, I, m);
  }

  // ---------------------------------------------------------------------
  // What the stages depend on
  // ---------------------------------------------------------------------

  /** The two hold the same of what the rules read and derive. */
  ghost predicate SameTo(rules: seq<Rule>, S: Interpretation, S': Interpretation) {
    AgreeOn(S, S', ReadPredicates(rules)) && AgreeOn(S, S', HeadPredicates(rules))
  }

  lemma NextLocal(rules: seq<Rule>, S: Interpretation, S': Interpretation)
    requires SafeProgram(rules) && SameTo(rules, S, S')
    ensures SameTo(rules, Next(rules, S), Next(rules, S'))
  {
    SameReadsGrow(rules, S, S');
    ConsequencesAre(rules, S);
    ConsequencesAre(rules, S');
    forall f ensures Derives(rules, S, f) <==> Derives(rules, S', f) {
      if Derives(rules, S, f) {
        DerivesGrows(rules, S, S', f);
      }
      if Derives(rules, S', f) {
        DerivesGrows(rules, S', S, f);
      }
    }
  }

  /** Only what the rules read and derive matters. */
  lemma {:induction false} StageLocal(rules: seq<Rule>, G: Interpretation, G': Interpretation, I: Interpretation, I': Interpretation, n: nat)
    requires SafeProgram(rules)
    requires AgreeOn(I, I', ReadPredicates(rules)) && AgreeOn(G, G', HeadPredicates(rules))
    ensures SameTo(rules, Stage(rules, G, I, n), Stage(rules, G', I', n))
  {
    hide Consequences, HeadInstances, OnHeads;
    if n > 0 {
      StageLocal(rules, G, G', I, I', n - 1);
      NextLocal(rules, Stage(rules, G, I, n - 1), Stage(rules, G', I', n - 1));
    }
  }

  /** The inputs alone decide the stages. */
  lemma {:induction false} StageOfInputs(rules: seq<Rule>, G: Interpretation, I: Interpretation, I': Interpretation, n: nat)
    requires AgreeOff(I, I', HeadPredicates(rules))
    ensures Stage(rules, G, I, n) == Stage(rules, G, I', n)
  {
    hide Consequences, HeadInstances;
    if n == 0 {
      assert Inputs(rules, G, I) == Inputs(rules, G, I');
    } else {
      StageOfInputs(rules, G, I, I', n - 1);
    }
  }

  lemma EntailedLocal(rules: seq<Rule>, G: Interpretation, G': Interpretation, I: Interpretation, I': Interpretation, f: Fact)
    requires AgreeOn(I, I', ReadPredicates(rules)) && AgreeOn(G, G', HeadPredicates(rules))
    requires f.pred in HeadPredicates(rules) && Entailed(rules, G, I, f)
    ensures Entailed(rules, G', I', f)
  {
    forall J: Interpretation | ModelOver(rules, G', I', J) ensures f in J {
      var K := Graft(rules, I, J);
      SameReadsGrow(rules, K, J);
      forall g | Derives(rules, K, g) ensures g in K {
        DerivesGrows(rules, K, J, g);
        DerivedIsHead(rules, K, g);
      }
      assert ModelOver(rules, G, I, K);
    }
  }

  lemma TakesMoreThanLocal(rules: seq<Rule>, G: Interpretation, G': Interpretation, I: Interpretation, I': Interpretation, n: nat)
    requires SafeProgram(rules)
    requires AgreeOn(I, I', ReadPredicates(rules)) && AgreeOn(G, G', HeadPredicates(rules))
    requires TakesMoreThan(rules, G, I, n)
    ensures TakesMoreThan(rules, G', I', n)
  {
    var f: Fact :| f.pred in HeadPredicates(rules) && Entailed(rules, G, I, f) && f !in Stage(rules, G, I, n);
    StageLocal(rules, G, G', I, I', n);
    EntailedLocal(rules, G, G', I, I', f);
  }
}
