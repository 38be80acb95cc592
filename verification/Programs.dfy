/** Stratified programs and their perfect model
    (packages/datalog/src/stratify.ts, `Stratum`). */
module Programs {
  import opened Values
  import opened Syntax
  import opened Semantics
  import opened Models
  import opened Stages

  datatype Stratum = Stratum(index: nat, predicates: set<string>, rules: seq<Rule>)

  /** The rules whose heads are in `preds`, in the order of the program. */
  function RulesOf(rules: seq<Rule>, preds: set<string>): seq<Rule> {
    if rules == [] then []
    else
      var last := rules[|rules| - 1];
      RulesOf(rules[..|rules| - 1], preds) + (if last.head.pred in preds then [last] else [])
  }

  /** Strata in evaluation order: they split the predicates, each holds exactly
      the rules for its predicates, every derived predicate a rule reads is in
      the same stratum or a lower one, and every derived predicate it negates is
      strictly lower. */
  ghost predicate Stratified(strata: seq<Stratum>, rules: seq<Rule>) {
    && (forall k :: 0 <= k < |strata| ==> strata[k].index == k && strata[k].rules == RulesOf(rules, strata[k].predicates))
    && (forall k, m :: 0 <= k < m < |strata| ==> strata[k].predicates !! strata[m].predicates)
    && (forall p :: p in HeadPredicates(rules) ==> exists k :: 0 <= k < |strata| && p in strata[k].predicates)
    && (forall k, r, i :: 0 <= k < |strata| && 0 <= r < |strata[k].rules| && 0 <= i < |strata[k].rules[r].body| ==>
          ReadsBelow(strata, rules, k, strata[k].rules[r].body[i]))
  }

  /** An element of a rule of stratum `k` reads only what is ready. */
  ghost predicate ReadsBelow(strata: seq<Stratum>, rules: seq<Rule>, k: nat, el: Element) {
    el.ReadsRelation() && el.atom.pred in HeadPredicates(rules) ==>
      exists m :: 0 <= m < |strata| && el.atom.pred in strata[m].predicates && m <= k && (el.Negation? ==> m < k)
  }

  /** Underived predicates hold the ground facts, and every stratum is the least
      model over the ones below it. */
  ghost predicate PerfectModel(strata: seq<Stratum>, rules: seq<Rule>, ground: Interpretation, I: Interpretation) {
    && (forall f: Fact :: f.pred !in HeadPredicates(rules) ==> (f in I <==> f in ground))
    && (forall k :: 0 <= k < |strata| ==> Least(strata[k].rules, ground, I))
  }

  // ---------------------------------------------------------------------
  // Rules and strata
  // ---------------------------------------------------------------------

  lemma {:induction false} RulesOfMembers(rules: seq<Rule>, preds: set<string>)
    ensures forall rule :: rule in RulesOf(rules, preds) <==> rule in rules && rule.head.pred in preds
  {
    if rules != [] {
      RulesOfMembers(rules[..|rules| - 1], preds);
      assert rules == rules[..|rules| - 1] + [rules[|rules| - 1]];
    }
  }

  lemma HeadsOfStratum(strata: seq<Stratum>, rules: seq<Rule>, k: nat)
    requires Stratified(strata, rules) && k < |strata|
    ensures HeadPredicates(strata[k].rules) == strata[k].predicates * HeadPredicates(rules)
  {
    RulesOfMembers(rules, strata[k].predicates);
    var own := strata[k].rules;
    forall p ensures p in HeadPredicates(own) <==> p in strata[k].predicates && p in HeadPredicates(rules) {
      if p in HeadPredicates(own) {
        var i :| 0 <= i < |own| && own[i].head.pred == p;
        assert own[i] in own && own[i] in rules;
        var j :| 0 <= j < |rules| && rules[j] == own[i];
        assert rules[j].head.pred == p;
      }
      if p in strata[k].predicates && p in HeadPredicates(rules) {
        var j :| 0 <= j < |rules| && rules[j].head.pred == p;
        assert rules[j] in own;
        var i :| 0 <= i < |own| && own[i] == rules[j];
        assert own[i].head.pred == p;
      }
    }
  }

  lemma StrataDisjoint(strata: seq<Stratum>, rules: seq<Rule>, k: nat, m: nat)
    requires Stratified(strata, rules) && k < |strata| && m < |strata| && k != m
    ensures strata[k].predicates !! strata[m].predicates
    ensures HeadPredicates(strata[k].rules) !! HeadPredicates(strata[m].rules)
  {
    HeadsOfStratum(strata, rules, k);
    HeadsOfStratum(strata, rules, m);
  }

  lemma StratumOfPredicate(strata: seq<Stratum>, rules: seq<Rule>, p: string) returns (k: nat)
    requires Stratified(strata, rules) && p in HeadPredicates(rules)
    ensures k < |strata| && p in HeadPredicates(strata[k].rules)
  {
    k :| k < |strata| && p in strata[k].predicates;
    HeadsOfStratum(strata, rules, k);
  }

  lemma StratumReads(strata: seq<Stratum>, rules: seq<Rule>, k: nat, r: nat, i: nat)
    requires Stratified(strata, rules) && k < |strata| && r < |strata[k].rules| && i < |strata[k].rules[r].body|
    ensures var el := strata[k].rules[r].body[i];
      el.ReadsRelation() ==>
        || el.atom.pred !in HeadPredicates(rules)
        || exists m :: 0 <= m <= k && el.atom.pred in HeadPredicates(strata[m].rules) && (el.Negation? ==> m < k)
  {
    var el := strata[k].rules[r].body[i];
    assert ReadsBelow(strata, rules, k, el);
    if el.ReadsRelation() && el.atom.pred in HeadPredicates(rules) {
      var m :| 0 <= m < |strata| && el.atom.pred in strata[m].predicates && m <= k && (el.Negation? ==> m < k);
      HeadsOfStratum(strata, rules, m);
    }
  }

  /** Within a stratum negation reads below the heads. */
  lemma StratumNegations(strata: seq<Stratum>, rules: seq<Rule>, k: nat)
    requires Stratified(strata, rules) && k < |strata|
    ensures NegationsBelow(strata[k].rules)
  {
    var own := strata[k].rules;
    forall r, i | 0 <= r < |own| && 0 <= i < |own[r].body| && own[r].body[i].Negation?
      ensures own[r].body[i].atom.pred !in HeadPredicates(own)
    {
      var p := own[r].body[i].atom.pred;
      StratumReads(strata, rules, k, r, i);
      HeadsOfStratum(strata, rules, k);
      if p in HeadPredicates(rules) {
        var m :| 0 <= m < k && p in HeadPredicates(strata[m].rules);
        StrataDisjoint(strata, rules, k, m);
      }
    }
  }

  /** A stratum does not read the heads of a higher one. */
  lemma HigherNotRead(strata: seq<Stratum>, rules: seq<Rule>, k: nat, m: nat)
    requires Stratified(strata, rules) && k < m < |strata|
    ensures ReadPredicates(strata[k].rules) !! HeadPredicates(strata[m].rules)
  {
    var own := strata[k].rules;
    forall p | p in ReadPredicates(own) ensures p !in HeadPredicates(strata[m].rules) {
      var r, i := ReadBy(own, p);
      StratumReads(strata, rules, k, r, i);
      HeadsOfStratum(strata, rules, m);
      if p in HeadPredicates(rules) {
        var j :| 0 <= j <= k && p in HeadPredicates(strata[j].rules);
        StrataDisjoint(strata, rules, j, m);
      }
    }
  }

  lemma SafeStratum(strata: seq<Stratum>, rules: seq<Rule>, k: nat)
    requires Stratified(strata, rules) && SafeProgram(rules) && k < |strata|
    ensures SafeProgram(strata[k].rules)
  {
    RulesOfMembers(rules, strata[k].predicates);
    forall i | 0 <= i < |strata[k].rules| ensures SafeRule(strata[k].rules[i]) {
      assert strata[k].rules[i] in rules;
      var j :| 0 <= j < |rules| && rules[j] == strata[k].rules[i];
    }
  }

  /** A model closed under every stratum is closed under the program. */
  lemma RuleInStratum(strata: seq<Stratum>, rules: seq<Rule>, j: nat) returns (k: nat, r: nat)
    requires Stratified(strata, rules) && j < |rules|
    ensures k < |strata| && r < |strata[k].rules| && strata[k].rules[r] == rules[j]
  {
    assert rules[j].head.pred in HeadPredicates(rules);
    k :| k < |strata| && rules[j].head.pred in strata[k].predicates;
    RulesOfMembers(rules, strata[k].predicates);
    assert rules[j] in strata[k].rules;
    r :| r < |strata[k].rules| && strata[k].rules[r] == rules[j];
  }

  // ---------------------------------------------------------------------
  // The perfect model is unique, whatever the stratification
  // ---------------------------------------------------------------------

  /** `I` and `J` agree on everything below stratum `k`. */
  ghost predicate AgreeBelow(strata: seq<Stratum>, rules: seq<Rule>, k: nat, I: Interpretation, J: Interpretation)
    requires k <= |strata|
  {
    && (forall f: Fact :: f.pred !in HeadPredicates(rules) ==> (f in I <==> f in J))
    && (forall m, f: Fact :: 0 <= m < k && f.pred in HeadPredicates(strata[m].rules) ==> (f in I <==> f in J))
  }

  /** What a stratum reads outside its heads is below it. */
  lemma AgreedReads(strata: seq<Stratum>, rules: seq<Rule>, k: nat, I: Interpretation, J: Interpretation)
    requires Stratified(strata, rules) && k < |strata| && AgreeBelow(strata, rules, k, I, J)
    ensures forall f: Fact :: f.pred in ReadPredicates(strata[k].rules) && f.pred !in HeadPredicates(strata[k].rules) ==> (f in I <==> f in J)
  {
    hide Stratified, ReadPredicates, HeadPredicates;
    var own := strata[k].rules;
    forall f: Fact | f.pred in ReadPredicates(own) && f.pred !in HeadPredicates(own) ensures f in I <==> f in J {
      var r, i := ReadBy(own, f.pred);
      StratumReads(strata, rules, k, r, i);
      if f.pred in HeadPredicates(rules) {
        var m :| 0 <= m <= k && f.pred in HeadPredicates(strata[m].rules);
        assert m < k;
      }
    }
  }

  /** What a stratum reads below itself, `I` and `J` agree on; so one has the
      other's heads as a model. */
  lemma GraftIsModel(strata: seq<Stratum>, rules: seq<Rule>, k: nat, ground: Interpretation, I: Interpretation, J: Interpretation)
    requires Stratified(strata, rules) && k < |strata|
    requires AgreeBelow(strata, rules, k, I, J)
    requires Closed(strata[k].rules, J) && forall f: Fact :: f in ground && f.pred in HeadPredicates(strata[k].rules) ==> f in J
    ensures ModelOver(strata[k].rules, ground, I, Graft(strata[k].rules, I, J))
  {
    var own := strata[k].rules;
    var K := Graft(own, I, J);
    AgreedReads(strata, rules, k, I, J);
    SameReadsGrow(own, K, J);
    forall f | Derives(own, K, f) ensures f in K {
      DerivesGrows(own, K, J, f);
      DerivedIsHead(own, K, f);
    }
  }

  /** One direction at stratum `k`: the perfect model of these strata is inside
      any model that agrees below. */
  lemma StratumInside(strata: seq<Stratum>, rules: seq<Rule>, k: nat, ground: Interpretation, I: Interpretation, J: Interpretation, f: Fact)
    requires Stratified(strata, rules) && k < |strata|
    requires AgreeBelow(strata, rules, k, I, J) && PerfectModel(strata, rules, ground, I)
    requires Closed(strata[k].rules, J) && forall g: Fact :: g in ground && g.pred in HeadPredicates(strata[k].rules) ==> g in J
    requires f.pred in HeadPredicates(strata[k].rules) && f in I
    ensures f in J
  {
    GraftIsModel(strata, rules, k, ground, I, J);
    assert Least(strata[k].rules, ground, I);
  }

  lemma PerfectIsClosed(strata: seq<Stratum>, rules: seq<Rule>, ground: Interpretation, I: Interpretation)
    requires Stratified(strata, rules) && PerfectModel(strata, rules, ground, I)
    ensures Closed(rules, I) && forall f: Fact :: f in ground ==> f in I
  {
    forall f | Derives(rules, I, f) ensures f in I {
      var j :| 0 <= j < |rules| && DerivedBy(rules[j], I, f);
      var k, r := RuleInStratum(strata, rules, j);
      assert Derives(strata[k].rules, I, f);
      assert Least(strata[k].rules, ground, I);
    }
    forall f: Fact | f in ground ensures f in I {
      if f.pred in HeadPredicates(rules) {
        var k := StratumOfPredicate(strata, rules, f.pred);
        assert Least(strata[k].rules, ground, I);
      }
    }
  }

  lemma ClosedSubset(strata: seq<Stratum>, rules: seq<Rule>, k: nat, I: Interpretation)
    requires Stratified(strata, rules) && k < |strata| && Closed(rules, I)
    ensures Closed(strata[k].rules, I)
  {
    RulesOfMembers(rules, strata[k].predicates);
    forall f | Derives(strata[k].rules, I, f) ensures f in I {
      var r :| 0 <= r < |strata[k].rules| && DerivedBy(strata[k].rules[r], I, f);
      assert strata[k].rules[r] in rules;
      var j :| 0 <= j < |rules| && rules[j] == strata[k].rules[r];
      assert Derives(rules, I, f);
    }
  }

  /** `J`, another stratification's perfect model, inside `I` at stratum `k`:
      by going up the strata of `J`. */
  lemma {:induction false} OtherInside(strata: seq<Stratum>, others: seq<Stratum>, rules: seq<Rule>, k: nat, n: nat,
                                       ground: Interpretation, I: Interpretation, J: Interpretation)
    requires Stratified(strata, rules) && Stratified(others, rules) && k < |strata| && n <= |others|
    requires PerfectModel(strata, rules, ground, I) && PerfectModel(others, rules, ground, J)
    requires AgreeBelow(strata, rules, k, I, J)
    ensures forall m, f: Fact :: 0 <= m < n && f.pred in HeadPredicates(others[m].rules) && f.pred in HeadPredicates(strata[k].rules) && f in J ==> f in I
  {
    hide Derives, HeadPredicates, Stratified;
    if n > 0 {
      OtherInside(strata, others, rules, k, n - 1, ground, I, J);
      var own, mine := others[n - 1].rules, strata[k].rules;
      // Drop from J the heads of both that I does not have.
      var K := set f | f in J && (f.pred in HeadPredicates(own) && f.pred in HeadPredicates(mine) ==> f in I);
      PerfectIsClosed(strata, rules, ground, I);
      forall f | Derives(own, K, f) ensures f in K {
        OtherStep(strata, others, rules, k, n - 1, ground, I, J, K, f);
      }
      assert Least(own, ground, J);
      assert ModelOver(own, ground, J, K);
      assert J <= K;
    }
  }

  /** A rule of the other stratum whose body holds in the reduced `K`. */
  lemma OtherStep(strata: seq<Stratum>, others: seq<Stratum>, rules: seq<Rule>, k: nat, n: nat,
                  ground: Interpretation, I: Interpretation, J: Interpretation, K: Interpretation, f: Fact)
    requires Stratified(strata, rules) && Stratified(others, rules) && k < |strata| && n < |others|
    requires PerfectModel(others, rules, ground, J) && Closed(rules, I)
    requires AgreeBelow(strata, rules, k, I, J)
    requires forall m, g: Fact :: 0 <= m < n && g.pred in HeadPredicates(others[m].rules) && g.pred in HeadPredicates(strata[k].rules) && g in J ==> g in I
    requires K == set g | g in J && (g.pred in HeadPredicates(others[n].rules) && g.pred in HeadPredicates(strata[k].rules) ==> g in I)
    requires Derives(others[n].rules, K, f)
    ensures f in K
  {
    hide DerivedBy, RulesOf, HeadPredicates;
    var own, mine := others[n].rules, strata[k].rules;
    var r :| 0 <= r < |own| && DerivedBy(own[r], K, f);
    StratumNegations(others, rules, n);
    LargerGrowsOn(own, K, J);
    DerivedByGrows(own[r], K, J, f);
    assert Least(own, ground, J);
    assert Derives(own, J, f);
    if f.pred in HeadPredicates(mine) {
      RulesOfMembers(rules, others[n].predicates);
      RulesOfMembers(rules, strata[k].predicates);
      HeadsOfStratum(strata, rules, k);
      assert own[r] in rules && own[r] in mine;
      var q :| 0 <= q < |mine| && mine[q] == own[r];
      forall i | 0 <= i < |own[r].body|
        ensures var el := own[r].body[i];
          && (el.Positive? ==> Tuples(K, el.atom.pred) <= Tuples(I, el.atom.pred))
          && (el.Negation? ==> Tuples(I, el.atom.pred) <= Tuples(K, el.atom.pred))
      {
        OtherRead(strata, others, rules, k, n, I, J, K, q, r, i);
      }
      DerivedByGrows(own[r], K, I, f);
      var j :| 0 <= j < |rules| && rules[j] == own[r];
      assert Derives(rules, I, f);
    }
  }

  /** More facts on the heads only. */
  lemma LargerGrowsOn(own: seq<Rule>, K: Interpretation, J: Interpretation)
    requires K <= J && NegationsBelow(own) && forall f: Fact :: f in J && f !in K ==> f.pred in HeadPredicates(own)
    ensures Grows(own, K, J)
  {
    LargerGrows(own, K, J);
  }

  lemma OtherRead(strata: seq<Stratum>, others: seq<Stratum>, rules: seq<Rule>, k: nat, n: nat,
                  I: Interpretation, J: Interpretation, K: Interpretation, q: nat, r: nat, i: nat)
    requires Stratified(strata, rules) && Stratified(others, rules) && k < |strata| && n < |others|
    requires AgreeBelow(strata, rules, k, I, J)
    requires forall m, g: Fact :: 0 <= m < n && g.pred in HeadPredicates(others[m].rules) && g.pred in HeadPredicates(strata[k].rules) && g in J ==> g in I
    requires K == set g | g in J && (g.pred in HeadPredicates(others[n].rules) && g.pred in HeadPredicates(strata[k].rules) ==> g in I)
    requires q < |strata[k].rules| && r < |others[n].rules| && strata[k].rules[q] == others[n].rules[r] && i < |others[n].rules[r].body|
    ensures var el := others[n].rules[r].body[i];
      && (el.Positive? ==> Tuples(K, el.atom.pred) <= Tuples(I, el.atom.pred))
      && (el.Negation? ==> Tuples(I, el.atom.pred) <= Tuples(K, el.atom.pred))
  {
    var el := others[n].rules[r].body[i];
    if el.ReadsRelation() {
      var p := el.atom.pred;
      TuplesAre(I, p);
      TuplesAre(K, p);
      StratumReads(strata, rules, k, q, i);
      StratumReads(others, rules, n, r, i);
      if p in HeadPredicates(rules) {
        var m :| 0 <= m <= k && p in HeadPredicates(strata[m].rules) && (el.Negation? ==> m < k);
        if m < k {
          StrataDisjoint(strata, rules, m, k);
        }
      } else {
        HeadsOfStratum(strata, rules, k);
      }
    }
  }

  lemma {:induction false} PerfectAgree(strata: seq<Stratum>, others: seq<Stratum>, rules: seq<Rule>, k: nat,
                                        ground: Interpretation, I: Interpretation, J: Interpretation)
    requires Stratified(strata, rules) && Stratified(others, rules) && k <= |strata|
    requires PerfectModel(strata, rules, ground, I) && PerfectModel(others, rules, ground, J)
    ensures AgreeBelow(strata, rules, k, I, J)
  {
    if k > 0 {
      PerfectAgree(strata, others, rules, k - 1, ground, I, J);
      forall f: Fact | f.pred in HeadPredicates(strata[k - 1].rules) ensures f in I <==> f in J {
        AgreeAt(strata, others, rules, k - 1, ground, I, J, f);
      }
    }
  }

  lemma AgreeAt(strata: seq<Stratum>, others: seq<Stratum>, rules: seq<Rule>, k: nat,
                ground: Interpretation, I: Interpretation, J: Interpretation, f: Fact)
    requires Stratified(strata, rules) && Stratified(others, rules) && k < |strata|
    requires PerfectModel(strata, rules, ground, I) && PerfectModel(others, rules, ground, J)
    requires AgreeBelow(strata, rules, k, I, J) && f.pred in HeadPredicates(strata[k].rules)
    ensures f in I <==> f in J
  {
    if f in I {
      PerfectIsClosed(others, rules, ground, J);
      ClosedSubset(strata, rules, k, J);
      StratumInside(strata, rules, k, ground, I, J, f);
    } else if f in J {
      OtherInside(strata, others, rules, k, |others|, ground, I, J);
      HeadsOfStratum(strata, rules, k);
      var m := StratumOfPredicate(others, rules, f.pred);
    }
  }

  /** A program has at most one perfect model, and it does not depend on how the
      program was stratified. */
  lemma PerfectModelUnique(strata: seq<Stratum>, others: seq<Stratum>, rules: seq<Rule>,
                           ground: Interpretation, I: Interpretation, J: Interpretation)
    requires Stratified(strata, rules) && Stratified(others, rules)
    requires PerfectModel(strata, rules, ground, I) && PerfectModel(others, rules, ground, J)
    ensures I == J
  {
    PerfectAgree(strata, others, rules, |strata|, ground, I, J);
    forall f: Fact ensures f in I <==> f in J {
      if f.pred in HeadPredicates(rules) {
        var k := StratumOfPredicate(strata, rules, f.pred);
      }
    }
  }

  // ---------------------------------------------------------------------
  // Every stratified program has one
  // ---------------------------------------------------------------------

  /** The first `k` strata are at their least models over the ground facts. */
  ghost predicate PerfectBelow(strata: seq<Stratum>, rules: seq<Rule>, k: nat, ground: Interpretation, I: Interpretation)
    requires k <= |strata|
  {
    && (forall f: Fact :: f.pred !in HeadPredicates(rules) ==> (f in I <==> f in ground))
    && (forall m :: 0 <= m < k ==> Least(strata[m].rules, ground, I))
  }

  /** The least model of one more stratum leaves the lower ones as they are. */
  lemma OneMorePerfect(strata: seq<Stratum>, rules: seq<Rule>, k: nat, ground: Interpretation, I: Interpretation, J: Interpretation)
    requires Stratified(strata, rules) && k < |strata| && PerfectBelow(strata, rules, k, ground, I)
    requires Least(strata[k].rules, ground, J) && AgreeOff(I, J, HeadPredicates(strata[k].rules))
    ensures PerfectBelow(strata, rules, k + 1, ground, J)
  {
    HeadsOfStratum(strata, rules, k);
    forall m | 0 <= m < k ensures Least(strata[m].rules, ground, J) {
      StrataDisjoint(strata, rules, m, k);
      HigherNotRead(strata, rules, m, k);
      LeastLocal(strata[m].rules, ground, ground, I, J);
    }
  }

  lemma {:induction false} PerfectUpTo(strata: seq<Stratum>, rules: seq<Rule>, k: nat, ground: Interpretation) returns (I: Interpretation)
    requires Stratified(strata, rules) && SafeProgram(rules) && k <= |strata|
    ensures PerfectBelow(strata, rules, k, ground, I)
  {
    if k == 0 {
      I := set f | f in ground && f.pred !in HeadPredicates(rules);
    } else {
      var below := PerfectUpTo(strata, rules, k - 1, ground);
      SafeStratum(strata, rules, k - 1);
      StratumNegations(strata, rules, k - 1);
      I := LeastExists(strata[k - 1].rules, ground, below);
      OneMorePerfect(strata, rules, k - 1, ground, below, I);
    }
  }

  /** A safe stratified program has a perfect model over any ground facts. */
  lemma PerfectModelExists(strata: seq<Stratum>, rules: seq<Rule>, ground: Interpretation) returns (I: Interpretation)
    requires Stratified(strata, rules) && SafeProgram(rules)
    ensures PerfectModel(strata, rules, ground, I)
  {
    I := PerfectUpTo(strata, rules, |strata|, ground);
  }
}
