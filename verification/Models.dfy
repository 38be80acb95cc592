/** Least and perfect models: the meaning a stratified program is given. */
module Models {
  import opened Values
  import opened Syntax
  import opened Unify
  import opened ZRelation
  import opened Evaluate
  import opened Semantics

  /** `f` is the head of a rule instance whose body holds in `I`. */
  ghost predicate DerivedBy(rule: Rule, I: Interpretation, f: Fact) {
    rule.head.pred == f.pred && exists sigma :: Satisfies(rule, I, sigma) && HeadIs(rule.head, sigma, f.values)
  }

  ghost predicate Derives(rules: seq<Rule>, I: Interpretation, f: Fact) {
    exists r :: 0 <= r < |rules| && DerivedBy(rules[r], I, f)
  }

  ghost predicate Closed(rules: seq<Rule>, I: Interpretation) {
    forall f :: Derives(rules, I, f) ==> f in I
  }

  /** `I` and `J` hold the same facts outside the predicates `H`. */
  ghost predicate AgreeOff(I: Interpretation, J: Interpretation, H: set<string>) {
    forall f: Fact :: f.pred !in H ==> (f in I <==> f in J)
  }

  ghost predicate AgreeOn(I: Interpretation, J: Interpretation, H: set<string>) {
    forall f: Fact :: f.pred in H ==> (f in I <==> f in J)
  }

  /** `J` is a model of `rules` over the inputs of `I`: it has the same facts
      outside the heads, the ground facts of the heads, and is closed. */
  ghost predicate ModelOver(rules: seq<Rule>, G: Interpretation, I: Interpretation, J: Interpretation) {
    && AgreeOff(I, J, HeadPredicates(rules))
    && (forall f :: f in G && f.pred in HeadPredicates(rules) ==> f in J)
    && Closed(rules, J)
  }

  /** Every fact of `I` is in every model over the inputs of `I`. */
  ghost predicate Supported(rules: seq<Rule>, G: Interpretation, I: Interpretation) {
    forall J: Interpretation :: ModelOver(rules, G, I, J) ==> I <= J
  }

  /** `I` is the least model of `rules` over its own inputs. */
  ghost predicate Least(rules: seq<Rule>, G: Interpretation, I: Interpretation) {
    ModelOver(rules, G, I, I) && Supported(rules, G, I)
  }

  /** No negated predicate is derived by the same rules. */
  ghost predicate NegationsBelow(rules: seq<Rule>) {
    forall r, i :: 0 <= r < |rules| && 0 <= i < |rules[r].body| && rules[r].body[i].Negation? ==>
      rules[r].body[i].atom.pred !in HeadPredicates(rules)
  }

  /** The predicates the rules read. */
  function ReadPredicates(rules: seq<Rule>): set<string> {
    set r, p | 0 <= r < |rules| && p in BodyPredicates(rules[r].body) :: p
  }

  /** The rules read none of their own heads. */
  ghost predicate NonRecursive(rules: seq<Rule>) {
    ReadPredicates(rules) !! HeadPredicates(rules)
  }

  lemma ReadsPredicate(rules: seq<Rule>, r: nat, i: nat)
    requires r < |rules| && i < |rules[r].body| && rules[r].body[i].ReadsRelation()
    ensures rules[r].body[i].atom.pred in BodyPredicates(rules[r].body)
    ensures rules[r].body[i].atom.pred in ReadPredicates(rules)
  {
  }

  /** The facts of the predicates the rules derive. */
  ghost function OnHeads(rules: seq<Rule>, I: Interpretation): Interpretation {
    set f | f in I && f.pred in HeadPredicates(rules)
  }

  /** `I` outside the heads of `own`, `J` on them. */
  ghost function Graft(own: seq<Rule>, I: Interpretation, J: Interpretation): Interpretation {
    (set f | f in I && f.pred !in HeadPredicates(own)) + (set f | f in J && f.pred in HeadPredicates(own))
  }

  lemma ReadBy(rules: seq<Rule>, p: string) returns (r: nat, i: nat)
    requires p in ReadPredicates(rules)
    ensures r < |rules| && i < |rules[r].body| && rules[r].body[i].ReadsRelation() && rules[r].body[i].atom.pred == p
  {
    r :| 0 <= r < |rules| && p in BodyPredicates(rules[r].body);
    i :| 0 <= i < |rules[r].body| && rules[r].body[i].ReadsRelation() && rules[r].body[i].atom.pred == p;
  }

  // ---------------------------------------------------------------------
  // What a body depends on
  // ---------------------------------------------------------------------

  lemma FittingMonotone(ts: set<Tuple>, us: set<Tuple>, terms: seq<Term>, sigma: Bindings)
    requires ts <= us
    ensures Fitting(ts, terms, sigma) <= Fitting(us, terms, sigma)
    ensures |Fitting(ts, terms, sigma)| <= |Fitting(us, terms, sigma)|
  {
    SubsetCardinality(Fitting(ts, terms, sigma), Fitting(us, terms, sigma));
  }

  lemma SubsetCardinality<T>(a: set<T>, b: set<T>)
    requires a <= b
    ensures |a| <= |b|
    ensures |a| == |b| ==> a == b
  {
    assert b == a + (b - a);
    if |a| == |b| {
      assert |b - a| == 0;
    }
  }

  /** Going from `I` to `J` can only add ways to satisfy the body. */
  ghost predicate BodyGrows(body: seq<Element>, I: Interpretation, J: Interpretation) {
    forall i :: 0 <= i < |body| ==>
      && (body[i].Positive? ==> Tuples(I, body[i].atom.pred) <= Tuples(J, body[i].atom.pred))
      && (body[i].Negation? ==> Tuples(J, body[i].atom.pred) <= Tuples(I, body[i].atom.pred))
  }

  lemma WaysGrow(el: Element, I: Interpretation, J: Interpretation, sigma: Bindings)
    requires el.Positive? ==> Tuples(I, el.atom.pred) <= Tuples(J, el.atom.pred)
    requires el.Negation? ==> Tuples(J, el.atom.pred) <= Tuples(I, el.atom.pred)
    ensures Ways(el, I, sigma) <= Ways(el, J, sigma)
  {
    match el
    case Positive(a) => FittingMonotone(Tuples(I, a.pred), Tuples(J, a.pred), a.terms, sigma);
    case Negation(a) => FittingMonotone(Tuples(J, a.pred), Tuples(I, a.pred), a.terms, sigma);
    case Guard(_, _, _) =>
  }

  lemma SatisfiesGrows(rule: Rule, I: Interpretation, J: Interpretation, sigma: Bindings)
    requires BodyGrows(rule.body, I, J) && Satisfies(rule, I, sigma)
    ensures Satisfies(rule, J, sigma)
  {
    forall i | 0 <= i < |rule.body| ensures Ways(rule.body[i], J, sigma) > 0 {
      WaysGrow(rule.body[i], I, J, sigma);
    }
  }

  lemma DerivedByGrows(rule: Rule, I: Interpretation, J: Interpretation, f: Fact)
    requires BodyGrows(rule.body, I, J) && DerivedBy(rule, I, f)
    ensures DerivedBy(rule, J, f)
  {
    var sigma :| Satisfies(rule, I, sigma) && HeadIs(rule.head, sigma, f.values);
    SatisfiesGrows(rule, I, J, sigma);
  }

  /** Growth for every rule of a program. */
  ghost predicate Grows(rules: seq<Rule>, I: Interpretation, J: Interpretation) {
    forall r :: 0 <= r < |rules| ==> BodyGrows(rules[r].body, I, J)
  }

  lemma DerivesGrows(rules: seq<Rule>, I: Interpretation, J: Interpretation, f: Fact)
    requires Grows(rules, I, J) && Derives(rules, I, f)
    ensures Derives(rules, J, f)
  {
    var r :| 0 <= r < |rules| && DerivedBy(rules[r], I, f);
    DerivedByGrows(rules[r], I, J, f);
  }

  /** More facts, and no difference outside the heads, can only help when
      negation reads below the heads. */
  lemma LargerGrows(rules: seq<Rule>, I: Interpretation, J: Interpretation)
    requires I <= J && NegationsBelow(rules) && AgreeOff(I, J, HeadPredicates(rules))
    ensures Grows(rules, I, J)
  {
    forall r, i | 0 <= r < |rules| && 0 <= i < |rules[r].body|
      ensures var el := rules[r].body[i];
        && (el.Positive? ==> Tuples(I, el.atom.pred) <= Tuples(J, el.atom.pred))
        && (el.Negation? ==> Tuples(J, el.atom.pred) <= Tuples(I, el.atom.pred))
    {
      var el := rules[r].body[i];
      if el.ReadsRelation() {
        TuplesAre(I, el.atom.pred);
        TuplesAre(J, el.atom.pred);
      }
    }
  }

  /** A body sees only the predicates it reads. */
  lemma SameReadsGrow(rules: seq<Rule>, I: Interpretation, J: Interpretation)
    requires AgreeOn(I, J, ReadPredicates(rules))
    ensures Grows(rules, I, J) && Grows(rules, J, I)
  {
    forall r, i | 0 <= r < |rules| && 0 <= i < |rules[r].body| && rules[r].body[i].ReadsRelation()
      ensures Tuples(I, rules[r].body[i].atom.pred) == Tuples(J, rules[r].body[i].atom.pred)
    {
      ReadsPredicate(rules, r, i);
      TuplesAre(I, rules[r].body[i].atom.pred);
      TuplesAre(J, rules[r].body[i].atom.pred);
    }
  }

  // ---------------------------------------------------------------------
  // Supported interpretations
  // ---------------------------------------------------------------------

  /** Adding derived facts keeps an interpretation supported. */
  lemma SupportedGrows(rules: seq<Rule>, G: Interpretation, I: Interpretation, K: Interpretation)
    requires NegationsBelow(rules) && Supported(rules, G, I) && I <= K
    requires forall f :: f in K && f !in I ==> Derives(rules, I, f)
    ensures Supported(rules, G, K)
    ensures AgreeOff(I, K, HeadPredicates(rules))
  {
    forall f | f in K && f !in I ensures f.pred in HeadPredicates(rules) {
      DerivedIsHead(rules, I, f);
    }
    forall J: Interpretation | ModelOver(rules, G, K, J) ensures K <= J {
      assert ModelOver(rules, G, I, J);
      LargerGrows(rules, I, J);
      forall f | f in K && f !in I ensures f in J {
        DerivesGrows(rules, I, J, f);
      }
    }
  }

  lemma DerivedIsHead(rules: seq<Rule>, I: Interpretation, f: Fact)
    requires Derives(rules, I, f)
    ensures f.pred in HeadPredicates(rules)
  {
  }

  /** Two least models over the same inputs are the same. */
  lemma LeastUnique(rules: seq<Rule>, G: Interpretation, I: Interpretation, J: Interpretation)
    requires Least(rules, G, I) && Least(rules, G, J)
    requires AgreeOff(I, J, HeadPredicates(rules))
    ensures I == J
  {
    assert ModelOver(rules, G, I, J);
    assert ModelOver(rules, G, J, I);
  }

  /** A fact every model over the inputs of `I` holds. */
  ghost predicate Entailed(rules: seq<Rule>, G: Interpretation, I: Interpretation, f: Fact) {
    forall J: Interpretation :: ModelOver(rules, G, I, J) ==> f in J
  }

  /** Facts that are present may be counted as ground ones; the model stays least
      without them exactly when they follow from the others. */
  lemma LeastWithout(rules: seq<Rule>, G: Interpretation, L: Interpretation, I: Interpretation)
    requires Least(rules, G + L, I)
    ensures Least(rules, G, I) <==> forall f :: f in L && f.pred in HeadPredicates(rules) ==> Entailed(rules, G, I, f)
  {
    if forall f :: f in L && f.pred in HeadPredicates(rules) ==> Entailed(rules, G, I, f) {
      forall J: Interpretation | ModelOver(rules, G, I, J) ensures I <= J {
        assert ModelOver(rules, G + L, I, J);
      }
    }
  }

  lemma LeastWithMore(rules: seq<Rule>, G: Interpretation, L: Interpretation, I: Interpretation)
    requires Least(rules, G, I) && L <= I
    ensures Least(rules, G + L, I)
  {
    forall J: Interpretation | ModelOver(rules, G + L, I, J) ensures I <= J {
      assert ModelOver(rules, G, I, J);
    }
  }

  /** Growth keeps every fact the rules read of their own heads. */
  lemma ReadHeadIsKept(rules: seq<Rule>, O: Interpretation, N: Interpretation, f: Fact)
    requires NegationsBelow(rules) && Grows(rules, O, N)
    requires f.pred in HeadPredicates(rules) && f.pred in ReadPredicates(rules) && f in O
    ensures f in N
  {
    var r, i := ReadBy(rules, f.pred);
    assert BodyGrows(rules[r].body, O, N);
    TuplesAre(O, f.pred);
    TuplesAre(N, f.pred);
    assert f == Fact(f.pred, f.values);
  }

  /** The old least model, less what was lost of it, is supported over inputs that
      have grown: nothing the rules read was lost. */
  lemma OldModelSupported(rules: seq<Rule>, G: Interpretation, G': Interpretation, O: Interpretation, N: Interpretation)
    requires NegationsBelow(rules) && Least(rules, G, O)
    requires forall f :: f in G && f in N && f.pred in HeadPredicates(rules) ==> f in G'
    requires forall f :: f in N && f.pred in HeadPredicates(rules) ==> f in O || f in G'
    requires Grows(rules, O, N)
    ensures Supported(rules, G', N)
  {
    forall J: Interpretation | ModelOver(rules, G', N, J) ensures N <= J {
      OldModelInside(rules, G, G', O, N, J);
    }
  }

  lemma OldModelInside(rules: seq<Rule>, G: Interpretation, G': Interpretation, O: Interpretation, N: Interpretation, J: Interpretation)
    requires NegationsBelow(rules) && Least(rules, G, O) && ModelOver(rules, G', N, J)
    requires forall f :: f in G && f in N && f.pred in HeadPredicates(rules) ==> f in G'
    requires forall f :: f in N && f.pred in HeadPredicates(rules) ==> f in O || f in G'
    requires Grows(rules, O, N)
    ensures N <= J
  {
    var H := HeadPredicates(rules);
    // The heads of J over the old inputs, and what was lost.
    var K := (set f | f in O && (f.pred !in H || f !in N)) + (set f | f in J && f.pred in H);
    OldInputsGrow(rules, O, N, J, K);
    forall f | Derives(rules, K, f) ensures f in K {
      DerivesGrows(rules, K, J, f);
      DerivedIsHead(rules, K, f);
    }
    assert ModelOver(rules, G, O, K);
    assert O <= K;
  }

  lemma OldInputsGrow(rules: seq<Rule>, O: Interpretation, N: Interpretation, J: Interpretation, K: Interpretation)
    requires NegationsBelow(rules) && Grows(rules, O, N) && AgreeOff(N, J, HeadPredicates(rules)) && AgreeOff(O, K, HeadPredicates(rules))
    requires forall f :: f in K && f.pred in HeadPredicates(rules) ==> f in J || (f in O && f !in N)
    ensures Grows(rules, K, J)
  {
    forall r, i | 0 <= r < |rules| && 0 <= i < |rules[r].body|
      ensures var el := rules[r].body[i];
        && (el.Positive? ==> Tuples(K, el.atom.pred) <= Tuples(J, el.atom.pred))
        && (el.Negation? ==> Tuples(J, el.atom.pred) <= Tuples(K, el.atom.pred))
    {
      var el := rules[r].body[i];
      if el.ReadsRelation() {
        assert BodyGrows(rules[r].body, O, N);
        ReadsPredicate(rules, r, i);
        var p := el.atom.pred;
        TuplesAre(K, p);
        TuplesAre(J, p);
        TuplesAre(O, p);
        TuplesAre(N, p);
        forall t | p in HeadPredicates(rules) && Fact(p, t) in O ensures Fact(p, t) in N {
          ReadHeadIsKept(rules, O, N, Fact(p, t));
        }
      }
    }
  }

  // ---------------------------------------------------------------------
  // What a least model depends on
  // ---------------------------------------------------------------------

  /** Only what the rules read and derive matters. */
  lemma SupportedLocal(rules: seq<Rule>, G: Interpretation, G': Interpretation, I: Interpretation, I': Interpretation)
    requires Supported(rules, G, I)
    requires AgreeOn(I, I', ReadPredicates(rules)) && AgreeOn(I, I', HeadPredicates(rules))
    requires AgreeOn(G, G', HeadPredicates(rules))
    ensures Supported(rules, G', I')
  {
    forall J: Interpretation | ModelOver(rules, G', I', J) ensures I' <= J {
      var K := Graft(rules, I, J);
      SameReadsGrow(rules, K, J);
      forall f | Derives(rules, K, f) ensures f in K {
        DerivesGrows(rules, K, J, f);
        DerivedIsHead(rules, K, f);
      }
      assert ModelOver(rules, G, I, K);
      assert I <= K;
    }
  }

  lemma LeastLocal(rules: seq<Rule>, G: Interpretation, G': Interpretation, I: Interpretation, I': Interpretation)
    requires Least(rules, G, I)
    requires AgreeOn(I, I', ReadPredicates(rules)) && AgreeOn(I, I', HeadPredicates(rules))
    requires AgreeOn(G, G', HeadPredicates(rules))
    ensures Least(rules, G', I')
  {
    SameReadsGrow(rules, I, I');
    forall f | Derives(rules, I', f) ensures f in I' {
      DerivesGrows(rules, I', I, f);
      DerivedIsHead(rules, I', f);
    }
    SupportedLocal(rules, G, G', I, I');
  }

  // ---------------------------------------------------------------------
  // A finite model
  // ---------------------------------------------------------------------

  /** The constants in the heads of the rules. */
  ghost function HeadConstants(rules: seq<Rule>): set<Value> {
    set r, i | 0 <= r < |rules| && 0 <= i < |rules[r].head.terms| && rules[r].head.terms[i].Const? :: rules[r].head.terms[i].value
  }

  /** Every instance of a head over the active domain. */
  ghost function HeadInstances(rules: seq<Rule>, D: set<Value>): Interpretation {
    set r, sigma | 0 <= r < |rules| && sigma in Valuations(PositiveVars(rules[r].body), D) && Ground(rules[r].head.terms, sigma)
      :: Fact(rules[r].head.pred, Instance(rules[r].head.terms, sigma))
  }

  /** The facts of `I` and all head instances over the active domain: a finite
      model, which bounds the least one. */
  ghost function ActiveModel(rules: seq<Rule>, I: Interpretation): Interpretation {
    I + HeadInstances(rules, Domain(I) + HeadConstants(rules))
  }

  lemma InstanceInDomain(rules: seq<Rule>, r: nat, sigma: Bindings, D: set<Value>, i: nat)
    requires r < |rules| && Ground(rules[r].head.terms, sigma) && i < |rules[r].head.terms|
    requires ValuesIn(sigma, D) && HeadConstants(rules) <= D
    ensures Instance(rules[r].head.terms, sigma)[i] in D
  {
    GroundTermOk(rules[r].head.terms, sigma, i);
  }

  /** What is derived is a head instance over the domain. */
  lemma DerivedIsInstance(rules: seq<Rule>, I: Interpretation, D: set<Value>, f: Fact)
    requires SafeProgram(rules) && Derives(rules, I, f) && Domain(I) <= D
    ensures f in HeadInstances(rules, D)
  {
    var r :| 0 <= r < |rules| && DerivedBy(rules[r], I, f);
    var sigma :| Satisfies(rules[r], I, sigma) && HeadIs(rules[r].head, sigma, f.values);
    SatisfiedInDomain(rules[r], I, sigma);
    ValuationsAre(PositiveVars(rules[r].body), D, sigma);
    assert f == Fact(rules[r].head.pred, Instance(rules[r].head.terms, sigma));
  }

  lemma ActiveModelIsModel(rules: seq<Rule>, G: Interpretation, I: Interpretation)
    requires SafeProgram(rules)
    requires forall f :: f in G && f.pred in HeadPredicates(rules) ==> f in I
    ensures ModelOver(rules, G, I, ActiveModel(rules, I))
  {
    var D := Domain(I) + HeadConstants(rules);
    var J := ActiveModel(rules, I);
    forall v | v in Domain(J) ensures v in D {
      var f, i :| f in J && 0 <= i < |f.values| && f.values[i] == v;
      if f !in I {
        var r, sigma :| 0 <= r < |rules| && sigma in Valuations(PositiveVars(rules[r].body), D)
          && Ground(rules[r].head.terms, sigma) && f == Fact(rules[r].head.pred, Instance(rules[r].head.terms, sigma));
        ValuationsAre(PositiveVars(rules[r].body), D, sigma);
        InstanceInDomain(rules, r, sigma, D, i);
      }
    }
    forall f | Derives(rules, J, f) ensures f in J {
      DerivedIsInstance(rules, J, D, f);
    }
  }
}
