/** Why a step leaves every stratum in order, whether or not it runs it. */
module StepTheory {
  import opened Values
  import opened Syntax
  import opened Databases
  import opened Semantics
  import opened Models
  import opened Stages
  import opened Deltas
  import opened SemiNaive
  import opened Invariants
  import opened StratumUpdate
  import opened Programs
  import opened Affected

  /** The two give the same weights to the facts of the predicates `H`. */
  ghost predicate SameOn(s: Store, t: Store, H: set<string>) {
    forall f: Fact :: f.pred in H ==> WeightIn(s, f) == WeightIn(t, f)
  }

  // ---------------------------------------------------------------------
  // What a stratum depends on
  // ---------------------------------------------------------------------

  /** A change to predicates a stratum neither reads nor derives matters to it in
      no way. */
  lemma RestsStable(rules: seq<Rule>, ground: Store, s: Store, t: Store, H: set<string>)
    requires Rests(rules, ground, s) && SameOff(t, s, H) && Carries(t, ground)
    requires H !! HeadPredicates(rules) && H !! ReadPredicates(rules)
    ensures Rests(rules, ground, t)
  {
    FactsAre(s);
    FactsAre(t);
    SameReadsGrow(rules, Facts(s), Facts(t));
    forall f | Derives(rules, Facts(t), f) ensures f in Above(ground, t) {
      DerivesGrows(rules, Facts(t), Facts(s), f);
      DerivedIsHead(rules, Facts(t), f);
      assert f in Above(ground, s) && WeightIn(s, f) == WeightIn(t, f);
    }
  }

  lemma StratumOkStable(rules: seq<Rule>, ground: Store, s: Store, t: Store, H: set<string>)
    requires StratumOk(rules, ground, s) && SameOff(t, s, H) && Carries(t, ground)
    requires H !! HeadPredicates(rules) && H !! ReadPredicates(rules)
    ensures StratumOk(rules, ground, t)
  {
    FactsAre(s);
    FactsAre(t);
    RestsStable(rules, ground, s, t, H);
    LeastLocal(rules, Facts(ground), Facts(ground), Facts(s), Facts(t));
    if NonRecursive(rules) {
      ExactSameReads(rules, ground, Facts(s), Facts(t), s);
      forall f: Fact | f.pred in HeadPredicates(rules) ensures ExactWeight(rules, ground, Facts(t), t, f) {
        assert ExactWeight(rules, ground, Facts(t), s, f);
      }
    }
  }

  lemma StratumLeftStable(rules: seq<Rule>, ground0: Store, ground: Store, s1: Store, s: Store, t: Store, H: set<string>)
    requires StratumLeft(rules, ground0, ground, s1, s) && SameOff(t, s, H) && Carries(t, ground)
    requires H !! HeadPredicates(rules) && H !! ReadPredicates(rules)
    ensures StratumLeft(rules, ground0, ground, s1, t)
  {
    FactsAre(s);
    FactsAre(t);
    RestsStable(rules, ground, s, t, H);
    assert Held(rules, ground0, ground, s1, s) == Held(rules, ground0, ground, s1, t);
    var G := Facts(ground) + Held(rules, ground0, ground, s1, s);
    LeastLocal(rules, G, G, Facts(s), Facts(t));
    if NonRecursive(rules) {
      StratumOkStable(rules, ground, s, t, H);
    }
  }

  lemma CutOffStable(rules: seq<Rule>, ground0: Store, ground: Store, s1: Store, s: Store, t: Store, H: set<string>)
    requires SafeProgram(rules) && CutOff(rules, ground0, ground, s1, s) && SameOff(t, s, H)
    requires H !! HeadPredicates(rules) && H !! ReadPredicates(rules)
    ensures CutOff(rules, ground0, ground, s1, t)
  {
    FactsAre(s);
    FactsAre(t);
    var G, L := Facts(ground), Facts(ground) + Held(rules, ground0, ground, s1, s1);
    if TakesMoreThan(rules, G, Facts(s), MAX_ITERATIONS) {
      TakesMoreThanLocal(rules, G, G, Facts(s), Facts(t), MAX_ITERATIONS);
    } else {
      TakesMoreThanLocal(rules, L, L, Facts(s), Facts(t), MAX_ITERATIONS);
    }
  }

  lemma LosesLocal(rules: seq<Rule>, O: Interpretation, N: Interpretation, N': Interpretation)
    requires AgreeOn(N, N', ReadPredicates(rules))
    ensures LosesBetween(rules, O, N) <==> LosesBetween(rules, O, N')
  {
    forall r, i | 0 <= r < |rules| && 0 <= i < |rules[r].body|
      ensures ElementLoses(rules[r].body[i], O, N) <==> ElementLoses(rules[r].body[i], O, N')
    {
      if rules[r].body[i].ReadsRelation() {
        ReadsPredicate(rules, r, i);
      }
    }
  }

  lemma FiresLocal(rules: seq<Rule>, O: Interpretation, s1: Store, s: Store, t: Store)
    requires AgreeOn(Graft(rules, Facts(s), Facts(s1)), Graft(rules, Facts(t), Facts(s1)), ReadPredicates(rules))
    ensures Fires(rules, O, s1, s) <==> Fires(rules, O, s1, t)
  {
    LosesLocal(rules, O, Graft(rules, Facts(s), Facts(s1)), Graft(rules, Facts(t), Facts(s1)));
  }

  lemma StratumToldStable(rules: seq<Rule>, ground0: Store, ground: Store, O: Interpretation, s1: Store, s: Store, t: Store, H: set<string>)
    requires StratumTold(rules, ground0, ground, O, s1, s) && SameOff(t, s, H) && Carries(t, ground)
    requires H !! HeadPredicates(rules) && H !! ReadPredicates(rules)
    ensures StratumTold(rules, ground0, ground, O, s1, t)
  {
    FactsAre(s);
    FactsAre(t);
    FiresLocal(rules, O, s1, s, t);
    if StratumOk(rules, ground, s) {
      StratumOkStable(rules, ground, s, t, H);
    }
  }

  /** Exact weights make the present heads the least model. */
  lemma ExactIsLeast(rules: seq<Rule>, ground: Store, s: Store)
    requires NonRecursive(rules) && NoNegativeWeight(ground) && ExactWeights(rules, ground, Facts(s), s)
    ensures Least(rules, Facts(ground), Facts(s))
  {
    var I := Facts(s);
    FactsAre(s);
    FactsAre(ground);
    forall f: Fact | f.pred in HeadPredicates(rules) ensures f in I <==> f in Facts(ground) || Derives(rules, I, f) {
      assert ExactWeight(rules, ground, I, s, f);
      DerivesIsCounted(rules, I, f);
    }
    forall f | Derives(rules, I, f) ensures f in I {
      DerivedIsHead(rules, I, f);
    }
    forall J: Interpretation | ModelOver(rules, Facts(ground), I, J) ensures I <= J {
      SameReadsGrow(rules, I, J);
      forall f | f in I ensures f in J {
        if Derives(rules, I, f) {
          DerivesGrows(rules, I, J, f);
        }
      }
    }
  }

  // ---------------------------------------------------------------------
  // Ground deltas
  // ---------------------------------------------------------------------

  /** The heads' weights and their ground part have moved by the same amounts. */
  ghost predicate GroundMoved(rules: seq<Rule>, ground0: Store, ground: Store, s0: Store, s: Store) {
    forall f: Fact :: f.pred in HeadPredicates(rules) ==> WeightIn(s, f) - WeightIn(s0, f) == WeightIn(ground, f) - WeightIn(ground0, f)
  }

  lemma ExactMoves(rules: seq<Rule>, ground0: Store, ground: Store, I: Interpretation, s0: Store, s: Store)
    requires ExactWeights(rules, ground0, I, s0) && GroundMoved(rules, ground0, ground, s0, s)
    ensures ExactWeights(rules, ground, I, s)
  {
    forall f: Fact | f.pred in HeadPredicates(rules) ensures ExactWeight(rules, ground, I, s, f) {
      assert ExactWeight(rules, ground0, I, s0, f);
    }
  }

  /** The heads after a ground delta, in terms of the old facts: what was derived
      still weighs more than its ground part, and nothing else is new. */
  lemma MovedHeads(rules: seq<Rule>, ground0: Store, ground: Store, s0: Store, s: Store)
    requires Carries(s0, ground0) && Carries(s, ground)
    requires StratumOk(rules, ground0, s0) && GroundMoved(rules, ground0, ground, s0, s)
    ensures forall f :: Derives(rules, Facts(s0), f) ==> WeightIn(s, f) > WeightIn(ground, f)
    ensures forall f: Fact :: f.pred in HeadPredicates(rules) && f in Facts(s) ==> f in Facts(s0) || f in Facts(ground)
  {
    FactsAre(ground);
    FactsAre(s0);
    FactsAre(s);
    forall f | Derives(rules, Facts(s0), f) ensures WeightIn(s, f) > WeightIn(ground, f) {
      DerivedIsHead(rules, Facts(s0), f);
      assert f in Above(ground0, s0);
    }
  }

  /** A stratum in order before the step is ready when its turn comes. */
  lemma ReadyWhenReached(rules: seq<Rule>, ground0: Store, ground: Store, s0: Store, s: Store, inputDelta: Store)
    requires Carries(s0, ground0) && Carries(s, ground)
    requires StratumOk(rules, ground0, s0) && GroundMoved(rules, ground0, ground, s0, s)
    requires InputFlips(inputDelta, Facts(s0), Facts(s))
    ensures StratumReady(rules, ground0, ground, Facts(s0), s, inputDelta)
  {
    MovedHeads(rules, ground0, ground, s0, s);
    if NonRecursive(rules) {
      ExactMoves(rules, ground0, ground, Facts(s0), s0, s);
    }
  }

  /** A stratum none of whose inputs changed needs no evaluation: it is as an
      evaluation would leave it. */
  lemma UnaffectedLeft(rules: seq<Rule>, ground0: Store, ground: Store, s0: Store, s: Store)
    requires NegationsBelow(rules) && ValidStore(s) && Carries(s0, ground0) && Carries(s, ground)
    requires StratumOk(rules, ground0, s0) && GroundMoved(rules, ground0, ground, s0, s)
    requires AgreeOn(Facts(s0), Facts(s), ReadPredicates(rules))
    ensures StratumLeft(rules, ground0, ground, s, s)
  {
    var O, I := Facts(s0), Facts(s);
    FactsAre(s);
    FactsAre(ground);
    AboveIs(ground, s);
    MovedHeads(rules, ground0, ground, s0, s);
    SameReadsGrow(rules, O, I);
    forall f | Derives(rules, I, f) ensures f in Above(ground, s) {
      DerivesGrows(rules, I, O, f);
    }
    if NonRecursive(rules) {
      ExactMoves(rules, ground0, ground, O, s0, s);
      ExactSameReads(rules, ground, O, I, s);
      ExactIsLeast(rules, ground, s);
      OkIsLeft(rules, ground0, ground, s, s);
    } else {
      OldModelSupported(rules, Facts(ground0), Facts(ground) + Held(rules, ground0, ground, s, s), O, I);
    }
  }

  lemma LeftSince(rules: seq<Rule>, ground0: Store, ground: Store, s1: Store, s: Store)
    requires StratumLeft(rules, ground0, ground, s, s) && SameOn(s, s1, HeadPredicates(rules))
    ensures StratumLeft(rules, ground0, ground, s1, s)
  {
    FactsAre(s);
    FactsAre(s1);
    assert Held(rules, ground0, ground, s, s) == Held(rules, ground0, ground, s1, s);
  }

  /** And the gate would not have fired. */
  lemma UnaffectedTold(rules: seq<Rule>, ground0: Store, ground: Store, s0: Store, s1: Store, s: Store)
    requires AgreeOn(Facts(s0), Facts(s), ReadPredicates(rules)) && SameOn(s, s1, HeadPredicates(rules))
    ensures StratumTold(rules, ground0, ground, Facts(s0), s1, s)
  {
    FactsAre(s);
    FactsAre(s1);
    assert Graft(rules, Facts(s), Facts(s1)) == Facts(s);
    LosesLocal(rules, Facts(s0), Facts(s), Facts(s0));
    assert !LosesBetween(rules, Facts(s0), Facts(s0));
  }

  // ---------------------------------------------------------------------
  // The state of a step
  // ---------------------------------------------------------------------

  /** Part of the way through a step. `s0` and `ground0` are the database and the
      ground parts before it, `s1` and `ground` after the ground delta; `s` is
      the database now, with the strata in `done` evaluated. */
  datatype StepContext = StepContext(strata: seq<Stratum>, rules: seq<Rule>, ground0: Store, ground: Store, s0: Store, s1: Store)
  {
    /** What holds throughout the step. */
    ghost predicate Ok() {
      && SafeProgram(rules) && Stratified(strata, rules)
      && Carries(s0, ground0) && Carries(s1, ground)
      && (forall k :: 0 <= k < |strata| ==> StratumOk(strata[k].rules, ground0, s0))
      && (forall k :: 0 <= k < |strata| ==> GroundMoved(strata[k].rules, ground0, ground, s0, s1))
    }

    /** Stratum `k` as the step leaves it. */
    ghost predicate Left(k: nat, s: Store)
      requires k < |strata|
    {
      && StratumLeft(strata[k].rules, ground0, ground, s1, s)
      && StratumTold(strata[k].rules, ground0, ground, Facts(s0), s1, s)
    }

    /** Stratum `k` was cut off at the iteration cap. */
    ghost predicate Cut(k: nat, s: Store)
      requires k < |strata|
    {
      CutOff(strata[k].rules, ground0, ground, s1, s)
    }
  }

  ghost predicate StepState(c: StepContext, s: Store, inputDelta: Store, outputDelta: Store, done: set<nat>, exhausted: bool) {
    && ValidStore(s) && Carries(s, c.ground) && ValidStore(inputDelta) && ValidStore(outputDelta)
    && InputFlips(inputDelta, Facts(c.s0), Facts(s))
    && FlipsBetween(outputDelta, c.s1, s)
    && (forall f: Fact :: f.pred !in HeadPredicates(c.rules) ==> WeightIn(s, f) == WeightIn(c.s1, f))
    && (forall k :: 0 <= k < |c.strata| && k !in done ==> SameOn(s, c.s1, HeadPredicates(c.strata[k].rules)))
    && (exhausted ==> forall k :: 0 <= k < |c.strata| && k in done ==> c.Left(k, s))
    && (!exhausted ==> exists k :: 0 <= k < |c.strata| && k in done && c.Cut(k, s))
  }

  lemma MovedNow(c: StepContext, s: Store, k: nat)
    requires c.Ok() && k < |c.strata| && SameOn(s, c.s1, HeadPredicates(c.strata[k].rules))
    ensures GroundMoved(c.strata[k].rules, c.ground0, c.ground, c.s0, s)
  {
    assert GroundMoved(c.strata[k].rules, c.ground0, c.ground, c.s0, c.s1);
  }

  /** Evaluating stratum `k` leaves the ones still to do as they were. */
  lemma UndoneStay(c: StepContext, s: Store, t: Store, done: set<nat>, k: nat)
    requires c.Ok() && k < |c.strata| && SameOff(t, s, HeadPredicates(c.strata[k].rules))
    requires forall m :: 0 <= m < |c.strata| && m !in done ==> SameOn(s, c.s1, HeadPredicates(c.strata[m].rules))
    requires forall f: Fact :: f.pred !in HeadPredicates(c.rules) ==> WeightIn(s, f) == WeightIn(c.s1, f)
    ensures forall m :: 0 <= m < |c.strata| && m !in done + {k} ==> SameOn(t, c.s1, HeadPredicates(c.strata[m].rules))
    ensures forall f: Fact :: f.pred !in HeadPredicates(c.rules) ==> WeightIn(t, f) == WeightIn(c.s1, f)
  {
    HeadsOfStratum(c.strata, c.rules, k);
    forall m | 0 <= m < |c.strata| && m !in done + {k} ensures SameOn(t, c.s1, HeadPredicates(c.strata[m].rules)) {
      StrataDisjoint(c.strata, c.rules, k, m);
      assert SameOn(s, c.s1, HeadPredicates(c.strata[m].rules));
    }
  }

  /** It leaves the lower ones, which do not read it, as they are. */
  lemma DoneStay(c: StepContext, s: Store, t: Store, m: nat, k: nat)
    requires c.Ok() && m < k < |c.strata| && SameOff(t, s, HeadPredicates(c.strata[k].rules)) && Carries(t, c.ground)
    ensures c.Left(m, s) ==> c.Left(m, t)
    ensures c.Cut(m, s) ==> c.Cut(m, t)
  {
    var rules, H := c.strata[m].rules, HeadPredicates(c.strata[k].rules);
    StrataDisjoint(c.strata, c.rules, m, k);
    HigherNotRead(c.strata, c.rules, m, k);
    if c.Left(m, s) {
      StratumLeftStable(rules, c.ground0, c.ground, c.s1, s, t, H);
      StratumToldStable(rules, c.ground0, c.ground, Facts(c.s0), c.s1, s, t, H);
    }
    if c.Cut(m, s) {
      SafeStratum(c.strata, c.rules, m);
      CutOffStable(rules, c.ground0, c.ground, c.s1, s, t, H);
    }
  }

  /** Evaluating stratum `k` after lower ones keeps the state of the step. */
  lemma StratumDone(c: StepContext, s: Store, t: Store, inputDelta: Store, inputDelta': Store, outputDelta: Store, outputDelta': Store,
                    delta: Store, done: set<nat>, k: nat, exhausted: bool, exhaustedNow: bool)
    requires c.Ok() && k < |c.strata| && forall m :: m in done ==> m < k
    requires StepState(c, s, inputDelta, outputDelta, done, exhausted)
    requires Carried(c.strata[k].rules, c.ground0, c.ground, Facts(c.s0), c.s1, s, t, delta, exhaustedNow)
    requires ValidStore(inputDelta') && ValidStore(outputDelta')
    requires forall f :: WeightIn(inputDelta', f) == WeightIn(inputDelta, f) + WeightIn(delta, f)
    requires forall f :: WeightIn(outputDelta', f) == WeightIn(outputDelta, f) + WeightIn(delta, f)
    ensures StepState(c, t, inputDelta', outputDelta', done + {k}, exhausted && exhaustedNow)
  {
    forall p ensures Flips(Get(inputDelta', p), Facts(c.s0), Facts(t), p) {
      FlipsChain(c, s, t, inputDelta, inputDelta', delta, p);
    }
    FlipsCompose(outputDelta, delta, outputDelta', c.s1, s, t);
    UndoneStay(c, s, t, done, k);
    DoneResult(c, s, t, done, k, exhausted, exhaustedNow);
  }

  lemma DoneResult(c: StepContext, s: Store, t: Store, done: set<nat>, k: nat, exhausted: bool, exhaustedNow: bool)
    requires c.Ok() && k < |c.strata| && forall m :: m in done ==> m < k
    requires SameOff(t, s, HeadPredicates(c.strata[k].rules)) && Carries(t, c.ground)
    requires exhausted ==> forall m :: 0 <= m < |c.strata| && m in done ==> c.Left(m, s)
    requires !exhausted ==> exists m :: 0 <= m < |c.strata| && m in done && c.Cut(m, s)
    requires exhaustedNow ==> c.Left(k, t)
    requires !exhaustedNow ==> c.Cut(k, t)
    ensures exhausted && exhaustedNow ==> forall m :: 0 <= m < |c.strata| && m in done + {k} ==> c.Left(m, t)
    ensures !(exhausted && exhaustedNow) ==> exists m :: 0 <= m < |c.strata| && m in done + {k} && c.Cut(m, t)
  {
    forall m | m in done && m < |c.strata|
      ensures c.Left(m, s) ==> c.Left(m, t)
      ensures c.Cut(m, s) ==> c.Cut(m, t)
    {
      DoneStay(c, s, t, m, k);
    }
    if !exhausted {
      var m :| 0 <= m < |c.strata| && m in done && c.Cut(m, s);
      assert m in done + {k} && c.Cut(m, t);
    } else if !exhaustedNow {
      assert k in done + {k};
    }
  }

  lemma FlipsChain(c: StepContext, s: Store, t: Store, inputDelta: Store, inputDelta': Store, delta: Store, p: string)
    requires InputFlips(inputDelta, Facts(c.s0), Facts(s)) && FlipsBetween(delta, s, t) && ValidStore(inputDelta')
    requires forall f :: WeightIn(inputDelta', f) == WeightIn(inputDelta, f) + WeightIn(delta, f)
    ensures Flips(Get(inputDelta', p), Facts(c.s0), Facts(t), p)
  {
    FactsAre(s);
    FactsAre(t);
    assert Flips(Get(inputDelta, p), Facts(c.s0), Facts(s), p);
    forall u ensures Get(inputDelta', p).WeightOf(u) == Presence(Facts(t), Fact(p, u)) - Presence(Facts(c.s0), Fact(p, u)) {
      assert WeightIn(inputDelta', Fact(p, u)) == WeightIn(inputDelta, Fact(p, u)) + WeightIn(delta, Fact(p, u));
      assert WeightIn(inputDelta, Fact(p, u)) == Get(inputDelta, p).WeightOf(u);
    }
  }

  /** When every affected stratum is done, all strata are as a step leaves them. */
  lemma AllStrataLeft(c: StepContext, s: Store, inputDelta: Store, outputDelta: Store, changed: set<string>, done: set<nat>)
    requires c.Ok() && StepState(c, s, inputDelta, outputDelta, done, true)
    requires ClosedUnderReads(c.strata, changed, done)
    requires forall f: Fact :: Sign(WeightIn(c.s1, f)) != Sign(WeightIn(c.s0, f)) ==> f.pred in changed
    ensures forall k :: 0 <= k < |c.strata| ==> c.Left(k, s)
  {
    hide StratumLeft, StratumTold, Stratified;
    forall k | 0 <= k < |c.strata| && k !in done ensures c.Left(k, s) {
      var own := c.strata[k].rules;
      FactsAre(c.s0);
      FactsAre(c.s1);
      FactsAre(s);
      forall f: Fact | f.pred in ReadPredicates(own) ensures f in Facts(c.s0) <==> f in Facts(s) {
        assert f.pred !in changed && !HeadOfMember(c.strata, done, f.pred);
        UnchangedPredicate(c, s, inputDelta, outputDelta, done, f);
      }
      MovedNow(c, s, k);
      StratumNegations(c.strata, c.rules, k);
      UnaffectedLeft(own, c.ground0, c.ground, c.s0, s);
      LeftSince(own, c.ground0, c.ground, c.s1, s);
      UnaffectedTold(own, c.ground0, c.ground, c.s0, c.s1, s);
    }
  }

  lemma UnchangedPredicate(c: StepContext, s: Store, inputDelta: Store, outputDelta: Store, done: set<nat>, f: Fact)
    requires c.Ok() && StepState(c, s, inputDelta, outputDelta, done, true)
    requires !HeadOfMember(c.strata, done, f.pred)
    ensures WeightIn(s, f) == WeightIn(c.s1, f)
  {
    if f.pred in HeadPredicates(c.rules) {
      var m := StratumOfPredicate(c.strata, c.rules, f.pred);
      assert m !in done;
      assert SameOn(s, c.s1, HeadPredicates(c.strata[m].rules));
    }
  }

  lemma EmptyStratumCarried(ground0: Store, ground: Store, O: Interpretation, s1: Store, s: Store, delta: Store)
    requires ValidStore(s) && ValidStore(delta) && Carries(s, ground) && forall f :: WeightIn(delta, f) == 0
    ensures Carried([], ground0, ground, O, s1, s, s, delta, true)
  {
    forall J: Interpretation | ModelOver([], Facts(ground), Facts(s), J) ensures Facts(s) <= J {
    }
    OkIsLeft([], ground0, ground, s1, s);
  }

  // ---------------------------------------------------------------------
  // What a step leaves
  // ---------------------------------------------------------------------

  /** Every fact that lost its ground part and stayed follows from what is left. */
  ghost predicate HeldFactsFollow(c: StepContext, s: Store) {
    forall k, f :: 0 <= k < |c.strata| && !NonRecursive(c.strata[k].rules) && f in Held(c.strata[k].rules, c.ground0, c.ground, c.s1, s) ==>
      Entailed(c.strata[k].rules, Facts(c.ground), Facts(s), f)
  }

  /** A step leaves all strata in order exactly when they do. */
  lemma InOrderIffHeldFollow(c: StepContext, s: Store)
    requires forall k :: 0 <= k < |c.strata| ==> c.Left(k, s)
    ensures HeldFactsFollow(c, s) <==> forall k :: 0 <= k < |c.strata| ==> StratumOk(c.strata[k].rules, c.ground, s)
    ensures HeldFactsFollow(c, s) <==> forall k :: 0 <= k < |c.strata| ==> Least(c.strata[k].rules, Facts(c.ground), Facts(s))
  {
    forall k | 0 <= k < |c.strata|
      ensures StratumOk(c.strata[k].rules, c.ground, s) <==> Least(c.strata[k].rules, Facts(c.ground), Facts(s))
      ensures StratumOk(c.strata[k].rules, c.ground, s) <==>
        NonRecursive(c.strata[k].rules)
        || forall f :: f in Held(c.strata[k].rules, c.ground0, c.ground, c.s1, s) ==> Entailed(c.strata[k].rules, Facts(c.ground), Facts(s), f)
    {
      assert c.Left(k, s);
      LeftIsOk(c.strata[k].rules, c.ground0, c.ground, c.s1, s);
    }
  }

  // ---------------------------------------------------------------------
  // What can be told before the step
  // ---------------------------------------------------------------------

  /** Stratum `k` ends in order, in words of the perfect model `M` the step should
      end at: each fact that lost its ground part and stayed right after the ground
      delta is in it, or what the stratum reads loses something on the way there. */
  ghost predicate Foreseen(c: StepContext, M: Interpretation, k: nat)
    requires k < |c.strata|
  {
    var own := c.strata[k].rules;
    || NonRecursive(own)
    || Held(own, c.ground0, c.ground, c.s1, c.s1) <= M
    || LosesBetween(own, Facts(c.s0), Graft(own, M, Facts(c.s1)))
  }

  /** `M` is the perfect model over the ground facts of the step. */
  ghost predicate Goal(c: StepContext, M: Interpretation) {
    && (forall f: Fact :: f.pred !in HeadPredicates(c.rules) ==> (f in M <==> f in Facts(c.s1)))
    && forall k :: 0 <= k < |c.strata| ==> Least(c.strata[k].rules, Facts(c.ground), M)
  }

  /** The strata are as the step leaves them, and what no rule derives is as the
      ground delta left it. */
  ghost predicate Ended(c: StepContext, s: Store) {
    && (forall f: Fact :: f.pred !in HeadPredicates(c.rules) ==> WeightIn(s, f) == WeightIn(c.s1, f))
    && forall k :: 0 <= k < |c.strata| ==> c.Left(k, s)
  }

  /** Where the strata below are right the gate fires as foreseen. */
  lemma FiresAsForeseen(c: StepContext, s: Store, M: Interpretation, k: nat)
    requires c.Ok() && k < |c.strata| && AgreeBelow(c.strata, c.rules, k, Facts(s), M)
    ensures var own := c.strata[k].rules;
      LosesBetween(own, Facts(c.s0), Graft(own, Facts(s), Facts(c.s1))) <==> LosesBetween(own, Facts(c.s0), Graft(own, M, Facts(c.s1)))
  {
    var own := c.strata[k].rules;
    AgreedReads(c.strata, c.rules, k, Facts(s), M);
    LosesLocal(own, Facts(c.s0), Graft(own, Facts(s), Facts(c.s1)), Graft(own, M, Facts(c.s1)));
  }

  /** Two models of a stratum over the same inputs, one least over more ground
      facts, which the other holds: they have the same heads. */
  lemma SameHeads(c: StepContext, k: nat, G: Interpretation, L: Interpretation, I: Interpretation, M: Interpretation)
    requires c.Ok() && k < |c.strata| && AgreeBelow(c.strata, c.rules, k, I, M)
    requires Least(c.strata[k].rules, G + L, I) && Least(c.strata[k].rules, G, M) && L <= M
    ensures AgreeOn(I, M, HeadPredicates(c.strata[k].rules)) && Least(c.strata[k].rules, G, I)
  {
    var own := c.strata[k].rules;
    AgreedReads(c.strata, c.rules, k, I, M);
    GraftIsModel(c.strata, c.rules, k, G + L, I, M);
    GraftIsModel(c.strata, c.rules, k, G, M, I);
    assert I <= Graft(own, I, M) && M <= Graft(own, M, I);
    LeastLocal(own, G, G, M, I);
  }

  /** One stratum up: foreseen, it ends at the perfect model. */
  lemma ForeseenStratum(c: StepContext, s: Store, M: Interpretation, k: nat)
    requires c.Ok() && Ended(c, s) && Goal(c, M) && k < |c.strata| && Foreseen(c, M, k)
    requires AgreeBelow(c.strata, c.rules, k, Facts(s), M)
    ensures AgreeOn(Facts(s), M, HeadPredicates(c.strata[k].rules)) && Least(c.strata[k].rules, Facts(c.ground), Facts(s))
  {
    var own, none: Interpretation := c.strata[k].rules, {};
    var G, held := Facts(c.ground), Held(own, c.ground0, c.ground, c.s1, s);
    assert c.Left(k, s) && G + none == G;
    FiresAsForeseen(c, s, M, k);
    if NonRecursive(own) || Fires(own, Facts(c.s0), c.s1, s) {
      SameHeads(c, k, G, none, Facts(s), M);
    } else {
      FactsAre(c.s1);
      assert held <= Held(own, c.ground0, c.ground, c.s1, c.s1);
      SameHeads(c, k, G, held, Facts(s), M);
    }
  }

  lemma {:induction false} ForeseenBelow(c: StepContext, s: Store, M: Interpretation, k: nat)
    requires c.Ok() && Ended(c, s) && Goal(c, M) && k <= |c.strata|
    requires forall m :: 0 <= m < k ==> Foreseen(c, M, m)
    ensures AgreeBelow(c.strata, c.rules, k, Facts(s), M)
    ensures forall m :: 0 <= m < k ==> Least(c.strata[m].rules, Facts(c.ground), Facts(s))
  {
    hide Foreseen, Ended, Goal, Least;
    if k == 0 {
      UnderivedAgree(c, s, M);
    } else {
      ForeseenBelow(c, s, M, k - 1);
      ForeseenStratum(c, s, M, k - 1);
    }
  }

  lemma UnderivedAgree(c: StepContext, s: Store, M: Interpretation)
    requires Ended(c, s) && Goal(c, M)
    ensures AgreeBelow(c.strata, c.rules, 0, Facts(s), M)
  {
    FactsAre(s);
    FactsAre(c.s1);
  }

  /** A stratum that ended at the perfect model was foreseen to. */
  lemma PerfectWasForeseen(c: StepContext, s: Store, M: Interpretation, k: nat)
    requires c.Ok() && Ended(c, s) && k < |c.strata| && Facts(s) == M
    ensures Foreseen(c, M, k)
  {
    assert c.Left(k, s);
  }

  lemma EndedAtGoal(c: StepContext, s: Store, M: Interpretation)
    requires c.Ok() && Ended(c, s) && Goal(c, M)
    requires forall k :: 0 <= k < |c.strata| ==> Least(c.strata[k].rules, Facts(c.ground), Facts(s))
    ensures Facts(s) == M
  {
    FactsAre(s);
    FactsAre(c.s1);
    GoalBelow(c, Facts(s), M, |c.strata|);
    forall f: Fact ensures f in Facts(s) <==> f in M {
      if f.pred in HeadPredicates(c.rules) {
        var k := StratumOfPredicate(c.strata, c.rules, f.pred);
      }
    }
  }

  /** The strata end at their least models exactly when each was foreseen to. */
  lemma InOrderIffForeseen(c: StepContext, s: Store, M: Interpretation)
    requires c.Ok() && Ended(c, s) && Goal(c, M)
    ensures (forall k :: 0 <= k < |c.strata| ==> Least(c.strata[k].rules, Facts(c.ground), Facts(s)))
      <==> forall k :: 0 <= k < |c.strata| ==> Foreseen(c, M, k)
  {
    if forall k :: 0 <= k < |c.strata| ==> Foreseen(c, M, k) {
      ForeseenBelow(c, s, M, |c.strata|);
    }
    if forall k :: 0 <= k < |c.strata| ==> Least(c.strata[k].rules, Facts(c.ground), Facts(s)) {
      EndedAtGoal(c, s, M);
      forall k | 0 <= k < |c.strata| ensures Foreseen(c, M, k) {
        PerfectWasForeseen(c, s, M, k);
      }
    }
  }

  lemma {:induction false} GoalBelow(c: StepContext, I: Interpretation, M: Interpretation, k: nat)
    requires c.Ok() && k <= |c.strata| && Goal(c, M)
    requires forall f: Fact :: f.pred !in HeadPredicates(c.rules) ==> (f in I <==> f in M)
    requires forall m :: 0 <= m < |c.strata| ==> Least(c.strata[m].rules, Facts(c.ground), I)
    ensures AgreeBelow(c.strata, c.rules, k, I, M)
  {
    hide Least;
    if k > 0 {
      GoalBelow(c, I, M, k - 1);
      var none: Interpretation := {};
      assert Facts(c.ground) + none == Facts(c.ground);
      SameHeads(c, k - 1, Facts(c.ground), none, I, M);
    }
  }
}
