/** The long-lived evaluator: ground facts go in as deltas, and a step ends at the
    perfect model of the rules over the net ground facts exactly when that can be
    told beforehand (packages/datalog/src/evaluator.ts, `createEvaluator`). */
module Evaluators {
  import opened Prelude
  import opened Values
  import opened Syntax
  import opened Databases
  import opened Evaluate
  import opened Semantics
  import opened Models
  import opened Stages
  import opened Deltas
  import opened SemiNaive
  import opened StratumUpdate
  import opened Programs
  import opened Affected
  import opened StepTheory
  import opened Arity
  import opened Stratification
  import opened Naive

  datatype ArityMismatch = ArityMismatch(pred: string, found: nat, expected: nat)

  /** The ground facts present after a history of ground deltas. */
  ghost function NetGround(history: seq<WeightedFact>): Interpretation {
    set f | f in FactsOf(history) && ListWeight(history, f) > 0
  }

  lemma NetGroundIs(history: seq<WeightedFact>)
    ensures forall f :: f in NetGround(history) <==> ListWeight(history, f) > 0
  {
    forall f | ListWeight(history, f) > 0 ensures f in FactsOf(history) {
      if f !in FactsOf(history) {
        forall i | 0 <= i < |history| ensures history[i].fact != f {
          assert history[i].fact in FactsOf(history);
        }
        ListWeightAbsent(history, f);
      }
    }
  }

  ghost predicate NoNegativeGround(history: seq<WeightedFact>) {
    forall f :: ListWeight(history, f) >= 0
  }

  /** Some stratum that reads its own heads derives `p`. */
  ghost predicate DerivedRecursively(strata: seq<Stratum>, p: string) {
    exists k :: 0 <= k < |strata| && !NonRecursive(strata[k].rules) && p in HeadPredicates(strata[k].rules)
  }

  /** The heads a ground delta left without their ground part, though present:
      after the delta their weight was still above zero, and they are in `s`. */
  ghost function HeldFacts(rules: seq<Rule>, history: seq<WeightedFact>, delta: seq<WeightedFact>, s0: Store, s: Store): Interpretation {
    set f | f in Facts(s) && f.pred in HeadPredicates(rules)
      && ListWeight(history, f) > 0 && ListWeight(history + delta, f) <= 0 && WeightIn(s0, f) + ListWeight(delta, f) > 0
  }

  /** What a step cannot see for itself: in a recursive stratum, every such fact
      follows from the facts that are left. */
  ghost predicate RetractionsFollow(strata: seq<Stratum>, history: seq<WeightedFact>, delta: seq<WeightedFact>, s0: Store, s: Store) {
    forall k, f :: 0 <= k < |strata| && !NonRecursive(strata[k].rules) && f in HeldFacts(strata[k].rules, history, delta, s0, s) ==>
      Entailed(strata[k].rules, NetGround(history + delta), Facts(s), f)
  }

  /** The facts that lose their ground part to the delta, but stay present right
      after it. */
  ghost function Ungrounded(history: seq<WeightedFact>, delta: seq<WeightedFact>, s0: Store): Interpretation {
    set f | f in FactsOf(history)
      && ListWeight(history, f) > 0 && ListWeight(history + delta, f) <= 0 && WeightIn(s0, f) + ListWeight(delta, f) > 0
  }

  lemma UngroundedAre(history: seq<WeightedFact>, delta: seq<WeightedFact>, s0: Store)
    ensures forall f :: f in Ungrounded(history, delta, s0) <==>
      ListWeight(history, f) > 0 && ListWeight(history + delta, f) <= 0 && WeightIn(s0, f) + ListWeight(delta, f) > 0
  {
    NetGroundIs(history);
  }

  /** The rules meet a loss: of a fact they read, or of the absence of one they
      negate, going from the facts in `s0` to `M`, and for their own heads to what
      is present right after the delta. */
  ghost predicate MeetsLoss(rules: seq<Rule>, s0: Store, delta: seq<WeightedFact>, M: Interpretation) {
    exists r, i :: 0 <= r < |rules| && 0 <= i < |rules[r].body| && LosesAt(rules, rules[r].body[i], s0, delta, M)
  }

  ghost predicate LosesAt(rules: seq<Rule>, el: Element, s0: Store, delta: seq<WeightedFact>, M: Interpretation) {
    || (el.Positive? && exists t :: WeightIn(s0, Fact(el.atom.pred, t)) > 0 && !Comes(rules, Fact(el.atom.pred, t), s0, delta, M))
    || (el.Negation? && exists t :: WeightIn(s0, Fact(el.atom.pred, t)) <= 0 && Comes(rules, Fact(el.atom.pred, t), s0, delta, M))
  }

  ghost predicate Comes(rules: seq<Rule>, f: Fact, s0: Store, delta: seq<WeightedFact>, M: Interpretation) {
    if f.pred in HeadPredicates(rules) then WeightIn(s0, f) + ListWeight(delta, f) > 0 else f in M
  }

  /** Before the step, in words of the perfect model `M` over the new ground facts:
      in every recursive stratum each fact that loses its ground part and stays is
      in `M`, or the stratum meets a loss and is recomputed. */
  ghost predicate RetractionsSeen(strata: seq<Stratum>, history: seq<WeightedFact>, delta: seq<WeightedFact>, s0: Store, M: Interpretation) {
    forall k :: 0 <= k < |strata| ==> RetractionsSeenIn(strata[k].rules, history, delta, s0, M)
  }

  ghost predicate RetractionsSeenIn(rules: seq<Rule>, history: seq<WeightedFact>, delta: seq<WeightedFact>, s0: Store, M: Interpretation) {
    || NonRecursive(rules)
    || (forall f :: f in Ungrounded(history, delta, s0) && f.pred in HeadPredicates(rules) ==> f in M)
    || MeetsLoss(rules, s0, delta, M)
  }

  /** Enough for that without the new model: a recursively derived fact that loses
      the last of its ground weight weighs no more than that. */
  ghost predicate RetractionsVanish(strata: seq<Stratum>, history: seq<WeightedFact>, delta: seq<WeightedFact>, s0: Store) {
    forall f: Fact :: DerivedRecursively(strata, f.pred) ==> f !in Ungrounded(history, delta, s0)
  }

  /** Some stratum needs more rounds of consequences than the iteration cap. */
  ghost predicate TakesTooLong(strata: seq<Stratum>, G: Interpretation, I: Interpretation) {
    exists k :: 0 <= k < |strata| && TakesMoreThan(strata[k].rules, G, I, MAX_ITERATIONS)
  }

  /** The same after a step, from the ground facts alone or together with those the
      delta took away and left present. */
  ghost predicate StepTakesTooLong(strata: seq<Stratum>, history: seq<WeightedFact>, delta: seq<WeightedFact>, s0: Store, I: Interpretation) {
    || TakesTooLong(strata, NetGround(history + delta), I)
    || TakesTooLong(strata, NetGround(history + delta) + Ungrounded(history, delta, s0), I)
  }

  /** Strata that read none of their heads never take too long. */
  lemma NonRecursiveIsShort(strata: seq<Stratum>, rules: seq<Rule>, G: Interpretation, I: Interpretation)
    requires Stratified(strata, rules) && SafeProgram(rules)
    requires TakesTooLong(strata, G, I)
    ensures exists k :: 0 <= k < |strata| && !NonRecursive(strata[k].rules)
  {
    var k :| 0 <= k < |strata| && TakesMoreThan(strata[k].rules, G, I, MAX_ITERATIONS);
    SafeStratum(strata, rules, k);
    StratumNegations(strata, rules, k);
    if NonRecursive(strata[k].rules) {
      NonRecursiveTakesOne(strata[k].rules, G, I, MAX_ITERATIONS);
    }
  }

  /** No entry of the delta, added up in order, makes a fact appear or disappear. */
  ghost predicate FlipsNothing(s0: Store, delta: seq<WeightedFact>) {
    forall i, f :: 0 <= i <= |delta| ==> Sign(WeightIn(s0, f) + ListWeight(delta[..i], f)) == Sign(WeightIn(s0, f))
  }

  class Evaluator {
    const rules: seq<Rule>
    const strata: seq<Stratum>
    const readers: ReaderMap
    const arityOf: map<string, nat>
    const derived: set<string>
    const db: Database
    const groundInDerived: Database
    /** Every ground delta applied so far. */
    ghost var history: seq<WeightedFact>

    /** What does not change after construction. */
    ghost predicate Program() {
      && SafeProgram(rules) && Stratified(strata, rules)
      && ReadersOf(readers, strata)
      && derived == HeadPredicates(rules)
      && db != groundInDerived
    }

    /** The database holds the ground facts outside the heads, the ground parts
        of the heads are tracked, and every stratum is in order. */
    ghost predicate Valid()
      reads this, db, groundInDerived
    {
      && Program()
      && InOrder(strata, rules, history, groundInDerived.rels, db.rels)
    }

    /** The facts the database holds. */
    ghost function Model(): Interpretation
      reads this, db
    {
      Facts(db.rels)
    }

    /** An evaluator over no facts: every stratum is derived once, bottom-up, so
        that what needs no facts holds from the start. */
    constructor (rules: seq<Rule>, strata: seq<Stratum>, arityOf: map<string, nat>)
      requires SafeProgram(rules) && Stratified(strata, rules)
      ensures this.rules == rules && this.strata == strata && this.arityOf == arityOf
      ensures history == [] && fresh(db) && fresh(groundInDerived) && Program()
      ensures Valid() || TakesTooLong(strata, {}, Model())
    {
      var empty := new Database();
      var emptyGround := new Database();
      var map_ := BuildReaders(strata);
      this.rules := rules;
      this.strata := strata;
      this.arityOf := arityOf;
      readers := map_;
      derived := HeadPredicates(rules);
      db := empty;
      groundInDerived := emptyGround;
      history := [];
      new;
      DeriveAll();
    }

    /** Recompute every stratum over an empty database, bottom-up. */
    method DeriveAll()
      requires Program() && history == [] && db.rels == map[] && groundInDerived.rels == map[]
      modifies db
      ensures Valid() || TakesTooLong(strata, {}, Model())
    {
      var exhausted := true;
      ghost var ground := groundInDerived.rels;
      assert forall f :: WeightIn(ground, f) == 0 && db.Weight(f) == 0;
      for k := 0 to |strata|
        invariant Building(strata, rules, ground, db.rels, k, exhausted)
      {
        ghost var was := db.rels;
        SafeStratum(strata, rules, k);
        StratumNegations(strata, rules, k);
        var delta, exhaustedNow := RecomputeStratum(strata[k].rules, db, groundInDerived);
        BuiltOne(strata, rules, ground, was, db.rels, delta.rels, k, exhausted, exhaustedNow);
        exhausted := exhausted && exhaustedNow;
      }
      assert forall f :: ListWeight([], f) == 0;
      NothingIsFact(ground);
    }

    /** Refuse a delta that carries a fact of the wrong width. Nothing has been
        written yet. */
    method CheckGroundArity(delta: seq<WeightedFact>) returns (mismatch: Option<ArityMismatch>)
      ensures mismatch.None? <==> forall i :: 0 <= i < |delta| && delta[i].fact.pred in arityOf ==> |delta[i].fact.values| == arityOf[delta[i].fact.pred]
      ensures mismatch.Some? ==> exists i :: 0 <= i < |delta| && Names(mismatch.value, delta[i].fact)
    {
      for i := 0 to |delta|
        invariant forall j :: 0 <= j < i ==> WidthOk(delta[j].fact)
      {
        var f := delta[i].fact;
        if !WidthOk(f) {
          assert Names(MismatchOf(f), delta[i].fact);
          return Some(MismatchOf(f));
        }
      }
      return None;
    }

    /** The mismatch is that of this fact. */
    predicate Names(mismatch: ArityMismatch, f: Fact) {
      && f.pred in arityOf && |f.values| != arityOf[f.pred]
      && mismatch.pred == f.pred && mismatch.found == |f.values| && mismatch.expected == arityOf[f.pred]
    }

    function MismatchOf(f: Fact): ArityMismatch
      requires !WidthOk(f)
    {
      ArityMismatch(f.pred, |f.values|, arityOf[f.pred])
    }

    /** A predicate the program does not mention is unconstrained. */
    predicate WidthOk(f: Fact) {
      f.pred in arityOf ==> |f.values| == arityOf[f.pred]
    }

    /** Add the ground facts and return the presence flips. */
    method ApplyGroundDelta(delta: seq<WeightedFact>) returns (flips: Database)
      requires db.Valid() && groundInDerived.Valid() && db != groundInDerived
      modifies db, groundInDerived
      ensures db.Valid() && groundInDerived.Valid() && fresh(flips) && flips.Valid()
      ensures forall f :: WeightIn(db.rels, f) == WeightIn(old(db.rels), f) + ListWeight(delta, f)
      ensures GroundPartMoved(derived, old(groundInDerived.rels), groundInDerived.rels, delta)
      ensures FlipsBetween(flips.rels, old(db.rels), db.rels)
      ensures FlipsNothing(old(db.rels), delta) ==> flips.rels == map[]
    {
      flips := new Database();
      ghost var start, ground0 := db.rels, groundInDerived.rels;
      assert delta[..0] == [];
      for i := 0 to |delta|
        invariant db.Valid() && groundInDerived.Valid() && flips.Valid()
        invariant GroundApplied(derived, start, ground0, db.rels, groundInDerived.rels, flips.rels, delta, i)
      {
        ghost var was, groundWas, flipsWas := db.rels, groundInDerived.rels, flips.rels;
        ApplyGroundFact(delta[i], flips, start);
        OneMoreGround(derived, start, ground0, was, groundWas, flipsWas, db.rels, groundInDerived.rels, flips.rels, delta, i);
      }
      assert delta[..|delta|] == delta;
    }

    method ApplyGroundFact(wf: WeightedFact, flips: Database, ghost start: Store)
      requires db.Valid() && groundInDerived.Valid() && flips.Valid()
      requires db != groundInDerived && flips != db && flips != groundInDerived
      requires FlipsBetween(flips.rels, start, db.rels)
      modifies db, groundInDerived, flips
      ensures db.Valid() && groundInDerived.Valid() && flips.Valid()
      ensures db.rels == AddTo(old(db.rels), wf.fact.pred, wf.fact.values, wf.weight)
      ensures groundInDerived.rels == if wf.fact.pred in derived then AddTo(old(groundInDerived.rels), wf.fact.pred, wf.fact.values, wf.weight) else old(groundInDerived.rels)
      ensures FlipsBetween(flips.rels, start, db.rels)
      ensures Sign(WeightIn(db.rels, wf.fact)) == Sign(WeightIn(old(db.rels), wf.fact)) ==> flips.rels == old(flips.rels)
    {
      var p, t := wf.fact.pred, wf.fact.values;
      var before := db.GetRelation(p).WeightOf(t);
      ghost var was, flipped := db.rels, flips.rels;
      var after := db.AddWeighted(p, t, wf.weight);
      if p in derived {
        var _ := groundInDerived.AddWeighted(p, t, wf.weight);
      }
      var change := PresenceChange(before, after);
      if change != 0 {
        var _ := flips.AddWeighted(p, t, change);
      }
      FlipsAfterFact(was, flipped, flips.rels, start, wf);
    }

    /** Apply a ground delta, and bring the affected strata up to date in order.
        A fact of the wrong width refuses the whole delta, and changes nothing.
        Otherwise, unless a stratum is cut off at the iteration cap, which takes
        that many rounds of consequences, the database ends as the perfect model
        over the new ground facts exactly when this could be told before the step:
        every recursively derived fact that loses its ground part and stays is in
        that model, or its stratum meets a loss. The same in words of the facts
        that are left: each fact that lost its ground part and stayed follows from
        them. The result is what the strata made appear and disappear. */
    method Step(delta: seq<WeightedFact>) returns (result: Result<map<Fact, int>, ArityMismatch>, ghost exhausted: bool)
      requires Valid() && NoNegativeGround(history + delta)
      modifies this, db, groundInDerived
      ensures result.Ok? <==> forall i :: 0 <= i < |delta| && delta[i].fact.pred in arityOf ==> |delta[i].fact.values| == arityOf[delta[i].fact.pred]
      ensures result.Err? ==> exists i :: 0 <= i < |delta| && Names(result.error, delta[i].fact)
      ensures result.Err? ==> exhausted && Valid() && history == old(history) && db.rels == old(db.rels)
      ensures result.Ok? ==> history == old(history) + delta
      ensures result.Ok? && exhausted ==> (Valid() <==> PerfectModel(strata, rules, NetGround(history), Model()))
      ensures result.Ok? && exhausted ==>
        forall M :: PerfectModel(strata, rules, NetGround(history), M) ==>
          (Valid() <==> RetractionsSeen(strata, old(history), delta, old(db.rels), M))
      ensures result.Ok? && exhausted ==> (Valid() <==> RetractionsFollow(strata, old(history), delta, old(db.rels), db.rels))
      ensures RetractionsVanish(strata, old(history), delta, old(db.rels)) ==>
        forall M :: RetractionsSeen(strata, old(history), delta, old(db.rels), M)
      ensures !exhausted ==> StepTakesTooLong(strata, old(history), delta, old(db.rels), Model())
      ensures result.Ok? && FlipsNothing(old(db.rels), delta) ==>
        forall f :: WeightIn(db.rels, f) == WeightIn(old(db.rels), f) + ListWeight(delta, f)
      ensures result.Ok? ==> ReportsDerived(result.value, old(db.rels), delta, db.rels)
    {
      hide RetractionsFollow, RetractionsSeen, RetractionsVanish, PerfectModel, StepTakesTooLong, StratumOk, Stratified;
      VanishingSeen(strata, history, delta, db.rels);
      var mismatch := CheckGroundArity(delta);
      if mismatch.Some? {
        return Err(mismatch.value), true;
      }
      ghost var ground0, s0, before := groundInDerived.rels, db.rels, history;
      var flips := ApplyGroundDelta(delta);
      history := history + delta;
      ghost var c := StepContext(strata, rules, ground0, groundInDerived.rels, s0, db.rels);
      AfterGround(c, before, delta);
      var value;
      value, exhausted := Propagate(flips, before, delta, c);
      result := Ok(value);
    }

    /** Bring the strata the flips reach up to date. */
    method Propagate(flips: Database, ghost before: seq<WeightedFact>, ghost delta: seq<WeightedFact>, ghost c: StepContext)
      returns (value: map<Fact, int>, exhausted: bool)
      requires Program() && history == before + delta && AtGround(c, before, delta)
      requires c.strata == strata && c.rules == rules && c.ground == groundInDerived.rels && c.s1 == db.rels
      requires db.Valid() && groundInDerived.Valid() && flips.Valid() && flips != db && flips != groundInDerived
      requires FlipsBetween(flips.rels, c.s0, c.s1)
      modifies db, flips
      ensures exhausted ==> StepEnded(strata, rules, before, delta, c.s0, groundInDerived.rels, db.rels)
      ensures !exhausted ==> StepTakesTooLong(strata, before, delta, c.s0, Model())
      ensures ReportsDerived(value, c.s0, delta, db.rels)
      ensures old(flips.rels) == map[] ==> forall f :: WeightIn(db.rels, f) == WeightIn(c.s1, f)
    {
      ghost var changed := flips.rels.Keys;
      ChangedPredicates(flips.rels, c.s0, c.s1);
      var indices := ComputeAffectedStrata(flips.rels.Keys, strata, readers);
      assert changed == {} ==> ClosedUnderReads(strata, changed, {});
      var outputDelta;
      outputDelta, exhausted := EvaluateAffected(indices, flips, c);
      value := NormalizedDelta(outputDelta.rels);
      if changed == {} {
        NothingEvaluated(c, db.rels, flips.rels, outputDelta.rels, Elements(indices), exhausted);
      }
      StepEnds(c, before, delta, db.rels, flips.rels, outputDelta.rels, changed, Elements(indices), exhausted);
    }

    /** Evaluate the affected strata bottom-up; each one's output joins the input
        of the next. */
    method EvaluateAffected(indices: seq<nat>, inputDelta: Database, ghost c: StepContext) returns (outputDelta: Database, exhausted: bool)
      requires c.Ok() && c.strata == strata && c.rules == rules && c.ground == groundInDerived.rels && c.s1 == db.rels
      requires groundInDerived.Valid() && db != groundInDerived && inputDelta != db && inputDelta != groundInDerived
      requires forall i, j :: 0 <= i < j < |indices| ==> indices[i] < indices[j]
      requires forall i :: 0 <= i < |indices| ==> indices[i] < |strata|
      requires db.Valid() && inputDelta.Valid() && FlipsBetween(inputDelta.rels, c.s0, c.s1)
      modifies db, inputDelta
      ensures fresh(outputDelta)
      ensures StepState(c, db.rels, inputDelta.rels, outputDelta.rels, Elements(indices), exhausted)
    {
      outputDelta := new Database();
      exhausted := true;
      StepBegins(c, inputDelta.rels);
      for i := 0 to |indices|
        invariant groundInDerived.rels == c.ground && groundInDerived.Valid()
        invariant StepState(c, db.rels, inputDelta.rels, outputDelta.rels, Elements(indices[..i]), exhausted)
      {
        ElementsPrefix(indices, i);
        exhausted := EvaluateOne(indices[i], inputDelta, outputDelta, exhausted, c, Elements(indices[..i]));
      }
      assert indices[..|indices|] == indices;
    }

    /** One stratum of the step, and its output passed on. */
    method EvaluateOne(k: nat, inputDelta: Database, outputDelta: Database, exhausted: bool, ghost c: StepContext, ghost done: set<nat>)
      returns (exhausted': bool)
      requires c.Ok() && c.strata == strata && c.rules == rules && c.ground == groundInDerived.rels
      requires groundInDerived.Valid()
      requires db != groundInDerived && inputDelta != db && inputDelta != groundInDerived
      requires outputDelta != db && outputDelta != groundInDerived && outputDelta != inputDelta
      requires k < |strata| && forall m :: m in done ==> m < k
      requires StepState(c, db.rels, inputDelta.rels, outputDelta.rels, done, exhausted)
      modifies db, inputDelta, outputDelta
      ensures StepState(c, db.rels, inputDelta.rels, outputDelta.rels, done + {k}, exhausted')
    {
      ghost var s, input, output := db.rels, inputDelta.rels, outputDelta.rels;
      var stratumDelta, exhaustedNow := DeriveStratum(k, inputDelta, c, done, exhausted, outputDelta.rels);
      outputDelta.AddAllWeighted(stratumDelta);
      inputDelta.AddAllWeighted(stratumDelta);
      exhausted' := exhausted && exhaustedNow;
      assert forall f :: outputDelta.Weight(f) == WeightIn(outputDelta.rels, f) && inputDelta.Weight(f) == WeightIn(inputDelta.rels, f);
      assert forall f :: stratumDelta.Weight(f) == WeightIn(stratumDelta.rels, f);
      StratumDone(c, s, db.rels, input, inputDelta.rels, output, outputDelta.rels, stratumDelta.rels, done, k, exhausted, exhaustedNow);
    }

    /** Derive one stratum from the delta so far. */
    method DeriveStratum(k: nat, inputDelta: Database, ghost c: StepContext, ghost done: set<nat>, ghost exhausted: bool, ghost output: Store)
      returns (delta: Database, exhaustedNow: bool)
      requires c.Ok() && c.strata == strata && c.rules == rules && c.ground == groundInDerived.rels
      requires groundInDerived.Valid() && db != groundInDerived && inputDelta != db && inputDelta != groundInDerived
      requires k < |strata| && k !in done && StepState(c, db.rels, inputDelta.rels, output, done, exhausted)
      modifies db
      ensures fresh(delta)
      ensures Carried(strata[k].rules, c.ground0, c.ground, Facts(c.s0), c.s1, old(db.rels), db.rels, delta.rels, exhaustedNow)
    {
      if |strata[k].rules| == 0 {
        delta := new Database();
        assert strata[k].rules == [];
        EmptyStratumCarried(c.ground0, c.ground, Facts(c.s0), c.s1, db.rels, delta.rels);
        return delta, true;
      }
      SafeStratum(strata, rules, k);
      StratumNegations(strata, rules, k);
      MovedNow(c, db.rels, k);
      ReadyWhenReached(strata[k].rules, c.ground0, c.ground, c.s0, db.rels, inputDelta.rels);
      delta, exhaustedNow := EvaluateStratumFromDelta(strata[k].rules, db, inputDelta, groundInDerived, c.ground0, Facts(c.s0), c.s1);
    }
  }

  /** The first `k` strata have been derived. */
  ghost predicate Building(strata: seq<Stratum>, rules: seq<Rule>, ground: Store, s: Store, k: nat, exhausted: bool)
    requires k <= |strata|
  {
    && ValidStore(s) && Carries(s, ground)
    && (forall f :: WeightIn(ground, f) == 0)
    && (forall f: Fact :: f.pred !in HeadPredicates(rules) ==> WeightIn(s, f) == 0)
    && (exhausted ==> forall m :: 0 <= m < k ==> StratumOk(strata[m].rules, ground, s))
    && (!exhausted ==> exists m :: 0 <= m < k && TakesMoreThan(strata[m].rules, Facts(ground), Facts(s), MAX_ITERATIONS))
  }

  lemma NothingIsFact(ground: Store)
    requires forall f :: WeightIn(ground, f) == 0
    ensures Facts(ground) == {}
  {
    FactsAre(ground);
  }

  lemma BuiltOne(strata: seq<Stratum>, rules: seq<Rule>, ground: Store, s: Store, t: Store, delta: Store, k: nat, exhausted: bool, exhaustedNow: bool)
    requires Stratified(strata, rules) && SafeProgram(rules) && k < |strata|
    requires Building(strata, rules, ground, s, k, exhausted)
    requires Updated(strata[k].rules, ground, s, t, delta, exhaustedNow)
    ensures Building(strata, rules, ground, t, k + 1, exhausted && exhaustedNow)
  {
    HeadsOfStratum(strata, rules, k);
    FactsAre(s);
    FactsAre(t);
    forall m | 0 <= m < k
      ensures StratumOk(strata[m].rules, ground, s) ==> StratumOk(strata[m].rules, ground, t)
      ensures TakesMoreThan(strata[m].rules, Facts(ground), Facts(s), MAX_ITERATIONS)
        ==> TakesMoreThan(strata[m].rules, Facts(ground), Facts(t), MAX_ITERATIONS)
    {
      StrataDisjoint(strata, rules, m, k);
      HigherNotRead(strata, rules, m, k);
      if StratumOk(strata[m].rules, ground, s) {
        StratumOkStable(strata[m].rules, ground, s, t, HeadPredicates(strata[k].rules));
      }
      if TakesMoreThan(strata[m].rules, Facts(ground), Facts(s), MAX_ITERATIONS) {
        SafeStratum(strata, rules, m);
        TakesMoreThanLocal(strata[m].rules, Facts(ground), Facts(ground), Facts(s), Facts(t), MAX_ITERATIONS);
      }
    }
  }

  /** Ground weights are accounted for, and every stratum is in order. */
  ghost predicate InOrder(strata: seq<Stratum>, rules: seq<Rule>, history: seq<WeightedFact>, ground: Store, s: Store) {
    && Settled(strata, rules, history, ground, s)
    && forall k :: 0 <= k < |strata| ==> StratumOk(strata[k].rules, ground, s)
  }

  /** The weights that come from ground facts alone. */
  ghost predicate Settled(strata: seq<Stratum>, rules: seq<Rule>, history: seq<WeightedFact>, ground: Store, s: Store) {
    && ValidStore(s) && ValidStore(ground)
    && NoNegativeGround(history) && Carries(s, ground)
    && (forall f: Fact :: f.pred !in HeadPredicates(rules) ==> WeightIn(s, f) == ListWeight(history, f) && WeightIn(ground, f) == 0)
    && (forall f: Fact :: f.pred in HeadPredicates(rules) ==> WeightIn(ground, f) == ListWeight(history, f))
  }

  /** An evaluator in a valid state holds the perfect model of its rules over
      the net ground facts. */
  lemma ValidIsPerfect(e: Evaluator)
    requires e.Valid()
    ensures PerfectModel(e.strata, e.rules, NetGround(e.history), e.Model())
  {
    var ground := e.groundInDerived.rels;
    NetGroundIs(e.history);
    FactsAre(ground);
    FactsAre(e.db.rels);
    forall k | 0 <= k < |e.strata| ensures Least(e.strata[k].rules, NetGround(e.history), e.Model()) {
      HeadsOfStratum(e.strata, e.rules, k);
      LeastLocal(e.strata[k].rules, Facts(ground), NetGround(e.history), e.Model(), e.Model());
    }
  }

  /** Incremental equals batch: two evaluators of one program that were given
      the same net ground facts, in whatever steps and under whatever
      stratification, hold the same facts. */
  lemma IncrementalEqualsBatch(e: Evaluator, fresh_: Evaluator)
    requires e.Valid() && fresh_.Valid() && e.rules == fresh_.rules
    requires forall f :: ListWeight(e.history, f) > 0 <==> ListWeight(fresh_.history, f) > 0
    ensures e.Model() == fresh_.Model()
  {
    NetGroundIs(e.history);
    NetGroundIs(fresh_.history);
    assert NetGround(e.history) == NetGround(fresh_.history);
    ValidIsPerfect(e);
    ValidIsPerfect(fresh_);
    PerfectModelUnique(e.strata, fresh_.strata, e.rules, NetGround(e.history), e.Model(), fresh_.Model());
  }

  /** The moment after the ground delta: the old database was settled and every
      stratum in order, and the weights have moved by the delta. */
  ghost predicate AtGround(c: StepContext, history: seq<WeightedFact>, delta: seq<WeightedFact>) {
    && c.Ok() && NoNegativeGround(history + delta)
    && (forall f :: WeightIn(c.s1, f) == WeightIn(c.s0, f) + ListWeight(delta, f))
    && (forall f: Fact :: f.pred !in HeadPredicates(c.rules) ==> WeightIn(c.s1, f) == ListWeight(history + delta, f) && WeightIn(c.ground, f) == 0)
    && (forall f: Fact :: f.pred in HeadPredicates(c.rules) ==>
          WeightIn(c.ground0, f) == ListWeight(history, f) && WeightIn(c.ground, f) == ListWeight(history + delta, f))
  }

  lemma AfterGround(c: StepContext, history: seq<WeightedFact>, delta: seq<WeightedFact>)
    requires SafeProgram(c.rules) && Stratified(c.strata, c.rules)
    requires Settled(c.strata, c.rules, history, c.ground0, c.s0)
    requires forall k :: 0 <= k < |c.strata| ==> StratumOk(c.strata[k].rules, c.ground0, c.s0)
    requires NoNegativeGround(history + delta)
    requires forall f :: WeightIn(c.s1, f) == WeightIn(c.s0, f) + ListWeight(delta, f)
    requires GroundPartMoved(HeadPredicates(c.rules), c.ground0, c.ground, delta)
    ensures AtGround(c, history, delta)
  {
    forall f: Fact
      ensures 0 <= WeightIn(c.ground, f) <= WeightIn(c.s1, f)
      ensures ListWeight(history + delta, f) == ListWeight(history, f) + ListWeight(delta, f)
    {
      ListWeightConcat(history, delta, f);
      assert ListWeight(history, f) >= 0 && ListWeight(history + delta, f) >= 0;
      assert 0 <= WeightIn(c.ground0, f) <= WeightIn(c.s0, f);
    }
    forall k | 0 <= k < |c.strata| ensures GroundMoved(c.strata[k].rules, c.ground0, c.ground, c.s0, c.s1) {
      HeadsOfStratum(c.strata, c.rules, k);
    }
  }

  /** The first `i` facts of a ground delta have been added. */
  ghost predicate GroundApplied(heads: set<string>, start: Store, ground0: Store, s: Store, ground: Store, flips: Store, delta: seq<WeightedFact>, i: nat) {
    && i <= |delta|
    && (forall f :: WeightIn(s, f) == WeightIn(start, f) + ListWeight(delta[..i], f))
    && GroundPartMoved(heads, ground0, ground, delta[..i])
    && FlipsBetween(flips, start, s)
    && (FlipsNothing(start, delta) ==> flips == map[])
  }

  lemma OneMoreGround(heads: set<string>, start: Store, ground0: Store, was: Store, groundWas: Store, flipsWas: Store,
                      s: Store, ground: Store, flips: Store, delta: seq<WeightedFact>, i: nat)
    requires i < |delta| && GroundApplied(heads, start, ground0, was, groundWas, flipsWas, delta, i)
    requires ValidStore(was) && ValidStore(groundWas) && FlipsBetween(flips, start, s)
    requires s == AddTo(was, delta[i].fact.pred, delta[i].fact.values, delta[i].weight)
    requires ground == if delta[i].fact.pred in heads then AddTo(groundWas, delta[i].fact.pred, delta[i].fact.values, delta[i].weight) else groundWas
    requires Sign(WeightIn(s, delta[i].fact)) == Sign(WeightIn(was, delta[i].fact)) ==> flips == flipsWas
    ensures GroundApplied(heads, start, ground0, s, ground, flips, delta, i + 1)
  {
    hide AddTo, ValidStore;
    var wf := delta[i];
    AddToIsAddition(was, wf.fact.pred, wf.fact.values, wf.weight);
    AddToIsAddition(groundWas, wf.fact.pred, wf.fact.values, wf.weight);
    assert wf.fact == Fact(wf.fact.pred, wf.fact.values);
    WeightsNext(start, was, s, delta, i);
    GroundNext(heads, ground0, groundWas, ground, delta, i);
    if FlipsNothing(start, delta) {
      NoFlipNext(start, was, s, delta, i);
    }
  }

  lemma WeightsNext(start: Store, was: Store, s: Store, delta: seq<WeightedFact>, i: nat)
    requires i < |delta| && forall f :: WeightIn(was, f) == WeightIn(start, f) + ListWeight(delta[..i], f)
    requires forall f :: WeightIn(s, f) == WeightIn(was, f) + if f == delta[i].fact then delta[i].weight else 0
    ensures forall f :: WeightIn(s, f) == WeightIn(start, f) + ListWeight(delta[..i + 1], f)
  {
    hide WeightIn, ListWeight;
    forall f ensures WeightIn(s, f) == WeightIn(start, f) + ListWeight(delta[..i + 1], f) {
      ListWeightNext(delta, i, f);
    }
  }

  lemma GroundNext(heads: set<string>, ground0: Store, was: Store, ground: Store, delta: seq<WeightedFact>, i: nat)
    requires i < |delta| && GroundPartMoved(heads, ground0, was, delta[..i])
    requires forall f :: WeightIn(ground, f) == WeightIn(was, f) + if f == delta[i].fact && f.pred in heads then delta[i].weight else 0
    ensures GroundPartMoved(heads, ground0, ground, delta[..i + 1])
  {
    hide WeightIn, ListWeight;
    forall f: Fact ensures WeightIn(ground, f) == WeightIn(ground0, f) + (if f.pred in heads then ListWeight(delta[..i + 1], f) else 0) {
      ListWeightNext(delta, i, f);
    }
  }

  lemma NoFlipNext(start: Store, was: Store, s: Store, delta: seq<WeightedFact>, i: nat)
    requires i < |delta| && FlipsNothing(start, delta)
    requires forall f :: WeightIn(was, f) == WeightIn(start, f) + ListWeight(delta[..i], f)
    requires forall f :: WeightIn(s, f) == WeightIn(start, f) + ListWeight(delta[..i + 1], f)
    ensures Sign(WeightIn(s, delta[i].fact)) == Sign(WeightIn(was, delta[i].fact))
  {
    hide WeightIn, ListWeight;
  }

  lemma ListWeightNext(delta: seq<WeightedFact>, i: nat, f: Fact)
    requires i < |delta|
    ensures ListWeight(delta[..i + 1], f) == ListWeight(delta[..i], f) + if f == delta[i].fact then delta[i].weight else 0
  {
    assert delta[..i + 1][..i] == delta[..i];
  }

  /** The ground part of the heads has taken the delta. */
  ghost predicate GroundPartMoved(heads: set<string>, ground0: Store, ground: Store, delta: seq<WeightedFact>) {
    forall f: Fact :: WeightIn(ground, f) == WeightIn(ground0, f) + (if f.pred in heads then ListWeight(delta, f) else 0)
  }

  lemma ChangedPredicates(flips: Store, s0: Store, s1: Store)
    requires FlipsBetween(flips, s0, s1)
    ensures forall f: Fact :: Sign(WeightIn(s1, f)) != Sign(WeightIn(s0, f)) ==> f.pred in flips.Keys
  {
    forall f: Fact | Sign(WeightIn(s1, f)) != Sign(WeightIn(s0, f)) ensures f.pred in flips.Keys {
      assert WeightIn(flips, f) != 0;
    }
  }

  lemma SettledAfter(c: StepContext, history: seq<WeightedFact>, delta: seq<WeightedFact>, s: Store)
    requires AtGround(c, history, delta)
    requires ValidStore(s) && ValidStore(c.ground) && Carries(s, c.ground)
    requires forall f: Fact :: f.pred !in HeadPredicates(c.rules) ==> WeightIn(s, f) == WeightIn(c.s1, f)
    ensures Settled(c.strata, c.rules, history + delta, c.ground, s)
  {
  }

  /** How a step that is not cut off ends: in order exactly when it holds the
      perfect model, when this could be told beforehand, and when the facts that
      lost their ground part follow from the others. */
  ghost predicate StepEnded(strata: seq<Stratum>, rules: seq<Rule>, history: seq<WeightedFact>, delta: seq<WeightedFact>, s0: Store, ground: Store,
                            s: Store) {
    var ok := InOrder(strata, rules, history + delta, ground, s);
    && (ok <==> PerfectModel(strata, rules, NetGround(history + delta), Facts(s)))
    && (ok <==> RetractionsFollow(strata, history, delta, s0, s))
    && (forall M :: PerfectModel(strata, rules, NetGround(history + delta), M) ==> (ok <==> RetractionsSeen(strata, history, delta, s0, M)))
  }

  lemma SeenIffFollow(c: StepContext, history: seq<WeightedFact>, delta: seq<WeightedFact>, s: Store, M: Interpretation)
    requires AtGround(c, history, delta) && c.Ok() && Ended(c, s) && PerfectModel(c.strata, c.rules, NetGround(history + delta), M)
    ensures HeldFactsFollow(c, s) <==> RetractionsSeen(c.strata, history, delta, c.s0, M)
  {
    hide PerfectModel, RetractionsSeen, Goal, Foreseen, Least, HeldFactsFollow;
    PerfectIsGoal(c, history, delta, M);
    InOrderIffHeldFollow(c, s);
    InOrderIffForeseen(c, s, M);
    ForeseenIsSeen(c, history, delta, M);
  }

  lemma PerfectIffFollow(c: StepContext, history: seq<WeightedFact>, delta: seq<WeightedFact>, s: Store)
    requires AtGround(c, history, delta) && Settled(c.strata, c.rules, history + delta, c.ground, s)
    requires forall k :: 0 <= k < |c.strata| ==> c.Left(k, s)
    ensures HeldFactsFollow(c, s) <==> PerfectModel(c.strata, c.rules, NetGround(history + delta), Facts(s))
  {
    hide PerfectModel, Least, HeldFactsFollow;
    InOrderIffHeldFollow(c, s);
    PerfectIffLeast(c, history, delta, s);
  }

  lemma OrderIffFollow(c: StepContext, history: seq<WeightedFact>, s: Store)
    requires Settled(c.strata, c.rules, history, c.ground, s) && forall k :: 0 <= k < |c.strata| ==> c.Left(k, s)
    ensures HeldFactsFollow(c, s) <==> InOrder(c.strata, c.rules, history, c.ground, s)
  {
    hide StratumOk, HeldFactsFollow, Settled;
    InOrderIffHeldFollow(c, s);
  }

  /** In order exactly when it is perfect, when what was held follows, and when that
      could be told beforehand. */
  lemma EndsAsForeseen(c: StepContext, history: seq<WeightedFact>, delta: seq<WeightedFact>, s: Store)
    requires AtGround(c, history, delta) && ValidStore(c.ground) && c.Ok() && Ended(c, s) && ValidStore(s) && Carries(s, c.ground)
    ensures StepEnded(c.strata, c.rules, history, delta, c.s0, c.ground, s)
  {
    SettledAfter(c, history, delta, s);
    OrderIffFollow(c, history + delta, s);
    HeldIsHeldFacts(c, history, delta, s);
    PerfectIffFollow(c, history, delta, s);
    hide InOrder, PerfectModel, RetractionsFollow, RetractionsSeen, HeldFactsFollow;
    forall M | PerfectModel(c.strata, c.rules, NetGround(history + delta), M)
      ensures HeldFactsFollow(c, s) <==> RetractionsSeen(c.strata, history, delta, c.s0, M)
    {
      SeenIffFollow(c, history, delta, s, M);
    }
  }

  /** When every affected stratum is done the step is over. */
  lemma StepEnds(c: StepContext, history: seq<WeightedFact>, delta: seq<WeightedFact>, s: Store, inputDelta: Store, outputDelta: Store,
                 changed: set<string>, done: set<nat>, exhausted: bool)
    requires AtGround(c, history, delta) && ValidStore(c.ground)
    requires StepState(c, s, inputDelta, outputDelta, done, exhausted) && ClosedUnderReads(c.strata, changed, done)
    requires forall f: Fact :: Sign(WeightIn(c.s1, f)) != Sign(WeightIn(c.s0, f)) ==> f.pred in changed
    ensures ReportsDerived(NormalizedDelta(outputDelta), c.s0, delta, s)
    ensures exhausted ==> StepEnded(c.strata, c.rules, history, delta, c.s0, c.ground, s)
    ensures !exhausted ==> StepTakesTooLong(c.strata, history, delta, c.s0, Facts(s))
  {
    ReportsAfter(c.s0, c.s1, delta, outputDelta, s);
    if exhausted {
      AllStrataLeft(c, s, inputDelta, outputDelta, changed, done);
      EndsAsForeseen(c, history, delta, s);
    } else {
      TakesTooLongNow(c, history, delta, s);
    }
  }

  lemma PerfectIsGoal(c: StepContext, history: seq<WeightedFact>, delta: seq<WeightedFact>, M: Interpretation)
    requires AtGround(c, history, delta) && PerfectModel(c.strata, c.rules, NetGround(history + delta), M)
    ensures Goal(c, M)
  {
    NetGroundIs(history + delta);
    FactsAre(c.s1);
    forall k | 0 <= k < |c.strata| ensures Least(c.strata[k].rules, Facts(c.ground), M) {
      GroundIsNet(c, history, delta, k);
      LeastLocal(c.strata[k].rules, NetGround(history + delta), Facts(c.ground), M, M);
    }
  }

  lemma ForeseenIsSeen(c: StepContext, history: seq<WeightedFact>, delta: seq<WeightedFact>, M: Interpretation)
    requires AtGround(c, history, delta)
    ensures RetractionsSeen(c.strata, history, delta, c.s0, M) <==> forall k :: 0 <= k < |c.strata| ==> Foreseen(c, M, k)
  {
    forall k | 0 <= k < |c.strata| ensures Foreseen(c, M, k) <==> RetractionsSeenIn(c.strata[k].rules, history, delta, c.s0, M) {
      HeldIsUngrounded(c, history, delta, k);
      LossIsLoss(c.strata[k].rules, c.s0, c.s1, delta, M);
    }
  }

  lemma HeldIsUngrounded(c: StepContext, history: seq<WeightedFact>, delta: seq<WeightedFact>, k: nat)
    requires AtGround(c, history, delta) && k < |c.strata|
    ensures forall f ::
      f in Held(c.strata[k].rules, c.ground0, c.ground, c.s1, c.s1) <==>
      f in Ungrounded(history, delta, c.s0) && f.pred in HeadPredicates(c.strata[k].rules)
  {
    HeadsOfStratum(c.strata, c.rules, k);
    UngroundedAre(history, delta, c.s0);
    FactsAre(c.ground0);
    FactsAre(c.ground);
    FactsAre(c.s1);
  }

  lemma LossIsLoss(rules: seq<Rule>, s0: Store, s1: Store, delta: seq<WeightedFact>, M: Interpretation)
    requires forall f :: WeightIn(s1, f) == WeightIn(s0, f) + ListWeight(delta, f)
    ensures LosesBetween(rules, Facts(s0), Graft(rules, M, Facts(s1))) <==> MeetsLoss(rules, s0, delta, M)
  {
    FactsAre(s0);
    FactsAre(s1);
    forall f ensures f in Graft(rules, M, Facts(s1)) <==> Comes(rules, f, s0, delta, M) {
    }
    forall r, i | 0 <= r < |rules| && 0 <= i < |rules[r].body|
      ensures ElementLoses(rules[r].body[i], Facts(s0), Graft(rules, M, Facts(s1))) <==> LosesAt(rules, rules[r].body[i], s0, delta, M)
    {
    }
  }

  /** The ground part of a stratum's heads is the net ground facts. */
  lemma GroundIsNet(c: StepContext, history: seq<WeightedFact>, delta: seq<WeightedFact>, k: nat)
    requires AtGround(c, history, delta) && k < |c.strata|
    ensures AgreeOn(Facts(c.ground0), NetGround(history), HeadPredicates(c.strata[k].rules))
    ensures AgreeOn(Facts(c.ground), NetGround(history + delta), HeadPredicates(c.strata[k].rules))
  {
    HeadsOfStratum(c.strata, c.rules, k);
    NetGroundIs(history);
    NetGroundIs(history + delta);
    FactsAre(c.ground0);
    FactsAre(c.ground);
  }

  lemma EntailedByHeads(rules: seq<Rule>, G: Interpretation, G': Interpretation, I: Interpretation, f: Fact)
    requires AgreeOn(G, G', HeadPredicates(rules))
    ensures Entailed(rules, G, I, f) <==> Entailed(rules, G', I, f)
  {
    forall J: Interpretation ensures ModelOver(rules, G, I, J) <==> ModelOver(rules, G', I, J) {
    }
  }

  lemma HeldIsHeldFacts(c: StepContext, history: seq<WeightedFact>, delta: seq<WeightedFact>, s: Store)
    requires AtGround(c, history, delta)
    ensures RetractionsFollow(c.strata, history, delta, c.s0, s) <==> HeldFactsFollow(c, s)
  {
    forall k, f | 0 <= k < |c.strata|
      ensures f in HeldFacts(c.strata[k].rules, history, delta, c.s0, s) <==> f in Held(c.strata[k].rules, c.ground0, c.ground, c.s1, s)
      ensures Entailed(c.strata[k].rules, NetGround(history + delta), Facts(s), f) <==> Entailed(c.strata[k].rules, Facts(c.ground), Facts(s), f)
    {
      HeadsOfStratum(c.strata, c.rules, k);
      FactsAre(c.ground0);
      FactsAre(c.ground);
      FactsAre(c.s1);
      FactsAre(s);
      GroundIsNet(c, history, delta, k);
      EntailedByHeads(c.strata[k].rules, NetGround(history + delta), Facts(c.ground), Facts(s), f);
    }
  }

  lemma PerfectIffLeast(c: StepContext, history: seq<WeightedFact>, delta: seq<WeightedFact>, s: Store)
    requires AtGround(c, history, delta) && Settled(c.strata, c.rules, history + delta, c.ground, s)
    ensures PerfectModel(c.strata, c.rules, NetGround(history + delta), Facts(s)) <==>
      forall k :: 0 <= k < |c.strata| ==> Least(c.strata[k].rules, Facts(c.ground), Facts(s))
  {
    NetGroundIs(history + delta);
    FactsAre(s);
    forall k | 0 <= k < |c.strata|
      ensures Least(c.strata[k].rules, NetGround(history + delta), Facts(s)) <==> Least(c.strata[k].rules, Facts(c.ground), Facts(s))
    {
      GroundIsNet(c, history, delta, k);
      if Least(c.strata[k].rules, Facts(c.ground), Facts(s)) {
        LeastLocal(c.strata[k].rules, Facts(c.ground), NetGround(history + delta), Facts(s), Facts(s));
      }
      if Least(c.strata[k].rules, NetGround(history + delta), Facts(s)) {
        LeastLocal(c.strata[k].rules, NetGround(history + delta), Facts(c.ground), Facts(s), Facts(s));
      }
    }
  }

  lemma TakesTooLongNow(c: StepContext, history: seq<WeightedFact>, delta: seq<WeightedFact>, s: Store)
    requires AtGround(c, history, delta) && exists k :: 0 <= k < |c.strata| && c.Cut(k, s)
    ensures StepTakesTooLong(c.strata, history, delta, c.s0, Facts(s))
  {
    var k :| 0 <= k < |c.strata| && c.Cut(k, s);
    var own, net, more := c.strata[k].rules, NetGround(history + delta), Ungrounded(history, delta, c.s0);
    var G, held := Facts(c.ground), Held(own, c.ground0, c.ground, c.s1, c.s1);
    SafeStratum(c.strata, c.rules, k);
    GroundIsNet(c, history, delta, k);
    HeldIsUngrounded(c, history, delta, k);
    if TakesMoreThan(own, G, Facts(s), MAX_ITERATIONS) {
      TakesMoreThanLocal(own, G, net, Facts(s), Facts(s), MAX_ITERATIONS);
    } else {
      assert AgreeOn(G + held, net + more, HeadPredicates(own));
      TakesMoreThanLocal(own, G + held, net + more, Facts(s), Facts(s), MAX_ITERATIONS);
    }
  }

  lemma VanishingSeen(strata: seq<Stratum>, history: seq<WeightedFact>, delta: seq<WeightedFact>, s0: Store)
    ensures RetractionsVanish(strata, history, delta, s0) ==> forall M :: RetractionsSeen(strata, history, delta, s0, M)
  {
    if RetractionsVanish(strata, history, delta, s0) {
      forall M, k | 0 <= k < |strata| ensures RetractionsSeenIn(strata[k].rules, history, delta, s0, M) {
        assert !NonRecursive(strata[k].rules) ==> forall p :: p in HeadPredicates(strata[k].rules) ==> DerivedRecursively(strata, p);
      }
    }
  }

  /** Where no stratum was evaluated the database is as the delta left it. */
  lemma NothingEvaluated(c: StepContext, s: Store, inputDelta: Store, outputDelta: Store, done: set<nat>, exhausted: bool)
    requires c.Ok() && StepState(c, s, inputDelta, outputDelta, done, exhausted) && done == {}
    ensures forall f :: WeightIn(s, f) == WeightIn(c.s1, f)
  {
    forall f: Fact ensures WeightIn(s, f) == WeightIn(c.s1, f) {
      if f.pred in HeadPredicates(c.rules) {
        var k := StratumOfPredicate(c.strata, c.rules, f.pred);
        assert SameOn(s, c.s1, HeadPredicates(c.strata[k].rules));
      }
    }
  }

  lemma StepBegins(c: StepContext, inputDelta: Store)
    requires c.Ok() && ValidStore(c.s1) && ValidStore(inputDelta) && FlipsBetween(inputDelta, c.s0, c.s1)
    ensures StepState(c, c.s1, inputDelta, map[], {}, true)
  {
    forall p ensures Flips(Get(inputDelta, p), Facts(c.s0), Facts(c.s1), p) {
      FlipsOfFacts(inputDelta, c.s0, c.s1, p);
    }
  }

  lemma ElementsPrefix(indices: seq<nat>, i: nat)
    requires i < |indices| && forall a, b :: 0 <= a < b < |indices| ==> indices[a] < indices[b]
    ensures Elements(indices[..i + 1]) == Elements(indices[..i]) + {indices[i]}
    ensures forall m :: m in Elements(indices[..i]) ==> m < indices[i]
  {
    assert indices[..i + 1] == indices[..i] + [indices[i]];
    ElementsAppend(indices[..i], indices[i]);
  }

  /** One ground fact moves the flips exactly as far as the presence. */
  lemma FlipsAfterFact(was: Store, flipped: Store, flips: Store, start: Store, wf: WeightedFact)
    requires ValidStore(was) && ValidStore(flipped) && FlipsBetween(flipped, start, was)
    requires var change := PresenceChange(WeightIn(was, wf.fact), WeightIn(was, wf.fact) + wf.weight);
      flips == if change != 0 then AddTo(flipped, wf.fact.pred, wf.fact.values, change) else flipped
    ensures FlipsBetween(flips, start, AddTo(was, wf.fact.pred, wf.fact.values, wf.weight))
  {
    var p, t := wf.fact.pred, wf.fact.values;
    var change := PresenceChange(WeightIn(was, wf.fact), WeightIn(was, wf.fact) + wf.weight);
    AddToIsAddition(was, p, t, wf.weight);
    AddToIsAddition(flipped, p, t, change);
    assert wf.fact == Fact(p, t);
  }

  /** Everything that appeared or disappeared, as 1 and -1. */
  function NormalizedDelta(s: Store): map<Fact, int> {
    map p, t | p in s.Keys && t in s[p].weights.Keys :: Fact(p, t) := if s[p].weights[t] > 0 then 1 else -1
  }

  function Entry(m: map<Fact, int>, f: Fact): int {
    if f in m then m[f] else 0
  }

  /** `value` lists exactly the facts whose presence the strata changed, on top
      of the ground delta. */
  ghost predicate ReportsDerived(value: map<Fact, int>, s0: Store, delta: seq<WeightedFact>, s: Store) {
    forall f :: Entry(value, f) == Sign(WeightIn(s, f)) - Sign(WeightIn(s0, f) + ListWeight(delta, f))
  }

  lemma FlipsNormalized(delta: Store, before: Store, after: Store, f: Fact)
    requires ValidStore(delta) && FlipsBetween(delta, before, after)
    ensures Entry(NormalizedDelta(delta), f) == Sign(WeightIn(after, f)) - Sign(WeightIn(before, f))
  {
    assert f == Fact(f.pred, f.values);
    assert f in NormalizedDelta(delta) <==> f.pred in delta.Keys && f.values in delta[f.pred].weights.Keys;
    assert WeightIn(delta, f) == Sign(WeightIn(after, f)) - Sign(WeightIn(before, f));
  }

  lemma ReportsFrom(value: map<Fact, int>, s0: Store, s1: Store, delta: seq<WeightedFact>, s: Store)
    requires forall f :: WeightIn(s1, f) == WeightIn(s0, f) + ListWeight(delta, f)
    requires forall f :: Entry(value, f) == Sign(WeightIn(s, f)) - Sign(WeightIn(s1, f))
    ensures ReportsDerived(value, s0, delta, s)
  {
  }

  lemma ReportsAfter(s0: Store, s1: Store, delta: seq<WeightedFact>, output: Store, s: Store)
    requires forall f :: WeightIn(s1, f) == WeightIn(s0, f) + ListWeight(delta, f)
    requires ValidStore(output) && FlipsBetween(output, s1, s)
    ensures ReportsDerived(NormalizedDelta(output), s0, delta, s)
  {
    var value := NormalizedDelta(output);
    forall f ensures Entry(value, f) == Sign(WeightIn(s, f)) - Sign(WeightIn(s1, f)) {
      FlipsNormalized(output, s1, s, f);
    }
    ReportsFrom(value, s0, s1, delta, s);
  }

  // ---------------------------------------------------------------------
  // Creating an evaluator, and the batch wrappers
  // ---------------------------------------------------------------------

  /** The rules an evaluator runs: none, when they negate cyclically. */
  ghost function Runnable(rules: seq<Rule>): seq<Rule> {
    if HasCyclicNegation(rules) then [] else rules
  }

  /** An evaluator over no facts. Rules that disagree about a width are refused;
      rules that negate cyclically leave an evaluator that derives nothing. */
  method CreateEvaluator(rules: seq<Rule>) returns (result: Result<Evaluator, ArityConflict>)
    requires SafeProgram(rules)
    ensures result.Ok? <==> Coherent(MentionsOf(rules))
    ensures result.Err? ==> RealConflict(MentionsOf(rules), result.error)
    ensures result.Ok? ==> fresh(result.value) && fresh(result.value.db) && fresh(result.value.groundInDerived)
    ensures result.Ok? ==> result.value.rules == Runnable(rules) && result.value.history == [] && result.value.Program()
    ensures result.Ok? && !HasCyclicNegation(rules) ==> ArityKnown(result.value.arityOf, rules)
    ensures result.Ok? ==> result.value.Valid() || TakesTooLong(result.value.strata, {}, result.value.Model())
  {
    var stratified := Stratify(rules);
    if stratified.Err? {
      match stratified.error {
        case Shape(conflict) =>
          return Err(conflict);
        case CyclicNegation(_) =>
          NoRulesNoStrata();
          var empty := new Evaluator([], [], map[]);
          return Ok(empty);
      }
    }
    var arity, errors := AnalyzeArity(rules);
    var e := new Evaluator(rules, stratified.value, arity);
    return Ok(e);
  }

  /** Every predicate the rules mention has the width they give it. */
  ghost predicate ArityKnown(arityOf: map<string, nat>, rules: seq<Rule>) {
    forall i :: 0 <= i < |MentionsOf(rules)| ==>
      MentionsOf(rules)[i].pred in arityOf && arityOf[MentionsOf(rules)[i].pred] == MentionsOf(rules)[i].arity
  }

  /** Incremental evaluation of a positive program agrees with naive evaluation
      over the net ground facts, whatever the steps were. */
  lemma IncrementalEqualsNaive(e: Evaluator, naive: Interpretation)
    requires e.Valid() && PositiveProgram(e.rules)
    requires Least(e.rules, NetGround(e.history), naive) && AgreeOff(NetGround(e.history), naive, HeadPredicates(e.rules))
    ensures e.Model() == naive
  {
    ValidIsPerfect(e);
    NaiveAgrees(e.strata, e.rules, NetGround(e.history), e.Model(), naive);
  }
}
