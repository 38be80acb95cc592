/** One stratum brought up to date, by the loop or by recomputing it
    (packages/datalog/src/evaluator.ts, `evaluateStratumFromDelta`,
    `recomputeStratum`). */
module StratumUpdate {
  import opened Prelude
  import opened Values
  import opened Syntax
  import opened ZRelation
  import opened Databases
  import opened Semantics
  import opened Models
  import opened Stages
  import opened Deltas
  import opened SemiNaive
  import opened Invariants

  /** What holds of a stratum between steps: its heads are the least model over
      its inputs and the ground part; what is derived weighs more than its ground
      part; and where counting is relied on the weights are exact. */
  ghost predicate StratumOk(rules: seq<Rule>, ground: Store, s: Store) {
    && Least(rules, Facts(ground), Facts(s))
    && Rests(rules, ground, s)
    && (NonRecursive(rules) ==> ExactWeights(rules, ground, Facts(s), s))
  }

  /** The facts a retraction may leave hanging: heads that lost their ground part
      but stayed present, right after the ground delta (`s1`) and in `s`. Whether
      they still follow from anything a step does not see. */
  ghost function Held(rules: seq<Rule>, ground0: Store, ground: Store, s1: Store, s: Store): Interpretation {
    set f | f in Facts(ground0) && f.pred in HeadPredicates(rules) && f !in Facts(ground) && f in Facts(s1) && f in Facts(s)
  }

  /** How a step leaves a stratum: in order, but for facts that hold themselves up. */
  ghost predicate StratumLeft(rules: seq<Rule>, ground0: Store, ground: Store, s1: Store, s: Store) {
    && Least(rules, Facts(ground) + Held(rules, ground0, ground, s1, s), Facts(s))
    && Rests(rules, ground, s)
    && (NonRecursive(rules) ==> StratumOk(rules, ground, s))
  }

  /** A stratum is left in order exactly when every fact that lost its ground part
      and stayed follows from the facts that are left. */
  lemma LeftIsOk(rules: seq<Rule>, ground0: Store, ground: Store, s1: Store, s: Store)
    requires StratumLeft(rules, ground0, ground, s1, s)
    ensures StratumOk(rules, ground, s) <==> Least(rules, Facts(ground), Facts(s))
    ensures StratumOk(rules, ground, s) <==> forall f :: f in Held(rules, ground0, ground, s1, s) ==> Entailed(rules, Facts(ground), Facts(s), f)
  {
    LeastWithout(rules, Facts(ground), Held(rules, ground0, ground, s1, s), Facts(s));
  }

  lemma OkIsLeft(rules: seq<Rule>, ground0: Store, ground: Store, s1: Store, s: Store)
    requires StratumOk(rules, ground, s)
    ensures StratumLeft(rules, ground0, ground, s1, s)
  {
    LeastWithMore(rules, Facts(ground), Held(rules, ground0, ground, s1, s), Facts(s));
  }

  // ---------------------------------------------------------------------
  // What decides whether a stratum is recomputed
  // ---------------------------------------------------------------------

  /** Going from `O` to `N` may remove a derivation: a fact read is lost, or one
      read under a negation is new. */
  ghost predicate LosesBetween(rules: seq<Rule>, O: Interpretation, N: Interpretation) {
    exists r, i :: 0 <= r < |rules| && 0 <= i < |rules[r].body| && ElementLoses(rules[r].body[i], O, N)
  }

  ghost predicate ElementLoses(el: Element, O: Interpretation, N: Interpretation) {
    || (el.Positive? && exists t :: Fact(el.atom.pred, t) in O && Fact(el.atom.pred, t) !in N)
    || (el.Negation? && exists t :: Fact(el.atom.pred, t) in N && Fact(el.atom.pred, t) !in O)
  }

  /** A recursive stratum that holds something meets such a change: from `O` to the
      inputs in `s`, with its own heads as in `s1`. */
  ghost predicate Fires(rules: seq<Rule>, O: Interpretation, s1: Store, s: Store) {
    && !NonRecursive(rules)
    && (exists f: Fact :: f.pred in HeadPredicates(rules) && WeightIn(s1, f) != 0)
    && LosesBetween(rules, O, Graft(rules, Facts(s), Facts(s1)))
  }

  /** Which way a step left a stratum: a recursive one that was not recomputed still
      holds all that lost its ground part. */
  ghost predicate StratumTold(rules: seq<Rule>, ground0: Store, ground: Store, O: Interpretation, s1: Store, s: Store) {
    && (Fires(rules, O, s1, s) ==> StratumOk(rules, ground, s))
    && (!NonRecursive(rules) && !Fires(rules, O, s1, s) ==> Held(rules, ground0, ground, s1, s1) <= Facts(s))
  }

  // ---------------------------------------------------------------------
  // Wiping
  // ---------------------------------------------------------------------

  /** Reduce one relation to its ground part. */
  method WipeRelation(p: string, db: Database, ground: Database, dirty: DirtyMap, ghost start: Store) returns (dirty': DirtyMap)
    requires db.Valid() && ground.Valid() && db != ground
    requires Tracks(dirty, start, db.rels) && forall t :: WeightIn(db.rels, Fact(p, t)) == WeightIn(start, Fact(p, t))
    modifies db
    ensures db.Valid()
    ensures forall f :: db.Weight(f) == if f.pred == p && old(db.Weight(f)) > 0 then Max(ground.Weight(f), 0) else old(db.Weight(f))
    ensures Tracks(dirty', start, db.rels)
  {
    hide AddTo, ValidStore;
    dirty' := dirty;
    var rel := db.GetRelation(p);
    var groundRel := ground.GetRelation(p);
    ghost var was := db.rels;
    GetValid(was, p);
    for i := 0 to |rel.order|
      invariant db.Valid()
      invariant forall f ::
        db.Weight(f) == if f.pred == p && f.values in rel.order[..i] && WeightIn(was, f) > 0 then Max(ground.Weight(f), 0) else WeightIn(was, f)
      invariant Tracks(dirty', start, db.rels)
    {
      var t := rel.order[i];
      var weight := rel.WeightOf(t);
      assert rel.order[..i + 1] == rel.order[..i] + [t];
      assert t !in rel.order[..i];
      assert db.Weight(Fact(p, t)) == WeightIn(was, Fact(p, t)) == weight;
      if weight > 0 {
        dirty' := dirty'[Fact(p, t) := weight];
        var keep := Max(groundRel.WeightOf(t), 0);
        assert ground.Weight(Fact(p, t)) == groundRel.WeightOf(t);
        ghost var before := db.rels;
        label L:
        var _ := db.AddWeighted(p, t, keep - weight);
        forall f ensures if f in dirty' then dirty'[f] == WeightIn(start, f) else WeightIn(db.rels, f) == WeightIn(start, f) {
          assert db.Weight(f) == WeightIn(db.rels, f) && old@L(db.Weight(f)) == WeightIn(before, f);
        }
      }
    }
    assert rel.order[..|rel.order|] == rel.order;
    forall f: Fact | f.pred == p && WeightIn(was, f) > 0 ensures f.values in rel.order {
      assert f.values in rel.weights;
    }
  }

  /** Reduce every head to its ground part, and remember what was present. */
  method WipeDerived(heads: set<string>, db: Database, ground: Database) returns (dirty: DirtyMap)
    requires db.Valid() && ground.Valid() && db != ground
    modifies db
    ensures db.Valid()
    ensures forall f :: db.Weight(f) == if f.pred in heads && old(db.Weight(f)) > 0 then Max(ground.Weight(f), 0) else old(db.Weight(f))
    ensures Tracks(dirty, old(db.rels), db.rels)
  {
    ghost var start := db.rels;
    dirty := map[];
    var todo := heads;
    ghost var done: set<string> := {};
    while todo != {}
      invariant db.Valid() && todo !! done && todo + done == heads
      invariant forall f ::
        db.Weight(f) == if f.pred in done && WeightIn(start, f) > 0 then Max(ground.Weight(f), 0) else WeightIn(start, f)
      invariant Tracks(dirty, start, db.rels)
      decreases todo
    {
      var p :| p in todo;
      assert forall t :: WeightIn(db.rels, Fact(p, t)) == db.Weight(Fact(p, t));
      dirty := WipeRelation(p, db, ground, dirty, start);
      todo := todo - {p};
      done := done + {p};
    }
  }

  // ---------------------------------------------------------------------
  // The recompute gate
  // ---------------------------------------------------------------------

  /** `el` loses derivations when its relation changes by `delta`. */
  ghost predicate LosesBy(el: Element, delta: Store) {
    || (el.Positive? && exists t :: WeightIn(delta, Fact(el.atom.pred, t)) < 0)
    || (el.Negation? && exists t :: WeightIn(delta, Fact(el.atom.pred, t)) > 0)
  }

  /** The predicates with a negative, and those with a positive, entry. */
  method SignedPredicates(delta: Database) returns (retracting: set<string>, inserting: set<string>)
    requires delta.Valid()
    ensures forall p :: p in retracting <==> exists t :: delta.Weight(Fact(p, t)) < 0
    ensures forall p :: p in inserting <==> exists t :: delta.Weight(Fact(p, t)) > 0
  {
    var s := delta.rels;
    retracting := set p | p in s.Keys && HasSign(s[p], -1);
    inserting := set p | p in s.Keys && HasSign(s[p], 1);
    forall p: string
      ensures p in retracting <==> exists t :: delta.Weight(Fact(p, t)) < 0
      ensures p in inserting <==> exists t :: delta.Weight(Fact(p, t)) > 0
    {
      var r := Get(s, p);
      GetValid(s, p);
      HasSignIs(r);
      assert forall t :: delta.Weight(Fact(p, t)) == r.WeightOf(t);
    }
  }

  /** Some entry has the given sign. */
  predicate HasSign(r: Relation, sign: int) {
    exists i :: 0 <= i < |r.order| && r.WeightOf(r.order[i]) * sign > 0
  }

  lemma HasSignIs(r: Relation)
    requires r.Valid()
    ensures HasSign(r, -1) <==> exists t :: r.WeightOf(t) < 0
    ensures HasSign(r, 1) <==> exists t :: r.WeightOf(t) > 0
  {
    if t :| r.WeightOf(t) < 0 {
      assert t in r.order;
    }
    if t :| r.WeightOf(t) > 0 {
      assert t in r.order;
    }
  }

  predicate LosesIn(el: Element, retracting: set<string>, inserting: set<string>) {
    (el.Positive? && el.atom.pred in retracting) || (el.Negation? && el.atom.pred in inserting)
  }

  ghost predicate LosesAny(rules: seq<Rule>, delta: Store) {
    exists r, i :: 0 <= r < |rules| && 0 <= i < |rules[r].body| && LosesBy(rules[r].body[i], delta)
  }

  /** Can the delta remove a derivation of these rules? */
  method RetractsInto(rules: seq<Rule>, inputDelta: Database) returns (retracts: bool)
    requires inputDelta.Valid()
    ensures retracts <==> LosesAny(rules, inputDelta.rels)
  {
    var retracting, inserting := SignedPredicates(inputDelta);
    assert forall f :: inputDelta.Weight(f) == WeightIn(inputDelta.rels, f);
    forall r, i | 0 <= r < |rules| && 0 <= i < |rules[r].body|
      ensures LosesBy(rules[r].body[i], inputDelta.rels) <==> LosesIn(rules[r].body[i], retracting, inserting)
    {
    }
    retracts := exists r :: 0 <= r < |rules| && exists i :: 0 <= i < |rules[r].body| && LosesIn(rules[r].body[i], retracting, inserting);
  }

  /** A retraction reaches a recursive stratum that has something to lose. */
  method RetractsIntoRecursion(rules: seq<Rule>, db: Database, inputDelta: Database) returns (retracts: bool)
    requires db.Valid() && inputDelta.Valid()
    ensures retracts <==>
      && !NonRecursive(rules)
      && (exists f: Fact :: f.pred in HeadPredicates(rules) && db.Weight(f) != 0)
      && LosesAny(rules, inputDelta.rels)
  {
    var heads := HeadPredicates(rules);
    var recursive := exists r :: 0 <= r < |rules| && exists p :: p in BodyPredicates(rules[r].body) && p in heads;
    assert recursive <==> !NonRecursive(rules) by {
      if r, p :| 0 <= r < |rules| && p in BodyPredicates(rules[r].body) && p in heads {
        assert p in ReadPredicates(rules);
      }
    }
    if !recursive {
      return false;
    }
    var derived := exists p :: p in heads && |db.GetRelation(p).order| > 0;
    assert derived <==> exists f: Fact :: f.pred in heads && db.Weight(f) != 0 by {
      forall p ensures |Get(db.rels, p).order| > 0 <==> exists t :: db.Weight(Fact(p, t)) != 0 {
        var r := Get(db.rels, p);
        GetValid(db.rels, p);
        assert forall t :: db.Weight(Fact(p, t)) == r.WeightOf(t);
        assert forall t :: t in r.order <==> r.WeightOf(t) != 0;
        assert |r.order| > 0 ==> r.order[0] in r.order;
      }
      if f: Fact :| f.pred in heads && db.Weight(f) != 0 {
        assert f == Fact(f.pred, f.values);
      }
    }
    if !derived {
      return false;
    }
    retracts := RetractsInto(rules, inputDelta);
  }

  // ---------------------------------------------------------------------
  // Recomputing
  // ---------------------------------------------------------------------

  /** Every present fact of `p`, as +1. */
  method SeedRelation(p: string, db: Database, inputDelta: Database)
    requires db.Valid() && inputDelta.Valid() && db != inputDelta
    requires forall t :: inputDelta.Weight(Fact(p, t)) == 0
    modifies inputDelta
    ensures inputDelta.Valid()
    ensures forall f: Fact :: f.pred != p ==> inputDelta.Weight(f) == old(inputDelta.Weight(f))
    ensures forall t :: inputDelta.Weight(Fact(p, t)) == Sign(db.Weight(Fact(p, t)))
  {
    var rel := db.GetRelation(p);
    GetValid(db.rels, p);
    for i := 0 to |rel.order|
      invariant inputDelta.Valid()
      invariant forall f: Fact :: f.pred != p ==> inputDelta.Weight(f) == old(inputDelta.Weight(f))
      invariant forall t :: inputDelta.Weight(Fact(p, t)) == if t in rel.order[..i] then Sign(rel.WeightOf(t)) else 0
    {
      var t := rel.order[i];
      assert rel.order[..i + 1] == rel.order[..i] + [t];
      assert t !in rel.order[..i];
      if rel.WeightOf(t) > 0 {
        var _ := inputDelta.AddWeighted(p, t, 1);
      }
    }
    assert rel.order[..|rel.order|] == rel.order;
    forall t ensures inputDelta.Weight(Fact(p, t)) == Sign(db.Weight(Fact(p, t))) {
      assert t in rel.order <==> t in rel.weights;
    }
  }

  /** Every present fact of the given predicates, as +1: to the loop, all of it
      is new. */
  method SeedInputs(preds: set<string>, db: Database) returns (inputDelta: Database)
    requires db.Valid()
    ensures fresh(inputDelta) && inputDelta.Valid()
    ensures InputFlips(inputDelta.rels, Outside(Facts(db.rels), preds), Facts(db.rels))
  {
    inputDelta := new Database();
    var todo := preds;
    ghost var done: set<string> := {};
    while todo != {}
      invariant inputDelta.Valid() && todo !! done && todo + done == preds
      invariant forall f :: inputDelta.Weight(f) == if f.pred in done then Sign(db.Weight(f)) else 0
      decreases todo
    {
      var p :| p in todo;
      SeedRelation(p, db, inputDelta);
      todo := todo - {p};
      done := done + {p};
      forall f: Fact | f.pred == p ensures inputDelta.Weight(f) == Sign(db.Weight(f)) {
        assert f == Fact(p, f.values);
      }
    }
    FactsAre(db.rels);
    forall p ensures Flips(Get(inputDelta.rels, p), Outside(Facts(db.rels), preds), Facts(db.rels), p) {
      GetValid(inputDelta.rels, p);
      forall t ensures Get(inputDelta.rels, p).WeightOf(t)
        == Presence(Facts(db.rels), Fact(p, t)) - Presence(Outside(Facts(db.rels), preds), Fact(p, t))
      {
        assert inputDelta.Weight(Fact(p, t)) == Get(inputDelta.rels, p).WeightOf(t);
        assert db.Weight(Fact(p, t)) == WeightIn(db.rels, Fact(p, t));
      }
    }
  }

  ghost function Outside(I: Interpretation, preds: set<string>): Interpretation {
    set f | f in I && f.pred !in preds
  }

  /** Only the heads moved, and by the flips in `delta`. */
  ghost predicate Moved(rules: seq<Rule>, ground: Store, before: Store, after: Store, delta: Store) {
    && ValidStore(after) && ValidStore(delta)
    && Carries(after, ground)
    && FlipsBetween(delta, before, after)
    && SameOff(after, before, HeadPredicates(rules))
  }

  /** What a recomputation leaves behind. Where it is cut off, what follows takes
      more rounds of consequences than the cap allows. */
  ghost predicate Updated(rules: seq<Rule>, ground: Store, before: Store, after: Store, delta: Store, exhausted: bool) {
    && Moved(rules, ground, before, after, delta)
    && (exhausted ==> StratumOk(rules, ground, after))
    && (!exhausted ==> TakesMoreThan(rules, Facts(ground), Facts(after), MAX_ITERATIONS))
  }

  /** The same of a stratum that a step cuts off: it may start from the facts that
      stayed without their ground part, too. */
  ghost predicate CutOff(rules: seq<Rule>, ground0: Store, ground: Store, s1: Store, s: Store) {
    || TakesMoreThan(rules, Facts(ground), Facts(s), MAX_ITERATIONS)
    || TakesMoreThan(rules, Facts(ground) + Held(rules, ground0, ground, s1, s1), Facts(s), MAX_ITERATIONS)
  }

  /** What a step leaves behind, in a stratum whose heads it found as in `s1`, when
      its inputs had been `O`. */
  ghost predicate Carried(rules: seq<Rule>, ground0: Store, ground: Store, O: Interpretation, s1: Store, before: Store, after: Store, delta: Store,
                          exhausted: bool) {
    && Moved(rules, ground, before, after, delta)
    && (exhausted ==> StratumLeft(rules, ground0, ground, s1, after) && StratumTold(rules, ground0, ground, O, s1, after))
    && (!exhausted ==> CutOff(rules, ground0, ground, s1, after))
  }

  lemma UpdatedIsCarried(rules: seq<Rule>, ground0: Store, ground: Store, O: Interpretation, s1: Store, before: Store, after: Store, delta: Store,
                         exhausted: bool)
    requires Updated(rules, ground, before, after, delta, exhausted)
    requires NonRecursive(rules) || Fires(rules, O, s1, after)
    ensures Carried(rules, ground0, ground, O, s1, before, after, delta, exhausted)
  {
    if exhausted {
      OkIsLeft(rules, ground0, ground, s1, after);
    }
  }

  lemma SeededIsExact(rules: seq<Rule>, ground: Store, pass: StratumPass, O: Interpretation, start: Store, after: Store)
    requires NonRecursive(rules) && CountedSeeds(rules, ground, pass, O, start)
    requires forall f :: WeightIn(after, f) == Seeded(rules, pass, O, start, f)
    requires SameOff(after, start, HeadPredicates(rules))
    ensures ExactWeights(rules, ground, Facts(after), after)
  {
    FactsAre(start);
    FactsAre(after);
    forall f: Fact | f.pred in HeadPredicates(rules) ensures ExactWeight(rules, ground, Facts(start), after, f) {
      assert CountedSeed(rules, ground, pass, O, start, f);
    }
    ExactSameReads(rules, ground, Facts(start), Facts(after), after);
  }

  lemma FlipsCompose(d1: Store, d2: Store, total: Store, a: Store, b: Store, c: Store)
    requires FlipsBetween(d1, a, b) && FlipsBetween(d2, b, c)
    requires forall f :: WeightIn(total, f) == WeightIn(d1, f) + WeightIn(d2, f)
    ensures FlipsBetween(total, a, c)
  {
  }

  /** Derive a stratum from the ground part of its heads. */
  method Rederive(rules: seq<Rule>, db: Database, ground: Database) returns (delta: Database, exhausted: bool)
    requires SafeProgram(rules) && NegationsBelow(rules)
    requires db.Valid() && ground.Valid() && db != ground
    requires Carries(db.rels, ground.rels)
    requires forall f: Fact :: f.pred in HeadPredicates(rules) ==> WeightIn(db.rels, f) == WeightIn(ground.rels, f)
    modifies db
    ensures fresh(delta)
    ensures Updated(rules, ground.rels, old(db.rels), db.rels, delta.rels, exhausted)
  {
    ghost var start := db.rels;
    var preds := HeadPredicates(rules) + ReadPredicates(rules);
    var inputDelta := SeedInputs(preds, db);
    ghost var O := Outside(Facts(start), preds);
    RecomputeSeedsAreGood(rules, ground.rels, O, start);
    delta, exhausted := EvaluateStratumSemiNaive(rules, db, inputDelta, Recompute, Facts(ground.rels), ground.rels, O);
    if NonRecursive(rules) {
      SeededIsExact(rules, ground.rels, Recompute, O, start, db.rels);
    }
  }

  /** Wipe, and report what was removed. */
  method WipeToGround(heads: set<string>, db: Database, ground: Database) returns (delta: Database)
    requires db.Valid() && ground.Valid() && db != ground
    requires Carries(db.rels, ground.rels)
    modifies db
    ensures db.Valid() && fresh(delta) && delta.Valid() && Carries(db.rels, ground.rels)
    ensures FlipsBetween(delta.rels, old(db.rels), db.rels)
    ensures SameOff(db.rels, old(db.rels), heads)
    ensures forall f: Fact :: f.pred in heads ==> WeightIn(db.rels, f) == WeightIn(ground.rels, f)
  {
    ghost var first := db.rels;
    assert forall f :: db.Weight(f) == WeightIn(first, f) && ground.Weight(f) == WeightIn(ground.rels, f);
    var wiped := WipeDerived(heads, db, ground);
    assert forall f :: db.Weight(f) == WeightIn(db.rels, f);
    delta := ExtractDelta(db, wiped, first);
  }

  lemma UpdatedAfterWipe(rules: seq<Rule>, ground: Store, first: Store, start: Store, after: Store, d1: Store, d2: Store, total: Store,
                         exhausted: bool)
    requires FlipsBetween(d1, first, start) && SameOff(start, first, HeadPredicates(rules))
    requires Updated(rules, ground, start, after, d2, exhausted) && ValidStore(total)
    requires forall f :: WeightIn(total, f) == WeightIn(d1, f) + WeightIn(d2, f)
    ensures Updated(rules, ground, first, after, total, exhausted)
  {
    FlipsCompose(d1, d2, total, first, start, after);
  }

  /** Wipe a stratum's derived facts and derive them again from its inputs,
      whatever was derived before. */
  method RecomputeStratum(rules: seq<Rule>, db: Database, ground: Database) returns (delta: Database, exhausted: bool)
    requires SafeProgram(rules) && NegationsBelow(rules)
    requires db.Valid() && ground.Valid() && db != ground
    requires Carries(db.rels, ground.rels)
    modifies db
    ensures fresh(delta)
    ensures Updated(rules, ground.rels, old(db.rels), db.rels, delta.rels, exhausted)
  {
    ghost var first := db.rels;
    delta := WipeToGround(HeadPredicates(rules), db, ground);
    ghost var start, wipeDelta := db.rels, delta.rels;
    var loopDelta;
    loopDelta, exhausted := Rederive(rules, db, ground);
    delta.AddAllWeighted(loopDelta);
    assert forall f :: delta.Weight(f) == WeightIn(delta.rels, f) && loopDelta.Weight(f) == WeightIn(loopDelta.rels, f);
    UpdatedAfterWipe(rules, ground.rels, first, start, db.rels, wipeDelta, loopDelta.rels, delta.rels, exhausted);
  }

  // ---------------------------------------------------------------------
  // Bringing a stratum up to date
  // ---------------------------------------------------------------------

  /** What a step knows when it comes to a stratum: the delta is the flips since
      the old facts `O`, over which the stratum was in order with the old ground
      part; its weights have moved with the ground part and still tell what was
      derived. */
  ghost predicate StratumReady(rules: seq<Rule>, ground0: Store, ground: Store, O: Interpretation, s: Store, inputDelta: Store) {
    && InputFlips(inputDelta, O, Facts(s))
    && Least(rules, Facts(ground0), O)
    && Carries(s, ground)
    && (forall f :: Derives(rules, O, f) ==> WeightIn(s, f) > WeightIn(ground, f))
    && (forall f: Fact :: f.pred in HeadPredicates(rules) && f in Facts(s) ==> f in O || f in Facts(ground))
    && (NonRecursive(rules) ==> ExactWeights(rules, ground, O, s))
  }

  lemma NoLossGrows(rules: seq<Rule>, O: Interpretation, N: Interpretation, delta: Store)
    requires InputFlips(delta, O, N) && !LosesAny(rules, delta)
    ensures Grows(rules, O, N)
  {
    forall r, i | 0 <= r < |rules| && 0 <= i < |rules[r].body|
      ensures var el := rules[r].body[i];
        && (el.Positive? ==> Tuples(O, el.atom.pred) <= Tuples(N, el.atom.pred))
        && (el.Negation? ==> Tuples(N, el.atom.pred) <= Tuples(O, el.atom.pred))
    {
      var el := rules[r].body[i];
      assert !LosesBy(el, delta);
      if el.ReadsRelation() {
        var p := el.atom.pred;
        TuplesAre(O, p);
        TuplesAre(N, p);
        assert Flips(Get(delta, p), O, N, p);
        assert forall t :: WeightIn(delta, Fact(p, t)) == Get(delta, p).WeightOf(t);
      }
    }
  }

  /** The facts a stratum starts from: the ground ones, and in a recursive stratum
      those that stayed without their ground part. */
  ghost function StartsFrom(rules: seq<Rule>, ground0: Store, ground: Store, s: Store): Interpretation {
    if NonRecursive(rules) then Facts(ground) else Facts(ground) + Held(rules, ground0, ground, s, s)
  }

  /** The recompute gate, in words of the facts: a recursive stratum that holds
      something has an input that may remove a derivation. */
  ghost predicate GateFires(rules: seq<Rule>, s: Store, delta: Store) {
    && !NonRecursive(rules)
    && (exists f: Fact :: f.pred in HeadPredicates(rules) && WeightIn(s, f) != 0)
    && LosesAny(rules, delta)
  }

  lemma ReadySeeds(rules: seq<Rule>, ground0: Store, ground: Store, O: Interpretation, s: Store, inputDelta: Store)
    requires NegationsBelow(rules) && ValidStore(s)
    requires StratumReady(rules, ground0, ground, O, s, inputDelta) && !GateFires(rules, s, inputDelta)
    ensures GoodSeeds(rules, StartsFrom(rules, ground0, ground, s), ground, StepPass, O, s)
    ensures NonRecursive(rules) ==> CountedSeeds(rules, ground, StepPass, O, s)
  {
    FactsAre(s);
    FactsAre(ground);
    if NonRecursive(rules) {
      ExactAfterStep(rules, ground, O, s);
      CountedSeedsAreGood(rules, ground, StepPass, O, s);
    } else if !LosesAny(rules, inputDelta) {
      NoLossGrows(rules, O, Facts(s), inputDelta);
      GrowingSeedsAreGood(rules, Facts(ground0), StartsFrom(rules, ground0, ground, s), ground, O, s);
    } else {
      EmptySeedsAreGood(rules, StartsFrom(rules, ground0, ground, s), ground, O, s);
    }
  }

  /** After the loop what stayed at the start is still present. */
  lemma LoopLeaves(rules: seq<Rule>, ground0: Store, ground: Store, s1: Store, start: Store, after: Store)
    requires forall f: Fact :: f.pred in HeadPredicates(rules) ==> WeightIn(start, f) == WeightIn(s1, f)
    requires !NonRecursive(rules) && Least(rules, StartsFrom(rules, ground0, ground, start), Facts(after)) && Rests(rules, ground, after)
    ensures StratumLeft(rules, ground0, ground, s1, after) && Held(rules, ground0, ground, s1, s1) <= Facts(after)
  {
    FactsAre(start);
    FactsAre(s1);
    assert StartsFrom(rules, ground0, ground, start) == Facts(ground) + Held(rules, ground0, ground, s1, after);
  }

  lemma LoopCutOff(rules: seq<Rule>, ground0: Store, ground: Store, s1: Store, start: Store, after: Store)
    requires forall f: Fact :: f.pred in HeadPredicates(rules) ==> WeightIn(start, f) == WeightIn(s1, f)
    requires !NonRecursive(rules) && TakesMoreThan(rules, StartsFrom(rules, ground0, ground, start), Facts(after), MAX_ITERATIONS)
    ensures CutOff(rules, ground0, ground, s1, after)
  {
    FactsAre(start);
    FactsAre(s1);
    assert StartsFrom(rules, ground0, ground, start) == Facts(ground) + Held(rules, ground0, ground, s1, s1);
  }

  /** The gate reads the change off the delta. */
  lemma LosesInFacts(rules: seq<Rule>, O: Interpretation, N: Interpretation, delta: Store)
    requires InputFlips(delta, O, N)
    ensures LosesAny(rules, delta) <==> LosesBetween(rules, O, N)
  {
    forall r, i | 0 <= r < |rules| && 0 <= i < |rules[r].body|
      ensures LosesBy(rules[r].body[i], delta) <==> ElementLoses(rules[r].body[i], O, N)
    {
      ElementLosesInFacts(rules[r].body[i], O, N, delta);
    }
  }

  lemma ElementLosesInFacts(el: Element, O: Interpretation, N: Interpretation, delta: Store)
    requires InputFlips(delta, O, N)
    ensures LosesBy(el, delta) <==> ElementLoses(el, O, N)
  {
    if el.ReadsRelation() {
      var p := el.atom.pred;
      assert Flips(Get(delta, p), O, N, p);
      forall t ensures WeightIn(delta, Fact(p, t)) == Presence(N, Fact(p, t)) - Presence(O, Fact(p, t)) {
        assert WeightIn(delta, Fact(p, t)) == Get(delta, p).WeightOf(t);
      }
    }
  }

  /** What the gate sees does not depend on what the stratum then does. */
  lemma GateSees(rules: seq<Rule>, O: Interpretation, s1: Store, start: Store, after: Store, delta: Store)
    requires InputFlips(delta, O, Facts(start)) && SameOff(after, start, HeadPredicates(rules))
    requires forall f: Fact :: f.pred in HeadPredicates(rules) ==> WeightIn(start, f) == WeightIn(s1, f)
    ensures GateFires(rules, start, delta) <==> Fires(rules, O, s1, after)
  {
    LosesInFacts(rules, O, Facts(start), delta);
    FactsAre(s1);
    FactsAre(start);
    FactsAre(after);
    assert Graft(rules, Facts(after), Facts(s1)) == Facts(start);
  }

  /** The gate and the two ways behind it. Where the gate fires, or nothing is
      recursive, the stratum ends in order; elsewhere it ends in order but for
      facts that hold themselves up. */
  method EvaluateStratumFromDelta(rules: seq<Rule>, db: Database, inputDelta: Database, ground: Database,
                                  ghost ground0: Store, ghost O: Interpretation, ghost s1: Store)
    returns (delta: Database, exhausted: bool)
    requires SafeProgram(rules) && NegationsBelow(rules)
    requires db.Valid() && inputDelta.Valid() && ground.Valid() && db != ground && db != inputDelta
    requires StratumReady(rules, ground0, ground.rels, O, db.rels, inputDelta.rels)
    requires forall f: Fact :: f.pred in HeadPredicates(rules) ==> WeightIn(db.rels, f) == WeightIn(s1, f)
    modifies db
    ensures fresh(delta)
    ensures Carried(rules, ground0, ground.rels, O, s1, old(db.rels), db.rels, delta.rels, exhausted)
    ensures NonRecursive(rules) || old(GateFires(rules, db.rels, inputDelta.rels)) ==>
      Updated(rules, ground.rels, old(db.rels), db.rels, delta.rels, exhausted)
    ensures NonRecursive(rules) ==> exhausted
  {
    ghost var start := db.rels;
    assert forall f :: db.Weight(f) == WeightIn(start, f) && ground.Weight(f) == WeightIn(ground.rels, f);
    var recompute := RetractsIntoRecursion(rules, db, inputDelta);
    assert recompute <==> GateFires(rules, start, inputDelta.rels);
    if recompute {
      delta, exhausted := RecomputeStratum(rules, db, ground);
      GateSees(rules, O, s1, start, db.rels, inputDelta.rels);
      UpdatedIsCarried(rules, ground0, ground.rels, O, s1, start, db.rels, delta.rels, exhausted);
      return;
    }
    ghost var G := StartsFrom(rules, ground0, ground.rels, start);
    ReadySeeds(rules, ground0, ground.rels, O, start, inputDelta.rels);
    delta, exhausted := EvaluateStratumSemiNaive(rules, db, inputDelta, StepPass, G, ground.rels, O);
    if NonRecursive(rules) {
      SeededIsExact(rules, ground.rels, StepPass, O, start, db.rels);
      UpdatedIsCarried(rules, ground0, ground.rels, O, s1, start, db.rels, delta.rels, exhausted);
    } else if exhausted {
      GateSees(rules, O, s1, start, db.rels, inputDelta.rels);
      LoopLeaves(rules, ground0, ground.rels, s1, start, db.rels);
    } else {
      LoopCutOff(rules, ground0, ground.rels, s1, start, db.rels);
    }
  }
}
