/** The weighted semi-naive loop over one stratum
    (packages/datalog/src/evaluator.ts, `evaluateStratumSemiNaive`). */
module SemiNaive {
  import opened Values
  import opened Syntax
  import opened Unify
  import opened ZRelation
  import opened Databases
  import opened Joins
  import opened Evaluate
  import opened Semantics
  import opened Telescope
  import opened Models
  import opened Stages
  import opened Deltas
  import opened Firing

  /** Why a rule with nothing to join against runs: its stratum is being derived
      again from nothing, or a delta has arrived. */
  datatype StratumPass = Recompute | StepPass

  const MAX_ITERATIONS: nat := 100_000

  ghost predicate HasPositive(body: seq<Element>) {
    exists i :: 0 <= i < |body| && body[i].Positive?
  }

  ghost predicate HasNegation(body: seq<Element>) {
    exists i :: 0 <= i < |body| && body[i].Negation?
  }

  /** The rule set, not a delta, decides when the rule runs. */
  ghost predicate DrivenByTheRuleSet(rule: Rule, pass: StratumPass) {
    !HasPositive(rule.body) && (!HasNegation(rule.body) || pass.Recompute?)
  }

  /** What the seed phase adds to the weight of `f` for one rule. */
  ghost function RuleSeed(rule: Rule, pass: StratumPass, O: Interpretation, N: Interpretation, f: Fact): int {
    if rule.head.pred != f.pred then 0
    else if DrivenByTheRuleSet(rule, pass) then Count(rule, N, f.values)
    else Count(rule, N, f.values) - Count(rule, O, f.values)
  }

  ghost function SeedChange(rules: seq<Rule>, n: nat, pass: StratumPass, O: Interpretation, N: Interpretation, f: Fact): int
    requires n <= |rules|
  {
    if n == 0 then 0 else SeedChange(rules, n - 1, pass, O, N, f) + RuleSeed(rules[n - 1], pass, O, N, f)
  }

  ghost predicate ShapesOf(rules: seq<Rule>, shapes: seq<RuleDeltaShape>) {
    |shapes| == |rules| && forall r :: 0 <= r < |rules| ==> ShapeOf(shapes[r], rules[r].body)
  }

  // ---------------------------------------------------------------------
  // Seed phase
  // ---------------------------------------------------------------------

  /** The input delta is the presence flips from `O` to what the database holds. */
  ghost predicate InputFlips(inputDelta: Store, O: Interpretation, N: Interpretation) {
    forall p :: Flips(Get(inputDelta, p), O, N, p)
  }

  /** The view shows the old facts. */
  ghost predicate ShowsOld(view: DatabaseView, O: Interpretation)
    reads view, view.base, view.delta
  {
    forall p :: Shows(view.Current(p), O, p)
  }

  lemma FreshViewShowsOld(view: DatabaseView, O: Interpretation)
    requires view.Valid() && view.cache == map[]
    requires InputFlips(view.delta.rels, O, Facts(view.base.rels))
    ensures ShowsOld(view, O)
  {
    forall p ensures Shows(view.Current(p), O, p) {
      var base, delta := view.base.GetRelation(p), view.delta.GetRelation(p);
      GetValid(view.base.rels, p);
      ShowsFacts(view.base.rels, p);
      assert Flips(delta, O, Facts(view.base.rels), p);
      PresenceBeforeIs(base, delta);
      if delta.order == [] {
        NoEntriesNoFlips(delta, O, Facts(view.base.rels), p);
        TuplesAre(O, p);
        TuplesAre(Facts(view.base.rels), p);
      }
    }
  }

  lemma SeedAsymmetric(body: seq<Element>, j: nat, view: DatabaseView, db: Database, inputDelta: Database, O: Interpretation)
    requires view.Valid() && view.base == db && view.delta == inputDelta && ShowsOld(view, O)
    requires InputFlips(inputDelta.rels, O, Facts(db.rels))
    ensures Asymmetric(body, j, O, Facts(db.rels), DeltaRelations(body, j, view, db, inputDelta))
  {
    var N := Facts(db.rels);
    var rels := DeltaRelations(body, j, view, db, inputDelta);
    forall i | 0 <= i < |body| && body[i].ReadsRelation()
      ensures var p := body[i].atom.pred;
        (i < j ==> Shows(rels[i], N, p)) && (i == j ==> Flips(rels[i], O, N, p)) && (i > j ==> Shows(rels[i], O, p))
    {
      var p := body[i].atom.pred;
      ShowsFacts(db.rels, p);
      assert rels[i] == DeltaRelation(body, i, j, view, db, inputDelta);
      if i < j && p !in inputDelta.rels.Keys {
        NoEntriesNoFlips(Get(inputDelta.rels, p), O, N, p);
        TuplesAre(O, p);
        TuplesAre(N, p);
        assert Shows(view.Current(p), O, p);
      }
    }
  }

  ghost predicate AllShow(shown: imap<string, Relation>, O: Interpretation) {
    forall p :: p in shown && Shows(shown[p], O, p)
  }

  lemma ShownIsCurrent(view: DatabaseView, O: Interpretation)
    ensures AllShow(view.Shown(), O) <==> ShowsOld(view, O)
  {
    if AllShow(view.Shown(), O) {
      forall p ensures Shows(view.Current(p), O, p) {
        assert view.Shown()[p] == view.Current(p);
      }
    }
  }

  lemma OtherPredicates(list: seq<WeightedFact>, p: string, f: Fact)
    requires Grounded(list, p) && f.pred != p
    ensures ListWeight(list, f) == 0
  {
    ListWeightAbsent(list, f);
  }

  /** Drive one element by its delta, unless its relation did not change. */
  method DriveSeed(rule: Rule, j: nat, view: DatabaseView, db: Database, inputDelta: Database, ghost O: Interpretation)
    returns (derived: seq<WeightedFact>)
    requires SafeRule(rule) && j < |rule.body| && rule.body[j].ReadsRelation()
    requires view.Valid() && view.base == db && view.delta == inputDelta && AllShow(view.Shown(), O)
    requires InputFlips(inputDelta.rels, O, Facts(db.rels))
    modifies view
    ensures view.Valid() && view.Shown() == old(view.Shown())
    ensures forall f ::
      ListWeight(derived, f) == if f.pred == rule.head.pred then DrivenCount(rule, O, Facts(db.rels), j, f.values) else 0
  {
    ghost var N := Facts(db.rels);
    var p := rule.body[j].atom.pred;
    if |inputDelta.GetRelation(p).order| == 0 {
      NoEntriesNoFlips(Get(inputDelta.rels, p), O, N, p);
      forall t ensures DrivenCount(rule, O, N, j, t) == 0 {
        UnchangedContributesNothing(rule, O, N, j, t);
      }
      return [];
    }
    ShownIsCurrent(view, O);
    SeedAsymmetric(rule.body, j, view, db, inputDelta, O);
    ghost var rels := DeltaRelations(rule.body, j, view, db, inputDelta);
    var indexed: set<nat> := *;
    derived := EvaluateRuleDelta(rule, view, db, inputDelta, j, indexed);
    forall f: Fact
      ensures ListWeight(derived, f) == if f.pred == rule.head.pred then DrivenCount(rule, O, N, j, f.values) else 0
    {
      if f.pred == rule.head.pred {
        assert f == Fact(rule.head.pred, f.values);
        DrivenResults(derived, rule, j, O, N, rels, f.values);
      } else {
        OtherPredicates(derived, rule.head.pred, f);
      }
    }
  }

  /** Drive the elements of one rule whose relation changed. */
  method DriveSeeds(rule: Rule, shape: RuleDeltaShape, view: DatabaseView, db: Database, inputDelta: Database, ghost O: Interpretation)
    returns (seeds: seq<WeightedFact>)
    requires SafeRule(rule) && ShapeOf(shape, rule.body)
    requires view.Valid() && view.base == db && view.delta == inputDelta && AllShow(view.Shown(), O)
    requires InputFlips(inputDelta.rels, O, Facts(db.rels))
    modifies view
    ensures view.Valid() && view.Shown() == old(view.Shown())
    ensures forall f ::
      ListWeight(seeds, f) == if rule.head.pred == f.pred then Count(rule, Facts(db.rels), f.values) - Count(rule, O, f.values) else 0
  {
    ghost var N := Facts(db.rels);
    seeds := [];
    for k := 0 to |shape.sources|
      invariant view.Valid() && view.Shown() == old(view.Shown())
      invariant SourcesDriven(seeds, rule, O, N, shape.sources[..k])
    {
      var j := shape.sources[k];
      var derived := DriveSeed(rule, j, view, db, inputDelta, O);
      OneMoreDriven(seeds, derived, rule, O, N, shape.sources, k);
      seeds := seeds + derived;
    }
    AllDriven(seeds, rule, shape, O, N);
  }

  /** What the given sources contribute together. */
  ghost predicate SourcesDriven(seeds: seq<WeightedFact>, rule: Rule, O: Interpretation, N: Interpretation, sources: seq<nat>) {
    forall f :: ListWeight(seeds, f) == if rule.head.pred == f.pred then SourceSum(rule, O, N, sources, f.values) else 0
  }

  lemma OneMoreDriven(seeds: seq<WeightedFact>, derived: seq<WeightedFact>, rule: Rule, O: Interpretation, N: Interpretation, sources: seq<nat>, k: nat)
    requires k < |sources| && SourcesDriven(seeds, rule, O, N, sources[..k])
    requires forall f :: ListWeight(derived, f) == if f.pred == rule.head.pred then DrivenCount(rule, O, N, sources[k], f.values) else 0
    ensures SourcesDriven(seeds + derived, rule, O, N, sources[..k + 1])
  {
    assert sources[..k + 1] == sources[..k] + [sources[k]];
    forall f: Fact
      ensures ListWeight(seeds + derived, f) == if rule.head.pred == f.pred then SourceSum(rule, O, N, sources[..k + 1], f.values) else 0
    {
      ListWeightConcat(seeds, derived, f);
      SourceSumAppend(rule, O, N, sources[..k], sources[k], f.values);
    }
  }

  lemma AllDriven(seeds: seq<WeightedFact>, rule: Rule, shape: RuleDeltaShape, O: Interpretation, N: Interpretation)
    requires ShapeOf(shape, rule.body) && SourcesDriven(seeds, rule, O, N, shape.sources[..|shape.sources|])
    ensures forall f :: ListWeight(seeds, f) == if rule.head.pred == f.pred then Count(rule, N, f.values) - Count(rule, O, f.values) else 0
  {
    assert shape.sources[..|shape.sources|] == shape.sources;
    forall t ensures SourceSum(rule, O, N, shape.sources, t) == Count(rule, N, t) - Count(rule, O, t) {
      AsymmetricJoinTelescopes(rule, shape, O, N, t);
    }
  }

  /** A rule that reads no old or new facts apart from the current ones. */
  method FireRule(rule: Rule, db: Database) returns (derived: seq<WeightedFact>)
    requires SafeRule(rule) && db.Valid()
    ensures Grounded(derived, rule.head.pred)
    ensures forall f ::
      ListWeight(derived, f) == if rule.head.pred == f.pred then Count(rule, Facts(db.rels), f.values) else 0
  {
    var indexed: set<nat> := *;
    derived := EvaluateRule(rule, db, db, indexed);
    ghost var N := Facts(db.rels);
    ghost var rels := RelationsOf(rule.body, db.rels, db.rels);
    forall f: Fact ensures ListWeight(derived, f) == if rule.head.pred == f.pred then Count(rule, N, f.values) else 0 {
      if f.pred == rule.head.pred {
        assert f == Fact(rule.head.pred, f.values);
        FullResults(derived, rule, db.rels, f.values);
      } else {
        OtherPredicates(derived, rule.head.pred, f);
      }
    }
  }

  /** Full evaluation counts the derivations in what the database holds. */
  lemma FullResults(results: seq<WeightedFact>, rule: Rule, s: Store, t: Tuple)
    requires ValidStore(s)
    requires CountsDerivations(results, rule, RelationsOf(rule.body, s, s), -1)
    ensures ListWeight(results, Fact(rule.head.pred, t)) == Count(rule, Facts(s), t)
  {
    var N := Facts(s);
    var rels := RelationsOf(rule.body, s, s);
    var vars := PositiveVars(rule.body);
    var vals := Valuations(vars, Domain(N));
    forall sigma: Bindings ensures BodyProduct(rule.body, rels, -1, sigma) == RuleWays(rule, N, sigma) {
      forall i | 0 <= i < |rule.body|
        ensures ElementWeight(rule.body[i], rels[i], false, sigma) == Ways(rule.body[i], N, sigma)
      {
        if rule.body[i].ReadsRelation() {
          ShowsFacts(s, rule.body[i].atom.pred);
        }
        ShownWeight(rule.body[i], rels[i], N, sigma);
      }
      assert BodyWeights(rule.body, rels, -1, sigma) == BodyWays(rule.body, N, sigma);
    }
    forall sigma: Bindings | sigma.Keys == vars && BodyProduct(rule.body, rels, -1, sigma) != 0 ensures sigma in vals {
      RuleWaysPositive(rule, N, sigma);
      SatisfiedInDomain(rule, N, sigma);
      ValuationsAre(vars, Domain(N), sigma);
    }
    forall sigma | sigma in vals ensures sigma.Keys == vars {
      ValuationsAre(vars, Domain(N), sigma);
    }
    assert Covers(vals, rule, rels, -1);
    assert Contributions(rule, rels, -1, vals, t) == Derivations(rule, N, vals, t);
  }

  /** What one rule contributes to the seed phase. */
  method SeedRule(rule: Rule, shape: RuleDeltaShape, view: DatabaseView, db: Database, inputDelta: Database, pass: StratumPass,
                  hasEntries: bool, ghost O: Interpretation)
    returns (derived: seq<WeightedFact>)
    requires SafeRule(rule) && ShapeOf(shape, rule.body)
    requires view.Valid() && view.base == db && view.delta == inputDelta && AllShow(view.Shown(), O)
    requires InputFlips(inputDelta.rels, O, Facts(db.rels))
    requires hasEntries <==> inputDelta.HasAnyEntries()
    modifies view
    ensures view.Valid() && view.Shown() == old(view.Shown())
    ensures forall f :: ListWeight(derived, f) == RuleSeed(rule, pass, O, Facts(db.rels), f)
  {
    hide AllShow, BodyWays, Ways, Derivations, Valuations, Domain, RuleWays;
    if !shape.hasPositiveAtom && (!shape.hasNegation || pass.Recompute?) {
      derived := FireRule(rule, db);
    } else if hasEntries {
      derived := DriveSeeds(rule, shape, view, db, inputDelta, O);
    } else {
      derived := [];
      inputDelta.NoEntriesNoWeights();
      assert forall f :: inputDelta.Weight(f) == WeightIn(inputDelta.rels, f);
      NoFlipsSameFacts(inputDelta.rels, O, Facts(db.rels));
    }
  }

  /** Collect what the seed phase derives, without applying any of it. The total
      is the change in the number of derivations of every fact. */
  method SeedPhase(rules: seq<Rule>, shapes: seq<RuleDeltaShape>, db: Database, inputDelta: Database, pass: StratumPass,
                   ghost O: Interpretation)
    returns (seeds: seq<WeightedFact>)
    requires SafeProgram(rules) && ShapesOf(rules, shapes)
    requires db.Valid() && inputDelta.Valid()
    requires InputFlips(inputDelta.rels, O, Facts(db.rels))
    ensures forall f :: ListWeight(seeds, f) == SeedChange(rules, |rules|, pass, O, Facts(db.rels), f)
  {
    ghost var N := Facts(db.rels);
    var dbOld := new DatabaseView(db, inputDelta);
    FreshViewShowsOld(dbOld, O);
    ShownIsCurrent(dbOld, O);
    var hasEntries := inputDelta.HasAnyEntries();
    seeds := [];
    for r := 0 to |rules|
      invariant dbOld.Valid() && AllShow(dbOld.Shown(), O)
      invariant forall f :: ListWeight(seeds, f) == SeedChange(rules, r, pass, O, N, f)
    {
      var derived := SeedRule(rules[r], shapes[r], dbOld, db, inputDelta, pass, hasEntries, O);
      ghost var before := seeds;
      seeds := seeds + derived;
      forall f: Fact ensures ListWeight(seeds, f) == SeedChange(rules, r + 1, pass, O, N, f) {
        ListWeightConcat(before, derived, f);
      }
    }
  }

  lemma NoFlipsSameFacts(delta: Store, O: Interpretation, N: Interpretation)
    requires InputFlips(delta, O, N) && forall f :: WeightIn(delta, f) == 0
    ensures O == N
  {
    forall f ensures f in O <==> f in N {
      assert Flips(Get(delta, f.pred), O, N, f.pred);
      assert f == Fact(f.pred, f.values);
      assert WeightIn(delta, f) == Get(delta, f.pred).WeightOf(f.values);
    }
  }

  // ---------------------------------------------------------------------
  // Iteration phase
  // ---------------------------------------------------------------------

  /** One iteration: `S` is what the database holds when it starts and `P` what
      it held one iteration earlier, so that `S - P` is the current delta.
      `start` is the database before the stratum, `before` the database before
      the iteration, and `ground` the ground part of its weights. */
  datatype Iteration = Iteration(rules: seq<Rule>, G: Interpretation, ground: Store, P: Interpretation, S: Interpretation, start: Store, before: Store)
  {
    ghost predicate Ok() {
      && SafeProgram(rules) && NegationsBelow(rules)
      && AgreeOff(P, S, HeadPredicates(rules))
      && (forall f :: f in P && f.pred in ReadPredicates(rules) ==> f in S)
      && S == Facts(before)
    }
  }

  ghost predicate NoNegativeWeight(s: Store) {
    forall f :: WeightIn(s, f) >= 0
  }

  /** Every weight is at least its ground part. */
  ghost predicate Carries(s: Store, ground: Store) {
    forall f :: 0 <= WeightIn(ground, f) <= WeightIn(s, f)
  }

  /** The facts that weigh more than their ground part. */
  ghost function Above(ground: Store, s: Store): Interpretation {
    set f | f in Facts(s) && WeightIn(s, f) > WeightIn(ground, f)
  }

  lemma AboveIs(ground: Store, s: Store)
    requires Carries(s, ground)
    ensures forall f :: f in Above(ground, s) <==> WeightIn(s, f) > WeightIn(ground, f)
  {
    FactsAre(s);
  }

  ghost predicate SameWeights(s: Store, t: Store) {
    forall f :: WeightIn(s, f) == WeightIn(t, f)
  }

  /** What every write during an iteration keeps. */
  ghost predicate Advancing(it: Iteration, db: Store, nextDelta: Store, dirty: DirtyMap) {
    && ValidStore(db) && ValidStore(nextDelta)
    && Carries(db, it.ground)
    && it.S <= Facts(db) && AgreeOff(it.S, Facts(db), HeadPredicates(it.rules))
    && Supported(it.rules, it.G, Facts(db))
    && FlipsBetween(nextDelta, it.before, db)
    && Tracks(dirty, it.start, db)
    && (NonRecursive(it.rules) ==> SameWeights(db, it.before))
    && SameOff(db, it.before, HeadPredicates(it.rules))
  }

  /** The two give the same weights outside the predicates `H`. */
  ghost predicate SameOff(s: Store, t: Store, H: set<string>) {
    forall f: Fact :: f.pred !in H ==> WeightIn(s, f) == WeightIn(t, f)
  }

  /** The view's relations lie between the old facts and the live ones. */
  ghost predicate ViewBetween(it: Iteration, view: DatabaseView)
    reads view, view.base, view.delta
  {
    && view.Valid()
    && InputFlips(view.delta.rels, it.P, it.S)
    && forall p :: p in view.cache && p in ReadPredicates(it.rules) ==> Between(view.cache[p], it.P, Facts(view.base.rels), p)
  }

  lemma CurrentBetween(it: Iteration, view: DatabaseView, p: string)
    requires it.Ok() && ViewBetween(it, view) && p in ReadPredicates(it.rules)
    requires it.S <= Facts(view.base.rels)
    ensures Between(view.Current(p), it.P, Facts(view.base.rels), p)
    ensures view.delta.GetRelation(p).order == [] ==> Shows(view.Current(p), Facts(view.base.rels), p)
  {
    var base, delta := view.base.GetRelation(p), view.delta.GetRelation(p);
    ShowsFacts(view.base.rels, p);
    assert Flips(delta, it.P, it.S, p);
    if p !in view.cache && delta.order != [] {
      PresenceBeforeIs(base, delta);
      forall t ensures delta.WeightOf(t) >= 0 {
        assert delta.WeightOf(t) == Presence(it.S, Fact(p, t)) - Presence(it.P, Fact(p, t));
      }
    }
  }

  /** A negation reads below the heads, where nothing changes. */
  lemma NegatedUnchanged(it: Iteration, r: nat, i: nat, delta: Store)
    requires it.Ok() && r < |it.rules| && i < |it.rules[r].body| && it.rules[r].body[i].Negation?
    requires InputFlips(delta, it.P, it.S)
    ensures Get(delta, it.rules[r].body[i].atom.pred).order == []
  {
    var p := it.rules[r].body[i].atom.pred;
    TuplesAre(it.P, p);
    TuplesAre(it.S, p);
    NoEntriesNoFlips(Get(delta, p), it.P, it.S, p);
  }

  lemma SandwichAt(it: Iteration, r: nat, j: nat, i: nat, view: DatabaseView, db: Database, delta: Database)
    requires it.Ok() && r < |it.rules| && j < |it.rules[r].body| && i < |it.rules[r].body| && it.rules[r].body[i].ReadsRelation()
    requires view.base == db && view.delta == delta && ViewBetween(it, view)
    requires it.S <= Facts(db.rels)
    ensures var el, rel, I := it.rules[r].body[i], DeltaRelation(it.rules[r].body, i, j, view, db, delta), Facts(db.rels);
      && (i == j ==> Flips(rel, it.P, it.S, el.atom.pred))
      && (i != j && el.Negation? ==> Shows(rel, I, el.atom.pred))
      && (i < j && el.Positive? ==> Between(rel, it.S, I, el.atom.pred))
      && (i > j && el.Positive? ==> Between(rel, it.P, I, el.atom.pred))
  {
    var p := it.rules[r].body[i].atom.pred;
    ReadsPredicate(it.rules, r, i);
    ShowsFacts(db.rels, p);
    CurrentBetween(it, view, p);
    if it.rules[r].body[i].Negation? {
      NegatedUnchanged(it, r, i, delta.rels);
    }
    assert p !in delta.rels.Keys ==> delta.GetRelation(p).order == [];
  }

  lemma IterationSandwich(it: Iteration, r: nat, j: nat, view: DatabaseView, db: Database, delta: Database)
    requires it.Ok() && r < |it.rules| && j < |it.rules[r].body|
    requires view.base == db && view.delta == delta && ViewBetween(it, view)
    requires it.S <= Facts(db.rels)
    ensures Sandwiched(it.rules[r].body, j, it.P, it.S, Facts(db.rels), DeltaRelations(it.rules[r].body, j, view, db, delta))
  {
    hide ViewBetween, DeltaRelation;
    var body := it.rules[r].body;
    var rels := DeltaRelations(body, j, view, db, delta);
    forall i | 0 <= i < |body| && body[i].ReadsRelation()
      ensures var p, I := body[i].atom.pred, Facts(db.rels);
        && (i == j ==> Flips(rels[i], it.P, it.S, p))
        && (i != j && body[i].Negation? ==> Shows(rels[i], I, p))
        && (i < j && body[i].Positive? ==> Between(rels[i], it.S, I, p))
        && (i > j && body[i].Positive? ==> Between(rels[i], it.P, I, p))
    {
      SandwichAt(it, r, j, i, view, db, delta);
      assert rels[i] == DeltaRelation(body, i, j, view, db, delta);
    }
  }

  /** The head of every valuation element `j` fires is present. */
  ghost predicate FiredAt(rule: Rule, j: nat, P: Interpretation, S: Interpretation, I: Interpretation)
    requires j < |rule.body|
  {
    forall sigma, f: Fact :: FiredBy(rule, j, P, S, sigma) && f.pred == rule.head.pred && HeadIs(rule.head, sigma, f.values) ==> f in I
  }

  lemma UnchangedFiresNothing(rule: Rule, j: nat, P: Interpretation, S: Interpretation, I: Interpretation)
    requires j < |rule.body| && rule.body[j].ReadsRelation()
    requires Tuples(P, rule.body[j].atom.pred) == Tuples(S, rule.body[j].atom.pred)
    ensures FiredAt(rule, j, P, S, I)
  {
  }

  /** After the results of element `j` are applied. */
  lemma AppliedFired(it: Iteration, r: nat, j: nat, results: seq<WeightedFact>, rels: seq<Relation>, was: Store, now: Store)
    requires it.Ok() && r < |it.rules| && j < |it.rules[r].body| && it.rules[r].body[j].Positive?
    requires ValidStore(was) && ValidStore(now) && Carries(was, it.ground)
    requires it.S <= Facts(was) && AgreeOff(it.S, Facts(was), HeadPredicates(it.rules)) && Supported(it.rules, it.G, Facts(was))
    requires Sandwiched(it.rules[r].body, j, it.P, it.S, Facts(was), rels)
    requires Grounded(results, it.rules[r].head.pred) && CountsDerivations(results, it.rules[r], rels, j)
    requires forall f :: WeightIn(now, f) == WeightIn(was, f) + ListWeight(results, f)
    ensures Carries(now, it.ground) && Facts(was) <= Facts(now) && Above(it.ground, was) <= Above(it.ground, now)
    ensures AgreeOff(it.S, Facts(now), HeadPredicates(it.rules)) && Supported(it.rules, it.G, Facts(now))
    ensures FiredAt(it.rules[r], j, it.P, it.S, Above(it.ground, now))
    ensures SameOff(now, was, HeadPredicates(it.rules))
  {
    var rule := it.rules[r];
    StagesFor(it.rules, r, it.P, it.S, Facts(was));
    FactsAre(was);
    FactsAre(now);
    assert SafeRule(rule);
    forall f: Fact
      ensures ListWeight(results, f) >= 0
      ensures ListWeight(results, f) > 0 ==> Derives(it.rules, Facts(was), f)
      ensures forall sigma :: FiredBy(rule, j, it.P, it.S, sigma) && f.pred == rule.head.pred && HeadIs(rule.head, sigma, f.values) ==> ListWeight(results, f) > 0
    {
      if f.pred == rule.head.pred {
        FiredResults(results, rule, j, it.P, it.S, Facts(was), rels, f);
      } else {
        OtherPredicates(results, rule.head.pred, f);
      }
    }
    AboveIs(it.ground, was);
    AboveIs(it.ground, now);
    SupportedGrows(it.rules, it.G, Facts(was), Facts(now));
  }

  /** Evaluation through the view keeps it between the old and the live facts. */
  method EvaluateBetween(ghost it: Iteration, rule: Rule, ghost r: nat, j: nat, view: DatabaseView, db: Database, currentDelta: Database)
    returns (results: seq<WeightedFact>, ghost rels: seq<Relation>)
    requires it.Ok() && r < |it.rules| && it.rules[r] == rule && j < |rule.body|
    requires view.base == db && view.delta == currentDelta && ViewBetween(it, view)
    requires it.S <= Facts(db.rels)
    modifies view
    ensures ViewBetween(it, view)
    ensures Sandwiched(rule.body, j, it.P, it.S, Facts(db.rels), rels)
    ensures Grounded(results, rule.head.pred) && CountsDerivations(results, rule, rels, j)
  {
    rels := DeltaRelations(rule.body, j, view, db, currentDelta);
    IterationSandwich(it, r, j, view, db, currentDelta);
    forall q | q in ReadPredicates(it.rules) ensures Between(view.Current(q), it.P, Facts(db.rels), q) {
      CurrentBetween(it, view, q);
    }
    ghost var shown := view.Shown();
    assert SafeRule(rule);
    var indexed: set<nat> := *;
    results := EvaluateRuleDelta(rule, view, db, currentDelta, j, indexed);
    forall q | q in view.cache && q in ReadPredicates(it.rules) ensures Between(view.cache[q], it.P, Facts(db.rels), q) {
      assert view.cache[q] == view.Current(q) == view.Shown()[q] == shown[q];
    }
  }

  lemma ViewAdvances(it: Iteration, cache: Store, was: Interpretation, now: Interpretation)
    requires was <= now
    requires forall p :: p in cache && p in ReadPredicates(it.rules) ==> Between(cache[p], it.P, was, p)
    ensures forall p :: p in cache && p in ReadPredicates(it.rules) ==> Between(cache[p], it.P, now, p)
  {
  }

  /** Drive one element and apply what it derives at once. */
  method DriveAndApply(ghost it: Iteration, rule: Rule, ghost r: nat, j: nat, view: DatabaseView, db: Database, currentDelta: Database,
                       nextDelta: Database, dirty: DirtyMap)
    returns (dirty': DirtyMap)
    requires it.Ok() && r < |it.rules| && it.rules[r] == rule && j < |rule.body| && rule.body[j].ReadsRelation()
    requires db != nextDelta && currentDelta != nextDelta && db != currentDelta
    requires view.base == db && view.delta == currentDelta && ViewBetween(it, view)
    requires Advancing(it, db.rels, nextDelta.rels, dirty)
    modifies view, db, nextDelta
    ensures ViewBetween(it, view)
    ensures Advancing(it, db.rels, nextDelta.rels, dirty')
    ensures Facts(old(db.rels)) <= Facts(db.rels) && Above(it.ground, old(db.rels)) <= Above(it.ground, db.rels)
    ensures FiredAt(rule, j, it.P, it.S, Above(it.ground, db.rels))
  {
    var p := rule.body[j].atom.pred;
    ghost var changed := Driven(it, r, j, currentDelta.rels);
    if |currentDelta.GetRelation(p).order| == 0 {
      UnchangedFiresNothing(rule, j, it.P, it.S, Above(it.ground, db.rels));
      return dirty;
    }
    ghost var was := db.rels;
    var results, rels := EvaluateBetween(it, rule, r, j, view, db, currentDelta);
    dirty' := ApplyAll(results, db, dirty, nextDelta, it.start, it.before);
    assert forall f :: WeightIn(db.rels, f) == db.Weight(f) && WeightIn(was, f) == old(db.Weight(f));
    AppliedFired(it, r, j, results, rels, was, db.rels);
    ViewAdvances(it, view.cache, Facts(was), Facts(db.rels));
  }

  /** An element with delta entries is a positive atom on a head of the stratum. */
  lemma Driven(it: Iteration, r: nat, j: nat, delta: Store) returns (changed: bool)
    requires it.Ok() && r < |it.rules| && j < |it.rules[r].body| && it.rules[r].body[j].ReadsRelation()
    requires InputFlips(delta, it.P, it.S)
    ensures var p := it.rules[r].body[j].atom.pred;
      && (changed <==> Get(delta, p).order != [])
      && (changed <==> Tuples(it.P, p) != Tuples(it.S, p))
      && (changed ==> it.rules[r].body[j].Positive? && !NonRecursive(it.rules))
  {
    var p := it.rules[r].body[j].atom.pred;
    changed := Get(delta, p).order != [];
    ReadsPredicate(it.rules, r, j);
    assert Flips(Get(delta, p), it.P, it.S, p);
    NoEntriesNoFlips(Get(delta, p), it.P, it.S, p);
    TuplesAre(it.P, p);
    TuplesAre(it.S, p);
    if it.rules[r].body[j].Negation? {
      NegatedUnchanged(it, r, j, delta);
    }
  }

  /** The first `k` sources of a rule have been driven. */
  ghost predicate RuleFired(rule: Rule, sources: seq<nat>, k: nat, P: Interpretation, S: Interpretation, I: Interpretation)
    requires k <= |sources|
  {
    forall i :: 0 <= i < k ==> sources[i] < |rule.body| && FiredAt(rule, sources[i], P, S, I)
  }

  /** All sources of the first `r` rules have been driven. */
  ghost predicate FiredUpTo(it: Iteration, shapes: seq<RuleDeltaShape>, r: nat, I: Interpretation)
    requires ShapesOf(it.rules, shapes) && r <= |it.rules|
  {
    forall q :: 0 <= q < r ==> RuleFired(it.rules[q], shapes[q].sources, |shapes[q].sources|, it.P, it.S, I)
  }

  lemma RuleFiredStep(rule: Rule, sources: seq<nat>, k: nat, P: Interpretation, S: Interpretation, I: Interpretation, J: Interpretation)
    requires k < |sources| && RuleFired(rule, sources, k, P, S, I) && I <= J
    requires sources[k] < |rule.body| && FiredAt(rule, sources[k], P, S, J)
    ensures RuleFired(rule, sources, k + 1, P, S, J)
  {
    forall i | 0 <= i < k + 1 ensures sources[i] < |rule.body| && FiredAt(rule, sources[i], P, S, J) {
      if i < k {
        assert FiredAt(rule, sources[i], P, S, I);
      }
    }
  }

  lemma FiredUpToStep(it: Iteration, shapes: seq<RuleDeltaShape>, r: nat, I: Interpretation, J: Interpretation)
    requires ShapesOf(it.rules, shapes) && r < |it.rules|
    requires FiredUpTo(it, shapes, r, I) && I <= J
    requires RuleFired(it.rules[r], shapes[r].sources, |shapes[r].sources|, it.P, it.S, J)
    ensures FiredUpTo(it, shapes, r + 1, J)
  {
    forall q | 0 <= q < r + 1 ensures RuleFired(it.rules[q], shapes[q].sources, |shapes[q].sources|, it.P, it.S, J) {
      if q < r {
        forall i | 0 <= i < |shapes[q].sources|
          ensures shapes[q].sources[i] < |it.rules[q].body| && FiredAt(it.rules[q], shapes[q].sources[i], it.P, it.S, J)
        {
          assert FiredAt(it.rules[q], shapes[q].sources[i], it.P, it.S, I);
        }
      }
    }
  }

  lemma SourceReads(rule: Rule, shape: RuleDeltaShape, k: nat)
    requires ShapeOf(shape, rule.body) && k < |shape.sources|
    ensures shape.sources[k] < |rule.body| && rule.body[shape.sources[k]].ReadsRelation()
  {
  }

  lemma SourceListed(rule: Rule, shape: RuleDeltaShape, j: nat) returns (i: nat)
    requires ShapeOf(shape, rule.body) && j < |rule.body| && rule.body[j].Positive?
    ensures i < |shape.sources| && shape.sources[i] == j
  {
    PositiveIndicesComplete(rule.body, |rule.body|, j);
    i :| i < |PositiveIndices(rule.body, |rule.body|)| && PositiveIndices(rule.body, |rule.body|)[i] == j;
  }

  /** Drive every source of one rule, writing as we go. */
  method RunRule(ghost it: Iteration, rule: Rule, ghost r: nat, shape: RuleDeltaShape, view: DatabaseView, db: Database,
                 currentDelta: Database, nextDelta: Database, dirty: DirtyMap)
    returns (dirty': DirtyMap)
    requires it.Ok() && r < |it.rules| && it.rules[r] == rule && ShapeOf(shape, rule.body)
    requires db != nextDelta && currentDelta != nextDelta && db != currentDelta
    requires view.base == db && view.delta == currentDelta && ViewBetween(it, view)
    requires Advancing(it, db.rels, nextDelta.rels, dirty)
    modifies view, db, nextDelta
    ensures ViewBetween(it, view)
    ensures Advancing(it, db.rels, nextDelta.rels, dirty')
    ensures Facts(old(db.rels)) <= Facts(db.rels) && Above(it.ground, old(db.rels)) <= Above(it.ground, db.rels)
    ensures RuleFired(rule, shape.sources, |shape.sources|, it.P, it.S, Above(it.ground, db.rels))
  {
    dirty' := dirty;
    for k := 0 to |shape.sources|
      invariant ViewBetween(it, view)
      invariant Advancing(it, db.rels, nextDelta.rels, dirty')
      invariant Facts(old(db.rels)) <= Facts(db.rels) && Above(it.ground, old(db.rels)) <= Above(it.ground, db.rels)
      invariant RuleFired(rule, shape.sources, k, it.P, it.S, Above(it.ground, db.rels))
    {
      ghost var was := Above(it.ground, db.rels);
      SourceReads(rule, shape, k);
      dirty' := DriveAndApply(it, rule, r, shape.sources[k], view, db, currentDelta, nextDelta, dirty');
      RuleFiredStep(rule, shape.sources, k, it.P, it.S, was, Above(it.ground, db.rels));
    }
  }

  /** Drive every source of every rule by the current delta. */
  method RunIteration(ghost it: Iteration, rules: seq<Rule>, shapes: seq<RuleDeltaShape>, db: Database, currentDelta: Database,
                      nextDelta: Database, dirty: DirtyMap)
    returns (dirty': DirtyMap)
    requires it.Ok() && it.rules == rules && ShapesOf(rules, shapes)
    requires db != nextDelta && currentDelta != nextDelta && db != currentDelta
    requires currentDelta.Valid() && InputFlips(currentDelta.rels, it.P, it.S)
    requires Advancing(it, db.rels, nextDelta.rels, dirty)
    modifies db, nextDelta
    ensures Advancing(it, db.rels, nextDelta.rels, dirty')
    ensures FiredUpTo(it, shapes, |rules|, Above(it.ground, db.rels)) && Above(it.ground, old(db.rels)) <= Above(it.ground, db.rels)
  {
    dirty' := dirty;
    var view := new DatabaseView(db, currentDelta);
    for r := 0 to |rules|
      invariant ViewBetween(it, view)
      invariant Advancing(it, db.rels, nextDelta.rels, dirty')
      invariant FiredUpTo(it, shapes, r, Above(it.ground, db.rels)) && Above(it.ground, old(db.rels)) <= Above(it.ground, db.rels)
    {
      ghost var was := Above(it.ground, db.rels);
      dirty' := RunRule(it, rules[r], r, shapes[r], view, db, currentDelta, nextDelta, dirty');
      FiredUpToStep(it, shapes, r, was, Above(it.ground, db.rels));
    }
  }

  lemma FactFired(it: Iteration, r: nat, shape: RuleDeltaShape, I: Interpretation, f: Fact)
    requires it.Ok() && r < |it.rules| && ShapeOf(shape, it.rules[r].body)
    requires RuleFired(it.rules[r], shape.sources, |shape.sources|, it.P, it.S, I)
    requires DerivedBy(it.rules[r], it.S, f)
    ensures DerivedBy(it.rules[r], it.P, f) || f in I
  {
    var rule := it.rules[r];
    var sigma :| Satisfies(rule, it.S, sigma) && HeadIs(rule.head, sigma, f.values);
    StagesFor(it.rules, r, it.P, it.S, it.S);
    SatisfiedOrFired(rule, it.P, it.S, sigma);
    if !Satisfies(rule, it.P, sigma) {
      var j :| 0 <= j < |rule.body| && rule.body[j].Positive? && FiredBy(rule, j, it.P, it.S, sigma);
      var i := SourceListed(rule, shape, j);
      assert FiredAt(rule, shape.sources[i], it.P, it.S, I);
    }
  }

  /** After an iteration everything derived in `S` is in `I`: it is present, and
      weighs more than its ground part. */
  lemma IterationComplete(it: Iteration, shapes: seq<RuleDeltaShape>, I: Interpretation)
    requires it.Ok() && ShapesOf(it.rules, shapes)
    requires FiredUpTo(it, shapes, |it.rules|, I)
    requires forall f :: Derives(it.rules, it.P, f) ==> f in I
    ensures forall f :: Derives(it.rules, it.S, f) ==> f in I
  {
    forall f | Derives(it.rules, it.S, f) ensures f in I {
      var r :| 0 <= r < |it.rules| && DerivedBy(it.rules[r], it.S, f);
      FactFired(it, r, shapes[r], I, f);
      if DerivedBy(it.rules[r], it.P, f) {
        assert Derives(it.rules, it.P, f);
      }
    }
  }

  /** Where the loop stands: `P` was one iteration ago, and what could be derived
      then is present now, on top of its ground part. */
  ghost predicate LoopState(rules: seq<Rule>, G: Interpretation, ground: Store, P: Interpretation, start: Store, db: Store, currentDelta: Store,
                            dirty: DirtyMap) {
    && ValidStore(db) && ValidStore(currentDelta) && Carries(db, ground)
    && Iteration(rules, G, ground, P, Facts(db), start, db).Ok()
    && Supported(rules, G, Facts(db))
    && (forall f :: Derives(rules, P, f) ==> f in Above(ground, db))
    && InputFlips(currentDelta, P, Facts(db))
    && Tracks(dirty, start, db)
  }

  /** What the loop keeps of the database it started from. */
  ghost predicate LoopKeeps(rules: seq<Rule>, first: Store, db: Store) {
    && Facts(first) <= Facts(db)
    && SameOff(db, first, HeadPredicates(rules))
    && (NonRecursive(rules) ==> SameWeights(db, first))
  }

  /** One turn of the loop: everything derived from the facts at its start is
      present at its end, and the next delta is what it added. */
  method Iterate(rules: seq<Rule>, shapes: seq<RuleDeltaShape>, db: Database, currentDelta: Database, dirty: DirtyMap,
                 ghost G: Interpretation, ghost ground: Store, ghost P: Interpretation, ghost start: Store)
    returns (nextDelta: Database, dirty': DirtyMap)
    requires ShapesOf(rules, shapes) && db != currentDelta
    requires LoopState(rules, G, ground, P, start, db.rels, currentDelta.rels, dirty)
    modifies db
    ensures fresh(nextDelta)
    ensures LoopState(rules, G, ground, Facts(old(db.rels)), start, db.rels, nextDelta.rels, dirty')
    ensures LoopKeeps(rules, old(db.rels), db.rels)
  {
    ghost var it := Iteration(rules, G, ground, P, Facts(db.rels), start, db.rels);
    nextDelta := new Database();
    FactsAre(db.rels);
    dirty' := RunIteration(it, rules, shapes, db, currentDelta, nextDelta, dirty);
    IterationComplete(it, shapes, Above(ground, db.rels));
    assert forall f :: db.Weight(f) == WeightIn(db.rels, f);
    ApplyDistinctIdle(db, dirty');
    forall p ensures Flips(Get(nextDelta.rels, p), it.S, Facts(db.rels), p) {
      FlipsOfFacts(nextDelta.rels, it.before, db.rels, p);
    }
  }

  /** What turn `n` of the loop has reached: the next stage of consequences. */
  lemma OneMoreStage(rules: seq<Rule>, G: Interpretation, I: Interpretation, n: nat, was: Interpretation, now: Interpretation)
    requires SafeProgram(rules) && NegationsBelow(rules)
    requires Stage(rules, G, I, n) <= was <= now && AgreeOff(I, was, HeadPredicates(rules))
    requires forall f :: Derives(rules, was, f) ==> f in now
    ensures Stage(rules, G, I, n + 1) <= now
  {
    StageInputs(rules, G, I, n);
    ConsequencesStay(rules, Stage(rules, G, I, n), was);
  }

  /** After `n` turns the facts `S` hold stage `n + 1`, and those of the turn
      before hold stage `n`. */
  ghost predicate Reached(rules: seq<Rule>, G: Interpretation, I: Interpretation, P: Interpretation, S: Interpretation, n: nat) {
    && Stage(rules, G, I, n + 1) <= S
    && (n > 0 ==> Stage(rules, G, I, n) <= P <= S)
  }

  lemma LoopStarts(rules: seq<Rule>, G: Interpretation, P: Interpretation, first: Store)
    requires Stage(rules, G, Facts(first), 1) <= Facts(first)
    ensures LoopKeeps(rules, first, first) && Reached(rules, G, Facts(first), P, Facts(first), 0)
  {
  }

  lemma TurnReaches(rules: seq<Rule>, G: Interpretation, ground: Store, P: Interpretation, start: Store, first: Store, was: Store, now: Store,
                    delta: Store, dirty: DirtyMap, n: nat)
    requires LoopState(rules, G, ground, Facts(was), start, now, delta, dirty)
    requires LoopKeeps(rules, first, was) && LoopKeeps(rules, was, now)
    requires Reached(rules, G, Facts(first), P, Facts(was), n)
    ensures LoopKeeps(rules, first, now) && Reached(rules, G, Facts(first), Facts(was), Facts(now), n + 1)
  {
    FactsAre(first);
    FactsAre(was);
    FactsAre(now);
    OneMoreStage(rules, G, Facts(first), n + 1, Facts(was), Facts(now));
  }

  lemma CapReached(rules: seq<Rule>, G: Interpretation, ground: Store, P: Interpretation, start: Store, first: Store, now: Store, delta: Store,
                   dirty: DirtyMap, n: nat)
    requires LoopState(rules, G, ground, P, start, now, delta, dirty) && LoopKeeps(rules, first, now)
    requires Reached(rules, G, Facts(first), P, Facts(now), n) && n > 0
    requires exists p :: p in delta && delta[p].order != []
    ensures TakesMoreThan(rules, G, Facts(now), n)
  {
    FactsAre(first);
    FactsAre(now);
    StillAdding(rules, G, Facts(first), n, P, Facts(now), delta);
  }

  /** Where the last turn still added a fact, that fact is beyond the stage the
      turn before had reached. */
  lemma StillAdding(rules: seq<Rule>, G: Interpretation, I: Interpretation, n: nat, P: Interpretation, S: Interpretation, delta: Store)
    requires InputFlips(delta, P, S) && P <= S && exists p :: p in delta && delta[p].order != []
    requires AgreeOff(P, S, HeadPredicates(rules)) && AgreeOff(I, S, HeadPredicates(rules))
    requires Stage(rules, G, I, n) <= P && Supported(rules, G, S)
    ensures TakesMoreThan(rules, G, S, n)
  {
    SomethingAdded(delta, P, S);
    var f :| f in S && f !in P;
    StageOfInputs(rules, G, I, S, n);
    assert Entailed(rules, G, S, f);
  }

  /** The loop ends with a closed set of facts, or at its cap, when that many
      stages of consequences do not reach all that follows. */
  method IterationPhase(rules: seq<Rule>, shapes: seq<RuleDeltaShape>, db: Database, seedDelta: Database, dirty: DirtyMap,
                        ghost G: Interpretation, ghost ground: Store, ghost P0: Interpretation, ghost start: Store)
    returns (dirty': DirtyMap, exhausted: bool)
    requires ShapesOf(rules, shapes) && db != seedDelta
    requires LoopState(rules, G, ground, P0, start, db.rels, seedDelta.rels, dirty)
    requires Stage(rules, G, Facts(db.rels), 1) <= Facts(db.rels)
    modifies db
    ensures ValidStore(db.rels) && Carries(db.rels, ground) && Tracks(dirty', start, db.rels)
    ensures Supported(rules, G, Facts(db.rels))
    ensures LoopKeeps(rules, old(db.rels), db.rels)
    ensures exhausted ==> Rests(rules, ground, db.rels)
    ensures !exhausted ==> TakesMoreThan(rules, G, Facts(db.rels), MAX_ITERATIONS)
  {
    hide Stage, Reached, Supported, SameOff, NonRecursive, TakesMoreThan, Derives;
    ghost var first := db.rels;
    ghost var P := P0;
    LoopStarts(rules, G, P0, first);
    dirty' := dirty;
    var currentDelta := seedDelta;
    var iterations := 0;
    var any := currentDelta.HasAnyEntries();
    while any && iterations < MAX_ITERATIONS
      invariant currentDelta != db && 0 <= iterations <= MAX_ITERATIONS
      invariant any <==> currentDelta.HasAnyEntries()
      invariant LoopState(rules, G, ground, P, start, db.rels, currentDelta.rels, dirty')
      invariant LoopKeeps(rules, first, db.rels)
      invariant Reached(rules, G, Facts(first), P, Facts(db.rels), iterations)
      decreases MAX_ITERATIONS - iterations
    {
      ghost var was := db.rels;
      currentDelta, dirty' := Iterate(rules, shapes, db, currentDelta, dirty', G, ground, P, start);
      TurnReaches(rules, G, ground, P, start, first, was, db.rels, currentDelta.rels, dirty', iterations);
      P := Facts(was);
      iterations := iterations + 1;
      any := currentDelta.HasAnyEntries();
    }
    exhausted := !any;
    if exhausted {
      NothingPending(currentDelta.rels, P, Facts(db.rels));
    } else {
      CapReached(rules, G, ground, P, start, first, db.rels, currentDelta.rels, dirty', MAX_ITERATIONS);
    }
  }

  /** Everything that can be derived is present, on top of its ground part. */
  ghost predicate Rests(rules: seq<Rule>, ground: Store, s: Store) {
    forall f :: Derives(rules, Facts(s), f) ==> f in Above(ground, s)
  }

  lemma SomethingAdded(delta: Store, P: Interpretation, S: Interpretation)
    requires InputFlips(delta, P, S) && P <= S
    requires exists p :: p in delta && delta[p].order != []
    ensures exists f :: f in S && f !in P
  {
    var p :| p in delta && delta[p].order != [];
    assert Flips(Get(delta, p), P, S, p);
    NoEntriesNoFlips(Get(delta, p), P, S, p);
    TuplesAre(P, p);
    TuplesAre(S, p);
    var t :| t in Tuples(S, p) && t !in Tuples(P, p);
    assert Fact(p, t) in S;
  }

  lemma NothingPending(delta: Store, P: Interpretation, S: Interpretation)
    requires InputFlips(delta, P, S)
    requires !exists p :: p in delta && delta[p].order != []
    ensures P == S
  {
    forall f ensures f in P <==> f in S {
      var p := f.pred;
      assert Flips(Get(delta, p), P, S, p);
      NoEntriesNoFlips(Get(delta, p), P, S, p);
      TuplesAre(P, p);
      TuplesAre(S, p);
      assert f == Fact(p, f.values);
    }
  }

  // ---------------------------------------------------------------------
  // The whole loop
  // ---------------------------------------------------------------------

  /** The weight of `f` once the seed phase is applied. */
  ghost function Seeded(rules: seq<Rule>, pass: StratumPass, O: Interpretation, start: Store, f: Fact): int {
    WeightIn(start, f) + SeedChange(rules, |rules|, pass, O, Facts(start), f)
  }

  /** What the loop needs of the weights the seed phase leads to: each at least
      its ground part; nothing the rules read is lost; what can be derived weighs
      more; and what is present is in every model. */
  ghost predicate GoodSeeds(rules: seq<Rule>, G: Interpretation, ground: Store, pass: StratumPass, O: Interpretation, start: Store) {
    && (forall f :: 0 <= WeightIn(ground, f) <= Seeded(rules, pass, O, start, f))
    && (forall f :: f in Facts(start) && f.pred in ReadPredicates(rules) ==> Seeded(rules, pass, O, start, f) > 0)
    && (forall f :: Derives(rules, Facts(start), f) ==> Seeded(rules, pass, O, start, f) > WeightIn(ground, f))
    && (forall f :: f in G && f.pred in HeadPredicates(rules) ==> f in Facts(start) && Seeded(rules, pass, O, start, f) > 0)
    && (forall J: Interpretation, f :: ModelOver(rules, G, Facts(start), J) && Seeded(rules, pass, O, start, f) > 0 ==> f in J)
  }

  lemma {:induction false} SeedChangeOffHeads(rules: seq<Rule>, n: nat, pass: StratumPass, O: Interpretation, N: Interpretation, f: Fact)
    requires n <= |rules| && f.pred !in HeadPredicates(rules)
    ensures SeedChange(rules, n, pass, O, N, f) == 0
  {
    if n > 0 {
      SeedChangeOffHeads(rules, n - 1, pass, O, N, f);
    }
  }

  method ComputeShapes(rules: seq<Rule>) returns (shapes: seq<RuleDeltaShape>)
    ensures ShapesOf(rules, shapes)
  {
    shapes := [];
    for r := 0 to |rules|
      invariant |shapes| == r && forall q :: 0 <= q < r ==> ShapeOf(shapes[q], rules[q].body)
    {
      var shape := ComputeShape(rules[r].body);
      shapes := shapes + [shape];
    }
  }

  /** The seeds put nothing in that some model lacks. */
  lemma SeededSupported(rules: seq<Rule>, G: Interpretation, ground: Store, pass: StratumPass, O: Interpretation, start: Store, now: Store)
    requires GoodSeeds(rules, G, ground, pass, O, start) && AgreeOff(Facts(start), Facts(now), HeadPredicates(rules))
    requires forall f :: WeightIn(now, f) == Seeded(rules, pass, O, start, f)
    ensures Supported(rules, G, Facts(now))
  {
    hide Seeded, Closed, Derives;
    FactsAre(now);
    forall J: Interpretation | ModelOver(rules, G, Facts(now), J) ensures Facts(now) <= J {
      assert ModelOver(rules, G, Facts(start), J);
    }
  }

  /** After the seeds are applied the loop can start. */
  lemma SeedsStartLoop(rules: seq<Rule>, G: Interpretation, ground: Store, pass: StratumPass, O: Interpretation, start: Store, now: Store,
                       currentDelta: Store, dirty: DirtyMap)
    requires SafeProgram(rules) && NegationsBelow(rules)
    requires ValidStore(start) && ValidStore(now) && ValidStore(currentDelta)
    requires GoodSeeds(rules, G, ground, pass, O, start)
    requires forall f :: WeightIn(now, f) == Seeded(rules, pass, O, start, f)
    requires FlipsBetween(currentDelta, start, now) && Tracks(dirty, start, now)
    ensures LoopState(rules, G, ground, Facts(start), start, now, currentDelta, dirty)
    ensures SameOff(now, start, HeadPredicates(rules))
    ensures forall f :: f in G && f.pred in HeadPredicates(rules) ==> f in Facts(now)
    ensures Stage(rules, G, Facts(now), 1) <= Facts(now)
  {
    hide SeedChange, Tracks, Supported, Derives, ModelOver, Stage;
    var N, S := Facts(start), Facts(now);
    FactsAre(start);
    FactsAre(now);
    AboveIs(ground, now);
    forall f: Fact | f.pred !in HeadPredicates(rules) ensures WeightIn(now, f) == WeightIn(start, f) {
      SeedChangeOffHeads(rules, |rules|, pass, O, N, f);
    }
    forall p ensures Flips(Get(currentDelta, p), N, S, p) {
      FlipsOfFacts(currentDelta, start, now, p);
    }
    SeededSupported(rules, G, ground, pass, O, start, now);
    SeedsReachOne(rules, G, N, S);
  }

  lemma SeedsReachOne(rules: seq<Rule>, G: Interpretation, N: Interpretation, S: Interpretation)
    requires SafeProgram(rules) && NegationsBelow(rules) && AgreeOff(N, S, HeadPredicates(rules))
    requires forall f :: f in G && f.pred in HeadPredicates(rules) ==> f in N && f in S
    requires forall f :: Derives(rules, N, f) ==> f in S
    ensures Stage(rules, G, S, 1) <= S
  {
    StageInputs(rules, G, S, 0);
    ConsequencesStay(rules, Stage(rules, G, S, 0), N);
    StageStep(rules, G, S, 0);
  }

  /** One stratum by the weighted semi-naive loop. Unless the loop is cut off at
      its cap, the database then holds the least model over the inputs; a
      stratum that reads none of its heads has every weight moved by exactly the
      change in the number of derivations. */
  method EvaluateStratumSemiNaive(rules: seq<Rule>, db: Database, inputDelta: Database, pass: StratumPass,
                                  ghost G: Interpretation, ghost ground: Store, ghost O: Interpretation)
    returns (delta: Database, exhausted: bool)
    requires SafeProgram(rules) && NegationsBelow(rules)
    requires db.Valid() && inputDelta.Valid() && db != inputDelta
    requires InputFlips(inputDelta.rels, O, Facts(db.rels))
    requires GoodSeeds(rules, G, ground, pass, O, db.rels)
    modifies db
    ensures fresh(delta) && delta.Valid() && db.Valid() && Carries(db.rels, ground)
    ensures FlipsBetween(delta.rels, old(db.rels), db.rels)
    ensures SameOff(db.rels, old(db.rels), HeadPredicates(rules))
    ensures exhausted ==> Least(rules, G, Facts(db.rels)) && Rests(rules, ground, db.rels)
    ensures Supported(rules, G, Facts(db.rels))
    ensures !exhausted ==> TakesMoreThan(rules, G, Facts(db.rels), MAX_ITERATIONS)
    ensures NonRecursive(rules) ==> exhausted
    ensures NonRecursive(rules) ==> forall f :: WeightIn(db.rels, f) == old(Seeded(rules, pass, O, db.rels, f))
  {
    ghost var start := db.rels;
    var shapes := ComputeShapes(rules);
    var seeds := SeedPhase(rules, shapes, db, inputDelta, pass, O);
    var dirty: DirtyMap := map[];
    var hasEntries := inputDelta.HasAnyEntries();
    if !hasEntries && |seeds| == 0 {
      NothingToDo(rules, G, ground, pass, O, start);
      delta := ExtractDelta(db, dirty, start);
      return delta, true;
    }
    var currentDelta := new Database();
    dirty := ApplyAll(seeds, db, dirty, currentDelta, start, start);
    forall f ensures WeightIn(db.rels, f) == Seeded(rules, pass, O, start, f) {
      assert db.Weight(f) == WeightIn(db.rels, f) && old(db.Weight(f)) == WeightIn(start, f);
    }
    assert forall f :: db.Weight(f) == WeightIn(db.rels, f);
    ApplyDistinctIdle(db, dirty);
    SeedsStartLoop(rules, G, ground, pass, O, start, db.rels, currentDelta.rels, dirty);
    ghost var seeded := db.rels;
    dirty, exhausted := IterationPhase(rules, shapes, db, currentDelta, dirty, G, ground, Facts(start), start);
    delta := ExtractDelta(db, dirty, start);
    WeightsDecideFacts(rules, start, seeded, db.rels);
    if exhausted {
      assert ModelOver(rules, G, Facts(db.rels), Facts(db.rels));
    } else if NonRecursive(rules) {
      NonRecursiveTakesOne(rules, G, Facts(db.rels), MAX_ITERATIONS);
    }
  }

  /** Where the seed phase changes nothing the stratum is in order already. */
  lemma NothingToDo(rules: seq<Rule>, G: Interpretation, ground: Store, pass: StratumPass, O: Interpretation, start: Store)
    requires SafeProgram(rules) && NegationsBelow(rules) && ValidStore(start) && GoodSeeds(rules, G, ground, pass, O, start)
    requires forall f :: SeedChange(rules, |rules|, pass, O, Facts(start), f) == 0
    ensures Carries(start, ground) && Least(rules, G, Facts(start)) && Supported(rules, G, Facts(start)) && Rests(rules, ground, start)
  {
    assert forall f :: WeightIn(start, f) == Seeded(rules, pass, O, start, f);
    SeedsStartLoop(rules, G, ground, pass, O, start, start, map[], map[]);
    assert ModelOver(rules, G, Facts(start), Facts(start));
  }

  lemma WeightsDecideFacts(rules: seq<Rule>, start: Store, seeded: Store, now: Store)
    requires SameOff(seeded, start, HeadPredicates(rules)) && LoopKeeps(rules, seeded, now)
    ensures SameOff(now, start, HeadPredicates(rules))
    ensures NonRecursive(rules) ==> SameWeights(now, seeded)
    ensures AgreeOff(Facts(start), Facts(now), HeadPredicates(rules))
  {
    FactsAre(start);
    FactsAre(now);
  }
}
