/** The dirty map, and how derived facts reach the database
    (packages/datalog/src/evaluator.ts, "Dirty-map helpers"). */
module Deltas {
  import opened Values
  import opened ZRelation
  import opened Databases
  import opened Evaluate
  import opened Semantics

  /** Fact to its weight before the stratum, captured on first touch. */
  type DirtyMap = map<Fact, int>

  /** +1 for absent to present, -1 for present to absent, 0 otherwise. */
  function PresenceChange(before: int, after: int): int {
    if before <= 0 && after > 0 then 1
    else if before > 0 && after <= 0 then -1
    else 0
  }

  function Sign(w: int): int {
    if w > 0 then 1 else 0
  }

  /** `dirty` knows the weights `start` gave to every fact touched since, and
      every other fact still has its weight. */
  ghost predicate Tracks(dirty: DirtyMap, start: Store, now: Store) {
    forall f :: if f in dirty then dirty[f] == WeightIn(start, f) else WeightIn(now, f) == WeightIn(start, f)
  }

  /** `delta` holds the presence flips between two stores. */
  ghost predicate FlipsBetween(delta: Store, before: Store, after: Store) {
    forall f :: WeightIn(delta, f) == Sign(WeightIn(after, f)) - Sign(WeightIn(before, f))
  }

  /** Add a derived fact, remember its first weight, and record a change of
      presence. */
  method ApplyDerivedFact(wf: WeightedFact, db: Database, dirty: DirtyMap, delta: Database, ghost start: Store)
    returns (dirty': DirtyMap)
    requires db.Valid() && delta.Valid() && db != delta
    requires Tracks(dirty, start, db.rels)
    modifies db, delta
    ensures db.Valid() && delta.Valid()
    ensures forall f :: db.Weight(f) == old(db.Weight(f)) + (if f == wf.fact then wf.weight else 0)
    ensures forall f :: f != wf.fact ==> delta.Weight(f) == old(delta.Weight(f))
    ensures delta.Weight(wf.fact) == old(delta.Weight(wf.fact)) + Sign(db.Weight(wf.fact)) - Sign(old(db.Weight(wf.fact)))
    ensures Tracks(dirty', start, db.rels)
    ensures dirty'.Keys <= dirty.Keys + {wf.fact}
  {
    dirty' := dirty;
    if wf.weight == 0 {
      return;
    }
    var p, t := wf.fact.pred, wf.fact.values;
    assert wf.fact == Fact(p, t);
    var before := db.GetRelation(p).WeightOf(t);
    assert before == db.Weight(wf.fact);
    if wf.fact !in dirty {
      dirty' := dirty[wf.fact := before];
    }
    var after := db.AddWeighted(p, t, wf.weight);
    var change := PresenceChange(before, after);
    if change != 0 {
      var _ := delta.AddWeighted(p, t, change);
    }
    ghost var was := old(db.rels);
    forall f ensures if f in dirty' then dirty'[f] == WeightIn(start, f) else WeightIn(db.rels, f) == WeightIn(start, f) {
      assert db.Weight(f) == WeightIn(db.rels, f) && old(db.Weight(f)) == WeightIn(was, f);
    }
  }

  /** Apply a list of facts in order. Weights may pass through negative values
      on the way; what is recorded is the change from first to last. */
  method ApplyAll(list: seq<WeightedFact>, db: Database, dirty: DirtyMap, delta: Database, ghost start: Store, ghost before: Store)
    returns (dirty': DirtyMap)
    requires db.Valid() && delta.Valid() && db != delta
    requires FlipsBetween(delta.rels, before, db.rels) && Tracks(dirty, start, db.rels)
    modifies db, delta
    ensures db.Valid() && delta.Valid()
    ensures forall f :: db.Weight(f) == old(db.Weight(f)) + ListWeight(list, f)
    ensures FlipsBetween(delta.rels, before, db.rels) && Tracks(dirty', start, db.rels)
    ensures dirty'.Keys <= dirty.Keys + FactsOf(list)
  {
    dirty' := dirty;
    for k := 0 to |list|
      invariant db.Valid() && delta.Valid()
      invariant forall f :: db.Weight(f) == old(db.Weight(f)) + ListWeight(list[..k], f)
      invariant FlipsBetween(delta.rels, before, db.rels) && Tracks(dirty', start, db.rels)
      invariant dirty'.Keys <= dirty.Keys + FactsOf(list[..k])
    {
      assert list[..k + 1][..k] == list[..k];
      FactsOfStep(list, k);
      ghost var was, flips := db.rels, delta.rels;
      label L:
      dirty' := ApplyDerivedFact(list[k], db, dirty', delta, start);
      forall f ensures WeightIn(delta.rels, f) == Sign(WeightIn(db.rels, f)) - Sign(WeightIn(before, f)) {
        assert WeightIn(flips, f) == Sign(WeightIn(was, f)) - Sign(WeightIn(before, f));
        assert old@L(db.Weight(f)) == WeightIn(was, f) && old@L(delta.Weight(f)) == WeightIn(flips, f);
        assert delta.Weight(f) == WeightIn(delta.rels, f) && db.Weight(f) == WeightIn(db.rels, f);
      }
    }
    assert list[..|list|] == list;
  }

  ghost function FactsOf(list: seq<WeightedFact>): set<Fact> {
    set i | 0 <= i < |list| :: list[i].fact
  }

  lemma FactsOfStep(list: seq<WeightedFact>, k: nat)
    requires k < |list|
    ensures FactsOf(list[..k + 1]) == FactsOf(list[..k]) + {list[k].fact}
  {
    var a, b := list[..k], list[..k + 1];
    assert forall i :: 0 <= i < k ==> a[i] == b[i];
    forall f ensures f in FactsOf(b) <==> f in FactsOf(a) + {list[k].fact} {
      if f in FactsOf(a) {
        var i :| 0 <= i < |a| && a[i].fact == f;
        assert b[i].fact == f;
      }
      if f == list[k].fact {
        assert b[k].fact == f;
      }
    }
  }

  /** Floor negative weights among the dirty facts; weights above one are kept. */
  method ApplyDistinct(db: Database, dirty: DirtyMap) returns (clamped: bool)
    requires db.Valid()
    modifies db
    ensures db.Valid()
    ensures forall f :: db.Weight(f) == if f in dirty && old(db.Weight(f)) < 0 then 0 else old(db.Weight(f))
    ensures clamped <==> exists f :: f in dirty && old(db.Weight(f)) < 0
    ensures !clamped ==> db.rels == old(db.rels)
  {
    hide AddTo, ValidStore;
    clamped := false;
    var todo := dirty.Keys;
    ghost var done: set<Fact> := {};
    while todo != {}
      invariant db.Valid()
      invariant todo !! done && todo + done == dirty.Keys
      invariant forall f :: db.Weight(f) == if f in done && old(db.Weight(f)) < 0 then 0 else old(db.Weight(f))
      invariant clamped <==> exists f :: f in done && old(db.Weight(f)) < 0
      invariant !clamped ==> db.rels == old(db.rels)
      decreases todo
    {
      var f :| f in todo;
      var w := db.GetRelation(f.pred).WeightOf(f.values);
      assert w == db.Weight(f);
      if w < 0 {
        var _ := db.AddWeighted(f.pred, f.values, -w);
        clamped := true;
      }
      todo := todo - {f};
      done := done + {f};
    }
  }

  /** Where no weight is negative, flooring changes nothing. */
  method ApplyDistinctIdle(db: Database, dirty: DirtyMap)
    requires db.Valid() && forall f :: db.Weight(f) >= 0
    modifies db
    ensures db.rels == old(db.rels)
  {
    var clamped := ApplyDistinct(db, dirty);
    assert !clamped;
  }

  /** Every dirty fact whose presence differs from its first weight. */
  method ExtractDelta(db: Database, dirty: DirtyMap, ghost start: Store) returns (delta: Database)
    requires db.Valid() && Tracks(dirty, start, db.rels)
    ensures fresh(delta) && delta.Valid()
    ensures FlipsBetween(delta.rels, start, db.rels)
  {
    delta := new Database();
    var todo := dirty.Keys;
    ghost var done: set<Fact> := {};
    while todo != {}
      invariant delta.Valid()
      invariant todo !! done && todo + done == dirty.Keys
      invariant forall f :: delta.Weight(f) == if f in done then PresenceChange(dirty[f], db.Weight(f)) else 0
      decreases todo
    {
      var f :| f in todo;
      var change := PresenceChange(dirty[f], db.GetRelation(f.pred).WeightOf(f.values));
      if change != 0 {
        var _ := delta.AddWeighted(f.pred, f.values, change);
      }
      todo := todo - {f};
      done := done + {f};
    }
    forall f ensures WeightIn(delta.rels, f) == Sign(WeightIn(db.rels, f)) - Sign(WeightIn(start, f)) {
      assert delta.Weight(f) == WeightIn(delta.rels, f) && db.Weight(f) == WeightIn(db.rels, f);
    }
  }

  /** Flips between stores are flips between the facts they hold. */
  lemma FlipsOfFacts(delta: Store, before: Store, after: Store, p: string)
    requires ValidStore(delta) && FlipsBetween(delta, before, after)
    ensures Flips(Get(delta, p), Facts(before), Facts(after), p)
  {
    FactsAre(before);
    FactsAre(after);
    forall t ensures Get(delta, p).WeightOf(t) == Presence(Facts(after), Fact(p, t)) - Presence(Facts(before), Fact(p, t)) {
      assert WeightIn(delta, Fact(p, t)) == Get(delta, p).WeightOf(t);
    }
  }

  lemma ShowsFacts(s: Store, p: string)
    requires ValidStore(s)
    ensures Shows(Get(s, p), Facts(s), p)
  {
    FactsAre(s);
    forall t ensures Get(s, p).Has(t) <==> Fact(p, t) in Facts(s) {
      assert WeightIn(s, Fact(p, t)) == Get(s, p).WeightOf(t);
    }
  }

  /** No stored entry for a predicate: its facts did not change. */
  lemma NoEntriesNoFlips(rel: Relation, O: Interpretation, N: Interpretation, p: string)
    requires Flips(rel, O, N, p)
    ensures rel.order == [] <==> Tuples(O, p) == Tuples(N, p)
  {
    TuplesAre(O, p);
    TuplesAre(N, p);
    assert rel.order != [] ==> rel.order[0] in rel.order;
    forall t ensures t in rel.order <==> (t in Tuples(O, p)) != (t in Tuples(N, p)) {
      assert t in rel.order <==> rel.WeightOf(t) != 0;
    }
    assert rel.order == [] ==> forall t :: t !in rel.order;
  }
}
