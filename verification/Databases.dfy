/** Databases and the view of a database before a delta
    (packages/datalog/src/types.ts, `Database`; evaluator.ts, `DatabaseView`). */
module Databases {
  import opened Values
  import opened ZRelation

  /** What a database holds: predicate to relation. */
  type Store = map<string, Relation>

  ghost predicate ValidStore(s: Store) {
    forall p :: p in s ==> s[p].Valid()
  }

  /** The relation of a predicate, or an empty one. */
  function Get(s: Store, p: string): Relation {
    if p in s then s[p] else EMPTY_RELATION
  }

  function WeightIn(s: Store, f: Fact): int {
    Get(s, f.pred).WeightOf(f.values)
  }

  /** The facts that are present. */
  ghost function Facts(s: Store): (facts: set<Fact>)
  {
    set p, t | p in s.Keys && t in s[p].weights.Keys && s[p].weights[t] > 0 :: Fact(p, t)
  }

  lemma FactsAre(s: Store)
    ensures forall f :: f in Facts(s) <==> WeightIn(s, f) > 0
  {
    forall f ensures f in Facts(s) <==> WeightIn(s, f) > 0 {
      if WeightIn(s, f) > 0 {
        assert f.pred in s.Keys && f.values in s[f.pred].weights.Keys;
        assert f == Fact(f.pred, f.values);
      }
    }
  }

  lemma GetValid(s: Store, p: string)
    requires ValidStore(s)
    ensures Get(s, p).Valid()
  {
  }

  function AddTo(s: Store, p: string, t: Tuple, w: int): Store {
    s[p := Get(s, p).AddWeighted(t, w)]
  }

  /** Adding to one fact changes its weight and no other fact's. */
  lemma AddToIsAddition(s: Store, p: string, t: Tuple, w: int)
    requires ValidStore(s)
    ensures ValidStore(AddTo(s, p, t, w))
    ensures forall f :: WeightIn(AddTo(s, p, t, w), f) == WeightIn(s, f) + (if f == Fact(p, t) then w else 0)
  {
    AddWeightedIsAddition(Get(s, p), t, w);
    forall f
      ensures WeightIn(AddTo(s, p, t, w), f) == WeightIn(s, f) + (if f == Fact(p, t) then w else 0)
    {
      assert f == Fact(f.pred, f.values);
    }
  }

  class Database {
    var rels: Store

    ghost predicate Valid()
      reads this
    {
      ValidStore(rels)
    }

    function Weight(f: Fact): int
      reads this
    {
      WeightIn(rels, f)
    }

    constructor ()
      ensures rels == map[] && Valid()
    {
      rels := map[];
    }

    function GetRelation(p: string): Relation
      reads this
    {
      Get(rels, p)
    }

    method AddWeighted(p: string, t: Tuple, w: int) returns (after: int)
      requires Valid()
      modifies this
      ensures Valid()
      ensures rels == AddTo(old(rels), p, t, w)
      ensures after == Weight(Fact(p, t)) == old(Weight(Fact(p, t))) + w
      ensures forall f :: Weight(f) == old(Weight(f)) + (if f == Fact(p, t) then w else 0)
    {
      AddToIsAddition(rels, p, t, w);
      rels := rels[p := Get(rels, p).AddWeighted(t, w)];
      after := rels[p].WeightOf(t);
    }

    /** Z-set addition of another database. */
    method AddAllWeighted(other: Database)
      requires Valid() && other.Valid() && other != this
      modifies this
      ensures Valid()
      ensures forall f :: Weight(f) == old(Weight(f)) + other.Weight(f)
    {
      var preds := other.rels.Keys;
      ghost var done: set<string> := {};
      while preds != {}
        invariant Valid()
        invariant preds !! done && preds + done == other.rels.Keys
        invariant forall f :: Weight(f) == old(Weight(f)) + (if f.pred in done then other.Weight(f) else 0)
        decreases preds
      {
        var p :| p in preds;
        AddRelation(p, other.rels[p]);
        preds := preds - {p};
        done := done + {p};
      }
    }

    method AddRelation(p: string, delta: Relation)
      requires Valid() && delta.Valid()
      modifies this
      ensures Valid()
      ensures forall f :: Weight(f) == old(Weight(f)) + (if f.pred == p then delta.WeightOf(f.values) else 0)
    {
      for i := 0 to |delta.order|
        invariant Valid()
        invariant forall f ::
          Weight(f) == old(Weight(f)) + (if f.pred == p && f.values in delta.order[..i] then delta.WeightOf(f.values) else 0)
      {
        var t := delta.order[i];
        var _ := AddWeighted(p, t, delta.WeightOf(t));
        assert delta.order[..i + 1] == delta.order[..i] + [t];
        assert t !in delta.order[..i];
      }
      assert delta.order[..|delta.order|] == delta.order;
      assert forall t :: t in delta.order <==> t in delta.weights;
    }

    /** Some relation has a stored entry, of whatever sign. */
    predicate HasAnyEntries()
      reads this
    {
      exists p :: p in rels && rels[p].order != []
    }

    lemma NoEntriesNoWeights()
      requires Valid()
      ensures !HasAnyEntries() <==> forall f :: Weight(f) == 0
    {
      if forall f :: Weight(f) == 0 {
        forall p | p in rels ensures rels[p].order == [] {
          var r := rels[p];
          assert r.order != [] ==> r.order[0] in r.order;
          assert r.order != [] ==> Weight(Fact(p, r.order[0])) != 0;
        }
      }
    }
  }

  /** A lazy view of `base` as it was before `delta`. A relation the delta does
      not touch is the live one; any other is rebuilt on first access and kept
      for the lifetime of the view. */
  class DatabaseView {
    const base: Database
    const delta: Database
    var cache: Store

    constructor (base: Database, delta: Database)
      ensures this.base == base && this.delta == delta && cache == map[]
    {
      this.base := base;
      this.delta := delta;
      cache := map[];
    }

    /** The relation a read would return now. */
    function Current(p: string): Relation
      reads this, base, delta
    {
      if p in cache then cache[p]
      else if delta.GetRelation(p).order == [] then base.GetRelation(p)
      else base.GetRelation(p).PresenceBefore(delta.GetRelation(p))
    }

    /** All the relations the view shows now. */
    ghost function Shown(): imap<string, Relation>
      reads this, base, delta
    {
      imap p: string | true :: Current(p)
    }

    /** Only relations the delta touches are kept in the cache. */
    ghost predicate Valid()
      reads this, base, delta
    {
      && base.Valid() && delta.Valid() && ValidStore(cache)
      && forall p :: p in cache ==> delta.GetRelation(p).order != []
    }

    /** A read fills the cache and changes no relation the view shows. */
    method GetRelation(p: string) returns (r: Relation)
      requires Valid()
      modifies this
      ensures Valid()
      ensures r == old(Current(p))
      ensures Shown() == old(Shown())
    {
      if p in cache {
        return cache[p];
      }
      var baseRel := base.GetRelation(p);
      var deltaRel := delta.GetRelation(p);
      if deltaRel.order == [] {
        return baseRel;
      }
      r := baseRel.PresenceBefore(deltaRel);
      PresenceBeforeIs(baseRel, deltaRel);
      cache := cache[p := r];
    }
  }
}
