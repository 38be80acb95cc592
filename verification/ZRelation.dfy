/** A relation as a value: distinct tuples in insertion order, each with a
    non-zero Z-set weight. A tuple is present when its weight is positive
    (packages/datalog/src/types.ts, `Relation`). */
module ZRelation {
  import opened Prelude
  import opened Values
  import opened Syntax
  import opened Unify
  import opened Keys

  datatype WeightedTuple = WeightedTuple(tuple: Tuple, weight: int)

  const EMPTY_RELATION := Relation([], map[])

  datatype Relation = Relation(order: seq<Tuple>, weights: map<Tuple, int>)
  {
    ghost predicate Valid() {
      && Distinct(order)
      && (forall t :: t in order <==> t in weights)
      && (forall t :: t in weights ==> weights[t] != 0)
    }

    function WeightOf(t: Tuple): int {
      if t in weights then weights[t] else 0
    }

    predicate Has(t: Tuple) {
      WeightOf(t) > 0
    }

    /** Weights are summed; an entry that reaches zero is dropped, and a new
        one is appended. */
    function AddWeighted(t: Tuple, w: int): Relation {
      if w == 0 then this
      else if t !in weights then Relation(order + [t], weights[t := w])
      else if weights[t] + w == 0 then Relation(Without(order, t), weights - {t})
      else this.(weights := weights[t := weights[t] + w])
    }

    /** The entry of one tuple as a reader sees it: every entry with its true
        weight, or the present ones with weight 1. */
    function View(t: Tuple, allEntries: bool): seq<WeightedTuple> {
      if allEntries then [WeightedTuple(t, WeightOf(t))]
      else if Has(t) then [WeightedTuple(t, 1)]
      else []
    }

    function ScanPrefix(allEntries: bool, n: nat): seq<WeightedTuple>
      requires n <= |order|
    {
      if n == 0 then [] else ScanPrefix(allEntries, n - 1) + View(order[n - 1], allEntries)
    }

    /** `allWeightedTuples()` and `weightedTuples()`. */
    function Scan(allEntries: bool): seq<WeightedTuple> {
      ScanPrefix(allEntries, |order|)
    }

    /** The tuples a join has to look at: the whole scan, or, through an index,
        the entries whose key at the probed positions is the probe's. */
    function Candidates(mask: Mask, key: string, allEntries: bool, indexed: bool): seq<WeightedTuple> {
      if mask == {} || !indexed then Scan(allEntries) else Narrow(Scan(allEntries), mask, key)
    }

    /** The relation before the first `n` presence flips of `delta`. */
    function BeforePrefix(delta: Relation, n: nat): Relation
      requires n <= |delta.order|
    {
      if n == 0 then this
      else
        BeforePrefix(delta, n - 1).UndoFlip(delta.order[n - 1], delta.WeightOf(delta.order[n - 1]))
    }

    /** What appeared is made absent, and what disappeared present. */
    function UndoFlip(t: Tuple, flip: int): Relation {
      var now := WeightOf(t);
      if flip > 0 then
        if now > 0 then AddWeighted(t, -now) else this
      else if now <= 0 then AddWeighted(t, 1 - now)
      else this
    }

    function PresenceBefore(delta: Relation): Relation {
      BeforePrefix(delta, |delta.order|)
    }
  }

  function Narrow(entries: seq<WeightedTuple>, mask: Mask, key: string): seq<WeightedTuple> {
    if entries == [] then []
    else
      var rest := Narrow(entries[..|entries| - 1], mask, key);
      var last := entries[|entries| - 1];
      if MaskedKey(last.tuple, mask) == key then rest + [last] else rest
  }

  /** Adding a weight changes the weight of that tuple, and of no other. */
  lemma AddWeightedIsAddition(r: Relation, t: Tuple, w: int)
    requires r.Valid()
    ensures r.AddWeighted(t, w).Valid()
    ensures forall u :: r.AddWeighted(t, w).WeightOf(u) == r.WeightOf(u) + (if u == t then w else 0)
  {
    if w != 0 && t in r.weights && r.weights[t] + w == 0 {
      WithoutElements(r.order, t);
    }
  }

  // ---------------------------------------------------------------------
  // Sums over a scan
  // ---------------------------------------------------------------------

  /** The weight of the entries that fit `terms` under `sigma`. */
  function MatchSum(terms: seq<Term>, entries: seq<WeightedTuple>, sigma: Bindings): int {
    if entries == [] then 0
    else
      var last := entries[|entries| - 1];
      MatchSum(terms, entries[..|entries| - 1], sigma) + (if FitsAll(terms, last.tuple, sigma) then last.weight else 0)
  }

  lemma {:induction false} MatchSumConcat(terms: seq<Term>, a: seq<WeightedTuple>, b: seq<WeightedTuple>, sigma: Bindings)
    ensures MatchSum(terms, a + b, sigma) == MatchSum(terms, a, sigma) + MatchSum(terms, b, sigma)
  {
    if b == [] {
      assert a + b == a;
    } else {
      assert (a + b)[..|a + b| - 1] == a + b[..|b| - 1];
      MatchSumConcat(terms, a, b[..|b| - 1], sigma);
    }
  }

  /** The tuples of `ts` that fit `terms` under `sigma`. */
  ghost function Fitting(ts: set<Tuple>, terms: seq<Term>, sigma: Bindings): set<Tuple> {
    set t | t in ts && FitsAll(terms, t, sigma)
  }

  lemma FittingAdd(ts: set<Tuple>, t: Tuple, terms: seq<Term>, sigma: Bindings)
    requires t !in ts
    ensures |Fitting(ts + {t}, terms, sigma)| == |Fitting(ts, terms, sigma)| + (if FitsAll(terms, t, sigma) then 1 else 0)
  {
    assert Fitting(ts + {t}, terms, sigma) == Fitting(ts, terms, sigma) + (if FitsAll(terms, t, sigma) then {t} else {});
  }

  ghost function PresentIn(r: Relation, n: nat): set<Tuple>
    requires n <= |r.order|
  {
    set i | 0 <= i < n && r.WeightOf(r.order[i]) > 0 :: r.order[i]
  }

  ghost function NegativeIn(r: Relation, n: nat): set<Tuple>
    requires n <= |r.order|
  {
    set i | 0 <= i < n && r.WeightOf(r.order[i]) < 0 :: r.order[i]
  }

  ghost function PresentTuples(r: Relation): set<Tuple> {
    PresentIn(r, |r.order|)
  }

  ghost function NegativeTuples(r: Relation): set<Tuple> {
    NegativeIn(r, |r.order|)
  }

  lemma PresentTuplesAre(r: Relation)
    requires r.Valid()
    ensures forall t :: t in PresentTuples(r) <==> r.WeightOf(t) > 0
    ensures forall t :: t in NegativeTuples(r) <==> r.WeightOf(t) < 0
  {
    forall t ensures t in PresentTuples(r) <==> r.WeightOf(t) > 0 {
      if r.WeightOf(t) > 0 {
        assert t in r.order;
      }
    }
    forall t ensures t in NegativeTuples(r) <==> r.WeightOf(t) < 0 {
      if r.WeightOf(t) < 0 {
        assert t in r.order;
      }
    }
  }

  ghost function PresentCount(r: Relation, n: nat, terms: seq<Term>, sigma: Bindings): nat
    requires n <= |r.order|
  {
    |Fitting(PresentIn(r, n), terms, sigma)|
  }

  lemma PresentCountStep(r: Relation, n: nat, terms: seq<Term>, sigma: Bindings)
    requires r.Valid() && 0 < n <= |r.order|
    ensures var t := r.order[n - 1];
      PresentCount(r, n, terms, sigma) == PresentCount(r, n - 1, terms, sigma) + if r.Has(t) && FitsAll(terms, t, sigma) then 1 else 0
  {
    var t := r.order[n - 1];
    if r.Has(t) {
      assert PresentIn(r, n) == PresentIn(r, n - 1) + {t};
      FittingAdd(PresentIn(r, n - 1), t, terms, sigma);
    } else {
      assert PresentIn(r, n) == PresentIn(r, n - 1);
    }
  }

  lemma {:induction false} PresentSumPrefix(r: Relation, n: nat, terms: seq<Term>, sigma: Bindings)
    requires r.Valid() && n <= |r.order|
    ensures MatchSum(terms, r.ScanPrefix(false, n), sigma) == PresentCount(r, n, terms, sigma)
  {
    if n == 0 {
      assert PresentIn(r, 0) == {};
    } else {
      PresentSumPrefix(r, n - 1, terms, sigma);
      PresentCountStep(r, n, terms, sigma);
      MatchSumConcat(terms, r.ScanPrefix(false, n - 1), r.View(r.order[n - 1], false), sigma);
      ViewSum(r, r.order[n - 1], terms, sigma);
    }
  }

  lemma ViewSum(r: Relation, t: Tuple, terms: seq<Term>, sigma: Bindings)
    ensures MatchSum(terms, r.View(t, false), sigma) == if r.Has(t) && FitsAll(terms, t, sigma) then 1 else 0
  {
    if r.Has(t) {
      assert r.View(t, false)[..0] == [];
    }
  }

  /** A scan of the present tuples counts the ones that fit. */
  lemma PresentSum(r: Relation, terms: seq<Term>, sigma: Bindings)
    requires r.Valid()
    ensures MatchSum(terms, r.Scan(false), sigma) == |Fitting(PresentTuples(r), terms, sigma)|
  {
    PresentSumPrefix(r, |r.order|, terms, sigma);
  }

  /** Every weight is 1 or -1: a relation of presence flips. */
  ghost predicate UnitWeights(r: Relation) {
    forall t :: t in r.weights ==> r.weights[t] == 1 || r.weights[t] == -1
  }

  /** The flips among the first `n` entries that fit, appearances less
      disappearances. */
  ghost function FlipCount(r: Relation, n: nat, terms: seq<Term>, sigma: Bindings): int
    requires n <= |r.order|
  {
    |Fitting(PresentIn(r, n), terms, sigma)| - |Fitting(NegativeIn(r, n), terms, sigma)|
  }

  lemma FlipCountStep(r: Relation, n: nat, terms: seq<Term>, sigma: Bindings)
    requires r.Valid() && 0 < n <= |r.order|
    ensures var t := r.order[n - 1];
      FlipCount(r, n, terms, sigma)
      == FlipCount(r, n - 1, terms, sigma) + (if !FitsAll(terms, t, sigma) then 0 else if r.WeightOf(t) > 0 then 1 else -1)
  {
    var t := r.order[n - 1];
    assert t in r.order;
    assert forall i :: 0 <= i < n - 1 ==> r.order[i] != t;
    if r.WeightOf(t) > 0 {
      assert PresentIn(r, n) == PresentIn(r, n - 1) + {t};
      assert NegativeIn(r, n) == NegativeIn(r, n - 1);
      FittingAdd(PresentIn(r, n - 1), t, terms, sigma);
    } else {
      assert PresentIn(r, n) == PresentIn(r, n - 1);
      assert NegativeIn(r, n) == NegativeIn(r, n - 1) + {t};
      FittingAdd(NegativeIn(r, n - 1), t, terms, sigma);
    }
  }

  lemma {:induction false} FlipSumPrefix(r: Relation, n: nat, terms: seq<Term>, sigma: Bindings)
    requires r.Valid() && UnitWeights(r) && n <= |r.order|
    ensures MatchSum(terms, r.ScanPrefix(true, n), sigma) == FlipCount(r, n, terms, sigma)
  {
    if n == 0 {
      assert PresentIn(r, 0) == {} && NegativeIn(r, 0) == {};
    } else {
      var t := r.order[n - 1];
      assert t in r.order;
      FlipSumPrefix(r, n - 1, terms, sigma);
      FlipCountStep(r, n, terms, sigma);
      MatchSumConcat(terms, r.ScanPrefix(true, n - 1), r.View(t, true), sigma);
      assert r.View(t, true)[..0] == [];
    }
  }

  /** A scan of a delta counts the fitting tuples that appeared, less those
      that disappeared. */
  lemma FlipSum(r: Relation, terms: seq<Term>, sigma: Bindings)
    requires r.Valid() && UnitWeights(r)
    ensures MatchSum(terms, r.Scan(true), sigma)
         == |Fitting(PresentTuples(r), terms, sigma)| - |Fitting(NegativeTuples(r), terms, sigma)|
  {
    FlipSumPrefix(r, |r.order|, terms, sigma);
  }

  // ---------------------------------------------------------------------
  // Undoing presence flips
  // ---------------------------------------------------------------------

  /** Undoing the flips of a delta: a tuple that appeared is gone, one that
      disappeared is back, and every other keeps its weight. Multiplicities
      larger than one are undone whole, which subtraction would not do. */
  lemma {:induction false} PresenceBeforeUndoes(r: Relation, delta: Relation, n: nat)
    requires r.Valid() && delta.Valid() && n <= |delta.order|
    ensures r.BeforePrefix(delta, n).Valid()
    ensures forall t :: t in delta.order[..n] ==>
      && (delta.WeightOf(t) > 0 ==> !r.BeforePrefix(delta, n).Has(t))
      && (delta.WeightOf(t) < 0 ==> r.BeforePrefix(delta, n).Has(t))
    ensures forall t :: t !in delta.order[..n] ==> r.BeforePrefix(delta, n).WeightOf(t) == r.WeightOf(t)
  {
    if n > 0 {
      PresenceBeforeUndoes(r, delta, n - 1);
      var t := delta.order[n - 1];
      assert t in delta.order;
      UndoFlipUndoes(r.BeforePrefix(delta, n - 1), t, delta.WeightOf(t));
      assert delta.order[..n] == delta.order[..n - 1] + [t];
      assert t !in delta.order[..n - 1];
    }
  }

  lemma UndoFlipUndoes(r: Relation, t: Tuple, flip: int)
    requires r.Valid() && flip != 0
    ensures r.UndoFlip(t, flip).Valid()
    ensures r.UndoFlip(t, flip).Has(t) <==> flip < 0
    ensures forall u :: u != t ==> r.UndoFlip(t, flip).WeightOf(u) == r.WeightOf(u)
  {
    AddWeightedIsAddition(r, t, -r.WeightOf(t));
    AddWeightedIsAddition(r, t, 1 - r.WeightOf(t));
  }

  lemma PresenceBeforeIs(r: Relation, delta: Relation)
    requires r.Valid() && delta.Valid()
    ensures r.PresenceBefore(delta).Valid()
    ensures forall t :: r.PresenceBefore(delta).Has(t) <==> (delta.WeightOf(t) < 0 || (delta.WeightOf(t) == 0 && r.Has(t)))
  {
    PresenceBeforeUndoes(r, delta, |delta.order|);
    assert delta.order[..|delta.order|] == delta.order;
    forall t
      ensures r.PresenceBefore(delta).Has(t) <==> (delta.WeightOf(t) < 0 || (delta.WeightOf(t) == 0 && r.Has(t)))
    {
      assert t in delta.order <==> t in delta.weights;
    }
  }
}
