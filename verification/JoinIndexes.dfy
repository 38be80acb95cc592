/** Stored relations and their join indexes
    (packages/datalog/src/types.ts, `Relation`). */
module JoinIndexes {
  import opened Prelude
  import opened Values
  import opened Unify
  import opened Keys
  import opened ZRelation
  import opened OrderedMaps

  /** One stored tuple with its true weight and its presence, 1 or 0. The weight
      changes in place; a join index sees the change because it holds the entry
      and not a copy. */
  class Entry {
    const tuple: Tuple
    var weight: int
    var clampedWeight: int

    constructor (tuple: Tuple, weight: int)
      ensures this.tuple == tuple && this.weight == weight && clampedWeight == Clamp(weight)
    {
      this.tuple := tuple;
      this.weight := weight;
      clampedWeight := Clamp(weight);
    }
  }

  function Clamp(weight: int): int {
    if weight > 0 then 1 else 0
  }

  /** Bucket key to the entries with that key, by tuple key. */
  type JoinIndex = map<string, OrderedMap<string, Entry>>

  const MIN_INDEXED_SIZE := 16

  // ---------------------------------------------------------------------
  // What an index must hold
  // ---------------------------------------------------------------------

  /** The keys, in order, of the entries whose masked key is `bucketKey`. */
  function FilterKeys(keys: seq<string>, items: map<string, Entry>, mask: Mask, bucketKey: string): seq<string> {
    if keys == [] then []
    else
      var rest := FilterKeys(keys[..|keys| - 1], items, mask, bucketKey);
      var last := keys[|keys| - 1];
      if last in items && MaskedKey(items[last].tuple, mask) == bucketKey then rest + [last] else rest
  }

  /** The part of the entries that belongs in one bucket. */
  function Restrict(m: OrderedMap<string, Entry>, mask: Mask, bucketKey: string): OrderedMap<string, Entry> {
    OrderedMap(FilterKeys(m.keys, m.items, mask, bucketKey), FilterItems(m.items, mask, bucketKey))
  }

  function FilterItems(items: map<string, Entry>, mask: Mask, bucketKey: string): map<string, Entry> {
    map k | k in items && MaskedKey(items[k].tuple, mask) == bucketKey :: items[k]
  }

  /** The buckets partition the entries by masked key, each in insertion order,
      and none is empty. */
  ghost predicate Coherent(m: OrderedMap<string, Entry>, mask: Mask, index: JoinIndex) {
    && (forall b :: b in index <==> InSomeEntry(m, mask, b))
    && (forall b :: b in index ==> index[b] == Restrict(m, mask, b))
  }

  ghost predicate InSomeEntry(m: OrderedMap<string, Entry>, mask: Mask, bucketKey: string) {
    exists k :: k in m.items && MaskedKey(m.items[k].tuple, mask) == bucketKey
  }

  lemma {:induction false} FilterMembers(keys: seq<string>, items: map<string, Entry>, mask: Mask, b: string)
    ensures forall k :: k in FilterKeys(keys, items, mask, b) <==> k in keys && k in items && MaskedKey(items[k].tuple, mask) == b
  {
    if keys != [] {
      FilterMembers(keys[..|keys| - 1], items, mask, b);
      assert keys == keys[..|keys| - 1] + [keys[|keys| - 1]];
    }
  }

  /** The buckets of a coherent index split the entries: each entry is in the
      bucket of its own masked key and in no other, and no bucket is empty. */
  lemma BucketsPartition(m: OrderedMap<string, Entry>, mask: Mask, index: JoinIndex)
    requires m.Valid() && Coherent(m, mask, index)
    ensures forall b :: b in index ==> index[b].keys != []
    ensures forall k :: k in m.items ==> Holds(index, MaskedKey(m.items[k].tuple, mask), k, m.items[k])
    ensures forall b, k, e :: Holds(index, b, k, e) ==> k in m.items && m.items[k] == e && b == MaskedKey(e.tuple, mask)
  {
    forall b | b in index ensures forall k :: k in index[b].keys <==> k in m.keys && MaskedKey(m.items[k].tuple, mask) == b {
      FilterMembers(m.keys, m.items, mask, b);
    }
    forall b | b in index ensures index[b].keys != [] {
      assert InSomeEntry(m, mask, b);
      var k :| k in m.items && MaskedKey(m.items[k].tuple, mask) == b;
      assert k in index[b].keys;
    }
    forall k | k in m.items ensures Holds(index, MaskedKey(m.items[k].tuple, mask), k, m.items[k]) {
      var b := MaskedKey(m.items[k].tuple, mask);
      assert InSomeEntry(m, mask, b);
      assert b in index && k in index[b].keys;
    }
  }

  /** Bucket `b` lists entry `e` under key `k`. */
  ghost predicate Holds(index: JoinIndex, b: string, k: string, e: Entry) {
    b in index && k in index[b].keys && k in index[b].items && index[b].items[k] == e
  }

  lemma {:induction false} FilterSame(keys: seq<string>, items: map<string, Entry>, items': map<string, Entry>, mask: Mask, b: string)
    requires forall k :: k in keys ==> (k in items <==> k in items') && (k in items ==> items[k] == items'[k])
    ensures FilterKeys(keys, items, mask, b) == FilterKeys(keys, items', mask, b)
  {
    if keys != [] {
      FilterSame(keys[..|keys| - 1], items, items', mask, b);
    }
  }

  lemma RestrictPut(m: OrderedMap<string, Entry>, key: string, entry: Entry, mask: Mask, b: string)
    requires m.Valid() && key !in m.items
    ensures Restrict(m.Put(key, entry), mask, b) == if MaskedKey(entry.tuple, mask) == b then Restrict(m, mask, b).Put(key, entry) else Restrict(m, mask, b)
  {
    var after := m.Put(key, entry);
    assert after.keys[..|after.keys| - 1] == m.keys;
    FilterSame(m.keys, m.items, after.items, mask, b);
    ItemsPut(m.items, key, entry, mask, b);
  }

  lemma ItemsPut(items: map<string, Entry>, key: string, entry: Entry, mask: Mask, b: string)
    requires key !in items
    ensures FilterItems(items[key := entry], mask, b)
      == if MaskedKey(entry.tuple, mask) == b then FilterItems(items, mask, b)[key := entry] else FilterItems(items, mask, b)
  {
  }

  lemma ItemsDelete(items: map<string, Entry>, key: string, mask: Mask, b: string)
    requires key in items
    ensures FilterItems(items - {key}, mask, b)
      == if MaskedKey(items[key].tuple, mask) == b then FilterItems(items, mask, b) - {key} else FilterItems(items, mask, b)
  {
  }

  lemma {:induction false} FilterWithout(keys: seq<string>, items: map<string, Entry>, key: string, mask: Mask, b: string)
    requires key in items
    ensures FilterKeys(Without(keys, key), items - {key}, mask, b)
      == if MaskedKey(items[key].tuple, mask) == b then Without(FilterKeys(keys, items, mask, b), key) else FilterKeys(keys, items, mask, b)
  {
    if keys != [] {
      var init, last := keys[..|keys| - 1], keys[|keys| - 1];
      FilterWithout(init, items, key, mask, b);
      if last != key {
        assert (Without(init, key) + [last])[..|Without(init, key)|] == Without(init, key);
      }
      WithoutAppend(FilterKeys(init, items, mask, b), last, key);
    }
  }

  lemma RestrictDelete(m: OrderedMap<string, Entry>, key: string, mask: Mask, b: string)
    requires m.Valid() && key in m.items
    ensures Restrict(m.Delete(key), mask, b) == if MaskedKey(m.items[key].tuple, mask) == b then Restrict(m, mask, b).Delete(key) else Restrict(m, mask, b)
  {
    FilterWithout(m.keys, m.items, key, mask, b);
    ItemsDelete(m.items, key, mask, b);
  }

  // ---------------------------------------------------------------------
  // Keeping an index up to date
  // ---------------------------------------------------------------------

  function BucketOf(index: JoinIndex, b: string): OrderedMap<string, Entry> {
    if b in index then index[b] else OrderedMap([], map[])
  }

  /** The index after a new entry. */
  function IndexPut(index: JoinIndex, mask: Mask, key: string, entry: Entry): JoinIndex {
    var b := MaskedKey(entry.tuple, mask);
    index[b := BucketOf(index, b).Put(key, entry)]
  }

  /** The index after an entry is gone; an emptied bucket goes with it. */
  function IndexDrop(index: JoinIndex, mask: Mask, key: string, entry: Entry): JoinIndex {
    var b := MaskedKey(entry.tuple, mask);
    if b !in index then index
    else
      var bucket := index[b].Delete(key);
      if |bucket.keys| == 0 then index - {b} else index[b := bucket]
  }

  lemma EmptyBucket(m: OrderedMap<string, Entry>, mask: Mask, b: string)
    requires m.Valid()
    ensures !InSomeEntry(m, mask, b) <==> Restrict(m, mask, b).keys == []
    ensures !InSomeEntry(m, mask, b) ==> Restrict(m, mask, b) == OrderedMap([], map[])
  {
    FilterMembers(m.keys, m.items, mask, b);
    var r := Restrict(m, mask, b);
    if r.keys == [] {
      forall k | k in m.items ensures MaskedKey(m.items[k].tuple, mask) != b {
        assert k !in r.keys;
      }
    } else {
      assert r.keys[0] in r.keys;
    }
  }

  lemma PutKeepsCoherent(m: OrderedMap<string, Entry>, mask: Mask, index: JoinIndex, key: string, entry: Entry)
    requires m.Valid() && key !in m.items && Coherent(m, mask, index)
    ensures Coherent(m.Put(key, entry), mask, IndexPut(index, mask, key, entry))
  {
    var after, index' := m.Put(key, entry), IndexPut(index, mask, key, entry);
    forall b
      ensures b in index' <==> InSomeEntry(after, mask, b)
      ensures b in index' ==> index'[b] == Restrict(after, mask, b)
    {
      RestrictPut(m, key, entry, mask, b);
      EmptyBucket(m, mask, b);
      SomeEntryPut(m, key, entry, mask, b);
    }
  }

  lemma SomeEntryPut(m: OrderedMap<string, Entry>, key: string, entry: Entry, mask: Mask, b: string)
    requires key !in m.items
    ensures InSomeEntry(m.Put(key, entry), mask, b) <==> InSomeEntry(m, mask, b) || MaskedKey(entry.tuple, mask) == b
  {
    var after := m.Put(key, entry);
    if InSomeEntry(m, mask, b) {
      var k :| k in m.items && MaskedKey(m.items[k].tuple, mask) == b;
      assert k in after.items && after.items[k] == m.items[k];
    }
    assert after.items[key] == entry;
  }

  lemma DropKeepsCoherent(m: OrderedMap<string, Entry>, mask: Mask, index: JoinIndex, key: string)
    requires m.Valid() && key in m.items && Coherent(m, mask, index)
    ensures Coherent(m.Delete(key), mask, IndexDrop(index, mask, key, m.items[key]))
  {
    var after, index' := m.Delete(key), IndexDrop(index, mask, key, m.items[key]);
    DeleteValid(m, key);
    assert InSomeEntry(m, mask, MaskedKey(m.items[key].tuple, mask));
    forall b
      ensures b in index' <==> InSomeEntry(after, mask, b)
      ensures b in index' ==> index'[b] == Restrict(after, mask, b)
    {
      RestrictDelete(m, key, mask, b);
      EmptyBucket(after, mask, b);
      EmptyBucket(m, mask, b);
    }
  }

  // ---------------------------------------------------------------------
  // What a relation stands for
  // ---------------------------------------------------------------------

  /** Stored entries by tuple key, weights included. */
  type Snapshot = OrderedMap<string, WeightedTuple>

  /** No tuple is stored twice, and none without weight. */
  ghost predicate GoodSnapshot(s: Snapshot) {
    && s.Valid()
    && (forall k, l :: k in s.items && l in s.items && s.items[k].tuple == s.items[l].tuple ==> k == l)
    && (forall k :: k in s.items ==> s.items[k].weight != 0)
  }

  /** `key` is where `t` is stored, if it is stored at all. */
  ghost predicate IsKeyOf(s: Snapshot, key: string, t: Tuple) {
    forall k :: k in s.items ==> (k == key <==> s.items[k].tuple == t)
  }

  /** Every tuple is stored under its own key. */
  ghost predicate Keyed(s: Snapshot) {
    forall k :: k in s.items ==> KeyedEntry(k, s.items[k].tuple)
  }

  ghost predicate KeyedEntry(k: string, t: Tuple) {
    k == TupleKey(t) && AllLegible(t)
  }

  /** This is what the injectivity of keys is for. */
  lemma KeyedFinds(s: Snapshot, t: Tuple)
    requires Keyed(s) && AllLegible(t)
    ensures IsKeyOf(s, TupleKey(t), t)
  {
    forall k | k in s.items ensures k == TupleKey(t) <==> s.items[k].tuple == t {
      assert KeyedEntry(k, s.items[k].tuple);
      TupleKeyInjective(s.items[k].tuple, t);
    }
  }

  /** The relation that a snapshot stores. */
  ghost function RelationOf(s: Snapshot): (r: Relation)
    requires GoodSnapshot(s)
  {
    Relation(Tuples(s.keys, s.items), Weights(s.keys, s.items))
  }

  /** The tuples of some keys, in order. */
  ghost function Tuples(keys: seq<string>, items: map<string, WeightedTuple>): seq<Tuple>
    requires forall k :: k in keys ==> k in items
  {
    seq(|keys|, i requires 0 <= i < |keys| => items[keys[i]].tuple)
  }

  ghost function Weights(keys: seq<string>, items: map<string, WeightedTuple>): map<Tuple, int>
    requires forall k :: k in keys ==> k in items
  {
    if keys == [] then map[]
    else
      var last := items[keys[|keys| - 1]];
      Weights(keys[..|keys| - 1], items)[last.tuple := last.weight]
  }

  lemma {:induction false} WeightsAre(keys: seq<string>, s: Snapshot, key: string, t: Tuple)
    requires GoodSnapshot(s) && IsKeyOf(s, key, t) && forall k :: k in keys ==> k in s.items
    ensures t in Weights(keys, s.items) <==> key in keys
    ensures t in Weights(keys, s.items) ==> Weights(keys, s.items)[t] == s.items[key].weight
  {
    if keys != [] {
      WeightsAre(keys[..|keys| - 1], s, key, t);
      assert keys[|keys| - 1] in keys;
    }
  }

  lemma {:induction false} WeightedIsStored(keys: seq<string>, s: Snapshot, t: Tuple) returns (key: string)
    requires GoodSnapshot(s) && (forall k :: k in keys ==> k in s.items) && t in Weights(keys, s.items)
    ensures key in keys && s.items[key].tuple == t && IsKeyOf(s, key, t)
    decreases |keys|
  {
    assert keys != [];
    key := keys[|keys| - 1];
    assert key in keys;
    if s.items[key].tuple != t {
      key := WeightedIsStored(keys[..|keys| - 1], s, t);
    }
  }

  /** The weight of a tuple is what is stored under its key. */
  lemma StoredWeight(s: Snapshot, key: string, t: Tuple)
    requires GoodSnapshot(s) && IsKeyOf(s, key, t)
    ensures t in RelationOf(s).weights <==> key in s.items
    ensures key in s.items ==> RelationOf(s).weights[t] == s.items[key].weight && s.items[key].tuple == t
  {
    WeightsAre(s.keys, s, key, t);
  }

  lemma RelationOfValid(s: Snapshot)
    requires GoodSnapshot(s)
    ensures RelationOf(s).Valid()
  {
    var r := RelationOf(s);
    forall t | t in r.weights ensures t in r.order && r.weights[t] != 0 {
      var key := WeightedIsStored(s.keys, s, t);
      var i :| 0 <= i < |s.keys| && s.keys[i] == key;
      assert r.order[i] == t;
      StoredWeight(s, key, t);
    }
    forall i | 0 <= i < |r.order| ensures r.order[i] in r.weights {
      assert s.keys[i] in s.keys;
      StoredWeight(s, s.keys[i], r.order[i]);
    }
    forall i, j | 0 <= i < j < |r.order| ensures r.order[i] != r.order[j] {
      assert s.keys[i] in s.keys && s.keys[j] in s.keys;
    }
  }

  lemma EntryAt(s: Snapshot, i: nat)
    requires GoodSnapshot(s) && i < |s.keys|
    ensures s.keys[i] in s.items && i < |RelationOf(s).order|
    ensures var e := s.items[s.keys[i]]; RelationOf(s).order[i] == e.tuple && RelationOf(s).WeightOf(e.tuple) == e.weight
  {
    assert s.keys[i] in s.keys;
    StoredWeight(s, s.keys[i], s.items[s.keys[i]].tuple);
  }

  function StoredAt(s: Snapshot, key: string): int {
    if key in s.items then s.items[key].weight else 0
  }

  function SetWeight(s: Snapshot, key: string, t: Tuple, w: int): Snapshot {
    OrderedMap(s.keys, s.items[key := WeightedTuple(t, w)])
  }

  /** Store a weight: a new entry goes last, one that reaches zero goes, and any
      other changes in place. */
  function StoreSum(s: Snapshot, key: string, t: Tuple, sum: int): Snapshot {
    if key !in s.items then s.Put(key, WeightedTuple(t, sum))
    else if sum == 0 then s.Delete(key)
    else SetWeight(s, key, t, sum)
  }

  lemma {:induction false} DeletedTuples(keys: seq<string>, s: Snapshot, key: string, t: Tuple)
    requires GoodSnapshot(s) && IsKeyOf(s, key, t) && forall k :: k in keys ==> k in s.items
    ensures forall k :: k in Without(keys, key) ==> k in s.items - {key}
    ensures Tuples(Without(keys, key), s.items - {key}) == Without(Tuples(keys, s.items), t)
    decreases |keys|
  {
    hide GoodSnapshot, Distinct;
    if keys != [] {
      var init, last := keys[..|keys| - 1], keys[|keys| - 1];
      assert last in keys;
      DeletedTuples(init, s, key, t);
      assert Tuples(keys, s.items) == Tuples(init, s.items) + [s.items[last].tuple];
      WithoutAppend(Tuples(init, s.items), s.items[last].tuple, t);
      if last != key {
        assert Tuples(Without(init, key) + [last], s.items - {key}) == Tuples(Without(init, key), s.items - {key}) + [s.items[last].tuple];
      }
    }
  }

  /** `after` stores what `s` stores, except for `t`. */
  ghost predicate SameBut(s: Snapshot, after: Snapshot, key: string) {
    forall k :: k != key ==> (k in s.items <==> k in after.items) && (k in s.items ==> s.items[k] == after.items[k])
  }

  lemma OtherWeights(s: Snapshot, after: Snapshot, key: string, t: Tuple, u: Tuple)
    requires GoodSnapshot(s) && GoodSnapshot(after) && IsKeyOf(s, key, t) && IsKeyOf(after, key, t) && SameBut(s, after, key) && u != t
    ensures u in RelationOf(after).weights <==> u in RelationOf(s).weights
    ensures u in RelationOf(s).weights ==> RelationOf(after).weights[u] == RelationOf(s).weights[u]
  {
    if u in RelationOf(s).weights {
      var k := WeightedIsStored(s.keys, s, u);
      assert IsKeyOf(after, k, u);
      StoredWeight(s, k, u);
      StoredWeight(after, k, u);
    } else if u in RelationOf(after).weights {
      var k := WeightedIsStored(after.keys, after, u);
      assert IsKeyOf(s, k, u);
      StoredWeight(s, k, u);
    }
  }

  lemma Gains(s: Snapshot, after: Snapshot, key: string, t: Tuple, w: int)
    requires GoodSnapshot(s) && GoodSnapshot(after) && IsKeyOf(s, key, t) && IsKeyOf(after, key, t) && SameBut(s, after, key)
    requires key in after.items && after.items[key] == WeightedTuple(t, w)
    ensures RelationOf(after).weights == RelationOf(s).weights[t := w]
  {
    StoredWeight(after, key, t);
    forall u | u != t
      ensures u in RelationOf(after).weights <==> u in RelationOf(s).weights
      ensures u in RelationOf(s).weights ==> RelationOf(after).weights[u] == RelationOf(s).weights[u]
    {
      OtherWeights(s, after, key, t, u);
    }
  }

  lemma Loses(s: Snapshot, after: Snapshot, key: string, t: Tuple)
    requires GoodSnapshot(s) && GoodSnapshot(after) && IsKeyOf(s, key, t) && IsKeyOf(after, key, t) && SameBut(s, after, key)
    requires key !in after.items
    ensures RelationOf(after).weights == RelationOf(s).weights - {t}
  {
    StoredWeight(after, key, t);
    forall u | u != t
      ensures u in RelationOf(after).weights <==> u in RelationOf(s).weights
      ensures u in RelationOf(s).weights ==> RelationOf(after).weights[u] == RelationOf(s).weights[u]
    {
      OtherWeights(s, after, key, t, u);
    }
  }

  lemma StoreSumGood(s: Snapshot, key: string, t: Tuple, sum: int)
    requires GoodSnapshot(s) && IsKeyOf(s, key, t) && (key !in s.items ==> sum != 0)
    ensures GoodSnapshot(StoreSum(s, key, t, sum)) && IsKeyOf(StoreSum(s, key, t, sum), key, t)
    ensures SameBut(s, StoreSum(s, key, t, sum), key)
  {
    if key !in s.items {
      PutValid(s, key, WeightedTuple(t, sum));
    } else if sum == 0 {
      DeleteValid(s, key);
    }
  }

  lemma StoreSumOrder(s: Snapshot, key: string, t: Tuple, sum: int)
    requires GoodSnapshot(s) && IsKeyOf(s, key, t) && GoodSnapshot(StoreSum(s, key, t, sum)) && (key !in s.items ==> sum != 0)
    ensures RelationOf(StoreSum(s, key, t, sum)).order ==
      if key !in s.items then RelationOf(s).order + [t] else if sum == 0 then Without(RelationOf(s).order, t) else RelationOf(s).order
  {
    hide Weights;
    if key in s.items && sum == 0 {
      DeletedTuples(s.keys, s, key, t);
    }
  }

  /** Storing a sum by key stands for adding the difference to the relation. */
  lemma StoreSumIsAddition(s: Snapshot, key: string, t: Tuple, w: int, sum: int)
    requires GoodSnapshot(s) && IsKeyOf(s, key, t) && w != 0 && sum == StoredAt(s, key) + w
    ensures GoodSnapshot(StoreSum(s, key, t, sum)) && IsKeyOf(StoreSum(s, key, t, sum), key, t)
    ensures RelationOf(StoreSum(s, key, t, sum)) == RelationOf(s).AddWeighted(t, w)
    ensures RelationOf(StoreSum(s, key, t, sum)).WeightOf(t) == sum
  {
    var after := StoreSum(s, key, t, sum);
    StoreSumGood(s, key, t, sum);
    StoreSumOrder(s, key, t, sum);
    StoredWeight(s, key, t);
    if key in s.items && sum == 0 {
      Loses(s, after, key, t);
    } else {
      Gains(s, after, key, t, sum);
    }
  }

  // ---------------------------------------------------------------------
  // Reading
  // ---------------------------------------------------------------------

  function ViewOf(e: WeightedTuple, allEntries: bool): seq<WeightedTuple> {
    if allEntries then [e] else if e.weight > 0 then [WeightedTuple(e.tuple, 1)] else []
  }

  /** The entries of some keys as a reader sees them. */
  function ReadKeys(keys: seq<string>, items: map<string, WeightedTuple>, allEntries: bool): seq<WeightedTuple> {
    if keys == [] then []
    else
      var last := keys[|keys| - 1];
      ReadKeys(keys[..|keys| - 1], items, allEntries) + (if last in items then ViewOf(items[last], allEntries) else [])
  }

  lemma {:induction false} ReadIsScan(s: Snapshot, n: nat, allEntries: bool)
    requires GoodSnapshot(s) && n <= |s.keys|
    ensures ReadKeys(s.keys[..n], s.items, allEntries) == RelationOf(s).ScanPrefix(allEntries, n)
  {
    if n > 0 {
      ReadIsScan(s, n - 1, allEntries);
      assert s.keys[..n][..n - 1] == s.keys[..n - 1];
      EntryAt(s, n - 1);
    }
  }

  /** Reading one bucket is reading everything and keeping what has its key. */
  lemma {:induction false} ReadBucket(keys: seq<string>, items: map<string, Entry>, values: map<string, WeightedTuple>, mask: Mask, b: string, allEntries: bool)
    requires items.Keys == values.Keys && forall k :: k in items ==> values[k].tuple == items[k].tuple
    ensures ReadKeys(FilterKeys(keys, items, mask, b), values, allEntries) == Narrow(ReadKeys(keys, values, allEntries), mask, b)
  {
    if keys != [] {
      var init, last := keys[..|keys| - 1], keys[|keys| - 1];
      ReadBucket(init, items, values, mask, b, allEntries);
      var kept := FilterKeys(init, items, mask, b);
      assert (kept + [last])[..|kept|] == kept;
      var all, one := ReadKeys(init, values, allEntries), if last in items then ViewOf(values[last], allEntries) else [];
      assert ReadKeys(keys, values, allEntries) == all + one;
      if one != [] {
        assert (all + one)[..|all + one| - 1] == all && (all + one)[|all + one| - 1] == one[0];
      } else {
        assert all + one == all;
      }
    }
  }
}
