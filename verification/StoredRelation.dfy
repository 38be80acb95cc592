/** A relation as the engine keeps it: entries by tuple key in insertion order,
    and join indexes built on first use
    (packages/datalog/src/types.ts, `Relation`). */
module StoredRelations {
  import opened Prelude
  import opened Values
  import opened Unify
  import opened Keys
  import opened ZRelation
  import opened OrderedMaps
  import opened JoinIndexes

  type Indexes = map<Mask, JoinIndex>

  ghost predicate AllCoherent(m: OrderedMap<string, Entry>, indexes: Indexes) {
    forall mask :: mask in indexes ==> Coherent(m, mask, indexes[mask])
  }

  ghost predicate Current(m: OrderedMap<string, Entry>, indexes: Option<Indexes>) {
    indexes.Some? ==> AllCoherent(m, indexes.value)
  }

  lemma OneMoreCoherent(m: OrderedMap<string, Entry>, indexes: Indexes, mask: Mask, index: JoinIndex)
    requires AllCoherent(m, indexes) && Coherent(m, mask, index)
    ensures AllCoherent(m, indexes[mask := index])
  {
  }

  /** Tell every index about a new entry. */
  method IndexesAfterPut(m: OrderedMap<string, Entry>, indexes: Option<Indexes>, key: string, entry: Entry) returns (after: Option<Indexes>)
    requires m.Valid() && key !in m.items && Current(m, indexes)
    ensures Current(m.Put(key, entry), after)
    ensures after.Some? <==> indexes.Some?
    ensures indexes.Some? ==> after.value.Keys == indexes.value.Keys
  {
    if indexes.None? {
      return None;
    }
    var all: Indexes := map[];
    var todo := indexes.value.Keys;
    while todo != {}
      invariant todo !! all.Keys && todo + all.Keys == indexes.value.Keys
      invariant AllCoherent(m.Put(key, entry), all)
      decreases todo
    {
      var mask :| mask in todo;
      PutKeepsCoherent(m, mask, indexes.value[mask], key, entry);
      var index := IndexPut(indexes.value[mask], mask, key, entry);
      OneMoreCoherent(m.Put(key, entry), all, mask, index);
      all := all[mask := index];
      todo := todo - {mask};
    }
    return Some(all);
  }

  /** Tell every index that an entry is gone. */
  method IndexesAfterDrop(m: OrderedMap<string, Entry>, indexes: Option<Indexes>, key: string, entry: Entry) returns (after: Option<Indexes>)
    requires m.Valid() && key in m.items && m.items[key] == entry && Current(m, indexes)
    ensures Current(m.Delete(key), after)
    ensures after.Some? <==> indexes.Some?
    ensures indexes.Some? ==> after.value.Keys == indexes.value.Keys
  {
    if indexes.None? {
      return None;
    }
    ghost var rest := m.Delete(key);
    var all: Indexes := map[];
    var todo := indexes.value.Keys;
    while todo != {}
      invariant todo !! all.Keys && todo + all.Keys == indexes.value.Keys
      invariant AllCoherent(rest, all)
      decreases todo
    {
      var mask :| mask in todo;
      DropKeepsCoherent(m, mask, indexes.value[mask], key);
      var index := IndexDrop(indexes.value[mask], mask, key, entry);
      OneMoreCoherent(rest, all, mask, index);
      all := all[mask := index];
      todo := todo - {mask};
    }
    return Some(all);
  }

  /** Build the index of one mask by a scan in insertion order. */
  method BuildIndex(m: OrderedMap<string, Entry>, mask: Mask) returns (index: JoinIndex)
    requires m.Valid()
    ensures Coherent(m, mask, index)
  {
    index := map[];
    for i := 0 to |m.keys|
      invariant Coherent(Prefix(m, i), mask, index)
    {
      PrefixStep(m, i);
      PutKeepsCoherent(Prefix(m, i), mask, index, m.keys[i], m.items[m.keys[i]]);
      index := IndexPut(index, mask, m.keys[i], m.items[m.keys[i]]);
    }
    PrefixAll(m);
  }

  lemma SnapshotPut(s: Snapshot, key: string, t: Tuple, w: int)
    requires GoodSnapshot(s) && Keyed(s) && KeyedEntry(key, t) && key !in s.items && w != 0
    ensures GoodSnapshot(s.Put(key, WeightedTuple(t, w))) && Keyed(s.Put(key, WeightedTuple(t, w)))
  {
    PutValid(s, key, WeightedTuple(t, w));
    KeyedFinds(s, t);
  }

  lemma SetWeightGood(s: Snapshot, key: string, t: Tuple, w: int)
    requires GoodSnapshot(s) && Keyed(s) && key in s.items && s.items[key].tuple == t && w != 0
    ensures GoodSnapshot(SetWeight(s, key, t, w)) && Keyed(SetWeight(s, key, t, w))
  {
    assert KeyedEntry(key, t);
  }

  /** An entry holds what the snapshot says, and the presence that implies. */
  ghost predicate Shows(entry: Entry, stored: WeightedTuple)
    reads entry
  {
    entry.tuple == stored.tuple && entry.weight == stored.weight && entry.clampedWeight == Clamp(stored.weight)
  }

  /** What does not depend on the weights the entries hold. */
  ghost predicate Consistent(m: OrderedMap<string, Entry>, indexes: Option<Indexes>, s: Snapshot, objects: set<Entry>) {
    && GoodSnapshot(s) && Keyed(s) && m.keys == s.keys && m.items.Keys == s.items.Keys
    && (forall k :: k in m.items ==> m.items[k] in objects && m.items[k].tuple == s.items[k].tuple)
    && Current(m, indexes)
  }

  lemma ConsistentEntries(m: OrderedMap<string, Entry>, indexes: Option<Indexes>, s: Snapshot, objects: set<Entry>)
    requires Consistent(m, indexes, s, objects)
    ensures m.Valid() && Current(m, indexes)
  {
  }

  lemma PutConsistent(m: OrderedMap<string, Entry>, indexes: Option<Indexes>, indexes': Option<Indexes>, s: Snapshot, objects: set<Entry>,
                      key: string, entry: Entry, w: int)
    requires Consistent(m, indexes, s, objects) && key !in m.items && KeyedEntry(key, entry.tuple) && w != 0
    requires Current(m.Put(key, entry), indexes')
    ensures Consistent(m.Put(key, entry), indexes', s.Put(key, WeightedTuple(entry.tuple, w)), objects + {entry})
  {
    SnapshotPut(s, key, entry.tuple, w);
  }

  lemma DropConsistent(m: OrderedMap<string, Entry>, indexes: Option<Indexes>, indexes': Option<Indexes>, s: Snapshot, objects: set<Entry>, key: string)
    requires Consistent(m, indexes, s, objects) && key in m.items && Current(m.Delete(key), indexes')
    ensures Consistent(m.Delete(key), indexes', s.Delete(key), objects)
  {
    DeleteValid(s, key);
  }

  lemma SetConsistent(m: OrderedMap<string, Entry>, indexes: Option<Indexes>, s: Snapshot, objects: set<Entry>, key: string, w: int)
    requires Consistent(m, indexes, s, objects) && key in m.items && w != 0
    ensures Consistent(m, indexes, SetWeight(s, key, m.items[key].tuple, w), objects)
    ensures forall k :: k in m.items && m.items[k] == m.items[key] ==> k == key
  {
    SetWeightGood(s, key, m.items[key].tuple, w);
  }

  datatype KeyedTuple = KeyedTuple(key: string, tuple: Tuple, weight: int)

  /** The entries of a relation in order, each with its own key. */
  ghost predicate ListsEntries(list: seq<KeyedTuple>, r: Relation) {
    |list| == |r.order| && forall i :: 0 <= i < |list| ==> ListsEntry(list[i], r, i)
  }

  ghost predicate ListsEntry(k: KeyedTuple, r: Relation, i: nat) {
    i < |r.order| && k.tuple == r.order[i] && k.weight == r.WeightOf(k.tuple) && KeyedEntry(k.key, k.tuple)
  }

  class StoredRelation {
    var entries: OrderedMap<string, Entry>
    /** None until the first lookup that wants one. */
    var indexes: Option<Indexes>
    /** The entries and their weights, as values. */
    ghost var snap: Snapshot
    ghost var objects: set<Entry>

    /** Entries are stored under their own keys with non-zero weights and the
        presence those imply, and every index built so far is coherent. */
    ghost predicate Valid()
      reads this, objects
    {
      && Consistent(entries, indexes, snap, objects)
      && forall k :: k in entries.items ==> Shows(entries.items[k], snap.items[k])
    }

    /** The relation this object stores. */
    ghost function View(): Relation
      reads this, objects
      requires Valid()
    {
      RelationOf(snap)
    }

    constructor ()
      ensures Valid() && View() == EMPTY_RELATION && objects == {} && indexes == None
    {
      entries := OrderedMap([], map[]);
      indexes := None;
      snap := OrderedMap([], map[]);
      objects := {};
    }

    // -----------------------------------------------------------------
    // Storage
    // -----------------------------------------------------------------

    /** A new entry, which every index learns of. */
    method PutEntry(key: string, entry: Entry)
      requires Valid() && key !in entries.items
      requires KeyedEntry(key, entry.tuple) && entry.weight != 0 && entry.clampedWeight == Clamp(entry.weight)
      modifies this
      ensures Valid() && objects == old(objects) + {entry}
      ensures snap == old(snap).Put(key, WeightedTuple(entry.tuple, entry.weight))
    {
      hide GoodSnapshot, Keyed, Current, KeyedEntry;
      ConsistentEntries(entries, indexes, snap, objects);
      var all := IndexesAfterPut(entries, indexes, key, entry);
      PutConsistent(entries, indexes, all, snap, objects, key, entry, entry.weight);
      ghost var m, s := entries, snap;
      indexes := all;
      entries := entries.Put(key, entry);
      snap := snap.Put(key, WeightedTuple(entry.tuple, entry.weight));
      objects := objects + {entry};
      forall k | k in entries.items ensures Shows(entries.items[k], snap.items[k]) {
        assert k != key ==> Shows(m.items[k], s.items[k]);
      }
    }

    /** An entry goes, and every index forgets it. */
    method DropEntry(key: string, entry: Entry)
      requires Valid() && key in entries.items && entries.items[key] == entry
      modifies this
      ensures Valid() && objects == old(objects) && snap == old(snap).Delete(key)
    {
      hide GoodSnapshot, Keyed, Current, KeyedEntry;
      ConsistentEntries(entries, indexes, snap, objects);
      var all := IndexesAfterDrop(entries, indexes, key, entry);
      DropConsistent(entries, indexes, all, snap, objects, key);
      indexes := all;
      entries := entries.Delete(key);
      snap := snap.Delete(key);
    }

    /** The weight of an entry changes in place. No index needs to know. */
    method ChangeWeight(key: string, weight: int)
      requires Valid() && key in entries.items && weight != 0
      modifies this`snap, objects
      ensures Valid() && snap == SetWeight(old(snap), key, entries.items[key].tuple, weight)
    {
      hide GoodSnapshot, Keyed, Current, KeyedEntry;
      var existing := entries.items[key];
      SetConsistent(entries, indexes, snap, objects, key, weight);
      existing.weight := weight;
      existing.clampedWeight := Clamp(weight);
      ghost var before := snap;
      snap := SetWeight(snap, key, existing.tuple, weight);
      forall k | k in entries.items ensures Shows(entries.items[k], snap.items[k]) {
        assert k != key ==> old(Shows(entries.items[k], before.items[k]));
      }
    }

    // -----------------------------------------------------------------
    // Writing
    // -----------------------------------------------------------------

    /** Weights are summed; an entry whose sum is zero is dropped. */
    method AddWeightedByKey(tupleKey: string, tuple: Tuple, weight: int) returns (after: int)
      requires Valid() && KeyedEntry(tupleKey, tuple)
      modifies this, objects
      ensures Valid() && fresh(objects - old(objects))
      ensures View() == old(View()).AddWeighted(tuple, weight)
      ensures after == View().WeightOf(tuple)
    {
      ghost var s := snap;
      KeyedFinds(s, tuple);
      StoredWeight(s, tupleKey, tuple);
      if weight == 0 {
        return if tupleKey in entries.items then entries.items[tupleKey].weight else 0;
      }
      after := StoreByKey(tupleKey, tuple, weight);
      StoreSumIsAddition(s, tupleKey, tuple, weight, after);
    }

    method StoreByKey(tupleKey: string, tuple: Tuple, weight: int) returns (after: int)
      requires Valid() && KeyedEntry(tupleKey, tuple) && weight != 0
      requires tupleKey in snap.items ==> snap.items[tupleKey].tuple == tuple
      modifies this, objects
      ensures Valid() && fresh(objects - old(objects))
      ensures after == StoredAt(old(snap), tupleKey) + weight && snap == StoreSum(old(snap), tupleKey, tuple, after)
    {
      if tupleKey in entries.items {
        var existing := entries.items[tupleKey];
        after := existing.weight + weight;
        if after == 0 {
          DropEntry(tupleKey, existing);
        } else {
          ChangeWeight(tupleKey, after);
        }
      } else {
        PutNew(tupleKey, tuple, weight);
        after := weight;
      }
    }

    /** Remove a tuple altogether; says whether it was present. */
    method Remove(tuple: Tuple) returns (was: bool)
      requires Valid() && AllLegible(tuple)
      modifies this
      ensures Valid() && objects == old(objects)
      ensures was <==> old(View()).Has(tuple)
      ensures View() == old(View()).AddWeighted(tuple, -old(View()).WeightOf(tuple))
    {
      var key := SerializeTuple(tuple);
      KeyedFinds(snap, tuple);
      StoredWeight(snap, key, tuple);
      if key !in entries.items {
        return false;
      }
      var existing := entries.items[key];
      StoreSumIsAddition(snap, key, tuple, -existing.weight, 0);
      was := existing.clampedWeight > 0;
      DropEntry(key, existing);
    }

    // -----------------------------------------------------------------
    // Reading
    // -----------------------------------------------------------------

    method GetWeight(tuple: Tuple) returns (weight: int)
      requires Valid() && AllLegible(tuple)
      ensures weight == View().WeightOf(tuple)
    {
      var key := SerializeTuple(tuple);
      KeyedFinds(snap, tuple);
      StoredWeight(snap, key, tuple);
      return if key in entries.items then entries.items[key].weight else 0;
    }

    /** The entries of a map that holds some of this relation's, as a reader sees
        them. */
    method ReadEntries(keys: seq<string>, items: map<string, Entry>, allEntries: bool) returns (result: seq<WeightedTuple>)
      requires Valid() && forall k :: k in keys ==> k in items && k in entries.items && items[k] == entries.items[k]
      ensures result == ReadKeys(keys, snap.items, allEntries)
    {
      result := [];
      for i := 0 to |keys|
        invariant result == ReadKeys(keys[..i], snap.items, allEntries)
      {
        assert keys[..i + 1][..i] == keys[..i];
        var entry := items[keys[i]];
        assert Shows(entry, snap.items[keys[i]]);
        if allEntries {
          result := result + [WeightedTuple(entry.tuple, entry.weight)];
        } else if entry.clampedWeight > 0 {
          result := result + [WeightedTuple(entry.tuple, entry.clampedWeight)];
        }
      }
      assert keys[..|keys|] == keys;
    }

    /** `allWeightedTuples()` and `weightedTuples()`. */
    method Scan(allEntries: bool) returns (result: seq<WeightedTuple>)
      requires Valid()
      ensures result == View().Scan(allEntries)
    {
      ReadIsScan(snap, |snap.keys|, allEntries);
      assert snap.keys[..|snap.keys|] == snap.keys;
      RelationSize(snap);
      result := ReadEntries(entries.keys, entries.items, allEntries);
    }

    lemma RelationSize(s: Snapshot)
      requires GoodSnapshot(s)
      ensures |RelationOf(s).order| == |s.keys|
    {
    }

    /** The index for a mask, built on first request unless the relation is small.
        Once built it is kept. */
    method IndexFor(mask: Mask) returns (index: Option<JoinIndex>)
      requires Valid()
      modifies this`indexes
      ensures Valid() && (index.Some? ==> Coherent(entries, mask, index.value))
      ensures index.None? <==> !(old(indexes).Some? && mask in old(indexes).value) && |entries.keys| < MIN_INDEXED_SIZE
    {
      if indexes.Some? && mask in indexes.value {
        return Some(indexes.value[mask]);
      }
      if |entries.keys| < MIN_INDEXED_SIZE {
        return None;
      }
      var built := BuildIndex(entries, mask);
      var all := if indexes.Some? then indexes.value else map[];
      indexes := Some(all[mask := built]);
      return Some(built);
    }

    /** The tuples a join has to look at. Through an index they are the scan's
        entries whose masked key is the probe's, in the order of the scan; no
        stored entry changes. */
    method Candidates(mask: Mask, key: string, allEntries: bool) returns (result: seq<WeightedTuple>, ghost indexed: bool)
      requires Valid()
      modifies this`indexes
      ensures Valid() && View() == old(View())
      ensures result == View().Candidates(mask, key, allEntries, indexed)
    {
      indexed := false;
      if mask == {} {
        result := Scan(allEntries);
        return;
      }
      var index := IndexFor(mask);
      if index.None? {
        result := Scan(allEntries);
        return;
      }
      indexed := true;
      result := ReadCandidates(index.value, mask, key, allEntries);
    }

    method ReadCandidates(index: JoinIndex, mask: Mask, key: string, allEntries: bool) returns (result: seq<WeightedTuple>)
      requires Valid() && Coherent(entries, mask, index)
      ensures result == Narrow(View().Scan(allEntries), mask, key)
    {
      ReadBucket(snap.keys, entries.items, snap.items, mask, key, allEntries);
      ReadIsScan(snap, |snap.keys|, allEntries);
      RelationSize(snap);
      assert snap.keys[..|snap.keys|] == snap.keys;
      EmptyBucket(entries, mask, key);
      if key !in index {
        return [];
      }
      var bucket := index[key];
      FilterMembers(entries.keys, entries.items, mask, key);
      result := ReadEntries(bucket.keys, bucket.items, allEntries);
    }

    // -----------------------------------------------------------------
    // Copies
    // -----------------------------------------------------------------

    /** A deep copy, which shares no entry and has no index. */
    method Clone() returns (copy: StoredRelation)
      requires Valid()
      ensures fresh(copy) && fresh(copy.objects) && copy.Valid() && copy.View() == View()
    {
      copy := new StoredRelation();
      for i := 0 to |entries.keys|
        invariant fresh(copy) && fresh(copy.objects) && copy.Valid() && copy.snap == Prefix(snap, i)
      {
        CopyEntry(copy, i);
      }
      PrefixAll(snap);
    }

    method CopyEntry(copy: StoredRelation, i: nat)
      requires Valid() && i < |entries.keys| && copy.Valid() && copy != this && copy.snap == Prefix(snap, i)
      modifies copy
      ensures copy.Valid() && fresh(copy.objects - old(copy.objects)) && copy.snap == Prefix(snap, i + 1)
    {
      var key := entries.keys[i];
      PrefixStep(snap, i);
      assert Shows(entries.items[key], snap.items[key]) && KeyedEntry(key, snap.items[key].tuple);
      copy.PutNew(key, entries.items[key].tuple, entries.items[key].weight);
    }

    method PutNew(key: string, tuple: Tuple, weight: int)
      requires Valid() && KeyedEntry(key, tuple) && key !in snap.items && weight != 0
      modifies this
      ensures Valid() && fresh(objects - old(objects)) && snap == old(snap).Put(key, WeightedTuple(tuple, weight))
    {
      var entry := new Entry(tuple, weight);
      PutEntry(key, entry);
    }

    /** The stored entries with their keys, in insertion order. */
    method KeyedEntries() returns (list: seq<KeyedTuple>)
      requires Valid()
      ensures ListsEntries(list, View())
    {
      list := [];
      RelationSize(snap);
      for i := 0 to |entries.keys|
        invariant |list| == i && forall j :: 0 <= j < i ==> ListsEntry(list[j], View(), j)
      {
        var key := entries.keys[i];
        EntryAt(snap, i);
        assert Shows(entries.items[key], snap.items[key]) && KeyedEntry(key, snap.items[key].tuple);
        list := list + [KeyedTuple(key, entries.items[key].tuple, entries.items[key].weight)];
      }
    }

    /** This relation as it was before the presence flips in `delta`. */
    method PresenceBefore(delta: StoredRelation) returns (before: StoredRelation)
      requires Valid() && delta.Valid()
      ensures fresh(before) && fresh(before.objects) && before.Valid()
      ensures before.View() == View().PresenceBefore(delta.View())
    {
      var flips := delta.KeyedEntries();
      ghost var d := delta.View();
      before := Clone();
      before.UndoFlips(flips, d);
    }

    /** `i` flips have been undone. */
    ghost predicate Undone(r: Relation, d: Relation, i: nat)
      reads this, objects
    {
      i <= |d.order| && Valid() && View() == r.BeforePrefix(d, i)
    }

    lemma NoneUndone(r: Relation, d: Relation)
      requires Valid() && View() == r
      ensures Undone(r, d, 0)
    {
    }

    lemma AllUndone(r: Relation, d: Relation)
      requires Undone(r, d, |d.order|)
      ensures Valid() && View() == r.PresenceBefore(d)
    {
    }

    /** Undo flips one by one, in their order. */
    method UndoFlips(flips: seq<KeyedTuple>, ghost d: Relation)
      requires Valid() && ListsEntries(flips, d)
      modifies this, objects
      ensures Valid() && fresh(objects - old(objects)) && View() == old(View()).PresenceBefore(d)
    {
      hide Undone, Valid, View, ListsEntry;
      ghost var r := View();
      NoneUndone(r, d);
      var i := 0;
      while i < |flips|
        invariant i <= |flips| && Undone(r, d, i)
        invariant fresh(objects - old(objects))
        decreases |flips| - i
      {
        UndoNext(flips[i], d, r, i);
        i := i + 1;
      }
      AllUndone(r, d);
    }

    method UndoNext(flip: KeyedTuple, ghost d: Relation, ghost r: Relation, ghost i: nat)
      requires Undone(r, d, i) && ListsEntry(flip, d, i)
      modifies this, objects
      ensures Undone(r, d, i + 1) && fresh(objects - old(objects))
    {
      UndoFlip(flip.key, flip.tuple, flip.weight);
    }

    method UndoFlip(key: string, tuple: Tuple, flip: int)
      requires Valid() && KeyedEntry(key, tuple)
      modifies this, objects
      ensures Valid() && fresh(objects - old(objects)) && View() == old(View()).UndoFlip(tuple, flip)
    {
      var now := GetWeight(tuple);
      if flip > 0 {
        if now > 0 {
          var _ := AddWeightedByKey(key, tuple, -now);
        }
      } else if now <= 0 {
        var _ := AddWeightedByKey(key, tuple, 1 - now);
      }
    }
  }
}
