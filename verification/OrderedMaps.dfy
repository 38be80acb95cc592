/** Maps that remember the order of insertion, as JavaScript's do. */
module OrderedMaps {
  import opened Prelude

  datatype OrderedMap<K(==,!new), V> = OrderedMap(keys: seq<K>, items: map<K, V>)
  {
    ghost predicate Valid() {
      Distinct(keys) && forall k :: k in keys <==> k in items
    }

    /** A new key goes last; an old one keeps its place. */
    function Put(k: K, v: V): OrderedMap<K, V> {
      OrderedMap(if k in items then keys else keys + [k], items[k := v])
    }

    function Delete(k: K): OrderedMap<K, V> {
      OrderedMap(Without(keys, k), items - {k})
    }
  }

  lemma PutValid<K(!new), V>(m: OrderedMap<K, V>, k: K, v: V)
    requires m.Valid()
    ensures m.Put(k, v).Valid()
  {
  }

  lemma DeleteValid<K(!new), V>(m: OrderedMap<K, V>, k: K)
    requires m.Valid()
    ensures m.Delete(k).Valid()
  {
    WithoutElements(m.keys, k);
  }

  lemma {:induction false} WithoutAbsent<T(!new)>(xs: seq<T>, x: T)
    requires x !in xs
    ensures Without(xs, x) == xs
  {
    if xs != [] {
      WithoutAbsent(xs[..|xs| - 1], x);
      assert xs == xs[..|xs| - 1] + [xs[|xs| - 1]];
    }
  }

  lemma WithoutAppend<T(!new)>(xs: seq<T>, y: T, x: T)
    ensures Without(xs + [y], x) == if y == x then Without(xs, x) else Without(xs, x) + [y]
  {
    assert (xs + [y])[..|xs|] == xs;
  }

  lemma PutTwice<K(!new), V>(m: OrderedMap<K, V>, k: K, first: V, second: V)
    ensures m.Put(k, first).Put(k, second) == m.Put(k, second)
  {
    assert m.Put(k, first).Put(k, second).items == m.Put(k, second).items;
  }

  lemma DeleteAfterPut<K(!new), V>(m: OrderedMap<K, V>, k: K, v: V)
    requires m.Valid()
    ensures m.Put(k, v).Delete(k) == m.Delete(k)
  {
    WithoutAppend(m.keys, k, k);
    assert m.Put(k, v).Delete(k).items == m.Delete(k).items;
  }

  /** The first `n` entries. */
  ghost function Prefix<K(!new), V>(m: OrderedMap<K, V>, n: nat): OrderedMap<K, V>
    requires m.Valid() && n <= |m.keys|
  {
    OrderedMap(m.keys[..n], map k | k in m.keys[..n] :: m.items[k])
  }

  lemma PrefixStep<K(!new), V>(m: OrderedMap<K, V>, n: nat)
    requires m.Valid() && n < |m.keys|
    ensures Prefix(m, n).Valid() && m.keys[n] !in Prefix(m, n).items
    ensures Prefix(m, n + 1) == Prefix(m, n).Put(m.keys[n], m.items[m.keys[n]])
  {
    assert m.keys[..n + 1] == m.keys[..n] + [m.keys[n]];
    assert m.keys[n] !in m.keys[..n];
    assert Prefix(m, n + 1).items == Prefix(m, n).items[m.keys[n] := m.items[m.keys[n]]];
  }

  lemma PrefixAll<K(!new), V>(m: OrderedMap<K, V>)
    requires m.Valid()
    ensures Prefix(m, |m.keys|) == m
  {
    assert m.keys[..|m.keys|] == m.keys;
    assert Prefix(m, |m.keys|).items == m.items;
  }
}
