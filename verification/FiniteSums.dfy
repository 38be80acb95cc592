/** Sums over finite maps and products over sequences: the arithmetic behind
    counting derivations. */
module FiniteSums {
  import opened Prelude

  // ---------------------------------------------------------------------
  // Sums of the values of a finite map
  // ---------------------------------------------------------------------

  ghost function MapSum<K>(m: map<K, int>): int
    decreases m.Keys
  {
    if m.Keys == {} then 0
    else
      var k :| k in m.Keys;
      m[k] + MapSum(m - {k})
  }

  /** The sum does not depend on the key taken first. */
  lemma {:induction false} MapSumPick<K>(m: map<K, int>, k: K)
    requires k in m
    ensures MapSum(m) == m[k] + MapSum(m - {k})
    decreases m.Keys
  {
    var j :| j in m.Keys && MapSum(m) == m[j] + MapSum(m - {j});
    if j != k {
      MapSumPick(m - {j}, k);
      MapSumPick(m - {k}, j);
      assert m - {j} - {k} == m - {k} - {j};
    }
  }

  lemma {:induction false} MapSumAdd<K>(m: map<K, int>, a: map<K, int>, b: map<K, int>)
    requires m.Keys == a.Keys == b.Keys
    requires forall k :: k in m ==> m[k] == a[k] + b[k]
    ensures MapSum(m) == MapSum(a) + MapSum(b)
    decreases m.Keys
  {
    if m.Keys != {} {
      var k :| k in m.Keys;
      MapSumPick(m, k);
      MapSumPick(a, k);
      MapSumPick(b, k);
      MapSumAdd(m - {k}, a - {k}, b - {k});
    }
  }

  lemma {:induction false} MapSumScale<K>(m: map<K, int>, a: map<K, int>, c: int)
    requires m.Keys == a.Keys
    requires forall k :: k in m ==> m[k] == c * a[k]
    ensures MapSum(m) == c * MapSum(a)
    decreases m.Keys
  {
    if m.Keys != {} {
      var k :| k in m.Keys;
      MapSumPick(m, k);
      MapSumPick(a, k);
      MapSumScale(m - {k}, a - {k}, c);
      Distribute(c, a[k], MapSum(a - {k}));
    }
  }

  /** Keys that contribute nothing can be dropped. */
  lemma {:induction false} MapSumDropZeros<K>(m: map<K, int>, s: map<K, int>)
    requires s.Keys <= m.Keys
    requires forall k :: k in s ==> s[k] == m[k]
    requires forall k :: k in m && k !in s ==> m[k] == 0
    ensures MapSum(m) == MapSum(s)
    decreases m.Keys
  {
    if m.Keys != {} {
      var k :| k in m.Keys;
      MapSumPick(m, k);
      if k in s {
        MapSumPick(s, k);
        MapSumDropZeros(m - {k}, s - {k});
      } else {
        MapSumDropZeros(m - {k}, s);
      }
    } else {
      assert s.Keys == {};
    }
  }

  lemma {:induction false} MapSumNonNegative<K>(m: map<K, int>)
    requires forall k :: k in m ==> m[k] >= 0
    ensures MapSum(m) >= 0
    ensures forall k :: k in m ==> MapSum(m) >= m[k]
    ensures MapSum(m) > 0 <==> exists k :: k in m && m[k] > 0
    decreases m.Keys
  {
    if m.Keys != {} {
      var k :| k in m.Keys;
      MapSumPick(m, k);
      MapSumNonNegative(m - {k});
      forall j | j in m ensures MapSum(m) >= m[j] {
        if j != k {
          assert (m - {k})[j] == m[j];
        }
      }
      if MapSum(m) > 0 {
        if m[k] == 0 {
          var j :| j in m - {k} && (m - {k})[j] > 0;
          assert j in m && m[j] > 0;
        }
      }
    }
  }

  lemma MapSumAllZero<K>(m: map<K, int>)
    requires forall k :: k in m ==> m[k] == 0
    ensures MapSum(m) == 0
  {
    MapSumDropZeros(m, map[]);
  }

  /** One key carries the whole sum. */
  lemma MapSumSingle<K>(m: map<K, int>, k: K)
    requires k in m && forall j :: j in m && j != k ==> m[j] == 0
    ensures MapSum(m) == m[k]
  {
    MapSumPick(m, k);
    MapSumAllZero(m - {k});
  }

  // ---------------------------------------------------------------------
  // Products of a sequence of factors
  // ---------------------------------------------------------------------

  function Product(ws: seq<int>): int {
    if ws == [] then 1 else Product(ws[..|ws| - 1]) * ws[|ws| - 1]
  }

  lemma Distribute(c: int, x: int, y: int)
    ensures c * (x + y) == c * x + c * y
  {
  }

  lemma Associate(a: int, b: int, c: int)
    ensures (a * b) * c == a * (b * c)
  {
  }

  lemma {:induction false} ProductConcat(a: seq<int>, b: seq<int>)
    ensures Product(a + b) == Product(a) * Product(b)
  {
    if b == [] {
      assert a + b == a;
    } else {
      var init, last := b[..|b| - 1], b[|b| - 1];
      assert (a + b)[..|a + b| - 1] == a + init;
      ProductConcat(a, init);
      Associate(Product(a), Product(init), last);
    }
  }

  lemma {:induction false} ProductNonNegative(ws: seq<int>)
    requires forall i :: 0 <= i < |ws| ==> ws[i] >= 0
    ensures Product(ws) >= 0
    ensures Product(ws) > 0 <==> forall i :: 0 <= i < |ws| ==> ws[i] > 0
  {
    if ws != [] {
      ProductNonNegative(ws[..|ws| - 1]);
      var p, w := Product(ws[..|ws| - 1]), ws[|ws| - 1];
      assert p * w >= 0 && (p * w > 0 <==> p > 0 && w > 0) by {
        SignOfProduct(p, w);
      }
    }
  }

  lemma SignOfProduct(p: int, w: int)
    requires p >= 0 && w >= 0
    ensures p * w >= 0
    ensures p * w > 0 <==> p > 0 && w > 0
  {
  }

  /** `order` lists every number below `n` once. */
  ghost predicate IsPermutation(order: seq<nat>, n: nat) {
    && Distinct(order)
    && forall i: nat :: i in order <==> i < n
  }

  function Permuted<T>(ws: seq<T>, order: seq<nat>): (r: seq<T>)
    requires forall i :: 0 <= i < |order| ==> order[i] < |ws|
    ensures |r| == |order|
  {
    seq(|order|, i requires 0 <= i < |order| => ws[order[i]])
  }

  lemma SplitPermuted(ws: seq<int>, order: seq<nat>, k: nat)
    requires k < |order| && order[k] == |ws| - 1
    requires forall i :: 0 <= i < |order| ==> order[i] < |ws| && (i != k ==> order[i] < |ws| - 1)
    ensures Permuted(ws, order) == Permuted(ws, order[..k]) + [ws[|ws| - 1]] + Permuted(ws, order[k + 1..])
    ensures Permuted(ws[..|ws| - 1], order[..k] + order[k + 1..]) == Permuted(ws, order[..k]) + Permuted(ws, order[k + 1..])
  {
  }

  /** A product does not depend on the order of its factors. */
  lemma {:induction false} ProductPermuted(ws: seq<int>, order: seq<nat>)
    requires IsPermutation(order, |ws|)
    ensures forall i :: 0 <= i < |order| ==> order[i] < |ws|
    ensures Product(Permuted(ws, order)) == Product(ws)
  {
    assert forall i :: 0 <= i < |order| ==> order[i] in order;
    assert order != [] ==> order[0] in order;
    if ws == [] {
      assert order == [];
    } else {
      var n := |ws| - 1;
      assert n in order;
      var k :| 0 <= k < |order| && order[k] == n;
      var before, after := order[..k], order[k + 1..];
      var rest := before + after;
      RemovePreservesPermutation(order, k, n);
      var init := ws[..n];
      ProductPermuted(init, rest);
      var p := Permuted(ws, order);
      SplitPermuted(ws, order, k);
      ProductMiddle(Permuted(ws, before), ws[n], Permuted(ws, after));
    }
  }

  lemma ProductMiddle(a: seq<int>, w: int, b: seq<int>)
    ensures Product(a + [w] + b) == Product(a + b) * w
  {
    ProductConcat(a + [w], b);
    ProductConcat(a, [w]);
    ProductConcat(a, b);
    assert Product([w]) == w by { assert [w][..0] == []; }
    Rotate(Product(a), w, Product(b));
  }

  lemma Rotate(x: int, w: int, y: int)
    ensures (x * w) * y == (x * y) * w
  {
    Associate(x, w, y);
    Associate(x, y, w);
  }

  lemma RemovePreservesPermutation(order: seq<nat>, k: nat, n: nat)
    requires IsPermutation(order, n + 1)
    requires k < |order| && order[k] == n
    ensures IsPermutation(order[..k] + order[k + 1..], n)
  {
    var rest := order[..k] + order[k + 1..];
    forall i: nat ensures i in rest <==> i < n {
      if i in rest {
        var j :| 0 <= j < |rest| && rest[j] == i;
        var o := if j < k then j else j + 1;
        assert order[o] == i && i in order;
        assert i != n;
      }
      if i < n {
        assert i in order;
        var o :| 0 <= o < |order| && order[o] == i;
        assert rest[if o < k then o else o - 1] == i;
      }
    }
  }
}
