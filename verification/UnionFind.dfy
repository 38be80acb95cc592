/** Disjoint sets over 0..n-1, with path halving
    (packages/datalog/src/stratify.ts, `find` and `union` inside `stratify`). */
module UnionFinds {
  datatype Link = Link(a: nat, b: nat)

  /** The representatives after the sets of `a` and `b` become one. */
  ghost function Merged(rep: seq<nat>, a: nat, b: nat): (r: seq<nat>)
    requires a < |rep| && b < |rep|
    ensures |r| == |rep|
  {
    seq(|rep|, i requires 0 <= i < |rep| => if rep[i] == rep[a] then rep[b] else rep[i])
  }

  /** `f` gives linked elements one label. */
  ghost predicate Respects(f: seq<nat>, links: set<Link>) {
    forall l :: l in links && l.a < |f| && l.b < |f| ==> f[l.a] == f[l.b]
  }

  /** Two elements have one label. */
  predicate Same(f: seq<nat>, x: nat, y: nat) {
    x < |f| && y < |f| && f[x] == f[y]
  }

  /** The classes are the connected components of the links: linked elements are
      together, and any labelling that does not tell linked elements apart does
      not tell the members of a class apart either. */
  ghost predicate ConnectedBy(rep: seq<nat>, links: set<Link>) {
    && Respects(rep, links)
    && forall f, x, y :: |f| == |rep| && Respects(f, links) && Same(rep, x, y) ==> Same(f, x, y)
  }

  lemma NothingConnected(rep: seq<nat>)
    requires forall i :: 0 <= i < |rep| ==> rep[i] == i
    ensures ConnectedBy(rep, {})
  {
  }

  /** Merging the classes of `a` and `b` adds the one link. */
  lemma MergedConnects(rep: seq<nat>, links: set<Link>, a: nat, b: nat)
    requires ConnectedBy(rep, links) && a < |rep| && b < |rep|
    requires forall l :: l in links ==> l.a < |rep| && l.b < |rep|
    ensures ConnectedBy(Merged(rep, a, b), links + {Link(a, b)})
  {
    var rep', links' := Merged(rep, a, b), links + {Link(a, b)};
    forall f, x, y | |f| == |rep'| && Respects(f, links') && Same(rep', x, y) ensures Same(f, x, y) {
      assert Link(a, b) in links';
      assert Respects(f, links);
      assert Same(rep, x, y) ==> Same(f, x, y);
      assert Same(rep, x, a) ==> Same(f, x, a);
      assert Same(rep, y, a) ==> Same(f, y, a);
      assert Same(rep, x, b) ==> Same(f, x, b);
      assert Same(rep, y, b) ==> Same(f, y, b);
    }
  }

  /** A forest: parents, representatives and ranks. */
  datatype Forest = Forest(parents: seq<nat>, rep: seq<nat>, rank: seq<nat>, top: nat)
  {
    ghost predicate Sized() {
      |parents| == |rep| == |rank|
    }

    /** `x` has the representative of its parent, which ranks above it; a root is
        its own representative, and a representative is a root. */
    ghost predicate Node(x: nat)
      requires Sized() && x < |parents|
    {
      && parents[x] < |parents| && rep[x] < |parents| && rank[x] <= top
      && rep[parents[x]] == rep[x]
      && parents[rep[x]] == rep[x]
      && (if parents[x] == x then rep[x] == x else rank[x] < rank[parents[x]])
    }

    ghost predicate Valid() {
      Sized() && forall x :: 0 <= x < |parents| ==> Node(x)
    }
  }

  lemma Halved(f: Forest, x: nat)
    requires f.Valid() && x < |f.parents| && f.parents[x] != x && f.parents[x] < |f.parents|
    ensures f.Node(x) && f.Node(f.parents[x])
    ensures f.(parents := f.parents[x := f.parents[f.parents[x]]]).Valid()
    ensures f.rank[f.parents[f.parents[x]]] > f.rank[x]
    ensures f.rep[f.parents[f.parents[x]]] == f.rep[x]
  {
    var p := f.parents[x];
    assert f.Node(x) && f.Node(p);
    var q := f.parents[p];
    assert f.Node(q);
    var g := f.(parents := f.parents[x := q]);
    forall y | 0 <= y < |g.parents| ensures g.Node(y) {
      assert f.Node(y);
      assert f.Node(f.rep[y]);
    }
  }

  lemma Attached(f: Forest, a: nat, b: nat)
    requires f.Valid() && a < |f.parents| && b < |f.parents| && a != b && f.parents[a] == a && f.parents[b] == b
    ensures f.rep[a] == a && f.rep[b] == b
    ensures Forest(f.parents[a := b], Merged(f.rep, a, b), f.rank[b := f.rank[b] + f.rank[a] + 1], f.top + f.top + 1).Valid()
  {
    assert f.Node(a) && f.Node(b);
    var g := Forest(f.parents[a := b], Merged(f.rep, a, b), f.rank[b := f.rank[b] + f.rank[a] + 1], f.top + f.top + 1);
    forall y | 0 <= y < |g.parents| ensures g.Node(y) {
      assert f.Node(y);
      assert f.Node(f.rep[y]);
      assert f.Node(f.parents[y]);
    }
  }

  class UnionFind {
    const parent: array<nat>
    /** The representative of each element. */
    ghost var rep: seq<nat>
    /** Parents rank above their children. */
    ghost var rank: seq<nat>
    ghost var top: nat

    ghost function Now(): Forest
      reads this, parent
    {
      Forest(parent[..], rep, rank, top)
    }

    ghost predicate Valid()
      reads this, parent
    {
      Now().Valid()
    }

    constructor (n: nat)
      ensures Valid() && fresh(parent) && parent.Length == n
      ensures |rep| == n && forall i :: 0 <= i < |rep| ==> rep[i] == i
    {
      var p := new nat[n](i => i);
      parent := p;
      rep := seq(n, i => i);
      rank := seq(n, i => 0);
      top := 0;
    }

    /** Climb to the representative, making every other node on the way point to
        its grandparent. No class changes. */
    method Find(start: nat) returns (root: nat)
      requires Valid() && start < parent.Length
      modifies parent
      ensures Valid() && root < parent.Length && root == rep[start] && parent[root] == root
    {
      var x: nat := start;
      assert Now().Node(x);
      while parent[x] != x
        invariant Valid() && x < parent.Length && Now().Node(x) && rep[x] == rep[start]
        decreases top - rank[x]
      {
        ghost var was := Now();
        Halved(was, x);
        parent[x] := parent[parent[x]];
        assert Now() == was.(parents := was.parents[x := was.parents[was.parents[x]]]);
        x := parent[x];
        assert Now().Node(x);
      }
      return x;
    }

    method Union(a: nat, b: nat)
      requires Valid() && a < parent.Length && b < parent.Length
      modifies this, parent
      ensures Valid() && |rep| == |old(rep)| && rep == Merged(old(rep), a, b)
    {
      var ra := Find(a);
      var rb := Find(b);
      assert Now().Node(a) && Now().Node(b);
      assert ra == rb ==> rep == Merged(rep, a, b);
      if ra != rb {
        ghost var was := Now();
        Attached(was, ra, rb);
        parent[ra] := rb;
        rep := Merged(rep, ra, rb);
        rank := rank[rb := rank[rb] + rank[ra] + 1];
        top := top + top + 1;
        assert Now() == Forest(was.parents[ra := rb], Merged(was.rep, ra, rb), rank, top);
        assert rep == Merged(was.rep, a, b);
      }
    }
  }
}
