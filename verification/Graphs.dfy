/** The dependency graph of a program, and reachability in it
    (packages/datalog/src/stratify.ts, `buildDependencyGraph`). */
module Graphs {
  import opened Prelude
  import opened Syntax

  /** A rule for `src` reads `dst`, through a negation or not. */
  datatype Edge = Edge(src: string, dst: string, negative: bool)

  /** `predicates` in the order of first mention; `adjacency` groups the edges
      by source. */
  datatype DependencyGraph = DependencyGraph(predicates: seq<string>, edges: seq<Edge>, adjacency: map<string, seq<Edge>>)
  {
    function Out(p: string): seq<Edge> {
      if p in adjacency then adjacency[p] else []
    }

    ghost predicate Valid() {
      && Distinct(predicates)
      && (forall e :: e in edges ==> e.src in predicates && e.dst in predicates)
      && (forall p :: Out(p) == EdgesFrom(edges, p))
    }
  }

  function EdgesFrom(edges: seq<Edge>, p: string): seq<Edge> {
    if edges == [] then []
    else
      var last := edges[|edges| - 1];
      EdgesFrom(edges[..|edges| - 1], p) + (if last.src == p then [last] else [])
  }

  lemma {:induction false} EdgesFromMembers(edges: seq<Edge>, p: string)
    ensures forall e :: e in EdgesFrom(edges, p) <==> e in edges && e.src == p
  {
    if edges != [] {
      EdgesFromMembers(edges[..|edges| - 1], p);
      assert edges == edges[..|edges| - 1] + [edges[|edges| - 1]];
    }
  }

  // ---------------------------------------------------------------------
  // Building the graph
  // ---------------------------------------------------------------------

  /** Element `i` of rule `r` is the reason for the edge. */
  predicate EdgeOf(rules: seq<Rule>, r: nat, i: nat, e: Edge) {
    && r < |rules| && i < |rules[r].body|
    && var el := rules[r].body[i];
      el.ReadsRelation() && e == Edge(rules[r].head.pred, el.atom.pred, el.Negation?)
  }

  /** The graph has one edge per reading element, and no others; its nodes are
      the predicates the rules mention. */
  ghost predicate GraphOf(g: DependencyGraph, rules: seq<Rule>) {
    && g.Valid()
    && (forall e :: e in g.edges <==> exists r: nat, i: nat :: EdgeOf(rules, r, i, e))
    && (forall p :: p in g.predicates <==> exists r: nat :: r < |rules| && Mentions(rules[r], p))
  }

  ghost predicate Mentions(rule: Rule, p: string) {
    p == rule.head.pred || p in BodyPredicates(rule.body)
  }

  method BuildDependencyGraph(rules: seq<Rule>) returns (g: DependencyGraph)
    ensures GraphOf(g, rules)
  {
    g := DependencyGraph([], [], map[]);
    for r := 0 to |rules|
      invariant g.Valid()
      invariant forall e :: e in g.edges <==> exists q: nat, i: nat :: q < r && EdgeOf(rules, q, i, e)
      invariant forall p :: p in g.predicates <==> exists q: nat :: q < r && Mentions(rules[q], p)
    {
      ghost var g0 := g;
      g := AddRule(g, rules[r]);
      forall e ensures e in g.edges <==> exists q: nat, i: nat :: q < r + 1 && EdgeOf(rules, q, i, e) {
        if e in g.edges && e !in g0.edges {
          var i: nat :| EdgeOf([rules[r]], 0, i, e);
          assert EdgeOf(rules, r, i, e);
        }
        if q: nat, i: nat :| q < r + 1 && EdgeOf(rules, q, i, e) {
          if q == r {
            assert EdgeOf([rules[r]], 0, i, e);
          }
        }
      }
    }
  }

  function AddNode(g: DependencyGraph, p: string): DependencyGraph {
    if p in g.predicates then g else g.(predicates := g.predicates + [p])
  }

  function AddEdge(g: DependencyGraph, e: Edge): DependencyGraph {
    g.(edges := g.edges + [e], adjacency := g.adjacency[e.src := g.Out(e.src) + [e]])
  }

  lemma AddEdgeValid(g: DependencyGraph, e: Edge)
    requires g.Valid() && e.src in g.predicates && e.dst in g.predicates
    ensures AddEdge(g, e).Valid()
  {
    var g' := AddEdge(g, e);
    forall p ensures g'.Out(p) == EdgesFrom(g'.edges, p) {
      assert g'.edges[..|g'.edges| - 1] == g.edges;
      assert g.Out(p) == EdgesFrom(g.edges, p);
    }
  }

  /** The head and the first `n` elements of a rule have been added to `g`. */
  ghost predicate ElementsAdded(g: DependencyGraph, g': DependencyGraph, rule: Rule, n: nat) {
    && n <= |rule.body| && rule.head.pred in g'.predicates
    && (forall e :: e in g'.edges <==> e in g.edges || exists j: nat :: j < n && EdgeOf([rule], 0, j, e))
    && (forall p :: p in g'.predicates <==> p in g.predicates || p == rule.head.pred || p in BodyPredicates(rule.body[..n]))
  }

  lemma ElementAdded(g: DependencyGraph, was: DependencyGraph, now: DependencyGraph, rule: Rule, n: nat)
    requires n < |rule.body| && ElementsAdded(g, was, rule, n)
    requires var el := rule.body[n];
      now == if el.ReadsRelation() then AddEdge(AddNode(was, el.atom.pred), Edge(rule.head.pred, el.atom.pred, el.Negation?)) else was
    ensures ElementsAdded(g, now, rule, n + 1)
  {
    BodyPredicatesAppend(rule.body, n);
    forall e ensures e in now.edges <==> e in g.edges || exists j: nat :: j < n + 1 && EdgeOf([rule], 0, j, e) {
      assert e in now.edges <==> e in was.edges || EdgeOf([rule], 0, n, e);
    }
  }

  method AddRule(g: DependencyGraph, rule: Rule) returns (g': DependencyGraph)
    requires g.Valid()
    ensures g'.Valid()
    ensures forall e :: e in g'.edges <==> e in g.edges || exists i: nat :: EdgeOf([rule], 0, i, e)
    ensures forall p :: p in g'.predicates <==> p in g.predicates || Mentions(rule, p)
  {
    g' := AddNode(g, rule.head.pred);
    for i := 0 to |rule.body|
      invariant g'.Valid() && ElementsAdded(g, g', rule, i)
    {
      var el := rule.body[i];
      ghost var was := g';
      if el.ReadsRelation() {
        var e := Edge(rule.head.pred, el.atom.pred, el.Negation?);
        g' := AddNode(g', el.atom.pred);
        AddEdgeValid(g', e);
        g' := AddEdge(g', e);
      }
      ElementAdded(g, was, g', rule, i);
    }
    assert rule.body[..|rule.body|] == rule.body;
  }

  lemma BodyPredicatesAppend(body: seq<Element>, i: nat)
    requires i < |body|
    ensures BodyPredicates(body[..i + 1]) == BodyPredicates(body[..i]) + (if body[i].ReadsRelation() then {body[i].atom.pred} else {})
  {
    var a, b := body[..i], body[..i + 1];
    forall p | p in BodyPredicates(b) ensures p in BodyPredicates(a) + (if body[i].ReadsRelation() then {body[i].atom.pred} else {}) {
      var j :| 0 <= j < |b| && b[j].ReadsRelation() && b[j].atom.pred == p;
      assert j < i ==> a[j] == b[j];
    }
    forall p | p in BodyPredicates(a) ensures p in BodyPredicates(b) {
      var j :| 0 <= j < |a| && a[j].ReadsRelation() && a[j].atom.pred == p;
      assert b[j] == a[j];
    }
    assert b[i] == body[i];
  }

  // ---------------------------------------------------------------------
  // Reachability
  // ---------------------------------------------------------------------

  ghost predicate HasEdge(g: DependencyGraph, u: string, v: string) {
    exists e :: e in g.edges && e.src == u && e.dst == v
  }

  /** `path` goes from `u` to `v` along edges. */
  ghost predicate IsPath(g: DependencyGraph, path: seq<string>, u: string, v: string) {
    && |path| > 0 && path[0] == u && path[|path| - 1] == v
    && forall i :: 0 <= i < |path| - 1 ==> Hop(g, path, i)
  }

  ghost predicate Hop(g: DependencyGraph, path: seq<string>, i: nat)
    requires i + 1 < |path|
  {
    HasEdge(g, path[i], path[i + 1])
  }

  ghost predicate Reach(g: DependencyGraph, u: string, v: string) {
    exists path :: IsPath(g, path, u, v)
  }

  /** Each of the two reaches the other. */
  ghost predicate Mutual(g: DependencyGraph, u: string, v: string) {
    Reach(g, u, v) && Reach(g, v, u)
  }

  lemma ReachSelf(g: DependencyGraph, u: string)
    ensures Reach(g, u, u)
  {
    assert IsPath(g, [u], u, u);
  }

  lemma ReachEdge(g: DependencyGraph, u: string, v: string)
    requires HasEdge(g, u, v)
    ensures Reach(g, u, v)
  {
    assert Hop(g, [u, v], 0);
    assert IsPath(g, [u, v], u, v);
  }

  lemma ReachTrans(g: DependencyGraph, u: string, v: string, w: string)
    requires Reach(g, u, v) && Reach(g, v, w)
    ensures Reach(g, u, w)
  {
    var a :| IsPath(g, a, u, v);
    var b :| IsPath(g, b, v, w);
    var path := a + b[1..];
    forall i | 0 <= i < |path| - 1 ensures Hop(g, path, i) {
      if i >= |a| - 1 {
        assert path[i] == b[i - |a| + 1] && path[i + 1] == b[i - |a| + 2];
        assert Hop(g, b, i - |a| + 1);
      } else {
        assert Hop(g, a, i);
      }
    }
    assert IsPath(g, path, u, w);
  }

  /** What the edges do not leave, paths do not leave. */
  lemma {:induction false} ClosedUnderReach(g: DependencyGraph, C: set<string>, path: seq<string>, u: string, v: string)
    requires forall x, y :: x in C && HasEdge(g, x, y) ==> y in C
    requires u in C && IsPath(g, path, u, v)
    ensures v in C
    decreases |path|
  {
    if |path| > 1 {
      assert Hop(g, path, 0);
      forall i | 0 <= i < |path| - 2 ensures Hop(g, path[1..], i) {
        assert Hop(g, path, i + 1);
      }
      ClosedUnderReach(g, C, path[1..], path[1], v);
    }
  }

  lemma ReachStays(g: DependencyGraph, C: set<string>, u: string, v: string)
    requires forall x, y :: x in C && HasEdge(g, x, y) ==> y in C
    requires u in C && Reach(g, u, v)
    ensures v in C
  {
    var path :| IsPath(g, path, u, v);
    ClosedUnderReach(g, C, path, u, v);
  }

  /** Some cycle of the graph has a negative edge. */
  ghost predicate NegativeCycle(g: DependencyGraph) {
    exists e :: e in g.edges && e.negative && Reach(g, e.dst, e.src)
  }
}
