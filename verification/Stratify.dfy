/** Stratification: cyclic negation, levels, and the grouping of components
    into strata (packages/datalog/src/stratify.ts, `stratify`). */
module Stratification {
  import opened Prelude
  import opened Syntax
  import opened Arity
  import opened Graphs
  import opened Tarjan
  import opened UnionFinds
  import opened Programs

  datatype ProgramError = Shape(conflict: ArityConflict) | CyclicNegation(cycle: seq<string>)

  // ---------------------------------------------------------------------
  // Cyclic negation
  // ---------------------------------------------------------------------

  /** A rule for `u` reads `v`. */
  ghost predicate Reads(rules: seq<Rule>, u: string, v: string) {
    exists r: nat :: r < |rules| && rules[r].head.pred == u && v in BodyPredicates(rules[r].body)
  }

  ghost predicate ReadsNext(rules: seq<Rule>, path: seq<string>, i: nat)
    requires i + 1 < |path|
  {
    Reads(rules, path[i], path[i + 1])
  }

  /** `u` depends on `v` through the rules, along `path`. */
  ghost predicate DependsVia(rules: seq<Rule>, path: seq<string>, u: string, v: string) {
    && |path| > 0 && path[0] == u && path[|path| - 1] == v
    && forall i :: 0 <= i < |path| - 1 ==> ReadsNext(rules, path, i)
  }

  /** Some rule negates a predicate that depends on the rule's head. */
  ghost predicate HasCyclicNegation(rules: seq<Rule>) {
    exists r: nat, i: nat, path :: NegatesDependent(rules, r, i, path)
  }

  ghost predicate NegatesDependent(rules: seq<Rule>, r: nat, i: nat, path: seq<string>) {
    && r < |rules| && i < |rules[r].body| && rules[r].body[i].Negation?
    && DependsVia(rules, path, rules[r].body[i].atom.pred, rules[r].head.pred)
  }

  lemma EdgesAreReads(g: DependencyGraph, rules: seq<Rule>, u: string, v: string)
    requires GraphOf(g, rules)
    ensures HasEdge(g, u, v) <==> Reads(rules, u, v)
  {
    if HasEdge(g, u, v) {
      var e :| e in g.edges && e.src == u && e.dst == v;
      var r: nat, i: nat :| EdgeOf(rules, r, i, e);
      assert v in BodyPredicates(rules[r].body);
    }
    if Reads(rules, u, v) {
      var r: nat :| r < |rules| && rules[r].head.pred == u && v in BodyPredicates(rules[r].body);
      var i: nat :| i < |rules[r].body| && rules[r].body[i].ReadsRelation() && rules[r].body[i].atom.pred == v;
      var e := Edge(u, v, rules[r].body[i].Negation?);
      assert EdgeOf(rules, r, i, e);
      assert e in g.edges;
    }
  }

  lemma PathsAreDependencies(g: DependencyGraph, rules: seq<Rule>, path: seq<string>, u: string, v: string)
    requires GraphOf(g, rules)
    ensures IsPath(g, path, u, v) <==> DependsVia(rules, path, u, v)
  {
    if |path| > 0 {
      forall i | 0 <= i < |path| - 1 ensures Hop(g, path, i) <==> ReadsNext(rules, path, i) {
        EdgesAreReads(g, rules, path[i], path[i + 1]);
      }
    }
  }

  /** The graph has a cycle through a negative edge exactly when the rules
      negate cyclically. */
  lemma NegativeCyclesAreCyclicNegation(g: DependencyGraph, rules: seq<Rule>)
    requires GraphOf(g, rules)
    ensures NegativeCycle(g) <==> HasCyclicNegation(rules)
  {
    if NegativeCycle(g) {
      var e :| e in g.edges && e.negative && Reach(g, e.dst, e.src);
      var r: nat, i: nat :| EdgeOf(rules, r, i, e);
      var path :| IsPath(g, path, e.dst, e.src);
      PathsAreDependencies(g, rules, path, e.dst, e.src);
      assert NegatesDependent(rules, r, i, path);
    }
    if HasCyclicNegation(rules) {
      var r: nat, i: nat, path :| NegatesDependent(rules, r, i, path);
      var e := Edge(rules[r].head.pred, rules[r].body[i].atom.pred, true);
      assert EdgeOf(rules, r, i, e);
      assert e in g.edges;
      PathsAreDependencies(g, rules, path, e.dst, e.src);
    }
  }

  /** A negative edge between members of one component. */
  ghost predicate InternalNegative(g: DependencyGraph, scc: seq<string>) {
    exists e :: e in g.edges && e.negative && e.src in scc && e.dst in scc
  }

  lemma InternalNegativeIsCycle(g: DependencyGraph, sccs: seq<seq<string>>)
    requires g.Valid() && SccsOf(g, sccs)
    ensures NegativeCycle(g) <==> exists k :: 0 <= k < |sccs| && InternalNegative(g, sccs[k])
  {
    if NegativeCycle(g) {
      var e :| e in g.edges && e.negative && Reach(g, e.dst, e.src);
      ReachEdge(g, e.src, e.dst);
      assert e.src in Members(sccs);
      var k :| 0 <= k < |sccs| && e.src in sccs[k];
      assert IsClass(g, sccs[k]);
      assert Mutual(g, e.src, e.dst);
      assert InternalNegative(g, sccs[k]);
    }
    if k :| 0 <= k < |sccs| && InternalNegative(g, sccs[k]) {
      var e :| e in g.edges && e.negative && e.src in sccs[k] && e.dst in sccs[k];
      assert IsClass(g, sccs[k]);
      assert Mutual(g, e.src, e.dst);
    }
  }

  method CheckCyclicNegation(g: DependencyGraph, sccs: seq<seq<string>>) returns (cycle: Option<seq<string>>)
    requires g.Valid() && SccsOf(g, sccs)
    ensures cycle.None? <==> !NegativeCycle(g)
    ensures cycle.Some? ==> cycle.value in sccs && InternalNegative(g, cycle.value)
  {
    InternalNegativeIsCycle(g, sccs);
    for k := 0 to |sccs|
      invariant forall j :: 0 <= j < k ==> !InternalNegative(g, sccs[j])
    {
      var internal := FindInternalNegative(g, sccs[k]);
      if internal {
        return Some(sccs[k]);
      }
    }
    return None;
  }

  method FindInternalNegative(g: DependencyGraph, scc: seq<string>) returns (found: bool)
    requires g.Valid()
    ensures found <==> InternalNegative(g, scc)
  {
    for i := 0 to |scc|
      invariant forall e :: e in g.edges && e.negative && e.src in scc[..i] ==> e.dst !in scc
    {
      var edges := g.Out(scc[i]);
      EdgesFromMembers(g.edges, scc[i]);
      for j := 0 to |edges|
        invariant forall k :: 0 <= k < j ==> !(edges[k].negative && edges[k].dst in scc)
      {
        if edges[j].negative && edges[j].dst in scc {
          assert edges[j] in edges;
          return true;
        }
      }
      assert scc[..i + 1] == scc[..i] + [scc[i]];
    }
    assert scc[..|scc|] == scc;
    return false;
  }

  // ---------------------------------------------------------------------
  // Levels
  // ---------------------------------------------------------------------

  /** Which component each predicate is in. */
  ghost predicate IndexOf(sccs: seq<seq<string>>, sccOf: map<string, nat>) {
    && (forall p :: p in sccOf ==> sccOf[p] < |sccs| && p in sccs[sccOf[p]])
    && (forall k, p :: 0 <= k < |sccs| && p in sccs[k] ==> p in sccOf && sccOf[p] == k)
  }

  method IndexComponents(g: DependencyGraph, sccs: seq<seq<string>>) returns (sccOf: map<string, nat>)
    requires Components(g, sccs)
    ensures IndexOf(sccs, sccOf)
  {
    sccOf := map[];
    for i := 0 to |sccs|
      invariant forall p :: p in sccOf ==> sccOf[p] < i && p in sccs[sccOf[p]]
      invariant forall k, p :: 0 <= k < i && p in sccs[k] ==> p in sccOf && sccOf[p] == k
    {
      sccOf := IndexMembers(sccOf, sccs[i], i);
    }
  }

  method IndexMembers(sccOf: map<string, nat>, scc: seq<string>, i: nat) returns (sccOf': map<string, nat>)
    ensures sccOf' == sccOf + map p | p in scc :: i
  {
    sccOf' := sccOf;
    for j := 0 to |scc|
      invariant sccOf' == sccOf + map p | p in scc[..j] :: i
    {
      assert scc[..j + 1] == scc[..j] + [scc[j]];
      sccOf' := sccOf'[scc[j] := i];
    }
    assert scc[..|scc|] == scc;
  }

  function Step(e: Edge): nat {
    if e.negative then 1 else 0
  }

  /** The edge leads from component `i` to another one. */
  ghost predicate Leaves(sccOf: map<string, nat>, e: Edge, i: nat) {
    e.src in sccOf && e.dst in sccOf && sccOf[e.src] == i && sccOf[e.dst] != i
  }

  function LevelAt(levels: seq<nat>, sccOf: map<string, nat>, p: string): nat {
    if p in sccOf && sccOf[p] < |levels| then levels[sccOf[p]] else 0
  }

  /** The level of component `i` is the least its dependencies allow: each is no
      higher, and lower where negated; and a level above 0 is forced by one. */
  ghost predicate LevelFits(g: DependencyGraph, sccOf: map<string, nat>, levels: seq<nat>, i: nat, level: nat) {
    && (forall e :: e in g.edges && Leaves(sccOf, e, i) ==> LevelAt(levels, sccOf, e.dst) + Step(e) <= level)
    && (level == 0 || exists e :: e in g.edges && Leaves(sccOf, e, i) && LevelAt(levels, sccOf, e.dst) + Step(e) == level)
  }

  ghost predicate LevelsOf(g: DependencyGraph, sccOf: map<string, nat>, levels: seq<nat>) {
    forall i :: 0 <= i < |levels| ==> LevelFits(g, sccOf, levels, i, levels[i])
  }

  method AssignLevels(g: DependencyGraph, sccs: seq<seq<string>>, sccOf: map<string, nat>) returns (sccLevel: array<nat>)
    requires g.Valid() && SccsOf(g, sccs) && IndexOf(sccs, sccOf)
    ensures fresh(sccLevel) && sccLevel.Length == |sccs| && LevelsOf(g, sccOf, sccLevel[..])
  {
    sccLevel := new nat[|sccs|](_ => 0);
    for i := 0 to |sccs|
      invariant forall k :: 0 <= k < i ==> LevelFits(g, sccOf, sccLevel[..], k, sccLevel[k])
    {
      var maxLevel := MaxLevel(g, sccs, sccOf, sccLevel, i);
      ghost var was := sccLevel[..];
      sccLevel[i] := maxLevel;
      forall k | 0 <= k < i + 1 ensures LevelFits(g, sccOf, sccLevel[..], k, sccLevel[k]) {
        LevelStays(g, sccs, sccOf, was, sccLevel[..], k, i);
      }
    }
  }

  /** Setting the level of component `i` does not disturb the ones before it, nor
      what it was computed from. */
  lemma LevelStays(g: DependencyGraph, sccs: seq<seq<string>>, sccOf: map<string, nat>, was: seq<nat>, now: seq<nat>, k: nat, i: nat)
    requires g.Valid() && SccsOf(g, sccs) && IndexOf(sccs, sccOf)
    requires |was| == |now| == |sccs| && k <= i < |was| && now == was[i := now[i]]
    requires LevelFits(g, sccOf, was, k, now[k])
    ensures LevelFits(g, sccOf, now, k, now[k])
  {
    forall e | e in g.edges && Leaves(sccOf, e, k) ensures LevelAt(now, sccOf, e.dst) == LevelAt(was, sccOf, e.dst) {
      EdgeLeadsBack(g, sccs, sccOf, e, k);
    }
  }

  /** Dependencies come first. */
  lemma EdgeLeadsBack(g: DependencyGraph, sccs: seq<seq<string>>, sccOf: map<string, nat>, e: Edge, k: nat)
    requires SccsOf(g, sccs) && IndexOf(sccs, sccOf) && e in g.edges && Leaves(sccOf, e, k)
    ensures sccOf[e.dst] < k
  {
    assert HasEdge(g, e.src, e.dst);
    assert e.src in sccs[k];
    var j :| 0 <= j <= k && e.dst in sccs[j];
  }

  /** The edges from `seen` are accounted for in `level`. */
  ghost predicate LevelSoFar(g: DependencyGraph, sccOf: map<string, nat>, levels: seq<nat>, i: nat, seen: set<Edge>, level: nat) {
    && (forall e :: e in seen && Leaves(sccOf, e, i) ==> LevelAt(levels, sccOf, e.dst) + Step(e) <= level)
    && (level == 0 || exists e :: e in g.edges && Leaves(sccOf, e, i) && LevelAt(levels, sccOf, e.dst) + Step(e) == level)
  }

  method MaxLevel(g: DependencyGraph, sccs: seq<seq<string>>, sccOf: map<string, nat>, sccLevel: array<nat>, i: nat) returns (maxLevel: nat)
    requires g.Valid() && SccsOf(g, sccs) && IndexOf(sccs, sccOf) && sccLevel.Length == |sccs| && i < |sccs|
    ensures LevelFits(g, sccOf, sccLevel[..], i, maxLevel)
  {
    maxLevel := 0;
    var scc := sccs[i];
    ghost var seen: set<Edge> := {};
    for j := 0 to |scc|
      invariant LevelSoFar(g, sccOf, sccLevel[..], i, seen, maxLevel)
      invariant forall k, e :: 0 <= k < j && e in g.Out(scc[k]) ==> e in seen
    {
      assert scc[j] in sccs[i];
      maxLevel := MaxOver(g, sccs, sccOf, sccLevel, i, scc[j], maxLevel, seen);
      seen := seen + Elements(g.Out(scc[j]));
    }
    forall e | e in g.edges && Leaves(sccOf, e, i) ensures e in seen {
      EdgesFromMembers(g.edges, e.src);
      var k :| 0 <= k < |scc| && scc[k] == e.src;
      assert e in g.Out(scc[k]);
    }
  }

  /** The edges of one member. */
  method MaxOver(g: DependencyGraph, sccs: seq<seq<string>>, sccOf: map<string, nat>, sccLevel: array<nat>, i: nat, p: string,
                 start: nat, ghost seen: set<Edge>) returns (maxLevel: nat)
    requires g.Valid() && SccsOf(g, sccs) && IndexOf(sccs, sccOf) && sccLevel.Length == |sccs| && i < |sccs| && p in sccs[i]
    requires LevelSoFar(g, sccOf, sccLevel[..], i, seen, start)
    ensures LevelSoFar(g, sccOf, sccLevel[..], i, seen + Elements(g.Out(p)), maxLevel)
  {
    maxLevel := start;
    var edges := g.Out(p);
    for m := 0 to |edges|
      invariant LevelSoFar(g, sccOf, sccLevel[..], i, seen + Elements(edges[..m]), maxLevel)
    {
      EdgeOfMember(g, sccs, sccOf, i, p, m);
      OneMoreEdge(g, sccOf, sccLevel[..], i, seen + Elements(edges[..m]), maxLevel, edges[m]);
      OneMoreSeen(seen, edges, m);
      var targetScc := sccOf[edges[m].dst];
      if targetScc != i {
        maxLevel := Max(maxLevel, sccLevel[targetScc] + Step(edges[m]));
      }
    }
    assert edges[..|edges|] == edges;
  }

  lemma OneMoreSeen(seen: set<Edge>, edges: seq<Edge>, m: nat)
    requires m < |edges|
    ensures seen + Elements(edges[..m + 1]) == seen + Elements(edges[..m]) + {edges[m]}
  {
    assert edges[..m + 1] == edges[..m] + [edges[m]];
  }

  lemma EdgeOfMember(g: DependencyGraph, sccs: seq<seq<string>>, sccOf: map<string, nat>, i: nat, p: string, m: nat)
    requires g.Valid() && SccsOf(g, sccs) && IndexOf(sccs, sccOf) && i < |sccs| && p in sccs[i] && m < |g.Out(p)|
    ensures var e := g.Out(p)[m];
      e in g.edges && e.dst in sccOf && sccOf[e.dst] < |sccs| && (Leaves(sccOf, e, i) <==> sccOf[e.dst] != i)
  {
    EdgesFromMembers(g.edges, p);
    var e := g.Out(p)[m];
    assert e in g.Out(p);
    assert e.dst in Members(sccs);
  }

  lemma OneMoreEdge(g: DependencyGraph, sccOf: map<string, nat>, levels: seq<nat>, i: nat, seen: set<Edge>, level: nat, e: Edge)
    requires LevelSoFar(g, sccOf, levels, i, seen, level) && e in g.edges
    ensures LevelSoFar(g, sccOf, levels, i, seen + {e}, if Leaves(sccOf, e, i) then Max(level, LevelAt(levels, sccOf, e.dst) + Step(e)) else level)
  {
  }

  // ---------------------------------------------------------------------
  // Connected components of one level
  // ---------------------------------------------------------------------

  /** Element `i` of rule `r` ties two components of one level together: the rule
      reads a derived predicate of the other. */
  ghost predicate Ties(rules: seq<Rule>, sccOf: map<string, nat>, levels: seq<nat>, r: nat, i: nat) {
    && r < |rules| && i < |rules[r].body|
    && var el := rules[r].body[i];
      && el.ReadsRelation() && el.atom.pred in HeadPredicates(rules)
      && rules[r].head.pred in sccOf && el.atom.pred in sccOf
      && sccOf[el.atom.pred] != sccOf[rules[r].head.pred]
      && LevelAt(levels, sccOf, el.atom.pred) == LevelAt(levels, sccOf, rules[r].head.pred)
  }

  ghost function TieOf(rules: seq<Rule>, sccOf: map<string, nat>, levels: seq<nat>, r: nat, i: nat): Link
    requires Ties(rules, sccOf, levels, r, i)
  {
    Link(sccOf[rules[r].head.pred], sccOf[rules[r].body[i].atom.pred])
  }

  ghost predicate IsTie(rules: seq<Rule>, sccOf: map<string, nat>, levels: seq<nat>, l: Link) {
    exists r: nat, i: nat :: Ties(rules, sccOf, levels, r, i) && TieOf(rules, sccOf, levels, r, i) == l
  }

  /** The ties of the rules before element `i` of rule `r` are among the links. */
  ghost predicate Tied(rules: seq<Rule>, sccOf: map<string, nat>, levels: seq<nat>, r: nat, i: nat, links: set<Link>) {
    forall q: nat, j: nat :: Ties(rules, sccOf, levels, q, j) && (q < r || (q == r && j < i)) ==> TieOf(rules, sccOf, levels, q, j) in links
  }

  ghost predicate OnlyTies(rules: seq<Rule>, sccOf: map<string, nat>, levels: seq<nat>, links: set<Link>) {
    forall l :: l in links ==> IsTie(rules, sccOf, levels, l)
  }

  ghost predicate AllIndexed(rules: seq<Rule>, sccOf: map<string, nat>, n: nat) {
    && (forall p :: p in sccOf ==> sccOf[p] < n)
    && (forall r, p :: 0 <= r < |rules| && Mentions(rules[r], p) ==> p in sccOf)
  }

  /** Unite what the rules tie together. */
  method ConnectComponents(rules: seq<Rule>, derived: set<string>, sccOf: map<string, nat>, sccLevel: array<nat>, uf: UnionFind)
    returns (ghost links: set<Link>)
    requires derived == HeadPredicates(rules) && AllIndexed(rules, sccOf, sccLevel.Length)
    requires uf.Valid() && uf.parent.Length == sccLevel.Length && uf.parent != sccLevel
    requires forall i :: 0 <= i < |uf.rep| ==> uf.rep[i] == i
    modifies uf, uf.parent
    ensures uf.Valid() && ConnectedBy(uf.rep, links)
    ensures OnlyTies(rules, sccOf, sccLevel[..], links) && Tied(rules, sccOf, sccLevel[..], |rules|, 0, links)
  {
    links := {};
    NothingConnected(uf.rep);
    for r := 0 to |rules|
      invariant uf.Valid() && ConnectedBy(uf.rep, links) && |uf.rep| == sccLevel.Length
      invariant OnlyTies(rules, sccOf, sccLevel[..], links) && Tied(rules, sccOf, sccLevel[..], r, 0, links)
    {
      for i := 0 to |rules[r].body|
        invariant uf.Valid() && ConnectedBy(uf.rep, links) && |uf.rep| == sccLevel.Length
        invariant OnlyTies(rules, sccOf, sccLevel[..], links) && Tied(rules, sccOf, sccLevel[..], r, i, links)
      {
        links := ConnectElement(rules, derived, sccOf, sccLevel, uf, r, i, links);
      }
    }
  }

  method ConnectElement(rules: seq<Rule>, derived: set<string>, sccOf: map<string, nat>, sccLevel: array<nat>, uf: UnionFind,
                        r: nat, i: nat, ghost links: set<Link>)
    returns (ghost links': set<Link>)
    requires derived == HeadPredicates(rules) && AllIndexed(rules, sccOf, sccLevel.Length)
    requires uf.Valid() && uf.parent.Length == |uf.rep| == sccLevel.Length && uf.parent != sccLevel
    requires r < |rules| && i < |rules[r].body| && ConnectedBy(uf.rep, links)
    requires OnlyTies(rules, sccOf, sccLevel[..], links) && Tied(rules, sccOf, sccLevel[..], r, i, links)
    modifies uf, uf.parent
    ensures uf.Valid() && |uf.rep| == |old(uf.rep)| && ConnectedBy(uf.rep, links')
    ensures OnlyTies(rules, sccOf, sccLevel[..], links') && Tied(rules, sccOf, sccLevel[..], r, i + 1, links')
  {
    links' := links;
    ghost var levels := sccLevel[..];
    var matched := MatchedAtom(rules[r].body[i]);
    if matched.None? {
      return;
    }
    var head, read := rules[r].head.pred, matched.value.pred;
    assert Mentions(rules[r], head) && Mentions(rules[r], read);
    if read !in derived || sccOf[read] == sccOf[head] || sccLevel[sccOf[read]] != sccLevel[sccOf[head]] {
      return;
    }
    assert Ties(rules, sccOf, levels, r, i);
    LinksInRange(rules, sccOf, levels, links, sccLevel.Length);
    MergedConnects(uf.rep, links, sccOf[head], sccOf[read]);
    uf.Union(sccOf[head], sccOf[read]);
    links' := links + {Link(sccOf[head], sccOf[read])};
    assert IsTie(rules, sccOf, levels, Link(sccOf[head], sccOf[read]));
  }

  lemma LinksInRange(rules: seq<Rule>, sccOf: map<string, nat>, levels: seq<nat>, links: set<Link>, n: nat)
    requires OnlyTies(rules, sccOf, levels, links) && forall p :: p in sccOf ==> sccOf[p] < n
    ensures forall l :: l in links ==> l.a < n && l.b < n
  {
    forall l | l in links ensures l.a < n && l.b < n {
      assert IsTie(rules, sccOf, levels, l);
      var r: nat, i: nat :| Ties(rules, sccOf, levels, r, i) && TieOf(rules, sccOf, levels, r, i) == l;
    }
  }

  // ---------------------------------------------------------------------
  // Grouping
  // ---------------------------------------------------------------------

  /** Components of the graph that are evaluated together, by ascending index. */
  datatype Group = Group(level: nat, root: nat, sccs: seq<nat>)

  /** The group lists, by ascending index, exactly those of the first `n`
      components that have its level and its class. */
  ghost predicate Complete(levels: seq<nat>, rep: seq<nat>, group: Group, n: nat) {
    && group.sccs != [] && Ascending(group.sccs)
    && forall i: nat :: i in group.sccs <==> i < n && InGroup(levels, rep, group, i)
  }

  predicate InGroup(levels: seq<nat>, rep: seq<nat>, group: Group, i: nat) {
    i < |levels| && i < |rep| && levels[i] == group.level && rep[i] == group.root
  }

  ghost predicate Ascending(xs: seq<nat>) {
    forall i, j :: 0 <= i < j < |xs| ==> xs[i] < xs[j]
  }

  ghost predicate HasGroup(groups: seq<Group>, level: nat, root: nat) {
    exists k :: 0 <= k < |groups| && groups[k].level == level && groups[k].root == root
  }

  /** One group for each level and class of the first `n` components. */
  ghost predicate Grouped(levels: seq<nat>, rep: seq<nat>, groups: seq<Group>, n: nat) {
    && |levels| == |rep| && n <= |levels|
    && (forall k :: 0 <= k < |groups| ==> Complete(levels, rep, groups[k], n))
    && (forall k, m :: 0 <= k < m < |groups| ==> groups[k].level != groups[m].level || groups[k].root != groups[m].root)
    && (forall i: nat :: i < n ==> HasGroup(groups, levels[i], rep[i]))
  }

  method CollectGroups(sccLevel: array<nat>, uf: UnionFind) returns (groups: seq<Group>)
    requires uf.Valid() && uf.parent.Length == sccLevel.Length == |uf.rep| && uf.parent != sccLevel
    modifies uf.parent
    ensures Grouped(sccLevel[..], uf.rep, groups, sccLevel.Length)
  {
    groups := [];
    for i := 0 to sccLevel.Length
      invariant uf.Valid() && Grouped(sccLevel[..], uf.rep, groups, i)
    {
      var comp := uf.Find(i);
      groups := AddToGroup(groups, sccLevel[i], comp, i, sccLevel[..], uf.rep);
    }
  }

  /** Add component `i` to the group of its level and class, or start one. */
  method AddToGroup(groups: seq<Group>, level: nat, root: nat, i: nat, ghost levels: seq<nat>, ghost rep: seq<nat>) returns (after: seq<Group>)
    requires Grouped(levels, rep, groups, i) && i < |levels| && level == levels[i] && root == rep[i]
    ensures Grouped(levels, rep, after, i + 1)
  {
    var k := 0;
    while k < |groups| && !(groups[k].level == level && groups[k].root == root)
      invariant 0 <= k <= |groups|
      invariant forall j :: 0 <= j < k ==> groups[j].level != level || groups[j].root != root
    {
      k := k + 1;
    }
    if k < |groups| {
      after := groups[k := groups[k].(sccs := groups[k].sccs + [i])];
    } else {
      after := groups + [Group(level, root, [i])];
    }
    assert after[k].level == level && after[k].root == root;
    forall j | 0 <= j < |after| ensures Complete(levels, rep, after[j], i + 1) {
      if j < |groups| {
        GroupGrows(levels, rep, groups[j], i, j == k);
      } else {
        NewGroup(levels, rep, groups, i);
      }
    }
    forall m: nat | m < i + 1 ensures HasGroup(after, levels[m], rep[m]) {
      if m < i {
        assert HasGroup(groups, levels[m], rep[m]);
        var j :| 0 <= j < |groups| && groups[j].level == levels[m] && groups[j].root == rep[m];
        assert after[j].level == levels[m] && after[j].root == rep[m];
      }
    }
  }

  lemma GroupGrows(levels: seq<nat>, rep: seq<nat>, group: Group, i: nat, takes: bool)
    requires Complete(levels, rep, group, i) && i < |levels| == |rep| && takes == InGroup(levels, rep, group, i)
    ensures Complete(levels, rep, if takes then group.(sccs := group.sccs + [i]) else group, i + 1)
  {
    var after := group.sccs + [i];
    assert after[|group.sccs|] == i;
    forall a, b | 0 <= a < b < |after| ensures after[a] < after[b] {
      assert after[a] in group.sccs;
    }
  }

  lemma NewGroup(levels: seq<nat>, rep: seq<nat>, groups: seq<Group>, i: nat)
    requires Grouped(levels, rep, groups, i) && i < |levels| && !HasGroup(groups, levels[i], rep[i])
    ensures Complete(levels, rep, Group(levels[i], rep[i], [i]), i + 1)
  {
    var group := Group(levels[i], rep[i], [i]);
    forall m: nat ensures m in group.sccs <==> m < i + 1 && InGroup(levels, rep, group, m) {
      if m < i {
        assert HasGroup(groups, levels[m], rep[m]);
      }
    }
  }

  /** By level, then by smallest member. */
  predicate Before(a: Group, b: Group) {
    && a.sccs != [] && b.sccs != []
    && (a.level < b.level || (a.level == b.level && a.sccs[0] < b.sccs[0]))
  }

  ghost predicate Sorted(groups: seq<Group>) {
    forall k, m :: 0 <= k < m < |groups| ==> Before(groups[k], groups[m])
  }

  method SortGroups(groups: seq<Group>) returns (sorted: seq<Group>)
    requires forall k :: 0 <= k < |groups| ==> groups[k].sccs != []
    requires forall k, m :: 0 <= k < m < |groups| ==> groups[k].level != groups[m].level || groups[k].sccs[0] != groups[m].sccs[0]
    ensures Sorted(sorted) && multiset(sorted) == multiset(groups)
  {
    sorted := [];
    for i := 0 to |groups|
      invariant Sorted(sorted) && multiset(sorted) == multiset(groups[..i])
    {
      assert groups[..i + 1] == groups[..i] + [groups[i]];
      forall k | 0 <= k < |sorted| ensures Before(sorted[k], groups[i]) || Before(groups[i], sorted[k]) {
        assert sorted[k] in multiset(groups[..i]);
        var m :| 0 <= m < i && groups[m] == sorted[k];
      }
      sorted := InsertGroup(sorted, groups[i]);
    }
    assert groups[..|groups|] == groups;
  }

  method InsertGroup(sorted: seq<Group>, group: Group) returns (after: seq<Group>)
    requires Sorted(sorted) && forall k :: 0 <= k < |sorted| ==> Before(sorted[k], group) || Before(group, sorted[k])
    ensures Sorted(after) && multiset(after) == multiset(sorted) + multiset{group}
  {
    var k := 0;
    while k < |sorted| && Before(sorted[k], group)
      invariant 0 <= k <= |sorted| && forall j :: 0 <= j < k ==> Before(sorted[j], group)
    {
      k := k + 1;
    }
    forall j | k <= j < |sorted| ensures Before(group, sorted[j]) {
      assert j > k ==> Before(sorted[k], sorted[j]);
    }
    after := sorted[..k] + [group] + sorted[k..];
    assert sorted == sorted[..k] + sorted[k..];
  }

  // ---------------------------------------------------------------------
  // Strata
  // ---------------------------------------------------------------------

  /** The predicates of some components. */
  function PredicatesOf(sccs: seq<seq<string>>, indices: seq<nat>): set<string> {
    set i, p | i in indices && i < |sccs| && p in sccs[i] :: p
  }

  /** The rules for some predicates, in program order. */
  method FilterRules(rules: seq<Rule>, preds: set<string>) returns (own: seq<Rule>)
    ensures own == RulesOf(rules, preds)
  {
    own := [];
    for i := 0 to |rules|
      invariant own == RulesOf(rules[..i], preds)
    {
      assert rules[..i + 1][..i] == rules[..i];
      if rules[i].head.pred in preds {
        own := own + [rules[i]];
      }
    }
    assert rules[..|rules|] == rules;
  }

  ghost predicate LaidOut(strata: seq<Stratum>, rules: seq<Rule>, sccs: seq<seq<string>>, groups: seq<Group>) {
    && |strata| == |groups|
    && forall k :: 0 <= k < |strata| ==>
      && strata[k].index == k
      && strata[k].predicates == PredicatesOf(sccs, groups[k].sccs)
      && strata[k].rules == RulesOf(rules, strata[k].predicates)
  }

  method BuildStrata(rules: seq<Rule>, sccs: seq<seq<string>>, groups: seq<Group>) returns (strata: seq<Stratum>)
    ensures LaidOut(strata, rules, sccs, groups)
  {
    strata := [];
    for k := 0 to |groups|
      invariant LaidOut(strata, rules, sccs, groups[..k])
    {
      var preds := PredicatesOf(sccs, groups[k].sccs);
      var own := FilterRules(rules, preds);
      strata := strata + [Stratum(k, preds, own)];
    }
    assert groups[..|groups|] == groups;
  }

  /** Everything the strata are built from. */
  datatype Analysis = Analysis(rules: seq<Rule>, g: DependencyGraph, sccs: seq<seq<string>>, sccOf: map<string, nat>,
                               levels: seq<nat>, rep: seq<nat>, links: set<Link>, groups: seq<Group>)
  {
    ghost predicate Valid() {
      && GraphOf(g, rules) && SccsOf(g, sccs) && IndexOf(sccs, sccOf) && !NegativeCycle(g)
      && |levels| == |sccs| && LevelsOf(g, sccOf, levels)
      && ConnectedBy(rep, links) && OnlyTies(rules, sccOf, levels, links) && Tied(rules, sccOf, levels, |rules|, 0, links)
      && Grouped(levels, rep, groups, |sccs|) && Sorted(groups)
    }
  }

  lemma SortedStillGrouped(levels: seq<nat>, rep: seq<nat>, groups: seq<Group>, sorted: seq<Group>, n: nat)
    requires Grouped(levels, rep, groups, n) && multiset(sorted) == multiset(groups) && Sorted(sorted)
    ensures Grouped(levels, rep, sorted, n)
  {
    forall k | 0 <= k < |sorted| ensures Complete(levels, rep, sorted[k], n) {
      assert sorted[k] in multiset(sorted);
      assert sorted[k] in groups;
    }
    forall k, m | 0 <= k < m < |sorted| ensures sorted[k].level != sorted[m].level || sorted[k].root != sorted[m].root {
      assert Before(sorted[k], sorted[m]);
      if sorted[k].level == sorted[m].level && sorted[k].root == sorted[m].root {
        FirstIsLeast(levels, rep, sorted[k], sorted[m], n);
      }
    }
    forall i: nat | i < n ensures HasGroup(sorted, levels[i], rep[i]) {
      assert HasGroup(groups, levels[i], rep[i]);
      var k :| 0 <= k < |groups| && groups[k].level == levels[i] && groups[k].root == rep[i];
      assert groups[k] in multiset(groups);
      var m :| 0 <= m < |sorted| && sorted[m] == groups[k];
    }
  }

  lemma FirstIsLeast(levels: seq<nat>, rep: seq<nat>, a: Group, b: Group, n: nat)
    requires Complete(levels, rep, a, n) && Complete(levels, rep, b, n) && a.level == b.level && a.root == b.root
    ensures a.sccs[0] == b.sccs[0]
  {
    assert a.sccs[0] in a.sccs && b.sccs[0] in b.sccs;
    assert InGroup(levels, rep, b, a.sccs[0]) && InGroup(levels, rep, a, b.sccs[0]);
    assert b.sccs[0] in a.sccs && a.sccs[0] in b.sccs;
    var i :| 0 <= i < |a.sccs| && a.sccs[i] == b.sccs[0];
    var j :| 0 <= j < |b.sccs| && b.sccs[j] == a.sccs[0];
  }

  lemma DistinctFirsts(levels: seq<nat>, rep: seq<nat>, groups: seq<Group>, n: nat)
    requires Grouped(levels, rep, groups, n)
    ensures forall k, m :: 0 <= k < m < |groups| ==> groups[k].level != groups[m].level || groups[k].sccs[0] != groups[m].sccs[0]
  {
    forall k, m | 0 <= k < m < |groups| ensures groups[k].level != groups[m].level || groups[k].sccs[0] != groups[m].sccs[0] {
      assert Complete(levels, rep, groups[k], n) && Complete(levels, rep, groups[m], n);
      assert groups[k].sccs[0] in groups[k].sccs && groups[m].sccs[0] in groups[m].sccs;
    }
  }

  /** A predicate is in the stratum of its component's level and class. */
  lemma InStratum(a: Analysis, strata: seq<Stratum>, k: nat, p: string)
    requires a.Valid() && LaidOut(strata, a.rules, a.sccs, a.groups) && k < |strata|
    ensures p in strata[k].predicates <==> p in a.sccOf && InGroup(a.levels, a.rep, a.groups[k], a.sccOf[p])
  {
    assert Complete(a.levels, a.rep, a.groups[k], |a.sccs|);
    if p in strata[k].predicates {
      var i :| i in a.groups[k].sccs && i < |a.sccs| && p in a.sccs[i];
      assert a.sccOf[p] == i;
    }
  }

  lemma StratumFor(a: Analysis, strata: seq<Stratum>, p: string) returns (k: nat)
    requires a.Valid() && LaidOut(strata, a.rules, a.sccs, a.groups) && p in a.sccOf
    ensures k < |strata| && p in strata[k].predicates
  {
    var i := a.sccOf[p];
    assert HasGroup(a.groups, a.levels[i], a.rep[i]);
    k :| k < |a.groups| && a.groups[k].level == a.levels[i] && a.groups[k].root == a.rep[i];
    InStratum(a, strata, k, p);
  }

  /** The lower level comes first. */
  lemma LowerFirst(a: Analysis, k: nat, m: nat)
    requires a.Valid() && k < |a.groups| && m < |a.groups| && a.groups[m].level < a.groups[k].level
    ensures m < k
  {
    assert forall x, y :: 0 <= x < y < |a.groups| ==> Before(a.groups[x], a.groups[y]);
  }

  /** What element `i` of rule `r` reads, against the rule's head. */
  lemma ReadEdge(a: Analysis, r: nat, i: nat)
    requires a.Valid() && r < |a.rules| && i < |a.rules[r].body| && a.rules[r].body[i].ReadsRelation()
    ensures var el, head := a.rules[r].body[i], a.rules[r].head.pred;
      && head in a.sccOf && el.atom.pred in a.sccOf
      && (el.Negation? ==> a.sccOf[el.atom.pred] != a.sccOf[head])
      && (a.sccOf[el.atom.pred] != a.sccOf[head] ==>
            LevelAt(a.levels, a.sccOf, el.atom.pred) + (if el.Negation? then 1 else 0) <= LevelAt(a.levels, a.sccOf, head))
  {
    var el, head := a.rules[r].body[i], a.rules[r].head.pred;
    var e := Edge(head, el.atom.pred, el.Negation?);
    assert EdgeOf(a.rules, r, i, e);
    assert e in a.g.edges;
    assert head in Members(a.sccs) && el.atom.pred in Members(a.sccs);
    if a.sccOf[el.atom.pred] == a.sccOf[head] {
      InternalNegativeIsCycle(a.g, a.sccs);
      assert !InternalNegative(a.g, a.sccs[a.sccOf[head]]);
    } else {
      assert Leaves(a.sccOf, e, a.sccOf[head]);
      assert LevelFits(a.g, a.sccOf, a.levels, a.sccOf[head], a.levels[a.sccOf[head]]);
    }
  }

  /** A negated predicate is strictly below, whether derived or not; a derived
      predicate that is read is not above. */
  lemma ReadPlacement(a: Analysis, strata: seq<Stratum>, r: nat, i: nat, k: nat, m: nat)
    requires a.Valid() && LaidOut(strata, a.rules, a.sccs, a.groups) && r < |a.rules| && i < |a.rules[r].body|
    requires a.rules[r].body[i].ReadsRelation() && k < |strata| && m < |strata|
    requires a.rules[r].head.pred in strata[k].predicates && a.rules[r].body[i].atom.pred in strata[m].predicates
    ensures a.rules[r].body[i].Negation? ==> m < k
    ensures a.rules[r].body[i].atom.pred in HeadPredicates(a.rules) ==> m <= k
  {
    var el, head := a.rules[r].body[i], a.rules[r].head.pred;
    InStratum(a, strata, k, head);
    InStratum(a, strata, m, el.atom.pred);
    ReadEdge(a, r, i);
    if a.groups[m].level < a.groups[k].level {
      LowerFirst(a, k, m);
    } else if el.atom.pred in HeadPredicates(a.rules) {
      if a.sccOf[el.atom.pred] != a.sccOf[head] {
        assert Ties(a.rules, a.sccOf, a.levels, r, i);
        assert Link(a.sccOf[head], a.sccOf[el.atom.pred]) == TieOf(a.rules, a.sccOf, a.levels, r, i);
        assert Link(a.sccOf[head], a.sccOf[el.atom.pred]) in a.links;
      }
      assert a.groups[m].level == a.groups[k].level && a.groups[m].root == a.groups[k].root;
    }
  }

  /** The strata are a stratification of the program. */
  lemma AnalysisStratifies(a: Analysis, strata: seq<Stratum>)
    requires a.Valid() && LaidOut(strata, a.rules, a.sccs, a.groups)
    ensures Stratified(strata, a.rules)
  {
    forall k, m | 0 <= k < m < |strata| ensures strata[k].predicates !! strata[m].predicates {
      forall p | p in strata[k].predicates ensures p !in strata[m].predicates {
        InStratum(a, strata, k, p);
        InStratum(a, strata, m, p);
      }
    }
    forall p | p in HeadPredicates(a.rules) ensures exists k :: 0 <= k < |strata| && p in strata[k].predicates {
      var r :| 0 <= r < |a.rules| && a.rules[r].head.pred == p;
      assert Mentions(a.rules[r], p);
      assert p in Members(a.sccs);
      var k := StratumFor(a, strata, p);
    }
    forall k, r, i | 0 <= k < |strata| && 0 <= r < |strata[k].rules| && 0 <= i < |strata[k].rules[r].body|
      ensures ReadsBelow(strata, a.rules, k, strata[k].rules[r].body[i])
    {
      StratumReadsBelow(a, strata, k, r, i);
    }
  }

  lemma StratumReadsBelow(a: Analysis, strata: seq<Stratum>, k: nat, r: nat, i: nat)
    requires a.Valid() && LaidOut(strata, a.rules, a.sccs, a.groups)
    requires k < |strata| && r < |strata[k].rules| && i < |strata[k].rules[r].body|
    ensures ReadsBelow(strata, a.rules, k, strata[k].rules[r].body[i])
  {
    var rule := strata[k].rules[r];
    var el := rule.body[i];
    RulesOfMembers(a.rules, strata[k].predicates);
    assert rule in strata[k].rules;
    var q :| 0 <= q < |a.rules| && a.rules[q] == rule;
    if el.ReadsRelation() && el.atom.pred in HeadPredicates(a.rules) {
      ReadEdge(a, q, i);
      var m := StratumFor(a, strata, el.atom.pred);
      ReadPlacement(a, strata, q, i, k, m);
    }
  }

  // ---------------------------------------------------------------------
  // Strata are no coarser than they must be
  // ---------------------------------------------------------------------

  /** Within a stratum `S` does not part a head from a derived predicate that its
      rules read. */
  ghost predicate KeepsReads(rules: seq<Rule>, stratum: set<string>, S: set<string>) {
    forall r, i :: 0 <= r < |rules| && 0 <= i < |rules[r].body| ==> KeepsRead(rules, stratum, S, rules[r].head.pred, rules[r].body[i])
  }

  ghost predicate KeepsRead(rules: seq<Rule>, stratum: set<string>, S: set<string>, head: string, el: Element) {
    el.ReadsRelation() && head in stratum && el.atom.pred in stratum && el.atom.pred in HeadPredicates(rules) ==>
      (head in S <==> el.atom.pred in S)
  }

  /** No stratum can be split: what keeps its reads together and has one of its
      predicates has them all. */
  ghost predicate Unsplittable(strata: seq<Stratum>, rules: seq<Rule>) {
    forall k, S, p :: 0 <= k < |strata| && p in S && p in strata[k].predicates && KeepsReads(rules, strata[k].predicates, S) ==>
      strata[k].predicates <= S
  }

  lemma ReadKept(a: Analysis, stratum: set<string>, S: set<string>, x: string, y: string)
    requires a.Valid() && KeepsReads(a.rules, stratum, S) && HasEdge(a.g, x, y)
    requires x in stratum && y in stratum && y in HeadPredicates(a.rules)
    ensures x in S <==> y in S
  {
    EdgesAreReads(a.g, a.rules, x, y);
    var r: nat :| r < |a.rules| && a.rules[r].head.pred == x && y in BodyPredicates(a.rules[r].body);
    var i: nat :| i < |a.rules[r].body| && a.rules[r].body[i].ReadsRelation() && a.rules[r].body[i].atom.pred == y;
    assert KeepsRead(a.rules, stratum, S, a.rules[r].head.pred, a.rules[r].body[i]);
  }

  /** A predicate that leads anywhere else is derived. */
  lemma LeadsOnIsDerived(a: Analysis, x: string, y: string)
    requires a.Valid() && Reach(a.g, x, y) && x != y
    ensures x in HeadPredicates(a.rules)
  {
    var path :| IsPath(a.g, path, x, y);
    assert Hop(a.g, path, 0);
    EdgesAreReads(a.g, a.rules, path[0], path[1]);
  }

  /** Mutually dependent predicates are not parted. */
  lemma ClassKept(a: Analysis, strata: seq<Stratum>, k: nat, S: set<string>, u: string, v: string)
    requires a.Valid() && LaidOut(strata, a.rules, a.sccs, a.groups) && k < |strata|
    requires KeepsReads(a.rules, strata[k].predicates, S)
    requires u in S && u in strata[k].predicates && Mutual(a.g, u, v)
    ensures v in S
  {
    var stratum := strata[k].predicates;
    InStratum(a, strata, k, u);
    var C := set x | x in Members(a.sccs) && Reach(a.g, u, x) && (Reach(a.g, x, u) ==> x in S);
    forall x, y | x in C && HasEdge(a.g, x, y) ensures y in C {
      ReachEdge(a.g, x, y);
      ReachTrans(a.g, u, x, y);
      assert y in a.g.predicates;
      if Reach(a.g, y, u) {
        ReachTrans(a.g, x, y, u);
        SameComponent(a, u, x);
        SameComponent(a, u, y);
        InStratum(a, strata, k, x);
        InStratum(a, strata, k, y);
        if y != u {
          LeadsOnIsDerived(a, y, u);
          ReadKept(a, stratum, S, x, y);
        }
      }
    }
    ReachSelf(a.g, u);
    ReachStays(a.g, C, u, v);
  }

  lemma SameComponent(a: Analysis, u: string, v: string)
    requires a.Valid() && u in a.sccOf && Mutual(a.g, u, v)
    ensures v in a.sccOf && a.sccOf[v] == a.sccOf[u]
  {
    assert IsClass(a.g, a.sccs[a.sccOf[u]]);
    assert v in a.sccs[a.sccOf[u]];
  }

  /** 1 for the components of group `k` that lie in `S`. */
  ghost function Inside(a: Analysis, k: nat, S: set<string>): (f: seq<nat>)
    requires k < |a.groups|
    ensures |f| == |a.sccs|
  {
    seq(|a.sccs|, i requires 0 <= i < |a.sccs| =>
      if InGroup(a.levels, a.rep, a.groups[k], i) && Elements(a.sccs[i]) <= S then 1 else 0)
  }

  lemma InsideOne(a: Analysis, strata: seq<Stratum>, k: nat, S: set<string>, p: string)
    requires a.Valid() && LaidOut(strata, a.rules, a.sccs, a.groups) && k < |strata|
    requires KeepsReads(a.rules, strata[k].predicates, S) && p in strata[k].predicates
    ensures p in a.sccOf && (Inside(a, k, S)[a.sccOf[p]] == 1 <==> p in S)
  {
    InStratum(a, strata, k, p);
    assert IsClass(a.g, a.sccs[a.sccOf[p]]);
    if p in S {
      forall q | q in a.sccs[a.sccOf[p]] ensures q in S {
        assert Mutual(a.g, p, q);
        ClassKept(a, strata, k, S, p, q);
      }
    } else {
      assert p in Elements(a.sccs[a.sccOf[p]]);
    }
  }

  lemma InsideRespects(a: Analysis, strata: seq<Stratum>, k: nat, S: set<string>)
    requires a.Valid() && LaidOut(strata, a.rules, a.sccs, a.groups) && k < |strata|
    requires KeepsReads(a.rules, strata[k].predicates, S)
    ensures Respects(Inside(a, k, S), a.links)
  {
    var f := Inside(a, k, S);
    forall l | l in a.links && l.a < |f| && l.b < |f| ensures f[l.a] == f[l.b] {
      assert IsTie(a.rules, a.sccOf, a.levels, l);
      var r: nat, i: nat :| Ties(a.rules, a.sccOf, a.levels, r, i) && TieOf(a.rules, a.sccOf, a.levels, r, i) == l;
      var head, read := a.rules[r].head.pred, a.rules[r].body[i].atom.pred;
      InStratum(a, strata, k, head);
      InStratum(a, strata, k, read);
      assert a.rep[l.a] == a.rep[l.b];
      if head in strata[k].predicates {
        InsideOne(a, strata, k, S, head);
        InsideOne(a, strata, k, S, read);
        assert KeepsRead(a.rules, strata[k].predicates, S, head, a.rules[r].body[i]);
      }
    }
  }

  lemma StratumUnsplit(a: Analysis, strata: seq<Stratum>, k: nat, S: set<string>, p: string, q: string)
    requires a.Valid() && LaidOut(strata, a.rules, a.sccs, a.groups) && k < |strata|
    requires KeepsReads(a.rules, strata[k].predicates, S)
    requires p in S && p in strata[k].predicates && q in strata[k].predicates
    ensures q in S
  {
    InsideRespects(a, strata, k, S);
    InsideOne(a, strata, k, S, p);
    InsideOne(a, strata, k, S, q);
    InStratum(a, strata, k, p);
    InStratum(a, strata, k, q);
    assert Same(a.rep, a.sccOf[p], a.sccOf[q]);
    assert Same(Inside(a, k, S), a.sccOf[p], a.sccOf[q]);
  }

  // ---------------------------------------------------------------------
  // Stratify
  // ---------------------------------------------------------------------

  /** The strata hold exactly the predicates the rules mention, and a negated
      predicate, derived or not, is strictly below the heads that negate it. */
  ghost predicate WellPlaced(strata: seq<Stratum>, rules: seq<Rule>) {
    && (forall p :: InSome(strata, p) <==> exists r: nat :: r < |rules| && Mentions(rules[r], p))
    && (forall r: nat, i: nat, k: nat, m: nat :: Negates(rules, strata, r, i, k, m) ==> m < k)
  }

  ghost predicate InSome(strata: seq<Stratum>, p: string) {
    exists k :: 0 <= k < |strata| && p in strata[k].predicates
  }

  /** Element `i` of rule `r`, whose head is in stratum `k`, negates a predicate
      of stratum `m`. */
  ghost predicate Negates(rules: seq<Rule>, strata: seq<Stratum>, r: nat, i: nat, k: nat, m: nat) {
    && r < |rules| && i < |rules[r].body| && rules[r].body[i].Negation? && k < |strata| && m < |strata|
    && rules[r].head.pred in strata[k].predicates && rules[r].body[i].atom.pred in strata[m].predicates
  }

  lemma AnalysisPlaces(a: Analysis, strata: seq<Stratum>)
    requires a.Valid() && LaidOut(strata, a.rules, a.sccs, a.groups)
    ensures WellPlaced(strata, a.rules) && Unsplittable(strata, a.rules)
  {
    forall p ensures InSome(strata, p) <==> exists r: nat :: r < |a.rules| && Mentions(a.rules[r], p) {
      if InSome(strata, p) {
        var k :| 0 <= k < |strata| && p in strata[k].predicates;
        InStratum(a, strata, k, p);
        assert p in Members(a.sccs);
      }
      if p in a.g.predicates {
        assert p in Members(a.sccs);
        var k := StratumFor(a, strata, p);
      }
    }
    forall r: nat, i: nat, k: nat, m: nat | Negates(a.rules, strata, r, i, k, m) ensures m < k {
      ReadPlacement(a, strata, r, i, k, m);
    }
    forall k, S, p | 0 <= k < |strata| && p in S && p in strata[k].predicates && KeepsReads(a.rules, strata[k].predicates, S)
      ensures strata[k].predicates <= S
    {
      forall q | q in strata[k].predicates ensures q in S {
        StratumUnsplit(a, strata, k, S, p, q);
      }
    }
  }

  /** A cycle through negation: its members depend on each other, and a rule for
      one of them negates one of them. */
  ghost predicate IsNegationCycle(rules: seq<Rule>, cycle: seq<string>) {
    && (forall p, q :: p in cycle && q in cycle ==> exists path :: DependsVia(rules, path, p, q))
    && (exists r: nat, i: nat :: NegatesWithin(rules, cycle, r, i))
  }

  ghost predicate NegatesWithin(rules: seq<Rule>, cycle: seq<string>, r: nat, i: nat) {
    && r < |rules| && i < |rules[r].body| && rules[r].body[i].Negation?
    && rules[r].head.pred in cycle && rules[r].body[i].atom.pred in cycle
  }

  lemma ReportedCycle(g: DependencyGraph, rules: seq<Rule>, sccs: seq<seq<string>>, cycle: seq<string>)
    requires GraphOf(g, rules) && SccsOf(g, sccs) && cycle in sccs && InternalNegative(g, cycle)
    ensures IsNegationCycle(rules, cycle)
  {
    var k :| 0 <= k < |sccs| && sccs[k] == cycle;
    assert IsClass(g, cycle);
    forall p, q | p in cycle && q in cycle ensures exists path :: DependsVia(rules, path, p, q) {
      assert Mutual(g, p, q);
      var path :| IsPath(g, path, p, q);
      PathsAreDependencies(g, rules, path, p, q);
    }
    var e :| e in g.edges && e.negative && e.src in cycle && e.dst in cycle;
    var r: nat, i: nat :| EdgeOf(rules, r, i, e);
    assert NegatesWithin(rules, cycle, r, i);
  }

  /** Refuse rules that disagree about a width, refuse cyclic negation, and put
      everything else into strata. */
  method Stratify(rules: seq<Rule>) returns (result: Result<seq<Stratum>, ProgramError>)
    ensures !Coherent(MentionsOf(rules)) <==> result.Err? && result.error.Shape?
    ensures result.Err? && result.error.Shape? ==> RealConflict(MentionsOf(rules), result.error.conflict)
    ensures Coherent(MentionsOf(rules)) ==> (result.Err? <==> HasCyclicNegation(rules))
    ensures Coherent(MentionsOf(rules)) ==> (result.Ok? <==> exists strata :: Stratified(strata, rules))
    ensures result.Err? && result.error.CyclicNegation? ==> IsNegationCycle(rules, result.error.cycle)
    ensures result.Ok? ==> Stratified(result.value, rules) && WellPlaced(result.value, rules) && Unsplittable(result.value, rules)
  {
    var arity, errors := AnalyzeArity(rules);
    if errors != [] {
      return Err(Shape(errors[0]));
    }
    if rules == [] {
      NoRulesNoStrata();
      return Ok([]);
    }
    var g := BuildDependencyGraph(rules);
    var sccs := ComputeSCCs(g);
    var cycle := CheckCyclicNegation(g, sccs);
    NegativeCyclesAreCyclicNegation(g, rules);
    if cycle.Some? {
      ReportedCycle(g, rules, sccs, cycle.value);
      CyclicNegationCannotStratify(rules);
      return Err(CyclicNegation(cycle.value));
    }
    var strata := StratifyGraph(rules, g, sccs);
    return Ok(strata);
  }

  lemma NoRulesNoStrata()
    ensures Stratified([], []) && WellPlaced([], []) && Unsplittable([], []) && !HasCyclicNegation([])
  {
  }

  method StratifyGraph(rules: seq<Rule>, g: DependencyGraph, sccs: seq<seq<string>>) returns (strata: seq<Stratum>)
    requires GraphOf(g, rules) && SccsOf(g, sccs) && !NegativeCycle(g)
    ensures Stratified(strata, rules) && WellPlaced(strata, rules) && Unsplittable(strata, rules)
  {
    var sccOf := IndexComponents(g, sccs);
    var sccLevel := AssignLevels(g, sccs, sccOf);
    AllAreIndexed(rules, g, sccs, sccOf);
    var uf := new UnionFind(|sccs|);
    ghost var links := ConnectComponents(rules, HeadPredicates(rules), sccOf, sccLevel, uf);
    var groups := CollectGroups(sccLevel, uf);
    GroupsNonEmpty(sccLevel[..], uf.rep, groups, |sccs|);
    DistinctFirsts(sccLevel[..], uf.rep, groups, |sccs|);
    var sorted := SortGroups(groups);
    SortedStillGrouped(sccLevel[..], uf.rep, groups, sorted, |sccs|);
    strata := BuildStrata(rules, sccs, sorted);
    ghost var a := Analysis(rules, g, sccs, sccOf, sccLevel[..], uf.rep, links, sorted);
    AnalysisStratifies(a, strata);
    AnalysisPlaces(a, strata);
  }

  lemma GroupsNonEmpty(levels: seq<nat>, rep: seq<nat>, groups: seq<Group>, n: nat)
    requires Grouped(levels, rep, groups, n)
    ensures forall k :: 0 <= k < |groups| ==> groups[k].sccs != []
  {
    forall k | 0 <= k < |groups| ensures groups[k].sccs != [] {
      assert Complete(levels, rep, groups[k], n);
    }
  }

  lemma AllAreIndexed(rules: seq<Rule>, g: DependencyGraph, sccs: seq<seq<string>>, sccOf: map<string, nat>)
    requires GraphOf(g, rules) && SccsOf(g, sccs) && IndexOf(sccs, sccOf)
    ensures AllIndexed(rules, sccOf, |sccs|)
  {
    forall r, p | 0 <= r < |rules| && Mentions(rules[r], p) ensures p in sccOf {
      assert p in g.predicates;
      assert p in Members(sccs);
    }
  }

  // ---------------------------------------------------------------------
  // Exactly the stratifiable programs are accepted
  // ---------------------------------------------------------------------

  /** Along dependencies the strata do not rise. */
  lemma {:induction false} DependencyDescends(strata: seq<Stratum>, rules: seq<Rule>, path: seq<string>, u: string, v: string, m: nat) returns (k: nat)
    requires Stratified(strata, rules) && DependsVia(rules, path, u, v)
    requires m < |strata| && v in HeadPredicates(strata[m].rules)
    ensures m <= k < |strata| && u in HeadPredicates(strata[k].rules)
    decreases |path|
  {
    if |path| == 1 {
      return m;
    }
    forall i | 0 <= i < |path[1..]| - 1 ensures ReadsNext(rules, path[1..], i) {
      assert ReadsNext(rules, path, i + 1);
    }
    var j := DependencyDescends(strata, rules, path[1..], path[1], v, m);
    assert ReadsNext(rules, path, 0);
    var r: nat :| r < |rules| && rules[r].head.pred == u && path[1] in BodyPredicates(rules[r].body);
    var i: nat :| i < |rules[r].body| && rules[r].body[i].ReadsRelation() && rules[r].body[i].atom.pred == path[1];
    var q: nat;
    k, q := RuleInStratum(strata, rules, r);
    assert u in HeadPredicates(strata[k].rules);
    StratumReads(strata, rules, k, q, i);
    HeadsOfStratum(strata, rules, j);
    var n :| 0 <= n <= k && path[1] in HeadPredicates(strata[n].rules);
    if n != j {
      StrataDisjoint(strata, rules, n, j);
    }
  }

  /** A program that negates cyclically has no stratification. */
  lemma StratifiedNegatesNoCycle(strata: seq<Stratum>, rules: seq<Rule>)
    requires Stratified(strata, rules)
    ensures !HasCyclicNegation(rules)
  {
    if HasCyclicNegation(rules) {
      var r: nat, i: nat, path :| NegatesDependent(rules, r, i, path);
      var k, q := RuleInStratum(strata, rules, r);
      var p := rules[r].body[i].atom.pred;
      assert rules[r].head.pred in HeadPredicates(strata[k].rules);
      var j := DependencyDescends(strata, rules, path, p, rules[r].head.pred, k);
      StratumReads(strata, rules, k, q, i);
      HeadsOfStratum(strata, rules, j);
      var n :| 0 <= n < k && p in HeadPredicates(strata[n].rules);
      StrataDisjoint(strata, rules, n, j);
    }
  }

  lemma CyclicNegationCannotStratify(rules: seq<Rule>)
    requires HasCyclicNegation(rules)
    ensures forall strata :: !Stratified(strata, rules)
  {
    forall strata ensures !Stratified(strata, rules) {
      if Stratified(strata, rules) {
        StratifiedNegatesNoCycle(strata, rules);
      }
    }
  }
}
