/** Strongly connected components by Tarjan's algorithm
    (packages/datalog/src/stratify.ts, `computeSCCs`). */
module Tarjan {
  import opened Prelude
  import opened Graphs

  /** The members of the first `n` components. */
  ghost function Members(sccs: seq<seq<string>>): set<string> {
    set k, x | 0 <= k < |sccs| && x in sccs[k] :: x
  }

  /** `scc` is a whole class of mutually reachable nodes. */
  ghost predicate IsClass(g: DependencyGraph, scc: seq<string>) {
    && scc != [] && Distinct(scc)
    && forall x :: x in scc ==> forall y :: y in scc <==> Mutual(g, x, y)
  }

  /** Edges out of a component stay in it or lead to an earlier one. */
  ghost predicate DependenciesFirst(g: DependencyGraph, sccs: seq<seq<string>>) {
    forall k, x, y :: 0 <= k < |sccs| && x in sccs[k] && HasEdge(g, x, y) ==> exists j :: 0 <= j <= k && y in sccs[j]
  }

  /** The components found so far: classes, one each, dependencies first. */
  ghost predicate Components(g: DependencyGraph, sccs: seq<seq<string>>) {
    && (forall k :: 0 <= k < |sccs| ==> IsClass(g, sccs[k]))
    && (forall j, k, x :: 0 <= j < k < |sccs| && x in sccs[j] ==> x !in sccs[k])
    && DependenciesFirst(g, sccs)
  }

  /** A moment of the search, with the nodes whose call has not returned. */
  datatype Search = Search(index: nat, stack: seq<string>, indices: map<string, nat>, sccs: seq<seq<string>>, gray: set<string>)
  {
    /** When `x` was reached; 0 if it was not. */
    function At(x: string): nat {
      if x in indices then indices[x] else 0
    }

    ghost predicate Shape(g: DependencyGraph) {
      && indices.Keys == Elements(stack) + Members(sccs) && Elements(stack) !! Members(sccs)
      && indices.Keys <= Elements(g.predicates) && gray <= Elements(stack)
      && (forall x :: x in indices ==> At(x) < index)
      && (forall i, j :: 0 <= i < j < |stack| ==> At(stack[i]) < At(stack[j]))
    }

    /** A node that is done has no edge to an unvisited one. */
    ghost predicate NoWayOut(g: DependencyGraph) {
      forall x, y :: x in indices && x !in gray && HasEdge(g, x, y) ==> y in indices
    }

    /** On the stack, older nodes reach younger ones. */
    ghost predicate OldReachYoung(g: DependencyGraph) {
      forall i, j :: 0 <= i <= j < |stack| ==> Reach(g, stack[i], stack[j])
    }

    /** Every node on the stack reaches an unfinished one no younger. */
    ghost predicate ReachesGray(g: DependencyGraph) {
      forall i :: 0 <= i < |stack| ==> GrayBelow(g, i)
    }

    ghost predicate GrayBelow(g: DependencyGraph, i: nat)
      requires i < |stack|
    {
      exists j :: 0 <= j <= i && stack[j] in gray && Reach(g, stack[i], stack[j])
    }

    ghost predicate Inv(g: DependencyGraph) {
      && Shape(g) && NoWayOut(g) && OldReachYoung(g) && ReachesGray(g) && Components(g, sccs)
    }
  }

  // ---------------------------------------------------------------------
  // Entering and leaving a node
  // ---------------------------------------------------------------------

  function Enter(s: Search, v: string): Search {
    Search(s.index + 1, s.stack + [v], s.indices[v := s.index], s.sccs, s.gray + {v})
  }

  lemma EnterInv(g: DependencyGraph, s: Search, v: string)
    requires s.Inv(g) && v !in s.indices && v in g.predicates
    requires forall x :: x in s.gray ==> Reach(g, x, v)
    ensures Enter(s, v).Inv(g)
  {
    EnterShape(g, s, v);
    EnterReaches(g, s, v);
    var t := Enter(s, v);
    forall i | 0 <= i < |t.stack| ensures t.GrayBelow(g, i) {
      if i < |s.stack| {
        assert s.GrayBelow(g, i);
        var j :| 0 <= j <= i && s.stack[j] in s.gray && Reach(g, s.stack[i], s.stack[j]);
        assert t.stack[j] in t.gray && Reach(g, t.stack[i], t.stack[j]);
      } else {
        ReachSelf(g, v);
        assert t.stack[i] in t.gray && Reach(g, t.stack[i], t.stack[i]);
      }
    }
  }

  lemma EnterShape(g: DependencyGraph, s: Search, v: string)
    requires s.Shape(g) && v !in s.indices && v in g.predicates
    ensures Enter(s, v).Shape(g)
  {
    var t := Enter(s, v);
    assert Elements(t.stack) == Elements(s.stack) + {v} by {
      assert t.stack[|s.stack|] == v;
    }
    assert forall i :: 0 <= i < |s.stack| ==> s.stack[i] in Elements(s.stack);
  }

  lemma EnterReaches(g: DependencyGraph, s: Search, v: string)
    requires s.OldReachYoung(g) && s.ReachesGray(g)
    requires forall x :: x in s.gray ==> Reach(g, x, v)
    ensures Enter(s, v).OldReachYoung(g)
  {
    var t := Enter(s, v);
    ReachSelf(g, v);
    forall i, j | 0 <= i <= j < |t.stack| ensures Reach(g, t.stack[i], t.stack[j]) {
      if i < |s.stack| == j {
        assert s.GrayBelow(g, i);
        var k :| 0 <= k <= i && s.stack[k] in s.gray && Reach(g, s.stack[i], s.stack[k]);
        ReachTrans(g, s.stack[i], s.stack[k], v);
      }
    }
  }

  /** `low` is what the search below `v`, which is at position `n` of the stack,
      has seen: some node on the stack that `v` reaches, and nothing older is
      the target of an edge from a node above `v`. */
  ghost predicate LowFor(g: DependencyGraph, s: Search, v: string, n: nat, low: nat) {
    && n < |s.stack| && s.stack[n] == v && low <= s.At(v)
    && (exists i :: 0 <= i <= n && s.At(s.stack[i]) == low && Reach(g, v, s.stack[i]))
    && (forall i, j :: n < i < |s.stack| && 0 <= j < n && HasEdge(g, s.stack[i], s.stack[j]) ==> low <= s.At(s.stack[j]))
  }

  /** The edges of `v` itself are accounted for too. */
  ghost predicate LowOwn(g: DependencyGraph, s: Search, v: string, n: nat, low: nat) {
    && (forall y :: HasEdge(g, v, y) ==> y in s.indices)
    && (forall j :: 0 <= j < n < |s.stack| && HasEdge(g, v, s.stack[j]) ==> low <= s.At(s.stack[j]))
  }

  /** `v` is older than everything it leads to: the stack from `v` up is one
      whole class. */
  lemma SegmentIsClass(g: DependencyGraph, s: Search, v: string, n: nat)
    requires s.Inv(g) && LowFor(g, s, v, n, s.At(v)) && LowOwn(g, s, v, n, s.At(v))
    requires forall x :: x in s.gray && x in s.stack[n..] ==> x == v
    ensures IsClass(g, s.stack[n..])
    ensures forall x, y :: x in s.stack[n..] && HasEdge(g, x, y) ==> y in s.stack[n..] || y in Members(s.sccs)
  {
    var segment := s.stack[n..];
    var C := Elements(segment) + Members(s.sccs);
    forall x, y | x in segment && HasEdge(g, x, y) ensures y in C {
      SegmentEdge(g, s, v, n, x, y);
    }
    forall x, y | x in Members(s.sccs) && HasEdge(g, x, y) ensures y in Members(s.sccs) {
      var k :| 0 <= k < |s.sccs| && x in s.sccs[k];
    }
    forall x | x in segment ensures Mutual(g, v, x) {
      var i :| n <= i < |s.stack| && s.stack[i] == x;
      SegmentReachesV(g, s, v, n, i);
    }
    forall y | Mutual(g, v, y) ensures y in segment {
      ReachStays(g, C, v, y);
      if y in Members(s.sccs) {
        ReachStays(g, Members(s.sccs), y, v);
      }
    }
    assert segment[0] == v;
    SegmentDistinct(g, s, n);
    ClassOf(g, segment, v);
  }

  lemma SegmentDistinct(g: DependencyGraph, s: Search, n: nat)
    requires s.Inv(g) && n <= |s.stack|
    ensures Distinct(s.stack[n..])
  {
    var segment := s.stack[n..];
    forall i, j | 0 <= i < j < |segment| ensures segment[i] != segment[j] {
      assert s.indices[s.stack[n + i]] < s.indices[s.stack[n + j]];
    }
  }

  /** What is mutual with one member is a class. */
  lemma ClassOf(g: DependencyGraph, segment: seq<string>, v: string)
    requires Distinct(segment) && v in segment && forall y :: y in segment <==> Mutual(g, v, y)
    ensures IsClass(g, segment)
  {
    hide Reach;
    forall x, y | x in segment ensures y in segment <==> Mutual(g, x, y) {
      if y in segment {
        ReachTrans(g, x, v, y);
        ReachTrans(g, y, v, x);
      }
      if Mutual(g, x, y) {
        ReachTrans(g, v, x, y);
        ReachTrans(g, y, x, v);
      }
    }
  }

  lemma SegmentEdge(g: DependencyGraph, s: Search, v: string, n: nat, x: string, y: string)
    requires s.Inv(g) && LowFor(g, s, v, n, s.At(v)) && LowOwn(g, s, v, n, s.At(v))
    requires forall x :: x in s.gray && x in s.stack[n..] ==> x == v
    requires x in s.stack[n..] && HasEdge(g, x, y)
    ensures y in s.stack[n..] || y in Members(s.sccs)
  {
    var i :| n <= i < |s.stack| && s.stack[i] == x;
    assert y in s.indices;
    if y in s.stack {
      var j :| 0 <= j < |s.stack| && s.stack[j] == y;
      assert forall k :: 0 <= k < n ==> s.At(s.stack[k]) < s.At(s.stack[n]);
      assert s.stack[n..][j - n] == y;
    }
  }

  lemma SegmentReachesV(g: DependencyGraph, s: Search, v: string, n: nat, i: nat)
    requires s.Inv(g) && n <= i < |s.stack| && s.stack[n] == v
    requires forall x :: x in s.gray && x in s.stack[n..] ==> x == v
    ensures Mutual(g, v, s.stack[i])
  {
    assert s.GrayBelow(g, i);
    var j :| 0 <= j <= i && s.stack[j] in s.gray && Reach(g, s.stack[i], s.stack[j]);
    if j >= n {
      assert s.stack[n..][j - n] == s.stack[j];
    } else {
      ReachTrans(g, s.stack[i], s.stack[j], v);
    }
  }

  ghost function Reverse(xs: seq<string>): (r: seq<string>)
    ensures |r| == |xs| && forall i :: 0 <= i < |r| ==> r[i] == xs[|xs| - 1 - i]
  {
    seq(|xs|, i requires 0 <= i < |xs| => xs[|xs| - 1 - i])
  }

  lemma ReverseMembers(xs: seq<string>)
    ensures Elements(Reverse(xs)) == Elements(xs)
  {
    forall x | x in xs ensures x in Reverse(xs) {
      var i :| 0 <= i < |xs| && xs[i] == x;
      assert Reverse(xs)[|xs| - 1 - i] == x;
    }
  }

  /** `v` is a root: its class leaves the stack. */
  function PopTo(s: Search, v: string, n: nat, scc: seq<string>): Search
    requires n <= |s.stack|
  {
    s.(stack := s.stack[..n], sccs := s.sccs + [scc], gray := s.gray - {v})
  }

  lemma PopInv(g: DependencyGraph, s: Search, v: string, n: nat, scc: seq<string>)
    requires s.Inv(g) && LowFor(g, s, v, n, s.At(v)) && LowOwn(g, s, v, n, s.At(v))
    requires forall x :: x in s.gray && x in s.stack[n..] ==> x == v
    requires scc == Reverse(s.stack[n..])
    ensures PopTo(s, v, n, scc).Inv(g)
  {
    var t := PopTo(s, v, n, scc);
    SegmentIsClass(g, s, v, n);
    ReverseMembers(s.stack[n..]);
    assert forall x :: x in scc <==> x in Elements(scc);
    assert forall x :: x in s.stack[n..] <==> x in Elements(s.stack[n..]);
    PopShape(g, s, v, n, scc);
    PopComponents(g, s, scc);
    forall i | 0 <= i < |t.stack| ensures t.GrayBelow(g, i) {
      assert s.GrayBelow(g, i);
      var j :| 0 <= j <= i && s.stack[j] in s.gray && Reach(g, s.stack[i], s.stack[j]);
      assert s.At(s.stack[j]) < s.At(s.stack[n]);
      assert t.stack[j] in t.gray;
    }
    assert t.NoWayOut(g);
  }

  lemma PopShape(g: DependencyGraph, s: Search, v: string, n: nat, scc: seq<string>)
    requires s.Shape(g) && n < |s.stack| && s.stack[n] == v && Elements(scc) == Elements(s.stack[n..])
    requires forall x :: x in s.gray && x in s.stack[n..] ==> x == v
    ensures PopTo(s, v, n, scc).Shape(g)
  {
    var t := PopTo(s, v, n, scc);
    assert s.stack == s.stack[..n] + s.stack[n..];
    MembersAppend(s.sccs, scc);
    forall i, j | 0 <= i < n <= j < |s.stack| ensures s.stack[i] != s.stack[j] {
      assert s.At(s.stack[i]) < s.At(s.stack[j]);
    }
  }

  lemma MembersAppend(sccs: seq<seq<string>>, scc: seq<string>)
    ensures Members(sccs + [scc]) == Members(sccs) + Elements(scc)
  {
    var t := sccs + [scc];
    forall x | x in Members(sccs) + Elements(scc) ensures x in Members(t) {
      if x in Members(sccs) {
        var k :| 0 <= k < |sccs| && x in sccs[k];
        assert x in t[k];
      } else {
        assert x in t[|sccs|];
      }
    }
  }

  lemma PopComponents(g: DependencyGraph, s: Search, scc: seq<string>)
    requires Components(g, s.sccs) && Elements(scc) !! Members(s.sccs)
    requires scc != [] && Distinct(scc) && forall x, y :: x in scc ==> (y in scc <==> Mutual(g, x, y))
    requires forall x, y :: x in scc && HasEdge(g, x, y) ==> y in scc || y in Members(s.sccs)
    ensures Components(g, s.sccs + [scc])
  {
    var t := s.sccs + [scc];
    forall k, x, y | 0 <= k < |t| && x in t[k] && HasEdge(g, x, y) ensures exists j :: 0 <= j <= k && y in t[j] {
      if k < |s.sccs| {
        var j :| 0 <= j <= k && y in s.sccs[j];
        assert y in t[j];
      } else if y in scc {
        assert y in t[k];
      } else {
        var j :| 0 <= j < |s.sccs| && y in s.sccs[j];
        assert y in t[j];
      }
    }
    forall j, k, x | 0 <= j < k < |t| && x in t[j] ensures x !in t[k] {
      assert x in Members(s.sccs);
    }
  }

  /** `v` leads to something older: it stays on the stack. */
  lemma StayInv(g: DependencyGraph, s: Search, v: string, n: nat, low: nat)
    requires s.Inv(g) && LowFor(g, s, v, n, low) && LowOwn(g, s, v, n, low) && low < s.At(v)
    requires forall x :: x in s.gray && x in s.stack[n..] ==> x == v
    ensures s.(gray := s.gray - {v}).Inv(g)
  {
    var t := s.(gray := s.gray - {v});
    var g0 := OlderGray(g, s, v, n, low);
    forall i | 0 <= i < |t.stack| ensures t.GrayBelow(g, i) {
      assert s.GrayBelow(g, i);
      var j :| 0 <= j <= i && s.stack[j] in s.gray && Reach(g, s.stack[i], s.stack[j]);
      if s.stack[j] == v {
        OnceOnStack(g, s, j, n);
        ReachTrans(g, s.stack[i], v, s.stack[g0]);
        assert t.stack[g0] in t.gray && Reach(g, t.stack[i], t.stack[g0]);
      } else {
        assert t.stack[j] in t.gray && Reach(g, t.stack[i], t.stack[j]);
      }
    }
    assert t.Shape(g);
    assert t.NoWayOut(g);
  }

  lemma OnceOnStack(g: DependencyGraph, s: Search, i: nat, j: nat)
    requires s.Shape(g) && i < |s.stack| && j < |s.stack| && s.stack[i] == s.stack[j]
    ensures i == j
  {
    assert forall a, b :: 0 <= a < b < |s.stack| ==> s.At(s.stack[a]) < s.At(s.stack[b]);
  }

  lemma OlderGray(g: DependencyGraph, s: Search, v: string, n: nat, low: nat) returns (g0: nat)
    requires s.Inv(g) && LowFor(g, s, v, n, low) && low < s.At(v)
    ensures g0 < n && s.stack[g0] in s.gray && s.stack[g0] != v && Reach(g, v, s.stack[g0])
  {
    var i0 :| 0 <= i0 <= n && s.At(s.stack[i0]) == low && Reach(g, v, s.stack[i0]);
    assert s.GrayBelow(g, i0);
    g0 :| 0 <= g0 <= i0 && s.stack[g0] in s.gray && Reach(g, s.stack[i0], s.stack[g0]);
    ReachTrans(g, v, s.stack[i0], s.stack[g0]);
    assert g0 < n ==> s.At(s.stack[g0]) < s.At(s.stack[n]);
  }

  // ---------------------------------------------------------------------
  // Edges
  // ---------------------------------------------------------------------

  /** What a call leaves behind: earlier nodes are untouched, and what it adds
      to the stack is above them. */
  ghost predicate Extends(s: Search, t: Search) {
    && s.stack <= t.stack && s.sccs <= t.sccs && s.gray == t.gray && s.indices.Keys <= t.indices.Keys && s.index <= t.index
    && (forall x :: x in s.indices ==> x in t.indices && t.indices[x] == s.indices[x])
  }

  /** What a finished call for `w` knows: its low link is its own class's, now
      off the stack, or names an older node that it reaches; and no edge from what
      it added to the stack leads below that. */
  ghost predicate Finished(g: DependencyGraph, s: Search, t: Search, w: string, low: nat) {
    && w in t.indices && low <= t.At(w)
    && (low >= s.index || exists i :: 0 <= i < |s.stack| && s.At(s.stack[i]) == low && Reach(g, w, s.stack[i]))
    && (forall i, j :: |s.stack| <= i < |t.stack| && 0 <= j < |s.stack| && HasEdge(g, t.stack[i], s.stack[j]) ==> low <= s.At(s.stack[j]))
  }

  /** Part of the way through the edges of `v`: the search stood at `s0` when `v`
      was entered and stands at `s` now, and the first `i` edges are accounted
      for in `low`. */
  ghost predicate Scanning(g: DependencyGraph, s0: Search, s: Search, v: string, edges: seq<Edge>, i: nat, low: nat) {
    && s.Inv(g) && Extends(Enter(s0, v), s) && LowFor(g, s, v, |s0.stack|, low)
    && i <= |edges|
    && forall k :: 0 <= k < i ==> EdgeSeen(s, |s0.stack|, edges[k].dst, low)
  }

  ghost predicate EdgeSeen(s: Search, n: nat, y: string, low: nat) {
    y in s.indices && forall j :: 0 <= j < n && j < |s.stack| && s.stack[j] == y ==> low <= s.At(y)
  }

  lemma ScanBegins(g: DependencyGraph, s0: Search, v: string, edges: seq<Edge>)
    requires s0.Inv(g) && v !in s0.indices && v in g.predicates
    requires forall x :: x in s0.gray ==> Reach(g, x, v)
    ensures Scanning(g, s0, Enter(s0, v), v, edges, 0, s0.index)
  {
    EnterInv(g, s0, v);
    ReachSelf(g, v);
    var s := Enter(s0, v);
    assert s.At(s.stack[|s0.stack|]) == s0.index;
  }

  lemma StackPrefix(s: Search, t: Search)
    requires Extends(s, t)
    ensures |s.stack| <= |t.stack| && forall i :: 0 <= i < |s.stack| ==> t.stack[i] == s.stack[i]
  {
  }

  /** An edge to a node already visited. */
  lemma ScanVisited(g: DependencyGraph, s0: Search, s: Search, v: string, edges: seq<Edge>, i: nat, low: nat, low': nat)
    requires Scanning(g, s0, s, v, edges, i, low) && i < |edges| && edges[i].dst in s.indices && HasEdge(g, v, edges[i].dst)
    requires low' == if edges[i].dst in s.stack then Min(low, s.At(edges[i].dst)) else low
    ensures Scanning(g, s0, s, v, edges, i + 1, low')
  {
    var w, n := edges[i].dst, |s0.stack|;
    VisitedLow(g, s, v, n, w, low, low');
    forall k | 0 <= k < i ensures EdgeSeen(s, n, edges[k].dst, low') {
      assert EdgeSeen(s, n, edges[k].dst, low);
    }
  }

  lemma VisitedLow(g: DependencyGraph, s: Search, v: string, n: nat, w: string, low: nat, low': nat)
    requires s.Shape(g) && LowFor(g, s, v, n, low) && w in s.indices && HasEdge(g, v, w)
    requires low' == if w in s.stack then Min(low, s.At(w)) else low
    ensures LowFor(g, s, v, n, low')
    ensures EdgeSeen(s, n, w, low')
  {
    if w in s.stack && low' < low {
      ReachEdge(g, v, w);
      var j :| 0 <= j < |s.stack| && s.stack[j] == w;
      OlderByIndex(g, s, j, n);
      assert s.At(s.stack[j]) == low' && Reach(g, v, s.stack[j]);
    }
  }

  lemma OlderByIndex(g: DependencyGraph, s: Search, i: nat, j: nat)
    requires s.Shape(g) && i < |s.stack| && j < |s.stack| && s.At(s.stack[i]) <= s.At(s.stack[j])
    ensures i <= j
  {
    assert forall a, b :: 0 <= a < b < |s.stack| ==> s.At(s.stack[a]) < s.At(s.stack[b]);
  }

  /** An edge to a node first visited now. */
  lemma ScanCalled(g: DependencyGraph, s0: Search, s: Search, t: Search, v: string, edges: seq<Edge>, i: nat, low: nat, lowW: nat)
    requires Scanning(g, s0, s, v, edges, i, low) && i < |edges| && HasEdge(g, v, edges[i].dst)
    requires v in s.gray && v in s.indices && edges[i].dst !in s.indices
    requires t.Inv(g) && Extends(s, t) && Finished(g, s, t, edges[i].dst, lowW)
    ensures Scanning(g, s0, t, v, edges, i + 1, Min(low, lowW))
  {
    var w, n, low' := edges[i].dst, |s0.stack|, Min(low, lowW);
    CalledLow(g, s, t, v, n, w, low, lowW);
    forall k | 0 <= k < i + 1 ensures EdgeSeen(t, n, edges[k].dst, low') {
      if k < i {
        SeenStays(s, t, n, edges[k].dst, low, low');
      } else {
        NewAbove(g, s, t, n, w);
      }
    }
  }

  lemma SeenStays(s: Search, t: Search, n: nat, y: string, low: nat, low': nat)
    requires EdgeSeen(s, n, y, low) && Extends(s, t) && low' <= low && n <= |s.stack|
    ensures EdgeSeen(t, n, y, low')
  {
    StackPrefix(s, t);
  }

  /** The low link of `v` after a call for `w`. */
  lemma CalledLow(g: DependencyGraph, s: Search, t: Search, v: string, n: nat, w: string, low: nat, lowW: nat)
    requires s.Shape(g) && LowFor(g, s, v, n, low) && HasEdge(g, v, w) && v in s.indices
    requires Extends(s, t) && Finished(g, s, t, w, lowW)
    ensures LowFor(g, t, v, n, Min(low, lowW))
  {
    var low' := Min(low, lowW);
    StackPrefix(s, t);
    assert forall k :: 0 <= k < |s.stack| ==> s.stack[k] in Elements(s.stack);
    assert forall k :: 0 <= k < |s.stack| ==> t.At(t.stack[k]) == s.At(s.stack[k]);
    assert s.At(v) < s.index;
    if lowW < low {
      var k :| 0 <= k < |s.stack| && s.At(s.stack[k]) == lowW && Reach(g, w, s.stack[k]);
      OlderByIndex(g, s, k, n);
      ReachEdge(g, v, w);
      ReachTrans(g, v, w, s.stack[k]);
      assert t.At(t.stack[k]) == low' && Reach(g, v, t.stack[k]);
    } else {
      var k :| 0 <= k <= n && s.At(s.stack[k]) == low && Reach(g, v, s.stack[k]);
      assert t.At(t.stack[k]) == low' && Reach(g, v, t.stack[k]);
    }
    forall a, b | n < a < |t.stack| && 0 <= b < n && HasEdge(g, t.stack[a], t.stack[b]) ensures low' <= t.At(t.stack[b]) {
      assert t.stack[b] == s.stack[b];
      assert a < |s.stack| ==> t.stack[a] == s.stack[a];
    }
  }

  /** A node first visited now is not at the bottom of the stack. */
  lemma NewAbove(g: DependencyGraph, s: Search, t: Search, n: nat, w: string)
    requires s.Shape(g) && Extends(s, t) && w !in s.indices && n <= |s.stack|
    ensures forall j :: 0 <= j < n && j < |t.stack| ==> t.stack[j] != w
  {
    StackPrefix(s, t);
    forall j | 0 <= j < n && j < |t.stack| ensures t.stack[j] != w {
      assert t.stack[j] == s.stack[j];
      assert s.stack[j] in Elements(s.stack);
    }
  }

  lemma ScanEnds(g: DependencyGraph, s0: Search, s: Search, v: string, edges: seq<Edge>, low: nat)
    requires g.Valid() && edges == g.Out(v) && Scanning(g, s0, s, v, edges, |edges|, low)
    ensures LowOwn(g, s, v, |s0.stack|, low)
  {
    EdgesFromMembers(g.edges, v);
    forall y | HasEdge(g, v, y) ensures EdgeSeen(s, |s0.stack|, y, low) {
      var e :| e in g.edges && e.src == v && e.dst == y;
      assert e in edges;
    }
  }

  /** Above `v` nothing else is unfinished. */
  lemma GrayIsBelow(g: DependencyGraph, s0: Search, s: Search, v: string)
    requires s0.Shape(g) && s.Shape(g) && Extends(Enter(s0, v), s)
    ensures forall x :: x in s.gray && x in s.stack[|s0.stack|..] ==> x == v
  {
    var n := |s0.stack|;
    StackPrefix(Enter(s0, v), s);
    forall i, j | 0 <= i < n <= j < |s.stack| ensures s.stack[i] != s.stack[j] {
      assert s.At(s.stack[i]) < s.At(s.stack[j]);
    }
    forall x | x in s0.stack ensures x !in s.stack[n..] {
      var i :| 0 <= i < n && s0.stack[i] == x;
      assert s.stack[i] == x;
    }
  }

  lemma LeaveRoot(g: DependencyGraph, s0: Search, s: Search, v: string, edges: seq<Edge>, low: nat, scc: seq<string>)
    requires g.Valid() && s0.Inv(g) && v !in s0.indices && edges == g.Out(v) && Scanning(g, s0, s, v, edges, |edges|, low)
    requires low == s.At(v) && scc == Reverse(s.stack[|s0.stack|..])
    ensures var t := PopTo(s, v, |s0.stack|, scc); t.Inv(g) && Extends(s0, t) && Finished(g, s0, t, v, low)
  {
    StackPrefix(Enter(s0, v), s);
    ScanEnds(g, s0, s, v, edges, low);
    GrayIsBelow(g, s0, s, v);
    PopInv(g, s, v, |s0.stack|, scc);
    assert v !in Elements(s0.stack);
    assert s0.gray + {v} - {v} == s0.gray;
    assert s.stack[..|s0.stack|] == s0.stack;
  }

  lemma LeaveOther(g: DependencyGraph, s0: Search, s: Search, v: string, edges: seq<Edge>, low: nat)
    requires g.Valid() && s0.Inv(g) && v !in s0.indices && edges == g.Out(v) && Scanning(g, s0, s, v, edges, |edges|, low)
    requires low < s.At(v)
    ensures var t := s.(gray := s.gray - {v}); t.Inv(g) && Extends(s0, t) && Finished(g, s0, t, v, low)
  {
    var n := |s0.stack|;
    ScanEnds(g, s0, s, v, edges, low);
    GrayIsBelow(g, s0, s, v);
    StayInv(g, s, v, n, low);
    StayExtends(s0, s, v);
    LowStaysBelow(g, s0, s, v, low);
    EdgesAbove(g, s0, s, v, low);
  }

  lemma StayExtends(s0: Search, s: Search, v: string)
    requires Extends(Enter(s0, v), s) && v !in s0.gray && v !in s0.indices
    ensures Extends(s0, s.(gray := s.gray - {v})) && v in s.indices
  {
    StackPrefix(Enter(s0, v), s);
    assert s0.gray + {v} - {v} == s0.gray;
    assert forall x :: x in s0.indices ==> x in Enter(s0, v).indices;
    assert v in Enter(s0, v).indices;
  }

  lemma EdgesAbove(g: DependencyGraph, s0: Search, s: Search, v: string, low: nat)
    requires s0.Shape(g) && Extends(Enter(s0, v), s) && LowFor(g, s, v, |s0.stack|, low) && LowOwn(g, s, v, |s0.stack|, low) && v !in s0.indices
    ensures forall i, j :: |s0.stack| <= i < |s.stack| && 0 <= j < |s0.stack| && HasEdge(g, s.stack[i], s0.stack[j]) ==> low <= s0.At(s0.stack[j])
  {
    StackPrefix(Enter(s0, v), s);
    forall i, j | |s0.stack| <= i < |s.stack| && 0 <= j < |s0.stack| && HasEdge(g, s.stack[i], s0.stack[j]) ensures low <= s0.At(s0.stack[j]) {
      assert s.stack[j] == s0.stack[j] && s0.stack[j] in Elements(s0.stack);
      assert s.At(s.stack[j]) == s0.At(s0.stack[j]);
    }
  }

  lemma LowStaysBelow(g: DependencyGraph, s0: Search, s: Search, v: string, low: nat)
    requires s0.Shape(g) && s.Shape(g) && v !in s0.indices && Extends(Enter(s0, v), s) && LowFor(g, s, v, |s0.stack|, low) && low < s.At(v)
    ensures exists i :: 0 <= i < |s0.stack| && s0.At(s0.stack[i]) == low && Reach(g, v, s0.stack[i])
  {
    StackPrefix(Enter(s0, v), s);
    var i :| 0 <= i <= |s0.stack| && s.At(s.stack[i]) == low && Reach(g, v, s.stack[i]);
    assert s0.At(s0.stack[i]) == low && Reach(g, v, s0.stack[i]) by {
      assert s0.stack[i] in Elements(s0.stack);
    }
  }

  // ---------------------------------------------------------------------
  // The algorithm
  // ---------------------------------------------------------------------

  class TarjanState {
    const graph: DependencyGraph
    var index: nat
    var stack: seq<string>
    var onStack: set<string>
    var indices: map<string, nat>
    var lowlinks: map<string, nat>
    var sccs: seq<seq<string>>
    /** The nodes whose call has not returned. */
    ghost var gray: set<string>

    ghost function Now(): Search
      reads this
    {
      Search(index, stack, indices, sccs, gray)
    }

    ghost predicate Valid()
      reads this
    {
      && graph.Valid() && Now().Inv(graph)
      && onStack == Elements(stack) && lowlinks.Keys == indices.Keys
    }

    constructor (graph: DependencyGraph)
      requires graph.Valid()
      ensures Valid() && this.graph == graph && gray == {} && indices == map[]
    {
      this.graph := graph;
      index, stack, onStack, indices, lowlinks, sccs := 0, [], {}, map[], map[], [];
      gray := {};
    }

    /** Start a search, unless `v` has been reached already. */
    method VisitRoot(v: string)
      requires Valid() && gray == {} && v in graph.predicates
      modifies this
      ensures Valid() && gray == {} && old(indices.Keys) + {v} <= indices.Keys
    {
      if v !in indices {
        StrongConnect(v);
      }
    }

    /** Part of the way through the edges of `v`. */
    ghost predicate Visiting(s0: Search, v: string, i: nat)
      reads this
    {
      && graph.Valid() && onStack == Elements(stack) && lowlinks.Keys == indices.Keys && v in lowlinks
      && Scanning(graph, s0, Now(), v, graph.Out(v), i, lowlinks[v])
    }

    /** Visit `v` and all it leads to. */
    method StrongConnect(v: string)
      requires Valid() && v !in indices && v in graph.predicates
      requires forall x :: x in gray ==> Reach(graph, x, v)
      modifies this
      decreases Elements(graph.predicates) - indices.Keys, 1
      ensures Valid() && Extends(old(Now()), Now())
      ensures v in lowlinks && Finished(graph, old(Now()), Now(), v, lowlinks[v])
      ensures SubMap(old(lowlinks), lowlinks)
    {
      ghost var s0, low0 := Now(), lowlinks;
      ScanBegins(graph, s0, v, graph.Out(v));
      indices := indices[v := index];
      lowlinks := lowlinks[v := index];
      index := index + 1;
      stack := stack + [v];
      onStack := onStack + {v};
      gray := gray + {v};
      assert Now() == Enter(s0, v);
      ElementsPush(s0.stack, v);
      SubMapInsert(low0, v, s0.index);
      var edges := graph.Out(v);
      for i := 0 to |edges|
        invariant Visiting(s0, v, i) && v in indices && SubMap(low0, lowlinks)
      {
        FollowEdge(v, i, s0, low0);
      }
      LeaveNode(v, s0);
    }

    /** Lower the link of `v` by what edge `i` leads to. */
    method FollowEdge(v: string, i: nat, ghost s0: Search, ghost low0: map<string, nat>)
      requires i < |graph.Out(v)| && v !in s0.indices && low0.Keys == s0.indices.Keys
      requires Visiting(s0, v, i) && SubMap(low0, lowlinks)
      requires forall x :: x in s0.gray ==> Reach(graph, x, v)
      modifies this
      decreases Elements(graph.predicates) - indices.Keys, 2
      ensures Visiting(s0, v, i + 1) && SubMap(low0, lowlinks)
    {
      var edges := graph.Out(v);
      var w := edges[i].dst;
      OutEdge(graph, v, i);
      ghost var s := Now();
      if w !in indices {
        ghost var low := lowlinks;
        CallAllowed(graph, s0, s, v, edges, i, low[v]);
        StrongConnect(w);
        SubMapTrans(low0, low, lowlinks);
        Lower(v, w, i, s0, s, low0);
      } else {
        MeetVisited(v, w, i, s0, low0);
      }
    }

    /** Take over what the call for `w` has found. */
    method Lower(v: string, w: string, i: nat, ghost s0: Search, ghost s: Search, ghost low0: map<string, nat>)
      requires Valid() && v in lowlinks && w in lowlinks
      requires i < |graph.Out(v)| && v !in low0 && w == graph.Out(v)[i].dst && HasEdge(graph, v, w) && w !in s.indices
      requires v in s.gray && v in s.indices && Scanning(graph, s0, s, v, graph.Out(v), i, lowlinks[v])
      requires Extends(s, Now()) && Finished(graph, s, Now(), w, lowlinks[w]) && SubMap(low0, lowlinks)
      modifies this`lowlinks
      ensures Visiting(s0, v, i + 1) && SubMap(low0, lowlinks)
    {
      var low := Min(lowlinks[v], lowlinks[w]);
      ScanCalled(graph, s0, s, Now(), v, graph.Out(v), i, lowlinks[v], lowlinks[w]);
      SetLink(v, low, i + 1, s0, low0);
    }

    method MeetVisited(v: string, w: string, i: nat, ghost s0: Search, ghost low0: map<string, nat>)
      requires i < |graph.Out(v)| && v !in low0 && w == graph.Out(v)[i].dst && HasEdge(graph, v, w) && w in indices
      requires Visiting(s0, v, i) && SubMap(low0, lowlinks)
      modifies this`lowlinks
      ensures Visiting(s0, v, i + 1) && SubMap(low0, lowlinks)
    {
      var low := if w in onStack then Min(lowlinks[v], indices[w]) else lowlinks[v];
      ScanVisited(graph, s0, Now(), v, graph.Out(v), i, lowlinks[v], low);
      SetLink(v, low, i + 1, s0, low0);
    }

    method SetLink(v: string, low: nat, ghost i: nat, ghost s0: Search, ghost low0: map<string, nat>)
      requires graph.Valid() && onStack == Elements(stack) && lowlinks.Keys == indices.Keys && v in lowlinks
      requires Scanning(graph, s0, Now(), v, graph.Out(v), i, low)
      requires v !in low0 && SubMap(low0, lowlinks)
      modifies this`lowlinks
      ensures Visiting(s0, v, i) && SubMap(low0, lowlinks)
    {
      SubMapUpdate(low0, lowlinks, v, low);
      lowlinks := lowlinks[v := low];
    }

    /** If `v` is a root, its class leaves the stack. */
    method LeaveNode(v: string, ghost s0: Search)
      requires s0.Inv(graph) && v !in s0.indices && v in indices && Visiting(s0, v, |graph.Out(v)|)
      modifies this`stack, this`onStack, this`sccs, this`gray
      ensures Valid() && Extends(s0, Now())
      ensures Finished(graph, s0, Now(), v, lowlinks[v])
    {
      ghost var s, n := Now(), |s0.stack|;
      ghost var edges, low := graph.Out(v), lowlinks[v];
      if lowlinks[v] == indices[v] {
        PopRoot(v, n);
        LeaveRoot(graph, s0, s, v, edges, low, Reverse(s.stack[n..]));
      } else {
        Return(v);
        LeaveOther(graph, s0, s, v, edges, low);
      }
    }

    /** The call for `v` has nothing left to do. */
    ghost method Return(v: string)
      modifies this`gray
      ensures Now() == old(Now()).(gray := old(gray) - {v})
    {
      gray := gray - {v};
    }

    /** The class of `v`, from `v` up, becomes a component. */
    method PopRoot(v: string, ghost n: nat)
      requires n < |stack| && stack[n] == v && Now().Shape(graph) && onStack == Elements(stack)
      modifies this`stack, this`onStack, this`sccs, this`gray
      ensures Now() == PopTo(old(Now()), v, n, Reverse(old(stack[n..])))
      ensures onStack == Elements(stack)
    {
      StackDistinct(graph, Now());
      var scc := PopComponent(v, n);
      sccs := sccs + [scc];
      gray := gray - {v};
    }

    /** Pop the stack down to and including `v`. */
    method PopComponent(v: string, ghost n: nat) returns (scc: seq<string>)
      requires n < |stack| && stack[n] == v && Distinct(stack) && onStack == Elements(stack)
      modifies this`stack, this`onStack
      ensures stack == old(stack[..n]) && onStack == Elements(stack)
      ensures scc == Reverse(old(stack[n..]))
    {
      scc := [];
      ghost var m := |stack|;
      while true
        invariant n < |stack| <= m && stack == old(stack)[..|stack|] && onStack == Elements(stack)
        invariant scc == Reverse(old(stack)[|stack|..])
        decreases |stack|
      {
        var w := stack[|stack| - 1];
        PopOne(old(stack), |stack|);
        stack := stack[..|stack| - 1];
        onStack := onStack - {w};
        scc := scc + [w];
        if w == v {
          assert |stack| == n;
          return;
        }
      }
    }
  }

  lemma ElementsPush(stack: seq<string>, v: string)
    ensures Elements(stack + [v]) == Elements(stack) + {v}
  {
    assert (stack + [v])[|stack|] == v;
  }

  lemma SubMapInsert(low: map<string, nat>, v: string, k: nat)
    requires v !in low
    ensures SubMap(low, low[v := k])
  {
  }

  lemma SubMapUpdate(low0: map<string, nat>, low: map<string, nat>, v: string, k: nat)
    requires v !in low0 && SubMap(low0, low)
    ensures SubMap(low0, low[v := k])
  {
  }

  lemma SubMapTrans(a: map<string, nat>, b: map<string, nat>, c: map<string, nat>)
    requires SubMap(a, b) && SubMap(b, c)
    ensures SubMap(a, c)
  {
  }

  lemma OutEdge(g: DependencyGraph, v: string, i: nat)
    requires g.Valid() && i < |g.Out(v)|
    ensures HasEdge(g, v, g.Out(v)[i].dst)
  {
    EdgesFromMembers(g.edges, v);
    assert g.Out(v)[i] in g.Out(v);
  }

  lemma StackDistinct(g: DependencyGraph, s: Search)
    requires s.Shape(g)
    ensures Distinct(s.stack)
  {
    forall i, j | 0 <= i < j < |s.stack| ensures s.stack[i] != s.stack[j] {
      assert s.At(s.stack[i]) < s.At(s.stack[j]);
    }
  }

  /** The top of the stack is the next member. */
  lemma PopOne(stack: seq<string>, k: nat)
    requires 0 < k <= |stack| && Distinct(stack)
    ensures Elements(stack[..k - 1]) == Elements(stack[..k]) - {stack[k - 1]}
    ensures stack[..k][..k - 1] == stack[..k - 1]
    ensures Reverse(stack[k - 1..]) == Reverse(stack[k..]) + [stack[k - 1]]
  {
    assert stack[..k] == stack[..k - 1] + [stack[k - 1]];
    assert stack[k - 1..] == [stack[k - 1]] + stack[k..];
    var a, b := Reverse(stack[k - 1..]), Reverse(stack[k..]) + [stack[k - 1]];
    forall i | 0 <= i < |a| ensures a[i] == b[i] {
    }
  }

  /** A node about to be visited is in the graph, and every unfinished node
      reaches it. */
  lemma CallAllowed(g: DependencyGraph, s0: Search, s: Search, v: string, edges: seq<Edge>, i: nat, low: nat)
    requires g.Valid() && Scanning(g, s0, s, v, edges, i, low) && i < |edges| && HasEdge(g, v, edges[i].dst)
    requires forall x :: x in s0.gray ==> Reach(g, x, v)
    ensures edges[i].dst in g.predicates && forall x :: x in s.gray ==> Reach(g, x, edges[i].dst)
  {
    ReachSelf(g, v);
    ReachEdge(g, v, edges[i].dst);
    forall x | x in s.gray ensures Reach(g, x, edges[i].dst) {
      ReachTrans(g, x, v, edges[i].dst);
    }
  }

  /** The components of the graph: each predicate in exactly one, each a whole
      class of mutually reachable predicates, each after all it depends on. */
  ghost predicate SccsOf(g: DependencyGraph, sccs: seq<seq<string>>) {
    && Components(g, sccs)
    && Members(sccs) == Elements(g.predicates)
  }

  method ComputeSCCs(graph: DependencyGraph) returns (sccs: seq<seq<string>>)
    requires graph.Valid()
    ensures SccsOf(graph, sccs)
  {
    var state := new TarjanState(graph);
    for i := 0 to |graph.predicates|
      invariant state.Valid() && fresh(state) && state.graph == graph && state.gray == {}
      invariant Elements(graph.predicates[..i]) <= state.indices.Keys
    {
      ElementsPush(graph.predicates[..i], graph.predicates[i]);
      assert graph.predicates[..i + 1] == graph.predicates[..i] + [graph.predicates[i]];
      state.VisitRoot(graph.predicates[i]);
    }
    assert graph.predicates[..|graph.predicates|] == graph.predicates;
    NothingLeft(graph, state.Now());
    return state.sccs;
  }

  /** With no call open the stack is empty. */
  lemma StackHasGray(g: DependencyGraph, s: Search)
    requires s.Inv(g)
    ensures s.stack == [] || s.gray != {}
  {
    if s.stack != [] {
      assert s.GrayBelow(g, 0);
    }
  }

  lemma NothingLeft(g: DependencyGraph, s: Search)
    requires s.Inv(g) && s.gray == {} && Elements(g.predicates) <= s.indices.Keys
    ensures SccsOf(g, s.sccs)
  {
    StackHasGray(g, s);
    assert s.indices.Keys == Elements(g.predicates);
  }
}
