/** What dissolving leaves of a tree: which conditionals go, what stands in their
    place, and what stays (experimental/compiler/src/transforms.ts,
    `dissolveConditionals`). */
module DissolvedTrees {
  import opened Prelude
  import opened Merging
  import opened Alikeness
  import opened Dissolution

  /** A reactive conditional that covers every case, with branches that are alike. */
  ghost predicate GoesAway(node: ChildNode) {
    && node.Conditional? && node.isReactive
    && (exists k :: 0 <= k < |node.branches| && node.branches[k].condition.None?)
    && BranchesAlike(node.branches)
  }

  lemma DissolvesIfAlike(node: ChildNode)
    ensures Dissolves(node) <==> GoesAway(node)
    ensures GoesAway(node) ==> BodyComesTo(node.branches, MergeConditionalBodies(node.branches).value)
  {
    if node.Conditional? {
      MergesIffAlike(node.branches);
    }
  }

  // ---------------------------------------------------------------------
  // Merged bodies hold no regions
  // ---------------------------------------------------------------------

  /** Contents, statements, and elements of such. */
  ghost predicate Solid(node: ChildNode)
    decreases node
  {
    node.Content? || node.Statement? || (node.Element? && forall i :: 0 <= i < |node.children| ==> Solid(node.children[i]))
  }

  lemma {:induction false} MergedIsSolid(conds: seq<ContentValue>, ns: seq<ChildNode>, r: ChildNode)
    requires |ns| == |conds| + 1 > 1 && NodesAlike(conds, ns) && ComeTo(conds, ns, r)
    ensures Solid(r)
    decreases ns[0]
  {
    ComeToKind(conds, ns, r);
    if r.Element? {
      ComeToElement(conds, ns, r);
      forall i | 0 <= i < |r.children| ensures Solid(r.children[i]) {
        MergedIsSolid(conds, Column(ns, i), r.children[i]);
      }
    }
  }

  lemma {:induction false} SolidStays(node: ChildNode)
    requires Solid(node)
    ensures DissolveChildNode(node) == node
    decreases node
  {
    if node.Element? {
      SolidListStays(node.children, node, |node.children|);
      assert node.children[..|node.children|] == node.children;
    }
  }

  lemma {:induction false} SolidListStays(nodes: seq<ChildNode>, parent: ChildNode, n: nat)
    requires n <= |nodes| && forall i :: 0 <= i < |nodes| ==> nodes[i] < parent && Solid(nodes[i])
    ensures DissolveChildren(nodes[..n]) == nodes[..n]
    decreases parent, 0, n
  {
    if n > 0 {
      SolidListStays(nodes, parent, n - 1);
      SolidStays(nodes[n - 1]);
      assert nodes[..n][..n - 1] == nodes[..n - 1];
      assert nodes[..n] == nodes[..n - 1] + [nodes[n - 1]];
    }
  }

  lemma {:induction false} SolidEachStays(nodes: seq<ChildNode>)
    requires forall i :: 0 <= i < |nodes| ==> Solid(nodes[i])
    ensures DissolveEach(nodes) == nodes
  {
    if nodes != [] {
      SolidEachStays(nodes[..|nodes| - 1]);
      SolidStays(nodes[|nodes| - 1]);
      assert nodes == nodes[..|nodes| - 1] + [nodes[|nodes| - 1]];
    }
  }

  lemma BodyIsSolid(branches: seq<Branch>, body: seq<ChildNode>)
    requires BranchesAlike(branches) && BodyComesTo(branches, body)
    ensures (forall i :: 0 <= i < |body| ==> Solid(body[i])) && DissolveEach(body) == body
  {
    forall i | 0 <= i < |body| ensures Solid(body[i]) {
      MergedIsSolid(Conditions(branches, 0), Across(branches, 0, i), body[i]);
    }
    SolidEachStays(body);
  }

  // ---------------------------------------------------------------------
  // What each node becomes
  // ---------------------------------------------------------------------

  /** The same node around dissolved lists: a conditional keeps its conditions, its
      reactivity and the number of its branches. */
  ghost predicate Stays(node: ChildNode, r: ChildNode) {
    match node
    case Element(tag, attributes, handlers, children, isComponent) =>
      r == Element(tag, attributes, handlers, DissolveChildren(children), isComponent)
    case Loop(iterable, body) => r == Loop(iterable, DissolveChildren(body))
    case LabeledBlock(label_, children) => r == LabeledBlock(label_, DissolveChildren(children))
    case Conditional(branches, isReactive) =>
      && r.Conditional? && r.isReactive == isReactive && |r.branches| == |branches|
      && forall k :: 0 <= k < |branches| ==> r.branches[k].condition == branches[k].condition && r.branches[k].body == DissolveChildren(branches[k].body)
    case _ => r == node
  }

  lemma {:induction false} BranchesStay(branches: seq<Branch>, k: nat)
    requires k < |branches|
    ensures DissolveBranches(branches)[k].condition == branches[k].condition
    ensures DissolveBranches(branches)[k].body == DissolveChildren(branches[k].body)
  {
    var init := branches[..|branches| - 1];
    if k < |branches| - 1 {
      BranchesStay(init, k);
      assert DissolveBranches(branches)[k] == DissolveBranches(init)[k];
    }
  }

  lemma NodeStays(node: ChildNode)
    ensures Stays(node, DissolveChildNode(node))
  {
    if node.Conditional? {
      forall k | 0 <= k < |node.branches|
        ensures DissolveBranches(node.branches)[k].condition == node.branches[k].condition
        ensures DissolveBranches(node.branches)[k].body == DissolveChildren(node.branches[k].body)
      {
        BranchesStay(node.branches, k);
      }
    }
  }

  /** What one node contributes: a conditional that goes away the body its branches
      come to, any other node itself. */
  ghost predicate Contributes(node: ChildNode, piece: seq<ChildNode>) {
    if GoesAway(node) then BodyComesTo(node.branches, piece) else |piece| == 1 && Stays(node, piece[0])
  }

  ghost function Joined(pieces: seq<seq<ChildNode>>): seq<ChildNode> {
    if pieces == [] then [] else Joined(pieces[..|pieces| - 1]) + pieces[|pieces| - 1]
  }

  /** The dissolved list is what each node contributes, in order. */
  lemma {:induction false} DissolvedPieces(nodes: seq<ChildNode>) returns (pieces: seq<seq<ChildNode>>)
    ensures |pieces| == |nodes| && Joined(pieces) == DissolveChildren(nodes)
    ensures forall i :: 0 <= i < |nodes| ==> Contributes(nodes[i], pieces[i])
    decreases |nodes|
  {
    hide Contributes;
    if nodes == [] {
      pieces := [];
    } else {
      var before := DissolvedPieces(nodes[..|nodes| - 1]);
      var piece := LastPiece(nodes);
      pieces := before + [piece];
      assert pieces[..|pieces| - 1] == before;
    }
  }

  lemma LastPiece(nodes: seq<ChildNode>) returns (piece: seq<ChildNode>)
    requires nodes != []
    ensures Contributes(nodes[|nodes| - 1], piece)
    ensures DissolveChildren(nodes) == DissolveChildren(nodes[..|nodes| - 1]) + piece
  {
    var child := nodes[|nodes| - 1];
    DissolvesIfAlike(child);
    if GoesAway(child) {
      piece := MergeConditionalBodies(child.branches).value;
      BodyIsSolid(child.branches, piece);
    } else {
      piece := [DissolveChildNode(child)];
      NodeStays(child);
    }
  }

  // ---------------------------------------------------------------------
  // What is left to dissolve
  // ---------------------------------------------------------------------

  /** Some conditional in the tree could still be dissolved. */
  ghost predicate Leftover(node: ChildNode)
    decreases node, 1
  {
    GoesAway(node) || LeftoverInside(node)
  }

  ghost predicate LeftoverInside(node: ChildNode)
    decreases node, 0
  {
    match node
    case Element(_, _, _, children, _) => exists i :: 0 <= i < |children| && Leftover(children[i])
    case Loop(_, body) => exists i :: 0 <= i < |body| && Leftover(body[i])
    case LabeledBlock(_, children) => exists i :: 0 <= i < |children| && Leftover(children[i])
    case Conditional(branches, _) => exists k, i :: 0 <= k < |branches| && 0 <= i < |branches[k].body| && Leftover(branches[k].body[i])
    case _ => false
  }

  /** A conditional that stays, although its branches come to be alike once what is
      inside them has dissolved. */
  ghost predicate Ripens(node: ChildNode) {
    !GoesAway(node) && node.Conditional? && GoesAway(Conditional(DissolveBranches(node.branches), node.isReactive))
  }

  /** Some conditional in what stays of the tree ripens. */
  ghost predicate Ripening(node: ChildNode)
    decreases node, 1
  {
    !GoesAway(node) && (Ripens(node) || RipeningInside(node))
  }

  ghost predicate RipeningInside(node: ChildNode)
    decreases node, 0
  {
    match node
    case Element(_, _, _, children, _) => exists i :: 0 <= i < |children| && Ripening(children[i])
    case Loop(_, body) => exists i :: 0 <= i < |body| && Ripening(body[i])
    case LabeledBlock(_, children) => exists i :: 0 <= i < |children| && Ripening(children[i])
    case Conditional(branches, _) => exists k, i :: 0 <= k < |branches| && 0 <= i < |branches[k].body| && Ripening(branches[k].body[i])
    case _ => false
  }

  lemma {:induction false} SolidHasNoLeftover(node: ChildNode)
    requires Solid(node)
    ensures !Leftover(node)
    decreases node
  {
    if node.Element? {
      forall i | 0 <= i < |node.children| ensures !Leftover(node.children[i]) {
        SolidHasNoLeftover(node.children[i]);
      }
    }
  }

  ghost predicate AnyLeftover(nodes: seq<ChildNode>) {
    exists i :: 0 <= i < |nodes| && Leftover(nodes[i])
  }

  ghost predicate AnyRipening(nodes: seq<ChildNode>) {
    exists i :: 0 <= i < |nodes| && Ripening(nodes[i])
  }

  lemma AnyConcat(a: seq<ChildNode>, b: seq<ChildNode>)
    ensures AnyLeftover(a + b) <==> AnyLeftover(a) || AnyLeftover(b)
  {
    if AnyLeftover(a) {
      var i :| 0 <= i < |a| && Leftover(a[i]);
      assert Leftover((a + b)[i]);
    }
    if AnyLeftover(b) {
      var i :| 0 <= i < |b| && Leftover(b[i]);
      assert Leftover((a + b)[|a| + i]);
    }
  }

  lemma AnyLast(nodes: seq<ChildNode>)
    requires nodes != []
    ensures AnyRipening(nodes) <==> AnyRipening(nodes[..|nodes| - 1]) || Ripening(nodes[|nodes| - 1])
  {
    if AnyRipening(nodes[..|nodes| - 1]) {
      var i :| 0 <= i < |nodes| - 1 && Ripening(nodes[..|nodes| - 1][i]);
      assert Ripening(nodes[i]);
    }
    if AnyRipening(nodes) && !Ripening(nodes[|nodes| - 1]) {
      var i :| 0 <= i < |nodes| && Ripening(nodes[i]);
      assert nodes[..|nodes| - 1][i] == nodes[i];
    }
  }

  /** One pass leaves nothing to dissolve exactly when no conditional that stays
      ripens. */
  lemma {:induction false} LeftoverIffRipening(nodes: seq<ChildNode>)
    ensures AnyLeftover(DissolveChildren(nodes)) <==> AnyRipening(nodes)
    decreases DepthAll(nodes), 2, |nodes|
  {
    hide Leftover, Ripening, GoesAway;
    if nodes != [] {
      var init, child := nodes[..|nodes| - 1], nodes[|nodes| - 1];
      DepthOfMember(nodes, |nodes| - 1);
      InitIsNoDeeper(nodes);
      LeftoverIffRipening(init);
      DissolvesIfAlike(child);
      AnyLast(nodes);
      var piece := LastPiece(nodes);
      AnyConcat(DissolveChildren(init), piece);
      if GoesAway(child) {
        GoneIsNotRipening(child, piece);
      } else {
        var r := DissolveChildNode(child);
        NodeLeftover(child);
        AnyConcat(DissolveChildren(init), [r]);
        OneLeftover(r);
      }
    }
  }

  lemma OneLeftover(r: ChildNode)
    ensures AnyLeftover([r]) <==> Leftover(r)
  {
    assert [r][0] == r;
  }

  lemma GoneIsNotRipening(child: ChildNode, piece: seq<ChildNode>)
    requires GoesAway(child) && Contributes(child, piece)
    ensures !Ripening(child) && !AnyLeftover(piece)
  {
    BodyIsSolid(child.branches, piece);
    forall i | 0 <= i < |piece| ensures !Leftover(piece[i]) {
      SolidHasNoLeftover(piece[i]);
    }
  }

  /** A node that stays has something left to dissolve exactly when it ripens or
      something in it does. */
  lemma {:induction false} NodeLeftover(node: ChildNode)
    requires !GoesAway(node)
    ensures Leftover(DissolveChildNode(node)) <==> Ripening(node)
    decreases Depth(node), 1, 0
  {
    match node
    case Element(_, _, _, children, _) => LeftoverIffRipening(children);
    case LabeledBlock(_, children) => LeftoverIffRipening(children);
    case Loop(_, body) => LeftoverIffRipening(body);
    case Conditional(branches, isReactive) =>
      NodeStays(node);
      var after := DissolveBranches(branches);
      forall k | 0 <= k < |branches| ensures AnyLeftover(after[k].body) <==> AnyRipening(branches[k].body) {
        DepthOfBranch(branches, k);
        LeftoverIffRipening(branches[k].body);
      }
      BranchesLeftover(branches, after);
    case _ =>
  }

  lemma BranchesLeftover(branches: seq<Branch>, after: seq<Branch>)
    requires |after| == |branches| && forall k :: 0 <= k < |branches| ==> (AnyLeftover(after[k].body) <==> AnyRipening(branches[k].body))
    ensures LeftoverInside(Conditional(after, true)) <==> RipeningInside(Conditional(branches, true))
    ensures LeftoverInside(Conditional(after, false)) <==> RipeningInside(Conditional(branches, false))
  {
    hide Leftover, Ripening;
    if k, i :| 0 <= k < |after| && 0 <= i < |after[k].body| && Leftover(after[k].body[i]) {
      assert AnyLeftover(after[k].body) && AnyRipening(branches[k].body);
      var j :| 0 <= j < |branches[k].body| && Ripening(branches[k].body[j]);
    }
    if k, i :| 0 <= k < |branches| && 0 <= i < |branches[k].body| && Ripening(branches[k].body[i]) {
      assert AnyRipening(branches[k].body) && AnyLeftover(after[k].body);
      var j :| 0 <= j < |after[k].body| && Leftover(after[k].body[j]);
    }
  }

  function Either(condition: ContentValue, yes: ChildNode, no: ChildNode): ChildNode {
    Conditional([Branch(Some(condition), [yes]), Branch(None, [no])], true)
  }

  /** Two nodes in the branches of a conditional. */
  lemma EitherGoes(condition: ContentValue, yes: ChildNode, no: ChildNode)
    ensures GoesAway(Either(condition, yes, no)) <==> NodesAlike([condition], [yes, no])
  {
    var branches := Either(condition, yes, no).branches;
    assert Conditions(branches, 0) == [condition];
    assert Across(branches, 0, 0) == [yes, no];
    assert branches[1].condition.None?;
  }

  /** The condition can fail: a choice inside one branch makes the branches differ,
      and once it has dissolved they are alike, but the outer conditional has been
      passed. */
  lemma OnePassIsNotEnough(c: ContentValue, d: ContentValue, x: ContentValue, y: ContentValue, z: ContentValue)
    requires x.Liftable() && y.Liftable() && z.Liftable()
    ensures AnyLeftover(DissolveChildren([Either(c, Either(d, Content(x), Content(y)), Content(z))]))
  {
    var inner := Either(d, Content(x), Content(y));
    var outer := Either(c, inner, Content(z));
    EitherGoes(d, Content(x), Content(y));
    LiftableAlike([d], Content(x), Content(y));
    EitherGoes(c, inner, Content(z));
    assert [inner, Content(z)][0] == inner;
    var after := DissolveBranches(outer.branches);
    BranchesStay(outer.branches, 0);
    BranchesStay(outer.branches, 1);
    var merged := InnerDissolved(d, x, y);
    LeafStays(Content(z));
    assert outer.branches[0].body == [inner] && outer.branches[1].body == [Content(z)];
    assert after[0] == Branch(Some(c), [merged]) && after[1] == Branch(None, [Content(z)]);
    assert after == Either(c, merged, Content(z)).branches;
    EitherGoes(c, merged, Content(z));
    LiftableAlike([c], merged, Content(z));
    assert Ripening(outer);
    assert [outer][0] == outer;
    LeftoverIffRipening([outer]);
  }

  lemma LeafStays(node: ChildNode)
    requires node.Content?
    ensures DissolveChildren([node]) == [node]
  {
    assert [node][..0] == [];
  }

  lemma LiftableAlike(conds: seq<ContentValue>, a: ChildNode, b: ChildNode)
    requires |conds| == 1 && a.Content? && b.Content? && b.value.Liftable()
    ensures NodesAlike(conds, [a, b])
  {
    var vs := ContentsOf([a, b]);
    assert vs[1..] == [b.value] && conds[1..] == [];
    assert GoesBefore(vs[0], conds[1..], vs[1..]);
  }

  lemma InnerDissolved(d: ContentValue, x: ContentValue, y: ContentValue) returns (merged: ChildNode)
    requires x.Liftable() && y.Liftable()
    ensures merged.Content? && DissolveChildren([Either(d, Content(x), Content(y))]) == [merged]
  {
    var inner := Either(d, Content(x), Content(y));
    EitherGoes(d, Content(x), Content(y));
    LiftableAlike([d], Content(x), Content(y));
    var piece := LastPiece([inner]);
    assert [inner][..0] == [];
    assert Conditions(inner.branches, 0) == [d] && Across(inner.branches, 0, 0) == [Content(x), Content(y)];
    merged := piece[0];
    assert ComeTo([d], [Content(x), Content(y)], merged);
    assert piece == [merged];
  }
}
