/** Dissolving conditionals whose branches are alike
    (experimental/compiler/src/transforms.ts, `dissolveConditionals`). */
module Dissolution {
  import opened Prelude
  import opened Merging

  // ---------------------------------------------------------------------
  // Depth
  // ---------------------------------------------------------------------

  function Depth(node: ChildNode): nat
    decreases node
  {
    match node
    case Element(_, _, _, children, _) => 1 + DepthAll(children)
    case Loop(_, body) => 1 + DepthAll(body)
    case Conditional(branches, _) => 1 + DepthBranches(branches)
    case LabeledBlock(_, children) => 1 + DepthAll(children)
    case _ => 0
  }

  function DepthAll(nodes: seq<ChildNode>): nat
    decreases nodes
  {
    if nodes == [] then 0
    else if DepthAll(nodes[..|nodes| - 1]) >= Depth(nodes[|nodes| - 1]) then DepthAll(nodes[..|nodes| - 1])
    else Depth(nodes[|nodes| - 1])
  }

  function DepthBranches(branches: seq<Branch>): nat
    decreases branches
  {
    if branches == [] then 0
    else if DepthBranches(branches[..|branches| - 1]) >= DepthAll(branches[|branches| - 1].body) then DepthBranches(branches[..|branches| - 1])
    else DepthAll(branches[|branches| - 1].body)
  }

  lemma {:induction false} DepthOfMember(nodes: seq<ChildNode>, i: nat)
    requires i < |nodes|
    ensures Depth(nodes[i]) <= DepthAll(nodes)
    decreases |nodes|
  {
    if i < |nodes| - 1 {
      DepthOfMember(nodes[..|nodes| - 1], i);
    }
  }

  lemma {:induction false} DepthBounded(nodes: seq<ChildNode>, d: nat)
    requires forall i :: 0 <= i < |nodes| ==> Depth(nodes[i]) <= d
    ensures DepthAll(nodes) <= d
    decreases |nodes|
  {
    if nodes != [] {
      DepthBounded(nodes[..|nodes| - 1], d);
    }
  }

  lemma {:induction false} DepthOfBranch(branches: seq<Branch>, i: nat)
    requires i < |branches|
    ensures DepthAll(branches[i].body) <= DepthBranches(branches)
    decreases |branches|
  {
    if i < |branches| - 1 {
      DepthOfBranch(branches[..|branches| - 1], i);
    }
  }

  /** Merging does not deepen. */
  lemma {:induction false} MergedDepth(a: ChildNode, b: ChildNode, condition: ContentValue)
    requires MergeNode(a, b, condition).Ok?
    ensures Depth(MergeNode(a, b, condition).value) <= Depth(a)
    decreases a, 0
  {
    if a.Element? && b.Element? {
      MergedChildrenDepth(a, b, |a.children|, condition);
      DepthBounded(MergeNode(a, b, condition).value.children, DepthAll(a.children));
    }
  }

  lemma {:induction false} MergedChildrenDepth(a: ChildNode, b: ChildNode, n: nat, condition: ContentValue)
    requires a.Element? && b.Element? && n <= |a.children| == |b.children| && MergeChildren(a, b, n, condition).Ok?
    ensures forall i :: 0 <= i < n ==> Depth(MergeChildren(a, b, n, condition).value[i]) <= DepthAll(a.children)
    decreases a, 0, n
  {
    if n > 0 {
      MergedChildrenDepth(a, b, n - 1, condition);
      MergedDepth(a.children[n - 1], b.children[n - 1], condition);
      DepthOfMember(a.children, n - 1);
    }
  }

  lemma {:induction false} MergedPositionDepth(branches: seq<Branch>, k: nat, index: nat)
    requires k < |branches| && (forall j :: 0 <= j < |branches| ==> index < |branches[j].body|) && MergePosition(branches, k, index).Ok?
    ensures Depth(MergePosition(branches, k, index).value) <= DepthBranches(branches)
    decreases |branches| - k
  {
    DepthOfBranch(branches, k);
    DepthOfMember(branches[k].body, index);
    if k < |branches| - 1 {
      MergedPositionDepth(branches, k + 1, index);
      MergedDepth(branches[k].body[index], MergePosition(branches, k + 1, index).value, branches[k].condition.value);
    }
  }

  lemma {:induction false} MergedPositionsDepth(branches: seq<Branch>, n: nat)
    requires branches != [] && (forall j :: 0 <= j < |branches| ==> n <= |branches[j].body|) && MergePositions(branches, n).Ok?
    ensures forall i :: 0 <= i < n ==> Depth(MergePositions(branches, n).value[i]) <= DepthBranches(branches)
  {
    if n > 0 {
      MergedPositionsDepth(branches, n - 1);
      MergedPositionDepth(branches, 0, n - 1);
    }
  }

  lemma MergedBodiesDepth(branches: seq<Branch>)
    requires MergeConditionalBodies(branches).Ok?
    ensures DepthAll(MergeConditionalBodies(branches).value) <= DepthBranches(branches)
  {
    OddBranchFinds(branches, 1);
    MergedPositionsDepth(branches, |branches[0].body|);
    DepthBounded(MergeConditionalBodies(branches).value, DepthBranches(branches));
  }

  // ---------------------------------------------------------------------
  // Dissolving
  // ---------------------------------------------------------------------

  predicate HasElse(branches: seq<Branch>) {
    exists i :: 0 <= i < |branches| && branches[i].condition.None?
  }

  /** The conditional is reactive, covers every case, and its branches merge. */
  predicate Dissolves(node: ChildNode) {
    node.Conditional? && node.isReactive && HasElse(node.branches) && MergeConditionalBodies(node.branches).Ok?
  }

  function DissolveChildren(nodes: seq<ChildNode>): seq<ChildNode>
    decreases DepthAll(nodes), 2, |nodes|
  {
    if nodes == [] then []
    else
      DepthOfMember(nodes, |nodes| - 1);
      InitIsNoDeeper(nodes);
      var child := nodes[|nodes| - 1];
      DissolveChildren(nodes[..|nodes| - 1])
      + (if Dissolves(child) then
           MergedBodiesDepth(child.branches);
           DissolveEach(MergeConditionalBodies(child.branches).value)
         else [DissolveChildNode(child)])
  }

  lemma InitIsNoDeeper(nodes: seq<ChildNode>)
    requires nodes != []
    ensures DepthAll(nodes[..|nodes| - 1]) <= DepthAll(nodes)
  {
  }

  /** Merged nodes, each dissolved inside. */
  function DissolveEach(nodes: seq<ChildNode>): seq<ChildNode>
    decreases DepthAll(nodes), 2, |nodes|
  {
    if nodes == [] then []
    else
      DepthOfMember(nodes, |nodes| - 1);
      InitIsNoDeeper(nodes);
      DissolveEach(nodes[..|nodes| - 1]) + [DissolveChildNode(nodes[|nodes| - 1])]
  }

  function DissolveChildNode(node: ChildNode): ChildNode
    decreases Depth(node), 1, 0
  {
    match node
    case Element(tag, attributes, handlers, children, isComponent) => Element(tag, attributes, handlers, DissolveChildren(children), isComponent)
    case Loop(iterable, body) => Loop(iterable, DissolveChildren(body))
    case Conditional(branches, isReactive) => Conditional(DissolveBranches(branches), isReactive)
    case LabeledBlock(label_, children) => LabeledBlock(label_, DissolveChildren(children))
    case _ => node
  }

  function DissolveBranches(branches: seq<Branch>): (r: seq<Branch>)
    ensures |r| == |branches|
    decreases DepthBranches(branches) + 1, 0, |branches|
  {
    if branches == [] then []
    else
      DepthOfBranch(branches, |branches| - 1);
      DissolveBranches(branches[..|branches| - 1]) + [Branch(branches[|branches| - 1].condition, DissolveChildren(branches[|branches| - 1].body))]
  }

  /** The loop over the children: the merged body of a conditional that dissolves
      is spliced in where it stood. */
  method DissolveList(nodes: seq<ChildNode>) returns (result: seq<ChildNode>)
    ensures result == DissolveChildren(nodes)
  {
    result := [];
    for i := 0 to |nodes|
      invariant result == DissolveChildren(nodes[..i])
    {
      var child := nodes[i];
      assert nodes[..i + 1][..i] == nodes[..i];
      if child.Conditional? && child.isReactive && HasElse(child.branches) {
        var merged := MergeBodies(child.branches);
        if merged.Ok? {
          var each := DissolveMerged(merged.value);
          result := result + each;
          continue;
        }
      }
      result := result + [DissolveChildNode(child)];
    }
    assert nodes[..|nodes|] == nodes;
  }

  method DissolveMerged(nodes: seq<ChildNode>) returns (result: seq<ChildNode>)
    ensures result == DissolveEach(nodes)
  {
    result := [];
    for i := 0 to |nodes|
      invariant result == DissolveEach(nodes[..i])
    {
      assert nodes[..i + 1][..i] == nodes[..i];
      result := result + [DissolveChildNode(nodes[i])];
    }
    assert nodes[..|nodes|] == nodes;
  }

  // ---------------------------------------------------------------------
  // Meaning
  // ---------------------------------------------------------------------

  /** Loops around a place, each with the number of the item. */
  type Scope = seq<(string, nat)>

  /** What source texts mean: their value at a place, whether a value counts as
      true, the number of items of an iterable, and what reading a text depends on.
      `isCondition` are the expressions that can stand before a `?` as they are. */
  datatype Language = Language(
    isExpr: string -> bool,
    isCondition: string -> bool,
    value: (Scope, string) -> string,
    truthy: string -> bool,
    count: (Scope, string) -> nat,
    uses: string -> set<string>)
  {
    /** A conditional text has the value of the branch its condition picks, and
        parentheses change nothing. */
    ghost predicate Lawful() {
      && (forall c, a, b :: isCondition(c) && isExpr(a) && isExpr(b) ==> Chooses(c, a, b))
      && (forall s :: isExpr(s) ==> isExpr(Parens(s)) && uses(Parens(s)) == uses(s) && forall scope :: value(scope, Parens(s)) == value(scope, s))
    }

    ghost predicate Chooses(c: string, a: string, b: string) {
      && isExpr(Ternary(c, a, b))
      && uses(Ternary(c, a, b)) == uses(c) + uses(a) + uses(b)
      && forall scope :: value(scope, Ternary(c, a, b)) == if truthy(value(scope, c)) then value(scope, a) else value(scope, b)
    }

    predicate Holds(scope: Scope, condition: ContentValue) {
      truthy(value(scope, condition.source))
    }
  }

  datatype Dom =
    | El(tag: string, attrs: map<string, string>, handlers: seq<string>, kids: seq<Dom>, isComponent: bool)
    | Shown(value: string)
    | Did(source: string)
    | Named(name: string, value: string)
    | Block(label_: string, kids: seq<Dom>)

  function AttributeMap(attrs: seq<AttributeNode>, lang: Language, scope: Scope): map<string, string> {
    map n | n in Names(attrs) :: lang.value(scope, FindAttribute(attrs, n).value.value.source)
  }

  /** The first branch that applies. */
  function FirstTrue(branches: seq<Branch>, k: nat, lang: Language, scope: Scope): Option<nat>
    requires k <= |branches|
    decreases |branches| - k
  {
    if k == |branches| then None
    else if branches[k].condition.None? || lang.Holds(scope, branches[k].condition.value) then Some(k)
    else FirstTrue(branches, k + 1, lang, scope)
  }

  lemma {:induction false} FirstTrueInRange(branches: seq<Branch>, k: nat, lang: Language, scope: Scope)
    requires k <= |branches|
    ensures FirstTrue(branches, k, lang, scope).Some? ==> k <= FirstTrue(branches, k, lang, scope).value < |branches|
    decreases |branches| - k
  {
    if k < |branches| {
      FirstTrueInRange(branches, k + 1, lang, scope);
    }
  }

  function Render(node: ChildNode, lang: Language, scope: Scope): seq<Dom>
    decreases node, 0
  {
    match node
    case Element(tag, attributes, handlers, children, isComponent) =>
      [El(tag, AttributeMap(attributes, lang, scope), handlers, RenderAll(children, lang, scope), isComponent)]
    case Content(value) => [Shown(lang.value(scope, value.source))]
    case Statement(source) => [Did(source)]
    case Loop(iterable, body) => RenderItems(iterable, body, lang, scope, lang.count(scope, iterable))
    case Conditional(branches, _) =>
      FirstTrueInRange(branches, 0, lang, scope);
      var k := FirstTrue(branches, 0, lang, scope);
      if k.None? then [] else RenderAll(branches[k.value].body, lang, scope)
    case Binding(name, value) => [Named(name, lang.value(scope, value.source))]
    case LabeledBlock(label_, children) => [Block(label_, RenderAll(children, lang, scope))]
  }

  function RenderAll(nodes: seq<ChildNode>, lang: Language, scope: Scope): seq<Dom>
    decreases nodes, 0
  {
    if nodes == [] then [] else RenderAll(nodes[..|nodes| - 1], lang, scope) + Render(nodes[|nodes| - 1], lang, scope)
  }

  /** The body once for each of the first `n` items. */
  function RenderItems(iterable: string, body: seq<ChildNode>, lang: Language, scope: Scope, n: nat): seq<Dom>
    decreases body, 1, n
  {
    if n == 0 then [] else RenderItems(iterable, body, lang, scope, n - 1) + RenderAll(body, lang, scope + [(iterable, n - 1)])
  }

  lemma {:induction false} RenderAllConcat(a: seq<ChildNode>, b: seq<ChildNode>, lang: Language, scope: Scope)
    ensures RenderAll(a + b, lang, scope) == RenderAll(a, lang, scope) + RenderAll(b, lang, scope)
  {
    if b == [] {
      assert a + b == a;
    } else {
      assert (a + b)[..|a + b| - 1] == a + b[..|b| - 1];
      RenderAllConcat(a, b[..|b| - 1], lang, scope);
    }
  }

  // ---------------------------------------------------------------------
  // The fragment
  // ---------------------------------------------------------------------

  ghost predicate GoodValue(v: ContentValue, lang: Language) {
    lang.isExpr(v.source) && (v.Liftable() ==> v.deps == []) && lang.uses(v.source) <= Elements(v.deps)
  }

  ghost predicate GoodCondition(v: ContentValue, lang: Language) {
    lang.isCondition(v.source) && lang.uses(v.source) <= Elements(v.deps)
  }

  /** Plain markup: no components, no handlers, no attribute twice; every value is
      an expression whose dependencies are listed, and every condition one that can
      stand before a `?`. */
  ghost predicate Plain(node: ChildNode, lang: Language)
    decreases node
  {
    match node
    case Element(_, attributes, handlers, children, isComponent) =>
      && !isComponent && handlers == [] && Distinct(Names(attributes))
      && GoodAttributes(attributes, lang)
      && forall i :: 0 <= i < |children| ==> Plain(children[i], lang)
    case Content(value) => GoodValue(value, lang)
    case Statement(_) => true
    case Loop(_, body) => forall i :: 0 <= i < |body| ==> Plain(body[i], lang)
    case Conditional(branches, _) =>
      forall k :: 0 <= k < |branches| ==>
        && (branches[k].condition.Some? ==> GoodCondition(branches[k].condition.value, lang))
        && forall i :: 0 <= i < |branches[k].body| ==> Plain(branches[k].body[i], lang)
    case Binding(_, value) => GoodValue(value, lang)
    case LabeledBlock(_, children) => forall i :: 0 <= i < |children| ==> Plain(children[i], lang)
  }

  ghost predicate PlainAll(nodes: seq<ChildNode>, lang: Language) {
    forall i :: 0 <= i < |nodes| ==> Plain(nodes[i], lang)
  }

  // ---------------------------------------------------------------------
  // Merging keeps the meaning
  // ---------------------------------------------------------------------

  lemma {:induction false} MissingIs(a: seq<string>, b: seq<string>)
    ensures forall x :: x in Missing(a, b) <==> x in b && x !in a
  {
    if b != [] {
      MissingIs(a, b[..|b| - 1]);
      assert b == b[..|b| - 1] + [b[|b| - 1]];
    }
  }

  lemma JoinDepsHasAll(a: seq<string>, b: seq<string>)
    ensures Elements(JoinDeps(a, b)) == Elements(a) + Elements(b)
  {
    MissingIs(a, b);
  }

  /** A merged value is the first where the condition holds and the second where it
      does not, and lists all it may depend on. */
  lemma MergedValue(a: ContentValue, b: ContentValue, condition: ContentValue, lang: Language)
    requires lang.Lawful() && GoodValue(a, lang) && GoodValue(b, lang) && GoodCondition(condition, lang)
    requires MergeContentValue(a, b, condition).Ok?
    ensures var v := MergeContentValue(a, b, condition).value;
      && GoodValue(v, lang)
      && forall scope :: lang.value(scope, v.source) == if lang.Holds(scope, condition) then lang.value(scope, a.source) else lang.value(scope, b.source)
  {
    if a != b {
      var x := if a.time.ReactiveTime? then Parens(a.source) else a.source;
      var y := if b.time.ReactiveTime? then Parens(b.source) else b.source;
      assert lang.isExpr(x) && lang.isExpr(y);
      assert lang.Chooses(condition.source, x, y);
      JoinDepsHasAll(condition.deps, a.deps);
      JoinDepsHasAll(condition.deps, b.deps);
    }
  }

  lemma {:induction false} FindInDistinct(attrs: seq<AttributeNode>, i: nat)
    requires i < |attrs| && Distinct(Names(attrs))
    ensures FindAttribute(attrs, attrs[i].name) == Some(attrs[i])
  {
    if i > 0 {
      assert Names(attrs)[0] != Names(attrs)[i];
      assert forall j :: 0 <= j < |attrs| - 1 ==> Names(attrs[1..])[j] == Names(attrs)[j + 1];
      FindInDistinct(attrs[1..], i - 1);
    }
  }

  lemma NoneMerged(a: seq<AttributeNode>, b: seq<AttributeNode>, names: seq<string>, condition: ContentValue, lang: Language)
    ensures AllMerged(a, b, names, [], condition, lang)
  {
  }

  lemma {:induction false} MergedAttributesAre(a: seq<AttributeNode>, b: seq<AttributeNode>, names: seq<string>, n: nat, condition: ContentValue, lang: Language)
    requires lang.Lawful() && GoodCondition(condition, lang) && n <= |names|
    requires GoodAttributes(a, lang) && GoodAttributes(b, lang)
    requires MergeAttributes(a, b, names, n, condition).Ok?
    ensures AllMerged(a, b, names, MergeAttributes(a, b, names, n, condition).value, condition, lang)
  {
    hide GoodCondition, GoodAttributes, AllMerged, MergeContentValue, FindAttribute;
    if n == 0 {
      NoneMerged(a, b, names, condition, lang);
    } else {
      MergedAttributesAre(a, b, names, n - 1, condition, lang);
      LastAttribute(a, b, names, n, condition);
      var before, r := MergeAttributes(a, b, names, n - 1, condition).value, MergeAttributes(a, b, names, n, condition).value;
      AttributeFrom(a, b, names[n - 1], r[n - 1], condition, lang);
      OneMoreMerged(a, b, names, before, r[n - 1], condition, lang);
    }
  }

  lemma LastAttribute(a: seq<AttributeNode>, b: seq<AttributeNode>, names: seq<string>, n: nat, condition: ContentValue)
    requires 0 < n <= |names| && MergeAttributes(a, b, names, n, condition).Ok?
    ensures FindAttribute(a, names[n - 1]).Some? && FindAttribute(b, names[n - 1]).Some? && MergeAttributes(a, b, names, n - 1, condition).Ok?
    ensures var r := MergeAttributes(a, b, names, n, condition).value;
      && r == MergeAttributes(a, b, names, n - 1, condition).value + [r[n - 1]] && r[n - 1].name == names[n - 1]
      && MergeContentValue(FindAttribute(a, names[n - 1]).value.value, FindAttribute(b, names[n - 1]).value.value, condition) == Ok(r[n - 1].value)
  {
  }

  ghost predicate AllMerged(a: seq<AttributeNode>, b: seq<AttributeNode>, names: seq<string>, r: seq<AttributeNode>, condition: ContentValue, lang: Language) {
    |r| <= |names| && forall i :: 0 <= i < |r| ==> MergedAttribute(a, b, names[i], r[i], condition, lang)
  }

  lemma OneMoreMerged(a: seq<AttributeNode>, b: seq<AttributeNode>, names: seq<string>, before: seq<AttributeNode>, x: AttributeNode,
                      condition: ContentValue, lang: Language)
    requires AllMerged(a, b, names, before, condition, lang) && |before| < |names|
    requires MergedAttribute(a, b, names[|before|], x, condition, lang)
    ensures AllMerged(a, b, names, before + [x], condition, lang)
  {
  }

  lemma AttributeFrom(a: seq<AttributeNode>, b: seq<AttributeNode>, name: string, r: AttributeNode, condition: ContentValue, lang: Language)
    requires lang.Lawful() && GoodCondition(condition, lang) && GoodAttributes(a, lang) && GoodAttributes(b, lang) && r.name == name
    requires FindAttribute(a, name).Some? && FindAttribute(b, name).Some?
    requires MergeContentValue(FindAttribute(a, name).value.value, FindAttribute(b, name).value.value, condition) == Ok(r.value)
    ensures MergedAttribute(a, b, name, r, condition, lang)
  {
    MergedValue(FindAttribute(a, name).value.value, FindAttribute(b, name).value.value, condition, lang);
  }

  ghost predicate GoodAttributes(attrs: seq<AttributeNode>, lang: Language) {
    forall i :: 0 <= i < |attrs| ==> GoodValue(attrs[i].value, lang)
  }

  /** The merged attribute of a name. */
  ghost predicate MergedAttribute(a: seq<AttributeNode>, b: seq<AttributeNode>, name: string, r: AttributeNode, condition: ContentValue, lang: Language) {
    && r.name == name && GoodValue(r.value, lang)
    && forall scope :: MergedAt(a, b, name, r.value, condition, lang, scope)
  }

  /** The value of an attribute, chosen by the condition. */
  ghost predicate MergedAt(a: seq<AttributeNode>, b: seq<AttributeNode>, name: string, v: ContentValue, condition: ContentValue, lang: Language, scope: Scope) {
    && FindAttribute(a, name).Some? && FindAttribute(b, name).Some?
    && lang.value(scope, v.source) == if lang.Holds(scope, condition) then lang.value(scope, FindAttribute(a, name).value.value.source)
                                      else lang.value(scope, FindAttribute(b, name).value.value.source)
  }

  lemma MergedAttributeMap(a: seq<AttributeNode>, b: seq<AttributeNode>, condition: ContentValue, lang: Language)
    requires lang.Lawful() && GoodCondition(condition, lang) && GoodAttributes(a, lang) && GoodAttributes(b, lang)
    requires Distinct(Names(a)) && SortNames(Names(a)) == SortNames(Names(b))
    requires MergeAttributes(a, b, SortNames(Names(a)), |SortNames(Names(a))|, condition).Ok?
    ensures var r := MergeAttributes(a, b, SortNames(Names(a)), |SortNames(Names(a))|, condition).value;
      && GoodAttributes(r, lang) && Distinct(Names(r))
      && forall scope :: AttributeMap(r, lang, scope) == if lang.Holds(scope, condition) then AttributeMap(a, lang, scope) else AttributeMap(b, lang, scope)
  {
    var names := SortNames(Names(a));
    var r := MergeAttributes(a, b, names, |names|, condition).value;
    MergedAttributesAre(a, b, names, |names|, condition, lang);
    SortNamesPermutes(Names(a));
    SortNamesPermutes(Names(b));
    assert Names(r) == names by {
      forall i | 0 <= i < |names| ensures Names(r)[i] == names[i] {
        assert MergedAttribute(a, b, names[i], r[i], condition, lang);
      }
    }
    DistinctPermuted(Names(a), names);
    forall i | 0 <= i < |r| ensures GoodValue(r[i].value, lang) {
      assert MergedAttribute(a, b, names[i], r[i], condition, lang);
    }
    forall scope ensures AttributeMap(r, lang, scope) == if lang.Holds(scope, condition) then AttributeMap(a, lang, scope) else AttributeMap(b, lang, scope) {
      MergedMapAt(a, b, r, names, condition, lang, scope);
    }
  }

  lemma MergedMapAt(a: seq<AttributeNode>, b: seq<AttributeNode>, r: seq<AttributeNode>, names: seq<string>, condition: ContentValue, lang: Language, scope: Scope)
    requires Names(r) == names && Distinct(names) && (forall n :: n in names <==> n in Names(a)) && (forall n :: n in names <==> n in Names(b))
    requires forall i :: 0 <= i < |names| ==> MergedAttribute(a, b, names[i], r[i], condition, lang)
    ensures AttributeMap(r, lang, scope) == if lang.Holds(scope, condition) then AttributeMap(a, lang, scope) else AttributeMap(b, lang, scope)
  {
    var m := if lang.Holds(scope, condition) then AttributeMap(a, lang, scope) else AttributeMap(b, lang, scope);
    forall n | n in names ensures AttributeMap(r, lang, scope)[n] == m[n] {
      var i :| 0 <= i < |names| && names[i] == n;
      FindInDistinct(r, i);
      assert MergedAttribute(a, b, names[i], r[i], condition, lang);
      assert MergedAt(a, b, n, r[i].value, condition, lang, scope);
    }
  }

  /** Sorting keeps names distinct. */
  lemma DistinctPermuted(xs: seq<string>, ys: seq<string>)
    requires Distinct(xs) && multiset(xs) == multiset(ys)
    ensures Distinct(ys)
  {
    forall i, j | 0 <= i < j < |ys| ensures ys[i] != ys[j] {
      if ys[i] == ys[j] {
        TwiceCounted(ys, i, j);
        OnceCounted(xs, ys[i]);
      }
    }
  }

  lemma TwiceCounted(ys: seq<string>, i: nat, j: nat)
    requires i < j < |ys| && ys[i] == ys[j]
    ensures multiset(ys)[ys[i]] >= 2
  {
    assert ys == ys[..j] + ys[j..];
    assert ys[..j][i] == ys[i] && ys[j..][0] == ys[i];
    assert ys[i] in multiset(ys[..j]) && ys[i] in multiset(ys[j..]);
  }

  lemma {:induction false} OnceCounted(xs: seq<string>, x: string)
    requires Distinct(xs)
    ensures multiset(xs)[x] <= 1
  {
    if xs != [] {
      var init, last := xs[..|xs| - 1], xs[|xs| - 1];
      OnceCounted(init, x);
      assert xs == init + [last];
      assert last !in init;
      if x == last {
        assert x !in multiset(init);
      }
    }
  }

  /** A merged node is plain, and is shown as the first where the condition holds
      and as the second where it does not. */
  lemma {:induction false} MergedNode(a: ChildNode, b: ChildNode, condition: ContentValue, lang: Language)
    requires lang.Lawful() && Plain(a, lang) && Plain(b, lang) && GoodCondition(condition, lang) && MergeNode(a, b, condition).Ok?
    ensures var r := MergeNode(a, b, condition).value;
      && Plain(r, lang)
      && forall scope :: Render(r, lang, scope) == if lang.Holds(scope, condition) then Render(a, lang, scope) else Render(b, lang, scope)
    decreases a, 1
  {
    if a.Content? {
      MergedValue(a.value, b.value, condition, lang);
    } else if a.Element? {
      MergedAttributeMap(a.attributes, b.attributes, condition, lang);
      MergedChildren(a, b, condition, lang);
      var r := MergeNode(a, b, condition).value;
      forall i | 0 <= i < |r.children| ensures Plain(r.children[i], lang) {
        assert MergedChild(a.children[i], b.children[i], r.children[i], condition, lang);
      }
      forall scope ensures Render(r, lang, scope) == if lang.Holds(scope, condition) then Render(a, lang, scope) else Render(b, lang, scope) {
        MergedKids(a, b, r.children, condition, lang, scope);
      }
    }
  }

  /** Corresponding nodes of three lists, chosen by the condition. */
  ghost predicate ChosenAt(a: ChildNode, b: ChildNode, r: ChildNode, condition: ContentValue, lang: Language) {
    forall scope :: Render(r, lang, scope) == if lang.Holds(scope, condition) then Render(a, lang, scope) else Render(b, lang, scope)
  }

  ghost predicate MergedChild(a: ChildNode, b: ChildNode, r: ChildNode, condition: ContentValue, lang: Language) {
    Plain(r, lang) && ChosenAt(a, b, r, condition, lang)
  }

  lemma {:induction false} MergedChildren(a: ChildNode, b: ChildNode, condition: ContentValue, lang: Language)
    requires a.Element? && b.Element? && |a.children| == |b.children| && MergeChildren(a, b, |a.children|, condition).Ok?
    requires lang.Lawful() && PlainAll(a.children, lang) && PlainAll(b.children, lang) && GoodCondition(condition, lang)
    ensures KidsMerged(a.children, b.children, MergeChildren(a, b, |a.children|, condition).value, condition, lang)
    decreases a, 0
  {
    forall i | 0 <= i < |a.children|
      ensures MergedChild(a.children[i], b.children[i], MergeChildren(a, b, |a.children|, condition).value[i], condition, lang) {
      ChildIs(a, b, |a.children|, i, condition);
      MergedNode(a.children[i], b.children[i], condition, lang);
    }
  }

  /** Children are merged one with one. */
  lemma {:induction false} ChildIs(a: ChildNode, b: ChildNode, n: nat, i: nat, condition: ContentValue)
    requires a.Element? && b.Element? && i < n <= |a.children| == |b.children| && MergeChildren(a, b, n, condition).Ok?
    ensures MergeNode(a.children[i], b.children[i], condition) == Ok(MergeChildren(a, b, n, condition).value[i])
  {
    if i < n - 1 {
      ChildIs(a, b, n - 1, i, condition);
    }
  }

  ghost predicate KidsMerged(a: seq<ChildNode>, b: seq<ChildNode>, r: seq<ChildNode>, condition: ContentValue, lang: Language) {
    |r| == |a| == |b| && forall i :: 0 <= i < |r| ==> MergedChild(a[i], b[i], r[i], condition, lang)
  }

  lemma MergedKids(a: ChildNode, b: ChildNode, r: seq<ChildNode>, condition: ContentValue, lang: Language, scope: Scope)
    requires a.Element? && b.Element? && |r| == |a.children| == |b.children|
    requires forall i :: 0 <= i < |r| ==> MergedChild(a.children[i], b.children[i], r[i], condition, lang)
    ensures RenderAll(r, lang, scope) == if lang.Holds(scope, condition) then RenderAll(a.children, lang, scope) else RenderAll(b.children, lang, scope)
  {
    forall i | 0 <= i < |r| ensures Render(r[i], lang, scope) == Render((if lang.Holds(scope, condition) then a.children else b.children)[i], lang, scope) {
      assert MergedChild(a.children[i], b.children[i], r[i], condition, lang);
    }
    SameShown(r, if lang.Holds(scope, condition) then a.children else b.children, lang, scope);
  }

  lemma {:induction false} SameShown(a: seq<ChildNode>, b: seq<ChildNode>, lang: Language, scope: Scope)
    requires |a| == |b| && forall i :: 0 <= i < |a| ==> Render(a[i], lang, scope) == Render(b[i], lang, scope)
    ensures RenderAll(a, lang, scope) == RenderAll(b, lang, scope)
  {
    if a != [] {
      SameShown(a[..|a| - 1], b[..|b| - 1], lang, scope);
    }
  }

  // ---------------------------------------------------------------------
  // Whole branches
  // ---------------------------------------------------------------------

  ghost predicate PlainBranches(branches: seq<Branch>, lang: Language) {
    forall k :: 0 <= k < |branches| ==>
      (branches[k].condition.Some? ==> GoodCondition(branches[k].condition.value, lang)) && PlainAll(branches[k].body, lang)
  }

  /** The nodes at one position, merged from branch `k` on, are shown as the first of
      these branches that applies. */
  lemma {:induction false} MergedPosition(branches: seq<Branch>, k: nat, index: nat, lang: Language)
    requires lang.Lawful() && PlainBranches(branches, lang) && k < |branches| && branches[|branches| - 1].condition.None?
    requires (forall j :: 0 <= j < |branches| ==> index < |branches[j].body|) && MergePosition(branches, k, index).Ok?
    ensures Plain(MergePosition(branches, k, index).value, lang)
    ensures forall scope :: PickedAt(branches, k, index, MergePosition(branches, k, index).value, lang, scope)
    decreases |branches| - k
  {
    hide Names, MergeNode;
    if k < |branches| - 1 {
      MergedPosition(branches, k + 1, index, lang);
      var current := MergePosition(branches, k + 1, index).value;
      MergedNode(branches[k].body[index], current, branches[k].condition.value, lang);
      forall scope ensures PickedAt(branches, k, index, MergePosition(branches, k, index).value, lang, scope) {
        assert PickedAt(branches, k + 1, index, current, lang, scope);
      }
    }
  }

  /** A branch applies, and the node is shown as its node at this position. */
  ghost predicate PickedAt(branches: seq<Branch>, k: nat, index: nat, r: ChildNode, lang: Language, scope: Scope)
    requires k < |branches| && forall j :: 0 <= j < |branches| ==> index < |branches[j].body|
  {
    FirstTrueInRange(branches, k, lang, scope);
    var j := FirstTrue(branches, k, lang, scope);
    j.Some? && Render(r, lang, scope) == Render(branches[j.value].body[index], lang, scope)
  }

  ghost predicate PickedFrom(branches: seq<Branch>, index: nat, r: ChildNode, lang: Language, scope: Scope) {
    var j := FirstTrue(branches, 0, lang, scope);
    j.Some? && j.value < |branches| && index < |branches[j.value].body| && Render(r, lang, scope) == Render(branches[j.value].body[index], lang, scope)
  }

  /** A merged node is plain, and shown as its position in the branch that applies. */
  ghost predicate Picked(branches: seq<Branch>, index: nat, r: ChildNode, lang: Language) {
    Plain(r, lang) && forall scope :: PickedFrom(branches, index, r, lang, scope)
  }

  lemma PickedFromFirst(branches: seq<Branch>, index: nat, lang: Language)
    requires lang.Lawful() && PlainBranches(branches, lang) && branches != [] && branches[|branches| - 1].condition.None?
    requires (forall j :: 0 <= j < |branches| ==> index < |branches[j].body|) && MergePosition(branches, 0, index).Ok?
    ensures Picked(branches, index, MergePosition(branches, 0, index).value, lang)
  {
    var r := MergePosition(branches, 0, index).value;
    MergedPosition(branches, 0, index, lang);
    forall scope ensures PickedFrom(branches, index, r, lang, scope) {
      assert PickedAt(branches, 0, index, r, lang, scope);
      FirstTrueInRange(branches, 0, lang, scope);
    }
  }

  lemma {:induction false} MergedPositions(branches: seq<Branch>, n: nat, lang: Language)
    requires lang.Lawful() && PlainBranches(branches, lang) && branches != [] && branches[|branches| - 1].condition.None?
    requires (forall j :: 0 <= j < |branches| ==> n <= |branches[j].body|) && MergePositions(branches, n).Ok?
    ensures EachPicked(branches, MergePositions(branches, n).value, lang)
  {
    if n > 0 {
      MergedPositions(branches, n - 1, lang);
      LastPosition(branches, n);
      PickedFromFirst(branches, n - 1, lang);
      OneMorePicked(branches, MergePositions(branches, n - 1).value, MergePosition(branches, 0, n - 1).value, lang);
    }
  }

  lemma LastPosition(branches: seq<Branch>, n: nat)
    requires branches != [] && n > 0 && (forall j :: 0 <= j < |branches| ==> n <= |branches[j].body|) && MergePositions(branches, n).Ok?
    ensures MergePositions(branches, n - 1).Ok? && MergePosition(branches, 0, n - 1).Ok? && |MergePositions(branches, n - 1).value| == n - 1
    ensures MergePositions(branches, n).value == MergePositions(branches, n - 1).value + [MergePosition(branches, 0, n - 1).value]
  {
  }

  ghost predicate EachPicked(branches: seq<Branch>, merged: seq<ChildNode>, lang: Language) {
    forall i :: 0 <= i < |merged| ==> Picked(branches, i, merged[i], lang)
  }

  lemma OneMorePicked(branches: seq<Branch>, before: seq<ChildNode>, x: ChildNode, lang: Language)
    requires EachPicked(branches, before, lang) && Picked(branches, |before|, x, lang)
    ensures EachPicked(branches, before + [x], lang)
  {
  }

  /** A conditional with an else branch that merges is shown as its merged body. */
  lemma MergedBodies(branches: seq<Branch>, lang: Language, scope: Scope)
    requires lang.Lawful() && PlainBranches(branches, lang) && HasElse(branches) && MergeConditionalBodies(branches).Ok?
    ensures PlainAll(MergeConditionalBodies(branches).value, lang)
    ensures RenderAll(MergeConditionalBodies(branches).value, lang, scope) == Render(Conditional(branches, true), lang, scope)
  {
    var n := |branches[0].body|;
    MergedCounts(branches);
    if n == 0 {
      NothingShown(branches, lang, scope);
    } else {
      ElseIsLast(branches, n);
      MergedPositions(branches, n, lang);
      AllPicked(branches, MergeConditionalBodies(branches).value, lang, scope);
    }
  }

  /** Branches that merge have as many nodes each as the merged body. */
  lemma MergedCounts(branches: seq<Branch>)
    requires MergeConditionalBodies(branches).Ok?
    ensures forall j :: 0 <= j < |branches| ==> |branches[j].body| == |branches[0].body| == |MergeConditionalBodies(branches).value|
    ensures MergePositions(branches, |branches[0].body|) == MergeConditionalBodies(branches)
  {
    OddBranchFinds(branches, 1);
  }

  lemma NothingShown(branches: seq<Branch>, lang: Language, scope: Scope)
    requires forall j :: 0 <= j < |branches| ==> branches[j].body == []
    ensures Render(Conditional(branches, true), lang, scope) == []
  {
    FirstTrueInRange(branches, 0, lang, scope);
  }

  lemma AllPicked(branches: seq<Branch>, merged: seq<ChildNode>, lang: Language, scope: Scope)
    requires merged != [] && forall j :: 0 <= j < |branches| ==> |branches[j].body| == |merged|
    requires EachPicked(branches, merged, lang)
    ensures PlainAll(merged, lang)
    ensures RenderAll(merged, lang, scope) == Render(Conditional(branches, true), lang, scope)
  {
    var k := FirstTrue(branches, 0, lang, scope);
    assert Picked(branches, 0, merged[0], lang) && PickedFrom(branches, 0, merged[0], lang, scope);
    forall i | 0 <= i < |merged| ensures Plain(merged[i], lang) && Render(merged[i], lang, scope) == Render(branches[k.value].body[i], lang, scope) {
      assert Picked(branches, i, merged[i], lang);
      assert PickedFrom(branches, i, merged[i], lang, scope);
    }
    SameShown(merged, branches[k.value].body, lang, scope);
  }

  /** Where anything was merged, every branch but the last had a condition. */
  lemma ElseIsLast(branches: seq<Branch>, n: nat)
    requires branches != [] && n > 0 && (forall j :: 0 <= j < |branches| ==> n <= |branches[j].body|) && MergePositions(branches, n).Ok?
    requires HasElse(branches)
    ensures branches[|branches| - 1].condition.None?
  {
    PositionsMerge(branches, n, 0);
    ConditionsMerge(branches, 0, 0);
  }

  lemma {:induction false} PositionsMerge(branches: seq<Branch>, n: nat, index: nat)
    requires branches != [] && index < n && (forall j :: 0 <= j < |branches| ==> n <= |branches[j].body|) && MergePositions(branches, n).Ok?
    ensures MergePosition(branches, 0, index).Ok?
  {
    if index < n - 1 {
      PositionsMerge(branches, n - 1, index);
    }
  }

  lemma {:induction false} ConditionsMerge(branches: seq<Branch>, k: nat, index: nat)
    requires k < |branches| && (forall j :: 0 <= j < |branches| ==> index < |branches[j].body|) && MergePosition(branches, k, index).Ok?
    ensures forall j :: k <= j < |branches| - 1 ==> branches[j].condition.Some?
    decreases |branches| - k
  {
    hide MergeNode;
    if k < |branches| - 1 {
      ConditionsMerge(branches, k + 1, index);
    }
  }

  // ---------------------------------------------------------------------
  // Dissolving keeps the meaning
  // ---------------------------------------------------------------------

  /** A dissolved list is plain and is shown as the list was, everywhere. */
  lemma {:induction false} DissolvedList(nodes: seq<ChildNode>, lang: Language)
    requires lang.Lawful() && PlainAll(nodes, lang)
    ensures PlainAll(DissolveChildren(nodes), lang)
    ensures forall scope :: RenderAll(DissolveChildren(nodes), lang, scope) == RenderAll(nodes, lang, scope)
    decreases DepthAll(nodes), 2, |nodes|
  {
    if nodes != [] {
      var init, child := nodes[..|nodes| - 1], nodes[|nodes| - 1];
      DepthOfMember(nodes, |nodes| - 1);
      InitIsNoDeeper(nodes);
      DissolvedList(init, lang);
      if Dissolves(child) {
        DissolvedConditional(child, lang);
        forall scope ensures RenderAll(DissolveChildren(nodes), lang, scope) == RenderAll(nodes, lang, scope) {
          MergedBodiesDepth(child.branches);
          RenderAllConcat(DissolveChildren(init), DissolveEach(MergeConditionalBodies(child.branches).value), lang, scope);
        }
      } else {
        DissolvedNode(child, lang);
        forall scope ensures RenderAll(DissolveChildren(nodes), lang, scope) == RenderAll(nodes, lang, scope) {
          RenderAllConcat(DissolveChildren(init), [DissolveChildNode(child)], lang, scope);
          RenderOne(DissolveChildNode(child), lang, scope);
        }
      }
    }
  }

  lemma RenderOne(node: ChildNode, lang: Language, scope: Scope)
    ensures RenderAll([node], lang, scope) == Render(node, lang, scope)
  {
    assert [node][..0] == [];
  }

  lemma {:induction false} DissolvedConditional(child: ChildNode, lang: Language)
    requires lang.Lawful() && Plain(child, lang) && Dissolves(child)
    ensures var each := DissolveEach(MergeConditionalBodies(child.branches).value);
      PlainAll(each, lang) && forall scope :: RenderAll(each, lang, scope) == Render(child, lang, scope)
    decreases Depth(child), 1, 0
  {
    var merged := MergeConditionalBodies(child.branches).value;
    MergedBodiesDepth(child.branches);
    MergedBodies(child.branches, lang, []);
    DissolvedEach(merged, lang);
    forall scope ensures RenderAll(DissolveEach(merged), lang, scope) == Render(child, lang, scope) {
      MergedBodies(child.branches, lang, scope);
    }
  }

  lemma {:induction false} DissolvedEach(nodes: seq<ChildNode>, lang: Language)
    requires lang.Lawful() && PlainAll(nodes, lang)
    ensures PlainAll(DissolveEach(nodes), lang)
    ensures forall scope :: RenderAll(DissolveEach(nodes), lang, scope) == RenderAll(nodes, lang, scope)
    decreases DepthAll(nodes), 2, |nodes|
  {
    if nodes != [] {
      var init, child := nodes[..|nodes| - 1], nodes[|nodes| - 1];
      DepthOfMember(nodes, |nodes| - 1);
      InitIsNoDeeper(nodes);
      DissolvedEach(init, lang);
      DissolvedNode(child, lang);
      forall scope ensures RenderAll(DissolveEach(nodes), lang, scope) == RenderAll(nodes, lang, scope) {
        RenderAllConcat(DissolveEach(init), [DissolveChildNode(child)], lang, scope);
        RenderOne(DissolveChildNode(child), lang, scope);
      }
    }
  }

  lemma {:induction false} DissolvedNode(node: ChildNode, lang: Language)
    requires lang.Lawful() && Plain(node, lang)
    ensures Plain(DissolveChildNode(node), lang)
    ensures forall scope :: Render(DissolveChildNode(node), lang, scope) == Render(node, lang, scope)
    decreases Depth(node), 1, 0
  {
    match node
    case Element(_, _, _, children, _) => DissolvedList(children, lang);
    case LabeledBlock(_, children) => DissolvedList(children, lang);
    case Loop(iterable, body) =>
      DissolvedList(body, lang);
      forall scope ensures Render(DissolveChildNode(node), lang, scope) == Render(node, lang, scope) {
        DissolvedItems(iterable, body, DissolveChildren(body), lang, scope, lang.count(scope, iterable));
      }
    case Conditional(branches, isReactive) =>
      DissolvedBranches(branches, lang);
      forall scope ensures Render(DissolveChildNode(node), lang, scope) == Render(node, lang, scope) {
        SameBranches(branches, DissolveBranches(branches), 0, lang, scope);
      }
    case _ =>
  }

  lemma {:induction false} DissolvedItems(iterable: string, a: seq<ChildNode>, b: seq<ChildNode>, lang: Language, scope: Scope, n: nat)
    requires forall s :: RenderAll(b, lang, s) == RenderAll(a, lang, s)
    ensures RenderItems(iterable, b, lang, scope, n) == RenderItems(iterable, a, lang, scope, n)
    decreases n
  {
    if n > 0 {
      DissolvedItems(iterable, a, b, lang, scope, n - 1);
      assert RenderAll(b, lang, scope + [(iterable, n - 1)]) == RenderAll(a, lang, scope + [(iterable, n - 1)]);
    }
  }

  /** The same condition, and a body shown the same everywhere. */
  ghost predicate SameBranch(a: Branch, b: Branch, lang: Language) {
    a.condition == b.condition && forall scope :: RenderAll(b.body, lang, scope) == RenderAll(a.body, lang, scope)
  }

  lemma {:induction false} DissolvedBranches(branches: seq<Branch>, lang: Language)
    requires lang.Lawful() && PlainBranches(branches, lang)
    ensures PlainBranches(DissolveBranches(branches), lang)
    ensures forall k :: 0 <= k < |branches| ==> SameBranch(branches[k], DissolveBranches(branches)[k], lang)
    decreases DepthBranches(branches) + 1, 0, |branches|
  {
    if branches != [] {
      var init, last := branches[..|branches| - 1], branches[|branches| - 1];
      DepthOfBranch(branches, |branches| - 1);
      DissolvedBranches(init, lang);
      DissolvedList(last.body, lang);
      assert SameBranch(last, DissolveBranches(branches)[|branches| - 1], lang);
      forall k | 0 <= k < |branches| - 1 ensures DissolveBranches(branches)[k] == DissolveBranches(init)[k] && branches[k] == init[k] {
      }
    }
  }

  /** Both conditionals take the same branch, and show it the same. */
  lemma {:induction false} SameBranches(a: seq<Branch>, b: seq<Branch>, k: nat, lang: Language, scope: Scope)
    requires |a| == |b| && k <= |a| && forall j :: 0 <= j < |a| ==> SameBranch(a[j], b[j], lang)
    ensures FirstTrue(a, k, lang, scope) == FirstTrue(b, k, lang, scope)
    ensures k == 0 ==> Render(Conditional(a, true), lang, scope) == Render(Conditional(b, true), lang, scope)
    ensures k == 0 ==> Render(Conditional(a, false), lang, scope) == Render(Conditional(b, false), lang, scope)
    decreases |a| - k
  {
    if k < |a| {
      assert SameBranch(a[k], b[k], lang);
      SameBranches(a, b, k + 1, lang, scope);
    }
    FirstTrueInRange(a, k, lang, scope);
    var j := FirstTrue(a, k, lang, scope);
    if j.Some? {
      assert SameBranch(a[j.value], b[j.value], lang);
    }
  }

  /** Dissolving a tree changes nothing of what it shows, whatever the values of its
      texts, and every value still lists what it depends on. */
  lemma DissolutionPreservesMeaning(nodes: seq<ChildNode>, lang: Language, scope: Scope)
    requires lang.Lawful() && PlainAll(nodes, lang)
    ensures RenderAll(DissolveChildren(nodes), lang, scope) == RenderAll(nodes, lang, scope)
    ensures PlainAll(DissolveChildren(nodes), lang)
  {
    DissolvedList(nodes, lang);
  }
}
