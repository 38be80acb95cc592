/** Merging the branches of a conditional into one body
    (experimental/compiler/src/ir.ts, `mergeContentValue`, `mergeNode`,
    `mergeConditionalBodies`). */
module Merging {
  import opened Prelude

  datatype BindingTime = LiteralTime | RenderTime | ReactiveTime

  /** A value: its source text, when it is known, and what it depends on. */
  datatype ContentValue = ContentValue(source: string, time: BindingTime, deps: seq<string>)
  {
    predicate Liftable() {
      time.LiteralTime? || time.RenderTime?
    }
  }

  datatype AttributeNode = AttributeNode(name: string, value: ContentValue)

  datatype ChildNode =
    | Element(tag: string, attributes: seq<AttributeNode>, handlers: seq<string>, children: seq<ChildNode>, isComponent: bool)
    | Content(value: ContentValue)
    | Statement(source: string)
    | Loop(iterable: string, body: seq<ChildNode>)
    | Conditional(branches: seq<Branch>, isReactive: bool)
    | Binding(name: string, value: ContentValue)
    | LabeledBlock(label_: string, children: seq<ChildNode>)

  /** An else branch has no condition. */
  datatype Branch = Branch(condition: Option<ContentValue>, body: seq<ChildNode>)

  datatype Reason =
    | IncompatibleBindingTimes
    | DifferentKinds
    | DifferentStatementSources
    | DifferentTags
    | DifferentChildCounts(aCount: nat, bCount: nat)
    | DifferentAttributeSets
    | DifferentEventHandlers
    | ChildMergeFailed(index: nat, reason: Reason)
    | RegionNotMergeable

  // ---------------------------------------------------------------------
  // Values
  // ---------------------------------------------------------------------

  function Ternary(condition: string, whenTrue: string, whenFalse: string): string {
    condition + " ? " + whenTrue + " : " + whenFalse
  }

  function Parens(s: string): string {
    "(" + s + ")"
  }

  /** The dependencies of both, without repeating. */
  function JoinDeps(a: seq<string>, b: seq<string>): seq<string> {
    a + Missing(a, b)
  }

  function Missing(a: seq<string>, b: seq<string>): seq<string> {
    if b == [] then []
    else Missing(a, b[..|b| - 1]) + (if b[|b| - 1] in a then [] else [b[|b| - 1]])
  }

  function MergeContentValue(a: ContentValue, b: ContentValue, condition: ContentValue): Result<ContentValue, Reason> {
    if a == b then Ok(a)
    else if a.Liftable() && b.Liftable() then
      Ok(ContentValue(Ternary(condition.source, a.source, b.source), ReactiveTime, condition.deps))
    else if a.Liftable() && b.time.ReactiveTime? then
      Ok(ContentValue(Ternary(condition.source, a.source, Parens(b.source)), ReactiveTime, JoinDeps(condition.deps, b.deps)))
    else if a.time.ReactiveTime? && b.Liftable() then
      Ok(ContentValue(Ternary(condition.source, Parens(a.source), b.source), ReactiveTime, JoinDeps(condition.deps, a.deps)))
    else Err(IncompatibleBindingTimes)
  }

  // ---------------------------------------------------------------------
  // Attributes
  // ---------------------------------------------------------------------

  /** By code unit, as strings are sorted by default. */
  predicate StringBefore(s: string, t: string) {
    if s == [] then true
    else if t == [] then false
    else if s[0] != t[0] then s[0] < t[0]
    else StringBefore(s[1..], t[1..])
  }

  function InsertName(names: seq<string>, name: string): seq<string> {
    if names == [] then [name]
    else if StringBefore(name, names[0]) then [name] + names
    else [names[0]] + InsertName(names[1..], name)
  }

  function SortNames(names: seq<string>): seq<string> {
    if names == [] then [] else InsertName(SortNames(names[..|names| - 1]), names[|names| - 1])
  }

  function Names(attrs: seq<AttributeNode>): seq<string> {
    seq(|attrs|, i requires 0 <= i < |attrs| => attrs[i].name)
  }

  lemma {:induction false} InsertNamePermutes(names: seq<string>, name: string)
    ensures multiset(InsertName(names, name)) == multiset(names) + multiset{name}
    ensures |InsertName(names, name)| == |names| + 1
  {
    if names != [] && !StringBefore(name, names[0]) {
      InsertNamePermutes(names[1..], name);
      assert names == [names[0]] + names[1..];
    }
  }

  lemma {:induction false} SortNamesPermutes(names: seq<string>)
    ensures multiset(SortNames(names)) == multiset(names)
    ensures |SortNames(names)| == |names|
    ensures forall n :: n in SortNames(names) <==> n in names
  {
    if names != [] {
      SortNamesPermutes(names[..|names| - 1]);
      InsertNamePermutes(SortNames(names[..|names| - 1]), names[|names| - 1]);
      assert names == names[..|names| - 1] + [names[|names| - 1]];
    }
    forall n ensures n in SortNames(names) <==> n in names {
      assert n in SortNames(names) <==> n in multiset(SortNames(names));
    }
  }

  /** The first attribute of a name. */
  function FindAttribute(attrs: seq<AttributeNode>, name: string): (r: Option<AttributeNode>)
    ensures r.None? <==> name !in Names(attrs)
    ensures r.Some? ==> r.value in attrs && r.value.name == name
  {
    if attrs == [] then None
    else if attrs[0].name == name then
      assert Names(attrs)[0] == name;
      Some(attrs[0])
    else
      assert Names(attrs) == [attrs[0].name] + Names(attrs[1..]);
      FindAttribute(attrs[1..], name)
  }

  /** The first `n` of the sorted names, each with its two values merged. */
  function MergeAttributes(a: seq<AttributeNode>, b: seq<AttributeNode>, names: seq<string>, n: nat, condition: ContentValue)
    : (r: Result<seq<AttributeNode>, Reason>)
    requires n <= |names|
    ensures r.Ok? ==> |r.value| == n
  {
    if n == 0 then Ok([])
    else match MergeAttributes(a, b, names, n - 1, condition)
      case Err(reason) => Err(reason)
      case Ok(before) =>
        var x, y := FindAttribute(a, names[n - 1]), FindAttribute(b, names[n - 1]);
        if x.None? || y.None? then Err(DifferentAttributeSets)
        else match MergeContentValue(x.value.value, y.value.value, condition)
          case Err(reason) => Err(reason)
          case Ok(value) => Ok(before + [AttributeNode(x.value.name, value)])
  }

  // ---------------------------------------------------------------------
  // Nodes
  // ---------------------------------------------------------------------

  predicate SameKind(a: ChildNode, b: ChildNode) {
    (a.Element? && b.Element?) || (a.Content? && b.Content?) || (a.Statement? && b.Statement?) || (a.Loop? && b.Loop?)
    || (a.Conditional? && b.Conditional?) || (a.Binding? && b.Binding?) || (a.LabeledBlock? && b.LabeledBlock?)
  }

  function MergeNode(a: ChildNode, b: ChildNode, condition: ContentValue): Result<ChildNode, Reason>
    decreases a, 0
  {
    if !SameKind(a, b) then Err(DifferentKinds)
    else if a.Content? then
      match MergeContentValue(a.value, b.value, condition)
      case Ok(value) => Ok(Content(value))
      case Err(reason) => Err(reason)
    else if a.Statement? then
      if a.source == b.source then Ok(a) else Err(DifferentStatementSources)
    else if a.Element? then
      if a.tag != b.tag then Err(DifferentTags)
      else if |a.children| != |b.children| then Err(DifferentChildCounts(|a.children|, |b.children|))
      else if SortNames(Names(a.attributes)) != SortNames(Names(b.attributes)) then Err(DifferentAttributeSets)
      else if SortNames(a.handlers) != SortNames(b.handlers) then Err(DifferentEventHandlers)
      else
        var names := SortNames(Names(a.attributes));
        match MergeAttributes(a.attributes, b.attributes, names, |names|, condition)
        case Err(reason) => Err(reason)
        case Ok(attrs) =>
          match MergeChildren(a, b, |a.children|, condition)
          case Err(reason) => Err(reason)
          case Ok(children) => Ok(Element(a.tag, attrs, a.handlers, children, false))
    else Err(RegionNotMergeable)
  }

  function MergeChildren(a: ChildNode, b: ChildNode, n: nat, condition: ContentValue): (r: Result<seq<ChildNode>, Reason>)
    requires a.Element? && b.Element? && n <= |a.children| == |b.children|
    ensures r.Ok? ==> |r.value| == n
    decreases a, 0, n
  {
    if n == 0 then Ok([])
    else match MergeChildren(a, b, n - 1, condition)
      case Err(reason) => Err(reason)
      case Ok(before) =>
        match MergeNode(a.children[n - 1], b.children[n - 1], condition)
        case Err(reason) => Err(ChildMergeFailed(n - 1, reason))
        case Ok(child) => Ok(before + [child])
  }

  /** The nodes at one position of the branches from `k` on, merged from the last
      branch back. */
  function MergePosition(branches: seq<Branch>, k: nat, index: nat): Result<ChildNode, Reason>
    requires k < |branches| && forall j :: 0 <= j < |branches| ==> index < |branches[j].body|
    decreases |branches| - k
  {
    if k == |branches| - 1 then Ok(branches[k].body[index])
    else match MergePosition(branches, k + 1, index)
      case Err(reason) => Err(reason)
      case Ok(current) =>
        if branches[k].condition.None? then Err(RegionNotMergeable)
        else MergeNode(branches[k].body[index], current, branches[k].condition.value)
  }

  function MergePositions(branches: seq<Branch>, n: nat): (r: Result<seq<ChildNode>, Reason>)
    requires branches != [] && forall j :: 0 <= j < |branches| ==> n <= |branches[j].body|
    ensures r.Ok? ==> |r.value| == n
  {
    if n == 0 then Ok([])
    else match MergePositions(branches, n - 1)
      case Err(reason) => Err(reason)
      case Ok(before) =>
        match MergePosition(branches, 0, n - 1)
        case Err(reason) => Err(reason)
        case Ok(node) => Ok(before + [node])
  }

  /** The first branch whose body has another length than the first one's. */
  function OddBranch(branches: seq<Branch>, i: nat): Option<nat>
    requires 0 < i <= |branches|
    decreases |branches| - i
  {
    if i == |branches| then None
    else if |branches[i].body| != |branches[0].body| then Some(i)
    else OddBranch(branches, i + 1)
  }

  lemma {:induction false} OddBranchFinds(branches: seq<Branch>, i: nat)
    requires 0 < i <= |branches|
    ensures OddBranch(branches, i).None? <==> forall j :: i <= j < |branches| ==> |branches[j].body| == |branches[0].body|
    ensures OddBranch(branches, i).Some? ==> OddBranch(branches, i).value < |branches|
    decreases |branches| - i
  {
    if i < |branches| && |branches[i].body| == |branches[0].body| {
      OddBranchFinds(branches, i + 1);
    }
  }

  /** All branches as one body, if they are alike. */
  function MergeConditionalBodies(branches: seq<Branch>): Result<seq<ChildNode>, Reason> {
    if |branches| < 2 then Err(RegionNotMergeable)
    else
      OddBranchFinds(branches, 1);
      var odd := OddBranch(branches, 1);
      if odd.Some? then Err(DifferentChildCounts(|branches[0].body|, |branches[odd.value].body|))
      else if |branches| == 2 && branches[0].condition.None? then Err(RegionNotMergeable)
      else MergePositions(branches, |branches[0].body|)
  }

  /** The loops over branches and positions. With two branches the condition is
      looked at before any body; with more, position by position, from the last
      branch back. */
  method MergeBodies(branches: seq<Branch>) returns (result: Result<seq<ChildNode>, Reason>)
    ensures result == MergeConditionalBodies(branches)
  {
    if |branches| < 2 {
      return Err(RegionNotMergeable);
    }
    OddBranchFinds(branches, 1);
    var bodyLength := |branches[0].body|;
    for i := 1 to |branches|
      invariant OddBranch(branches, 1) == OddBranch(branches, i)
    {
      if |branches[i].body| != bodyLength {
        return Err(DifferentChildCounts(bodyLength, |branches[i].body|));
      }
    }
    if |branches| == 2 && branches[0].condition.None? {
      return Err(RegionNotMergeable);
    }
    var mergedBody: seq<ChildNode> := [];
    for nodeIndex := 0 to bodyLength
      invariant MergePositions(branches, nodeIndex) == Ok(mergedBody)
    {
      var current := branches[|branches| - 1].body[nodeIndex];
      var branchIndex := |branches| - 1;
      while branchIndex > 0
        invariant 0 <= branchIndex < |branches|
        invariant MergePosition(branches, branchIndex, nodeIndex) == Ok(current)
      {
        branchIndex := branchIndex - 1;
        var branch := branches[branchIndex];
        if branch.condition.None? {
          MergeFails(branches, branchIndex, nodeIndex, bodyLength);
          return Err(RegionNotMergeable);
        }
        var merged := MergeNode(branch.body[nodeIndex], current, branch.condition.value);
        if merged.Err? {
          MergeFails(branches, branchIndex, nodeIndex, bodyLength);
          return Err(merged.error);
        }
        current := merged.value;
      }
      mergedBody := mergedBody + [current];
    }
    return Ok(mergedBody);
  }

  /** A failure at one position is the failure of the whole. */
  lemma MergeFails(branches: seq<Branch>, k: nat, index: nat, n: nat)
    requires k < |branches| && index < n && forall j :: 0 <= j < |branches| ==> n <= |branches[j].body|
    requires MergePositions(branches, index).Ok? && MergePosition(branches, k, index).Err?
    ensures MergePositions(branches, n) == Err(MergePosition(branches, k, index).error)
  {
    PositionFails(branches, k, index);
    PositionsFail(branches, index + 1, n);
  }

  lemma {:induction false} PositionFails(branches: seq<Branch>, k: nat, index: nat)
    requires k < |branches| && (forall j :: 0 <= j < |branches| ==> index < |branches[j].body|) && MergePosition(branches, k, index).Err?
    ensures MergePosition(branches, 0, index) == Err(MergePosition(branches, k, index).error)
    decreases k
  {
    if k > 0 {
      PositionFails(branches, k - 1, index);
    }
  }

  lemma {:induction false} PositionsFail(branches: seq<Branch>, m: nat, n: nat)
    requires branches != [] && m <= n && (forall j :: 0 <= j < |branches| ==> n <= |branches[j].body|) && MergePositions(branches, m).Err?
    ensures MergePositions(branches, n) == Err(MergePositions(branches, m).error)
    decreases n - m
  {
    if m < n {
      PositionsFail(branches, m + 1, n);
    }
  }
}
