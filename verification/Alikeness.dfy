/** When the branches of a conditional are alike: the condition under which merging
    succeeds, said of the branches themselves
    (experimental/compiler/src/ir.ts, `mergeNode`, `mergeConditionalBodies`). */
module Alikeness {
  import opened Prelude
  import opened Merging

  // ---------------------------------------------------------------------
  // Sorted names
  // ---------------------------------------------------------------------

  ghost predicate SortedNames(names: seq<string>) {
    forall i, j :: 0 <= i < j < |names| ==> StringBefore(names[i], names[j])
  }

  lemma {:induction false} StringBeforeIsOrder(s: string, t: string)
    ensures StringBefore(s, s)
    ensures StringBefore(s, t) || StringBefore(t, s)
    ensures StringBefore(s, t) && StringBefore(t, s) ==> s == t
  {
    if s != [] && t != [] {
      StringBeforeIsOrder(s[1..], t[1..]);
      assert s == [s[0]] + s[1..] && t == [t[0]] + t[1..];
    } else if s != [] {
      StringBeforeIsOrder(s[1..], []);
    }
  }

  lemma {:induction false} StringBeforeTransitive(s: string, t: string, u: string)
    requires StringBefore(s, t) && StringBefore(t, u)
    ensures StringBefore(s, u)
  {
    if s != [] && t != [] && u != [] && s[0] == t[0] == u[0] {
      StringBeforeTransitive(s[1..], t[1..], u[1..]);
    }
  }

  lemma {:induction false} InsertNameSorted(names: seq<string>, name: string)
    requires SortedNames(names)
    ensures SortedNames(InsertName(names, name))
  {
    if names == [] {
    } else if StringBefore(name, names[0]) {
      forall j | 0 <= j < |names| ensures StringBefore(name, names[j]) {
        if j > 0 {
          StringBeforeTransitive(name, names[0], names[j]);
        }
      }
    } else {
      InsertNameSorted(names[1..], name);
      InsertNamePermutes(names[1..], name);
      StringBeforeIsOrder(name, names[0]);
      var rest := InsertName(names[1..], name);
      forall j | 0 <= j < |rest| ensures StringBefore(names[0], rest[j]) {
        assert rest[j] in multiset(rest);
        assert rest[j] == name || rest[j] in names[1..];
      }
    }
  }

  lemma {:induction false} SortNamesSorted(names: seq<string>)
    ensures SortedNames(SortNames(names))
  {
    if names != [] {
      SortNamesSorted(names[..|names| - 1]);
      InsertNameSorted(SortNames(names[..|names| - 1]), names[|names| - 1]);
    }
  }

  lemma {:induction false} SortedOnce(a: seq<string>, b: seq<string>)
    requires SortedNames(a) && SortedNames(b) && multiset(a) == multiset(b)
    ensures a == b
  {
    if a != [] && b != [] {
      FirstIsLeast(a, b);
      assert a == [a[0]] + a[1..] && b == [b[0]] + b[1..];
      assert multiset(a[1..]) == multiset(a) - multiset{a[0]};
      assert multiset(b[1..]) == multiset(b) - multiset{b[0]};
      SortedOnce(a[1..], b[1..]);
    } else {
      assert |multiset(a)| == |a| && |multiset(b)| == |b|;
    }
  }

  lemma FirstIsLeast(a: seq<string>, b: seq<string>)
    requires SortedNames(a) && SortedNames(b) && multiset(a) == multiset(b) && a != [] && b != []
    ensures a[0] == b[0]
  {
    assert a[0] in multiset(b) && b[0] in multiset(a);
    var i :| 0 <= i < |b| && b[i] == a[0];
    var j :| 0 <= j < |a| && a[j] == b[0];
    StringBeforeIsOrder(a[0], b[0]);
  }

  /** Sorted, two lists of names are one exactly when they hold the same names. */
  lemma SortedSame(a: seq<string>, b: seq<string>)
    ensures SortNames(a) == SortNames(b) <==> multiset(a) == multiset(b)
  {
    SortNamesPermutes(a);
    SortNamesPermutes(b);
    SortNamesSorted(a);
    SortNamesSorted(b);
    if multiset(a) == multiset(b) {
      SortedOnce(SortNames(a), SortNames(b));
    }
  }

  // ---------------------------------------------------------------------
  // Values
  // ---------------------------------------------------------------------

  ghost predicate AllSame(vs: seq<ContentValue>) {
    forall i :: 0 <= i < |vs| ==> vs[i] == vs[0]
  }

  /** A value that changes on its own is set off by parentheses. */
  function InTernary(v: ContentValue): string {
    if v.time.ReactiveTime? then Parens(v.source) else v.source
  }

  function OwnDeps(v: ContentValue): seq<string> {
    if v.time.ReactiveTime? then v.deps else []
  }

  /** What values at one position come to, each under its condition but the last:
      themselves if they are all the same, else a conditional text over the rest. */
  ghost function Choice(conds: seq<ContentValue>, vs: seq<ContentValue>): ContentValue
    requires |vs| == |conds| + 1
    decreases |vs|
  {
    if AllSame(vs) then vs[0]
    else
      var rest := Choice(conds[1..], vs[1..]);
      if rest == vs[0] then rest
      else ContentValue(Ternary(conds[0].source, InTernary(vs[0]), InTernary(rest)), ReactiveTime, JoinDeps(conds[0].deps, OwnDeps(vs[0]) + OwnDeps(rest)))
  }

  /** A value can go before others when one of the two sides does not change on its
      own, or when they come to the same. */
  ghost predicate GoesBefore(v: ContentValue, conds: seq<ContentValue>, vs: seq<ContentValue>)
    requires |vs| == |conds| + 1
  {
    v.Liftable() || (AllSame(vs) && vs[0].Liftable()) || v == Choice(conds, vs)
  }

  ghost predicate ValuesAlike(conds: seq<ContentValue>, vs: seq<ContentValue>) {
    |vs| == |conds| + 1 && forall i :: 0 <= i < |conds| ==> GoesBefore(vs[i], conds[i + 1..], vs[i + 1..])
  }

  lemma {:induction false} MixedIsReactive(conds: seq<ContentValue>, vs: seq<ContentValue>)
    requires |vs| == |conds| + 1
    ensures !AllSame(vs) ==> Choice(conds, vs).time.ReactiveTime?
    decreases |vs|
  {
    if !AllSame(vs) {
      MixedIsReactive(conds[1..], vs[1..]);
    }
  }

  /** One value more, in front. */
  lemma ValueInFront(c: ContentValue, v: ContentValue, conds: seq<ContentValue>, vs: seq<ContentValue>)
    requires ValuesAlike(conds, vs)
    ensures MergeContentValue(v, Choice(conds, vs), c).Ok? <==> ValuesAlike([c] + conds, [v] + vs)
    ensures MergeContentValue(v, Choice(conds, vs), c).Ok? ==> MergeContentValue(v, Choice(conds, vs), c).value == Choice([c] + conds, [v] + vs)
  {
    var cs, ws, r := [c] + conds, [v] + vs, Choice(conds, vs);
    assert cs[1..] == conds && ws[1..] == vs;
    MixedIsReactive(conds, vs);
    assert GoesBefore(v, conds, vs) <==> GoesBefore(ws[0], cs[1..], ws[1..]);
    forall i | 0 <= i < |conds| ensures GoesBefore(vs[i], conds[i + 1..], vs[i + 1..]) <==> GoesBefore(ws[i + 1], cs[i + 2..], ws[i + 2..]) {
      assert cs[i + 2..] == conds[i + 1..] && ws[i + 2..] == vs[i + 1..];
    }
    AlikeInFront(c, v, conds, vs);
    assert AllSame(ws) <==> AllSame(vs) && v == vs[0] by {
      assert AllSame(ws) ==> ws[1] == ws[0];
      assert forall i :: 0 <= i < |vs| ==> ws[i + 1] == vs[i];
    }
    assert JoinDeps(c.deps, []) == c.deps + Missing(c.deps, []) == c.deps;
    assert v.Liftable() ==> OwnDeps(v) + OwnDeps(r) == OwnDeps(r);
    assert r.Liftable() ==> OwnDeps(v) + OwnDeps(r) == OwnDeps(v);
  }

  lemma AlikeInFront(c: ContentValue, v: ContentValue, conds: seq<ContentValue>, vs: seq<ContentValue>)
    requires ValuesAlike(conds, vs)
    ensures ValuesAlike([c] + conds, [v] + vs) <==> GoesBefore(v, conds, vs)
  {
    var cs, ws := [c] + conds, [v] + vs;
    assert cs[0 + 1..] == conds && ws[0 + 1..] == vs && ws[0] == v;
    forall i | 0 < i < |cs| ensures GoesBefore(ws[i], cs[i + 1..], ws[i + 1..]) {
      assert cs[i + 1..] == conds[i - 1 + 1..] && ws[i + 1..] == vs[i - 1 + 1..] && ws[i] == vs[i - 1];
    }
  }

  // ---------------------------------------------------------------------
  // Nodes
  // ---------------------------------------------------------------------

  const NO_VALUE := ContentValue("", LiteralTime, [])

  /** The value of the first attribute of a name. */
  function ValueAt(node: ChildNode, name: string): ContentValue
    requires node.Element?
  {
    var found := FindAttribute(node.attributes, name);
    if found.Some? then found.value.value else NO_VALUE
  }

  function ValuesAt(ns: seq<ChildNode>, name: string): (vs: seq<ContentValue>)
    requires AllElements(ns)
    ensures |vs| == |ns|
  {
    seq(|ns|, j requires 0 <= j < |ns| => ValueAt(ns[j], name))
  }

  function ContentsOf(ns: seq<ChildNode>): (vs: seq<ContentValue>)
    requires AllContents(ns)
    ensures |vs| == |ns|
  {
    seq(|ns|, j requires 0 <= j < |ns| => ns[j].value)
  }

  predicate AllElements(ns: seq<ChildNode>) {
    forall j :: 0 <= j < |ns| ==> ns[j].Element?
  }

  predicate AllContents(ns: seq<ChildNode>) {
    forall j :: 0 <= j < |ns| ==> ns[j].Content?
  }

  predicate AllStatements(ns: seq<ChildNode>) {
    forall j :: 0 <= j < |ns| ==> ns[j].Statement?
  }

  /** Elements of one tag, with as many children, attributes of the same names, and
      the same handlers. */
  ghost predicate SameShape(a: ChildNode, b: ChildNode)
    requires a.Element? && b.Element?
  {
    && a.tag == b.tag && |a.children| == |b.children|
    && multiset(Names(a.attributes)) == multiset(Names(b.attributes))
    && multiset(a.handlers) == multiset(b.handlers)
  }

  ghost predicate OneShape(ns: seq<ChildNode>)
    requires AllElements(ns)
  {
    forall j :: 0 <= j < |ns| ==> SameShape(ns[0], ns[j])
  }

  /** The children at one position. */
  function Column(ns: seq<ChildNode>, i: nat): (column: seq<ChildNode>)
    requires AllElements(ns) && forall j :: 0 <= j < |ns| ==> i < |ns[j].children|
    ensures |column| == |ns|
  {
    seq(|ns|, j requires 0 <= j < |ns| => ns[j].children[i])
  }

  /** Nodes are alike when there is only one, or all are contents with values that
      are alike, or statements of one source, or elements of one shape with alike
      values at each attribute and alike children at each position. */
  ghost predicate NodesAlike(conds: seq<ContentValue>, ns: seq<ChildNode>)
    requires |ns| == |conds| + 1
    decreases ns[0]
  {
    || |ns| == 1
    || (AllContents(ns) && ValuesAlike(conds, ContentsOf(ns)))
    || (AllStatements(ns) && forall j :: 0 <= j < |ns| ==> ns[j] == ns[0])
    || (AllElements(ns) && OneShape(ns)
        && (forall name :: name in Names(ns[0].attributes) ==> ValuesAlike(conds, ValuesAt(ns, name)))
        && (forall i :: 0 <= i < |ns[0].children| ==> NodesAlike(conds, Column(ns, i))))
  }

  /** `r` is what the nodes come to. */
  ghost predicate ComeTo(conds: seq<ContentValue>, ns: seq<ChildNode>, r: ChildNode)
    requires |ns| == |conds| + 1
    decreases ns[0]
  {
    if |ns| == 1 then r == ns[0]
    else if AllContents(ns) then r == Content(Choice(conds, ContentsOf(ns)))
    else if AllStatements(ns) then r == ns[0]
    else
      && AllElements(ns) && OneShape(ns) && r.Element? && SameShape(ns[0], r) && r.handlers == ns[0].handlers && !r.isComponent
      && (forall name :: name in Names(ns[0].attributes) ==> ValueAt(r, name) == Choice(conds, ValuesAt(ns, name)))
      && (forall i :: 0 <= i < |ns[0].children| ==> ComeTo(conds, Column(ns, i), r.children[i]))
  }

  // ---------------------------------------------------------------------
  // Merging succeeds exactly on alike nodes
  // ---------------------------------------------------------------------

  /** What alike nodes come to has their shape, their values and their children. */
  lemma ComeToElement(conds: seq<ContentValue>, ns: seq<ChildNode>, r: ChildNode)
    requires |ns| == |conds| + 1 && NodesAlike(conds, ns) && ComeTo(conds, ns, r) && r.Element?
    ensures AllElements(ns) && OneShape(ns) && SameShape(ns[0], r)
    ensures forall name :: name in Names(ns[0].attributes) ==>
      ValuesAlike(conds, ValuesAt(ns, name)) && ValueAt(r, name) == Choice(conds, ValuesAt(ns, name))
    ensures forall i :: 0 <= i < |ns[0].children| ==>
      NodesAlike(conds, Column(ns, i)) && ComeTo(conds, Column(ns, i), r.children[i])
  {
    hide ValuesAlike, Choice, ValueAt, Names;
    if |ns| == 1 {
      AloneElement(conds, ns, r);
    } else {
      assert !AllContents(ns) && !AllStatements(ns);
    }
  }

  lemma AloneElement(conds: seq<ContentValue>, ns: seq<ChildNode>, r: ChildNode)
    requires |ns| == 1 && conds == [] && ns[0] == r && r.Element?
    ensures AllElements(ns) && OneShape(ns) && SameShape(ns[0], r)
    ensures forall name :: name in Names(r.attributes) ==> ValuesAlike(conds, ValuesAt(ns, name)) && ValueAt(r, name) == Choice(conds, ValuesAt(ns, name))
    ensures forall i :: 0 <= i < |r.children| ==> NodesAlike(conds, Column(ns, i)) && ComeTo(conds, Column(ns, i), r.children[i])
  {
    hide ValueAt, Names;
    forall name ensures ValueAt(r, name) == Choice(conds, ValuesAt(ns, name)) {
      assert AllSame(ValuesAt(ns, name));
    }
  }

  lemma AloneContent(conds: seq<ContentValue>, ns: seq<ChildNode>, r: ChildNode)
    requires |ns| == 1 && conds == [] && ns[0] == r && r.Content?
    ensures AllContents(ns) && ValuesAlike(conds, ContentsOf(ns)) && r.value == Choice(conds, ContentsOf(ns))
  {
    assert AllSame(ContentsOf(ns));
  }

  /** The kind of what nodes come to is theirs. */
  lemma ComeToKind(conds: seq<ContentValue>, ns: seq<ChildNode>, r: ChildNode)
    requires |ns| == |conds| + 1 && NodesAlike(conds, ns) && ComeTo(conds, ns, r)
    ensures r.Content? <==> AllContents(ns)
    ensures r.Statement? <==> AllStatements(ns)
    ensures r.Element? <==> AllElements(ns)
    ensures r.Content? ==> ValuesAlike(conds, ContentsOf(ns)) && r.value == Choice(conds, ContentsOf(ns))
    ensures r.Statement? ==> r == ns[0] && forall j :: 0 <= j < |ns| ==> ns[j] == ns[0]
  {
    hide ValuesAlike, SameShape, ValueAt, Names;
    assert ns[0] in ns;
    if |ns| == 1 && r.Content? {
      AloneContent(conds, ns, r);
    }
  }

  lemma {:induction false} MergesAttributes(a: ChildNode, b: ChildNode, names: seq<string>, n: nat, c: ContentValue)
    requires a.Element? && b.Element? && n <= |names|
    requires forall i :: 0 <= i < |names| ==> names[i] in Names(a.attributes) && names[i] in Names(b.attributes)
    ensures MergeAttributes(a.attributes, b.attributes, names, n, c).Ok?
      <==> forall i :: 0 <= i < n ==> MergeContentValue(ValueAt(a, names[i]), ValueAt(b, names[i]), c).Ok?
    ensures MergeAttributes(a.attributes, b.attributes, names, n, c).Ok? ==>
      forall i :: 0 <= i < n ==>
        && MergeAttributes(a.attributes, b.attributes, names, n, c).value[i].name == names[i]
        && MergeContentValue(ValueAt(a, names[i]), ValueAt(b, names[i]), c)
           == Ok(MergeAttributes(a.attributes, b.attributes, names, n, c).value[i].value)
  {
    hide Names, MergeContentValue, FindAttribute;
    if n > 0 {
      MergesAttributes(a, b, names, n - 1, c);
    }
  }

  lemma {:induction false} MergesChildren(a: ChildNode, b: ChildNode, n: nat, c: ContentValue)
    requires a.Element? && b.Element? && n <= |a.children| == |b.children|
    ensures MergeChildren(a, b, n, c).Ok? <==> forall i :: 0 <= i < n ==> MergeNode(a.children[i], b.children[i], c).Ok?
    ensures MergeChildren(a, b, n, c).Ok? ==>
      forall i :: 0 <= i < n ==> MergeNode(a.children[i], b.children[i], c) == Ok(MergeChildren(a, b, n, c).value[i])
  {
    hide MergeNode;
    if n > 0 {
      MergesChildren(a, b, n - 1, c);
    }
  }

  /** The first attribute of a name, among attributes listed with their names. */
  lemma {:induction false} FindsListed(attrs: seq<AttributeNode>, name: string, v: ContentValue)
    requires name in Names(attrs) && forall i :: 0 <= i < |attrs| && attrs[i].name == name ==> attrs[i].value == v
    ensures FindAttribute(attrs, name).Some? && FindAttribute(attrs, name).value.value == v
  {
    assert FindAttribute(attrs, name).value in attrs;
  }

  /** Two elements merge when they have one shape and their values and their
      children merge. */
  lemma MergesElements(a: ChildNode, b: ChildNode, c: ContentValue)
    requires a.Element? && b.Element?
    ensures MergeNode(a, b, c).Ok? <==>
      && SameShape(a, b)
      && (forall name :: name in Names(a.attributes) ==> MergeContentValue(ValueAt(a, name), ValueAt(b, name), c).Ok?)
      && (forall i :: 0 <= i < |a.children| ==> MergeNode(a.children[i], b.children[i], c).Ok?)
    ensures MergeNode(a, b, c).Ok? ==> MergedShape(a, b, c, MergeNode(a, b, c).value)
  {
    var names := SortNames(Names(a.attributes));
    SortedSame(Names(a.attributes), Names(b.attributes));
    SortedSame(a.handlers, b.handlers);
    SortNamesPermutes(Names(a.attributes));
    SortNamesPermutes(Names(b.attributes));
    if SameShape(a, b) {
      NamesOf(names, a, b);
      MergesAttributes(a, b, names, |names|, c);
      MergesChildren(a, b, |a.children|, c);
      assert (forall name :: name in Names(a.attributes) ==> MergeContentValue(ValueAt(a, name), ValueAt(b, name), c).Ok?)
        <==> forall i :: 0 <= i < |names| ==> MergeContentValue(ValueAt(a, names[i]), ValueAt(b, names[i]), c).Ok?;
      if MergeNode(a, b, c).Ok? {
        MergedHasShape(a, b, c, names);
      }
    }
  }

  /** A merged element: the shape and handlers of the first, each value and each
      child merged. */
  ghost predicate MergedShape(a: ChildNode, b: ChildNode, c: ContentValue, r: ChildNode)
    requires a.Element? && b.Element?
  {
    && r.Element? && SameShape(a, r) && SameShape(a, b) && r.handlers == a.handlers && !r.isComponent
    && (forall name :: name in Names(a.attributes) ==> MergeContentValue(ValueAt(a, name), ValueAt(b, name), c) == Ok(ValueAt(r, name)))
    && (forall i :: 0 <= i < |a.children| ==> MergeNode(a.children[i], b.children[i], c) == Ok(r.children[i]))
  }

  lemma NamesOf(names: seq<string>, a: ChildNode, b: ChildNode)
    requires a.Element? && b.Element? && multiset(Names(a.attributes)) == multiset(Names(b.attributes)) == multiset(names)
    ensures forall n :: n in names <==> n in Names(a.attributes)
    ensures forall n :: n in names <==> n in Names(b.attributes)
  {
    forall n ensures (n in names <==> n in Names(a.attributes)) && (n in names <==> n in Names(b.attributes)) {
      assert n in names <==> n in multiset(names);
      assert n in Names(a.attributes) <==> n in multiset(Names(a.attributes));
      assert n in Names(b.attributes) <==> n in multiset(Names(b.attributes));
    }
  }

  lemma MergedHasShape(a: ChildNode, b: ChildNode, c: ContentValue, names: seq<string>)
    requires a.Element? && b.Element? && SameShape(a, b) && names == SortNames(Names(a.attributes)) && MergeNode(a, b, c).Ok?
    requires multiset(names) == multiset(Names(a.attributes))
    ensures MergedShape(a, b, c, MergeNode(a, b, c).value)
  {
    var r := MergeNode(a, b, c).value;
    NamesOf(names, a, b);
    MergesAttributes(a, b, names, |names|, c);
    MergesChildren(a, b, |a.children|, c);
    assert Names(r.attributes) == names;
    forall name | name in Names(a.attributes) ensures MergeContentValue(ValueAt(a, name), ValueAt(b, name), c) == Ok(ValueAt(r, name)) {
      FindsListed(r.attributes, name, MergeContentValue(ValueAt(a, name), ValueAt(b, name), c).value);
    }
  }

  /** One node more, in front: it merges with what the others come to exactly when
      all are alike. */
  lemma {:induction false} NodeInFront(c: ContentValue, a: ChildNode, conds: seq<ContentValue>, ns: seq<ChildNode>, r: ChildNode)
    requires |ns| == |conds| + 1 && NodesAlike(conds, ns) && ComeTo(conds, ns, r)
    ensures MergeNode(a, r, c).Ok? <==> NodesAlike([c] + conds, [a] + ns)
    ensures MergeNode(a, r, c).Ok? ==> ComeTo([c] + conds, [a] + ns, MergeNode(a, r, c).value)
    decreases a
  {
    hide MergeNode, NodesAlike, ComeTo;
    ComeToKind(conds, ns, r);
    if a.Content? && r.Content? {
      ContentInFront(c, a, conds, ns, r);
    } else if a.Statement? && r.Statement? {
      StatementInFront(c, a, conds, ns, r);
    } else if a.Element? && r.Element? {
      ElementInFront(c, a, conds, ns, r);
    } else {
      OtherInFront(c, a, conds, ns, r);
    }
  }

  lemma ContentInFront(c: ContentValue, a: ChildNode, conds: seq<ContentValue>, ns: seq<ChildNode>, r: ChildNode)
    requires |ns| == |conds| + 1 && a.Content? && AllContents(ns) && r == Content(Choice(conds, ContentsOf(ns))) && ValuesAlike(conds, ContentsOf(ns))
    ensures MergeNode(a, r, c).Ok? <==> NodesAlike([c] + conds, [a] + ns)
    ensures MergeNode(a, r, c).Ok? ==> ComeTo([c] + conds, [a] + ns, MergeNode(a, r, c).value)
  {
    hide MergeContentValue, Choice, ValuesAlike;
    var all := [a] + ns;
    KindsInFront(a, ns);
    ValueInFront(c, a.value, conds, ContentsOf(ns));
    assert ContentsOf(all) == [a.value] + ContentsOf(ns);
    assert all[0].Content?;
  }

  lemma StatementInFront(c: ContentValue, a: ChildNode, conds: seq<ContentValue>, ns: seq<ChildNode>, r: ChildNode)
    requires |ns| == |conds| + 1 && a.Statement? && AllStatements(ns) && r == ns[0] && forall j :: 0 <= j < |ns| ==> ns[j] == ns[0]
    ensures MergeNode(a, r, c).Ok? <==> NodesAlike([c] + conds, [a] + ns)
    ensures MergeNode(a, r, c).Ok? ==> ComeTo([c] + conds, [a] + ns, MergeNode(a, r, c).value)
  {
    hide ValuesAlike, Choice;
    var all := [a] + ns;
    KindsInFront(a, ns);
    assert all[0] == a && all[1] == r && forall j :: 0 < j < |all| ==> all[j] == ns[j - 1];
  }

  /** Nodes of two kinds, or of a kind that does not merge. */
  lemma OtherInFront(c: ContentValue, a: ChildNode, conds: seq<ContentValue>, ns: seq<ChildNode>, r: ChildNode)
    requires |ns| == |conds| + 1
    requires (r.Content? <==> AllContents(ns)) && (r.Statement? <==> AllStatements(ns)) && (r.Element? <==> AllElements(ns))
    requires !(a.Content? && r.Content?) && !(a.Statement? && r.Statement?) && !(a.Element? && r.Element?)
    ensures MergeNode(a, r, c).Err? && !NodesAlike([c] + conds, [a] + ns)
  {
    hide ValuesAlike, Choice;
    KindsInFront(a, ns);
  }

  lemma KindsInFront(a: ChildNode, ns: seq<ChildNode>)
    requires ns != []
    ensures AllContents([a] + ns) <==> a.Content? && AllContents(ns)
    ensures AllStatements([a] + ns) <==> a.Statement? && AllStatements(ns)
    ensures AllElements([a] + ns) <==> a.Element? && AllElements(ns)
  {
    hide AllContents, AllStatements, AllElements;
    ContentsInFront(a, ns);
    StatementsInFront(a, ns);
    ElementsInFront(a, ns);
  }

  lemma ContentsInFront(a: ChildNode, ns: seq<ChildNode>)
    ensures AllContents([a] + ns) <==> a.Content? && AllContents(ns)
  {
    var all := [a] + ns;
    assert all[0] == a && forall j :: 0 <= j < |ns| ==> all[j + 1] == ns[j];
  }

  lemma StatementsInFront(a: ChildNode, ns: seq<ChildNode>)
    ensures AllStatements([a] + ns) <==> a.Statement? && AllStatements(ns)
  {
    var all := [a] + ns;
    assert all[0] == a && forall j :: 0 <= j < |ns| ==> all[j + 1] == ns[j];
  }

  lemma ElementsInFront(a: ChildNode, ns: seq<ChildNode>)
    ensures AllElements([a] + ns) <==> a.Element? && AllElements(ns)
  {
    var all := [a] + ns;
    assert all[0] == a && forall j :: 0 <= j < |ns| ==> all[j + 1] == ns[j];
  }

  lemma {:induction false} ElementInFront(c: ContentValue, a: ChildNode, conds: seq<ContentValue>, ns: seq<ChildNode>, r: ChildNode)
    requires |ns| == |conds| + 1 && NodesAlike(conds, ns) && ComeTo(conds, ns, r) && a.Element? && r.Element?
    ensures MergeNode(a, r, c).Ok? <==> NodesAlike([c] + conds, [a] + ns)
    ensures MergeNode(a, r, c).Ok? ==> ComeTo([c] + conds, [a] + ns, MergeNode(a, r, c).value)
    decreases a, 0
  {
    hide MergeContentValue, Choice, ValuesAlike, ValueAt, MergeNode, Names;
    var cs, all := [c] + conds, [a] + ns;
    ComeToElement(conds, ns, r);
    KindsInFront(a, ns);
    ShapeInFront(a, ns, r);
    OtherShape(c, a, cs, all, r);
    if SameShape(a, r) {
      NamesOf(Names(ns[0].attributes), a, r);
      forall name | name in Names(a.attributes)
        ensures MergeContentValue(ValueAt(a, name), ValueAt(r, name), c).Ok? <==> ValuesAlike(cs, ValuesAt(all, name))
        ensures MergeContentValue(ValueAt(a, name), ValueAt(r, name), c).Ok? ==>
          MergeContentValue(ValueAt(a, name), ValueAt(r, name), c).value == Choice(cs, ValuesAt(all, name))
      {
        ValueInFront(c, ValueAt(a, name), conds, ValuesAt(ns, name));
        assert ValuesAt(all, name) == [ValueAt(a, name)] + ValuesAt(ns, name);
      }
      forall i | 0 <= i < |a.children|
        ensures MergeNode(a.children[i], r.children[i], c).Ok? <==> NodesAlike(cs, Column(all, i))
        ensures MergeNode(a.children[i], r.children[i], c).Ok? ==> ComeTo(cs, Column(all, i), MergeNode(a.children[i], r.children[i], c).value)
      {
        NodeInFront(c, a.children[i], conds, Column(ns, i), r.children[i]);
        assert Column(all, i) == [a.children[i]] + Column(ns, i);
      }
      AllOfElement(c, a, cs, all, r);
    }
  }

  /** Put together: shape, values and children. */
  lemma AllOfElement(c: ContentValue, a: ChildNode, cs: seq<ContentValue>, all: seq<ChildNode>, r: ChildNode)
    requires |all| == |cs| + 1 > 1 && all[0] == a && a.Element? && r.Element? && AllElements(all) && OneShape(all) && SameShape(a, r)
    requires forall name :: name in Names(a.attributes) ==>
      && (MergeContentValue(ValueAt(a, name), ValueAt(r, name), c).Ok? <==> ValuesAlike(cs, ValuesAt(all, name)))
      && (MergeContentValue(ValueAt(a, name), ValueAt(r, name), c).Ok? ==>
            MergeContentValue(ValueAt(a, name), ValueAt(r, name), c).value == Choice(cs, ValuesAt(all, name)))
    requires forall i :: 0 <= i < |a.children| ==>
      && (MergeNode(a.children[i], r.children[i], c).Ok? <==> NodesAlike(cs, Column(all, i)))
      && (MergeNode(a.children[i], r.children[i], c).Ok? ==> ComeTo(cs, Column(all, i), MergeNode(a.children[i], r.children[i], c).value))
    ensures MergeNode(a, r, c).Ok? <==> NodesAlike(cs, all)
    ensures MergeNode(a, r, c).Ok? ==> ComeTo(cs, all, MergeNode(a, r, c).value)
  {
    hide MergeContentValue, Choice, ValuesAlike, ValueAt, MergeNode, Names;
    MergesElements(a, r, c);
    assert !AllContents(all) && !AllStatements(all);
  }

  /** An element of another shape. */
  lemma OtherShape(c: ContentValue, a: ChildNode, cs: seq<ContentValue>, all: seq<ChildNode>, r: ChildNode)
    requires |all| == |cs| + 1 > 1 && a.Element? && r.Element? && AllElements(all) && (OneShape(all) <==> SameShape(a, r))
    ensures !SameShape(a, r) ==> MergeNode(a, r, c).Err? && !NodesAlike(cs, all)
  {
    MergesElements(a, r, c);
    assert all[0].Element?;
  }

  lemma ShapeInFront(a: ChildNode, ns: seq<ChildNode>, r: ChildNode)
    requires ns != [] && a.Element? && AllElements(ns) && OneShape(ns) && r.Element? && SameShape(ns[0], r)
    ensures AllElements([a] + ns) && (OneShape([a] + ns) <==> SameShape(a, r))
  {
    var all := [a] + ns;
    assert all[0] == a && all[1] == ns[0] && forall j :: 0 <= j < |ns| ==> all[j + 1] == ns[j];
    if SameShape(a, r) {
      forall j | 0 <= j < |all| ensures SameShape(a, all[j]) {
        if j > 0 {
          assert SameShape(ns[0], ns[j - 1]);
        }
      }
    }
  }

  // ---------------------------------------------------------------------
  // Branches
  // ---------------------------------------------------------------------

  /** Every branch but the last has a condition. */
  predicate Conditioned(branches: seq<Branch>) {
    forall j :: 0 <= j < |branches| - 1 ==> branches[j].condition.Some?
  }

  function Conditions(branches: seq<Branch>, k: nat): (conds: seq<ContentValue>)
    requires k < |branches| && Conditioned(branches)
    ensures |conds| == |branches| - k - 1
  {
    seq(|branches| - k - 1, j requires 0 <= j < |branches| - k - 1 => branches[k + j].condition.value)
  }

  /** The nodes at one position of the branches from `k` on. */
  function Across(branches: seq<Branch>, k: nat, index: nat): (ns: seq<ChildNode>)
    requires k < |branches| && forall j :: 0 <= j < |branches| ==> index < |branches[j].body|
    ensures |ns| == |branches| - k
  {
    seq(|branches| - k, j requires 0 <= j < |branches| - k => branches[k + j].body[index])
  }

  predicate SameLengths(branches: seq<Branch>) {
    forall j :: 0 <= j < |branches| ==> |branches[j].body| == |branches[0].body|
  }

  /** Two branches or more, with as many nodes each, every one but the last with a
      condition (with more than two, only where there is anything to merge), and
      alike at every position. */
  ghost predicate BranchesAlike(branches: seq<Branch>) {
    && |branches| >= 2 && SameLengths(branches)
    && (Conditioned(branches) || (|branches| > 2 && branches[0].body == []))
    && forall i :: 0 <= i < |branches[0].body| ==> NodesAlike(Conditions(branches, 0), Across(branches, 0, i))
  }

  lemma {:induction false} PositionAlike(branches: seq<Branch>, k: nat, index: nat)
    requires k < |branches| && Conditioned(branches) && forall j :: 0 <= j < |branches| ==> index < |branches[j].body|
    ensures MergePosition(branches, k, index).Ok? ==>
      NodesAlike(Conditions(branches, k), Across(branches, k, index))
      && ComeTo(Conditions(branches, k), Across(branches, k, index), MergePosition(branches, k, index).value)
    ensures NodesAlike(Conditions(branches, k), Across(branches, k, index)) ==> MergePosition(branches, k, index).Ok?
    decreases |branches| - k
  {
    hide MergeNode, ComeTo;
    var conds, ns := Conditions(branches, k), Across(branches, k, index);
    if k == |branches| - 1 {
      OneNode(conds, ns);
    } else {
      PositionAlike(branches, k + 1, index);
      var c, a := branches[k].condition.value, branches[k].body[index];
      var later, rest := Conditions(branches, k + 1), Across(branches, k + 1, index);
      assert conds == [c] + later && ns == [a] + rest;
      RestAlike(c, a, later, rest);
      if MergePosition(branches, k + 1, index).Ok? {
        NodeInFront(c, a, later, rest, MergePosition(branches, k + 1, index).value);
      }
    }
  }

  lemma OneNode(conds: seq<ContentValue>, ns: seq<ChildNode>)
    requires |ns| == 1 && conds == []
    ensures NodesAlike(conds, ns) && ComeTo(conds, ns, ns[0])
  {
  }

  /** Alike nodes are alike without the first. */
  lemma {:induction false} RestAlike(c: ContentValue, a: ChildNode, conds: seq<ContentValue>, ns: seq<ChildNode>)
    requires |ns| == |conds| + 1
    ensures NodesAlike([c] + conds, [a] + ns) ==> NodesAlike(conds, ns)
    decreases a
  {
    var cs, all := [c] + conds, [a] + ns;
    if NodesAlike(cs, all) && |ns| > 1 {
      assert all[1..] == ns && forall j :: 0 <= j < |ns| ==> all[j + 1] == ns[j];
      KindsInFront(a, ns);
      if AllContents(all) {
        assert ContentsOf(all) == [a.value] + ContentsOf(ns);
        RestValues(c, a.value, conds, ContentsOf(ns));
      } else if AllElements(all) {
        RestElements(c, a, conds, ns);
      }
    }
  }

  lemma RestValues(c: ContentValue, v: ContentValue, conds: seq<ContentValue>, vs: seq<ContentValue>)
    requires ValuesAlike([c] + conds, [v] + vs)
    ensures ValuesAlike(conds, vs)
  {
    var cs, ws := [c] + conds, [v] + vs;
    forall i | 0 <= i < |conds| ensures GoesBefore(vs[i], conds[i + 1..], vs[i + 1..]) {
      assert cs[i + 1 + 1..] == conds[i + 1..] && ws[i + 1 + 1..] == vs[i + 1..] && ws[i + 1] == vs[i];
    }
  }

  lemma {:induction false} RestElements(c: ContentValue, a: ChildNode, conds: seq<ContentValue>, ns: seq<ChildNode>)
    requires |ns| == |conds| + 1 > 1 && AllElements([a] + ns) && NodesAlike([c] + conds, [a] + ns)
    ensures NodesAlike(conds, ns)
    decreases a, 0
  {
    hide ValuesAlike, ValueAt, Names, SameShape, OneShape;
    var cs, all := [c] + conds, [a] + ns;
    assert all[0] == a && all[1] == ns[0] && all[0].Element?;
    RestShape(a, ns);
    forall name | name in Names(ns[0].attributes) ensures ValuesAlike(conds, ValuesAt(ns, name)) {
      assert ValuesAt(all, name) == [ValueAt(a, name)] + ValuesAt(ns, name);
      RestValues(c, ValueAt(a, name), conds, ValuesAt(ns, name));
    }
    assert forall j :: 0 <= j < |ns| ==> all[j + 1] == ns[j];
    forall i | 0 <= i < |ns[0].children| ensures NodesAlike(conds, Column(ns, i)) {
      assert Column(all, i) == [a.children[i]] + Column(ns, i);
      RestAlike(c, a.children[i], conds, Column(ns, i));
    }
  }

  lemma RestShape(a: ChildNode, ns: seq<ChildNode>)
    requires ns != [] && a.Element? && AllElements([a] + ns) && OneShape([a] + ns)
    ensures AllElements(ns) && OneShape(ns) && SameShape(a, ns[0]) && |a.children| == |ns[0].children|
    ensures (forall name :: name in Names(ns[0].attributes) <==> name in Names(a.attributes))
    ensures forall j :: 0 <= j < |ns| ==> |ns[j].children| == |a.children|
  {
    hide Names;
    var all := [a] + ns;
    assert all[0] == a && forall j :: 0 <= j < |ns| ==> all[j + 1] == ns[j];
    forall j | 0 <= j < |ns| ensures ns[j].Element? && SameShape(a, ns[j]) {
      assert all[j + 1].Element? && SameShape(all[0], all[j + 1]);
    }
    NamesOf(Names(a.attributes), a, ns[0]);
  }

  lemma {:induction false} PositionsMergeEach(branches: seq<Branch>, n: nat)
    requires branches != [] && forall j :: 0 <= j < |branches| ==> n <= |branches[j].body|
    ensures MergePositions(branches, n).Ok? <==> forall i :: 0 <= i < n ==> MergePosition(branches, 0, i).Ok?
    ensures MergePositions(branches, n).Ok? ==> forall i :: 0 <= i < n ==> MergePosition(branches, 0, i) == Ok(MergePositions(branches, n).value[i])
  {
    hide MergePosition;
    if n > 0 {
      PositionsMergeEach(branches, n - 1);
      var before := MergePositions(branches, n - 1);
      assert before.Ok? && MergePosition(branches, 0, n - 1).Ok? ==>
        MergePositions(branches, n) == Ok(before.value + [MergePosition(branches, 0, n - 1).value]);
    }
  }

  lemma {:induction false} MergedAreConditioned(branches: seq<Branch>, k: nat, index: nat)
    requires k < |branches| && (forall j :: 0 <= j < |branches| ==> index < |branches[j].body|) && MergePosition(branches, k, index).Ok?
    ensures forall j :: k <= j < |branches| - 1 ==> branches[j].condition.Some?
    decreases |branches| - k
  {
    hide MergeNode;
    if k < |branches| - 1 {
      MergedAreConditioned(branches, k + 1, index);
    }
  }

  /** The body that alike branches come to. */
  ghost predicate BodyComesTo(branches: seq<Branch>, body: seq<ChildNode>) {
    && SameLengths(branches) && branches != [] && |body| == |branches[0].body|
    && (body != [] ==> Conditioned(branches) && forall i :: 0 <= i < |body| ==> ComeTo(Conditions(branches, 0), Across(branches, 0, i), body[i]))
  }

  /** Merging succeeds exactly on branches that are alike, and gives what they come
      to, position by position. */
  lemma MergesIffAlike(branches: seq<Branch>)
    ensures MergeConditionalBodies(branches).Ok? <==> BranchesAlike(branches)
    ensures MergeConditionalBodies(branches).Ok? ==> BodyComesTo(branches, MergeConditionalBodies(branches).value)
  {
    hide MergePosition, MergePositions, NodesAlike, ComeTo;
    if |branches| >= 2 {
      OddBranchFinds(branches, 1);
      if SameLengths(branches) {
        var n := |branches[0].body|;
        PositionsMergeEach(branches, n);
        if n == 0 {
          NothingToMerge(branches);
        } else if Conditioned(branches) {
          forall i | 0 <= i < n
            ensures MergePosition(branches, 0, i).Ok? <==> NodesAlike(Conditions(branches, 0), Across(branches, 0, i))
            ensures MergePosition(branches, 0, i).Ok? ==> ComeTo(Conditions(branches, 0), Across(branches, 0, i), MergePosition(branches, 0, i).value)
          {
            PositionAlike(branches, 0, i);
          }
        } else if MergePosition(branches, 0, 0).Ok? {
          MergedAreConditioned(branches, 0, 0);
        }
      }
    }
  }

  lemma NothingToMerge(branches: seq<Branch>)
    requires |branches| >= 2
    ensures MergePositions(branches, 0) == Ok([])
  {
  }

  // ---------------------------------------------------------------------
  // Why nodes do not merge
  // ---------------------------------------------------------------------

  /** A reason is a difference that the two nodes have. */
  ghost predicate Explains(reason: Reason, a: ChildNode, b: ChildNode, c: ContentValue)
    decreases reason
  {
    match reason
    case DifferentKinds => !SameKind(a, b)
    case DifferentStatementSources => a.Statement? && b.Statement? && a.source != b.source
    case DifferentTags => a.Element? && b.Element? && a.tag != b.tag
    case DifferentChildCounts(aCount, bCount) => a.Element? && b.Element? && aCount == |a.children| && bCount == |b.children| && aCount != bCount
    case DifferentAttributeSets => a.Element? && b.Element? && multiset(Names(a.attributes)) != multiset(Names(b.attributes))
    case DifferentEventHandlers => a.Element? && b.Element? && multiset(a.handlers) != multiset(b.handlers)
    case IncompatibleBindingTimes =>
      || (a.Content? && b.Content? && BothReactive(a.value, b.value))
      || (a.Element? && b.Element? && exists name :: name in Names(a.attributes) && BothReactive(ValueAt(a, name), ValueAt(b, name)))
    case ChildMergeFailed(index, inner) =>
      a.Element? && b.Element? && index < |a.children| && index < |b.children| && Explains(inner, a.children[index], b.children[index], c)
    case RegionNotMergeable => SameKind(a, b) && (a.Loop? || a.Conditional? || a.Binding? || a.LabeledBlock?)
  }

  predicate BothReactive(v: ContentValue, w: ContentValue) {
    v != w && v.time.ReactiveTime? && w.time.ReactiveTime?
  }

  lemma {:induction false} AttributesFail(a: ChildNode, b: ChildNode, names: seq<string>, n: nat, c: ContentValue)
    requires a.Element? && b.Element? && n <= |names| && MergeAttributes(a.attributes, b.attributes, names, n, c).Err?
    requires forall i :: 0 <= i < |names| ==> names[i] in Names(a.attributes) && names[i] in Names(b.attributes)
    ensures MergeAttributes(a.attributes, b.attributes, names, n, c).error == IncompatibleBindingTimes
    ensures exists name :: name in Names(a.attributes) && BothReactive(ValueAt(a, name), ValueAt(b, name))
  {
    if n > 0 && MergeAttributes(a.attributes, b.attributes, names, n - 1, c).Err? {
      AttributesFail(a, b, names, n - 1, c);
    } else {
      assert BothReactive(ValueAt(a, names[n - 1]), ValueAt(b, names[n - 1]));
    }
  }

  lemma {:induction false} ChildrenFail(a: ChildNode, b: ChildNode, n: nat, c: ContentValue)
    requires a.Element? && b.Element? && n <= |a.children| == |b.children| && MergeChildren(a, b, n, c).Err?
    ensures Explains(MergeChildren(a, b, n, c).error, a, b, c)
    decreases a, 0, n
  {
    if n > 0 {
      if MergeChildren(a, b, n - 1, c).Err? {
        ChildrenFail(a, b, n - 1, c);
      } else {
        FailureIsExplained(a.children[n - 1], b.children[n - 1], c);
      }
    }
  }

  /** Nodes that do not merge differ in the way that is reported. */
  lemma {:induction false} FailureIsExplained(a: ChildNode, b: ChildNode, c: ContentValue)
    requires MergeNode(a, b, c).Err?
    ensures Explains(MergeNode(a, b, c).error, a, b, c)
    decreases a
  {
    if a.Element? && b.Element? {
      SortedSame(Names(a.attributes), Names(b.attributes));
      SortedSame(a.handlers, b.handlers);
      if SameShape(a, b) {
        var names := SortNames(Names(a.attributes));
        SortNamesPermutes(Names(a.attributes));
        NamesOf(names, a, b);
        if MergeAttributes(a.attributes, b.attributes, names, |names|, c).Err? {
          AttributesFail(a, b, names, |names|, c);
        } else {
          ChildrenFail(a, b, |a.children|, c);
        }
      }
    }
  }
}
