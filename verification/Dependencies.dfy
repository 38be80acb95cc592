/** The refs an expression reads, and which of them to subscribe to
    (experimental/compiler/src/expression-ir.ts, `extractDeps`, `isReactive`). */
module Dependencies {
  import opened OrderedMaps
  import opened Expressions

  datatype Dependency = Dependency(source: string, deltaKind: string)

  /** The text of a ref, by which it is subscribed to. */
  function RefSource(e: ExpressionIR): string
    decreases e
  {
    match e
    case Identifier(name) => name
    case PropertyAccess(object_, property) => RefSource(object_) + "." + property
    case Raw(source) => source
    case Literal(value) => value
    case MethodCall(receiver, method_, _) => RefSource(receiver) + "." + method_ + "()"
    case Call(callee, _) => RefSource(callee) + "()"
    case RefRead(ref, _) => RefSource(ref)
    case Snapshot(ref, _, _) => RefSource(ref) + "()"
    case BindingRef(name, _) => name
    case Binary(left, op, right) => RefSource(left) + " " + OpText(op) + " " + RefSource(right)
    case Unary(op, operand, prefix) => if prefix then op + RefSource(operand) else RefSource(operand) + op
    case Template(_) => "`...`"
    case Ternary(condition, whenTrue, whenFalse) => RefSource(condition) + " ? " + RefSource(whenTrue) + " : " + RefSource(whenFalse)
    case ElementAccess(object_, index) => RefSource(object_) + "[" + RefSource(index) + "]"
  }

  // ---------------------------------------------------------------------
  // What is read
  // ---------------------------------------------------------------------

  /** The reads of an expression, bindings expanded, in the order they are met. A
      read ref is not looked into. */
  function ReadList(e: ExpressionIR): seq<Dependency>
    decreases e
  {
    match e
    case RefRead(ref, kind) => [Dependency(RefSource(ref), kind)]
    case Snapshot(ref, args, kind) => [Dependency(RefSource(ref), kind)] + ReadLists(e, args, |args|)
    case BindingRef(_, expression) => ReadList(expression)
    case MethodCall(receiver, _, args) => ReadList(receiver) + ReadLists(e, args, |args|)
    case PropertyAccess(object_, _) => ReadList(object_)
    case Call(callee, args) => ReadList(callee) + ReadLists(e, args, |args|)
    case Binary(left, _, right) => ReadList(left) + ReadList(right)
    case Unary(_, operand, _) => ReadList(operand)
    case Template(parts) => ReadLists(e, parts, |parts|)
    case Ternary(condition, whenTrue, whenFalse) => ReadList(condition) + ReadList(whenTrue) + ReadList(whenFalse)
    case ElementAccess(object_, index) => ReadList(object_) + ReadList(index)
    case _ => []
  }

  function ReadLists(parent: ExpressionIR, parts: seq<ExpressionIR>, n: nat): seq<Dependency>
    requires n <= |parts| && forall i :: 0 <= i < |parts| ==> parts[i] < parent
    decreases parent, n
  {
    if n == 0 then [] else ReadLists(parent, parts, n - 1) + ReadList(parts[n - 1])
  }

  /** The sources of some reads. */
  function Sources(list: seq<Dependency>): set<string> {
    set i | 0 <= i < |list| :: list[i].source
  }

  /** The first read of a source is the one that counts. */
  function AddRead(m: OrderedMap<string, Dependency>, d: Dependency): OrderedMap<string, Dependency> {
    if d.source in m.items then m else m.Put(d.source, d)
  }

  function AddReads(m: OrderedMap<string, Dependency>, list: seq<Dependency>): OrderedMap<string, Dependency> {
    if list == [] then m else AddRead(AddReads(m, list[..|list| - 1]), list[|list| - 1])
  }

  lemma {:induction false} AddReadsConcat(m: OrderedMap<string, Dependency>, a: seq<Dependency>, b: seq<Dependency>)
    ensures AddReads(m, a + b) == AddReads(AddReads(m, a), b)
  {
    if b == [] {
      assert a + b == a;
    } else {
      assert (a + b)[..|a + b| - 1] == a + b[..|b| - 1];
      AddReadsConcat(m, a, b[..|b| - 1]);
    }
  }

  class Collector {
    var deps: OrderedMap<string, Dependency>

    constructor ()
      ensures deps == OrderedMap([], map[])
    {
      deps := OrderedMap([], map[]);
    }

    method Note(d: Dependency)
      modifies this
      ensures deps == AddReads(old(deps), [d])
    {
      assert [d][..0] == [];
      if d.source !in deps.items {
        deps := deps.Put(d.source, d);
      }
    }

    /** Collect the reads of an expression. */
    method Collect(e: ExpressionIR)
      modifies this
      decreases e
      ensures deps == AddReads(old(deps), ReadList(e))
    {
      ghost var m := deps;
      match e {
        case RefRead(ref, kind) => Note(Dependency(RefSource(ref), kind));
        case Snapshot(ref, args, kind) =>
          Note(Dependency(RefSource(ref), kind));
          AddReadsConcat(m, [Dependency(RefSource(ref), kind)], ReadLists(e, args, |args|));
          CollectAll(e, args);
        case BindingRef(_, expression) => Collect(expression);
        case MethodCall(receiver, _, args) =>
          AddReadsConcat(m, ReadList(receiver), ReadLists(e, args, |args|));
          Collect(receiver);
          CollectAll(e, args);
        case PropertyAccess(object_, _) => Collect(object_);
        case Call(callee, args) =>
          AddReadsConcat(m, ReadList(callee), ReadLists(e, args, |args|));
          Collect(callee);
          CollectAll(e, args);
        case Binary(left, _, right) =>
          AddReadsConcat(m, ReadList(left), ReadList(right));
          Collect(left);
          Collect(right);
        case Unary(_, operand, _) => Collect(operand);
        case Template(parts) => CollectAll(e, parts);
        case Ternary(condition, whenTrue, whenFalse) =>
          AddReadsConcat(m, ReadList(condition), ReadList(whenTrue));
          AddReadsConcat(m, ReadList(condition) + ReadList(whenTrue), ReadList(whenFalse));
          Collect(condition);
          Collect(whenTrue);
          Collect(whenFalse);
        case ElementAccess(object_, index) =>
          AddReadsConcat(m, ReadList(object_), ReadList(index));
          Collect(object_);
          Collect(index);
        case _ =>
      }
    }

    method CollectAll(parent: ExpressionIR, parts: seq<ExpressionIR>)
      requires forall i :: 0 <= i < |parts| ==> parts[i] < parent
      modifies this
      decreases parent, 0
      ensures deps == AddReads(old(deps), ReadLists(parent, parts, |parts|))
    {
      ghost var m := deps;
      for i := 0 to |parts|
        invariant deps == AddReads(m, ReadLists(parent, parts, i))
      {
        AddReadsConcat(m, ReadLists(parent, parts, i), ReadList(parts[i]));
        Collect(parts[i]);
      }
    }
  }

  // ---------------------------------------------------------------------
  // Subsumption
  // ---------------------------------------------------------------------

  /** `t` continues `s` after a dot. */
  predicate DottedPrefix(s: string, t: string) {
    |s| < |t| && t[..|s|] == s && t[|s|] == '.'
  }

  lemma DottedTransitive(s: string, t: string, u: string)
    requires DottedPrefix(s, t) && DottedPrefix(t, u)
    ensures DottedPrefix(s, u)
  {
    assert u[..|s|] == u[..|t|][..|s|];
    assert u[|s|] == u[..|t|][|s|];
  }

  /** Nothing read is more specific. */
  ghost predicate Maximal(s: string, sources: set<string>) {
    s in sources && forall t :: t in sources ==> !DottedPrefix(s, t)
  }

  /** What the collector holds after some reads. */
  lemma {:induction false} CollectedReads(list: seq<Dependency>)
    ensures Collected(list, AddReads(OrderedMap([], map[]), list))
  {
    if list != [] {
      var init, last := list[..|list| - 1], list[|list| - 1];
      CollectedReads(init);
      assert list == init + [last];
      CollectedOne(init, AddReads(OrderedMap([], map[]), init), last);
    }
  }

  lemma CollectedOne(list: seq<Dependency>, m: OrderedMap<string, Dependency>, last: Dependency)
    requires Collected(list, m)
    ensures Collected(list + [last], AddRead(m, last))
  {
    hide FirstRead, ReadBefore, InReadOrder;
    SourcesOne(list, last);
    FirstReadStays(list, last);
    OrderOne(list, m.keys, last);
    if last.source in m.items {
      assert Sources(list + [last]) == Sources(list);
    } else {
      PutValid(m, last.source, last);
    }
  }

  lemma OrderOne(list: seq<Dependency>, keys: seq<string>, last: Dependency)
    requires InReadOrder(list, keys)
    ensures InReadOrder(list + [last], keys)
    ensures last.source !in Sources(list) && (forall i :: 0 <= i < |keys| ==> keys[i] in Sources(list))
      ==> InReadOrder(list + [last], keys + [last.source])
  {
    StillBefore(list, last);
  }

  lemma SourcesOne(list: seq<Dependency>, last: Dependency)
    ensures Sources(list + [last]) == Sources(list) + {last.source}
  {
    var after := list + [last];
    assert forall i :: 0 <= i < |list| ==> after[i] == list[i];
    assert after[|list|] == last;
  }

  /** `s` is read before `t` is. */
  ghost predicate ReadBefore(list: seq<Dependency>, s: string, t: string) {
    exists i :: 0 <= i < |list| && list[i].source == s && forall j :: 0 <= j <= i ==> list[j].source != t
  }

  lemma StillBefore(list: seq<Dependency>, last: Dependency)
    ensures forall s, t :: ReadBefore(list, s, t) ==> ReadBefore(list + [last], s, t)
    ensures last.source !in Sources(list) ==> forall s :: s in Sources(list) ==> ReadBefore(list + [last], s, last.source)
  {
    var after := list + [last];
    forall s, t | ReadBefore(list, s, t) ensures ReadBefore(after, s, t) {
      var i :| 0 <= i < |list| && list[i].source == s && forall j :: 0 <= j <= i ==> list[j].source != t;
      assert after[i].source == s;
    }
    if last.source !in Sources(list) {
      forall s | s in Sources(list) ensures ReadBefore(after, s, last.source) {
        var i :| 0 <= i < |list| && list[i].source == s;
        assert after[i].source == s;
        assert forall j :: 0 <= j < |list| ==> after[j].source in Sources(list);
      }
    }
  }

  /** `d` is read, and no earlier read has its source. */
  ghost predicate FirstRead(list: seq<Dependency>, d: Dependency) {
    exists i :: 0 <= i < |list| && list[i] == d && forall j :: 0 <= j < i ==> list[j].source != d.source
  }

  lemma FirstReadStays(list: seq<Dependency>, last: Dependency)
    ensures forall d :: FirstRead(list, d) ==> FirstRead(list + [last], d)
    ensures last.source !in Sources(list) ==> FirstRead(list + [last], last)
  {
    var after := list + [last];
    forall d | FirstRead(list, d) ensures FirstRead(after, d) {
      var i :| 0 <= i < |list| && list[i] == d && forall j :: 0 <= j < i ==> list[j].source != d.source;
      assert after[i] == d;
    }
    assert after[|list|] == last;
    if last.source !in Sources(list) {
      assert forall j :: 0 <= j < |list| ==> after[j].source in Sources(list);
    }
  }

  /** Some source continues this one after a dot. */
  method IsSubsumed(s: string, sources: seq<string>) returns (subsumed: bool)
    ensures subsumed <==> exists i :: 0 <= i < |sources| && DottedPrefix(s, sources[i])
  {
    for i := 0 to |sources|
      invariant forall j :: 0 <= j < i ==> !DottedPrefix(s, sources[j])
    {
      var other := sources[i];
      if other != s && |other| >= |s| && other[..|s|] == s && |other| > |s| && other[|s|] == '.' {
        return true;
      }
    }
    return false;
  }

  ghost predicate Kept(list: seq<Dependency>, d: Dependency) {
    FirstRead(list, d) && Maximal(d.source, Sources(list))
  }

  /** What is kept: the first reads of exactly the most specific sources, each once,
      in the order in which they are first read. */
  ghost predicate KeepsMaximal(list: seq<Dependency>, deps: seq<Dependency>) {
    && (forall i :: 0 <= i < |deps| ==> Kept(list, deps[i]))
    && (forall s :: Maximal(s, Sources(list)) ==> exists i :: 0 <= i < |deps| && deps[i].source == s)
    && (forall i, j :: 0 <= i < j < |deps| ==> ReadBefore(list, deps[i].source, deps[j].source))
  }

  /** What the collector holds: every source once, as it was first read, and in the
      order of the first reads. */
  ghost predicate Collected(list: seq<Dependency>, m: OrderedMap<string, Dependency>) {
    && m.Valid() && m.items.Keys == Sources(list)
    && (forall s :: s in m.items ==> m.items[s].source == s && FirstRead(list, m.items[s]))
    && InReadOrder(list, m.keys)
  }

  ghost predicate InReadOrder(list: seq<Dependency>, keys: seq<string>) {
    forall i, j :: 0 <= i < j < |keys| ==> ReadBefore(list, keys[i], keys[j])
  }

  /** The first `n` sources have been looked at. */
  ghost predicate Filtering(list: seq<Dependency>, keys: seq<string>, deps: seq<Dependency>, n: nat) {
    && n <= |keys|
    && (forall i :: 0 <= i < |deps| ==> deps[i].source in keys[..n] && Kept(list, deps[i]))
    && (forall k :: 0 <= k < n && Maximal(keys[k], Sources(list)) ==> HasSource(deps, keys[k]))
    && (forall i, j :: 0 <= i < j < |deps| ==> ReadBefore(list, deps[i].source, deps[j].source))
  }

  ghost predicate HasSource(deps: seq<Dependency>, s: string) {
    exists i :: 0 <= i < |deps| && deps[i].source == s
  }

  lemma FilterDrop(list: seq<Dependency>, keys: seq<string>, deps: seq<Dependency>, i: nat)
    requires Filtering(list, keys, deps, i) && i < |keys| && !Maximal(keys[i], Sources(list))
    ensures Filtering(list, keys, deps, i + 1)
  {
    assert keys[..i + 1] == keys[..i] + [keys[i]];
  }

  lemma FilterKeep(list: seq<Dependency>, keys: seq<string>, deps: seq<Dependency>, i: nat, d: Dependency)
    requires Filtering(list, keys, deps, i) && i < |keys| && InReadOrder(list, keys) && Kept(list, d) && d.source == keys[i]
    ensures Filtering(list, keys, deps + [d], i + 1)
  {
    hide Kept, ReadBefore, Maximal, Sources;
    assert keys[..i + 1] == keys[..i] + [keys[i]];
    var after := deps + [d];
    forall a | 0 <= a < |deps| ensures ReadBefore(list, deps[a].source, d.source) {
      var k :| 0 <= k < i && keys[k] == deps[a].source;
    }
    forall k | 0 <= k < i + 1 && Maximal(keys[k], Sources(list)) ensures HasSource(after, keys[k]) {
      if k < i {
        assert HasSource(deps, keys[k]);
        var n :| 0 <= n < |deps| && deps[n].source == keys[k];
        assert after[n].source == keys[k];
      } else {
        assert after[|deps|].source == keys[k];
      }
    }
  }

  lemma FilteredAll(list: seq<Dependency>, m: OrderedMap<string, Dependency>, deps: seq<Dependency>)
    requires Collected(list, m) && Filtering(list, m.keys, deps, |m.keys|)
    ensures KeepsMaximal(list, deps)
  {
    forall s | Maximal(s, Sources(list)) ensures exists i :: 0 <= i < |deps| && deps[i].source == s {
      assert s in m.keys;
      var k :| 0 <= k < |m.keys| && m.keys[k] == s;
      assert HasSource(deps, m.keys[k]);
    }
  }

  /** A single source needs no comparison. */
  lemma FewSources(list: seq<Dependency>, m: OrderedMap<string, Dependency>)
    requires Collected(list, m) && |m.keys| <= 1
    ensures |m.keys| == 0 ==> KeepsMaximal(list, [])
    ensures |m.keys| == 1 ==> m.keys[0] in m.items && KeepsMaximal(list, [m.items[m.keys[0]]])
  {
    forall s | s in Sources(list) ensures |m.keys| == 1 && s == m.keys[0] {
      assert s in m.items;
    }
    if |m.keys| == 1 {
      assert m.keys[0] in m.keys;
      var d := m.items[m.keys[0]];
      assert Kept(list, d);
      assert [d][0].source == m.keys[0];
    }
  }

  method ExtractDeps(e: ExpressionIR) returns (deps: seq<Dependency>)
    ensures KeepsMaximal(ReadList(e), deps)
  {
    var collector := new Collector();
    collector.Collect(e);
    var m := collector.deps;
    CollectedReads(ReadList(e));
    deps := [];
    if |m.keys| <= 1 {
      FewSources(ReadList(e), m);
      if |m.keys| == 1 {
        deps := [m.items[m.keys[0]]];
      }
      return;
    }
    for i := 0 to |m.keys|
      invariant Filtering(ReadList(e), m.keys, deps, i)
    {
      var s := m.keys[i];
      var subsumed := IsSubsumed(s, m.keys);
      SubsumedIsNotMaximal(ReadList(e), m, i);
      if subsumed {
        FilterDrop(ReadList(e), m.keys, deps, i);
      } else {
        assert s in m.keys;
        FilterKeep(ReadList(e), m.keys, deps, i, m.items[s]);
        deps := deps + [m.items[s]];
      }
    }
    FilteredAll(ReadList(e), m, deps);
  }

  lemma SubsumedIsNotMaximal(list: seq<Dependency>, m: OrderedMap<string, Dependency>, i: nat)
    requires Collected(list, m) && i < |m.keys|
    ensures Maximal(m.keys[i], Sources(list)) <==> !exists k :: 0 <= k < |m.keys| && DottedPrefix(m.keys[i], m.keys[k])
  {
    assert m.keys[i] in m.keys;
    forall t | t in Sources(list) ensures t in m.keys {
      assert t in m.items;
    }
    forall k | 0 <= k < |m.keys| ensures m.keys[k] in Sources(list) {
      assert m.keys[k] in m.items;
    }
  }

  /** Every read ref is kept or is a dotted prefix of one that is. */
  lemma {:induction false} EveryReadCovered(sources: set<string>, s: string)
    requires s in sources
    ensures exists t :: Maximal(t, sources) && (t == s || DottedPrefix(s, t))
    decreases LongerThan(sources, s)
  {
    if !Maximal(s, sources) {
      var t :| t in sources && DottedPrefix(s, t);
      assert LongerThan(sources, t) < LongerThan(sources, s) by {
        assert t in LongerThan(sources, s) && t !in LongerThan(sources, t);
      }
      EveryReadCovered(sources, t);
      var u :| Maximal(u, sources) && (u == t || DottedPrefix(t, u));
      if u != t {
        DottedTransitive(s, t, u);
      }
    }
  }

  ghost function LongerThan(sources: set<string>, s: string): set<string> {
    set t | t in sources && |t| > |s|
  }

  /** The dependencies cover what is read, and nothing else. */
  lemma DependenciesCover(e: ExpressionIR, deps: seq<Dependency>)
    requires KeepsMaximal(ReadList(e), deps)
    ensures forall s :: s in Sources(ReadList(e)) ==> exists i :: 0 <= i < |deps| && (deps[i].source == s || DottedPrefix(s, deps[i].source))
    ensures deps == [] <==> Sources(ReadList(e)) == {}
  {
    var sources := Sources(ReadList(e));
    forall s | s in sources ensures exists i :: 0 <= i < |deps| && (deps[i].source == s || DottedPrefix(s, deps[i].source)) {
      EveryReadCovered(sources, s);
      var t :| Maximal(t, sources) && (t == s || DottedPrefix(s, t));
    }
    if deps != [] {
      assert Kept(ReadList(e), deps[0]);
    }
    if sources != {} {
      var s :| s in sources;
    }
  }

  // ---------------------------------------------------------------------
  // Bindings expanded
  // ---------------------------------------------------------------------

  /** Every ref that is read has the text it has with its bindings expanded. */
  predicate RefsKeepText(e: ExpressionIR)
    decreases e
  {
    match e
    case RefRead(ref, _) => RefSource(Expand(ref)) == RefSource(ref)
    case Snapshot(ref, args, _) => RefSource(Expand(ref)) == RefSource(ref) && forall i :: 0 <= i < |args| ==> RefsKeepText(args[i])
    case BindingRef(_, expression) => RefsKeepText(expression)
    case MethodCall(receiver, _, args) => RefsKeepText(receiver) && forall i :: 0 <= i < |args| ==> RefsKeepText(args[i])
    case PropertyAccess(object_, _) => RefsKeepText(object_)
    case Call(callee, args) => RefsKeepText(callee) && forall i :: 0 <= i < |args| ==> RefsKeepText(args[i])
    case Binary(left, _, right) => RefsKeepText(left) && RefsKeepText(right)
    case Unary(_, operand, _) => RefsKeepText(operand)
    case Template(parts) => forall i :: 0 <= i < |parts| ==> RefsKeepText(parts[i])
    case Ternary(condition, whenTrue, whenFalse) => RefsKeepText(condition) && RefsKeepText(whenTrue) && RefsKeepText(whenFalse)
    case ElementAccess(object_, index) => RefsKeepText(object_) && RefsKeepText(index)
    case _ => true
  }

  /** `xs` are as many reads as `ys`, and the same ones exactly when `same`. */
  ghost predicate Alike(xs: seq<Dependency>, ys: seq<Dependency>, same: bool) {
    |xs| == |ys| && (xs == ys <==> same)
  }

  lemma AlikeConcat(xs: seq<Dependency>, xs': seq<Dependency>, ys: seq<Dependency>, ys': seq<Dependency>, a: bool, b: bool)
    requires Alike(xs, ys, a) && Alike(xs', ys', b)
    ensures Alike(xs + xs', ys + ys', a && b)
  {
    if xs + xs' == ys + ys' {
      assert xs == (xs + xs')[..|xs|] == ys;
      assert xs' == (xs + xs')[|xs|..] == ys';
    }
  }

  /** The bindings an expression refers to are looked through: what is read is what
      the expanded expression reads, exactly when no ref takes its text from the name
      of a binding. */
  lemma {:induction false} ReadsAreExpanded(e: ExpressionIR)
    ensures Alike(ReadList(Expand(e)), ReadList(e), RefsKeepText(e))
    decreases e
  {
    match e
    case RefRead(ref, kind) => ReadOneExpanded(ref, kind);
    case Snapshot(ref, args, kind) =>
      ReadOneExpanded(ref, kind);
      PartsAreExpanded(e, Expand(e), args, Expand(e).args, |args|);
      AlikeConcat([Dependency(RefSource(Expand(ref)), kind)], ReadLists(Expand(e), Expand(e).args, |args|),
                  [Dependency(RefSource(ref), kind)], ReadLists(e, args, |args|),
                  RefSource(Expand(ref)) == RefSource(ref), PartsKeepText(args, |args|));
    case BindingRef(_, expression) => ReadsAreExpanded(expression);
    case MethodCall(receiver, _, args) => CallIsExpanded(e, receiver, args);
    case PropertyAccess(object_, _) => ReadsAreExpanded(object_);
    case Call(callee, args) => CallIsExpanded(e, callee, args);
    case Binary(left, _, right) => PairIsExpanded(e, left, right);
    case Unary(_, operand, _) => ReadsAreExpanded(operand);
    case Template(parts) => PartsAreExpanded(e, Expand(e), parts, Expand(e).parts, |parts|);
    case Ternary(condition, whenTrue, whenFalse) =>
      PairIsExpanded(e, condition, whenTrue);
      ReadsAreExpanded(whenFalse);
      AlikeConcat(ReadList(Expand(condition)) + ReadList(Expand(whenTrue)), ReadList(Expand(whenFalse)),
                  ReadList(condition) + ReadList(whenTrue), ReadList(whenFalse),
                  RefsKeepText(condition) && RefsKeepText(whenTrue), RefsKeepText(whenFalse));
    case ElementAccess(object_, index) => PairIsExpanded(e, object_, index);
    case _ =>
  }

  predicate PartsKeepText(parts: seq<ExpressionIR>, n: nat)
    requires n <= |parts|
  {
    forall i :: 0 <= i < n ==> RefsKeepText(parts[i])
  }

  lemma ReadOneExpanded(ref: ExpressionIR, kind: string)
    ensures Alike([Dependency(RefSource(Expand(ref)), kind)], [Dependency(RefSource(ref), kind)], RefSource(Expand(ref)) == RefSource(ref))
  {
    assert [Dependency(RefSource(ref), kind)][0].source == RefSource(ref);
    assert [Dependency(RefSource(Expand(ref)), kind)][0].source == RefSource(Expand(ref));
  }

  lemma {:induction false} PairIsExpanded(parent: ExpressionIR, a: ExpressionIR, b: ExpressionIR)
    requires a < parent && b < parent
    ensures Alike(ReadList(Expand(a)) + ReadList(Expand(b)), ReadList(a) + ReadList(b), RefsKeepText(a) && RefsKeepText(b))
    decreases parent, 0
  {
    ReadsAreExpanded(a);
    ReadsAreExpanded(b);
    AlikeConcat(ReadList(Expand(a)), ReadList(Expand(b)), ReadList(a), ReadList(b), RefsKeepText(a), RefsKeepText(b));
  }

  lemma {:induction false} CallIsExpanded(e: ExpressionIR, callee: ExpressionIR, args: seq<ExpressionIR>)
    requires (e.MethodCall? && e.receiver == callee && e.args == args) || (e.Call? && e.callee == callee && e.args == args)
    ensures Alike(ReadList(Expand(e)), ReadList(e), RefsKeepText(e))
    decreases e, 0
  {
    ReadsAreExpanded(callee);
    PartsAreExpanded(e, Expand(e), args, Expand(e).args, |args|);
    AlikeConcat(ReadList(Expand(callee)), ReadLists(Expand(e), Expand(e).args, |args|),
                ReadList(callee), ReadLists(e, args, |args|), RefsKeepText(callee), PartsKeepText(args, |args|));
  }

  lemma {:induction false} PartsAreExpanded(e: ExpressionIR, e': ExpressionIR, parts: seq<ExpressionIR>, parts': seq<ExpressionIR>, n: nat)
    requires n <= |parts| == |parts'|
    requires forall i :: 0 <= i < |parts| ==> parts[i] < e && parts'[i] < e' && parts'[i] == Expand(parts[i])
    ensures Alike(ReadLists(e', parts', n), ReadLists(e, parts, n), PartsKeepText(parts, n))
    decreases e, 0, n
  {
    if n > 0 {
      PartsAreExpanded(e, e', parts, parts', n - 1);
      ReadsAreExpanded(parts[n - 1]);
      AlikeConcat(ReadLists(e', parts', n - 1), ReadList(parts'[n - 1]), ReadLists(e, parts, n - 1), ReadList(parts[n - 1]),
                  PartsKeepText(parts, n - 1), RefsKeepText(parts[n - 1]));
    }
  }

  /** A read of a binding is listed under the name of the binding. */
  lemma BindingsInRefsAreNamed(name: string, expression: ExpressionIR, kind: string)
    ensures ReadList(RefRead(BindingRef(name, expression), kind)) == [Dependency(name, kind)]
    ensures ReadList(Expand(RefRead(BindingRef(name, expression), kind))) == [Dependency(RefSource(Expand(expression)), kind)]
  {
    assert Expand(BindingRef(name, expression)) == Expand(expression);
  }

  // ---------------------------------------------------------------------
  // Reactivity
  // ---------------------------------------------------------------------

  predicate IsReactive(e: ExpressionIR)
    decreases e
  {
    match e
    case RefRead(_, _) => true
    case Snapshot(_, _, _) => true
    case BindingRef(_, _) => true
    case MethodCall(receiver, _, args) => IsReactive(receiver) || exists i :: 0 <= i < |args| && IsReactive(args[i])
    case PropertyAccess(object_, _) => IsReactive(object_)
    case Call(callee, args) => IsReactive(callee) || exists i :: 0 <= i < |args| && IsReactive(args[i])
    case Binary(left, _, right) => IsReactive(left) || IsReactive(right)
    case Unary(_, operand, _) => IsReactive(operand)
    case Template(parts) => exists i :: 0 <= i < |parts| && IsReactive(parts[i])
    case Ternary(condition, whenTrue, whenFalse) => IsReactive(condition) || IsReactive(whenTrue) || IsReactive(whenFalse)
    case ElementAccess(object_, index) => IsReactive(object_) || IsReactive(index)
    case _ => false
  }

  /** Every binding an expression refers to reads something, at every depth. */
  predicate BindingsRead(e: ExpressionIR)
    decreases e
  {
    match e
    case BindingRef(_, expression) => IsReactive(expression) && BindingsRead(expression)
    case MethodCall(receiver, _, args) => BindingsRead(receiver) && forall i :: 0 <= i < |args| ==> BindingsRead(args[i])
    case PropertyAccess(object_, _) => BindingsRead(object_)
    case Call(callee, args) => BindingsRead(callee) && forall i :: 0 <= i < |args| ==> BindingsRead(args[i])
    case Binary(left, _, right) => BindingsRead(left) && BindingsRead(right)
    case Unary(_, operand, _) => BindingsRead(operand)
    case Template(parts) => forall i :: 0 <= i < |parts| ==> BindingsRead(parts[i])
    case Ternary(condition, whenTrue, whenFalse) => BindingsRead(condition) && BindingsRead(whenTrue) && BindingsRead(whenFalse)
    case ElementAccess(object_, index) => BindingsRead(object_) && BindingsRead(index)
    case _ => true
  }

  lemma {:induction false} ReadListsEmpty(parent: ExpressionIR, parts: seq<ExpressionIR>, n: nat)
    requires n <= |parts| && forall i :: 0 <= i < |parts| ==> parts[i] < parent
    ensures ReadLists(parent, parts, n) == [] <==> forall i :: 0 <= i < n ==> ReadList(parts[i]) == []
    decreases n
  {
    if n > 0 {
      ReadListsEmpty(parent, parts, n - 1);
    }
  }

  /** An expression whose bindings all read something is reactive exactly when it
      reads something. */
  lemma {:induction false} ReactiveIffReads(e: ExpressionIR)
    requires BindingsRead(e)
    ensures IsReactive(e) <==> ReadList(e) != []
    decreases e
  {
    match e
    case BindingRef(_, expression) => ReactiveIffReads(expression);
    case MethodCall(receiver, _, args) =>
      ReactiveIffReads(receiver);
      ReactiveParts(e, args);
    case PropertyAccess(object_, _) => ReactiveIffReads(object_);
    case Call(callee, args) =>
      ReactiveIffReads(callee);
      ReactiveParts(e, args);
    case Binary(left, _, right) =>
      ReactiveIffReads(left);
      ReactiveIffReads(right);
    case Unary(_, operand, _) => ReactiveIffReads(operand);
    case Template(parts) => ReactiveParts(e, parts);
    case Ternary(condition, whenTrue, whenFalse) =>
      ReactiveIffReads(condition);
      ReactiveIffReads(whenTrue);
      ReactiveIffReads(whenFalse);
    case ElementAccess(object_, index) =>
      ReactiveIffReads(object_);
      ReactiveIffReads(index);
    case _ =>
  }

  lemma {:induction false} ReactiveParts(parent: ExpressionIR, parts: seq<ExpressionIR>)
    requires forall i :: 0 <= i < |parts| ==> parts[i] < parent && BindingsRead(parts[i])
    ensures (exists i :: 0 <= i < |parts| && IsReactive(parts[i])) <==> ReadLists(parent, parts, |parts|) != []
    decreases parent, 0
  {
    ReadListsEmpty(parent, parts, |parts|);
    forall i | 0 <= i < |parts| ensures IsReactive(parts[i]) <==> ReadList(parts[i]) != [] {
      ReactiveIffReads(parts[i]);
    }
  }

  /** The dependencies of such an expression are empty exactly when it is not
      reactive. */
  lemma ReactiveIffDependencies(e: ExpressionIR, deps: seq<Dependency>)
    requires BindingsRead(e) && KeepsMaximal(ReadList(e), deps)
    ensures IsReactive(e) <==> deps != []
  {
    ReactiveIffReads(e);
    DependenciesCover(e, deps);
    if ReadList(e) != [] {
      assert ReadList(e)[0].source in Sources(ReadList(e));
    }
  }
}
