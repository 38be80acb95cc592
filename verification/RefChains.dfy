/** Refs as chains of names: what their texts stand for, and the dependencies of
    expressions that read such refs
    (experimental/compiler/src/expression-ir.ts, `renderRefSource`, `extractDeps`). */
module RefChains {
  import opened Prelude
  import opened Expressions
  import opened Dependencies

  // ---------------------------------------------------------------------
  // Chains and their texts
  // ---------------------------------------------------------------------

  /** The names of a chain of property accesses on an identifier. */
  function ChainOf(e: ExpressionIR): Option<seq<string>> {
    match e
    case Identifier(name) => Some([name])
    case PropertyAccess(object_, property) =>
      (match ChainOf(object_)
       case Some(names) => Some(names + [property])
       case None => None)
    case _ => None
  }

  /** Names with dots between them. */
  function Dotted(names: seq<string>): string {
    if names == [] then ""
    else if |names| == 1 then names[0]
    else names[0] + "." + Dotted(names[1..])
  }

  predicate DotFree(names: seq<string>) {
    names != [] && forall i :: 0 <= i < |names| ==> '.' !in names[i]
  }

  lemma {:induction false} DottedSnoc(names: seq<string>, name: string)
    requires names != []
    ensures Dotted(names + [name]) == Dotted(names) + "." + name
  {
    var all := names + [name];
    assert all[1..] == names[1..] + [name];
    if |names| == 1 {
      assert all[1..] == [name];
    } else {
      DottedSnoc(names[1..], name);
    }
  }

  /** The source of a chain is its names, joined by dots. */
  lemma {:induction false} ChainSource(e: ExpressionIR)
    ensures ChainOf(e).Some? ==> ChainOf(e).value != [] && RefSource(e) == Dotted(ChainOf(e).value)
  {
    if e.PropertyAccess? {
      ChainSource(e.object_);
      if ChainOf(e.object_).Some? {
        DottedSnoc(ChainOf(e.object_).value, e.property);
      }
    }
  }

  /** Up to its first dot a text is one name. */
  lemma SameHead(a: string, x: string, b: string, y: string)
    requires '.' !in a && '.' !in b
    requires x == "" || x[0] == '.'
    requires y == "" || y[0] == '.'
    requires a + x <= b + y
    ensures a == b || (x == "" && |a| < |b|)
    ensures a == b ==> x <= y
  {
    var s, t := a + x, b + y;
    assert x != "" ==> s[|a|] == '.';
    assert y != "" ==> t[|b|] == '.';
    assert |a| < |b| ==> t[|a|] == b[|a|];
    assert forall i :: 0 <= i < |s| ==> s[i] == t[i];
    if |a| == |b| {
      assert a == s[..|a|] == t[..|a|] == b;
      assert x == s[|a|..] && y == t[|a|..];
    }
  }

  /** What follows the first name. */
  function Tail(names: seq<string>): string
    requires names != []
  {
    if |names| == 1 then "" else "." + Dotted(names[1..])
  }

  lemma HeadAndTail(names: seq<string>)
    requires names != []
    ensures Dotted(names) == names[0] + Tail(names)
  {
  }

  /** On names without dots, one text is one chain, and a text that goes on with a
      dot is a longer chain. */
  lemma {:induction false} DottedExtends(a: seq<string>, b: seq<string>)
    requires DotFree(a) && DotFree(b)
    ensures Dotted(a) == Dotted(b) <==> a == b
    ensures DottedPrefix(Dotted(a), Dotted(b)) <==> a < b
    decreases |a| + |b|
  {
    HeadAndTail(a);
    HeadAndTail(b);
    if a[0] != b[0] {
      OtherHeads(a, b);
    } else if |a| == 1 || |b| == 1 {
      OneName(a, b);
    } else {
      DottedExtends(a[1..], b[1..]);
      MoreNames(a, b);
    }
  }

  lemma OtherHeads(a: seq<string>, b: seq<string>)
    requires DotFree(a) && DotFree(b) && a[0] != b[0]
    ensures Dotted(a) != Dotted(b) && !DottedPrefix(Dotted(a), Dotted(b)) && !(a < b)
  {
    HeadAndTail(a);
    HeadAndTail(b);
    var s, t := Dotted(a), Dotted(b);
    assert DottedPrefix(s, t) ==> s <= t;
    if s <= t {
      SameHead(a[0], Tail(a), b[0], Tail(b));
      assert s == a[0] && t[|s|] == b[0][|s|];
    }
  }

  lemma OneName(a: seq<string>, b: seq<string>)
    requires DotFree(a) && DotFree(b) && a[0] == b[0] && (|a| == 1 || |b| == 1)
    ensures Dotted(a) == Dotted(b) <==> a == b
    ensures DottedPrefix(Dotted(a), Dotted(b)) <==> a < b
  {
    HeadAndTail(a);
    HeadAndTail(b);
    if |a| == 1 {
      assert a == [b[0]] && a <= b;
      assert |b| > 1 ==> Dotted(b)[..|b[0]|] == b[0];
    } else {
      assert b == [a[0]];
    }
  }

  lemma MoreNames(a: seq<string>, b: seq<string>)
    requires |a| > 1 && |b| > 1 && a[0] == b[0]
    ensures Dotted(a) == Dotted(b) <==> Dotted(a[1..]) == Dotted(b[1..])
    ensures DottedPrefix(Dotted(a), Dotted(b)) <==> DottedPrefix(Dotted(a[1..]), Dotted(b[1..]))
    ensures a == b <==> a[1..] == b[1..]
    ensures a < b <==> a[1..] < b[1..]
  {
    var p, x, y := a[0] + ".", Dotted(a[1..]), Dotted(b[1..]);
    assert Dotted(a) == p + x && Dotted(b) == p + y;
    hide Dotted;
    assert (p + x)[|p|..] == x && (p + y)[|p|..] == y;
    assert a == [a[0]] + a[1..] && b == [b[0]] + b[1..];
    if |x| < |y| {
      assert (p + y)[..|p + x|] == p + y[..|x|];
      assert (p + y[..|x|])[|p|..] == y[..|x|];
    }
  }

  // ---------------------------------------------------------------------
  // The places that are read
  // ---------------------------------------------------------------------

  /** The parts of an expression that are looked into, in order; a ref that is read
      is not. */
  function Parts(e: ExpressionIR): (parts: seq<ExpressionIR>)
    ensures forall i :: 0 <= i < |parts| ==> parts[i] < e
  {
    match e
    case Snapshot(_, args, _) => args
    case BindingRef(_, expression) => [expression]
    case MethodCall(receiver, _, args) => [receiver] + args
    case PropertyAccess(object_, _) => [object_]
    case Call(callee, args) => [callee] + args
    case Binary(left, _, right) => [left, right]
    case Unary(_, operand, _) => [operand]
    case Template(parts) => parts
    case Ternary(condition, whenTrue, whenFalse) => [condition, whenTrue, whenFalse]
    case ElementAccess(object_, index) => [object_, index]
    case _ => []
  }

  /** An expression before its parts. */
  function Preorder(e: ExpressionIR): seq<ExpressionIR>
    decreases e, |Parts(e)| + 1
  {
    [e] + PreorderParts(e, |Parts(e)|)
  }

  function PreorderParts(e: ExpressionIR, n: nat): seq<ExpressionIR>
    requires n <= |Parts(e)|
    decreases e, n
  {
    if n == 0 then [] else PreorderParts(e, n - 1) + Preorder(Parts(e)[n - 1])
  }

  predicate IsRead(e: ExpressionIR) {
    e.RefRead? || e.Snapshot?
  }

  /** The reads among some expressions, in order. */
  function ReadsAmong(nodes: seq<ExpressionIR>): seq<Dependency> {
    if nodes == [] then []
    else
      var last := nodes[|nodes| - 1];
      ReadsAmong(nodes[..|nodes| - 1]) + (if IsRead(last) then [Dependency(RefSource(last.ref), last.deltaKind)] else [])
  }

  lemma {:induction false} ReadsAmongConcat(a: seq<ExpressionIR>, b: seq<ExpressionIR>)
    ensures ReadsAmong(a + b) == ReadsAmong(a) + ReadsAmong(b)
  {
    if b == [] {
      assert a + b == a;
    } else {
      assert (a + b)[..|a + b| - 1] == a + b[..|b| - 1];
      ReadsAmongConcat(a, b[..|b| - 1]);
    }
  }

  /** Every place of the expression that reads a ref is listed, in order, and
      nothing else. */
  lemma {:induction false} ReadsAreListed(e: ExpressionIR)
    ensures ReadList(e) == ReadsAmong(Preorder(e))
    decreases e, |Parts(e)| + 1
  {
    hide ReadList, Parts, ReadParts, PreorderParts;
    ReadsAmongConcat([e], PreorderParts(e, |Parts(e)|));
    assert [e][..0] == [];
    PartsAreListed(e, |Parts(e)|);
    ReadListByParts(e);
  }

  /** The reads of the first `n` parts. */
  function ReadParts(e: ExpressionIR, n: nat): seq<Dependency>
    requires n <= |Parts(e)|
  {
    if n == 0 then [] else ReadParts(e, n - 1) + ReadList(Parts(e)[n - 1])
  }

  lemma NextPart(e: ExpressionIR, n: nat)
    requires 0 < n <= |Parts(e)|
    ensures ReadParts(e, n) == ReadParts(e, n - 1) + ReadList(Parts(e)[n - 1])
    ensures PreorderParts(e, n) == PreorderParts(e, n - 1) + Preorder(Parts(e)[n - 1])
  {
    hide Parts, ReadList, Preorder;
  }

  lemma NoParts(e: ExpressionIR)
    ensures ReadParts(e, 0) == [] && PreorderParts(e, 0) == [] && ReadsAmong([]) == []
  {
  }

  lemma {:induction false} PartsAreListed(e: ExpressionIR, n: nat)
    requires n <= |Parts(e)|
    ensures ReadParts(e, n) == ReadsAmong(PreorderParts(e, n))
    decreases e, n
  {
    hide Parts, ReadList, ReadsAmong, ReadParts, PreorderParts, Preorder;
    NoParts(e);
    if n > 0 {
      PartsAreListed(e, n - 1);
      ReadsAreListed(Parts(e)[n - 1]);
      ReadsAmongConcat(PreorderParts(e, n - 1), Preorder(Parts(e)[n - 1]));
      NextPart(e, n);
    }
  }

  lemma NextOfList(parent: ExpressionIR, parts: seq<ExpressionIR>, n: nat)
    requires n <= |parts| && forall i :: 0 <= i < |parts| ==> parts[i] < parent
    ensures n == 0 ==> ReadLists(parent, parts, n) == []
    ensures n > 0 ==> ReadLists(parent, parts, n) == ReadLists(parent, parts, n - 1) + ReadList(parts[n - 1])
  {
    hide ReadList;
  }

  lemma Regroup(a: seq<Dependency>, b: seq<Dependency>, c: seq<Dependency>)
    ensures (a + b) + c == a + (b + c)
  {
  }

  lemma {:induction false} ReadListsAre(e: ExpressionIR, args: seq<ExpressionIR>, k: nat, n: nat)
    requires k <= 1 && n <= |args| && |Parts(e)| == k + |args| && forall i :: 0 <= i < |args| ==> args[i] == Parts(e)[k + i]
    requires forall i :: 0 <= i < |args| ==> args[i] < e
    ensures ReadParts(e, k + n) == ReadParts(e, k) + ReadLists(e, args, n)
  {
    hide Parts, ReadList, ReadParts, ReadLists;
    NextOfList(e, args, n);
    if n == 0 {
      assert ReadParts(e, k) + [] == ReadParts(e, k);
    } else {
      ReadListsAre(e, args, k, n - 1);
      NextPart(e, k + n);
      Regroup(ReadParts(e, k), ReadLists(e, args, n - 1), ReadList(args[n - 1]));
    }
  }

  /** What an expression reads itself. */
  function OwnRead(e: ExpressionIR): seq<Dependency> {
    if IsRead(e) then [Dependency(RefSource(e.ref), e.deltaKind)] else []
  }

  lemma ReadListByParts(e: ExpressionIR)
    ensures ReadList(e) == OwnRead(e) + ReadParts(e, |Parts(e)|)
  {
    hide OwnRead, ReadParts, ReadList, Parts;
    if e.MethodCall? || e.Call? || e.Template? || e.Snapshot? {
      ManyPartsRead(e);
    } else {
      FewPartsRead(e);
    }
  }

  lemma ManyPartsRead(e: ExpressionIR)
    requires e.MethodCall? || e.Call? || e.Template? || e.Snapshot?
    ensures ReadList(e) == OwnRead(e) + ReadParts(e, |Parts(e)|)
  {
    hide RefSource, ReadParts, ReadLists;
    NoParts(e);
    if e.MethodCall? {
      CalledParts(e, e.receiver, e.args);
    } else if e.Call? {
      CalledParts(e, e.callee, e.args);
    } else {
      ReadListsAre(e, Parts(e), 0, |Parts(e)|);
    }
  }

  lemma FewPartsRead(e: ExpressionIR)
    requires !(e.MethodCall? || e.Call? || e.Template? || e.Snapshot?)
    ensures ReadList(e) == OwnRead(e) + ReadParts(e, |Parts(e)|)
  {
    hide RefSource, ReadParts, ReadLists;
    NoParts(e);
    FewParts(e);
  }

  lemma CalledParts(e: ExpressionIR, first: ExpressionIR, args: seq<ExpressionIR>)
    requires Parts(e) == [first] + args && forall i :: 0 <= i < |args| ==> args[i] < e
    ensures ReadParts(e, |Parts(e)|) == ReadList(first) + ReadLists(e, args, |args|)
  {
    hide ReadList, Parts, ReadParts, ReadLists;
    ReadListsAre(e, args, 1, |args|);
    FirstPart(e);
  }

  lemma FirstPart(e: ExpressionIR)
    requires Parts(e) != []
    ensures ReadParts(e, 1) == ReadList(Parts(e)[0])
  {
    hide ReadList, Parts, ReadParts;
    NoParts(e);
    NextPart(e, 1);
    assert [] + ReadList(Parts(e)[0]) == ReadList(Parts(e)[0]);
  }

  lemma FewParts(e: ExpressionIR)
    ensures |Parts(e)| == 1 ==> ReadParts(e, 1) == ReadList(Parts(e)[0])
    ensures |Parts(e)| == 2 ==> ReadParts(e, 2) == ReadList(Parts(e)[0]) + ReadList(Parts(e)[1])
    ensures |Parts(e)| == 3 ==> ReadParts(e, 3) == ReadList(Parts(e)[0]) + ReadList(Parts(e)[1]) + ReadList(Parts(e)[2])
  {
    hide ReadList, Parts, ReadParts;
    if 1 <= |Parts(e)| {
      FirstPart(e);
    }
    if 2 <= |Parts(e)| {
      NextPart(e, 2);
    }
    if 3 <= |Parts(e)| {
      NextPart(e, 3);
    }
  }

  // ---------------------------------------------------------------------
  // Dependencies on chains
  // ---------------------------------------------------------------------

  /** Every ref that is read is a chain of names without dots. */
  ghost predicate ReadsChains(e: ExpressionIR) {
    forall n :: n in Preorder(e) && IsRead(n) ==> ChainOf(n.ref).Some? && DotFree(ChainOf(n.ref).value)
  }

  /** Some place of the expression reads this chain. */
  ghost predicate IsReadIn(e: ExpressionIR, names: seq<string>) {
    exists n :: n in Preorder(e) && IsRead(n) && ChainOf(n.ref) == Some(names)
  }

  ghost predicate ReadAmong(nodes: seq<ExpressionIR>, d: Dependency) {
    exists n :: n in nodes && IsRead(n) && d == Dependency(RefSource(n.ref), n.deltaKind)
  }

  lemma {:induction false} ReadsAmongAre(nodes: seq<ExpressionIR>, d: Dependency)
    ensures d in ReadsAmong(nodes) <==> ReadAmong(nodes, d)
  {
    if nodes != [] {
      var init, last := nodes[..|nodes| - 1], nodes[|nodes| - 1];
      ReadsAmongAre(init, d);
      assert nodes == init + [last];
      if ReadAmong(nodes, d) {
        var n :| n in nodes && IsRead(n) && d == Dependency(RefSource(n.ref), n.deltaKind);
        assert n in init || n == last;
      }
    }
  }

  lemma ChainIsSource(e: ExpressionIR, names: seq<string>)
    requires ReadsChains(e) && DotFree(names)
    ensures Dotted(names) in Sources(ReadList(e)) <==> IsReadIn(e, names)
  {
    var list, nodes := ReadList(e), Preorder(e);
    ReadsAreListed(e);
    if Dotted(names) in Sources(list) {
      var i :| 0 <= i < |list| && list[i].source == Dotted(names);
      ReadsAmongAre(nodes, list[i]);
      var n :| n in nodes && IsRead(n) && list[i] == Dependency(RefSource(n.ref), n.deltaKind);
      ChainSource(n.ref);
      DottedExtends(ChainOf(n.ref).value, names);
    }
    if IsReadIn(e, names) {
      var n :| n in nodes && IsRead(n) && ChainOf(n.ref) == Some(names);
      ChainSource(n.ref);
      var d := Dependency(RefSource(n.ref), n.deltaKind);
      ReadsAmongAre(nodes, d);
      var i :| 0 <= i < |list| && list[i] == d;
      assert list[i].source in Sources(list);
    }
  }

  lemma SourceIsChain(e: ExpressionIR, s: string)
    requires ReadsChains(e) && s in Sources(ReadList(e))
    ensures exists names :: DotFree(names) && IsReadIn(e, names) && s == Dotted(names)
  {
    var list, nodes := ReadList(e), Preorder(e);
    ReadsAreListed(e);
    var i :| 0 <= i < |list| && list[i].source == s;
    ReadsAmongAre(nodes, list[i]);
    var n :| n in nodes && IsRead(n) && list[i] == Dependency(RefSource(n.ref), n.deltaKind);
    ChainSource(n.ref);
    assert DotFree(ChainOf(n.ref).value) && IsReadIn(e, ChainOf(n.ref).value);
  }

  /** The chain is read, and no longer one that goes on from it. */
  ghost predicate ReadToItsEnd(e: ExpressionIR, names: seq<string>) {
    IsReadIn(e, names) && forall more :: IsReadIn(e, more) ==> !(names < more)
  }

  lemma MaximalIsToItsEnd(e: ExpressionIR, names: seq<string>)
    requires ReadsChains(e) && DotFree(names)
    ensures Maximal(Dotted(names), Sources(ReadList(e))) <==> ReadToItsEnd(e, names)
  {
    hide Dotted, DottedPrefix, ReadsChains, IsReadIn;
    var sources := Sources(ReadList(e));
    ChainIsSource(e, names);
    if Maximal(Dotted(names), sources) {
      forall more | IsReadIn(e, more) ensures !(names < more) {
        ReadIsDotFree(e, more);
        ChainIsSource(e, more);
        DottedExtends(names, more);
      }
    }
    if ReadToItsEnd(e, names) {
      forall t | t in sources ensures !DottedPrefix(Dotted(names), t) {
        SourceIsChain(e, t);
        var more :| DotFree(more) && IsReadIn(e, more) && t == Dotted(more);
        DottedExtends(names, more);
      }
    }
  }

  lemma ReadIsDotFree(e: ExpressionIR, names: seq<string>)
    requires ReadsChains(e) && IsReadIn(e, names)
    ensures DotFree(names)
  {
  }

  ghost predicate Listed(deps: seq<Dependency>, s: string) {
    exists i :: 0 <= i < |deps| && deps[i].source == s
  }

  ghost predicate IsChainText(s: string) {
    exists names :: DotFree(names) && s == Dotted(names)
  }

  /** The dependencies are exactly the chains that are read and that no other read
      goes on from, each once. */
  lemma ChainsAreKept(e: ExpressionIR, deps: seq<Dependency>)
    requires ReadsChains(e) && KeepsMaximal(ReadList(e), deps)
    ensures forall names :: DotFree(names) ==> (Listed(deps, Dotted(names)) <==> ReadToItsEnd(e, names))
    ensures forall i :: 0 <= i < |deps| ==> IsChainText(deps[i].source)
    ensures forall i, j :: 0 <= i < j < |deps| ==> deps[i].source != deps[j].source
  {
    hide Dotted, DottedPrefix, ReadsChains, IsReadIn, ReadToItsEnd, DotFree, FirstRead;
    var list := ReadList(e);
    forall names | DotFree(names) ensures Listed(deps, Dotted(names)) <==> ReadToItsEnd(e, names) {
      MaximalIsToItsEnd(e, names);
      if Listed(deps, Dotted(names)) {
        var i :| 0 <= i < |deps| && deps[i].source == Dotted(names);
        assert Kept(list, deps[i]);
      }
    }
    forall i | 0 <= i < |deps| ensures IsChainText(deps[i].source) {
      assert Kept(list, deps[i]);
      SourceIsChain(e, deps[i].source);
      var names :| DotFree(names) && IsReadIn(e, names) && deps[i].source == Dotted(names);
    }
    forall i, j | 0 <= i < j < |deps| ensures deps[i].source != deps[j].source {
      assert ReadBefore(list, deps[i].source, deps[j].source);
    }
  }

  // ---------------------------------------------------------------------
  // Other refs
  // ---------------------------------------------------------------------

  /** Refs that are written as they are subscribed to: no arguments, no operators. */
  predicate Written(e: ExpressionIR) {
    match e
    case Identifier(_) => true
    case Literal(_) => true
    case Raw(_) => true
    case BindingRef(_, _) => true
    case PropertyAccess(object_, _) => Written(object_) && IsAtomic(object_)
    case MethodCall(receiver, _, args) => args == [] && Written(receiver) && IsAtomic(receiver)
    case Call(callee, args) => args == [] && Written(callee) && IsAtomic(callee)
    case Snapshot(ref, args, _) => args == [] && Written(ref) && IsAtomic(ref)
    case ElementAccess(object_, index) => Written(object_) && IsAtomic(object_) && Written(index)
    case _ => false
  }

  lemma AtomicAsIs(e: ExpressionIR)
    requires IsAtomic(e)
    ensures RenderAtomic(e, false) == RenderExpression(e, false)
  {
  }

  /** Such a ref is subscribed to by the text that is printed for it. */
  lemma {:induction false} WrittenAsPrinted(e: ExpressionIR)
    requires Written(e)
    ensures RefSource(e) == RenderExpression(e, false)
    decreases e
  {
    match e
    case PropertyAccess(object_, property) =>
      WrittenAsPrinted(object_);
      AtomicAsIs(object_);
      assert RenderExpression(e, false) == RenderAtomic(object_, false) + "." + property;
    case MethodCall(receiver, method_, args) =>
      WrittenAsPrinted(receiver);
      AtomicAsIs(receiver);
      NoArguments(e, args);
    case Call(callee, args) =>
      WrittenAsPrinted(callee);
      AtomicAsIs(callee);
      NoArguments(e, args);
    case Snapshot(ref, _, _) =>
      WrittenAsPrinted(ref);
      AtomicAsIs(ref);
    case ElementAccess(object_, index) =>
      WrittenAsPrinted(object_);
      AtomicAsIs(object_);
      WrittenAsPrinted(index);
    case _ =>
  }

  lemma NoArguments(e: ExpressionIR, args: seq<ExpressionIR>)
    requires args == []
    ensures Expressions.Parens(RenderArgs(e, args, |args|, false)) == "()"
    ensures e.MethodCall? && e.args == args ==> RenderExpression(e, false) == RenderAtomic(e.receiver, false) + "." + e.method_ + "()"
  {
  }

  /** `s` stands in `t`. */
  ghost predicate StandsIn(s: string, t: string) {
    exists before, after :: t == before + s + after
  }

  /** The parts of a ref whose texts go into its own. */
  function RefParts(e: ExpressionIR): seq<ExpressionIR> {
    match e
    case PropertyAccess(object_, _) => [object_]
    case MethodCall(receiver, _, _) => [receiver]
    case Call(callee, _) => [callee]
    case RefRead(ref, _) => [ref]
    case Snapshot(ref, _, _) => [ref]
    case Binary(left, _, right) => [left, right]
    case Unary(_, operand, _) => [operand]
    case Ternary(condition, whenTrue, whenFalse) => [condition, whenTrue, whenFalse]
    case ElementAccess(object_, index) => [object_, index]
    case _ => []
  }

  /** The name or operator that a ref adds to its parts. */
  function OwnText(e: ExpressionIR): string {
    match e
    case PropertyAccess(_, property) => "." + property
    case MethodCall(_, method_, _) => "." + method_ + "()"
    case Binary(_, op, _) => " " + OpText(op) + " "
    case Unary(op, _, _) => op
    case Identifier(name) => name
    case BindingRef(name, _) => name
    case Literal(value) => value
    case Raw(source) => source
    case _ => ""
  }

  /** A ref of any kind is named by a text that holds the texts of its parts, and
      what it adds to them. */
  lemma SourceHoldsParts(e: ExpressionIR)
    ensures forall part :: part in RefParts(e) ==> StandsIn(RefSource(part), RefSource(e))
    ensures StandsIn(OwnText(e), RefSource(e))
  {
    AllOfIt(RefSource(e));
    if |RefParts(e)| == 1 {
      OnePart(e);
    } else if |RefParts(e)| > 1 {
      SomeParts(e);
    }
  }

  lemma OnePart(e: ExpressionIR)
    requires |RefParts(e)| == 1
    ensures StandsIn(RefSource(RefParts(e)[0]), RefSource(e)) && StandsIn(OwnText(e), RefSource(e))
  {
    hide StandsIn, RefSource;
    if e.PropertyAccess? || e.MethodCall? {
      NamedPart(e);
    } else if e.Unary? {
      OperandPart(e);
    } else {
      CalledPart(e);
    }
  }

  lemma NamedPart(e: ExpressionIR)
    requires e.PropertyAccess? || e.MethodCall?
    ensures StandsIn(RefSource(RefParts(e)[0]), RefSource(e)) && StandsIn(OwnText(e), RefSource(e))
  {
    hide StandsIn;
    TwoTexts(RefSource(RefParts(e)[0]), OwnText(e), RefSource(e));
  }

  lemma OperandPart(e: ExpressionIR)
    requires e.Unary?
    ensures StandsIn(RefSource(e.operand), RefSource(e)) && StandsIn(e.operator, RefSource(e))
  {
    hide StandsIn;
    if e.prefix { TwoTexts(e.operator, RefSource(e.operand), RefSource(e)); } else { TwoTexts(RefSource(e.operand), e.operator, RefSource(e)); }
  }

  lemma CalledPart(e: ExpressionIR)
    requires e.Call? || e.Snapshot? || e.RefRead?
    ensures StandsIn(RefSource(RefParts(e)[0]), RefSource(e)) && StandsIn("", RefSource(e))
  {
    hide StandsIn;
    AllOfIt(RefSource(e));
    if !e.RefRead? {
      TwoTexts(RefSource(RefParts(e)[0]), "()", RefSource(e));
    }
  }

  lemma SomeParts(e: ExpressionIR)
    requires |RefParts(e)| > 1
    ensures forall i :: 0 <= i < |RefParts(e)| ==> StandsIn(RefSource(RefParts(e)[i]), RefSource(e))
    ensures StandsIn(OwnText(e), RefSource(e))
  {
    hide StandsIn;
    var s := RefSource(e);
    AllOfIt(s);
    match e
    case Binary(left, op, right) => FiveTexts("", RefSource(left), " " + OpText(op) + " ", RefSource(right), "", s);
    case Ternary(condition, whenTrue, whenFalse) =>
      FiveTexts(RefSource(condition), " ? ", RefSource(whenTrue), " : ", RefSource(whenFalse), s);
    case ElementAccess(object_, index) => FiveTexts("", RefSource(object_), "[", RefSource(index), "]", s);
  }

  lemma AllOfIt(s: string)
    ensures StandsIn(s, s) && StandsIn("", s)
  {
    assert s == "" + s + "" && s == "" + "" + s;
  }

  lemma TwoTexts(a: string, b: string, s: string)
    requires s == a + b
    ensures StandsIn(a, s) && StandsIn(b, s)
  {
    assert s == "" + a + b && s == a + b + "";
  }

  lemma FiveTexts(a: string, b: string, c: string, d: string, f: string, s: string)
    requires s == a + b + c + d + f
    ensures StandsIn(a, s) && StandsIn(b, s) && StandsIn(c, s) && StandsIn(d, s) && StandsIn(f, s)
  {
    assert s == "" + a + (b + c + d + f) && s == a + b + (c + d + f) && s == a + b + c + (d + f);
    assert s == (a + b + c) + d + f && s == (a + b + c + d) + f + "";
  }
}
