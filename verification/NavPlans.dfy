/** Planning a walk of a cloned template that grabs every hole
    (experimental/compiler/src/template.ts, `planWalk`). */
module NavPlans {
  import opened Prelude

  /** Child indices from the root down. */
  type Path = seq<nat>

  datatype NavOp = Down | Right | Up | Grab(holeIndex: nat)

  /** The nodes of a document, as far as walking sees them. */
  datatype Tree = Tree(children: seq<Tree>)

  predicate InTree(t: Tree, p: Path) {
    p == [] || (p[0] < |t.children| && InTree(t.children[p[0]], p[1..]))
  }

  // ---------------------------------------------------------------------
  // Executing a plan
  // ---------------------------------------------------------------------

  /** Where a walk stands, and what it has grabbed. */
  datatype Walk = Walk(at: Path, grabs: seq<(nat, Path)>)

  /** One operation; none when it would step off the tree. `firstChild` needs a
      child, `nextSibling` a sibling to the right, and `parentNode` a parent. */
  function Act(t: Tree, w: Walk, op: NavOp): Option<Walk> {
    match op
    case Down => if InTree(t, w.at + [0]) then Some(Walk(w.at + [0], w.grabs)) else None
    case Right =>
      if w.at != [] && InTree(t, w.at[..|w.at| - 1] + [w.at[|w.at| - 1] + 1])
      then Some(Walk(w.at[..|w.at| - 1] + [w.at[|w.at| - 1] + 1], w.grabs)) else None
    case Up => if w.at != [] then Some(Walk(w.at[..|w.at| - 1], w.grabs)) else None
    case Grab(i) => Some(Walk(w.at, w.grabs + [(i, w.at)]))
  }

  function Execute(t: Tree, ops: seq<NavOp>): Option<Walk> {
    if ops == [] then Some(Walk([], []))
    else match Execute(t, ops[..|ops| - 1])
         case None => None
         case Some(w) => Act(t, w, ops[|ops| - 1])
  }

  lemma ExecuteAppend(t: Tree, ops: seq<NavOp>, op: NavOp)
    ensures Execute(t, ops + [op]) == match Execute(t, ops) case None => None case Some(w) => Act(t, w, op)
  {
    assert (ops + [op])[..|ops|] == ops;
  }

  // ---------------------------------------------------------------------
  // Paths
  // ---------------------------------------------------------------------

  lemma {:induction false} PrefixInTree(t: Tree, p: Path, n: nat)
    requires InTree(t, p) && n <= |p|
    ensures InTree(t, p[..n])
    decreases |p|
  {
    if n > 0 {
      PrefixInTree(t.children[p[0]], p[1..], n - 1);
      assert p[..n][1..] == p[1..][..n - 1];
    }
  }

  /** Siblings to the left of a node exist too. */
  lemma {:induction false} LeftInTree(t: Tree, p: Path, k: nat)
    requires p != [] && InTree(t, p) && k <= p[|p| - 1]
    ensures InTree(t, p[..|p| - 1] + [k])
    decreases |p|
  {
    var q := p[..|p| - 1] + [k];
    if |p| > 1 {
      LeftInTree(t.children[p[0]], p[1..], k);
      assert q[1..] == p[1..][..|p| - 2] + [k];
    } else {
      assert q[1..] == [];
    }
  }

  /** Document order: lexicographic, a parent before what is below it. */
  function ComparePaths(a: Path, b: Path): int {
    if a == [] || b == [] then |a| - |b|
    else if a[0] != b[0] then a[0] - b[0]
    else ComparePaths(a[1..], b[1..])
  }

  predicate Before(a: Path, b: Path) {
    ComparePaths(a, b) <= 0
  }

  lemma {:induction false} BeforeIsOrder(a: Path, b: Path, c: Path)
    ensures Before(a, a) && (Before(a, b) || Before(b, a))
    ensures Before(a, b) && Before(b, a) ==> a == b
    ensures Before(a, b) && Before(b, c) ==> Before(a, c)
    decreases |a| + |b| + |c|
  {
    if a != [] && b != [] && c != [] {
      BeforeIsOrder(a[1..], b[1..], c[1..]);
      if Before(a, b) && Before(b, a) {
        assert a == [a[0]] + a[1..] && b == [b[0]] + b[1..];
      }
    } else if a != [] && b != [] {
      BeforeIsOrder(a[1..], b[1..], []);
      if Before(a, b) && Before(b, a) {
        assert a == [a[0]] + a[1..] && b == [b[0]] + b[1..];
      }
    } else if a != [] {
      BeforeIsOrder(a[1..], [], []);
    }
  }

  method Compare(a: Path, b: Path) returns (r: int)
    ensures r == ComparePaths(a, b)
  {
    var minLen := Min(|a|, |b|);
    for i := 0 to minLen
      invariant ComparePaths(a, b) == ComparePaths(a[i..], b[i..])
    {
      if a[i] != b[i] {
        return a[i] as int - b[i];
      }
      assert a[i..][1..] == a[i + 1..] && b[i..][1..] == b[i + 1..];
    }
    return |a| - |b|;
  }

  // ---------------------------------------------------------------------
  // Sorting the holes
  // ---------------------------------------------------------------------

  /** Holes in document order, with their original indices; holes of one path stay
      in their original order. */
  ghost predicate SortedHoles(paths: seq<Path>, sorted: seq<nat>) {
    && multiset(sorted) == multiset(seq(|paths|, i requires 0 <= i < |paths| => i))
    && (forall k :: 0 <= k < |sorted| ==> sorted[k] < |paths|)
    && Pairwise(paths, sorted)
  }

  predicate Ahead(paths: seq<Path>, i: nat, j: nat) {
    i < |paths| && j < |paths| && Before(paths[i], paths[j]) && (paths[i] == paths[j] ==> i < j)
  }

  method SortHoles(paths: seq<Path>) returns (sorted: seq<nat>)
    ensures SortedHoles(paths, sorted)
  {
    sorted := [];
    for i := 0 to |paths|
      invariant SortedSoFar(paths, sorted, i)
    {
      var k := |sorted|;
      while k > 0 && Later(paths, sorted[k - 1], i)
        invariant 0 <= k <= |sorted|
        invariant forall j :: k <= j < |sorted| ==> Ahead(paths, i, sorted[j])
      {
        BeforeIsOrder(paths[sorted[k - 1]], paths[i], []);
        k := k - 1;
      }
      InsertKeepsSorted(paths, sorted, i, k);
      sorted := sorted[..k] + [i] + sorted[k..];
    }
    assert seq(|paths|, i => i) == seq(|paths|, i requires 0 <= i < |paths| => i);
  }

  /** `i` comes strictly later than `j` in document order. */
  predicate Later(paths: seq<Path>, i: nat, j: nat) {
    i < |paths| && j < |paths| && ComparePaths(paths[i], paths[j]) > 0
  }

  ghost predicate SortedSoFar(paths: seq<Path>, sorted: seq<nat>, n: nat) {
    && n <= |paths|
    && multiset(sorted) == multiset(seq(n, i => i))
    && (forall k :: 0 <= k < |sorted| ==> sorted[k] < n)
    && Pairwise(paths, sorted)
  }

  lemma InsertKeepsSorted(paths: seq<Path>, sorted: seq<nat>, i: nat, k: nat)
    requires SortedSoFar(paths, sorted, i) && i < |paths| && k <= |sorted|
    requires forall j :: k <= j < |sorted| ==> Ahead(paths, i, sorted[j])
    requires k > 0 ==> !Later(paths, sorted[k - 1], i)
    ensures SortedSoFar(paths, sorted[..k] + [i] + sorted[k..], i + 1)
  {
    var x, y := sorted[..k], sorted[k..];
    InsertMembers(sorted, i, k);
    forall j | 0 <= j < k ensures Ahead(paths, x[j], i) {
      AheadOfInserted(paths, sorted, i, k, j);
    }
    InsertPairwise(paths, x, i, y);
  }

  lemma InsertMembers(sorted: seq<nat>, i: nat, k: nat)
    requires k <= |sorted| && multiset(sorted) == multiset(seq(i, z => z)) && forall j :: 0 <= j < |sorted| ==> sorted[j] < i
    ensures sorted == sorted[..k] + sorted[k..]
    ensures var after := sorted[..k] + [i] + sorted[k..];
      multiset(after) == multiset(seq(i + 1, z => z)) && forall j :: 0 <= j < |after| ==> after[j] < i + 1
  {
    assert sorted == sorted[..k] + sorted[k..];
    assert seq(i + 1, z => z) == seq(i, z => z) + [i];
  }

  lemma InsertPairwise(paths: seq<Path>, x: seq<nat>, i: nat, y: seq<nat>)
    requires Pairwise(paths, x + y)
    requires forall j :: 0 <= j < |x| ==> Ahead(paths, x[j], i)
    requires forall j :: 0 <= j < |y| ==> Ahead(paths, i, y[j])
    ensures Pairwise(paths, x + [i] + y)
  {
    var was, now := x + y, x + [i] + y;
    forall a, b | 0 <= a < b < |now| ensures Ahead(paths, now[a], now[b]) {
      if a < |x| && b > |x| {
        assert now[a] == was[a] && now[b] == was[b - 1];
      } else if a > |x| {
        assert now[a] == was[a - 1] && now[b] == was[b - 1];
      } else if b < |x| {
        assert now[a] == was[a] && now[b] == was[b];
      }
    }
  }

  lemma AheadOfInserted(paths: seq<Path>, sorted: seq<nat>, i: nat, k: nat, j: nat)
    requires SortedSoFar(paths, sorted, i) && i < |paths| && j < k <= |sorted| && !Later(paths, sorted[k - 1], i)
    ensures Ahead(paths, sorted[j], i)
  {
    if j < k - 1 {
      assert Ahead(paths, sorted[j], sorted[k - 1]);
    }
    BeforeIsOrder(paths[sorted[j]], paths[sorted[k - 1]], paths[i]);
  }

  ghost predicate Pairwise(paths: seq<Path>, xs: seq<nat>) {
    forall j, k :: 0 <= j < k < |xs| ==> Ahead(paths, xs[j], xs[k])
  }

  // ---------------------------------------------------------------------
  // Planning
  // ---------------------------------------------------------------------

  ghost predicate AllIn(t: Tree, paths: seq<Path>) {
    forall i :: 0 <= i < |paths| ==> InTree(t, paths[i])
  }

  /** On every tree that has the holes, the operations lead from the root to `at`
      without leaving the tree, and grab this. */
  ghost predicate Reaches(paths: seq<Path>, ops: seq<NavOp>, at: Path, grabs: seq<(nat, Path)>) {
    forall t :: AllIn(t, paths) ==> Execute(t, ops) == Some(Walk(at, grabs))
  }

  lemma StepUp(paths: seq<Path>, ops: seq<NavOp>, at: Path, grabs: seq<(nat, Path)>)
    requires Reaches(paths, ops, at, grabs) && at != []
    ensures Reaches(paths, ops + [Up], at[..|at| - 1], grabs)
  {
    forall t | AllIn(t, paths) ensures Execute(t, ops + [Up]) == Some(Walk(at[..|at| - 1], grabs)) {
      ExecuteAppend(t, ops, Up);
    }
  }

  /** A hole lies under child `k` of where the walk stands. */
  lemma StepDown(paths: seq<Path>, ops: seq<NavOp>, at: Path, grabs: seq<(nat, Path)>, j: nat, k: nat)
    requires Reaches(paths, ops, at, grabs) && j < |paths| && at + [k] <= paths[j]
    ensures Reaches(paths, ops + [Down], at + [0], grabs)
  {
    forall t | AllIn(t, paths) ensures Execute(t, ops + [Down]) == Some(Walk(at + [0], grabs)) {
      ExecuteAppend(t, ops, Down);
      ChildInTree(t, paths[j], at, k, 0);
    }
  }

  lemma ChildInTree(t: Tree, p: Path, base: Path, k: nat, m: nat)
    requires InTree(t, p) && base + [k] <= p && m <= k
    ensures InTree(t, base + [m])
  {
    PrefixInTree(t, p, |base| + 1);
    assert p[..|base| + 1] == base + [k];
    LeftInTree(t, base + [k], m);
    assert (base + [k])[..|base + [k]| - 1] == base;
  }

  /** A hole lies under child `k` of the parent, further right. */
  lemma StepRight(paths: seq<Path>, ops: seq<NavOp>, base: Path, m: nat, grabs: seq<(nat, Path)>, j: nat, k: nat)
    requires Reaches(paths, ops, base + [m], grabs) && m < k && j < |paths| && base + [k] <= paths[j]
    ensures Reaches(paths, ops + [Right], base + [m + 1], grabs)
  {
    var at := base + [m];
    assert at[..|at| - 1] == base && at[|at| - 1] == m;
    forall t | AllIn(t, paths) ensures Execute(t, ops + [Right]) == Some(Walk(base + [m + 1], grabs)) {
      ExecuteAppend(t, ops, Right);
      ChildInTree(t, paths[j], base, k, m + 1);
    }
  }

  lemma StepGrab(paths: seq<Path>, ops: seq<NavOp>, at: Path, grabs: seq<(nat, Path)>, i: nat)
    requires Reaches(paths, ops, at, grabs)
    ensures Reaches(paths, ops + [Grab(i)], at, grabs + [(i, at)])
  {
    forall t | AllIn(t, paths) ensures Execute(t, ops + [Grab(i)]) == Some(Walk(at, grabs + [(i, at)])) {
      ExecuteAppend(t, ops, Grab(i));
    }
  }

  ghost function GrabsOf(paths: seq<Path>, sorted: seq<nat>): seq<(nat, Path)>
    requires forall k :: 0 <= k < |sorted| ==> sorted[k] < |paths|
  {
    seq(|sorted|, k requires 0 <= k < |sorted| => (sorted[k], paths[sorted[k]]))
  }

  /** On every tree that has the holes, the walk stays on the tree and grabs the
      holes in document order, each at its own path. */
  ghost predicate Walks(paths: seq<Path>, ops: seq<NavOp>) {
    exists sorted, at :: SortedHoles(paths, sorted) && Reaches(paths, ops, at, GrabsOf(paths, sorted))
  }

  /** Up to an ancestor. */
  method GoUp(paths: seq<Path>, ops: seq<NavOp>, at: Path, depth: nat, ghost grabs: seq<(nat, Path)>) returns (ops': seq<NavOp>)
    requires Reaches(paths, ops, at, grabs) && depth <= |at|
    ensures Reaches(paths, ops', at[..depth], grabs)
  {
    ops' := ops;
    assert at[..|at|] == at;
    for i := |at| downto depth
      invariant Reaches(paths, ops', at[..i], grabs)
    {
      assert at[..i + 1][..i] == at[..i];
      StepUp(paths, ops', at[..i + 1], grabs);
      ops' := ops' + [Up];
    }
  }

  /** Right to a sibling. */
  method GoRight(paths: seq<Path>, ops: seq<NavOp>, ghost base: Path, from: nat, to: nat, ghost j: nat, ghost grabs: seq<(nat, Path)>)
    returns (ops': seq<NavOp>)
    requires Reaches(paths, ops, base + [from], grabs) && from <= to && j < |paths| && base + [to] <= paths[j]
    ensures Reaches(paths, ops', base + [to], grabs)
  {
    ops' := ops;
    for i := from to to
      invariant Reaches(paths, ops', base + [i], grabs)
    {
      StepRight(paths, ops', base, i, grabs, j, to);
      ops' := ops' + [Right];
    }
  }

  /** Down to a child. */
  method GoDown(paths: seq<Path>, ops: seq<NavOp>, ghost at: Path, k: nat, ghost j: nat, ghost grabs: seq<(nat, Path)>) returns (ops': seq<NavOp>)
    requires Reaches(paths, ops, at, grabs) && j < |paths| && at + [k] <= paths[j]
    ensures Reaches(paths, ops', at + [k], grabs)
  {
    StepDown(paths, ops, at, grabs, j, k);
    ops' := GoRight(paths, ops + [Down], at, 0, k, j, grabs);
  }

  method CommonDepth(current: Path, target: Path) returns (depth: nat)
    ensures depth <= |current| && depth <= |target| && current[..depth] == target[..depth]
    ensures depth < |current| && depth < |target| ==> current[depth] != target[depth]
  {
    depth := 0;
    while depth < |current| && depth < |target| && current[depth] == target[depth]
      invariant depth <= |current| && depth <= |target| && current[..depth] == target[..depth]
    {
      assert current[..depth + 1] == current[..depth] + [current[depth]] && target[..depth + 1] == target[..depth] + [target[depth]];
      depth := depth + 1;
    }
  }

  /** From one hole to the next in document order. */
  method MoveTo(paths: seq<Path>, ops: seq<NavOp>, current: Path, target: Path, ghost j: nat, ghost grabs: seq<(nat, Path)>) returns (ops': seq<NavOp>)
    requires Reaches(paths, ops, current, grabs) && j < |paths| && paths[j] == target && Before(current, target)
    ensures Reaches(paths, ops', target, grabs)
  {
    var commonDepth := CommonDepth(current, target);
    if |current| == |target| && |current| > 0 && commonDepth == |current| - 1 {
      var n := |current| - 1;
      CommonThenLess(current, target, n);
      assert current == target[..n] + [current[n]] && target == target[..n] + [target[n]];
      ops' := GoRight(paths, ops, target[..n], current[n], target[n], j, grabs);
      return;
    }
    ops' := GoUp(paths, ops, current, commonDepth, grabs);
    for depth := commonDepth to |target|
      invariant Reaches(paths, ops', target[..depth], grabs)
    {
      var targetIndex := target[depth];
      assert target[..depth + 1] == target[..depth] + [targetIndex];
      ops' := GoDown(paths, ops', target[..depth], targetIndex, j, grabs);
    }
    assert target[..|target|] == target;
  }

  lemma {:induction false} CommonThenLess(a: Path, b: Path, n: nat)
    requires n < |a| && n < |b| && a[..n] == b[..n] && Before(a, b)
    ensures a[n] <= b[n]
  {
    if n > 0 {
      assert a[0] == a[..n][0] && b[0] == b[..n][0];
      assert a[1..][..n - 1] == a[..n][1..] && b[1..][..n - 1] == b[..n][1..];
      CommonThenLess(a[1..], b[1..], n - 1);
    }
  }

  method PlanWalk(paths: seq<Path>) returns (ops: seq<NavOp>)
    ensures Walks(paths, ops)
  {
    var sorted := SortHoles(paths);
    ops := [];
    var current: Path := [];
    ghost var grabs: seq<(nat, Path)> := [];
    for k := 0 to |sorted|
      invariant Reaches(paths, ops, current, grabs)
      invariant grabs == GrabsOf(paths, sorted[..k])
      invariant k < |sorted| ==> Before(current, paths[sorted[k]])
    {
      var target := paths[sorted[k]];
      if |target| == 0 {
        assert current == [];
      } else {
        ops := MoveTo(paths, ops, current, target, sorted[k], grabs);
      }
      StepGrab(paths, ops, target, grabs, sorted[k]);
      ops := ops + [Grab(sorted[k])];
      grabs := grabs + [(sorted[k], target)];
      current := target;
      assert sorted[..k + 1] == sorted[..k] + [sorted[k]];
      if k + 1 < |sorted| {
        assert Ahead(paths, sorted[k], sorted[k + 1]);
      }
    }
    assert sorted[..|sorted|] == sorted;
  }

  /** Every hole is grabbed exactly once. */
  lemma EachHoleOnce(paths: seq<Path>, sorted: seq<nat>, i: nat)
    requires SortedHoles(paths, sorted) && i < |paths|
    ensures exists k :: 0 <= k < |sorted| && GrabsOf(paths, sorted)[k] == (i, paths[i])
    ensures forall j, k :: 0 <= j < k < |sorted| ==> GrabsOf(paths, sorted)[j].0 != GrabsOf(paths, sorted)[k].0
  {
    var all := seq(|paths|, x requires 0 <= x < |paths| => x);
    assert all[i] == i;
    assert i in multiset(all);
    assert i in sorted;
    var k :| 0 <= k < |sorted| && sorted[k] == i;
    assert GrabsOf(paths, sorted)[k] == (i, paths[i]);
    forall j, k | 0 <= j < k < |sorted| ensures sorted[j] != sorted[k] {
      assert Ahead(paths, sorted[j], sorted[k]);
    }
  }

  /** Holes already in document order are grabbed in their own order. */
  lemma AlreadySorted(paths: seq<Path>, sorted: seq<nat>)
    requires SortedHoles(paths, sorted) && forall i, j :: 0 <= i < j < |paths| ==> Before(paths[i], paths[j])
    ensures sorted == seq(|paths|, i requires 0 <= i < |paths| => i)
  {
    forall j, k | 0 <= j < k < |sorted| ensures sorted[j] < sorted[k] {
      assert Ahead(paths, sorted[j], sorted[k]);
      if sorted[k] < sorted[j] {
        BeforeIsOrder(paths[sorted[j]], paths[sorted[k]], []);
      }
    }
    SameLength(sorted, seq(|paths|, i requires 0 <= i < |paths| => i));
    forall k | 0 <= k < |sorted| ensures sorted[k] == k {
      RisingFromBelow(sorted, k);
      RisingFromAbove(sorted, |paths|, k);
    }
  }

  lemma SameLength(a: seq<nat>, b: seq<nat>)
    requires multiset(a) == multiset(b)
    ensures |a| == |b|
  {
    assert |multiset(a)| == |a| && |multiset(b)| == |b|;
  }

  lemma {:induction false} RisingFromBelow(xs: seq<nat>, k: nat)
    requires k < |xs| && forall i, j :: 0 <= i < j < |xs| ==> xs[i] < xs[j]
    ensures xs[k] >= k
  {
    if k > 0 {
      RisingFromBelow(xs, k - 1);
    }
  }

  lemma {:induction false} RisingFromAbove(xs: seq<nat>, n: nat, k: nat)
    requires k < |xs| == n && (forall i :: 0 <= i < n ==> xs[i] < n) && forall i, j :: 0 <= i < j < |xs| ==> xs[i] < xs[j]
    ensures xs[k] <= k
    decreases n - k
  {
    if k + 1 < n {
      RisingFromAbove(xs, n, k + 1);
    }
  }
}
