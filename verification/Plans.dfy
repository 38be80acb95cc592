/** The rule evaluation plan: source, mask and order of every body element
    (packages/datalog/src/evaluate.ts, "The rule evaluation plan"). */
module Plans {
  import opened Prelude
  import opened Syntax
  import opened Unify
  import opened FiniteSums
  import opened Databases
  import opened Joins

  datatype StepSource = FromDelta | FromNew | FromOld

  datatype EvalStep = EvalStep(element: Element, index: nat, source: StepSource, isDeltaSource: bool, mask: Mask)

  /** Relation sizes for cost estimation: the post-delta database and the delta. */
  datatype PlanSizes = PlanSizes(current: Store, delta: Store)

  datatype Cost = Finite(tuples: nat) | Infinite

  predicate Cheaper(a: Cost, b: Cost) {
    a.Finite? && (b.Infinite? || a.tuples < b.tuples)
  }

  const COST_FILTER := Finite(0)
  const COST_LOOKUP := Finite(1)

  predicate AllBound(terms: seq<Term>, bound: set<string>) {
    forall i :: 0 <= i < |terms| ==> terms[i].Var? ==> terms[i].name in bound
  }

  /** How many tuples the element would have to visit if evaluated next. */
  function EstimateCost(el: Element, isDeltaSource: bool, bound: set<string>, sizes: PlanSizes): Cost {
    var db := if isDeltaSource then sizes.delta else sizes.current;
    match el
    case Positive(a) => ScanCost(a, bound, db)
    case Negation(a) =>
      if isDeltaSource then ScanCost(a, bound, db)
      else if AllBound(a.terms, bound) then COST_FILTER else Infinite
    case Guard(_, left, right) => if AllBound([left, right], bound) then COST_FILTER else Infinite
  }

  function ScanCost(a: Atom, bound: set<string>, db: Store): Cost {
    if KnownMask(a, bound) != {} then COST_LOOKUP else Finite(|Get(db, a.pred).order|)
  }

  predicate IsKnown(term: Term, bound: set<string>) {
    term.Const? || (term.Var? && term.name in bound)
  }

  /** A filter costs nothing once its variables are bound and cannot run before. A scan
      costs one lookup if a position it can index by is known, and otherwise all that
      is stored, in the delta if the delta drives it. */
  lemma CostsAre(el: Element, isDeltaSource: bool, bound: set<string>, sizes: PlanSizes)
    ensures el.Guard? || (el.Negation? && !isDeltaSource) ==>
      EstimateCost(el, isDeltaSource, bound, sizes) == if ElementVars(el) <= bound then Finite(0) else Infinite
    ensures el.Positive? || (el.Negation? && isDeltaSource) ==>
      EstimateCost(el, isDeltaSource, bound, sizes)
      == if |el.atom.terms| <= 31 && exists i :: 0 <= i < |el.atom.terms| && IsKnown(el.atom.terms[i], bound) then Finite(1)
         else Finite(|Get(if isDeltaSource then sizes.delta else sizes.current, el.atom.pred).order|)
  {
    if el.Guard? || el.Negation? {
      var terms := if el.Guard? then [el.left, el.right] else el.atom.terms;
      VarsAreBound(terms, bound);
    }
    if el.ReadsRelation() {
      SomeKnown(el.atom, bound);
    }
  }

  lemma VarsAreBound(terms: seq<Term>, bound: set<string>)
    ensures AllBound(terms, bound) <==> TermVars(terms) <= bound
  {
    if TermVars(terms) <= bound {
      forall i | 0 <= i < |terms| && terms[i].Var? ensures terms[i].name in bound {
        assert terms[i].name in TermVars(terms);
      }
    }
  }

  lemma SomeKnown(a: Atom, bound: set<string>)
    ensures KnownMask(a, bound) != {} <==> |a.terms| <= 31 && exists i :: 0 <= i < |a.terms| && IsKnown(a.terms[i], bound)
  {
    if i :| 0 <= i < |a.terms| && IsKnown(a.terms[i], bound) {
      assert |a.terms| <= 31 ==> i in KnownMask(a, bound);
    }
    if KnownMask(a, bound) != {} {
      var i :| i in KnownMask(a, bound);
      assert IsKnown(a.terms[i], bound);
    }
  }

  /** Which database an element reads, by the asymmetric-join rule: keyed on the
      element's place in the body as written, not on when it runs. */
  function SourceFor(el: Element, index: nat, deltaIdx: int, deltaPreds: set<string>): StepSource {
    if index == deltaIdx then FromDelta
    else if deltaIdx < 0 then FromNew
    else if el.Guard? then FromNew
    else if index < deltaIdx && el.atom.pred in deltaPreds then FromNew
    else FromOld
  }

  /** The variables bound once the elements listed in `order` have run. */
  function BoundAfter(body: seq<Element>, deltaIdx: int, order: seq<nat>): set<string>
    requires forall k :: 0 <= k < |order| ==> order[k] < |body|
  {
    if order == [] then {}
    else
      var last := order[|order| - 1];
      BoundAfter(body, deltaIdx, order[..|order| - 1]) + BoundBy(body[last], last == deltaIdx)
  }

  /** Every filter runs after its variables are bound. */
  ghost predicate FiltersBound(body: seq<Element>, deltaIdx: int, order: seq<nat>)
    requires forall k :: 0 <= k < |order| ==> order[k] < |body|
  {
    forall k :: 0 <= k < |order| ==>
      var el := body[order[k]];
      ElementVars(el) <= BoundAfter(body, deltaIdx, order[..k]) + BoundBy(el, order[k] == deltaIdx)
  }

  ghost predicate InRange(order: seq<nat>, n: nat) {
    forall k :: 0 <= k < |order| ==> order[k] < n
  }

  /** The cheapest candidate, the first one among equals; none when no
      candidate can be evaluated yet. */
  method PickCheapest(rule: Rule, deltaIdx: int, pending: seq<nat>, bound: set<string>, sizes: PlanSizes)
    returns (best: Option<nat>)
    requires InRange(pending, |rule.body|)
    ensures best.Some? ==> best.value < |pending|
    ensures best.Some? ==>
      var cost := (i: nat) requires i < |rule.body| => EstimateCost(rule.body[i], i == deltaIdx, bound, sizes);
      && cost(pending[best.value]).Finite?
      && (forall k :: 0 <= k < best.value ==> Cheaper(cost(pending[best.value]), cost(pending[k])))
      && (forall k :: 0 <= k < |pending| ==> !Cheaper(cost(pending[k]), cost(pending[best.value])))
    ensures best.None? ==> forall k :: 0 <= k < |pending| ==>
      EstimateCost(rule.body[pending[k]], pending[k] == deltaIdx, bound, sizes).Infinite?
  {
    best := None;
    var bestCost := Infinite;
    for k := 0 to |pending|
      invariant best.None? ==> bestCost.Infinite?
      invariant best.Some? ==> best.value < k && bestCost.Finite?
      invariant best.Some? ==>
        bestCost == EstimateCost(rule.body[pending[best.value]], pending[best.value] == deltaIdx, bound, sizes)
      invariant best.Some? ==> forall j :: 0 <= j < best.value ==>
        Cheaper(bestCost, EstimateCost(rule.body[pending[j]], pending[j] == deltaIdx, bound, sizes))
      invariant forall j :: 0 <= j < k ==>
        !Cheaper(EstimateCost(rule.body[pending[j]], pending[j] == deltaIdx, bound, sizes), bestCost)
    {
      var cost := EstimateCost(rule.body[pending[k]], pending[k] == deltaIdx, bound, sizes);
      if Cheaper(cost, bestCost) {
        best := Some(k);
        bestCost := cost;
      }
    }
  }

  /** `order` and `pending` together list every index below `n` once. */
  ghost predicate Split(order: seq<nat>, pending: seq<nat>, n: nat) {
    IsPermutation(order + pending, n)
  }

  lemma SourceOrderIsPermutation(order: seq<nat>)
    requires forall i :: 0 <= i < |order| ==> order[i] == i
    ensures IsPermutation(order, |order|)
  {
    forall i: nat ensures i in order <==> i < |order| {
      if i < |order| {
        assert order[i] == i;
      }
    }
  }

  lemma SplitMove(order: seq<nat>, pending: seq<nat>, k: nat, n: nat)
    requires Split(order, pending, n) && k < |pending|
    ensures Split(order + [pending[k]], pending[..k] + pending[k + 1..], n)
  {
    var old_ := order + pending;
    var new_ := order + [pending[k]] + (pending[..k] + pending[k + 1..]);
    var m := |order|;
    assert old_[m + k] == pending[k];
    forall i | 0 <= i < |new_|
      ensures new_[i] == old_[if i < m then i else if i == m then m + k else if i <= m + k then i - 1 else i]
    {
    }
    forall i: nat ensures i in new_ <==> i < n {
      if i < n {
        assert i in old_;
        var o :| 0 <= o < |old_| && old_[o] == i;
        assert new_[if o < m then o else if o == m + k then m else if o < m + k then o + 1 else o] == i;
      }
      if i in new_ {
        var o :| 0 <= o < |new_| && new_[o] == i;
        var j := if o < m then o else if o == m then m + k else if o <= m + k then o - 1 else o;
        assert old_[j] == i && i in old_;
      }
    }
  }

  lemma SplitInRange(order: seq<nat>, pending: seq<nat>, n: nat)
    requires Split(order, pending, n)
    ensures InRange(order, n) && InRange(pending, n)
  {
    var all := order + pending;
    assert forall k :: 0 <= k < |order| ==> order[k] == all[k] && all[k] in all;
    assert forall k :: 0 <= k < |pending| ==> pending[k] == all[|order| + k] && all[|order| + k] in all;
  }

  lemma {:induction false} BoundAfterIncludes(body: seq<Element>, deltaIdx: int, order: seq<nat>, k: nat)
    requires InRange(order, |body|) && k < |order|
    ensures BoundBy(body[order[k]], order[k] == deltaIdx) <= BoundAfter(body, deltaIdx, order)
  {
    if k < |order| - 1 {
      BoundAfterIncludes(body, deltaIdx, order[..|order| - 1], k);
    }
  }

  /** While a positive atom is pending it can be taken; once none is, every
      variable of a safe rule is bound. Either way something can be evaluated. */
  lemma SafeNeverStuck(rule: Rule, deltaIdx: int, order: seq<nat>, pending: seq<nat>, sizes: PlanSizes)
    requires SafeRule(rule) && Split(order, pending, |rule.body|) && pending != []
    ensures InRange(order, |rule.body|) && InRange(pending, |rule.body|)
    ensures exists k ::
      0 <= k < |pending| && EstimateCost(rule.body[pending[k]], pending[k] == deltaIdx, BoundAfter(rule.body, deltaIdx, order), sizes).Finite?
  {
    SplitInRange(order, pending, |rule.body|);
    var bound := BoundAfter(rule.body, deltaIdx, order);
    if k :| 0 <= k < |pending| && rule.body[pending[k]].Positive? {
      assert EstimateCost(rule.body[pending[k]], pending[k] == deltaIdx, bound, sizes).Finite?;
    } else {
      assert forall j :: j in pending ==> !rule.body[j].Positive?;
      forall x | x in PositiveVars(rule.body) ensures x in bound {
        var i :| 0 <= i < |rule.body| && rule.body[i].Positive? && x in ElementVars(rule.body[i]);
        assert i in order + pending;
        var o :| 0 <= o < |order| && order[o] == i;
        BoundAfterIncludes(rule.body, deltaIdx, order, o);
      }
      var el := rule.body[pending[0]];
      assert SafeElement(el, PositiveVars(rule.body));
      SafeVarsBound(el, bound);
      assert EstimateCost(el, pending[0] == deltaIdx, bound, sizes).Finite?;
    }
  }

  lemma SafeVarsBound(el: Element, bound: set<string>)
    requires ElementVars(el) <= bound
    ensures el.Negation? ==> AllBound(el.atom.terms, bound)
    ensures el.Guard? ==> AllBound([el.left, el.right], bound)
  {
    var terms := if el.Guard? then [el.left, el.right] else el.atom.terms;
    forall i | 0 <= i < |terms| && terms[i].Var? ensures terms[i].name in bound {
      assert terms[i].name in TermVars(terms);
    }
  }

  lemma FiniteCostIsBound(el: Element, isDeltaSource: bool, bound: set<string>, sizes: PlanSizes)
    requires EstimateCost(el, isDeltaSource, bound, sizes).Finite?
    ensures ElementVars(el) <= bound + BoundBy(el, isDeltaSource)
  {
  }

  /** With these variables bound, `y` is not cheaper than `x`, and if it stands before
      `x` in the body it is dearer. */
  predicate Prefers(body: seq<Element>, deltaIdx: int, bound: set<string>, sizes: PlanSizes, x: nat, y: nat)
    requires x < |body| && y < |body|
  {
    var a, b := EstimateCost(body[x], x == deltaIdx, bound, sizes), EstimateCost(body[y], y == deltaIdx, bound, sizes);
    !Cheaper(b, a) && (y < x ==> Cheaper(a, b))
  }

  /** Every element was the best choice among those that come after it, with what was
      bound when it was chosen. */
  ghost predicate Greedy(body: seq<Element>, deltaIdx: int, order: seq<nat>, sizes: PlanSizes)
    requires InRange(order, |body|)
  {
    forall k, l :: 0 <= k < l < |order| ==> Prefers(body, deltaIdx, BoundAfter(body, deltaIdx, order[..k]), sizes, order[k], order[l])
  }

  /** So far, among those chosen later and those still pending. */
  ghost predicate GreedySoFar(body: seq<Element>, deltaIdx: int, order: seq<nat>, pending: seq<nat>, sizes: PlanSizes)
    requires InRange(order, |body|) && InRange(pending, |body|)
  {
    && Greedy(body, deltaIdx, order, sizes)
    && (forall k, j :: 0 <= k < |order| && 0 <= j < |pending| ==>
          Prefers(body, deltaIdx, BoundAfter(body, deltaIdx, order[..k]), sizes, order[k], pending[j]))
    && forall i, j :: 0 <= i < j < |pending| ==> pending[i] < pending[j]
  }

  lemma GreedyStarts(body: seq<Element>, deltaIdx: int, pending: seq<nat>, sizes: PlanSizes)
    requires |pending| == |body| && forall i :: 0 <= i < |pending| ==> pending[i] == i
    ensures InRange(pending, |body|) && InRange([], |body|) && GreedySoFar(body, deltaIdx, [], pending, sizes)
  {
  }

  lemma GreedyMove(body: seq<Element>, deltaIdx: int, order: seq<nat>, pending: seq<nat>, k: nat, sizes: PlanSizes)
    requires InRange(order, |body|) && InRange(pending, |body|) && k < |pending|
    requires GreedySoFar(body, deltaIdx, order, pending, sizes)
    requires forall j :: 0 <= j < |pending| && j != k ==> Prefers(body, deltaIdx, BoundAfter(body, deltaIdx, order), sizes, pending[k], pending[j])
    ensures var longer, rest := order + [pending[k]], pending[..k] + pending[k + 1..];
      InRange(longer, |body|) && InRange(rest, |body|) && GreedySoFar(body, deltaIdx, longer, rest, sizes)
  {
    hide Prefers, BoundAfter;
    var longer, rest := order + [pending[k]], pending[..k] + pending[k + 1..];
    forall j | 0 <= j < |rest| ensures rest[j] == pending[if j < k then j else j + 1] {
    }
    assert longer[..|order|] == order;
    forall i | 0 <= i < |order| ensures longer[i] == order[i] && longer[..i] == order[..i] {
    }
  }

  lemma ChoicePrefers(body: seq<Element>, deltaIdx: int, bound: set<string>, sizes: PlanSizes, pending: seq<nat>, best: nat)
    requires InRange(pending, |body|) && best < |pending| && forall i, j :: 0 <= i < j < |pending| ==> pending[i] < pending[j]
    requires forall k :: 0 <= k < best ==>
      Cheaper(EstimateCost(body[pending[best]], pending[best] == deltaIdx, bound, sizes), EstimateCost(body[pending[k]], pending[k] == deltaIdx, bound, sizes))
    requires forall k :: 0 <= k < |pending| ==>
      !Cheaper(EstimateCost(body[pending[k]], pending[k] == deltaIdx, bound, sizes), EstimateCost(body[pending[best]], pending[best] == deltaIdx, bound, sizes))
    ensures forall j :: 0 <= j < |pending| && j != best ==> Prefers(body, deltaIdx, bound, sizes, pending[best], pending[j])
  {
    hide EstimateCost;
  }

  lemma DearBindsNothing(el: Element, isDeltaSource: bool, bound: set<string>, sizes: PlanSizes)
    requires EstimateCost(el, isDeltaSource, bound, sizes).Infinite?
    ensures BoundBy(el, isDeltaSource) == {}
  {
  }

  lemma {:induction false} DearestBind(body: seq<Element>, deltaIdx: int, order: seq<nat>, pending: seq<nat>, n: nat, sizes: PlanSizes)
    requires InRange(order, |body|) && InRange(pending, |body|) && n <= |pending|
    requires forall j :: 0 <= j < |pending| ==>
      EstimateCost(body[pending[j]], pending[j] == deltaIdx, BoundAfter(body, deltaIdx, order), sizes).Infinite?
    ensures InRange(order + pending[..n], |body|)
    ensures BoundAfter(body, deltaIdx, order + pending[..n]) == BoundAfter(body, deltaIdx, order)
  {
    if n == 0 {
      assert order + pending[..0] == order;
    } else {
      DearestBind(body, deltaIdx, order, pending, n - 1, sizes);
      assert (order + pending[..n])[..|order| + n - 1] == order + pending[..n - 1];
      DearBindsNothing(body[pending[n - 1]], pending[n - 1] == deltaIdx, BoundAfter(body, deltaIdx, order), sizes);
    }
  }

  /** Where nothing can be evaluated what is left keeps the order of the body. */
  lemma RestAsWritten(body: seq<Element>, deltaIdx: int, order: seq<nat>, pending: seq<nat>, sizes: PlanSizes)
    requires InRange(order, |body|) && InRange(pending, |body|) && GreedySoFar(body, deltaIdx, order, pending, sizes)
    requires forall j :: 0 <= j < |pending| ==>
      EstimateCost(body[pending[j]], pending[j] == deltaIdx, BoundAfter(body, deltaIdx, order), sizes).Infinite?
    ensures InRange(order + pending, |body|) && Greedy(body, deltaIdx, order + pending, sizes)
  {
    hide BoundAfter, EstimateCost;
    var all := order + pending;
    forall k, l | 0 <= k < l < |all| ensures Prefers(body, deltaIdx, BoundAfter(body, deltaIdx, all[..k]), sizes, all[k], all[l]) {
      if k < |order| {
        assert all[..k] == order[..k];
        if l < |order| {
          assert all[l] == order[l];
        } else {
          assert all[l] == pending[l - |order|];
        }
      } else {
        DearestBind(body, deltaIdx, order, pending, k - |order|, sizes);
        assert all[..k] == order + pending[..k - |order|];
        assert all[k] == pending[k - |order|] && all[l] == pending[l - |order|];
      }
    }
  }

  /** The order of evaluation is a permutation of the body, each element the cheapest
      one when it is chosen; for a safe rule every negation and guard comes after the
      atoms that bind its variables. Without sizes it is the order of the body. */
  method PlanOrder(rule: Rule, deltaIdx: int, sizes: Option<PlanSizes>) returns (order: seq<nat>)
    ensures IsPermutation(order, |rule.body|) && InRange(order, |rule.body|)
    ensures SafeRule(rule) && sizes.Some? ==> FiltersBound(rule.body, deltaIdx, order)
    ensures if sizes.Some? then Greedy(rule.body, deltaIdx, order, sizes.value) else forall k :: 0 <= k < |order| ==> order[k] == k
  {
    hide Greedy, Prefers, EstimateCost;
    var pending: seq<nat> := seq(|rule.body|, i => i);
    order := [];
    assert order + pending == pending;
    SourceOrderIsPermutation(pending);
    if sizes.None? {
      return pending;
    }
    GreedyStarts(rule.body, deltaIdx, pending, sizes.value);
    var bound: set<string> := {};
    while pending != []
      invariant Split(order, pending, |rule.body|)
      invariant InRange(order, |rule.body|) && bound == BoundAfter(rule.body, deltaIdx, order)
      invariant SafeRule(rule) ==> FiltersBound(rule.body, deltaIdx, order)
      invariant InRange(pending, |rule.body|) && GreedySoFar(rule.body, deltaIdx, order, pending, sizes.value)
      decreases |pending|
    {
      SplitInRange(order, pending, |rule.body|);
      var best := PickCheapest(rule, deltaIdx, pending, bound, sizes.value);
      if best.None? {
        if SafeRule(rule) {
          SafeNeverStuck(rule, deltaIdx, order, pending, sizes.value);
          assert false;
        }
        SplitInRange(order + pending, [], |rule.body|);
        RestAsWritten(rule.body, deltaIdx, order, pending, sizes.value);
        return order + pending;
      }
      var k := best.value;
      var next := pending[k];
      FiniteCostIsBound(rule.body[next], next == deltaIdx, bound, sizes.value);
      SplitMove(order, pending, k, |rule.body|);
      ChoicePrefers(rule.body, deltaIdx, bound, sizes.value, pending, k);
      GreedyMove(rule.body, deltaIdx, order, pending, k, sizes.value);
      ghost var longer := order + [next];
      assert longer[..|order|] == order;
      assert forall j :: 0 <= j < |order| ==> longer[j] == order[j] && longer[..j] == order[..j];
      pending := pending[..k] + pending[k + 1..];
      order := order + [next];
      bound := bound + BoundBy(rule.body[next], next == deltaIdx);
    }
    assert order + pending == order;
  }

  /** What a plan has to be for its execution to be right. */
  ghost predicate PlanFor(rule: Rule, deltaIdx: int, deltaPreds: set<string>, order: seq<nat>, steps: seq<EvalStep>) {
    && IsPermutation(order, |rule.body|) && InRange(order, |rule.body|)
    && |steps| == |order|
    && forall k :: 0 <= k < |steps| ==>
         && steps[k].index == order[k]
         && steps[k].element == rule.body[order[k]]
         && steps[k].source == SourceFor(rule.body[order[k]], order[k], deltaIdx, deltaPreds)
         && (steps[k].isDeltaSource <==> order[k] == deltaIdx)
         && steps[k].mask == (if rule.body[order[k]].ReadsRelation()
                              then KnownMask(rule.body[order[k]].atom, BoundAfter(rule.body, deltaIdx, order[..k]))
                              else {})
  }

  /** Every step's mask holds positions whose values are known in every
      substitution that reaches the step. */
  method PlanRuleEvaluation(rule: Rule, deltaIdx: int, deltaPreds: set<string>, sizes: Option<PlanSizes>)
    returns (steps: seq<EvalStep>, ghost order: seq<nat>)
    ensures PlanFor(rule, deltaIdx, deltaPreds, order, steps)
    ensures SafeRule(rule) && sizes.Some? ==> FiltersBound(rule.body, deltaIdx, order)
  {
    hide FiltersBound, SafeRule, KnownMask, SourceFor, BoundBy, Greedy;
    var chosen := PlanOrder(rule, deltaIdx, sizes);
    order := chosen;
    steps := [];
    var bound: set<string> := {};
    for k := 0 to |chosen|
      invariant |steps| == k
      invariant InRange(chosen[..k], |rule.body|) && bound == BoundAfter(rule.body, deltaIdx, chosen[..k])
      invariant forall j :: 0 <= j < k ==>
         && steps[j].index == order[j]
         && steps[j].element == rule.body[order[j]]
         && steps[j].source == SourceFor(rule.body[order[j]], order[j], deltaIdx, deltaPreds)
         && (steps[j].isDeltaSource <==> order[j] == deltaIdx)
         && steps[j].mask == (if rule.body[order[j]].ReadsRelation()
                              then KnownMask(rule.body[order[j]].atom, BoundAfter(rule.body, deltaIdx, order[..j]))
                              else {})
    {
      var i := chosen[k];
      var element := rule.body[i];
      var mask: Mask := {};
      if element.ReadsRelation() {
        mask := KnownPositions(element.atom, bound);
      }
      steps := steps + [EvalStep(element, i, SourceFor(element, i, deltaIdx, deltaPreds), i == deltaIdx, mask)];
      assert chosen[..k + 1][..k] == chosen[..k];
      bound := bound + BoundBy(element, i == deltaIdx);
    }
  }
}
