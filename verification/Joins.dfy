/** Evaluation of one body element over a list of weighted substitutions, and
    what it does to the weight of a valuation
    (packages/datalog/src/evaluate.ts, "Body element evaluation"). */
module Joins {
  import opened Prelude
  import opened Values
  import opened Syntax
  import opened Unify
  import opened Keys
  import opened ZRelation
  import opened FiniteSums

  // ---------------------------------------------------------------------
  // Specification: lists of substitutions
  // ---------------------------------------------------------------------

  /** One substitution against one entry. A differential negation inverts the
      sign of the entry, and drops what has no weight. */
  function Extension(a: Atom, e: WeightedTuple, sub: Substitution, negated: bool): seq<Substitution> {
    match Match(a, e.tuple, sub)
    case None => []
    case Some(s) =>
      var w := s.weight * (if negated then -e.weight else e.weight);
      if negated && w == 0 then [] else [Substitution(s.bindings, w)]
  }

  function JoinOne(a: Atom, entries: seq<WeightedTuple>, sub: Substitution, negated: bool): seq<Substitution> {
    if entries == [] then []
    else JoinOne(a, entries[..|entries| - 1], sub, negated) + Extension(a, entries[|entries| - 1], sub, negated)
  }

  function Join(a: Atom, entries: seq<WeightedTuple>, subs: seq<Substitution>, negated: bool): seq<Substitution> {
    if subs == [] then []
    else Join(a, entries, subs[..|subs| - 1], negated) + JoinOne(a, entries, subs[|subs| - 1], negated)
  }

  predicate Matched(a: Atom, entries: seq<WeightedTuple>, sub: Substitution) {
    exists i :: 0 <= i < |entries| && Match(a, entries[i].tuple, sub).Some?
  }

  /** The substitutions no entry matches. */
  function Unmatched(a: Atom, entries: seq<WeightedTuple>, subs: seq<Substitution>): seq<Substitution> {
    if subs == [] then []
    else
      var last := subs[|subs| - 1];
      Unmatched(a, entries, subs[..|subs| - 1]) + (if Matched(a, entries, last) then [] else [last])
  }

  function Guarded(op: GuardOp, left: Term, right: Term, subs: seq<Substitution>): seq<Substitution> {
    if subs == [] then []
    else
      var last := subs[|subs| - 1];
      Guarded(op, left, right, subs[..|subs| - 1]) + (if EvaluateGuard(op, left, right, last) then [last] else [])
  }

  /** One step of a plan: `el` reads `rel`, as a delta or as present tuples. */
  function Apply(el: Element, rel: Relation, delta: bool, subs: seq<Substitution>): seq<Substitution> {
    match el
    case Positive(a) => Join(a, rel.Scan(delta), subs, false)
    case Negation(a) =>
      if delta then Join(a, rel.Scan(true), subs, true) else Unmatched(a, rel.Scan(false), subs)
    case Guard(op, left, right) => Guarded(op, left, right, subs)
  }

  // ---------------------------------------------------------------------
  // Methods
  // ---------------------------------------------------------------------

  /** The candidates of `sub`: through an index when the relation has one for
      the mask, by a scan otherwise. */
  method CandidatesFor(a: Atom, rel: Relation, sub: Substitution, allEntries: bool, mask: Mask, indexed: bool, negated: bool)
    returns (entries: seq<WeightedTuple>)
    requires MaskBound(a, mask, sub.bindings.Keys)
    ensures JoinOne(a, entries, sub, negated) == JoinOne(a, rel.Scan(allEntries), sub, negated)
    ensures Matched(a, entries, sub) <==> Matched(a, rel.Scan(allEntries), sub)
  {
    if mask == {} || !indexed {
      return rel.Scan(allEntries);
    }
    var values := BoundValues(a, mask, sub);
    var key := TupleKey(values);
    entries := rel.Candidates(mask, key, allEntries, indexed);
    NarrowKeepsMatches(a, rel.Scan(allEntries), sub, mask, negated);
  }

  /** `sub` against every entry: a product of weights, or, for the entries of a
      negated delta, the product with the sign inverted. */
  method ExtendThrough(a: Atom, entries: seq<WeightedTuple>, sub: Substitution, negated: bool)
    returns (results: seq<Substitution>)
    ensures results == JoinOne(a, entries, sub, negated)
  {
    results := [];
    for j := 0 to |entries|
      invariant results == JoinOne(a, entries[..j], sub, negated)
    {
      assert entries[..j + 1][..j] == entries[..j];
      var extended := MatchAtomWithTuple(a, entries[j].tuple, sub);
      if extended.Some? {
        var factor := if negated then -entries[j].weight else entries[j].weight;
        var weight := if factor == 1 then extended.value.weight else extended.value.weight * factor;
        if !negated || weight != 0 {
          results := results + [Substitution(extended.value.bindings, weight)];
        }
      }
    }
    assert entries[..|entries|] == entries;
  }

  /** The result does not depend on the mask or on an index. */
  method EvaluatePositiveAtom(a: Atom, rel: Relation, subs: seq<Substitution>, allEntries: bool, mask: Mask, indexed: bool)
    returns (results: seq<Substitution>)
    requires forall i :: 0 <= i < |subs| ==> MaskBound(a, mask, subs[i].bindings.Keys)
    ensures results == Join(a, rel.Scan(allEntries), subs, false)
  {
    results := [];
    for i := 0 to |subs|
      invariant results == Join(a, rel.Scan(allEntries), subs[..i], false)
    {
      var entries := CandidatesFor(a, rel, subs[i], allEntries, mask, indexed, false);
      var extended := ExtendThrough(a, entries, subs[i], false);
      results := results + extended;
      assert subs[..i + 1][..i] == subs[..i];
    }
    assert subs[..|subs|] == subs;
  }

  method EvaluateNegation(a: Atom, rel: Relation, subs: seq<Substitution>, mask: Mask, indexed: bool)
    returns (results: seq<Substitution>)
    requires forall i :: 0 <= i < |subs| ==> MaskBound(a, mask, subs[i].bindings.Keys)
    ensures results == Unmatched(a, rel.Scan(false), subs)
  {
    hide Match, MaskBound;
    results := [];
    for i := 0 to |subs|
      invariant results == Unmatched(a, rel.Scan(false), subs[..i])
    {
      var entries := CandidatesFor(a, rel, subs[i], false, mask, indexed, false);
      var matched := false;
      var j := 0;
      while j < |entries| && !matched
        invariant 0 <= j <= |entries|
        invariant matched ==> Matched(a, entries, subs[i])
        invariant !matched ==> forall k :: 0 <= k < j ==> Match(a, entries[k].tuple, subs[i]).None?
        decreases |entries| - j
      {
        var extended := MatchAtomWithTuple(a, entries[j].tuple, subs[i]);
        if extended.Some? {
          matched := true;
        }
        j := j + 1;
      }
      if !matched {
        results := results + [subs[i]];
      }
      assert subs[..i + 1][..i] == subs[..i];
    }
    assert subs[..|subs|] == subs;
  }

  /** Delta entries of a negated atom, with their sign inverted: an appearance
      takes derivations away, a disappearance gives them. */
  method EvaluateDifferentialNegation(a: Atom, delta: Relation, subs: seq<Substitution>, mask: Mask, indexed: bool)
    returns (results: seq<Substitution>)
    requires forall i :: 0 <= i < |subs| ==> MaskBound(a, mask, subs[i].bindings.Keys)
    ensures results == Join(a, delta.Scan(true), subs, true)
  {
    results := [];
    if |delta.order| == 0 {
      JoinNothing(a, subs, true);
      return;
    }
    for i := 0 to |subs|
      invariant results == Join(a, delta.Scan(true), subs[..i], true)
    {
      var entries := CandidatesFor(a, delta, subs[i], true, mask, indexed, true);
      var extended := ExtendThrough(a, entries, subs[i], true);
      results := results + extended;
      assert subs[..i + 1][..i] == subs[..i];
    }
    assert subs[..|subs|] == subs;
  }

  method EvaluateGuardElement(op: GuardOp, left: Term, right: Term, subs: seq<Substitution>)
    returns (results: seq<Substitution>)
    ensures results == Guarded(op, left, right, subs)
  {
    results := [];
    for i := 0 to |subs|
      invariant results == Guarded(op, left, right, subs[..i])
    {
      if EvaluateGuard(op, left, right, subs[i]) {
        results := results + [subs[i]];
      }
      assert subs[..i + 1][..i] == subs[..i];
    }
    assert subs[..|subs|] == subs;
  }

  lemma {:induction false} JoinNothing(a: Atom, subs: seq<Substitution>, negated: bool)
    ensures Join(a, [], subs, negated) == []
  {
    if subs != [] {
      JoinNothing(a, subs[..|subs| - 1], negated);
    }
  }

  lemma MatchedAppend(a: Atom, entries: seq<WeightedTuple>, e: WeightedTuple, sub: Substitution)
    ensures Matched(a, entries + [e], sub) <==> Matched(a, entries, sub) || Match(a, e.tuple, sub).Some?
  {
    var all := entries + [e];
    assert all[|entries|] == e;
    assert forall i :: 0 <= i < |entries| ==> all[i] == entries[i];
  }

  lemma JoinOneAppend(a: Atom, entries: seq<WeightedTuple>, e: WeightedTuple, sub: Substitution, negated: bool)
    ensures JoinOne(a, entries + [e], sub, negated) == JoinOne(a, entries, sub, negated) + Extension(a, e, sub, negated)
  {
    assert (entries + [e])[..|entries|] == entries;
  }

  /** An index narrows the search and loses no match. */
  lemma {:induction false} NarrowKeepsMatches(a: Atom, entries: seq<WeightedTuple>, sub: Substitution, mask: Mask, negated: bool)
    requires MaskBound(a, mask, sub.bindings.Keys)
    ensures var key := TupleKey(BoundPrefix(a, mask, sub, |a.terms|));
      && JoinOne(a, Narrow(entries, mask, key), sub, negated) == JoinOne(a, entries, sub, negated)
      && (Matched(a, Narrow(entries, mask, key), sub) <==> Matched(a, entries, sub))
  {
    var key := TupleKey(BoundPrefix(a, mask, sub, |a.terms|));
    if entries != [] {
      var init, last := entries[..|entries| - 1], entries[|entries| - 1];
      assert entries == init + [last];
      NarrowKeepsMatches(a, init, sub, mask, negated);
      var rest := Narrow(init, mask, key);
      MatchedAppend(a, init, last, sub);
      MatchedAppend(a, rest, last, sub);
      JoinOneAppend(a, init, last, sub, negated);
      JoinOneAppend(a, rest, last, sub, negated);
      if Match(a, last.tuple, sub).Some? {
        MatchAgreesWithProbe(a, mask, sub, last.tuple, |a.terms|);
        assert MaskedKey(last.tuple, mask) == key;
      } else {
        assert Extension(a, last, sub, negated) == [];
      }
    }
  }

  // ---------------------------------------------------------------------
  // The weight of a valuation
  // ---------------------------------------------------------------------

  /** The weight of the substitutions that agree with `sigma`. */
  ghost function SubSum(subs: seq<Substitution>, sigma: Bindings): int {
    if subs == [] then 0
    else
      var last := subs[|subs| - 1];
      SubSum(subs[..|subs| - 1], sigma) + (if SubMap(last.bindings, sigma) then last.weight else 0)
  }

  /** Every substitution binds exactly `bound`. */
  ghost predicate AllBind(subs: seq<Substitution>, bound: set<string>) {
    forall i :: 0 <= i < |subs| ==> subs[i].bindings.Keys == bound
  }

  lemma {:induction false} SubSumConcat(a: seq<Substitution>, b: seq<Substitution>, sigma: Bindings)
    ensures SubSum(a + b, sigma) == SubSum(a, sigma) + SubSum(b, sigma)
  {
    if b == [] {
      assert a + b == a;
    } else {
      assert (a + b)[..|a + b| - 1] == a + b[..|b| - 1];
      SubSumConcat(a, b[..|b| - 1], sigma);
    }
  }

  lemma AllBindConcat(a: seq<Substitution>, b: seq<Substitution>, bound: set<string>)
    requires AllBind(a, bound) && AllBind(b, bound)
    ensures AllBind(a + b, bound)
  {
  }

  /** The signed weight of the entries an atom matches under `sigma`. */
  ghost function AtomSum(a: Atom, entries: seq<WeightedTuple>, negated: bool, sigma: Bindings): int {
    if negated then -MatchSum(a.terms, entries, sigma) else MatchSum(a.terms, entries, sigma)
  }

  lemma ExtensionSum(a: Atom, e: WeightedTuple, sub: Substitution, negated: bool, sigma: Bindings, bound: set<string>)
    requires sub.bindings.Keys == bound
    ensures SubSum(Extension(a, e, sub, negated), sigma)
         == if SubMap(sub.bindings, sigma) then sub.weight * EntryWeight(a, e, negated, sigma) else 0
    ensures AllBind(Extension(a, e, sub, negated), bound + TermVars(a.terms))
  {
    MatchUnder(a, e.tuple, sub, sigma);
    var r := Extension(a, e, sub, negated);
    if r != [] {
      assert r[..0] == [];
    }
  }

  lemma {:induction false} JoinOneSum(a: Atom, entries: seq<WeightedTuple>, sub: Substitution, negated: bool, sigma: Bindings, bound: set<string>)
    requires sub.bindings.Keys == bound
    ensures SubSum(JoinOne(a, entries, sub, negated), sigma)
         == if SubMap(sub.bindings, sigma) then sub.weight * AtomSum(a, entries, negated, sigma) else 0
    ensures AllBind(JoinOne(a, entries, sub, negated), bound + TermVars(a.terms))
  {
    if entries != [] {
      var init, last := entries[..|entries| - 1], entries[|entries| - 1];
      JoinOneSum(a, init, sub, negated, sigma, bound);
      ExtensionSum(a, last, sub, negated, sigma, bound);
      SubSumConcat(JoinOne(a, init, sub, negated), Extension(a, last, sub, negated), sigma);
      AllBindConcat(JoinOne(a, init, sub, negated), Extension(a, last, sub, negated), bound + TermVars(a.terms));
      AtomSumStep(a, entries, negated, sigma);
      Distribute(sub.weight, AtomSum(a, init, negated, sigma), EntryWeight(a, last, negated, sigma));
    }
  }

  /** What one entry adds. */
  ghost function EntryWeight(a: Atom, e: WeightedTuple, negated: bool, sigma: Bindings): int {
    if FitsAll(a.terms, e.tuple, sigma) then (if negated then -e.weight else e.weight) else 0
  }

  lemma AtomSumStep(a: Atom, entries: seq<WeightedTuple>, negated: bool, sigma: Bindings)
    requires entries != []
    ensures AtomSum(a, entries, negated, sigma)
         == AtomSum(a, entries[..|entries| - 1], negated, sigma) + EntryWeight(a, entries[|entries| - 1], negated, sigma)
  {
  }

  /** A join multiplies the weight of every valuation by the weight of the
      entries that fit it. */
  lemma {:induction false} JoinSum(a: Atom, entries: seq<WeightedTuple>, subs: seq<Substitution>, negated: bool, sigma: Bindings, bound: set<string>)
    requires AllBind(subs, bound)
    ensures SubSum(Join(a, entries, subs, negated), sigma) == SubSum(subs, sigma) * AtomSum(a, entries, negated, sigma)
    ensures AllBind(Join(a, entries, subs, negated), bound + TermVars(a.terms))
  {
    if subs != [] {
      var init, last := subs[..|subs| - 1], subs[|subs| - 1];
      var xs, ys := Join(a, entries, init, negated), JoinOne(a, entries, last, negated);
      assert AllBind(init, bound) && last.bindings.Keys == bound;
      JoinSum(a, entries, init, negated, sigma, bound);
      JoinOneSum(a, entries, last, negated, sigma, bound);
      SubSumConcat(xs, ys, sigma);
      AllBindConcat(xs, ys, bound + TermVars(a.terms));
      assert Join(a, entries, subs, negated) == xs + ys;
      var w := if SubMap(last.bindings, sigma) then last.weight else 0;
      var f := AtomSum(a, entries, negated, sigma);
      assert SubSum(ys, sigma) == w * f;
      assert SubSum(subs, sigma) == SubSum(init, sigma) + w;
      DistributeRight(SubSum(init, sigma), w, f);
    }
  }

  lemma DistributeRight(x: int, y: int, f: int)
    ensures (x + y) * f == x * f + y * f
  {
  }

  predicate AnyFits(terms: seq<Term>, entries: seq<WeightedTuple>, sigma: Bindings) {
    exists i :: 0 <= i < |entries| && FitsAll(terms, entries[i].tuple, sigma)
  }

  /** The factor one element contributes to the weight of a valuation. */
  ghost function ElementWeight(el: Element, rel: Relation, delta: bool, sigma: Bindings): int {
    match el
    case Positive(a) => MatchSum(a.terms, rel.Scan(delta), sigma)
    case Negation(a) =>
      if delta then -MatchSum(a.terms, rel.Scan(true), sigma)
      else if AnyFits(a.terms, rel.Scan(false), sigma) then 0 else 1
    case Guard(op, left, right) => if EvaluateGuard(op, left, right, Substitution(sigma, 1)) then 1 else 0
  }

  /** The variables an element binds. Only a negation the delta drives binds. */
  function BoundBy(el: Element, delta: bool): set<string> {
    match el
    case Positive(a) => TermVars(a.terms)
    case Negation(a) => if delta then TermVars(a.terms) else {}
    case Guard(_, _, _) => {}
  }

  /** A substitution that binds the variables of an atom and agrees with a
      valuation is matched by the entries that fit the valuation. */
  lemma MatchedIsAnyFits(a: Atom, entries: seq<WeightedTuple>, sub: Substitution, sigma: Bindings)
    requires SubMap(sub.bindings, sigma) && TermVars(a.terms) <= sub.bindings.Keys
    ensures Matched(a, entries, sub) <==> AnyFits(a.terms, entries, sigma)
  {
    forall i | 0 <= i < |entries|
      ensures Match(a, entries[i].tuple, sub).Some? <==> FitsAll(a.terms, entries[i].tuple, sigma)
    {
      var r := Match(a, entries[i].tuple, sub);
      MatchUnder(a, entries[i].tuple, sub, sigma);
      if r.Some? {
        MatchUnder(a, entries[i].tuple, sub, r.value.bindings);
        assert r.value.bindings.Keys == sub.bindings.Keys;
        SubMapOfSameKeys(sub.bindings, r.value.bindings);
      }
    }
  }

  /** A filter keeps a substitution or drops it. */
  lemma KeepSum(kept: seq<Substitution>, last: Substitution, keep: bool, sigma: Bindings, bound: set<string>)
    requires AllBind(kept, bound) && last.bindings.Keys == bound
    ensures var all := kept + (if keep then [last] else []);
      && SubSum(all, sigma) == SubSum(kept, sigma) + (if keep && SubMap(last.bindings, sigma) then last.weight else 0)
      && AllBind(all, bound)
  {
    if keep {
      SubSumConcat(kept, [last], sigma);
      assert [last][..0] == [];
      AllBindConcat(kept, [last], bound);
    } else {
      assert kept + [] == kept;
    }
  }

  lemma {:induction false} UnmatchedSum(a: Atom, entries: seq<WeightedTuple>, subs: seq<Substitution>, sigma: Bindings, bound: set<string>)
    requires AllBind(subs, bound) && TermVars(a.terms) <= bound
    ensures SubSum(Unmatched(a, entries, subs), sigma) == if AnyFits(a.terms, entries, sigma) then 0 else SubSum(subs, sigma)
    ensures AllBind(Unmatched(a, entries, subs), bound)
  {
    if subs != [] {
      var init, last := subs[..|subs| - 1], subs[|subs| - 1];
      assert AllBind(init, bound) && last.bindings.Keys == bound;
      UnmatchedSum(a, entries, init, sigma, bound);
      KeepSum(Unmatched(a, entries, init), last, !Matched(a, entries, last), sigma, bound);
      if SubMap(last.bindings, sigma) {
        MatchedIsAnyFits(a, entries, last, sigma);
      }
    }
  }

  lemma GuardUnder(op: GuardOp, left: Term, right: Term, sub: Substitution, sigma: Bindings)
    requires SubMap(sub.bindings, sigma) && TermVars([left, right]) <= sub.bindings.Keys
    ensures EvaluateGuard(op, left, right, sub) <==> EvaluateGuard(op, left, right, Substitution(sigma, 1))
  {
    var terms := [left, right];
    assert left == terms[0] && right == terms[1];
    assert left.Var? ==> left.name in TermVars(terms);
    assert right.Var? ==> right.name in TermVars(terms);
  }

  lemma {:induction false} GuardedSum(op: GuardOp, left: Term, right: Term, subs: seq<Substitution>, sigma: Bindings, bound: set<string>)
    requires AllBind(subs, bound) && TermVars([left, right]) <= bound
    ensures SubSum(Guarded(op, left, right, subs), sigma)
         == if EvaluateGuard(op, left, right, Substitution(sigma, 1)) then SubSum(subs, sigma) else 0
    ensures AllBind(Guarded(op, left, right, subs), bound)
  {
    if subs != [] {
      var init, last := subs[..|subs| - 1], subs[|subs| - 1];
      assert AllBind(init, bound) && last.bindings.Keys == bound;
      GuardedSum(op, left, right, init, sigma, bound);
      KeepSum(Guarded(op, left, right, init), last, EvaluateGuard(op, left, right, last), sigma, bound);
      if SubMap(last.bindings, sigma) {
        GuardUnder(op, left, right, last, sigma);
      }
    }
  }

  /** One step of a plan multiplies the weight of every valuation by the factor
      of its element, provided a filter comes after its variables are bound. */
  lemma ApplySum(el: Element, rel: Relation, delta: bool, subs: seq<Substitution>, sigma: Bindings, bound: set<string>)
    requires AllBind(subs, bound)
    requires ElementVars(el) <= bound + BoundBy(el, delta)
    ensures SubSum(Apply(el, rel, delta, subs), sigma) == SubSum(subs, sigma) * ElementWeight(el, rel, delta, sigma)
    ensures AllBind(Apply(el, rel, delta, subs), bound + BoundBy(el, delta))
  {
    match el
    case Positive(a) => JoinSum(a, rel.Scan(delta), subs, false, sigma, bound);
    case Negation(a) =>
      if delta {
        JoinSum(a, rel.Scan(true), subs, true, sigma, bound);
      } else {
        UnmatchedSum(a, rel.Scan(false), subs, sigma, bound);
      }
    case Guard(op, left, right) => GuardedSum(op, left, right, subs, sigma, bound);
  }

  lemma {:induction false} FiltersBind(el: Element, entries: seq<WeightedTuple>, subs: seq<Substitution>, bound: set<string>)
    requires AllBind(subs, bound)
    ensures el.Negation? ==> AllBind(Unmatched(el.atom, entries, subs), bound)
    ensures el.Guard? ==> AllBind(Guarded(el.op, el.left, el.right, subs), bound)
  {
    if subs != [] {
      FiltersBind(el, entries, subs[..|subs| - 1], bound);
    }
  }

  /** Binding is structural: whatever the data, the substitutions after a step
      all bind the same variables. */
  lemma ApplyBinds(el: Element, rel: Relation, delta: bool, subs: seq<Substitution>, bound: set<string>)
    requires AllBind(subs, bound)
    ensures AllBind(Apply(el, rel, delta, subs), bound + BoundBy(el, delta))
  {
    match el
    case Positive(a) => JoinSum(a, rel.Scan(delta), subs, false, map[], bound);
    case Negation(a) =>
      if delta {
        JoinSum(a, rel.Scan(true), subs, true, map[], bound);
      } else {
        FiltersBind(el, rel.Scan(false), subs, bound);
      }
    case Guard(_, _, _) => FiltersBind(el, [], subs, bound);
  }
}
