/** Substitutions and the matching of atoms against ground tuples
    (packages/datalog/src/unify.ts). */
module Unify {
  import opened Prelude
  import opened Values
  import opened Syntax

  type Bindings = map<string, Value>

  datatype Substitution = Substitution(bindings: Bindings, weight: int)

  const EMPTY_SUBSTITUTION := Substitution(map[], 1)

  /** Positions of an atom, by bit number. A 32-bit mask is the set of its set
      bits; `mask | 1 << i` adds `i`, and `mask & 1 << i` asks for it. */
  type Mask = set<nat>

  const MAX_MASKABLE_ARITY := 31

  // ---------------------------------------------------------------------
  // What a match means, under a valuation
  // ---------------------------------------------------------------------

  /** `term` denotes `value` under `sigma`; a wildcard denotes anything. */
  predicate Fits(term: Term, value: Value, sigma: Bindings) {
    match term
    case Const(c) => c == value
    case Var(x) => x in sigma && sigma[x] == value
    case Wildcard => true
  }

  predicate FitsAll(terms: seq<Term>, tuple: Tuple, sigma: Bindings) {
    |terms| == |tuple| && forall i :: 0 <= i < |terms| ==> Fits(terms[i], tuple[i], sigma)
  }

  /** The value of a term that holds no wildcard, under a valuation that binds
      its variable. */
  function ValueOf(term: Term, sigma: Bindings): Value
    requires !term.Wildcard?
    requires term.Var? ==> term.name in sigma
  {
    match term
    case Const(c) => c
    case Var(x) => sigma[x]
  }

  predicate Ground(terms: seq<Term>, sigma: Bindings) {
    NoWildcard(terms) && TermVars(terms) <= sigma.Keys
  }

  /** The tuple that wildcard-free terms denote. */
  function Instance(terms: seq<Term>, sigma: Bindings): (tuple: Tuple)
    requires Ground(terms, sigma)
    ensures |tuple| == |terms|
  {
    seq(|terms|, i requires 0 <= i < |terms| =>
      GroundTermOk(terms, sigma, i); ValueOf(terms[i], sigma))
  }

  lemma GroundTermOk(terms: seq<Term>, sigma: Bindings, i: nat)
    requires Ground(terms, sigma) && i < |terms|
    ensures !terms[i].Wildcard?
    ensures terms[i].Var? ==> terms[i].name in sigma
  {
    if terms[i].Var? {
      assert terms[i].name in TermVars(terms);
    }
  }

  /** Without wildcards one tuple, and only that, fits. */
  lemma FitsIsInstance(terms: seq<Term>, tuple: Tuple, sigma: Bindings)
    requires Ground(terms, sigma)
    ensures FitsAll(terms, tuple, sigma) <==> tuple == Instance(terms, sigma)
  {
    forall i | 0 <= i < |terms|
      ensures !terms[i].Wildcard? && (terms[i].Var? ==> terms[i].name in sigma)
    {
      GroundTermOk(terms, sigma, i);
    }
    if FitsAll(terms, tuple, sigma) {
      assert tuple == Instance(terms, sigma);
    }
  }

  // ---------------------------------------------------------------------
  // Unification
  // ---------------------------------------------------------------------

  function ExtendSubstitution(sub: Substitution, name: string, value: Value): Substitution {
    sub.(bindings := sub.bindings[name := value])
  }

  function ResolveTerm(term: Term, sub: Substitution): Option<Value> {
    match term
    case Const(c) => Some(c)
    case Wildcard => None
    case Var(x) => if x in sub.bindings then Some(sub.bindings[x]) else None
  }

  function UnifyTermWithValue(term: Term, value: Value, sub: Substitution): Option<Substitution> {
    match term
    case Const(c) => if ValuesEqual(c, value) then Some(sub) else None
    case Wildcard => Some(sub)
    case Var(x) =>
      if x in sub.bindings then
        if ValuesEqual(sub.bindings[x], value) then Some(sub) else None
      else Some(ExtendSubstitution(sub, x, value))
  }

  /** Matching the first `n` terms, left to right. */
  function MatchPrefix(terms: seq<Term>, tuple: Tuple, n: nat, sub: Substitution): Option<Substitution>
    requires n <= |terms| == |tuple|
  {
    if n == 0 then Some(sub)
    else
      match MatchPrefix(terms, tuple, n - 1, sub)
      case None => None
      case Some(current) => UnifyTermWithValue(terms[n - 1], tuple[n - 1], current)
  }

  function Match(a: Atom, tuple: Tuple, sub: Substitution): Option<Substitution> {
    if |a.terms| != |tuple| then None else MatchPrefix(a.terms, tuple, |tuple|, sub)
  }

  lemma MatchPrefixFails(terms: seq<Term>, tuple: Tuple, n: nat, m: nat, sub: Substitution)
    requires n <= m <= |terms| == |tuple|
    requires MatchPrefix(terms, tuple, n, sub).None?
    ensures MatchPrefix(terms, tuple, m, sub).None?
  {
  }

  method MatchAtomWithTuple(a: Atom, tuple: Tuple, sub: Substitution) returns (r: Option<Substitution>)
    ensures r == Match(a, tuple, sub)
  {
    if |a.terms| != |tuple| {
      return None;
    }
    var current := sub;
    for i := 0 to |a.terms|
      invariant MatchPrefix(a.terms, tuple, i, sub) == Some(current)
    {
      var next := UnifyTermWithValue(a.terms[i], tuple[i], current);
      if next.None? {
        MatchPrefixFails(a.terms, tuple, i + 1, |tuple|, sub);
        return None;
      }
      current := next.value;
    }
    return Some(current);
  }

  lemma {:induction false} MatchPrefixSound(terms: seq<Term>, tuple: Tuple, n: nat, sub: Substitution)
    requires n <= |terms| == |tuple|
    requires MatchPrefix(terms, tuple, n, sub).Some?
    ensures var s := MatchPrefix(terms, tuple, n, sub).value;
      && s.weight == sub.weight
      && SubMap(sub.bindings, s.bindings)
      && s.bindings.Keys == sub.bindings.Keys + TermVars(terms[..n])
      && forall i :: 0 <= i < n ==> Fits(terms[i], tuple[i], s.bindings)
  {
    if n > 0 {
      MatchPrefixSound(terms, tuple, n - 1, sub);
      assert terms[..n] == terms[..n - 1] + [terms[n - 1]];
      TermVarsAppend(terms[..n - 1], terms[n - 1]);
    }
  }

  lemma TermVarsAppend(terms: seq<Term>, t: Term)
    ensures TermVars(terms + [t]) == TermVars(terms) + (if t.Var? then {t.name} else {})
  {
    var all := terms + [t];
    assert forall i :: 0 <= i < |terms| ==> all[i] == terms[i];
    assert all[|terms|] == t;
    forall x ensures x in TermVars(all) <==> x in TermVars(terms) + (if t.Var? then {t.name} else {}) {
      if x in TermVars(terms) {
        var i :| 0 <= i < |terms| && terms[i].Var? && terms[i].name == x;
        assert all[i].Var? && all[i].name == x;
      }
      if t.Var? && t.name == x {
        assert all[|terms|].Var? && all[|terms|].name == x;
      }
    }
  }

  lemma {:induction false} MatchPrefixComplete(terms: seq<Term>, tuple: Tuple, n: nat, sub: Substitution, sigma: Bindings)
    requires n <= |terms| == |tuple|
    requires SubMap(sub.bindings, sigma)
    requires forall i :: 0 <= i < n ==> Fits(terms[i], tuple[i], sigma)
    ensures MatchPrefix(terms, tuple, n, sub).Some?
    ensures SubMap(MatchPrefix(terms, tuple, n, sub).value.bindings, sigma)
  {
    if n > 0 {
      MatchPrefixComplete(terms, tuple, n - 1, sub, sigma);
    }
  }

  /** What a match does, seen from any valuation `sigma`: the extended
      substitution agrees with `sigma` exactly when the given one did and the
      tuple fits under `sigma`. Nothing else about unification is needed to
      count derivations. */
  lemma MatchUnder(a: Atom, tuple: Tuple, sub: Substitution, sigma: Bindings)
    ensures var r := Match(a, tuple, sub);
      (r.Some? && SubMap(r.value.bindings, sigma)) <==> (SubMap(sub.bindings, sigma) && FitsAll(a.terms, tuple, sigma))
    ensures var r := Match(a, tuple, sub);
      r.Some? ==> && r.value.weight == sub.weight
                  && SubMap(sub.bindings, r.value.bindings)
                  && r.value.bindings.Keys == sub.bindings.Keys + TermVars(a.terms)
                  && FitsAll(a.terms, tuple, r.value.bindings)
  {
    var r := Match(a, tuple, sub);
    if |a.terms| == |tuple| {
      assert a.terms[..|tuple|] == a.terms;
      if r.Some? {
        MatchPrefixSound(a.terms, tuple, |tuple|, sub);
      }
      if SubMap(sub.bindings, sigma) && FitsAll(a.terms, tuple, sigma) {
        MatchPrefixComplete(a.terms, tuple, |tuple|, sub, sigma);
      }
    }
  }

  // ---------------------------------------------------------------------
  // Known positions and probes
  // ---------------------------------------------------------------------

  /** `term` has a value in every substitution that binds `bound`. */
  predicate Known(term: Term, bound: set<string>) {
    term.Const? || (term.Var? && term.name in bound)
  }

  /** The positions known once `bound` is; none for an atom too wide to mask. */
  function KnownMask(a: Atom, bound: set<string>): (mask: Mask) {
    if |a.terms| > MAX_MASKABLE_ARITY then {}
    else set i: nat | i < |a.terms| && Known(a.terms[i], bound)
  }

  method KnownPositions(a: Atom, bound: set<string>) returns (mask: Mask)
    ensures mask == KnownMask(a, bound)
  {
    if |a.terms| > MAX_MASKABLE_ARITY {
      return {};
    }
    mask := {};
    for i := 0 to |a.terms|
      invariant mask == set j: nat | j < i && Known(a.terms[j], bound)
    {
      if Known(a.terms[i], bound) {
        mask := mask + {i};
      }
    }
  }

  /** The values of a tuple at the positions of `mask`, in order. The shift
      count is taken modulo 32, as JavaScript does. */
  function Select(tuple: Tuple, mask: Mask, n: nat): Tuple
    requires n <= |tuple|
  {
    if n == 0 then []
    else if (n - 1) % 32 in mask then Select(tuple, mask, n - 1) + [tuple[n - 1]]
    else Select(tuple, mask, n - 1)
  }

  /** The values of an atom's terms at the positions of `mask`. */
  function BoundPrefix(a: Atom, mask: Mask, sub: Substitution, n: nat): Tuple
    requires n <= |a.terms|
  {
    if n == 0 then []
    else
      var values := BoundPrefix(a, mask, sub, n - 1);
      var term := a.terms[n - 1];
      if (n - 1) % 32 !in mask then values
      else match term
           case Const(c) => values + [c]
           case Var(x) => values + [if x in sub.bindings then sub.bindings[x] else Null]
           case Wildcard => values
  }

  method BoundValues(a: Atom, mask: Mask, sub: Substitution) returns (values: Tuple)
    ensures values == BoundPrefix(a, mask, sub, |a.terms|)
  {
    values := [];
    for i := 0 to |a.terms|
      invariant values == BoundPrefix(a, mask, sub, i)
    {
      var term := a.terms[i];
      if i % 32 in mask {
        if term.Const? {
          values := values + [term.value];
        } else if term.Var? {
          values := values + [if term.name in sub.bindings then sub.bindings[term.name] else Null];
        }
      }
    }
  }

  /** Every position of `mask` holds a constant or a variable `sub` binds. */
  ghost predicate MaskBound(a: Atom, mask: Mask, bound: set<string>) {
    mask == {} || (|a.terms| <= MAX_MASKABLE_ARITY && forall i: nat :: i in mask ==> i < |a.terms| && Known(a.terms[i], bound))
  }

  /** A tuple that matches agrees with the probe: the candidates an index
      returns are a superset of the matches. */
  lemma {:induction false} MatchAgreesWithProbe(a: Atom, mask: Mask, sub: Substitution, tuple: Tuple, n: nat)
    requires MaskBound(a, mask, sub.bindings.Keys)
    requires n <= |a.terms| == |tuple|
    requires Match(a, tuple, sub).Some?
    ensures BoundPrefix(a, mask, sub, n) == Select(tuple, mask, n)
  {
    if n > 0 {
      MatchAgreesWithProbe(a, mask, sub, tuple, n - 1);
      var s := Match(a, tuple, sub).value;
      MatchUnder(a, tuple, sub, s.bindings);
      assert Fits(a.terms[n - 1], tuple[n - 1], s.bindings);
    }
  }

  // ---------------------------------------------------------------------
  // Grounding and guards
  // ---------------------------------------------------------------------

  /** The first `n` values of an instance; none if some term has no value. */
  function GroundPrefix(a: Atom, sub: Substitution, n: nat): Option<Tuple>
    requires n <= |a.terms|
  {
    if n == 0 then Some([])
    else
      var rest := GroundPrefix(a, sub, n - 1);
      var last := ResolveTerm(a.terms[n - 1], sub);
      if rest.Some? && last.Some? then Some(rest.value + [last.value]) else None
  }

  lemma GroundPrefixFails(a: Atom, sub: Substitution, n: nat, m: nat)
    requires n <= m <= |a.terms|
    requires GroundPrefix(a, sub, n).None?
    ensures GroundPrefix(a, sub, m).None?
  {
  }

  method GroundAtom(a: Atom, sub: Substitution) returns (r: Option<Tuple>)
    ensures r == GroundPrefix(a, sub, |a.terms|)
  {
    var values := [];
    for i := 0 to |a.terms|
      invariant GroundPrefix(a, sub, i) == Some(values)
    {
      var resolved := ResolveTerm(a.terms[i], sub);
      if resolved.None? {
        GroundPrefixFails(a, sub, i + 1, |a.terms|);
        return None;
      }
      values := values + [resolved.value];
    }
    return Some(values);
  }

  /** A safe head grounds to its instance. */
  lemma {:induction false} GroundIsInstance(a: Atom, sub: Substitution, n: nat)
    requires Ground(a.terms, sub.bindings) && n <= |a.terms|
    ensures GroundPrefix(a, sub, n) == Some(Instance(a.terms, sub.bindings)[..n])
  {
    if n > 0 {
      GroundIsInstance(a, sub, n - 1);
      GroundTermOk(a.terms, sub.bindings, n - 1);
      var tuple := Instance(a.terms, sub.bindings);
      assert tuple[..n] == tuple[..n - 1] + [tuple[n - 1]];
    }
  }

  function EvaluateGuard(op: GuardOp, left: Term, right: Term, sub: Substitution): bool {
    var l := ResolveTerm(left, sub);
    var r := ResolveTerm(right, sub);
    l.Some? && r.Some? && EvaluateGuardOp(op, l.value, r.value)
  }
}
