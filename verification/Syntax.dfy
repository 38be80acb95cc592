/** Terms, atoms, rules and the safety conditions the theorems speak of
    (packages/datalog/src/types.ts, arity.ts). */
module Syntax {
  import opened Prelude
  import opened Values

  datatype Term = Const(value: Value) | Var(name: string) | Wildcard

  datatype Atom = Atom(pred: string, terms: seq<Term>)

  /** Aggregations and compute elements are not part of this model. */
  datatype Element =
    | Positive(atom: Atom)
    | Negation(atom: Atom)
    | Guard(op: GuardOp, left: Term, right: Term)
  {
    predicate ReadsRelation() {
      Positive? || Negation?
    }
  }

  datatype Rule = Rule(head: Atom, body: seq<Element>)

  /** The relation a body element reads, if any. */
  function MatchedAtom(element: Element): Option<Atom> {
    match element
    case Positive(atom) => Some(atom)
    case Negation(atom) => Some(atom)
    case Guard(_, _, _) => None
  }

  /** The predicates a body reads. */
  function BodyPredicates(body: seq<Element>): set<string> {
    set i | 0 <= i < |body| && body[i].ReadsRelation() :: body[i].atom.pred
  }

  /** The predicates `rules` derive. */
  function HeadPredicates(rules: seq<Rule>): set<string> {
    set i | 0 <= i < |rules| :: rules[i].head.pred
  }

  function TermVars(terms: seq<Term>): set<string> {
    set i | 0 <= i < |terms| && terms[i].Var? :: terms[i].name
  }

  function ElementVars(element: Element): set<string> {
    match element
    case Positive(atom) => TermVars(atom.terms)
    case Negation(atom) => TermVars(atom.terms)
    case Guard(_, left, right) => TermVars([left, right])
  }

  /** The variables of the positive atoms of a body. */
  function PositiveVars(body: seq<Element>): set<string> {
    set i, x | 0 <= i < |body| && body[i].Positive? && x in ElementVars(body[i]) :: x
  }

  predicate NoWildcard(terms: seq<Term>) {
    Wildcard !in terms
  }

  /** An element whose variables are all among `bound` and which, unless it is
      a positive atom, holds no wildcard. */
  ghost predicate SafeElement(element: Element, bound: set<string>) {
    && ElementVars(element) <= bound
    && (element.Negation? ==> NoWildcard(element.atom.terms))
    && (element.Guard? ==> NoWildcard([element.left, element.right]))
  }

  /** Every variable of the head, of a guard and of a negated atom occurs in a
      positive atom of the same body, and none of the three holds a wildcard. */
  ghost predicate SafeRule(rule: Rule) {
    var bound := PositiveVars(rule.body);
    && NoWildcard(rule.head.terms)
    && TermVars(rule.head.terms) <= bound
    && forall i :: 0 <= i < |rule.body| ==> SafeElement(rule.body[i], bound)
  }

  ghost predicate SafeProgram(rules: seq<Rule>) {
    forall i :: 0 <= i < |rules| ==> SafeRule(rules[i])
  }
}
