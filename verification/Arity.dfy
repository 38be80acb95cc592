/** One arity per predicate (packages/datalog/src/arity.ts). */
module Arity {
  import opened Syntax

  datatype Position = Head | Body

  /** One place where a rule names a predicate. */
  datatype Mention = Mention(pred: string, arity: nat, rule: Rule, position: Position)

  datatype ArityConflict = ArityConflict(pred: string, first: Mention, second: Mention)

  /** The mentions of a program in the order they are read: each rule's head,
      then the relations its body matches. */
  function MentionsOf(rules: seq<Rule>): seq<Mention> {
    if rules == [] then []
    else
      var last := rules[|rules| - 1];
      MentionsOf(rules[..|rules| - 1]) + [MentionOf(last.head, last, Head)] + BodyMentions(last, |last.body|)
  }

  function BodyMentions(rule: Rule, n: nat): seq<Mention>
    requires n <= |rule.body|
  {
    if n == 0 then []
    else
      BodyMentions(rule, n - 1) +
      (match MatchedAtom(rule.body[n - 1]) case Some(atom) => [MentionOf(atom, rule, Body)] case None => [])
  }

  function MentionOf(atom: Atom, rule: Rule, position: Position): Mention {
    Mention(atom.pred, |atom.terms|, rule, position)
  }

  /** The mention is of the head of a rule, or of an atom of its body, negated or not. */
  ghost predicate MentionedIn(rules: seq<Rule>, m: Mention) {
    || (exists r :: 0 <= r < |rules| && m == Mention(rules[r].head.pred, |rules[r].head.terms|, rules[r], Head))
    || (exists r, i :: 0 <= r < |rules| && 0 <= i < |rules[r].body| && BodyMentioned(rules[r], i, m))
  }

  ghost predicate BodyMentioned(rule: Rule, i: nat, m: Mention)
    requires i < |rule.body|
  {
    var el := rule.body[i];
    (el.Positive? || el.Negation?) && m == Mention(el.atom.pred, |el.atom.terms|, rule, Body)
  }

  lemma {:induction false} BodyMentionsAre(rule: Rule, n: nat, m: Mention)
    requires n <= |rule.body|
    ensures m in BodyMentions(rule, n) <==> exists i :: 0 <= i < n && BodyMentioned(rule, i, m)
  {
    if n > 0 {
      BodyMentionsAre(rule, n - 1, m);
      assert BodyMentioned(rule, n - 1, m) <==> MatchedAtom(rule.body[n - 1]).Some? && m == MentionOf(MatchedAtom(rule.body[n - 1]).value, rule, Body);
    }
  }

  /** The mentions are those of every head and of every atom. */
  lemma {:induction false} MentionsAreAll(rules: seq<Rule>, m: Mention)
    ensures m in MentionsOf(rules) <==> MentionedIn(rules, m)
  {
    if rules != [] {
      var init, last := rules[..|rules| - 1], rules[|rules| - 1];
      MentionsAreAll(init, m);
      BodyMentionsAre(last, |last.body|, m);
      OneRuleMore(init, last, m);
      assert rules == init + [last];
    }
  }

  lemma OneRuleMore(rules: seq<Rule>, last: Rule, m: Mention)
    ensures MentionedIn(rules + [last], m) <==>
      || MentionedIn(rules, m)
      || m == Mention(last.head.pred, |last.head.terms|, last, Head)
      || exists i :: 0 <= i < |last.body| && BodyMentioned(last, i, m)
  {
    var all := rules + [last];
    assert all[|rules|] == last && forall r :: 0 <= r < |rules| ==> all[r] == rules[r];
    if r :| 0 <= r < |rules| && m == Mention(rules[r].head.pred, |rules[r].head.terms|, rules[r], Head) {
      assert all[r] == rules[r];
    }
    if r, i :| 0 <= r < |rules| && 0 <= i < |rules[r].body| && BodyMentioned(rules[r], i, m) {
      assert BodyMentioned(all[r], i, m);
    }
    if i :| 0 <= i < |last.body| && BodyMentioned(last, i, m) {
      assert BodyMentioned(all[|rules|], i, m);
    }
    if m == Mention(last.head.pred, |last.head.terms|, last, Head) {
      assert all[|rules|] == last;
    }
  }

  /** Every mention of a predicate has the same width. */
  ghost predicate Coherent(mentions: seq<Mention>) {
    forall i, j :: 0 <= i < |mentions| && 0 <= j < |mentions| && mentions[i].pred == mentions[j].pred ==> mentions[i].arity == mentions[j].arity
  }

  /** `m` is the first mention of its predicate. */
  ghost predicate IsFirst(mentions: seq<Mention>, m: Mention) {
    exists i :: 0 <= i < |mentions| && mentions[i] == m && forall j :: 0 <= j < i ==> mentions[j].pred != m.pred
  }

  /** The map gives every predicate the width of its first mention, and every
      later mention of another width is reported against the first. */
  ghost predicate Analysed(mentions: seq<Mention>, arity: map<string, nat>, firstSeen: map<string, Mention>, errors: seq<ArityConflict>) {
    && arity.Keys == firstSeen.Keys == Named(mentions)
    && (forall p :: p in firstSeen ==> firstSeen[p].pred == p && IsFirst(mentions, firstSeen[p]) && arity[p] == firstSeen[p].arity)
    && (forall i :: 0 <= i < |mentions| ==>
          mentions[i].arity == arity[mentions[i].pred]
          || ArityConflict(mentions[i].pred, firstSeen[mentions[i].pred], mentions[i]) in errors)
    && (forall e :: e in errors ==> IsFirst(mentions, e.first) && RealConflict(mentions, e))
  }

  function Named(mentions: seq<Mention>): set<string> {
    set i | 0 <= i < |mentions| :: mentions[i].pred
  }

  /** Two mentions of one predicate with two widths. */
  ghost predicate RealConflict(mentions: seq<Mention>, e: ArityConflict) {
    e.first in mentions && e.second in mentions && e.first.pred == e.second.pred == e.pred && e.first.arity != e.second.arity
  }

  class ArityScan {
    var arity: map<string, nat>
    var firstSeen: map<string, Mention>
    var errors: seq<ArityConflict>
    /** What has been read so far. */
    ghost var seen: seq<Mention>

    ghost predicate Valid()
      reads this
    {
      Analysed(seen, arity, firstSeen, errors)
    }

    constructor ()
      ensures Valid() && seen == []
    {
      arity, firstSeen, errors, seen := map[], map[], [], [];
    }

    /** Record one mention, or report that it disagrees with what is known. */
    method Note(atom: Atom, rule: Rule, position: Position)
      requires Valid()
      modifies this
      ensures Valid() && seen == old(seen) + [MentionOf(atom, rule, position)]
    {
      var width := |atom.terms|;
      var m := MentionOf(atom, rule, position);
      NewAnalysed(seen, arity, firstSeen, errors, m);
      KnownAnalysed(seen, arity, firstSeen, errors, m);
      seen := seen + [m];
      if atom.pred !in arity {
        arity := arity[atom.pred := width];
        firstSeen := firstSeen[atom.pred := m];
      } else if arity[atom.pred] != width {
        errors := errors + [ArityConflict(atom.pred, firstSeen[atom.pred], m)];
      }
    }
  }

  /** A first mention is entered; */
  lemma NewAnalysed(seen: seq<Mention>, arity: map<string, nat>, firstSeen: map<string, Mention>, errors: seq<ArityConflict>, m: Mention)
    requires Analysed(seen, arity, firstSeen, errors)
    ensures m.pred !in arity ==> Analysed(seen + [m], arity[m.pred := m.arity], firstSeen[m.pred := m], errors)
  {
    if m.pred !in arity {
      FirstStays(seen, m);
      ConflictsStay(seen, m);
      forall i | 0 <= i < |seen| ensures seen[i].pred != m.pred {
        assert seen[i].pred in Named(seen);
      }
    }
  }

  /** a later one is compared with it. */
  lemma KnownAnalysed(seen: seq<Mention>, arity: map<string, nat>, firstSeen: map<string, Mention>, errors: seq<ArityConflict>, m: Mention)
    requires Analysed(seen, arity, firstSeen, errors)
    ensures m.pred in arity ==>
      Analysed(seen + [m], arity, firstSeen, if arity[m.pred] == m.arity then errors else errors + [ArityConflict(m.pred, firstSeen[m.pred], m)])
  {
    if m.pred in arity {
      FirstStays(seen, m);
      ConflictsStay(seen, m);
      var after := if arity[m.pred] == m.arity then errors else errors + [ArityConflict(m.pred, firstSeen[m.pred], m)];
      forall e | e in after ensures IsFirst(seen + [m], e.first) && RealConflict(seen + [m], e) {
        if e !in errors {
          assert e == ArityConflict(m.pred, firstSeen[m.pred], m);
        }
      }
    }
  }

  lemma ConflictsStay(seen: seq<Mention>, m: Mention)
    ensures forall e :: RealConflict(seen, e) ==> RealConflict(seen + [m], e)
  {
  }

  lemma FirstStays(mentions: seq<Mention>, m: Mention)
    ensures forall f :: IsFirst(mentions, f) ==> IsFirst(mentions + [m], f)
    ensures (forall i :: 0 <= i < |mentions| ==> mentions[i].pred != m.pred) ==> IsFirst(mentions + [m], m)
    ensures Named(mentions + [m]) == Named(mentions) + {m.pred}
  {
    var after := mentions + [m];
    assert after[|mentions|] == m;
    forall f | IsFirst(mentions, f) ensures IsFirst(after, f) {
      var i :| 0 <= i < |mentions| && mentions[i] == f && forall j :: 0 <= j < i ==> mentions[j].pred != f.pred;
      assert after[i] == f;
    }
    forall i | 0 <= i < |mentions| ensures mentions[i].pred in Named(after) {
      assert after[i] == mentions[i];
    }
  }

  method AnalyzeArity(rules: seq<Rule>) returns (arity: map<string, nat>, errors: seq<ArityConflict>)
    ensures errors == [] <==> Coherent(MentionsOf(rules))
    ensures forall i :: 0 <= i < |MentionsOf(rules)| ==> MentionsOf(rules)[i].pred in arity
    ensures errors == [] ==> forall i :: 0 <= i < |MentionsOf(rules)| ==> arity[MentionsOf(rules)[i].pred] == MentionsOf(rules)[i].arity
    ensures forall e :: e in errors ==> RealConflict(MentionsOf(rules), e)
  {
    var scan := new ArityScan();
    for r := 0 to |rules|
      invariant scan.Valid() && fresh(scan) && scan.seen == MentionsOf(rules[..r])
    {
      var rule := rules[r];
      assert rules[..r + 1][..r] == rules[..r];
      scan.Note(rule.head, rule, Head);
      for i := 0 to |rule.body|
        invariant scan.Valid() && fresh(scan)
        invariant scan.seen == MentionsOf(rules[..r]) + [MentionOf(rule.head, rule, Head)] + BodyMentions(rule, i)
      {
        var matched := MatchedAtom(rule.body[i]);
        if matched.Some? {
          scan.Note(matched.value, rule, Body);
        }
      }
    }
    assert rules[..|rules|] == rules;
    ErrorsSayAll(scan.seen, scan.arity, scan.firstSeen, scan.errors);
    return scan.arity, scan.errors;
  }

  /** There is something to report exactly when two mentions disagree. */
  lemma ErrorsSayAll(mentions: seq<Mention>, arity: map<string, nat>, firstSeen: map<string, Mention>, errors: seq<ArityConflict>)
    requires Analysed(mentions, arity, firstSeen, errors)
    ensures errors == [] <==> Coherent(mentions)
  {
    if errors != [] {
      var e := errors[0];
      assert RealConflict(mentions, e);
      var i :| 0 <= i < |mentions| && mentions[i] == e.first;
      var j :| 0 <= j < |mentions| && mentions[j] == e.second;
      assert mentions[i].arity != mentions[j].arity;
    }
  }
}
