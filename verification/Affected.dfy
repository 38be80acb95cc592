/** Which strata a change can reach
    (packages/datalog/src/evaluator.ts, "Stratum dependency analysis"). */
module Affected {
  import opened Prelude
  import opened Syntax
  import opened Models
  import opened Programs

  /** Predicate to the strata that read it. */
  type ReaderMap = map<string, set<nat>>

  function Readers(readers: ReaderMap, p: string): set<nat> {
    if p in readers then readers[p] else {}
  }

  ghost predicate ReadersOf(readers: ReaderMap, strata: seq<Stratum>) {
    forall p :: Readers(readers, p) == ReadersAmong(strata, |strata|, p)
  }

  /** The strata below `n` that read `p`. */
  function ReadersAmong(strata: seq<Stratum>, n: nat, p: string): set<nat>
    requires n <= |strata|
  {
    set k: nat | k < n && p in ReadPredicates(strata[k].rules)
  }

  method BuildReaders(strata: seq<Stratum>) returns (readers: ReaderMap)
    requires forall k :: 0 <= k < |strata| ==> strata[k].index == k
    ensures ReadersOf(readers, strata)
  {
    readers := map[];
    for n := 0 to |strata|
      invariant forall p :: Readers(readers, p) == ReadersAmong(strata, n, p)
    {
      ghost var was := readers;
      var preds := ReadPredicates(strata[n].rules);
      readers := readers + map p | p in preds :: Readers(readers, p) + {strata[n].index};
      forall p ensures Readers(readers, p) == ReadersAmong(strata, n + 1, p) {
        assert ReadersAmong(strata, n + 1, p) == ReadersAmong(strata, n, p) + (if p in preds then {n} else {});
        assert Readers(was, p) == ReadersAmong(strata, n, p);
      }
    }
  }

  /** `A` holds every stratum that reads a changed predicate or a head of one of
      its own members. */
  ghost predicate ClosedUnderReads(strata: seq<Stratum>, changed: set<string>, A: set<nat>) {
    && (forall k :: k in A ==> k < |strata|)
    && (forall k, p :: 0 <= k < |strata| && p in ReadPredicates(strata[k].rules) && (p in changed || HeadOfMember(strata, A, p)) ==> k in A)
  }

  ghost predicate HeadOfMember(strata: seq<Stratum>, A: set<nat>, p: string) {
    exists m :: m in A && m < |strata| && p in HeadPredicates(strata[m].rules)
  }

  method VisitHeads(heads: set<string>, visited: set<string>, queue: seq<string>) returns (visited': set<string>, queue': seq<string>)
    ensures visited' == visited + heads
    ensures Elements(queue') == Elements(queue) + (heads - visited)
    ensures heads <= visited ==> queue' == queue
  {
    visited', queue' := visited, queue;
    var todo := heads;
    ghost var done: set<string> := {};
    while todo != {}
      invariant todo !! done && todo + done == heads
      invariant visited' == visited + done
      invariant Elements(queue') == Elements(queue) + (done - visited)
      invariant heads <= visited ==> queue' == queue
      decreases todo
    {
      var h :| h in todo;
      if h !in visited' {
        ghost var before := queue';
        queue' := queue' + [h];
        ElementsAppend(before, h);
        visited' := visited' + {h};
      }
      todo := todo - {h};
      done := done + {h};
    }
  }

  lemma ElementsAppend<T>(xs: seq<T>, x: T)
    ensures Elements(xs + [x]) == Elements(xs) + {x}
  {
  }

  /** The state of the search: what is visited and no longer queued has all its
      readers affected, and the heads of the affected are visited. */
  ghost predicate Searching(strata: seq<Stratum>, changed: set<string>, affected: set<nat>, visited: set<string>, queue: set<string>) {
    && (forall k :: k in affected ==> k < |strata| && HeadPredicates(strata[k].rules) <= visited)
    && changed <= visited && queue <= visited
    && (forall p, k :: p in visited && p !in queue && 0 <= k < |strata| && p in ReadPredicates(strata[k].rules) ==> k in affected)
    && (forall p :: p in visited ==> p in changed || HeadOfMember(strata, affected, p))
  }

  /** Nothing is affected without a reason. */
  ghost predicate Justified(strata: seq<Stratum>, changed: set<string>, affected: set<nat>) {
    forall B :: ClosedUnderReads(strata, changed, B) ==> affected <= B
  }

  function AllHeads(strata: seq<Stratum>): set<string> {
    set k, p | 0 <= k < |strata| && p in HeadPredicates(strata[k].rules) :: p
  }

  /** Mark the readers of one predicate, and queue their heads. */
  method MarkReaders(strata: seq<Stratum>, readers: set<nat>, affected: set<nat>, visited: set<string>, queue: seq<string>)
    returns (affected': set<nat>, visited': set<string>, queue': seq<string>)
    requires forall k :: k in readers ==> k < |strata|
    requires forall k :: k in affected ==> k < |strata| && HeadPredicates(strata[k].rules) <= visited
    ensures affected' == affected + readers
    ensures visited <= visited' && forall p :: p in visited' ==> p in visited || HeadOfMember(strata, affected', p)
    ensures forall k :: k in affected' ==> HeadPredicates(strata[k].rules) <= visited'
    ensures Elements(queue') == Elements(queue) + (visited' - visited)
    ensures visited' == visited ==> queue' == queue
    ensures visited' <= visited + AllHeads(strata)
  {
    hide Elements;
    affected', visited', queue' := affected, visited, queue;
    var todo := readers;
    ghost var done: set<nat> := {};
    while todo != {}
      invariant todo !! done && todo + done == readers
      invariant affected' == affected + done
      invariant visited <= visited' && forall p :: p in visited' ==> p in visited || HeadOfMember(strata, affected', p)
      invariant forall k :: k in affected' ==> k < |strata| && HeadPredicates(strata[k].rules) <= visited'
      invariant Elements(queue') == Elements(queue) + (visited' - visited)
      invariant visited' == visited ==> queue' == queue
      invariant visited' <= visited + AllHeads(strata)
      decreases todo
    {
      var k :| k in todo;
      if k !in affected' {
        ghost var was := visited';
        affected' := affected' + {k};
        visited', queue' := VisitHeads(HeadPredicates(strata[k].rules), visited', queue');
      }
      todo := todo - {k};
      done := done + {k};
    }
  }

  lemma MarkedSearching(strata: seq<Stratum>, changed: set<string>, readers: set<nat>, affected: set<nat>, visited: set<string>, queue: set<string>,
                        p: string, affected': set<nat>, visited': set<string>, queue': set<string>)
    requires Searching(strata, changed, affected, visited, queue + {p})
    requires readers == ReadersAmong(strata, |strata|, p)
    requires affected' == affected + readers && visited <= visited'
    requires forall q :: q in visited' ==> q in visited || HeadOfMember(strata, affected', q)
    requires forall k :: k in affected' ==> HeadPredicates(strata[k].rules) <= visited'
    requires queue' == queue + (visited' - visited)
    ensures Searching(strata, changed, affected', visited', queue')
    ensures Justified(strata, changed, affected) ==> Justified(strata, changed, affected')
  {
    forall q | q in visited' ensures q in changed || HeadOfMember(strata, affected', q) {
      if q in visited && q !in changed {
        var m :| m in affected && m < |strata| && q in HeadPredicates(strata[m].rules);
        assert m in affected';
      }
    }
    if Justified(strata, changed, affected) {
      forall B | ClosedUnderReads(strata, changed, B) ensures affected' <= B {
        forall k | k in readers ensures k in B {
          if p !in changed {
            var m :| m in affected && m < |strata| && p in HeadPredicates(strata[m].rules);
            assert HeadOfMember(strata, B, p);
          }
        }
      }
    }
  }

  /** The affected strata in ascending order: the least set closed under reads. */
  method ComputeAffectedStrata(changed: set<string>, strata: seq<Stratum>, readers: ReaderMap) returns (indices: seq<nat>)
    requires ReadersOf(readers, strata)
    ensures forall i, j :: 0 <= i < j < |indices| ==> indices[i] < indices[j]
    ensures forall i :: 0 <= i < |indices| ==> indices[i] < |strata|
    ensures ClosedUnderReads(strata, changed, Elements(indices))
    ensures Justified(strata, changed, Elements(indices))
  {
    var affected: set<nat> := {};
    var visited := changed;
    var queue := SetToSeq(changed);
    while queue != []
      invariant Searching(strata, changed, affected, visited, Elements(queue))
      invariant Justified(strata, changed, affected)
      invariant visited <= changed + AllHeads(strata)
      decreases (changed + AllHeads(strata)) - visited, |queue|
    {
      var p := queue[|queue| - 1];
      var rest := queue[..|queue| - 1];
      assert queue == rest + [p];
      ElementsAppend(rest, p);
      ghost var was, wasVisited := affected, visited;
      affected, visited, queue := MarkReaders(strata, Readers(readers, p), affected, visited, rest);
      MarkedSearching(strata, changed, Readers(readers, p), was, wasVisited, Elements(rest), p, affected, visited, Elements(queue));
    }
    indices := SortAscending(affected);
    assert Elements(indices) == affected;
    assert forall i :: 0 <= i < |indices| ==> indices[i] in Elements(indices);
    forall k, p | 0 <= k < |strata| && p in ReadPredicates(strata[k].rules) && (p in changed || HeadOfMember(strata, affected, p))
      ensures k in affected
    {
      assert p in visited;
    }
  }

  method SetToSeq(s: set<string>) returns (xs: seq<string>)
    ensures Elements(xs) == s
  {
    xs := [];
    var todo := s;
    while todo != {}
      invariant todo <= s && Elements(xs) == s - todo
      decreases todo
    {
      var x :| x in todo;
      ElementsAppend(xs, x);
      xs := xs + [x];
      todo := todo - {x};
    }
  }

  method SortAscending(s: set<nat>) returns (xs: seq<nat>)
    ensures Elements(xs) == s
    ensures forall i, j :: 0 <= i < j < |xs| ==> xs[i] < xs[j]
  {
    xs := [];
    var todo := s;
    while todo != {}
      invariant todo <= s && Elements(xs) == s - todo
      invariant forall i, j :: 0 <= i < j < |xs| ==> xs[i] < xs[j]
      invariant forall i, k :: 0 <= i < |xs| && k in todo ==> xs[i] < k
      decreases todo
    {
      var least := Smallest(todo);
      ElementsAppend(xs, least);
      xs := xs + [least];
      todo := todo - {least};
    }
  }

  method Smallest(s: set<nat>) returns (least: nat)
    requires s != {}
    ensures least in s && forall k :: k in s ==> least <= k
  {
    least :| least in s;
    var todo := s - {least};
    while todo != {}
      invariant todo <= s && least in s && forall k :: k in s && k !in todo ==> least <= k
      decreases todo
    {
      var k :| k in todo;
      if k < least {
        least := k;
      }
      todo := todo - {k};
    }
  }
}
