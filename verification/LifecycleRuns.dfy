/** Safety over every run of the lifecycle. */
module LifecycleRuns {
  import opened Prelude
  import opened OrderedMaps
  import opened Lifecycles
  import opened LifecycleBooks

  // ---------------------------------------------------------------------
  // The shape of a step
  // ---------------------------------------------------------------------

  /** Nothing in it can fail. */
  ghost predicate Sure(es: seq<Effect>) {
    forall e :: e in es ==> !BeforeCommit(e)
  }

  /** A step either refuses, and then does nothing else, or leads with the one
      build it may have. */
  ghost predicate Shaped(m: LifecycleModel, step: Step) {
    || Sure(step.effects)
    || (|step.effects| == 1 && step.effects[0].Refuse? && step.model == m)
    || (step.effects != [] && step.effects[0].Build? && Sure(step.effects[1..]))
  }

  lemma FinishSure(m: LifecycleModel, d: DocId, held: Held, intent: Intent, outcome: LoadOutcome, writer: Option<PeerId>)
    ensures Sure(FinishLoad(m, d, held, intent, outcome, writer, []).effects)
  {
  }

  lemma BeginShaped(m: LifecycleModel, before: LifecycleModel, d: DocId, spec: BuildSpec, suspended: bool, intent: Intent, writer: Option<PeerId>)
    ensures Shaped(before, Begin(m, d, spec, suspended, intent, writer))
    ensures var es := Begin(m, d, spec, suspended, intent, writer).effects; es != [] && es[0] == Build(d, m.nextGen, spec) && Sure(es[1..])
  {
    var held, issued := Held(m.nextGen, spec, suspended), m.(nextGen := m.nextGen + 1);
    var prefix := BuildPrefix(d, m.nextGen, spec);
    FinishSure(issued, d, held, intent, FoundNone, writer);
    FinishPrefix(issued, d, held, intent, FoundNone, writer, prefix);
    LedByBuild(d, m.nextGen, spec, [Load(d, held.gen)]);
    LedByBuild(d, m.nextGen, spec, FinishLoad(issued, d, held, intent, FoundNone, writer, []).effects);
  }

  lemma LedByBuild(d: DocId, gen: Generation, spec: BuildSpec, rest: seq<Effect>)
    requires Sure(rest)
    ensures var es := BuildPrefix(d, gen, spec) + rest; es != [] && es[0] == Build(d, gen, spec) && Sure(es[1..])
  {
    var prefix := BuildPrefix(d, gen, spec);
    assert (prefix + rest)[1..] == prefix[1..] + rest;
  }

  lemma CreateOrPromoteShaped(m: LifecycleModel, d: DocId, bound: BoundSchema, want: DoorIntent)
    ensures Shaped(m, CreateOrPromote(m, d, bound, want))
  {
    var entry := m.Entry(d);
    if entry.Some? && entry.value.IsHeld() {
      if entry.value.Ready? {
        BeginShaped(m, m, d, Interpret(bound, Promote(entry.value.held.gen)), entry.value.held.suspended, Create, entry.value.writer);
      }
    } else {
      var stored := m.StoredOf(bound.metadata.syncMode);
      var intent := if want.ToCreate? then Create
                    else Open(if entry.Some? && entry.value.Deferred? then DeferredReplaced else NothingReplaced);
      BeginShaped(m, m, d, Interpret(bound, if stored then Hydration else Empty), false, intent, None);
    }
  }

  lemma AnswerGetShaped(compat: Compat, m: LifecycleModel, d: DocId, bound: BoundSchema, want: DoorIntent)
    ensures Shaped(m, AnswerGet(compat, m, d, bound, want))
  {
    var entry := m.Entry(d);
    CreateOrPromoteShaped(m, d, bound, want);
    if entry.Some? && (entry.value.Unloaded? || entry.value.Unloading?) {
      var suspended := if entry.value.Unloaded? then entry.value.suspended else entry.value.held.suspended;
      var intent := if want.ToCreate? then Create else Open(UnloadedReplaced);
      var departing := if entry.value.Unloading? then Some(entry.value.held.gen) else None;
      BeginShaped(Recorded(m, d, departing), m, d, Interpret(bound, Hydration), suspended, intent, None);
    }
  }

  // ---------------------------------------------------------------------
  // A cancelled unload answered at once
  // ---------------------------------------------------------------------

  lemma {:induction false} SureHasNoRefusal(es: seq<Effect>)
    requires Sure(es)
    ensures FirstRefusal(es).None?
  {
    if es != [] {
      assert es[0] in es;
      SureHasNoRefusal(es[1..]);
    }
  }

  lemma {:induction false} FilterSure(es: seq<Effect>)
    requires Sure(es)
    ensures Filter(es, true) == [] && Filter(es, false) == es
  {
    if es != [] {
      assert es == es[..|es| - 1] + [es[|es| - 1]];
      assert es[|es| - 1] in es;
      FilterSure(es[..|es| - 1]);
    }
  }

  lemma {:induction false} FilterConcat(x: seq<Effect>, y: seq<Effect>, leading: bool)
    ensures Filter(x + y, leading) == Filter(x, leading) + Filter(y, leading)
  {
    if y == [] {
      assert x + y == x;
    } else {
      assert (x + y)[..|x + y| - 1] == x + y[..|y| - 1];
      FilterConcat(x, y[..|y| - 1], leading);
    }
  }

  /** The build of the second step leads; nothing else moves. */
  function Together(before: LifecycleModel, first: Step, then_: Step): Step {
    var es := then_.effects;
    if |es| == 1 && es[0].Refuse? then Step(before, es)
    else if es != [] && es[0].Build? then Step(then_.model, [es[0]] + first.effects + es[1..])
    else Step(then_.model, first.effects + es)
  }

  lemma SequenceIs(before: LifecycleModel, first: Step, then_: Step)
    requires Shaped(first.model, then_)
    ensures Sequence(before, first, then_) == Together(before, first, then_)
  {
    var es := then_.effects;
    if Sure(es) {
      SureHasNoRefusal(es);
      FilterSure(es);
      assert es != [] ==> es[0] in es;
      assert [] + first.effects + es == first.effects + es;
    } else if es[0].Build? {
      FilterBuildFirst(es);
    }
  }

  lemma FilterBuildFirst(es: seq<Effect>)
    requires es != [] && es[0].Build? && Sure(es[1..])
    ensures FirstRefusal(es).None? && Filter(es, true) == [es[0]] && Filter(es, false) == es[1..]
  {
    var b, rest := [es[0]], es[1..];
    assert es == b + rest;
    SureHasNoRefusal(rest);
    FilterSure(rest);
    FilterConcat(b, rest, true);
    FilterConcat(b, rest, false);
    assert b[..0] == [];
    assert Filter(b, true) == b && Filter(b, false) == [];
  }

  /** Moving a build ahead of other effects changes no book. */
  lemma {:induction false} BuildMovesInGen(b: GenBook, build: Effect, es: seq<Effect>, g: Generation)
    requires build.Build?
    ensures GenFold(b, [build] + es, g) == GenFold(b, es + [build], g)
  {
    if es == [] {
      assert [build] + es == es + [build];
    } else {
      var init, last := es[..|es| - 1], es[|es| - 1];
      BuildMovesInGen(b, build, init, g);
      assert ([build] + es)[..|es|] == [build] + init;
      assert (es + [build])[..|es|] == es && (init + [build])[..|init|] == init;
    }
  }

  lemma {:induction false} BuildMovesInDoc(t: DocBook, build: Effect, es: seq<Effect>, d: DocId)
    requires build.Build?
    ensures DocFold(t, [build] + es, d) == DocFold(t, es + [build], d)
  {
    if es == [] {
      assert [build] + es == es + [build];
    } else {
      var init, last := es[..|es| - 1], es[|es| - 1];
      BuildMovesInDoc(t, build, init, d);
      assert ([build] + es)[..|es|] == [build] + init;
      assert (es + [build])[..|es|] == es && (init + [build])[..|init|] == init;
    }
  }

  lemma MoveBuildKeeps(m: LifecycleModel, m': LifecycleModel, build: Effect, x: seq<Effect>, y: seq<Effect>)
    requires build.Build? && Keeps(m, Step(m', x + ([build] + y)))
    ensures Keeps(m, Step(m', [build] + x + y))
  {
    forall b, g: Generation ensures GenFold(b, [build] + x + y, g) == GenFold(b, x + ([build] + y), g) {
      BuildMovesInGen(b, build, x, g);
      GenFoldConcat(b, [build] + x, y, g);
      GenFoldConcat(b, x + [build], y, g);
      assert x + [build] + y == x + ([build] + y);
    }
    forall t, d ensures DocFold(t, [build] + x + y, d) == DocFold(t, x + ([build] + y), d) {
      BuildMovesInDoc(t, build, x, d);
      DocFoldConcat(t, [build] + x, y, d);
      DocFoldConcat(t, x + [build], y, d);
      assert x + [build] + y == x + ([build] + y);
    }
  }

  lemma GetKeeps(compat: Compat, m: LifecycleModel, d: DocId, bound: BoundSchema, want: DoorIntent)
    requires Good(m)
    ensures Keeps(m, GetDoc(compat, m, d, bound, want)) && Shaped(m, GetDoc(compat, m, d, bound, want))
  {
    var entry := m.Entry(d);
    if entry.Some? && entry.value.Unloading? && entry.value.stage.Storing? {
      var cancelled := Cancel(m, d, entry.value);
      var answer := AnswerGet(compat, cancelled.model, d, bound, want);
      CancelKeeps(m, d);
      AnswerGetKeeps(compat, cancelled.model, d, bound, want);
      AnswerGetShaped(compat, cancelled.model, d, bound, want);
      SequenceIs(m, cancelled, answer);
      CancelledAnswer(m, cancelled, answer);
    } else {
      AnswerGetKeeps(compat, m, d, bound, want);
      AnswerGetShaped(compat, m, d, bound, want);
    }
  }

  lemma CancelledAnswer(m: LifecycleModel, cancelled: Step, answer: Step)
    requires Good(m) && Keeps(m, cancelled) && Keeps(cancelled.model, answer) && Shaped(cancelled.model, answer) && Sure(cancelled.effects)
    ensures Keeps(m, Sequence(m, cancelled, answer)) && Shaped(m, Sequence(m, cancelled, answer))
  {
    var es := answer.effects;
    SequenceIs(m, cancelled, answer);
    KeepsCompose(m, cancelled, answer);
    if |es| == 1 && es[0].Refuse? {
      IdleKeeps(m, es);
    } else if es != [] && es[0].Build? {
      assert es == [es[0]] + es[1..];
      MoveBuildKeeps(m, answer.model, es[0], cancelled.effects, es[1..]);
      assert ([es[0]] + cancelled.effects + es[1..])[1..] == cancelled.effects + es[1..];
    }
  }

  // ---------------------------------------------------------------------
  // Every input
  // ---------------------------------------------------------------------

  lemma UpdateKeeps(compat: Compat, input: Input, m: LifecycleModel)
    requires Good(m)
    ensures Keeps(m, Update(compat, input, m))
  {
    match input
    case Get(d, bound, want) => GetKeeps(compat, m, d, bound, want);
    case ReplicateDoc(d, factoryType, mode, hash) => ReplicateKeeps(m, d, Replicate(factoryType, mode, hash));
    case Defer(d) =>
      if d in m.docs.items {
        IdleKeeps(m, []);
      } else {
        NoInstanceKeeps(m, m.Put(d, Deferred), d, []);
      }
    case Destroy(d) => DestroyKeeps(m, d);
    case Suspend(d) => SuspendKeeps(m, d, true);
    case Resume(d) => SuspendKeeps(m, d, false);
    case Unload(d) => UnloadKeeps(m, d);
    case Reload(d) =>
      if d in m.docs.items && m.docs.items[d].Unloaded? {
        BeginKeeps(m, d, m.docs.items[d].spec.Stored(), m.docs.items[d].suspended, Open(UnloadedReplaced), None, None);
      } else {
        IdleKeeps(m, []);
      }
    case Hooked => HookedKeeps(m);
    case CloseAll(reason) => CloseAllKeeps(m, reason);
    case Loaded(d, gen, outcome, writer) =>
      if d in m.docs.items && m.docs.items[d].Loading? && m.docs.items[d].held.gen == gen {
        FinishKeeps(m, d, m.docs.items[d].held, m.docs.items[d].intent, outcome, writer);
      } else {
        IdleKeeps(m, []);
      }
    case LoadFailed(d, gen, error) =>
      if d in m.docs.items && m.docs.items[d].Loading? && m.docs.items[d].held.gen == gen {
        SameInstanceKeeps(m, d, Failed(m.docs.items[d].held, error), []);
      } else {
        IdleKeeps(m, []);
      }
    case Released(d, gen, version) => ReleasedKeeps(m, d, gen, version);
    case Left(d, gen) => LeftKeeps(m, d, gen);
  }

  /** Over every run from the start: the model is in shape, every generation's
      book is in order, and so is every document's. */
  lemma {:induction false} RunKeepsBooks(compat: Compat, hasStore: bool, inputs: seq<Input>)
    ensures var run := Run(compat, InitialLifecycle(hasStore), inputs);
      && Good(run.model)
      && (forall g: Generation :: Account(run.model, GenFold(UNISSUED, run.effects, g), g))
      && (forall d :: DocAccount(run.model, DocFold(DocBook(false, false), run.effects, d), d))
  {
    var m0 := InitialLifecycle(hasStore);
    if inputs != [] {
      var init, input := inputs[..|inputs| - 1], inputs[|inputs| - 1];
      RunKeepsBooks(compat, hasStore, init);
      var before := Run(compat, m0, init);
      var step := Update(compat, input, before.model);
      UpdateKeeps(compat, input, before.model);
      forall g: Generation ensures Account(step.model, GenFold(UNISSUED, before.effects + step.effects, g), g) {
        GenFoldConcat(UNISSUED, before.effects, step.effects, g);
      }
      forall d ensures DocAccount(step.model, DocFold(DocBook(false, false), before.effects + step.effects, d), d) {
        DocFoldConcat(DocBook(false, false), before.effects, step.effects, d);
      }
    }
  }

  // ---------------------------------------------------------------------
  // Atomicity
  // ---------------------------------------------------------------------

  lemma {:induction false} CloseDocsSure(docs: OrderedMap<DocId, Lifecycle>, keys: seq<DocId>, reason: ClosedReason)
    ensures Sure(CloseDocs(docs, keys, reason))
  {
    if keys != [] {
      CloseDocsSure(docs, keys[..|keys| - 1], reason);
    }
  }

  lemma {:induction false} DisposeDepartingSure(departing: OrderedMap<Generation, DocId>, gens: seq<Generation>, reason: ClosedReason)
    ensures Sure(DisposeDeparting(departing, gens, reason))
  {
    if gens != [] {
      DisposeDepartingSure(departing, gens[..|gens| - 1], reason);
    }
  }

  lemma {:induction false} HookedSure(docs: OrderedMap<DocId, Lifecycle>, keys: seq<DocId>)
    ensures Sure(HookedEffects(docs, keys))
  {
    if keys != [] {
      HookedSure(docs, keys[..|keys| - 1]);
    }
  }

  /** In every state, every input: a refusal is the only effect of its step and
      changes nothing; otherwise what can fail, a build, leads. */
  lemma UpdateShaped(compat: Compat, input: Input, m: LifecycleModel)
    requires Good(m)
    ensures Shaped(m, Update(compat, input, m))
  {
    match input
    case Get(d, bound, want) => GetKeeps(compat, m, d, bound, want);
    case ReplicateDoc(d, factoryType, mode, hash) => ReplicateShaped(m, d, Replicate(factoryType, mode, hash));
    case Reload(d) => ReloadShaped(compat, m, d);
    case Hooked => HookedSure(m.docs, m.docs.keys);
    case CloseAll(reason) => CloseAllShaped(m, reason);
    case Destroy(d) => DestroySure(m, d);
    case Unload(d) => UnloadShaped(m, d);
    case Suspend(d) => SuspendShaped(m, d, true);
    case Resume(d) => SuspendShaped(m, d, false);
    case Loaded(d, gen, outcome, writer) =>
      if d in m.docs.items && m.docs.items[d].Loading? {
        FinishSure(m, d, m.docs.items[d].held, m.docs.items[d].intent, outcome, writer);
      }
    case LoadFailed(d, gen, error) =>
    case Released(d, gen, version) => ReleasedSure(m, d, gen, version);
    case Left(d, gen) => LeftSure(m, d, gen);
    case Defer(d) =>
  }

  lemma CloseAllShaped(m: LifecycleModel, reason: ClosedReason)
    ensures Shaped(m, CloseEverything(m, reason))
  {
    CloseDocsSure(m.docs, m.docs.keys, reason);
    DisposeDepartingSure(m.departing, m.departing.keys, reason);
  }

  lemma DestroySure(m: LifecycleModel, d: DocId)
    ensures Sure(DestroyDoc(m, d).effects)
  {
  }

  lemma ReleasedSure(m: LifecycleModel, d: DocId, gen: Generation, version: string)
    ensures Sure(ReleasedDoc(m, d, gen, version).effects)
  {
  }

  lemma LeftSure(m: LifecycleModel, d: DocId, gen: Generation)
    ensures Sure(LeftDoc(m, d, gen).effects)
  {
  }

  lemma UnloadShaped(m: LifecycleModel, d: DocId)
    ensures Shaped(m, UnloadDoc(m, d))
  {
  }

  lemma SuspendShaped(m: LifecycleModel, d: DocId, suspended: bool)
    ensures Shaped(m, SetSuspended(m, d, suspended))
  {
  }

  lemma ReplicateShaped(m: LifecycleModel, d: DocId, spec: BuildSpec)
    ensures Shaped(m, ReplicateDocument(m, d, spec))
  {
    BeginShaped(m, m, d, spec, false, Create, None);
    if d in m.docs.items && m.docs.items[d].Unloaded? {
      BeginShaped(m, m, d, spec, m.docs.items[d].suspended, Create, None);
    }
  }

  lemma ReloadShaped(compat: Compat, m: LifecycleModel, d: DocId)
    ensures Shaped(m, Update(compat, Reload(d), m))
  {
    if d in m.docs.items && m.docs.items[d].Unloaded? {
      BeginShaped(m, m, d, m.docs.items[d].spec.Stored(), m.docs.items[d].suspended, Open(UnloadedReplaced), None);
    }
  }

  // ---------------------------------------------------------------------
  // The order of what ends a load
  // ---------------------------------------------------------------------

  /** Adopt, then tell the store program, then register, then wire. */
  function Rank(e: Effect): nat {
    match e
    case Adopt(_, _, _) => 1
    case Store(StoreHydrated(_, _)) => 2
    case Store(StoreRegister(_)) => 2
    case Register(_, _, _) => 3
    case Wire(_, _) => 4
    case _ => 0
  }

  /** The document a ranked effect is about. */
  function SubjectDoc(e: Effect): Option<DocId> {
    match e
    case Adopt(d, _, _) => Some(d)
    case Store(StoreHydrated(d, _)) => Some(d)
    case Store(StoreRegister(d)) => Some(d)
    case Register(d, _, _) => Some(d)
    case Wire(d, _) => Some(d)
    case _ => None
  }

  /** Its generation; what the store program is told names none. */
  function SubjectGen(e: Effect): Option<Generation> {
    match e
    case Adopt(_, gen, _) => Some(gen)
    case Register(_, gen, _) => Some(gen)
    case Wire(_, gen) => Some(gen)
    case _ => None
  }

  /** Two ranked effects concern one instance. */
  predicate OneInstance(x: Effect, y: Effect) {
    && SubjectDoc(x).Some? && SubjectDoc(x) == SubjectDoc(y)
    && (SubjectGen(x) == SubjectGen(y) || SubjectGen(x).None? || SubjectGen(y).None?)
  }

  ghost predicate InOrder(es: seq<Effect>) {
    forall i, j :: 0 <= i < j < |es| && OneInstance(es[i], es[j]) ==> Rank(es[i]) < Rank(es[j])
  }

  /** The ranks that occur rise, from `lo` to `hi`. */
  ghost predicate Rising(es: seq<Effect>, lo: nat, hi: nat) {
    && (forall i, j :: 0 <= i < j < |es| && Rank(es[i]) > 0 && Rank(es[j]) > 0 ==> Rank(es[i]) < Rank(es[j]))
    && (forall i :: 0 <= i < |es| && Rank(es[i]) > 0 ==> lo <= Rank(es[i]) <= hi)
  }

  lemma RisingConcat(x: seq<Effect>, y: seq<Effect>, lo: nat, mid: nat, hi: nat)
    requires Rising(x, lo, mid) && Rising(y, mid + 1, hi) && lo <= mid <= hi
    ensures Rising(x + y, lo, hi)
  {
  }

  lemma RisingInOrder(es: seq<Effect>, lo: nat, hi: nat)
    requires Rising(es, lo, hi)
    ensures InOrder(es)
  {
  }

  lemma RisingShort(es: seq<Effect>, r: nat)
    requires |es| <= 1 && (es != [] ==> Rank(es[0]) == r)
    ensures Rising(es, r, r)
  {
  }

  lemma ReadyRising(m: LifecycleModel, d: DocId, held: Held, outcome: LoadOutcome, writer: Option<PeerId>)
    ensures Rising(ReadyEffects(m, d, held, outcome, writer), 1, 4)
  {
    var w: seq<Effect> := if held.spec.Interpret? then [Adopt(d, held.gen, writer)] else [];
    var x, y := StoreLearns(d, outcome), Registration(m, d, held, false);
    var z: seq<Effect> := if held.spec.Interpret? then [Wire(d, held.gen)] else [];
    RisingShort(w, 1);
    RisingShort(x, 2);
    RisingShort(y, 3);
    RisingShort(z, 4);
    RisingFour(w, x, y, z);
  }

  lemma RisingFour(w: seq<Effect>, x: seq<Effect>, y: seq<Effect>, z: seq<Effect>)
    requires Rising(w, 1, 1) && Rising(x, 2, 2) && Rising(y, 3, 3) && Rising(z, 4, 4)
    ensures Rising(w + x + y + z, 1, 4)
  {
    RisingConcat(w, x, 1, 1, 2);
    RisingConcat(w + x, y, 1, 2, 3);
    RisingConcat(w + x + y, z, 1, 3, 4);
  }

  lemma FinishIs(m: LifecycleModel, d: DocId, held: Held, intent: Intent, outcome: LoadOutcome, writer: Option<PeerId>)
    ensures FinishLoad(m, d, held, intent, outcome, writer, []).effects
         == if intent.Open? && !outcome.FoundStored? then UndoneEffects(d, held.gen, intent) else ReadyEffects(m, d, held, outcome, writer)
  {
    assert [] + UndoneEffects(d, held.gen, intent) == UndoneEffects(d, held.gen, intent);
    assert [] + ReadyEffects(m, d, held, outcome, writer) == ReadyEffects(m, d, held, outcome, writer);
  }

  lemma UndoneUnranked(d: DocId, gen: Generation, intent: Intent)
    ensures Rising(UndoneEffects(d, gen, intent), 1, 4)
  {
    assert forall e :: e in UndoneEffects(d, gen, intent) ==> Rank(e) == 0;
  }

  lemma FinishRising(m: LifecycleModel, d: DocId, held: Held, intent: Intent, outcome: LoadOutcome, writer: Option<PeerId>)
    ensures Rising(FinishLoad(m, d, held, intent, outcome, writer, []).effects, 1, 4)
  {
    FinishIs(m, d, held, intent, outcome, writer);
    ReadyRising(m, d, held, outcome, writer);
    UndoneUnranked(d, held.gen, intent);
  }

  lemma BeginRising(m: LifecycleModel, d: DocId, spec: BuildSpec, suspended: bool, intent: Intent, writer: Option<PeerId>)
    ensures Begins(m, Begin(m, d, spec, suspended, intent, writer).effects)
    ensures spec.Interpret? && spec.from.Promote? ==> StoresNothing(Begin(m, d, spec, suspended, intent, writer).effects)
  {
    var held, issued := Held(m.nextGen, spec, suspended), m.(nextGen := m.nextGen + 1);
    var prefix, tail := BuildPrefix(d, m.nextGen, spec), FinishLoad(issued, d, held, intent, FoundNone, writer, []).effects;
    PrefixUnranked(d, held.gen, spec);
    FinishRising(issued, d, held, intent, FoundNone, writer);
    FinishSubjects(issued, d, held, intent, writer);
    FinishPrefix(issued, d, held, intent, FoundNone, writer, prefix);
    PrefixBegins(m, prefix, tail);
    PrefixBegins(m, prefix, [Load(d, held.gen)]);
  }

  lemma PrefixBegins(m: LifecycleModel, prefix: seq<Effect>, rest: seq<Effect>)
    requires forall e :: e in prefix ==> Rank(e) == 0 && SubjectGen(e).None? && !e.Store?
    requires Begins(m, rest) && StoresNothing(rest)
    ensures Begins(m, prefix + rest) && StoresNothing(prefix + rest)
  {
    var all := prefix + rest;
    forall i, j | 0 <= i < j < |all| && Rank(all[i]) > 0 && Rank(all[j]) > 0 ensures Rank(all[i]) < Rank(all[j]) {
      assert all[i] == rest[i - |prefix|] && all[j] == rest[j - |prefix|];
    }
    forall i | 0 <= i < |all| && Rank(all[i]) > 0 ensures 1 <= Rank(all[i]) <= 4 {
      assert all[i] == rest[i - |prefix|];
    }
  }

  lemma PrefixUnranked(d: DocId, gen: Generation, spec: BuildSpec)
    ensures forall e :: e in BuildPrefix(d, gen, spec) ==> Rank(e) == 0 && SubjectGen(e).None? && !e.Store?
  {
  }

  ghost predicate StoresNothing(es: seq<Effect>) {
    forall e :: e in es ==> !e.Store?
  }

  /** A load that found nothing tells the store program nothing. */
  lemma FinishSubjects(m: LifecycleModel, d: DocId, held: Held, intent: Intent, writer: Option<PeerId>)
    ensures var es := FinishLoad(m, d, held, intent, FoundNone, writer, []).effects;
      StoresNothing(es) && forall e :: e in es && SubjectGen(e).Some? ==> SubjectGen(e) == Some(held.gen)
  {
  }

  /** The effects of a step that can only begin an instance. */
  ghost predicate Begins(m: LifecycleModel, es: seq<Effect>) {
    && Rising(es, 1, 4)
    && forall e :: e in es && SubjectGen(e).Some? ==> SubjectGen(e) == Some(m.nextGen)
  }

  lemma CreateOrPromoteRising(m: LifecycleModel, d: DocId, bound: BoundSchema, want: DoorIntent)
    ensures Begins(m, CreateOrPromote(m, d, bound, want).effects)
    ensures d in m.docs.items && m.docs.items[d].Ready? ==> StoresNothing(CreateOrPromote(m, d, bound, want).effects)
  {
    var entry := m.Entry(d);
    if entry.Some? && entry.value.IsHeld() {
      if entry.value.Ready? {
        BeginRising(m, d, Interpret(bound, Promote(entry.value.held.gen)), entry.value.held.suspended, Create, entry.value.writer);
      }
    } else {
      var stored := m.StoredOf(bound.metadata.syncMode);
      var intent := if want.ToCreate? then Create
                    else Open(if entry.Some? && entry.value.Deferred? then DeferredReplaced else NothingReplaced);
      BeginRising(m, d, Interpret(bound, if stored then Hydration else Empty), false, intent, None);
    }
  }

  lemma AnswerGetRising(compat: Compat, m: LifecycleModel, d: DocId, bound: BoundSchema, want: DoorIntent)
    ensures Begins(m, AnswerGet(compat, m, d, bound, want).effects)
    ensures d in m.docs.items && m.docs.items[d].Ready? ==> StoresNothing(AnswerGet(compat, m, d, bound, want).effects)
  {
    var entry := m.Entry(d);
    AnswerGetIs(compat, m, d, bound, want);
    if IsStored(entry) {
      LoadAgainRising(m, d, Interpret(bound, Hydration), SuspendedOf(entry.value), want, DepartingOf(entry.value));
    } else {
      CreateOrPromoteRising(m, d, bound, want);
    }
  }

  lemma LoadAgainRising(m: LifecycleModel, d: DocId, spec: BuildSpec, suspended: bool, want: DoorIntent, departing: Option<Generation>)
    ensures Begins(m, LoadAgain(m, d, spec, suspended, want, departing).effects)
  {
    BeginRising(Recorded(m, d, departing), d, spec.Stored(), suspended, if want.ToCreate? then Create else Open(UnloadedReplaced), None);
  }

  /** Effects of an older instance, at most one of them ranked, amid those of a
      newer one. */
  lemma MixedInOrder(b: seq<Effect>, cs: seq<Effect>, rest: seq<Effect>, old_: Generation, new_: Generation)
    requires old_ != new_ && Rising(b, 0, 0) && Rising(rest, 1, 4)
    requires forall i, j :: 0 <= i < j < |cs| ==> SubjectDoc(cs[i]).None? || SubjectDoc(cs[j]).None?
    requires forall i :: 0 <= i < |cs| && SubjectDoc(cs[i]).Some? ==> SubjectGen(cs[i]) == Some(old_)
    requires forall i :: 0 <= i < |rest| && SubjectDoc(rest[i]).Some? ==> SubjectGen(rest[i]) == Some(new_)
    ensures InOrder(b + cs + rest)
  {
    var all := b + cs + rest;
    forall k | 0 <= k < |all|
      ensures k < |b| ==> SubjectDoc(all[k]).None?
      ensures |b| <= k < |b| + |cs| && SubjectDoc(all[k]).Some? ==> SubjectGen(all[k]) == Some(old_)
      ensures |b| + |cs| <= k && SubjectDoc(all[k]).Some? ==> SubjectGen(all[k]) == Some(new_)
    {
    }
    forall i, j | |b| <= i < j < |b| + |cs| ensures SubjectDoc(all[i]).None? || SubjectDoc(all[j]).None? {
      assert all[i] == cs[i - |b|] && all[j] == cs[j - |b|];
    }
  }

  /** A cancelled unload may register the old instance before the new one is
      adopted; the two have different generations. */
  lemma CancelledInOrder(m: LifecycleModel, d: DocId, answer: Step)
    requires Good(m) && d in m.docs.items && m.docs.items[d].Unloading? && m.docs.items[d].stage.Storing?
    requires Begins(m, answer.effects) && Shaped(Cancel(m, d, m.docs.items[d]).model, answer) && StoresNothing(answer.effects)
    ensures InOrder(Sequence(m, Cancel(m, d, m.docs.items[d]), answer).effects)
  {
    var entry := m.docs.items[d];
    var cancelled := Cancel(m, d, entry);
    SequenceIs(m, cancelled, answer);
    assert HeldAt(m, d, entry.held.gen);
    var es, cs := answer.effects, cancelled.effects;
    CancelSubjects(m, d, entry);
    assert forall i :: 0 <= i < |es| ==> es[i] in es;
    if es != [] && es[0].Build? {
      RisingShort([es[0]], 0);
      assert forall i :: 0 <= i < |es[1..]| ==> es[1..][i] == es[i + 1];
      MixedInOrder([es[0]], cs, es[1..], entry.held.gen, m.nextGen);
    } else if !(|es| == 1 && es[0].Refuse?) {
      CancelledFirst(cs, es, entry.held.gen, m.nextGen);
    }
  }

  lemma CancelledFirst(cs: seq<Effect>, rest: seq<Effect>, old_: Generation, new_: Generation)
    requires old_ != new_ && Rising(rest, 1, 4)
    requires forall i, j :: 0 <= i < j < |cs| ==> SubjectDoc(cs[i]).None? || SubjectDoc(cs[j]).None?
    requires forall i :: 0 <= i < |cs| && SubjectDoc(cs[i]).Some? ==> SubjectGen(cs[i]) == Some(old_)
    requires forall i :: 0 <= i < |rest| && SubjectDoc(rest[i]).Some? ==> SubjectGen(rest[i]) == Some(new_)
    ensures InOrder(cs + rest)
  {
    MixedInOrder([], cs, rest, old_, new_);
    assert [] + cs + rest == cs + rest;
  }

  lemma CancelSubjects(m: LifecycleModel, d: DocId, entry: Lifecycle)
    requires entry.Unloading?
    ensures var cs := Cancel(m, d, entry).effects;
      && (forall i, j :: 0 <= i < j < |cs| ==> SubjectDoc(cs[i]).None? || SubjectDoc(cs[j]).None?)
      && (forall i :: 0 <= i < |cs| && SubjectDoc(cs[i]).Some? ==> SubjectGen(cs[i]) == Some(entry.held.gen))
  {
  }

  lemma {:induction false} HookedInOrder(docs: OrderedMap<DocId, Lifecycle>, keys: seq<DocId>)
    requires Distinct(keys)
    ensures InOrder(HookedEffects(docs, keys))
    ensures forall e :: e in HookedEffects(docs, keys) ==> e.Register? && e.docId in keys
  {
    if keys != [] {
      HookedInOrder(docs, keys[..|keys| - 1]);
      assert keys[|keys| - 1] !in keys[..|keys| - 1];
      var rest := HookedEffects(docs, keys[..|keys| - 1]);
      assert forall i :: 0 <= i < |rest| ==> rest[i] in rest;
    }
  }

  lemma {:induction false} CloseDocsUnranked(docs: OrderedMap<DocId, Lifecycle>, keys: seq<DocId>, reason: ClosedReason)
    ensures Rising(CloseDocs(docs, keys, reason), 0, 0)
  {
    hide Rising, End;
    if keys == [] {
      RisingNothing();
    } else {
      var init, d := keys[..|keys| - 1], keys[|keys| - 1];
      CloseDocsUnranked(docs, init, reason);
      RisingNothing();
      if d in docs.items && docs.items[d].IsHeld() {
        EndUnranked(d, docs.items[d], reason);
        RisingConcat(CloseDocs(docs, init, reason), End(d, docs.items[d], reason), 0, 0, 0);
      } else {
        RisingConcat(CloseDocs(docs, init, reason), [], 0, 0, 0);
      }
    }
  }

  lemma RisingNothing()
    ensures Rising([], 0, 0)
  {
  }

  lemma EndUnranked(d: DocId, entry: Lifecycle, reason: ClosedReason)
    requires entry.IsHeld()
    ensures Rising(End(d, entry, reason), 0, 0)
  {
  }

  lemma {:induction false} DisposeDepartingUnranked(departing: OrderedMap<Generation, DocId>, gens: seq<Generation>, reason: ClosedReason)
    ensures Rising(DisposeDeparting(departing, gens, reason), 0, 0)
  {
    if gens != [] {
      DisposeDepartingUnranked(departing, gens[..|gens| - 1], reason);
    }
  }

  /** In every step, whatever the input: an instance is adopted before the store
      program is told of its document, that comes before it is registered, and
      that before it is wired. */
  lemma UpdateInOrder(compat: Compat, input: Input, m: LifecycleModel)
    requires Good(m)
    ensures InOrder(Update(compat, input, m).effects)
  {
    hide InOrder, GetDoc;
    match input
    case Get(d, bound, want) => GetInOrder(compat, m, d, bound, want);
    case ReplicateDoc(d, factoryType, mode, hash) => ReplicateInOrder(m, d, Replicate(factoryType, mode, hash));
    case Reload(d) => ReloadInOrder(compat, m, d);
    case Hooked => HookedInOrder(m.docs, m.docs.keys);
    case CloseAll(reason) => CloseAllInOrder(m, reason);
    case Loaded(d, gen, outcome, writer) => LoadedInOrder(compat, m, d, gen, outcome, writer);
    case Released(d, gen, version) => ReleasedInOrder(m, d, gen, version);
    case _ => QuietInOrder(compat, input, m);
  }

  /** Inputs that adopt, store, register and wire nothing. */
  lemma QuietInOrder(compat: Compat, input: Input, m: LifecycleModel)
    requires Good(m)
    requires input.Destroy? || input.Unload? || input.Suspend? || input.Resume? || input.Left? || input.Defer? || input.LoadFailed?
    ensures InOrder(Update(compat, input, m).effects)
  {
    match input
    case Destroy(d) => UnrankedInOrder(DestroyDoc(m, d).effects);
    case Unload(d) => UnrankedInOrder(UnloadDoc(m, d).effects);
    case Suspend(d) => UnrankedInOrder(SetSuspended(m, d, true).effects);
    case Resume(d) => UnrankedInOrder(SetSuspended(m, d, false).effects);
    case Left(d, gen) => UnrankedInOrder(LeftDoc(m, d, gen).effects);
    case Defer(d) =>
    case LoadFailed(d, gen, error) =>
  }

  lemma ReloadInOrder(compat: Compat, m: LifecycleModel, d: DocId)
    ensures InOrder(Update(compat, Reload(d), m).effects)
  {
    if d in m.docs.items && m.docs.items[d].Unloaded? {
      BeginRising(m, d, m.docs.items[d].spec.Stored(), m.docs.items[d].suspended, Open(UnloadedReplaced), None);
      RisingInOrder(Update(compat, Reload(d), m).effects, 1, 4);
    }
  }

  lemma CloseAllInOrder(m: LifecycleModel, reason: ClosedReason)
    ensures InOrder(CloseEverything(m, reason).effects)
  {
    CloseDocsUnranked(m.docs, m.docs.keys, reason);
    DisposeDepartingUnranked(m.departing, m.departing.keys, reason);
    UnrankedInOrder(CloseEverything(m, reason).effects);
  }

  lemma LoadedInOrder(compat: Compat, m: LifecycleModel, d: DocId, gen: Generation, outcome: LoadOutcome, writer: Option<PeerId>)
    ensures InOrder(Update(compat, Loaded(d, gen, outcome, writer), m).effects)
  {
    if d in m.docs.items && m.docs.items[d].Loading? && m.docs.items[d].held.gen == gen {
      FinishRising(m, d, m.docs.items[d].held, m.docs.items[d].intent, outcome, writer);
      RisingInOrder(Update(compat, Loaded(d, gen, outcome, writer), m).effects, 1, 4);
    }
  }

  lemma UnrankedInOrder(es: seq<Effect>)
    requires forall i :: 0 <= i < |es| ==> SubjectDoc(es[i]).None?
    ensures InOrder(es)
  {
  }

  lemma ReleasedInOrder(m: LifecycleModel, d: DocId, gen: Generation, version: string)
    ensures InOrder(ReleasedDoc(m, d, gen, version).effects)
  {
    var es := ReleasedDoc(m, d, gen, version).effects;
    if |es| > 1 {
      UnrankedInOrder(es);
    }
  }

  lemma GetInOrder(compat: Compat, m: LifecycleModel, d: DocId, bound: BoundSchema, want: DoorIntent)
    requires Good(m)
    ensures InOrder(GetDoc(compat, m, d, bound, want).effects)
  {
    var entry := m.Entry(d);
    if entry.Some? && entry.value.Unloading? && entry.value.stage.Storing? {
      var cancelled := Cancel(m, d, entry.value);
      AnswerGetRising(compat, cancelled.model, d, bound, want);
      AnswerGetShaped(compat, cancelled.model, d, bound, want);
      CancelledInOrder(m, d, AnswerGet(compat, cancelled.model, d, bound, want));
    } else {
      AnswerGetRising(compat, m, d, bound, want);
      RisingInOrder(AnswerGet(compat, m, d, bound, want).effects, 1, 4);
    }
  }

  lemma ReplicateInOrder(m: LifecycleModel, d: DocId, spec: BuildSpec)
    ensures InOrder(ReplicateDocument(m, d, spec).effects)
  {
    var entry := m.Entry(d);
    var suspended := entry.Some? && entry.value.Unloaded? && entry.value.suspended;
    BeginRising(m, d, spec, suspended, Create, None);
    RisingInOrder(Begin(m, d, spec, suspended, Create, None).effects, 1, 4);
  }

  // ---------------------------------------------------------------------
  // Late completions
  // ---------------------------------------------------------------------

  /** The generation a completion was started for. */
  function CompletedGen(input: Input): Option<Generation> {
    match input
    case Loaded(_, gen, _, _) => Some(gen)
    case LoadFailed(_, gen, _) => Some(gen)
    case Released(_, gen, _) => Some(gen)
    case Left(_, gen) => Some(gen)
    case _ => None
  }

  /** The generation an effect acts on. */
  function ActsOn(e: Effect): Option<Generation> {
    match e
    case Build(_, gen, _) => Some(gen)
    case Interpreted(_, gen) => Some(gen)
    case Load(_, gen) => Some(gen)
    case Adopt(_, gen, _) => Some(gen)
    case Register(_, gen, _) => Some(gen)
    case Wire(_, gen) => Some(gen)
    case Drain(_, gen) => Some(gen)
    case Close(_, gen, _, _) => Some(gen)
    case Leave(_, gen) => Some(gen)
    case Dispose(_, gen, _) => Some(gen)
    case _ => None
  }

  /** A completion reaches no instance but its own: the entry of a document that
      holds another generation, or none, stays as it is, absent included, and every
      effect on an instance is on its own. */
  lemma LateCompletionsHarmless(compat: Compat, input: Input, m: LifecycleModel, d: DocId)
    requires Good(m) && CompletedGen(input).Some?
    requires m.Entry(d).Some? && m.Entry(d).value.IsHeld() ==> m.Entry(d).value.held.gen != CompletedGen(input).value
    ensures var step := Update(compat, input, m);
      && step.model.Entry(d) == m.Entry(d)
      && forall e :: e in step.effects && ActsOn(e).Some? ==> ActsOn(e) == CompletedGen(input)
  {
    match input
    case Loaded(docId, gen, outcome, writer) =>
      if m.Entry(docId).Some? && m.Entry(docId).value.Loading? && m.Entry(docId).value.held.gen == gen {
        FinishActsOn(m, docId, m.Entry(docId).value.held, m.Entry(docId).value.intent, outcome, writer);
      }
    case _ =>
  }

  lemma FinishActsOn(m: LifecycleModel, d: DocId, held: Held, intent: Intent, outcome: LoadOutcome, writer: Option<PeerId>)
    ensures forall e :: e in FinishLoad(m, d, held, intent, outcome, writer, []).effects && ActsOn(e).Some? ==> ActsOn(e) == Some(held.gen)
  {
    FinishIs(m, d, held, intent, outcome, writer);
  }

  // ---------------------------------------------------------------------
  // The books, said of the history itself
  // ---------------------------------------------------------------------

  predicate Closes(e: Effect, g: Generation) {
    e.Close? && e.gen == g
  }

  predicate Disposes(e: Effect, g: Generation) {
    e.Dispose? && e.gen == g
  }

  predicate Registers(e: Effect, g: Generation) {
    e.Register? && e.gen == g
  }

  predicate Builds(e: Effect, g: Generation) {
    e.Build? && e.gen == g
  }

  predicate Promotes(e: Effect, g: Generation) {
    e.Build? && e.spec.Interpret? && e.spec.from == Promote(g)
  }

  /** What a book counts is in the history. */
  lemma {:induction false} BookCounts(es: seq<Effect>, g: Generation)
    ensures var b := GenFold(UNISSUED, es, g);
      && (b.closed > 0 <==> exists i :: 0 <= i < |es| && Closes(es[i], g))
      && (b.disposed > 0 <==> exists i :: 0 <= i < |es| && Disposes(es[i], g))
      && (b.promoted > 0 <==> exists i :: 0 <= i < |es| && Promotes(es[i], g))
      && (b.built > 0 <==> exists i :: 0 <= i < |es| && Builds(es[i], g))
      && (b.registered > 0 <==> exists i :: 0 <= i < |es| && Registers(es[i], g))
  {
    if es != [] {
      var init := es[..|es| - 1];
      BookCounts(init, g);
      assert forall i :: 0 <= i < |init| ==> init[i] == es[i];
    }
  }

  /** What a book counts once happens once. */
  lemma {:induction false} BookCountsOnce(es: seq<Effect>, g: Generation)
    ensures var b := GenFold(UNISSUED, es, g);
      && (b.closed <= 1 ==> forall i, j :: 0 <= i < |es| && 0 <= j < |es| && Closes(es[i], g) && Closes(es[j], g) ==> i == j)
      && (b.disposed <= 1 ==> forall i, j :: 0 <= i < |es| && 0 <= j < |es| && Disposes(es[i], g) && Disposes(es[j], g) ==> i == j)
      && (b.built <= 1 ==> forall i, j :: 0 <= i < |es| && 0 <= j < |es| && Builds(es[i], g) && Builds(es[j], g) ==> i == j)
      && (b.registered <= 1 ==> forall i, j :: 0 <= i < |es| && 0 <= j < |es| && Registers(es[i], g) && Registers(es[j], g) ==> i == j)
  {
    if es != [] {
      var init := es[..|es| - 1];
      BookCountsOnce(init, g);
      BookCounts(init, g);
      assert forall i :: 0 <= i < |init| ==> init[i] == es[i];
    }
  }

  /** A book that was never early saw every disposal after a close. */
  lemma {:induction false} BookInOrder(es: seq<Effect>, g: Generation)
    requires !GenFold(UNISSUED, es, g).early
    ensures forall j :: 0 <= j < |es| && Disposes(es[j], g) ==> exists i :: 0 <= i < j && Closes(es[i], g)
  {
    if es != [] {
      var init := es[..|es| - 1];
      BookInOrder(init, g);
      BookCounts(init, g);
      forall j | 0 <= j < |es| && Disposes(es[j], g) ensures exists i :: 0 <= i < j && Closes(es[i], g) {
        if j < |init| {
          assert Disposes(init[j], g);
          var i :| 0 <= i < j && Closes(init[i], g);
          assert Closes(es[i], g);
        } else {
          var i :| 0 <= i < |init| && Closes(init[i], g);
          assert Closes(es[i], g);
        }
      }
    }
  }

  /** What became of an issued generation: one of four fates, and what was done with
      its instance in which order. */
  ghost predicate LedgerOf(m: LifecycleModel, es: seq<Effect>, g: Generation) {
    var held, departing := HeldSomewhere(m, g), g in m.departing.items;
    var promoted, disposed := (exists i :: 0 <= i < |es| && Promotes(es[i], g)), (exists i :: 0 <= i < |es| && Disposes(es[i], g));
    && (held || departing || promoted || disposed)
    && !(held && departing) && !(held && promoted) && !(held && disposed)
    && !(departing && promoted) && !(departing && disposed) && !(promoted && disposed)
    && (exists i :: 0 <= i < |es| && Builds(es[i], g))
    && (forall i, j :: 0 <= i < |es| && 0 <= j < |es| && Builds(es[i], g) && Builds(es[j], g) ==> i == j)
    && (forall i, j :: 0 <= i < |es| && 0 <= j < |es| && Closes(es[i], g) && Closes(es[j], g) ==> i == j)
    && (forall i, j :: 0 <= i < |es| && 0 <= j < |es| && Disposes(es[i], g) && Disposes(es[j], g) ==> i == j)
    && (forall j :: 0 <= j < |es| && Disposes(es[j], g) ==> exists i :: 0 <= i < j && Closes(es[i], g))
  }

  /** The ledger, over every run: an issued generation was built exactly once, and is held,
      departing, promoted away or disposed, and just one of these; it is closed at
      most once and disposed at most once, and never disposed before it is closed. */
  lemma LedgerOverRuns(compat: Compat, hasStore: bool, inputs: seq<Input>, g: Generation)
    requires g < Run(compat, InitialLifecycle(hasStore), inputs).model.nextGen
    ensures LedgerOf(Run(compat, InitialLifecycle(hasStore), inputs).model, Run(compat, InitialLifecycle(hasStore), inputs).effects, g)
  {
    var m, es := Run(compat, InitialLifecycle(hasStore), inputs).model, Run(compat, InitialLifecycle(hasStore), inputs).effects;
    RunKeepsBooks(compat, hasStore, inputs);
    var b := GenFold(UNISSUED, es, g);
    assert Account(m, b, g);
    if HeldSomewhere(m, g) {
      var d :| HeldAt(m, d, g);
    }
    BookCounts(es, g);
    BookCountsOnce(es, g);
    BookInOrder(es, g);
  }

  /** Registration, over every run: once hooked every ready entry is registered; no
      generation registers twice; and an entry that is leaving has registered. */
  lemma RegistrationOverRuns(compat: Compat, hasStore: bool, inputs: seq<Input>)
    ensures var m, es := Run(compat, InitialLifecycle(hasStore), inputs).model, Run(compat, InitialLifecycle(hasStore), inputs).effects;
      && (forall d :: d in m.docs.items && m.docs.items[d].Ready? && m.hooked ==> m.docs.items[d].registered)
      && (forall g: Generation, i, j :: 0 <= i < |es| && 0 <= j < |es| && Registers(es[i], g) && Registers(es[j], g) ==> i == j)
      && (forall d :: d in m.docs.items && m.docs.items[d].IsHeld() ==>
            (IsRegistered(m.docs.items[d]) <==> exists i :: 0 <= i < |es| && Registers(es[i], m.docs.items[d].held.gen)))
      && (forall d :: d in m.docs.items && IsLeaving(m.docs.items[d]) ==> IsRegistered(m.docs.items[d]))
  {
    var m, es := Run(compat, InitialLifecycle(hasStore), inputs).model, Run(compat, InitialLifecycle(hasStore), inputs).effects;
    RunKeepsBooks(compat, hasStore, inputs);
    forall g: Generation, i, j | 0 <= i < |es| && 0 <= j < |es| && Registers(es[i], g) && Registers(es[j], g) ensures i == j {
      assert Account(m, GenFold(UNISSUED, es, g), g);
      BookCountsOnce(es, g);
    }
    forall d | d in m.docs.items && m.docs.items[d].IsHeld()
      ensures IsRegistered(m.docs.items[d]) <==> exists i :: 0 <= i < |es| && Registers(es[i], m.docs.items[d].held.gen)
    {
      var g := m.docs.items[d].held.gen;
      assert HeldAt(m, d, g);
      assert Account(m, GenFold(UNISSUED, es, g), g);
      BookCounts(es, g);
    }
  }

  /** A document's book that never clashed saw its starts and stops of leaving
      alternate, each instance beginning with a start. */
  ghost predicate Alternates(es: seq<Effect>, d: DocId) {
    forall i :: 0 <= i < |es| && es[i].LeavingGraph? && es[i].docId == d ==> es[i].on == !DocFold(DocBook(false, false), es[..i], d).on
  }

  lemma {:induction false} NoClashAlternates(es: seq<Effect>, d: DocId)
    requires !DocFold(DocBook(false, false), es, d).clash
    ensures Alternates(es, d)
  {
    if es != [] {
      var init := es[..|es| - 1];
      NoClashAlternates(init, d);
      forall i | 0 <= i < |es| && es[i].LeavingGraph? && es[i].docId == d ensures es[i].on == !DocFold(DocBook(false, false), es[..i], d).on {
        if i < |init| {
          assert init[i] == es[i] && init[..i] == es[..i];
        }
      }
    }
  }

  /** Between two starts of leaving there is a stop, or the instance was closed;
      between two stops there is a start. */
  lemma {:induction false} OnMeansStarted(es: seq<Effect>, i: nat, j: nat, d: DocId, on: bool)
    requires i <= j <= |es| && DocFold(DocBook(false, false), es[..i], d).on == on
    requires forall k :: i <= k < j ==> !(es[k].LeavingGraph? && es[k].docId == d) && !(es[k].Close? && es[k].docId == d)
    ensures DocFold(DocBook(false, false), es[..j], d).on == on
  {
    if i < j {
      OnMeansStarted(es, i, j - 1, d, on);
      assert es[..j][..j - 1] == es[..j - 1];
    }
  }

  lemma LeavingAlternatesOverRuns(compat: Compat, hasStore: bool, inputs: seq<Input>, d: DocId, i: nat, j: nat)
    requires var es := Run(compat, InitialLifecycle(hasStore), inputs).effects;
      i < j < |es| && es[i].LeavingGraph? && es[i].docId == d && es[j].LeavingGraph? && es[j].docId == d && es[i].on == es[j].on
    ensures var es := Run(compat, InitialLifecycle(hasStore), inputs).effects;
      exists k :: i < k < j && ((es[k].LeavingGraph? && es[k].docId == d) || (es[k].Close? && es[k].docId == d))
  {
    var es := Run(compat, InitialLifecycle(hasStore), inputs).effects;
    RunKeepsBooks(compat, hasStore, inputs);
    AlternatesIn(es, d, i, j);
  }

  lemma AlternatesIn(es: seq<Effect>, d: DocId, i: nat, j: nat)
    requires !DocFold(DocBook(false, false), es, d).clash
    requires i < j < |es| && es[i].LeavingGraph? && es[i].docId == d && es[j].LeavingGraph? && es[j].docId == d && es[i].on == es[j].on
    ensures exists k :: i < k < j && ((es[k].LeavingGraph? && es[k].docId == d) || (es[k].Close? && es[k].docId == d))
  {
    NoClashAlternates(es, d);
    if forall k :: i < k < j ==> !(es[k].LeavingGraph? && es[k].docId == d) && !(es[k].Close? && es[k].docId == d) {
      assert es[..i + 1][..i] == es[..i];
      OnMeansStarted(es, i + 1, j, d, es[i].on);
    }
  }
}
