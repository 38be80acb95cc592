/** What every run does for each instance: how often it is loaded, adopted, wired
    and sent away, and what the store was told of its document. */
module LifecycleStarts {
  import opened Prelude
  import opened OrderedMaps
  import opened Lifecycles
  import opened LifecycleBooks
  import opened LifecycleRuns
  import opened LifecycleDoors

  // ---------------------------------------------------------------------
  // Counting effects
  // ---------------------------------------------------------------------

  datatype Kind = OfInterpreted | OfLoad | OfAdopt | OfWire | OfLeave

  /** The kind of an effect that belongs to the life of one instance, and the
      instance. */
  function KindOf(e: Effect): Option<(Kind, Generation)> {
    match e
    case Interpreted(_, gen) => Some((OfInterpreted, gen))
    case Load(_, gen) => Some((OfLoad, gen))
    case Adopt(_, gen, _) => Some((OfAdopt, gen))
    case Wire(_, gen) => Some((OfWire, gen))
    case Leave(_, gen) => Some((OfLeave, gen))
    case _ => None
  }

  function Times(es: seq<Effect>, kind: Kind, g: Generation): nat {
    if es == [] then 0
    else Times(es[..|es| - 1], kind, g) + (if KindOf(es[|es| - 1]) == Some((kind, g)) then 1 else 0)
  }

  lemma {:induction false} TimesConcat(x: seq<Effect>, y: seq<Effect>, kind: Kind, g: Generation)
    ensures Times(x + y, kind, g) == Times(x, kind, g) + Times(y, kind, g)
  {
    if y == [] {
      assert x + y == x;
    } else {
      assert (x + y)[..|x + y| - 1] == x + y[..|y| - 1];
      TimesConcat(x, y[..|y| - 1], kind, g);
    }
  }

  lemma TimesOne(e: Effect, kind: Kind, g: Generation)
    ensures Times([e], kind, g) == if KindOf(e) == Some((kind, g)) then 1 else 0
  {
    assert [e][..0] == [];
  }

  /** Effects of no such kind. */
  predicate Quiet(es: seq<Effect>) {
    forall e :: e in es ==> KindOf(e).None?
  }

  lemma {:induction false} QuietTimes(es: seq<Effect>, kind: Kind, g: Generation)
    requires Quiet(es)
    ensures Times(es, kind, g) == 0
  {
    if es != [] {
      assert es[|es| - 1] in es;
      QuietTimes(es[..|es| - 1], kind, g);
    }
  }

  /** Of these kinds, effects of one instance only. */
  predicate OnlyOf(es: seq<Effect>, gen: Generation) {
    forall e :: e in es && KindOf(e).Some? ==> KindOf(e).value.1 == gen
  }

  lemma OnlyOfConcat(x: seq<Effect>, y: seq<Effect>, gen: Generation)
    requires OnlyOf(x, gen) && OnlyOf(y, gen)
    ensures OnlyOf(x + y, gen)
  {
  }

  lemma {:induction false} OtherTimes(es: seq<Effect>, gen: Generation, kind: Kind, g: Generation)
    requires OnlyOf(es, gen) && g != gen
    ensures Times(es, kind, g) == 0
  {
    if es != [] {
      assert es[|es| - 1] in es;
      OtherTimes(es[..|es| - 1], gen, kind, g);
    }
  }

  // ---------------------------------------------------------------------
  // What a model must agree with
  // ---------------------------------------------------------------------

  /** An instance that has become ready. */
  predicate WasReady(entry: Lifecycle) {
    entry.Ready? || entry.Unloading?
  }

  predicate IsInterpreted(entry: Lifecycle)
    requires entry.IsHeld()
  {
    entry.held.spec.Interpret?
  }

  /** How often each effect has been emitted for a held instance. */
  function Expected(entry: Lifecycle, kind: Kind): nat
    requires entry.IsHeld()
  {
    match kind
    case OfInterpreted => if IsInterpreted(entry) then 1 else 0
    case OfLoad => if WasReady(entry) then 0 else 1
    case OfAdopt => if IsInterpreted(entry) && WasReady(entry) then 1 else 0
    case OfWire => if IsInterpreted(entry) && WasReady(entry) then 1 else 0
    case OfLeave => if IsLeaving(entry) then 1 else 0
  }

  /** A ready instance may have been loaded or not; everything else is certain. */
  ghost predicate AsExpected(entry: Lifecycle, es: seq<Effect>, g: Generation)
    requires entry.IsHeld()
  {
    forall kind :: Times(es, kind, g) == Expected(entry, kind) || (kind == OfLoad && WasReady(entry) && Times(es, kind, g) <= 1)
  }

  ghost predicate StartAccount(m: LifecycleModel, es: seq<Effect>, g: Generation) {
    && (forall kind :: Times(es, kind, g) <= 1)
    && (g >= m.nextGen ==> forall kind :: Times(es, kind, g) == 0)
    && (forall d :: HeldAt(m, d, g) ==> AsExpected(m.docs.items[d], es, g))
  }

  /** The two entries stand at the same point of their instance's life. */
  predicate SamePoint(a: Lifecycle, b: Lifecycle) {
    && a.IsHeld() && b.IsHeld() && a.held.gen == b.held.gen && a.held.spec == b.held.spec
    && WasReady(a) == WasReady(b) && IsLeaving(a) == IsLeaving(b)
    && (WasReady(a) ==> a.writer == b.writer)
  }

  /** Nothing held is new, and nothing held has moved on. */
  ghost predicate Standing(m: LifecycleModel, m': LifecycleModel) {
    && m'.nextGen == m.nextGen
    && forall d :: d in m'.docs.items && m'.docs.items[d].IsHeld() ==> d in m.docs.items && SamePoint(m.docs.items[d], m'.docs.items[d])
  }

  lemma StandingKeeps(m: LifecycleModel, m': LifecycleModel, es: seq<Effect>, h: seq<Effect>, g: Generation)
    requires Standing(m, m') && Quiet(es) && StartAccount(m, h, g)
    ensures StartAccount(m', h + es, g)
  {
    forall kind ensures Times(h + es, kind, g) == Times(h, kind, g) {
      TimesConcat(h, es, kind, g);
      QuietTimes(es, kind, g);
    }
    forall d | HeldAt(m', d, g) ensures AsExpected(m'.docs.items[d], h + es, g) {
      assert HeldAt(m, d, g);
    }
  }

  /** Only `d` may be held differently, with the instance `gen`, for which the step
      emits what brings it where it stands; and no other instance is concerned. */
  ghost predicate Moves(m: LifecycleModel, m': LifecycleModel, es: seq<Effect>, d: DocId, gen: Generation) {
    && m.nextGen <= m'.nextGen && gen < m'.nextGen && (gen < m.nextGen ==> HeldAt(m, d, gen))
    && OnlyOf(es, gen)
    && (forall c :: c in m'.docs.items && m'.docs.items[c].IsHeld() ==>
          if c == d then m'.docs.items[c].held.gen == gen else c in m.docs.items && m'.docs.items[c] == m.docs.items[c])
  }

  lemma MovesKeeps(m: LifecycleModel, m': LifecycleModel, es: seq<Effect>, d: DocId, gen: Generation, h: seq<Effect>, g: Generation)
    requires Good(m) && Moves(m, m', es, d, gen) && StartAccount(m, h, g)
    requires g == gen ==> forall kind :: Times(h, kind, g) + Times(es, kind, g) <= 1
    requires g == gen && HeldAt(m', d, g) ==> AsExpected(m'.docs.items[d], h + es, g)
    ensures StartAccount(m', h + es, g)
  {
    forall kind ensures Times(h + es, kind, g) == Times(h, kind, g) + Times(es, kind, g) {
      TimesConcat(h, es, kind, g);
    }
    if g != gen {
      forall kind ensures Times(es, kind, g) == 0 {
        OtherTimes(es, gen, kind, g);
      }
      forall c | HeldAt(m', c, g) ensures AsExpected(m'.docs.items[c], h + es, g) {
        assert HeldAt(m, c, g);
      }
    } else {
      forall c | HeldAt(m', c, g) ensures c == d {
        if c != d {
          assert HeldAt(m, c, g);
        }
      }
    }
  }

  // ---------------------------------------------------------------------
  // Each transition
  // ---------------------------------------------------------------------

  /** Every instance's account is kept, whatever the history. */
  ghost predicate KeepsStarts(m: LifecycleModel, step: Step) {
    forall h, g: Generation :: StartAccount(m, h, g) ==> StartAccount(step.model, h + step.effects, g)
  }

  lemma QuietStep(m: LifecycleModel, step: Step)
    requires Standing(m, step.model) && Quiet(step.effects)
    ensures KeepsStarts(m, step)
  {
    forall h, g: Generation | StartAccount(m, h, g) ensures StartAccount(step.model, h + step.effects, g) {
      StandingKeeps(m, step.model, step.effects, h, g);
    }
  }

  lemma ReadyTimes(m: LifecycleModel, d: DocId, held: Held, outcome: LoadOutcome, writer: Option<PeerId>, kind: Kind)
    ensures var es := ReadyEffects(m, d, held, outcome, writer);
      Times(es, kind, held.gen) == (if held.spec.Interpret? && (kind == OfAdopt || kind == OfWire) then 1 else 0) && OnlyOf(es, held.gen)
  {
    hide Times, StoreLearns, Registration;
    var a := if held.spec.Interpret? then [Adopt(d, held.gen, writer)] else [];
    var s, r := StoreLearns(d, outcome), Registration(m, d, held, false);
    var w := if held.spec.Interpret? then [Wire(d, held.gen)] else [];
    TimesConcat(a, s, kind, held.gen);
    TimesConcat(a + s, r, kind, held.gen);
    TimesConcat(a + s + r, w, kind, held.gen);
    QuietParts(m, d, held, outcome);
    QuietTimes(s, kind, held.gen);
    QuietTimes(r, kind, held.gen);
    QuietTimes([], kind, held.gen);
    TimesOne(Adopt(d, held.gen, writer), kind, held.gen);
    TimesOne(Wire(d, held.gen), kind, held.gen);
    OnlyOfConcat(a, s, held.gen);
    OnlyOfConcat(a + s, r, held.gen);
    OnlyOfConcat(a + s + r, w, held.gen);
  }

  lemma QuietParts(m: LifecycleModel, d: DocId, held: Held, outcome: LoadOutcome)
    ensures Quiet(StoreLearns(d, outcome)) && Quiet(Registration(m, d, held, false))
  {
  }

  lemma FinishStarts(m: LifecycleModel, d: DocId, held: Held, intent: Intent, outcome: LoadOutcome, writer: Option<PeerId>)
    requires Good(m) && m.Entry(d) == Some(Loading(held, intent))
    ensures KeepsStarts(m, FinishLoad(m, d, held, intent, outcome, writer, []))
  {
    hide ReadyEffects, KindOf;
    var step := FinishLoad(m, d, held, intent, outcome, writer, []);
    if intent.Open? && !outcome.FoundStored? {
      QuietUndone(d, held.gen, intent);
      QuietStep(m, step);
    } else {
      var es := ReadyEffects(m, d, held, outcome, writer);
      assert step.effects == es;
      assert HeldAt(m, d, held.gen);
      forall h, g: Generation | StartAccount(m, h, g) ensures StartAccount(step.model, h + es, g) {
        BecomesReady(m, d, held, intent, outcome, writer, h, g);
      }
    }
  }

  lemma QuietUndone(d: DocId, gen: Generation, intent: Intent)
    ensures Quiet(UndoneEffects(d, gen, intent)) && [] + UndoneEffects(d, gen, intent) == UndoneEffects(d, gen, intent)
  {
  }

  lemma BecomesReady(m: LifecycleModel, d: DocId, held: Held, intent: Intent, outcome: LoadOutcome, writer: Option<PeerId>, h: seq<Effect>, g: Generation)
    requires Good(m) && m.Entry(d) == Some(Loading(held, intent)) && StartAccount(m, h, g)
    ensures StartAccount(m.Put(d, Ready(held, m.hooked, writer)), h + ReadyEffects(m, d, held, outcome, writer), g)
  {
    hide ReadyEffects, KindOf, Times;
    var es := ReadyEffects(m, d, held, outcome, writer);
    assert HeldAt(m, d, held.gen);
    forall kind ensures Times(es, kind, held.gen) == (if held.spec.Interpret? && (kind == OfAdopt || kind == OfWire) then 1 else 0) && OnlyOf(es, held.gen) {
      ReadyTimes(m, d, held, outcome, writer, kind);
    }
    ReadyTimes(m, d, held, outcome, writer, OfLoad);
    forall kind ensures Times(h + es, kind, g) == Times(h, kind, g) + Times(es, kind, g) {
      TimesConcat(h, es, kind, g);
    }
    if g == held.gen {
      assert AsExpected(m.docs.items[d], h, g);
    }
    MovesKeeps(m, m.Put(d, Ready(held, m.hooked, writer)), es, d, held.gen, h, g);
  }

  lemma PrefixTimes(d: DocId, gen: Generation, spec: BuildSpec, kind: Kind)
    ensures Times(BuildPrefix(d, gen, spec), kind, gen) == (if spec.Interpret? && kind == OfInterpreted then 1 else 0)
    ensures OnlyOf(BuildPrefix(d, gen, spec), gen)
  {
    var x, y := [Build(d, gen, spec)], if spec.Interpret? then [Interpreted(d, gen)] else [];
    TimesConcat(x, y, kind, gen);
    TimesOne(Build(d, gen, spec), kind, gen);
    TimesOne(Interpreted(d, gen), kind, gen);
    QuietTimes([], kind, gen);
  }

  predicate EmitsAsExpected(step: Step, d: DocId, gen: Generation, kind: Kind) {
    && Times(step.effects, kind, gen) <= 1
    && (HeldAt(step.model, d, gen) ==>
          Times(step.effects, kind, gen) == Expected(step.model.docs.items[d], kind) || (kind == OfLoad && WasReady(step.model.docs.items[d])))
  }

  /** What beginning an instance emits is what its entry expects; if the entry is
      not held, no more than once of each. */
  lemma BeginTimes(m: LifecycleModel, d: DocId, spec: BuildSpec, suspended: bool, intent: Intent, writer: Option<PeerId>, kind: Kind)
    ensures var step, gen := Begin(m, d, spec, suspended, intent, writer), m.nextGen;
      OnlyOf(step.effects, gen) && EmitsAsExpected(step, d, gen, kind)
  {
    hide Times, OnlyOf, ReadyEffects, BuildPrefix, UndoneEffects;
    var gen, held, issued := m.nextGen, Held(m.nextGen, spec, suspended), m.(nextGen := m.nextGen + 1);
    var prefix := BuildPrefix(d, gen, spec);
    PrefixTimes(d, gen, spec, kind);
    var rest := if m.StoredOf(spec.MetadataOf().syncMode) && !(spec.Interpret? && spec.from.Promote?) then [Load(d, gen)]
                else if intent.Open? then UndoneEffects(d, gen, intent) else ReadyEffects(issued, d, held, FoundNone, writer);
    assert Begin(m, d, spec, suspended, intent, writer).effects == prefix + rest;
    TimesOne(Load(d, gen), kind, gen);
    LoadIsOf(d, gen);
    ReadyTimes(issued, d, held, FoundNone, writer, kind);
    QuietUndone(d, gen, intent);
    QuietTimes(UndoneEffects(d, gen, intent), kind, gen);
    QuietIsOf(UndoneEffects(d, gen, intent), gen);
    TimesConcat(prefix, rest, kind, gen);
    OnlyOfConcat(prefix, rest, gen);
  }

  lemma LoadIsOf(d: DocId, gen: Generation)
    ensures OnlyOf([Load(d, gen)], gen) && KindOf(Load(d, gen)) == Some((OfLoad, gen))
  {
  }

  lemma QuietIsOf(es: seq<Effect>, gen: Generation)
    requires Quiet(es)
    ensures OnlyOf(es, gen)
  {
  }

  lemma BeginStarts(m: LifecycleModel, d: DocId, spec: BuildSpec, suspended: bool, intent: Intent, writer: Option<PeerId>, departing: Option<Generation>)
    requires Good(m)
    ensures KeepsStarts(m, Begin(Recorded(m, d, departing), d, spec, suspended, intent, writer))
  {
    hide Times, OnlyOf, AsExpected;
    var m0, gen := Recorded(m, d, departing), m.nextGen;
    var step := Begin(m0, d, spec, suspended, intent, writer);
    BeginIsNew(m, d, spec, suspended, intent, writer, departing);
    forall kind ensures EmitsAsExpected(step, d, gen, kind) {
      BeginTimes(m0, d, spec, suspended, intent, writer, kind);
    }
    BeginTimes(m0, d, spec, suspended, intent, writer, OfLoad);
    forall h, g: Generation | StartAccount(m, h, g) ensures StartAccount(step.model, h + step.effects, g) {
      if g == gen {
        NewAsExpected(step, d, h, gen);
        forall kind ensures Times(h, kind, g) + Times(step.effects, kind, g) <= 1 {
          assert EmitsAsExpected(step, d, gen, kind);
        }
      }
      MovesKeeps(m, step.model, step.effects, d, gen, h, g);
    }
  }

  lemma NewAsExpected(step: Step, d: DocId, h: seq<Effect>, gen: Generation)
    requires forall kind :: Times(h, kind, gen) == 0
    requires forall kind :: EmitsAsExpected(step, d, gen, kind)
    ensures HeldAt(step.model, d, gen) ==> AsExpected(step.model.docs.items[d], h + step.effects, gen)
  {
    hide Times;
    forall kind ensures Times(h + step.effects, kind, gen) == Times(step.effects, kind, gen) && EmitsAsExpected(step, d, gen, kind) {
      TimesConcat(h, step.effects, kind, gen);
    }
  }

  /** Beginning touches one entry, which then holds the new instance or none. */
  lemma BeginIsNew(m: LifecycleModel, d: DocId, spec: BuildSpec, suspended: bool, intent: Intent, writer: Option<PeerId>, departing: Option<Generation>)
    ensures var m' := Begin(Recorded(m, d, departing), d, spec, suspended, intent, writer).model;
      && m'.nextGen == m.nextGen + 1
      && forall c :: c in m'.docs.items && m'.docs.items[c].IsHeld() ==>
           if c == d then m'.docs.items[c].held.gen == m.nextGen else c in m.docs.items && m'.docs.items[c] == m.docs.items[c]
  {
    hide ReadyEffects, BuildPrefix, UndoneEffects;
  }

  // ---------------------------------------------------------------------
  // Every input
  // ---------------------------------------------------------------------

  lemma LeaveStarts(m: LifecycleModel, d: DocId)
    requires Good(m) && d in m.docs.items && m.docs.items[d].Unloading? && m.docs.items[d].stage.Storing? && m.docs.items[d].registered
    ensures var e := m.docs.items[d];
      KeepsStarts(m, Step(m.Put(d, Unloading(e.held, Leaving, true, e.writer)), [Close(d, e.held.gen, ByUnload, IsLoaded), Leave(d, e.held.gen)]))
  {
    hide Times;
    var e := m.docs.items[d];
    var gen := e.held.gen;
    var x, y := [Close(d, gen, ByUnload, IsLoaded)], [Leave(d, gen)];
    var m', es := m.Put(d, Unloading(e.held, Leaving, true, e.writer)), x + y;
    assert es == [Close(d, gen, ByUnload, IsLoaded), Leave(d, gen)];
    assert HeldAt(m, d, gen);
    forall kind ensures Times(es, kind, gen) == if kind == OfLeave then 1 else 0 {
      TimesConcat(x, y, kind, gen);
      TimesOne(x[0], kind, gen);
      TimesOne(y[0], kind, gen);
    }
    forall h, g: Generation | StartAccount(m, h, g) ensures StartAccount(m', h + es, g) {
      if g == gen {
        assert AsExpected(e, h, g);
      }
      forall kind ensures Times(h + es, kind, g) == Times(h, kind, g) + Times(es, kind, g) {
        TimesConcat(h, es, kind, g);
      }
      MovesKeeps(m, m', es, d, gen, h, g);
    }
  }

  lemma ReleasedStarts(m: LifecycleModel, d: DocId, gen: Generation, version: string)
    requires Good(m)
    ensures KeepsStarts(m, ReleasedDoc(m, d, gen, version))
  {
    hide KindOf;
    QuietReleased(m, d, gen, version);
    var entry := m.Entry(d);
    if entry.Some? && entry.value.Unloading? && entry.value.stage.Storing? && entry.value.registered && entry.value.held.gen == gen {
      LeaveStarts(m, d);
    } else {
      QuietStep(m, ReleasedDoc(m, d, gen, version));
    }
  }

  lemma QuietReleased(m: LifecycleModel, d: DocId, gen: Generation, version: string)
    ensures var step, entry := ReleasedDoc(m, d, gen, version), m.Entry(d);
      !(entry.Some? && entry.value.Unloading? && entry.value.stage.Storing? && entry.value.registered && entry.value.held.gen == gen) ==>
        Quiet(step.effects) && Standing(m, step.model)
  {
  }

  lemma CreateOrPromoteStarts(m: LifecycleModel, d: DocId, bound: BoundSchema, want: DoorIntent)
    requires Good(m)
    ensures KeepsStarts(m, CreateOrPromote(m, d, bound, want))
  {
    var entry := m.Entry(d);
    QuietStep(m, Step(m, []));
    if entry.Some? && entry.value.IsHeld() {
      if entry.value.Ready? {
        BeginStarts(m, d, Interpret(bound, Promote(entry.value.held.gen)), entry.value.held.suspended, Create, entry.value.writer, None);
      }
    } else {
      var stored := m.StoredOf(bound.metadata.syncMode);
      var intent := if want.ToCreate? then Create
                    else Open(if entry.Some? && entry.value.Deferred? then DeferredReplaced else NothingReplaced);
      BeginStarts(m, d, Interpret(bound, if stored then Hydration else Empty), false, intent, None, None);
    }
  }

  lemma AnswerGetStarts(compat: Compat, m: LifecycleModel, d: DocId, bound: BoundSchema, want: DoorIntent)
    requires Good(m)
    ensures KeepsStarts(m, AnswerGet(compat, m, d, bound, want))
  {
    hide AnswerGet, CreateOrPromote, KeepsStarts, Begin;
    var entry, step := m.Entry(d), AnswerGet(compat, m, d, bound, want);
    AnswerGetIs(compat, m, d, bound, want);
    CreateOrPromoteStarts(m, d, bound, want);
    if IsIdle(m, step) {
      QuietStep(m, step);
    } else if IsStored(entry) {
      BeginStarts(m, d, Interpret(bound, Hydration), SuspendedOf(entry.value), if want.ToCreate? then Create else Open(UnloadedReplaced), None,
                  DepartingOf(entry.value));
    } else if entry.Some? && entry.value.Loading? && step == Step(m.Put(d, entry.value.(intent := Create)), []) {
      QuietStep(m, step);
    }
  }

  lemma GetStarts(compat: Compat, m: LifecycleModel, d: DocId, bound: BoundSchema, want: DoorIntent)
    requires Good(m)
    ensures KeepsStarts(m, GetDoc(compat, m, d, bound, want))
  {
    hide AnswerGet, Sequence, Cancel, KeepsStarts;
    var entry := m.Entry(d);
    if LifecycleDoors.Storing(entry) {
      var cancelled := Cancel(m, d, entry.value);
      var answer := AnswerGet(compat, cancelled.model, d, bound, want);
      CancelKeeps(m, d);
      QuietCancel(m, d, entry.value);
      AnswerGetStarts(compat, cancelled.model, d, bound, want);
      AnswerGetShaped(compat, cancelled.model, d, bound, want);
      SequenceStarts(m, cancelled, answer);
    } else {
      AnswerGetStarts(compat, m, d, bound, want);
    }
  }

  lemma QuietCancel(m: LifecycleModel, d: DocId, entry: Lifecycle)
    requires m.Entry(d) == Some(entry) && entry.Unloading? && entry.stage.Storing?
    ensures Quiet(Cancel(m, d, entry).effects) && Standing(m, Cancel(m, d, entry).model)
  {
  }

  lemma SequenceStarts(m: LifecycleModel, first: Step, second: Step)
    requires Standing(m, first.model) && Quiet(first.effects) && KeepsStarts(first.model, second) && Shaped(first.model, second)
    ensures KeepsStarts(m, Sequence(m, first, second))
  {
    hide Times;
    var es, step := second.effects, Sequence(m, first, second);
    SequenceIs(m, first, second);
    if |es| == 1 && es[0].Refuse? {
      QuietStep(m, step);
    } else {
      forall h, g: Generation | StartAccount(m, h, g) ensures StartAccount(step.model, h + step.effects, g) {
        StandingKeeps(m, first.model, [], h, g);
        assert h + [] == h;
        forall kind ensures Times(h + step.effects, kind, g) == Times(h + es, kind, g) {
          Reordered(h, first.effects, es, step.effects, kind, g);
        }
        SameCounts(second.model, h + es, h + step.effects, g);
      }
    }
  }

  lemma SameCounts(m: LifecycleModel, x: seq<Effect>, y: seq<Effect>, g: Generation)
    requires StartAccount(m, x, g) && forall kind :: Times(y, kind, g) == Times(x, kind, g)
    ensures StartAccount(m, y, g)
  {
    hide Times;
  }

  lemma Reordered(h: seq<Effect>, first: seq<Effect>, es: seq<Effect>, all: seq<Effect>, kind: Kind, g: Generation)
    requires Quiet(first) && (all == first + es || (es != [] && es[0].Build? && all == [es[0]] + first + es[1..]))
    ensures Times(h + all, kind, g) == Times(h + es, kind, g)
  {
    hide Times;
    TimesConcat(h, all, kind, g);
    TimesConcat(h, es, kind, g);
    QuietTimes(first, kind, g);
    TimesConcat(first, es, kind, g);
    if all != first + es {
      var x := [es[0]];
      assert es == x + es[1..];
      TimesConcat(x, es[1..], kind, g);
      TimesConcat(x, first, kind, g);
      TimesConcat(x + first, es[1..], kind, g);
    }
  }

  lemma {:induction false} QuietHooks(docs: OrderedMap<DocId, Lifecycle>, keys: seq<DocId>)
    ensures Quiet(HookedEffects(docs, keys)) && TellsNothing(HookedEffects(docs, keys))
  {
    if keys != [] {
      QuietHooks(docs, keys[..|keys| - 1]);
    }
  }

  lemma {:induction false} QuietClosing(docs: OrderedMap<DocId, Lifecycle>, keys: seq<DocId>, reason: ClosedReason)
    ensures Quiet(CloseDocs(docs, keys, reason)) && TellsNothing(CloseDocs(docs, keys, reason))
  {
    if keys != [] {
      QuietClosing(docs, keys[..|keys| - 1], reason);
    }
  }

  lemma {:induction false} QuietDisposing(departing: OrderedMap<Generation, DocId>, gens: seq<Generation>, reason: ClosedReason)
    ensures Quiet(DisposeDeparting(departing, gens, reason)) && TellsNothing(DisposeDeparting(departing, gens, reason))
  {
    if gens != [] {
      QuietDisposing(departing, gens[..|gens| - 1], reason);
    }
  }

  lemma QuietClose(m: LifecycleModel, reason: ClosedReason)
    ensures Quiet(CloseEverything(m, reason).effects) && TellsNothing(CloseEverything(m, reason).effects)
  {
    QuietClosing(m.docs, m.docs.keys, reason);
    QuietDisposing(m.departing, m.departing.keys, reason);
  }

  lemma QuietSuspend(m: LifecycleModel, d: DocId, suspended: bool)
    ensures var step := SetSuspended(m, d, suspended); Quiet(step.effects) && Standing(m, step.model) && TellsNothing(step.effects)
  {
  }

  lemma QuietUnload(m: LifecycleModel, d: DocId)
    ensures var step := UnloadDoc(m, d); Quiet(step.effects) && Standing(m, step.model)
  {
  }

  lemma QuietDestroy(m: LifecycleModel, d: DocId)
    ensures var step := DestroyDoc(m, d); Quiet(step.effects) && Standing(m, step.model)
  {
    hide HydrationOf, Without;
  }

  lemma QuietLeft(m: LifecycleModel, d: DocId, gen: Generation)
    ensures var step := LeftDoc(m, d, gen); Quiet(step.effects) && Standing(m, step.model) && TellsNothing(step.effects)
  {
  }

  lemma ReplicateStarts(m: LifecycleModel, d: DocId, spec: BuildSpec)
    requires Good(m)
    ensures KeepsStarts(m, ReplicateDocument(m, d, spec))
  {
    hide KeepsStarts, Begin;
    var entry := m.Entry(d);
    BeginStarts(m, d, spec, false, Create, None, None);
    if entry.Some? && entry.value.Unloaded? {
      BeginStarts(m, d, spec, entry.value.suspended, Create, None, None);
    }
    var step := ReplicateDocument(m, d, spec);
    if IsIdle(m, step) {
      QuietStep(m, step);
    }
  }

  lemma UpdateStarts(compat: Compat, input: Input, m: LifecycleModel)
    requires Good(m)
    ensures KeepsStarts(m, Update(compat, input, m))
  {
    hide KeepsStarts, Update;
    if input.Get? || input.ReplicateDoc? || input.Reload? || input.Loaded? || input.Released? {
      StartingInput(compat, input, m);
    } else {
      QuietInput(compat, input, m);
      QuietStep(m, Update(compat, input, m));
    }
  }

  lemma StartingInput(compat: Compat, input: Input, m: LifecycleModel)
    requires Good(m) && (input.Get? || input.ReplicateDoc? || input.Reload? || input.Loaded? || input.Released?)
    ensures KeepsStarts(m, Update(compat, input, m))
  {
    hide KeepsStarts, Begin, FinishLoad, GetDoc, ReplicateDocument, ReleasedDoc, DestroyDoc, LeftDoc, UnloadDoc, SetSuspended, CloseEverything, HookedEffects;
    QuietStep(m, Step(m, []));
    match input
    case Get(d, bound, want) => GetStarts(compat, m, d, bound, want);
    case ReplicateDoc(d, factoryType, mode, hash) => ReplicateStarts(m, d, Replicate(factoryType, mode, hash));
    case Reload(d) =>
      if d in m.docs.items && m.docs.items[d].Unloaded? {
        BeginStarts(m, d, m.docs.items[d].spec.Stored(), m.docs.items[d].suspended, Open(UnloadedReplaced), None, None);
      }
    case Loaded(d, gen, outcome, writer) =>
      if d in m.docs.items && m.docs.items[d].Loading? && m.docs.items[d].held.gen == gen {
        FinishStarts(m, d, m.docs.items[d].held, m.docs.items[d].intent, outcome, writer);
      }
    case Released(d, gen, version) => ReleasedStarts(m, d, gen, version);
  }

  /** Every other input brings no instance any further. */
  lemma QuietInput(compat: Compat, input: Input, m: LifecycleModel)
    requires !(input.Get? || input.ReplicateDoc? || input.Reload? || input.Loaded? || input.Released?)
    ensures var step := Update(compat, input, m); Standing(m, step.model) && Quiet(step.effects)
  {
    hide Begin, FinishLoad, GetDoc, ReplicateDocument, ReleasedDoc, DestroyDoc, LeftDoc, UnloadDoc, SetSuspended, HookedEffects, CloseDocs, DisposeDeparting;
    match input
    case Destroy(d) => QuietDestroy(m, d);
    case Suspend(d) => QuietSuspend(m, d, true);
    case Resume(d) => QuietSuspend(m, d, false);
    case Unload(d) => QuietUnload(m, d);
    case Hooked => QuietHooks(m.docs, m.docs.keys);
    case CloseAll(reason) => QuietClose(m, reason);
    case Left(d, gen) => QuietLeft(m, d, gen);
    case Defer(d) =>
    case LoadFailed(d, gen, error) =>
  }

  // ---------------------------------------------------------------------
  // What the store was told
  // ---------------------------------------------------------------------

  /** Where the conversation with the store about one document stands: that it is
      told of a load or that it is to keep the document; of an advance; then, right
      after, that it is to release an instance; or that the document is gone. */
  datatype Told = Nothing | Tracked | Advanced | Asked(gen: Generation) | Dropped

  function Tell(t: Told, e: Effect, d: DocId): Told {
    if !e.Store? || e.input.docId != d then t
    else match e.input
      case StoreHydrated(_, _) => Tracked
      case StoreRegister(_) => Tracked
      case StoreKeep(_) => Tracked
      case StoreAdvanced(_) => Advanced
      case StoreRelease(_, gen) => if t.Advanced? then Asked(gen) else Nothing
      case StoreDestroy(_) => Dropped
  }

  function ToldBy(t: Told, es: seq<Effect>, d: DocId): Told {
    if es == [] then t else Tell(ToldBy(t, es[..|es| - 1], d), es[|es| - 1], d)
  }

  lemma {:induction false} ToldByConcat(t: Told, x: seq<Effect>, y: seq<Effect>, d: DocId)
    ensures ToldBy(t, x + y, d) == ToldBy(ToldBy(t, x, d), y, d)
  {
    if y == [] {
      assert x + y == x;
    } else {
      assert (x + y)[..|x + y| - 1] == x + y[..|y| - 1];
      ToldByConcat(t, x, y[..|y| - 1], d);
    }
  }

  /** Effects that tell the store nothing. */
  predicate TellsNothing(es: seq<Effect>) {
    forall e :: e in es ==> !e.Store?
  }

  lemma {:induction false} NothingTold(t: Told, es: seq<Effect>, d: DocId)
    requires forall e :: e in es && e.Store? ==> e.input.docId != d
    ensures ToldBy(t, es, d) == t
  {
    if es != [] {
      assert es[|es| - 1] in es;
      NothingTold(t, es[..|es| - 1], d);
    }
  }

  /** The store was last asked to release an instance exactly while that instance
      is unloading. */
  predicate ToldAccount(m: LifecycleModel, t: Told, d: DocId) {
    && (t.Asked? ==> t.gen < m.nextGen)
    && (d in m.docs.items && m.docs.items[d].IsHeld() ==> (t == Asked(m.docs.items[d].held.gen) <==> m.docs.items[d].Unloading?))
  }

  ghost predicate KeepsTold(m: LifecycleModel, step: Step, d: DocId) {
    forall t :: ToldAccount(m, t, d) ==> ToldAccount(step.model, ToldBy(t, step.effects, d), d)
  }

  /** Nothing told, and the entry holds a new instance, or the old one as it was. */
  lemma SilentStep(m: LifecycleModel, step: Step, d: DocId)
    requires forall e :: e in step.effects && e.Store? ==> e.input.docId != d
    requires m.nextGen <= step.model.nextGen
    requires d in step.model.docs.items && step.model.docs.items[d].IsHeld() ==>
      || (step.model.docs.items[d].held.gen >= m.nextGen && !step.model.docs.items[d].Unloading?)
      || (d in m.docs.items && m.docs.items[d].IsHeld() && m.docs.items[d].held.gen == step.model.docs.items[d].held.gen
          && m.docs.items[d].Unloading? == step.model.docs.items[d].Unloading?)
    ensures KeepsTold(m, step, d)
  {
    forall t | ToldAccount(m, t, d) ensures ToldAccount(step.model, ToldBy(t, step.effects, d), d) {
      NothingTold(t, step.effects, d);
    }
  }

  lemma BeginTells(m: LifecycleModel, d: DocId, spec: BuildSpec, suspended: bool, intent: Intent, writer: Option<PeerId>, departing: Option<Generation>)
    ensures KeepsTold(m, Begin(Recorded(m, d, departing), d, spec, suspended, intent, writer), d)
  {
    hide KeepsTold;
    var step := Begin(Recorded(m, d, departing), d, spec, suspended, intent, writer);
    BeginIsNew(m, d, spec, suspended, intent, writer, departing);
    BeginIsSilent(Recorded(m, d, departing), d, spec, suspended, intent, writer);
    SilentStep(m, step, d);
  }

  lemma BeginIsSilent(m: LifecycleModel, d: DocId, spec: BuildSpec, suspended: bool, intent: Intent, writer: Option<PeerId>)
    ensures var step := Begin(m, d, spec, suspended, intent, writer);
      TellsNothing(step.effects) && (d in step.model.docs.items ==> !step.model.docs.items[d].Unloading?)
  {
    hide BuildPrefix, ReadyEffects, UndoneEffects;
    var held, issued := Held(m.nextGen, spec, suspended), m.(nextGen := m.nextGen + 1);
    PrefixIsSilent(d, m.nextGen, spec);
    ReadyIsSilent(issued, d, held, writer);
    UndoneIsSilent(d, m.nextGen, intent);
  }

  lemma ReadyIsSilent(m: LifecycleModel, d: DocId, held: Held, writer: Option<PeerId>)
    ensures TellsNothing(ReadyEffects(m, d, held, FoundNone, writer))
  {
    hide Registration;
    RegistrationIsSilent(m, d, held);
  }

  lemma UndoneIsSilent(d: DocId, gen: Generation, intent: Intent)
    ensures TellsNothing(UndoneEffects(d, gen, intent))
  {
  }

  lemma PrefixIsSilent(d: DocId, gen: Generation, spec: BuildSpec)
    ensures TellsNothing(BuildPrefix(d, gen, spec))
  {
  }

  lemma RegistrationIsSilent(m: LifecycleModel, d: DocId, held: Held)
    ensures TellsNothing(Registration(m, d, held, false))
  {
  }

  lemma CreateOrPromoteTells(m: LifecycleModel, d: DocId, bound: BoundSchema, want: DoorIntent)
    ensures KeepsTold(m, CreateOrPromote(m, d, bound, want), d)
  {
    hide KeepsTold, Begin;
    var entry := m.Entry(d);
    SilentStep(m, Step(m, []), d);
    if entry.Some? && entry.value.IsHeld() {
      if entry.value.Ready? {
        BeginTells(m, d, Interpret(bound, Promote(entry.value.held.gen)), entry.value.held.suspended, Create, entry.value.writer, None);
      }
    } else {
      var stored := m.StoredOf(bound.metadata.syncMode);
      var intent := if want.ToCreate? then Create
                    else Open(if entry.Some? && entry.value.Deferred? then DeferredReplaced else NothingReplaced);
      BeginTells(m, d, Interpret(bound, if stored then Hydration else Empty), false, intent, None, None);
    }
  }

  lemma AnswerGetTells(compat: Compat, m: LifecycleModel, d: DocId, bound: BoundSchema, want: DoorIntent)
    ensures KeepsTold(m, AnswerGet(compat, m, d, bound, want), d)
  {
    hide AnswerGet, CreateOrPromote, KeepsTold, Begin;
    var entry, step := m.Entry(d), AnswerGet(compat, m, d, bound, want);
    AnswerGetIs(compat, m, d, bound, want);
    CreateOrPromoteTells(m, d, bound, want);
    if IsIdle(m, step) {
      SilentStep(m, step, d);
    } else if IsStored(entry) {
      BeginTells(m, d, Interpret(bound, Hydration), SuspendedOf(entry.value), if want.ToCreate? then Create else Open(UnloadedReplaced), None,
                 DepartingOf(entry.value));
    } else if entry.Some? && entry.value.Loading? && step == Step(m.Put(d, entry.value.(intent := Create)), []) {
      SilentStep(m, step, d);
    }
  }

  lemma CancelTells(m: LifecycleModel, d: DocId, entry: Lifecycle)
    requires m.Entry(d) == Some(entry) && entry.Unloading?
    ensures KeepsTold(m, Cancel(m, d, entry), d)
  {
    var step := Cancel(m, d, entry);
    var x, y := [Store(StoreKeep(d))], step.effects[1..];
    assert step.effects == x + y && x[..0] == [];
    forall t | ToldAccount(m, t, d) ensures ToldAccount(step.model, ToldBy(t, step.effects, d), d) {
      ToldByConcat(t, x, y, d);
      NothingTold(ToldBy(t, x, d), y, d);
    }
  }

  lemma GetTells(compat: Compat, m: LifecycleModel, d: DocId, bound: BoundSchema, want: DoorIntent)
    ensures KeepsTold(m, GetDoc(compat, m, d, bound, want), d)
  {
    hide AnswerGet, Sequence, Cancel, KeepsTold;
    var entry := m.Entry(d);
    if LifecycleDoors.Storing(entry) {
      var cancelled := Cancel(m, d, entry.value);
      var answer := AnswerGet(compat, cancelled.model, d, bound, want);
      CancelTells(m, d, entry.value);
      AnswerGetTells(compat, cancelled.model, d, bound, want);
      AnswerGetShaped(compat, cancelled.model, d, bound, want);
      SequenceTells(m, cancelled, answer, d);
    } else {
      AnswerGetTells(compat, m, d, bound, want);
    }
  }

  lemma SequenceTells(m: LifecycleModel, first: Step, second: Step, d: DocId)
    requires KeepsTold(m, first, d) && KeepsTold(first.model, second, d) && Shaped(first.model, second)
    ensures KeepsTold(m, Sequence(m, first, second), d)
  {
    var es, step := second.effects, Sequence(m, first, second);
    SequenceIs(m, first, second);
    if |es| == 1 && es[0].Refuse? {
      SilentStep(m, step, d);
    } else {
      forall t | ToldAccount(m, t, d) ensures ToldAccount(step.model, ToldBy(t, step.effects, d), d) {
        ToldByConcat(t, first.effects, es, d);
        if es != [] && es[0].Build? {
          var x := [es[0]];
          assert es == x + es[1..];
          ToldByConcat(t, x, first.effects, d);
          ToldByConcat(t, x + first.effects, es[1..], d);
          ToldByConcat(ToldBy(t, first.effects, d), x, es[1..], d);
          NothingTold(t, x, d);
          NothingTold(ToldBy(t, first.effects, d), x, d);
        }
      }
    }
  }

  lemma FinishTells(m: LifecycleModel, d: DocId, held: Held, intent: Intent, outcome: LoadOutcome, writer: Option<PeerId>)
    requires m.Entry(d) == Some(Loading(held, intent))
    ensures KeepsTold(m, FinishLoad(m, d, held, intent, outcome, writer, []), d)
  {
    hide ReadyEffects, ToldBy, KeepsTold;
    var step := FinishLoad(m, d, held, intent, outcome, writer, []);
    if intent.Open? && !outcome.FoundStored? {
      SilentStep(m, step, d);
    } else {
      var es := ReadyEffects(m, d, held, outcome, writer);
      assert step.effects == es;
      ReadyKeepsTold(m, d, held, intent, outcome, writer);
    }
  }

  lemma ReadyKeepsTold(m: LifecycleModel, d: DocId, held: Held, intent: Intent, outcome: LoadOutcome, writer: Option<PeerId>)
    requires m.Entry(d) == Some(Loading(held, intent))
    ensures KeepsTold(m, Step(m.Put(d, Ready(held, m.hooked, writer)), ReadyEffects(m, d, held, outcome, writer)), d)
  {
    hide ReadyEffects, ToldBy;
    forall t | ToldAccount(m, t, d)
      ensures ToldAccount(m.Put(d, Ready(held, m.hooked, writer)), ToldBy(t, ReadyEffects(m, d, held, outcome, writer), d), d) {
      ReadyTells(m, d, held, outcome, writer, t);
    }
  }

  /** A load that found anything makes the store track the document. */
  lemma ReadyTells(m: LifecycleModel, d: DocId, held: Held, outcome: LoadOutcome, writer: Option<PeerId>, t: Told)
    ensures ToldBy(t, ReadyEffects(m, d, held, outcome, writer), d) == if outcome.FoundNone? then t else Tracked
  {
    hide Registration;
    var a := if held.spec.Interpret? then [Adopt(d, held.gen, writer)] else [];
    var s, r := StoreLearns(d, outcome), Registration(m, d, held, false);
    var w := if held.spec.Interpret? then [Wire(d, held.gen)] else [];
    RegistrationIsSilent(m, d, held);
    ToldByConcat(t, a, s, d);
    ToldByConcat(t, a + s, r, d);
    ToldByConcat(t, a + s + r, w, d);
    NothingTold(t, a, d);
    NothingTold(ToldBy(t, a + s, d), r, d);
    NothingTold(ToldBy(t, a + s + r, d), w, d);
    assert s != [] ==> s[..0] == [];
  }

  lemma UnloadTells(m: LifecycleModel, d: DocId)
    requires Good(m)
    ensures KeepsTold(m, UnloadDoc(m, d), d)
  {
    hide UnloadDoc, KeepsTold, ToldBy;
    var step := UnloadDoc(m, d);
    if IsIdle(m, step) {
      SilentStep(m, step, d);
    } else {
      var gen := UnloadEnds(m, d);
      assert HeldAt(m, d, gen);
      AsksKeepsTold(m, step, d, gen);
    }
  }

  /** An unload that starts ends in the advance and the request. */
  lemma UnloadEnds(m: LifecycleModel, d: DocId) returns (gen: Generation)
    requires !IsIdle(m, UnloadDoc(m, d))
    ensures var step := UnloadDoc(m, d);
      && HeldAt(m, d, gen) && step.model.nextGen == m.nextGen
      && d in step.model.docs.items && step.model.docs.items[d].Unloading? && step.model.docs.items[d].held.gen == gen
      && |step.effects| >= 2 && TellsNothing(step.effects[..|step.effects| - 2])
      && step.effects[|step.effects| - 2] == Store(StoreAdvanced(d)) && step.effects[|step.effects| - 1] == Store(StoreRelease(d, gen))
  {
    gen := m.docs.items[d].held.gen;
  }

  lemma AsksKeepsTold(m: LifecycleModel, step: Step, d: DocId, gen: Generation)
    requires gen < m.nextGen == step.model.nextGen
    requires d in step.model.docs.items && step.model.docs.items[d].Unloading? && step.model.docs.items[d].held.gen == gen
    requires |step.effects| >= 2
    requires step.effects[|step.effects| - 2] == Store(StoreAdvanced(d)) && step.effects[|step.effects| - 1] == Store(StoreRelease(d, gen))
    ensures KeepsTold(m, step, d)
  {
    var es, n := step.effects, |step.effects|;
    assert es[..n - 1][..n - 2] == es[..n - 2] && es[..n - 1][n - 2] == es[n - 2];
    forall t | ToldAccount(m, t, d) ensures ToldAccount(step.model, ToldBy(t, es, d), d) {
      assert ToldBy(t, es, d) == Tell(Tell(ToldBy(t, es[..n - 2], d), es[n - 2], d), es[n - 1], d);
    }
  }

  lemma ReleasedTells(m: LifecycleModel, d: DocId, gen: Generation, version: string)
    ensures KeepsTold(m, ReleasedDoc(m, d, gen, version), d)
  {
    var step := ReleasedDoc(m, d, gen, version);
    if d in m.docs.items && m.docs.items[d].Ready? {
      assert step.effects == [Store(StoreHydrated(d, version))] && step.effects[..0] == [];
    } else {
      SilentStep(m, step, d);
    }
  }

  lemma DestroyTells(m: LifecycleModel, d: DocId)
    requires Good(m)
    ensures KeepsTold(m, DestroyDoc(m, d), d)
  {
    var step := DestroyDoc(m, d);
    assert d !in step.model.docs.items;
    forall t | ToldAccount(m, t, d) ensures ToldAccount(step.model, ToldBy(t, step.effects, d), d) {
      NeverAsked(t, step.effects, d);
    }
  }

  /** Without a request to release nothing new is asked. */
  lemma {:induction false} NeverAsked(t: Told, es: seq<Effect>, d: DocId)
    requires forall e :: e in es && e.Store? ==> !e.input.StoreRelease?
    ensures ToldBy(t, es, d).Asked? ==> ToldBy(t, es, d) == t
  {
    if es != [] {
      assert es[|es| - 1] in es;
      NeverAsked(t, es[..|es| - 1], d);
    }
  }

  lemma UpdateTells(compat: Compat, input: Input, m: LifecycleModel, d: DocId)
    requires Good(m)
    ensures KeepsTold(m, Update(compat, input, m), d)
  {
    hide KeepsTold, Begin, FinishLoad, GetDoc, ReplicateDocument, ReleasedDoc, DestroyDoc, LeftDoc, UnloadDoc, SetSuspended, CloseEverything, HookedEffects;
    var step := Update(compat, input, m);
    if Named(input).Some? && Named(input).value != d {
      OthersTell(compat, input, m, d);
    } else {
      match input
      case Get(_, bound, want) => GetTells(compat, m, d, bound, want);
      case ReplicateDoc(_, factoryType, mode, hash) => ReplicateTells(m, d, Replicate(factoryType, mode, hash));
      case Defer(_) => SilentStep(m, step, d);
      case Destroy(_) => DestroyTells(m, d);
      case Suspend(_) => SuspendTells(m, d, true);
      case Resume(_) => SuspendTells(m, d, false);
      case Unload(_) => UnloadTells(m, d);
      case Reload(_) =>
        if d in m.docs.items && m.docs.items[d].Unloaded? {
          BeginTells(m, d, m.docs.items[d].spec.Stored(), m.docs.items[d].suspended, Open(UnloadedReplaced), None, None);
        } else {
          SilentStep(m, step, d);
        }
      case Hooked =>
        QuietHooks(m.docs, m.docs.keys);
        SilentStep(m, step, d);
      case CloseAll(reason) => CloseTells(m, reason, d);
      case Loaded(_, gen, outcome, writer) =>
        if d in m.docs.items && m.docs.items[d].Loading? && m.docs.items[d].held.gen == gen {
          FinishTells(m, d, m.docs.items[d].held, m.docs.items[d].intent, outcome, writer);
        } else {
          SilentStep(m, step, d);
        }
      case LoadFailed(_, gen, error) => SilentStep(m, step, d);
      case Released(_, gen, version) => ReleasedTells(m, d, gen, version);
      case Left(_, gen) => LeftTells(m, d, gen);
    }
  }

  lemma OthersTell(compat: Compat, input: Input, m: LifecycleModel, d: DocId)
    requires Named(input).Some? && Named(input).value != d
    ensures KeepsTold(m, Update(compat, input, m), d)
  {
    hide Update, KeepsTold;
    var step := Update(compat, input, m);
    UpdateTouches(compat, input, m);
    assert step.model.Entry(d) == m.Entry(d);
    forall e | e in step.effects && e.Store? ensures e.input.docId != d {
      assert EffectDoc(e) == Named(input).value;
    }
    SilentStep(m, step, d);
  }

  lemma ReplicateTells(m: LifecycleModel, d: DocId, spec: BuildSpec)
    ensures KeepsTold(m, ReplicateDocument(m, d, spec), d)
  {
    hide KeepsTold, Begin;
    var entry, step := m.Entry(d), ReplicateDocument(m, d, spec);
    BeginTells(m, d, spec, false, Create, None, None);
    if entry.Some? && entry.value.Unloaded? {
      BeginTells(m, d, spec, entry.value.suspended, Create, None, None);
    }
    if IsIdle(m, step) {
      SilentStep(m, step, d);
    }
  }

  lemma SuspendTells(m: LifecycleModel, d: DocId, suspended: bool)
    ensures KeepsTold(m, SetSuspended(m, d, suspended), d)
  {
    hide KeepsTold;
    QuietSuspend(m, d, suspended);
    SilentStep(m, SetSuspended(m, d, suspended), d);
  }

  lemma LeftTells(m: LifecycleModel, d: DocId, gen: Generation)
    ensures KeepsTold(m, LeftDoc(m, d, gen), d)
  {
    hide KeepsTold;
    QuietLeft(m, d, gen);
    SilentStep(m, LeftDoc(m, d, gen), d);
  }

  lemma CloseTells(m: LifecycleModel, reason: ClosedReason, d: DocId)
    ensures KeepsTold(m, CloseEverything(m, reason), d)
  {
    hide KeepsTold;
    QuietClose(m, reason);
    SilentStep(m, CloseEverything(m, reason), d);
  }

  // ---------------------------------------------------------------------
  // Over every run
  // ---------------------------------------------------------------------

  lemma {:induction false} RunKeepsStarts(compat: Compat, hasStore: bool, inputs: seq<Input>, g: Generation, d: DocId)
    ensures var run := Run(compat, InitialLifecycle(hasStore), inputs);
      StartAccount(run.model, run.effects, g) && ToldAccount(run.model, ToldBy(Nothing, run.effects, d), d)
  {
    hide Update, Times, ToldBy;
    var m0 := InitialLifecycle(hasStore);
    if inputs == [] {
      NothingYet(m0, g, d);
    } else {
      var init, input := inputs[..|inputs| - 1], inputs[|inputs| - 1];
      RunKeepsStarts(compat, hasStore, init, g, d);
      RunKeepsBooks(compat, hasStore, init);
      var before := Run(compat, m0, init);
      UpdateStarts(compat, input, before.model);
      UpdateTells(compat, input, before.model, d);
      ToldByConcat(Nothing, before.effects, Update(compat, input, before.model).effects, d);
    }
  }

  lemma NothingYet(m: LifecycleModel, g: Generation, d: DocId)
    requires m.docs.items == map[]
    ensures StartAccount(m, [], g) && ToldAccount(m, ToldBy(Nothing, [], d), d)
  {
  }

  predicate Is(e: Effect, kind: Kind, g: Generation) {
    KindOf(e) == Some((kind, g))
  }

  /** One effect of the kind, and no other. */
  ghost predicate Once(es: seq<Effect>, kind: Kind, g: Generation) {
    exists i :: 0 <= i < |es| && Is(es[i], kind, g) && forall j :: 0 <= j < |es| && Is(es[j], kind, g) ==> j == i
  }

  ghost predicate Never(es: seq<Effect>, kind: Kind, g: Generation) {
    forall i :: 0 <= i < |es| ==> !Is(es[i], kind, g)
  }

  lemma NoneMore(es: seq<Effect>, e: Effect, kind: Kind, g: Generation)
    ensures Never(es + [e], kind, g) <==> Never(es, kind, g) && !Is(e, kind, g)
  {
    hide Is;
    var after := es + [e];
    assert after[|es|] == e;
    forall i | 0 <= i < |es| ensures Is(after[i], kind, g) <==> Is(es[i], kind, g) {
    }
  }

  lemma StillOnce(es: seq<Effect>, e: Effect, kind: Kind, g: Generation)
    requires Once(es, kind, g) && !Is(e, kind, g)
    ensures Once(es + [e], kind, g)
  {
    hide Is;
    var after := es + [e];
    var i :| 0 <= i < |es| && Is(es[i], kind, g) && forall j :: 0 <= j < |es| && Is(es[j], kind, g) ==> j == i;
    assert Is(after[i], kind, g);
    forall j | 0 <= j < |after| && Is(after[j], kind, g) ensures j == i {
      assert j < |es| && after[j] == es[j];
    }
  }

  lemma NowOnce(es: seq<Effect>, e: Effect, kind: Kind, g: Generation)
    requires Never(es, kind, g) && Is(e, kind, g)
    ensures Once(es + [e], kind, g)
  {
    hide Is;
    var after := es + [e];
    assert Is(after[|es|], kind, g);
    forall j | 0 <= j < |es| ensures !Is(after[j], kind, g) {
      assert after[j] == es[j];
    }
  }

  lemma {:induction false} CountedOnce(es: seq<Effect>, kind: Kind, g: Generation)
    ensures Times(es, kind, g) == 0 <==> Never(es, kind, g)
    ensures Times(es, kind, g) == 1 ==> Once(es, kind, g)
  {
    hide Never, Once;
    if es == [] {
      NoneYet(kind, g);
    } else {
      var init, last := es[..|es| - 1], es[|es| - 1];
      CountedOnce(init, kind, g);
      NoneMore(init, last, kind, g);
      assert es == init + [last];
      if Times(es, kind, g) == 1 {
        if Is(last, kind, g) { NowOnce(init, last, kind, g); } else { StillOnce(init, last, kind, g); }
      }
    }
  }

  lemma NoneYet(kind: Kind, g: Generation)
    ensures Never([], kind, g)
  {
  }

  /** What a run has done for a held instance. */
  ghost predicate StartedAs(entry: Lifecycle, es: seq<Effect>, g: Generation)
    requires entry.IsHeld()
  {
    && (if IsInterpreted(entry) then Once(es, OfInterpreted, g) else Never(es, OfInterpreted, g))
    && (entry.Loading? || entry.Failed? ==> Once(es, OfLoad, g))
    && (if IsInterpreted(entry) && (entry.Ready? || entry.Unloading?) then Once(es, OfAdopt, g) && Once(es, OfWire, g)
        else Never(es, OfAdopt, g) && Never(es, OfWire, g))
    && (if entry.Unloading? && entry.stage.Leaving? then Once(es, OfLeave, g) else Never(es, OfLeave, g))
  }

  /** Over every run: an instance that is loading or has failed to was asked for
      once; an interpreted one that is ready or unloading has claimed its identity
      and been wired once, and no other has; one that is leaving was sent away once;
      and of none of these has any instance had two. */
  lemma StartsOverRuns(compat: Compat, hasStore: bool, inputs: seq<Input>, d: DocId, g: Generation)
    ensures var run := Run(compat, InitialLifecycle(hasStore), inputs);
      && (HeldAt(run.model, d, g) ==> StartedAs(run.model.docs.items[d], run.effects, g))
      && (forall kind :: Never(run.effects, kind, g) || Once(run.effects, kind, g))
  {
    hide Times, Once, Never;
    var run := Run(compat, InitialLifecycle(hasStore), inputs);
    RunKeepsStarts(compat, hasStore, inputs, g, d);
    forall kind
      ensures Times(run.effects, kind, g) == 0 <==> Never(run.effects, kind, g)
      ensures Times(run.effects, kind, g) == 1 ==> Once(run.effects, kind, g)
    {
      CountedOnce(run.effects, kind, g);
    }
    if HeldAt(run.model, d, g) {
      assert AsExpected(run.model.docs.items[d], run.effects, g);
      assert forall kind :: kind != OfLoad ==> Times(run.effects, kind, g) == Expected(run.model.docs.items[d], kind);
    }
  }

  /** The last words to the store about `d` are of an advance and, next, to release
      the instance. */
  ghost predicate LastAsked(es: seq<Effect>, d: DocId, g: Generation) {
    exists i, j :: AskedAt(es, i, j, d, g)
  }

  ghost predicate AskedAt(es: seq<Effect>, i: int, j: int, d: DocId, g: Generation) {
    && 0 <= i < j < |es| && es[i] == Store(StoreAdvanced(d)) && es[j] == Store(StoreRelease(d, g))
    && forall k :: i < k < |es| && k != j ==> !AboutStored(es[k], d)
  }

  ghost predicate LastAdvanced(es: seq<Effect>, d: DocId) {
    exists i :: 0 <= i < |es| && es[i] == Store(StoreAdvanced(d)) && forall k :: i < k < |es| ==> !AboutStored(es[k], d)
  }

  predicate AboutStored(e: Effect, d: DocId) {
    e.Store? && e.input.docId == d
  }

  lemma AdvancedNext(es: seq<Effect>, e: Effect, d: DocId)
    ensures LastAdvanced(es + [e], d) <==> e == Store(StoreAdvanced(d)) || (LastAdvanced(es, d) && !AboutStored(e, d))
  {
    var after := es + [e];
    assert after[|es|] == e && forall i :: 0 <= i < |es| ==> after[i] == es[i];
    if LastAdvanced(es, d) && !AboutStored(e, d) {
      var i :| 0 <= i < |es| && es[i] == Store(StoreAdvanced(d)) && forall k :: i < k < |es| ==> !AboutStored(es[k], d);
      assert after[i] == Store(StoreAdvanced(d));
    }
    if LastAdvanced(after, d) && e != Store(StoreAdvanced(d)) {
      var i :| 0 <= i < |after| && after[i] == Store(StoreAdvanced(d)) && forall k :: i < k < |after| ==> !AboutStored(after[k], d);
      assert es[i] == Store(StoreAdvanced(d)) && !AboutStored(after[|es|], d);
    }
  }

  lemma AskedNext(es: seq<Effect>, e: Effect, d: DocId, g: Generation)
    ensures LastAsked(es + [e], d, g) <==> (e == Store(StoreRelease(d, g)) && LastAdvanced(es, d)) || (LastAsked(es, d, g) && !AboutStored(e, d))
  {
    var after := es + [e];
    assert after[|es|] == e && forall i :: 0 <= i < |es| ==> after[i] == es[i];
    if e == Store(StoreRelease(d, g)) && LastAdvanced(es, d) {
      var i :| 0 <= i < |es| && es[i] == Store(StoreAdvanced(d)) && forall k :: i < k < |es| ==> !AboutStored(es[k], d);
      assert AskedAt(after, i, |es|, d, g);
    }
    if LastAsked(es, d, g) && !AboutStored(e, d) {
      var i, j :| AskedAt(es, i, j, d, g);
      assert AskedAt(after, i, j, d, g);
    }
    if LastAsked(after, d, g) {
      var i, j :| AskedAt(after, i, j, d, g);
      AskedBefore(es, e, i, j, d, g);
    }
  }

  lemma AskedBefore(es: seq<Effect>, e: Effect, i: nat, j: nat, d: DocId, g: Generation)
    requires AskedAt(es + [e], i, j, d, g)
    ensures (e == Store(StoreRelease(d, g)) && LastAdvanced(es, d)) || (LastAsked(es, d, g) && !AboutStored(e, d))
  {
    var after := es + [e];
    assert after[|es|] == e && forall k :: 0 <= k < |es| ==> after[k] == es[k];
    if j == |es| {
      assert es[i] == Store(StoreAdvanced(d));
    } else {
      assert AskedAt(es, i, j, d, g);
      assert !AboutStored(after[|es|], d);
    }
  }

  lemma {:induction false} ToldIs(es: seq<Effect>, d: DocId, g: Generation)
    ensures ToldBy(Nothing, es, d) == Advanced <==> LastAdvanced(es, d)
    ensures ToldBy(Nothing, es, d) == Asked(g) <==> LastAsked(es, d, g)
  {
    hide LastAdvanced, LastAsked;
    if es == [] {
      NothingAsked(d, g);
    } else {
      var init, last := es[..|es| - 1], es[|es| - 1];
      ToldIs(init, d, g);
      AdvancedNext(init, last, d);
      AskedNext(init, last, d, g);
      assert es == init + [last];
    }
  }

  lemma NothingAsked(d: DocId, g: Generation)
    ensures !LastAdvanced([], d) && !LastAsked([], d, g)
  {
  }

  /** Over every run: of an instance that is unloading the store has been told an
      advance and, next, to release it, and nothing since; and of no other held
      instance is that the last it was told. */
  lemma ReleasesOverRuns(compat: Compat, hasStore: bool, inputs: seq<Input>, d: DocId, g: Generation)
    requires HeldAt(Run(compat, InitialLifecycle(hasStore), inputs).model, d, g)
    ensures var run := Run(compat, InitialLifecycle(hasStore), inputs);
      run.model.docs.items[d].Unloading? <==> LastAsked(run.effects, d, g)
  {
    hide LastAsked;
    RunKeepsStarts(compat, hasStore, inputs, g, d);
    ToldIs(Run(compat, InitialLifecycle(hasStore), inputs).effects, d, g);
  }
}
