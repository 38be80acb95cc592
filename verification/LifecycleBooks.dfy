/** What every run of the lifecycle keeps: the account of each generation and of
    each document's leaving. */
module LifecycleBooks {
  import opened Prelude
  import opened OrderedMaps
  import opened Lifecycles

  // ---------------------------------------------------------------------
  // Reading a history
  // ---------------------------------------------------------------------

  /** What a history says of one generation. `early`: disposed before closed. */
  datatype GenBook = GenBook(built: nat, promoted: nat, closed: nat, disposed: nat, registered: nat, early: bool)

  const UNISSUED := GenBook(0, 0, 0, 0, 0, false)

  function GenStep(b: GenBook, e: Effect, g: Generation): GenBook {
    match e
    case Build(_, gen, spec) =>
      b.(built := b.built + (if gen == g then 1 else 0),
         promoted := b.promoted + (if spec.Interpret? && spec.from == Promote(g) then 1 else 0))
    case Close(_, gen, _, _) => if gen == g then b.(closed := b.closed + 1) else b
    case Dispose(_, gen, _) => if gen == g then b.(disposed := b.disposed + 1, early := b.early || b.closed == 0) else b
    case Register(_, gen, _) => if gen == g then b.(registered := b.registered + 1) else b
    case _ => b
  }

  function GenFold(b: GenBook, es: seq<Effect>, g: Generation): GenBook {
    if es == [] then b else GenStep(GenFold(b, es[..|es| - 1], g), es[|es| - 1], g)
  }

  lemma {:induction false} GenFoldConcat(b: GenBook, x: seq<Effect>, y: seq<Effect>, g: Generation)
    ensures GenFold(b, x + y, g) == GenFold(GenFold(b, x, g), y, g)
  {
    if y == [] {
      assert x + y == x;
    } else {
      assert (x + y)[..|x + y| - 1] == x + y[..|y| - 1];
      GenFoldConcat(b, x, y[..|y| - 1], g);
    }
  }

  /** What a history says of one document's leaving. `on`: its instance has started
      leaving, and has neither stopped nor closed; `clash`: two starts or two stops
      in a row. */
  datatype DocBook = DocBook(on: bool, clash: bool)

  function DocStep(b: DocBook, e: Effect, d: DocId): DocBook {
    match e
    case LeavingGraph(docId, on) => if docId == d then DocBook(on, b.clash || b.on == on) else b
    case Close(docId, _, _, _) => if docId == d then b.(on := false) else b
    case _ => b
  }

  function DocFold(b: DocBook, es: seq<Effect>, d: DocId): DocBook {
    if es == [] then b else DocStep(DocFold(b, es[..|es| - 1], d), es[|es| - 1], d)
  }

  lemma {:induction false} DocFoldConcat(b: DocBook, x: seq<Effect>, y: seq<Effect>, d: DocId)
    ensures DocFold(b, x + y, d) == DocFold(DocFold(b, x, d), y, d)
  {
    if y == [] {
      assert x + y == x;
    } else {
      assert (x + y)[..|x + y| - 1] == x + y[..|y| - 1];
      DocFoldConcat(b, x, y[..|y| - 1], d);
    }
  }

  lemma FoldOne(b: GenBook, t: DocBook, e: Effect, g: Generation, d: DocId)
    ensures GenFold(b, [e], g) == GenStep(b, e, g) && DocFold(t, [e], d) == DocStep(t, e, d)
  {
    assert [e][..0] == [];
  }

  lemma FoldLast(b: GenBook, t: DocBook, es: seq<Effect>, last: Effect, g: Generation, d: DocId)
    ensures GenFold(b, es + [last], g) == GenStep(GenFold(b, es, g), last, g) && DocFold(t, es + [last], d) == DocStep(DocFold(t, es, d), last, d)
  {
    assert (es + [last])[..|es|] == es;
  }

  lemma FoldTwo(b: GenBook, t: DocBook, x: Effect, y: Effect, g: Generation, d: DocId)
    ensures GenFold(b, [x, y], g) == GenStep(GenStep(b, x, g), y, g) && DocFold(t, [x, y], d) == DocStep(DocStep(t, x, d), y, d)
  {
    FoldOne(b, t, x, g, d);
    assert [x, y][..1] == [x];
  }

  /** Effects that no book records. */
  predicate Plain(e: Effect) {
    !(e.Build? || e.Close? || e.Dispose? || e.Register? || e.LeavingGraph?)
  }

  lemma {:induction false} PlainFolds(b: GenBook, t: DocBook, es: seq<Effect>, g: Generation, d: DocId)
    requires forall i :: 0 <= i < |es| ==> Plain(es[i])
    ensures GenFold(b, es, g) == b && DocFold(t, es, d) == t
  {
    if es != [] {
      PlainFolds(b, t, es[..|es| - 1], g, d);
    }
  }

  // ---------------------------------------------------------------------
  // What a model must agree with
  // ---------------------------------------------------------------------

  predicate HeldAt(m: LifecycleModel, d: DocId, g: Generation) {
    d in m.docs.items && m.docs.items[d].IsHeld() && m.docs.items[d].held.gen == g
  }

  ghost predicate HeldSomewhere(m: LifecycleModel, g: Generation) {
    exists d :: HeldAt(m, d, g)
  }

  predicate IsLeaving(entry: Lifecycle) {
    entry.Unloading? && entry.stage.Leaving?
  }

  predicate IsRegistered(entry: Lifecycle) {
    (entry.Ready? || entry.Unloading?) && entry.registered
  }

  /** The shape of a model that a run can reach. */
  ghost predicate Good(m: LifecycleModel) {
    && m.docs.Valid() && m.departing.Valid()
    && (forall d, c, g: Generation :: HeldAt(m, d, g) && HeldAt(m, c, g) ==> d == c)
    && (forall d, g: Generation :: HeldAt(m, d, g) ==> g < m.nextGen && g !in m.departing.items)
    && (forall g :: g in m.departing.items ==> g < m.nextGen)
    && (forall d :: d in m.docs.items ==> GoodEntry(m.hooked, m.docs.items[d]))
  }

  /** Once hooked a ready entry is registered, and a leaving one always is. */
  predicate GoodEntry(hooked: bool, entry: Lifecycle) {
    && (hooked && entry.Ready? ==> entry.registered)
    && (IsLeaving(entry) ==> entry.registered)
  }

  /** The book of a generation: before it is issued nothing; then it was built
      once, and it is held, departing, promoted away or disposed, and just one of
      these. It is closed when it leaves, and at the latest before it is disposed. */
  ghost predicate Account(m: LifecycleModel, b: GenBook, g: Generation) {
    if g >= m.nextGen then b == UNISSUED
    else
      && b.built == 1 && !b.early && b.registered <= 1
      && (forall d :: HeldAt(m, d, g) ==> HeldBook(m.docs.items[d], b))
      && (g in m.departing.items ==> b.closed == 1 && b.disposed == 0 && b.promoted == 0)
      && (!HeldSomewhere(m, g) && g !in m.departing.items ==> b.promoted + b.disposed == 1 && b.closed == b.disposed)
  }

  predicate HeldBook(entry: Lifecycle, b: GenBook) {
    && b.promoted == 0 && b.disposed == 0
    && b.closed == (if IsLeaving(entry) then 1 else 0)
    && b.registered == (if IsRegistered(entry) then 1 else 0)
  }

  /** The book of a document: it is on exactly while its instance waits for the
      store to release it, registered and in the sync graph. */
  predicate DocAccount(m: LifecycleModel, b: DocBook, d: DocId) {
    && !b.clash
    && b.on == (d in m.docs.items && StartedLeaving(m.docs.items[d]))
  }

  predicate StartedLeaving(entry: Lifecycle) {
    entry.Unloading? && entry.stage.Storing? && entry.registered && !entry.held.suspended
  }

  // ---------------------------------------------------------------------
  // One entry changes
  // ---------------------------------------------------------------------

  lemma PutGood(m: LifecycleModel, d: DocId, entry: Lifecycle)
    requires Good(m) && GoodEntry(m.hooked, entry)
    requires entry.IsHeld() ==> HeldAt(m, d, entry.held.gen)
    ensures Good(m.Put(d, entry))
  {
    PutValid(m.docs, d, entry);
    var m' := m.Put(d, entry);
    forall c, g: Generation | HeldAt(m', c, g) ensures HeldAt(m, c, g) {
    }
  }

  lemma RemoveGood(m: LifecycleModel, d: DocId)
    requires Good(m)
    ensures Good(m.Remove(d))
  {
    if d in m.docs.items {
      DeleteValid(m.docs, d);
    }
    forall c, g: Generation | HeldAt(m.Remove(d), c, g) ensures HeldAt(m, c, g) {
    }
  }

  /** The instance keeps its generation: only its own book is concerned. */
  lemma SameInstance(m: LifecycleModel, d: DocId, entry: Lifecycle, b: GenBook, b': GenBook, g: Generation)
    requires Good(m) && Account(m, b, g)
    requires d in m.docs.items && m.docs.items[d].IsHeld() && entry.IsHeld() && entry.held.gen == m.docs.items[d].held.gen
    requires if g == entry.held.gen then HeldBook(entry, b') && b'.built == 1 && !b'.early else b' == b
    ensures Account(m.Put(d, entry), b', g)
  {
    var m' := m.Put(d, entry);
    assert HeldAt(m, d, entry.held.gen) && HeldAt(m', d, entry.held.gen);
    forall c ensures HeldAt(m', c, g) <==> HeldAt(m, c, g) {
    }
    if HeldSomewhere(m, g) {
      var c :| HeldAt(m, c, g);
      assert HeldAt(m', c, g);
    }
  }

  /** The instance of `d` is gone: its generation is disposed. */
  lemma Ended(m: LifecycleModel, m': LifecycleModel, d: DocId, b: GenBook, b': GenBook, g: Generation)
    requires Good(m) && Account(m, b, g)
    requires d in m.docs.items && m.docs.items[d].IsHeld()
    requires m'.nextGen == m.nextGen && m'.departing == m.departing && (forall c, k: Generation :: HeldAt(m', c, k) <==> c != d && HeldAt(m, c, k))
    requires forall c :: c != d && c in m.docs.items ==> c in m'.docs.items && m'.docs.items[c] == m.docs.items[c]
    requires if g == m.docs.items[d].held.gen then b'.promoted == 0 && b'.disposed == 1 && b'.closed == 1 && b'.built == 1 && !b'.early && b'.registered <= 1 else b' == b
    ensures Account(m', b', g)
  {
    var gone := m.docs.items[d].held.gen;
    assert HeldAt(m, d, gone);
    if HeldSomewhere(m, g) && g != gone {
      var c :| HeldAt(m, c, g);
      assert HeldAt(m', c, g);
    }
  }

  /** Nothing is held under `d`, before or after. */
  lemma NotAnInstance(m: LifecycleModel, m': LifecycleModel, d: DocId, b: GenBook, g: Generation)
    requires Good(m) && Account(m, b, g)
    requires !(d in m.docs.items && m.docs.items[d].IsHeld()) && !(d in m'.docs.items && m'.docs.items[d].IsHeld())
    requires m'.nextGen == m.nextGen && m'.departing == m.departing
    requires forall c :: c != d ==> (c in m.docs.items <==> c in m'.docs.items) && (c in m.docs.items ==> m'.docs.items[c] == m.docs.items[c])
    ensures Account(m', b, g)
  {
    forall c ensures HeldAt(m', c, g) <==> HeldAt(m, c, g) {
    }
    if HeldSomewhere(m, g) {
      var c :| HeldAt(m, c, g);
      assert HeldAt(m', c, g);
    }
  }

  // ---------------------------------------------------------------------
  // Each transition keeps the books
  // ---------------------------------------------------------------------

  ghost predicate Keeps(m: LifecycleModel, step: Step) {
    && Good(step.model)
    && (forall b, g: Generation :: Account(m, b, g) ==> Account(step.model, GenFold(b, step.effects, g), g))
    && (forall t, d :: DocAccount(m, t, d) ==> DocAccount(step.model, DocFold(t, step.effects, d), d))
  }

  /** A step that changes no model and emits only plain effects. */
  lemma IdleKeeps(m: LifecycleModel, es: seq<Effect>)
    requires Good(m) && forall i :: 0 <= i < |es| ==> Plain(es[i])
    ensures Keeps(m, Step(m, es))
  {
    forall b, g: Generation ensures GenFold(b, es, g) == b {
      PlainFolds(b, DocBook(false, false), es, g, "");
    }
    forall t, d ensures DocFold(t, es, d) == t {
      PlainFolds(UNISSUED, t, es, 0, d);
    }
  }

  /** A change of one entry that keeps its instance, and plain effects. */
  lemma SameInstanceKeeps(m: LifecycleModel, d: DocId, entry: Lifecycle, es: seq<Effect>)
    requires Good(m) && d in m.docs.items && m.docs.items[d].IsHeld() && entry.IsHeld()
    requires entry.held.gen == m.docs.items[d].held.gen && GoodEntry(m.hooked, entry)
    requires IsLeaving(entry) == IsLeaving(m.docs.items[d]) && IsRegistered(entry) == IsRegistered(m.docs.items[d])
    requires StartedLeaving(entry) == StartedLeaving(m.docs.items[d])
    requires forall i :: 0 <= i < |es| ==> Plain(es[i])
    ensures Keeps(m, Step(m.Put(d, entry), es))
  {
    assert HeldAt(m, d, entry.held.gen);
    PutGood(m, d, entry);
    forall b, g: Generation | Account(m, b, g) ensures Account(m.Put(d, entry), GenFold(b, es, g), g) {
      PlainFolds(b, DocBook(false, false), es, g, d);
      SameInstance(m, d, entry, b, b, g);
    }
    forall t, c | DocAccount(m, t, c) ensures DocAccount(m.Put(d, entry), DocFold(t, es, c), c) {
      PlainFolds(UNISSUED, t, es, 0, c);
    }
  }

  /** A change of one entry that holds no instance before or after. */
  lemma NoInstanceKeeps(m: LifecycleModel, m': LifecycleModel, d: DocId, es: seq<Effect>)
    requires Good(m) && !(d in m.docs.items && m.docs.items[d].IsHeld())
    requires m' == m.Remove(d) || exists entry: Lifecycle :: !entry.IsHeld() && m' == m.Put(d, entry)
    requires forall i :: 0 <= i < |es| ==> Plain(es[i])
    ensures Keeps(m, Step(m', es))
  {
    if m' == m.Remove(d) {
      RemoveGood(m, d);
    } else {
      var entry: Lifecycle :| !entry.IsHeld() && m' == m.Put(d, entry);
      PutGood(m, d, entry);
    }
    forall b, g: Generation | Account(m, b, g) ensures Account(m', GenFold(b, es, g), g) {
      PlainFolds(b, DocBook(false, false), es, g, d);
      NotAnInstance(m, m', d, b, g);
    }
    forall t, c | DocAccount(m, t, c) ensures DocAccount(m', DocFold(t, es, c), c) {
      PlainFolds(UNISSUED, t, es, 0, c);
    }
  }

  /** An instance ends, saying this of its hydration. */
  function EndWith(d: DocId, entry: Lifecycle, reason: ClosedReason, hydration: Hydrated): seq<Effect>
    requires entry.IsHeld()
  {
    if IsLeaving(entry) then [Dispose(d, entry.held.gen, reason)]
    else [Close(d, entry.held.gen, reason, hydration), Dispose(d, entry.held.gen, reason)]
  }

  /** Ending an instance: it is closed, unless it was, and disposed. */
  lemma EndFolds(d: DocId, entry: Lifecycle, reason: ClosedReason, hydration: Hydrated, b: GenBook, t: DocBook, g: Generation, c: DocId)
    requires entry.IsHeld()
    ensures var es := EndWith(d, entry, reason, hydration);
      && GenFold(b, es, g) == (if g != entry.held.gen then b
          else if IsLeaving(entry) then b.(disposed := b.disposed + 1, early := b.early || b.closed == 0)
          else b.(closed := b.closed + 1, disposed := b.disposed + 1))
      && DocFold(t, es, c) == (if c == d && !IsLeaving(entry) then t.(on := false) else t)
  {
    CloseDisposeFolds(d, entry.held.gen, reason, hydration, b, t, g, c);
    FoldOne(b, t, Dispose(d, entry.held.gen, reason), g, c);
  }

  lemma CloseDisposeFolds(d: DocId, gen: Generation, reason: ClosedReason, hydration: Hydrated, b: GenBook, t: DocBook, g: Generation, c: DocId)
    ensures var es := [Close(d, gen, reason, hydration), Dispose(d, gen, reason)];
      && GenFold(b, es, g) == (if g != gen then b else b.(closed := b.closed + 1, disposed := b.disposed + 1))
      && DocFold(t, es, c) == (if c == d then t.(on := false) else t)
  {
    var x, y := Close(d, gen, reason, hydration), Dispose(d, gen, reason);
    FoldTwo(b, t, x, y, g, c);
  }

  /** An instance ends, its entry goes or becomes one without an instance. */
  lemma EndKeeps(m: LifecycleModel, m': LifecycleModel, d: DocId, reason: ClosedReason, hydration: Hydrated, rest: seq<Effect>)
    requires Good(m) && d in m.docs.items && m.docs.items[d].IsHeld()
    requires m' == m.Remove(d) || exists entry: Lifecycle :: !entry.IsHeld() && m' == m.Put(d, entry)
    requires forall i :: 0 <= i < |rest| ==> Plain(rest[i])
    ensures Keeps(m, Step(m', EndWith(d, m.docs.items[d], reason, hydration) + rest))
  {
    var entry, es := m.docs.items[d], EndWith(d, m.docs.items[d], reason, hydration);
    assert HeldAt(m, d, entry.held.gen);
    if m' == m.Remove(d) {
      RemoveGood(m, d);
    } else {
      var after: Lifecycle :| !after.IsHeld() && m' == m.Put(d, after);
      PutGood(m, d, after);
    }
    forall b, g: Generation | Account(m, b, g) ensures Account(m', GenFold(b, es + rest, g), g) {
      GenFoldConcat(b, es, rest, g);
      EndFolds(d, entry, reason, hydration, b, DocBook(false, false), g, d);
      PlainFolds(GenFold(b, es, g), DocBook(false, false), rest, g, d);
      Ended(m, m', d, b, GenFold(b, es, g), g);
    }
    forall t, c | DocAccount(m, t, c) ensures DocAccount(m', DocFold(t, es + rest, c), c) {
      DocFoldConcat(t, es, rest, c);
      EndFolds(d, entry, reason, hydration, UNISSUED, t, 0, c);
      PlainFolds(UNISSUED, DocFold(t, es, c), rest, 0, c);
    }
  }

  /** Two steps, one after the other. */
  lemma KeepsCompose(m: LifecycleModel, first: Step, second: Step)
    requires Keeps(m, first) && Keeps(first.model, second)
    ensures Keeps(m, Step(second.model, first.effects + second.effects))
  {
    forall b, g: Generation | Account(m, b, g) ensures Account(second.model, GenFold(b, first.effects + second.effects, g), g) {
      GenFoldConcat(b, first.effects, second.effects, g);
    }
    forall t, d | DocAccount(m, t, d) ensures DocAccount(second.model, DocFold(t, first.effects + second.effects, d), d) {
      DocFoldConcat(t, first.effects, second.effects, d);
    }
  }

  // ---------------------------------------------------------------------
  // Becoming ready
  // ---------------------------------------------------------------------

  lemma RegistrationFolds(m: LifecycleModel, d: DocId, held: Held, registered: bool, b: GenBook, t: DocBook, g: Generation, c: DocId)
    ensures var es := Registration(m, d, held, registered);
      && GenFold(b, es, g) == (if !registered && m.hooked && g == held.gen then b.(registered := b.registered + 1) else b)
      && DocFold(t, es, c) == t
  {
    FoldOne(b, t, Register(d, held.gen, held.suspended), g, c);
  }

  lemma ReadyFolds(m: LifecycleModel, d: DocId, held: Held, outcome: LoadOutcome, writer: Option<PeerId>, b: GenBook, t: DocBook, g: Generation, c: DocId)
    ensures var es := ReadyEffects(m, d, held, outcome, writer);
      && GenFold(b, es, g) == (if m.hooked && g == held.gen then b.(registered := b.registered + 1) else b)
      && DocFold(t, es, c) == t
  {
    var x := (if held.spec.Interpret? then [Adopt(d, held.gen, writer)] else []) + StoreLearns(d, outcome);
    var y := Registration(m, d, held, false);
    var z := if held.spec.Interpret? then [Wire(d, held.gen)] else [];
    RegistrationFolds(m, d, held, false, b, t, g, c);
    AmidFolds(b, t, x, y, z, g, c);
  }

  /** Plain effects around others change no book. */
  lemma AmidFolds(b: GenBook, t: DocBook, x: seq<Effect>, y: seq<Effect>, z: seq<Effect>, g: Generation, c: DocId)
    requires (forall i :: 0 <= i < |x| ==> Plain(x[i])) && (forall i :: 0 <= i < |z| ==> Plain(z[i]))
    ensures GenFold(b, x + y + z, g) == GenFold(b, y, g) && DocFold(t, x + y + z, c) == DocFold(t, y, c)
  {
    PlainFolds(b, t, x, g, c);
    GenFoldConcat(b, x, y, g);
    DocFoldConcat(t, x, y, c);
    GenFoldConcat(b, x + y, z, g);
    DocFoldConcat(t, x + y, z, c);
    PlainFolds(GenFold(b, x + y, g), DocFold(t, x + y, c), z, g, c);
  }

  /** A load ends. */
  lemma FinishKeeps(m: LifecycleModel, d: DocId, held: Held, intent: Intent, outcome: LoadOutcome, writer: Option<PeerId>)
    requires Good(m) && m.Entry(d) == Some(Loading(held, intent))
    ensures Keeps(m, FinishLoad(m, d, held, intent, outcome, writer, []))
  {
    var step := FinishLoad(m, d, held, intent, outcome, writer, []);
    if intent.Open? && !outcome.FoundStored? {
      var rest := if intent.replaced.UnloadedReplaced? then [Notify(d, WasDestroyed)] else [];
      EndKeeps(m, step.model, d, ByDisposal, HasFailed(NOT_HELD_ERROR), rest);
      assert step.effects == EndWith(d, m.docs.items[d], ByDisposal, HasFailed(NOT_HELD_ERROR)) + rest;
    } else {
      var ready := Ready(held, m.hooked, writer);
      assert HeldAt(m, d, held.gen);
      PutGood(m, d, ready);
      var es := ReadyEffects(m, d, held, outcome, writer);
      assert step == Step(m.Put(d, ready), es);
      forall b, g: Generation | Account(m, b, g) ensures Account(m.Put(d, ready), GenFold(b, es, g), g) {
        ReadyFolds(m, d, held, outcome, writer, b, DocBook(false, false), g, d);
        SameInstance(m, d, ready, b, GenFold(b, es, g), g);
      }
      forall t, c | DocAccount(m, t, c) ensures DocAccount(m.Put(d, ready), DocFold(t, es, c), c) {
        ReadyFolds(m, d, held, outcome, writer, UNISSUED, t, 0, c);
      }
    }
  }

  // ---------------------------------------------------------------------
  // Issuing a generation
  // ---------------------------------------------------------------------

  /** What a new instance replaces: nothing held; the ready replica it promotes; or
      an instance on its way out, which is recorded as departing. */
  predicate MayReplace(m: LifecycleModel, d: DocId, spec: BuildSpec, departing: Option<Generation>) {
    match m.Entry(d)
    case Some(Ready(held, _, _)) => spec.Interpret? && spec.from == Promote(held.gen) && departing == None
    case Some(Unloading(held, Leaving, _, _)) => departing == Some(held.gen) && !(spec.Interpret? && spec.from.Promote?)
    case Some(Unloading(_, Storing, _, _)) => false
    case Some(Loading(_, _)) => false
    case Some(Failed(_, _)) => false
    case _ => departing == None && !(spec.Interpret? && spec.from.Promote?)
  }

  function Recorded(m: LifecycleModel, d: DocId, departing: Option<Generation>): LifecycleModel {
    if departing.None? then m else m.(departing := m.departing.Put(departing.value, d))
  }

  /** A generation is issued and its instance is loading. */
  function Issue(m: LifecycleModel, d: DocId, spec: BuildSpec, suspended: bool, intent: Intent, departing: Option<Generation>): Step {
    var recorded := Recorded(m, d, departing);
    Step(recorded.(nextGen := m.nextGen + 1).Put(d, Loading(Held(m.nextGen, spec, suspended), intent)), BuildPrefix(d, m.nextGen, spec))
  }

  lemma BuildFolds(d: DocId, gen: Generation, spec: BuildSpec, b: GenBook, t: DocBook, g: Generation, c: DocId)
    ensures GenFold(b, BuildPrefix(d, gen, spec), g) == GenStep(b, Build(d, gen, spec), g)
    ensures DocFold(t, BuildPrefix(d, gen, spec), c) == t
  {
    var x, y := [Build(d, gen, spec)], if spec.Interpret? then [Interpreted(d, gen)] else [];
    FoldOne(b, t, Build(d, gen, spec), g, c);
    GenFoldConcat(b, x, y, g);
    DocFoldConcat(t, x, y, c);
    PlainFolds(GenFold(b, x, g), t, y, g, c);
  }

  lemma IssueGood(m: LifecycleModel, d: DocId, spec: BuildSpec, suspended: bool, intent: Intent, departing: Option<Generation>)
    requires Good(m) && MayReplace(m, d, spec, departing)
    ensures Good(Issue(m, d, spec, suspended, intent, departing).model)
  {
    var m' := Issue(m, d, spec, suspended, intent, departing).model;
    PutValid(m.docs, d, Loading(Held(m.nextGen, spec, suspended), intent));
    if departing.Some? {
      PutValid(m.departing, departing.value, d);
      assert HeldAt(m, d, departing.value);
    }
    forall c, g: Generation | HeldAt(m', c, g) ensures if c == d then g == m.nextGen else HeldAt(m, c, g) {
    }
  }

  lemma IssueKeeps(m: LifecycleModel, d: DocId, spec: BuildSpec, suspended: bool, intent: Intent, departing: Option<Generation>)
    requires Good(m) && MayReplace(m, d, spec, departing)
    ensures Keeps(m, Issue(m, d, spec, suspended, intent, departing))
  {
    var step := Issue(m, d, spec, suspended, intent, departing);
    IssueGood(m, d, spec, suspended, intent, departing);
    forall b, g: Generation | Account(m, b, g) ensures Account(step.model, GenFold(b, step.effects, g), g) {
      BuildFolds(d, m.nextGen, spec, b, DocBook(false, false), g, d);
      IssueAccount(m, d, spec, suspended, intent, departing, b, g);
    }
    forall t, c | DocAccount(m, t, c) ensures DocAccount(step.model, DocFold(t, step.effects, c), c) {
      BuildFolds(d, m.nextGen, spec, UNISSUED, t, 0, c);
    }
  }

  lemma IssueAccount(m: LifecycleModel, d: DocId, spec: BuildSpec, suspended: bool, intent: Intent, departing: Option<Generation>,
                     b: GenBook, g: Generation)
    requires Good(m) && MayReplace(m, d, spec, departing) && Account(m, b, g)
    ensures Account(Issue(m, d, spec, suspended, intent, departing).model, GenStep(b, Build(d, m.nextGen, spec), g), g)
  {
    var m' := Issue(m, d, spec, suspended, intent, departing).model;
    HolderAfterIssue(m, d, spec, suspended, intent, departing, g);
    var b' := GenStep(b, Build(d, m.nextGen, spec), g);
    if HeldAt(m, d, g) {
      assert HeldBook(m.docs.items[d], b);
    }
    forall c | HeldAt(m', c, g) ensures HeldBook(m'.docs.items[c], b') {
      assert c != d ==> HeldAt(m, c, g);
    }
  }

  lemma HolderAfterIssue(m: LifecycleModel, d: DocId, spec: BuildSpec, suspended: bool, intent: Intent, departing: Option<Generation>, g: Generation)
    requires Good(m) && MayReplace(m, d, spec, departing)
    ensures var m' := Issue(m, d, spec, suspended, intent, departing).model;
      HeldSomewhere(m', g) <==> g == m.nextGen || (HeldSomewhere(m, g) && !HeldAt(m, d, g))
  {
    var m' := Issue(m, d, spec, suspended, intent, departing).model;
    assert HeldAt(m', d, m.nextGen);
    if HeldSomewhere(m', g) && g != m.nextGen {
      var c :| HeldAt(m', c, g);
      assert HeldAt(m, c, g);
    }
    if HeldSomewhere(m, g) && !HeldAt(m, d, g) {
      var c :| HeldAt(m, c, g);
      assert HeldAt(m', c, g);
    }
  }

  /** Ending a load that was never recorded as loading is the same as recording it
      first. */
  lemma FinishAfterPut(m: LifecycleModel, d: DocId, held: Held, intent: Intent, outcome: LoadOutcome, writer: Option<PeerId>, prefix: seq<Effect>)
    requires m.docs.Valid()
    ensures var first := FinishLoad(m.Put(d, Loading(held, intent)), d, held, intent, outcome, writer, []);
      FinishLoad(m, d, held, intent, outcome, writer, prefix) == Step(first.model, prefix + first.effects)
  {
    var loading := Loading(held, intent);
    PutAfterPut(m, d, loading, if intent.Open? && !outcome.FoundStored? then Deferred else Ready(held, m.hooked, writer));
    RemoveAfterPut(m, d, loading);
    FinishPrefix(m, d, held, intent, outcome, writer, prefix);
  }

  lemma FinishPrefix(m: LifecycleModel, d: DocId, held: Held, intent: Intent, outcome: LoadOutcome, writer: Option<PeerId>, prefix: seq<Effect>)
    ensures FinishLoad(m, d, held, intent, outcome, writer, prefix).effects == prefix + FinishLoad(m, d, held, intent, outcome, writer, []).effects
  {
    if intent.Open? && !outcome.FoundStored? {
      var x := UndoneEffects(d, held.gen, intent);
      assert [] + x == x;
    } else {
      var x := ReadyEffects(m, d, held, outcome, writer);
      assert prefix + x == prefix + ([] + x);
    }
  }

  lemma PutAfterPut(m: LifecycleModel, d: DocId, first: Lifecycle, second: Lifecycle)
    ensures m.Put(d, first).Put(d, second) == m.Put(d, second)
  {
    PutTwice(m.docs, d, first, second);
  }

  lemma RemoveAfterPut(m: LifecycleModel, d: DocId, entry: Lifecycle)
    requires m.docs.Valid()
    ensures m.Put(d, entry).Remove(d) == m.Remove(d)
  {
    DeleteAfterPut(m.docs, d, entry);
    if d !in m.docs.items {
      WithoutAbsent(m.docs.keys, d);
      assert m.docs.items - {d} == m.docs.items;
    }
  }

  lemma BeginKeeps(m: LifecycleModel, d: DocId, spec: BuildSpec, suspended: bool, intent: Intent, writer: Option<PeerId>, departing: Option<Generation>)
    requires Good(m) && MayReplace(m, d, spec, departing)
    ensures Keeps(m, Begin(Recorded(m, d, departing), d, spec, suspended, intent, writer))
  {
    var m0 := Recorded(m, d, departing);
    IssueKeeps(m, d, spec, suspended, intent, departing);
    BeginIs(m, d, spec, suspended, intent, writer, departing);
    if m0.StoredOf(spec.MetadataOf().syncMode) && !(spec.Interpret? && spec.from.Promote?) {
      IssueThenLoad(m, Issue(m, d, spec, suspended, intent, departing), d, m.nextGen);
    } else {
      IssueThenFinish(m, d, spec, suspended, intent, writer, departing);
    }
  }

  lemma BeginIs(m: LifecycleModel, d: DocId, spec: BuildSpec, suspended: bool, intent: Intent, writer: Option<PeerId>, departing: Option<Generation>)
    ensures var m0 := Recorded(m, d, departing);
      var issue := Issue(m, d, spec, suspended, intent, departing);
      Begin(m0, d, spec, suspended, intent, writer)
      == if m0.StoredOf(spec.MetadataOf().syncMode) && !(spec.Interpret? && spec.from.Promote?)
         then Step(issue.model, issue.effects + [Load(d, m.nextGen)])
         else FinishLoad(m0.(nextGen := m.nextGen + 1), d, Held(m.nextGen, spec, suspended), intent, FoundNone, writer, BuildPrefix(d, m.nextGen, spec))
  {
  }

  lemma IssueThenLoad(m: LifecycleModel, issue: Step, d: DocId, gen: Generation)
    requires Keeps(m, issue)
    ensures Keeps(m, Step(issue.model, issue.effects + [Load(d, gen)]))
  {
    IdleKeeps(issue.model, [Load(d, gen)]);
    KeepsCompose(m, issue, Step(issue.model, [Load(d, gen)]));
  }

  lemma IssueThenFinish(m: LifecycleModel, d: DocId, spec: BuildSpec, suspended: bool, intent: Intent, writer: Option<PeerId>, departing: Option<Generation>)
    requires Good(m) && Keeps(m, Issue(m, d, spec, suspended, intent, departing))
    ensures Keeps(m, FinishLoad(Recorded(m, d, departing).(nextGen := m.nextGen + 1), d, Held(m.nextGen, spec, suspended), intent, FoundNone, writer,
                                BuildPrefix(d, m.nextGen, spec)))
  {
    var held, issue := Held(m.nextGen, spec, suspended), Issue(m, d, spec, suspended, intent, departing);
    FinishKeeps(issue.model, d, held, intent, FoundNone, writer);
    KeepsCompose(m, issue, FinishLoad(issue.model, d, held, intent, FoundNone, writer, []));
    IssuedFinish(m, d, spec, suspended, intent, writer, departing);
  }

  lemma IssuedFinish(m: LifecycleModel, d: DocId, spec: BuildSpec, suspended: bool, intent: Intent, writer: Option<PeerId>, departing: Option<Generation>)
    requires m.docs.Valid()
    ensures var held, issue := Held(m.nextGen, spec, suspended), Issue(m, d, spec, suspended, intent, departing);
      var rest := FinishLoad(issue.model, d, held, intent, FoundNone, writer, []);
      FinishLoad(Recorded(m, d, departing).(nextGen := m.nextGen + 1), d, held, intent, FoundNone, writer, BuildPrefix(d, m.nextGen, spec))
      == Step(rest.model, issue.effects + rest.effects)
  {
    var issued := Recorded(m, d, departing).(nextGen := m.nextGen + 1);
    FinishAfterPut(issued, d, Held(m.nextGen, spec, suspended), intent, FoundNone, writer, BuildPrefix(d, m.nextGen, spec));
  }

  // ---------------------------------------------------------------------
  // One input at a time
  // ---------------------------------------------------------------------

  lemma CreateOrPromoteKeeps(m: LifecycleModel, d: DocId, bound: BoundSchema, want: DoorIntent)
    requires Good(m) && (d in m.docs.items ==> !m.docs.items[d].Unloaded? && !m.docs.items[d].Unloading?)
    ensures Keeps(m, CreateOrPromote(m, d, bound, want))
  {
    var entry := m.Entry(d);
    IdleKeeps(m, []);
    if entry.Some? && entry.value.IsHeld() {
      if entry.value.Ready? {
        BeginKeeps(m, d, Interpret(bound, Promote(entry.value.held.gen)), entry.value.held.suspended, Create, entry.value.writer, None);
      }
    } else {
      var stored := m.StoredOf(bound.metadata.syncMode);
      var intent := if want.ToCreate? then Create
                    else Open(if entry.Some? && entry.value.Deferred? then DeferredReplaced else NothingReplaced);
      BeginKeeps(m, d, Interpret(bound, if stored then Hydration else Empty), false, intent, None, None);
    }
  }

  /** What opening or creating can amount to. */
  lemma AnswerGetIs(compat: Compat, m: LifecycleModel, d: DocId, bound: BoundSchema, want: DoorIntent)
    ensures var step := AnswerGet(compat, m, d, bound, want);
      var entry := m.Entry(d);
      || IsIdle(m, step)
      || (IsStored(entry) && step == LoadAgain(m, d, Interpret(bound, Hydration), SuspendedOf(entry.value), want, DepartingOf(entry.value)))
      || (entry.Some? && entry.value.Loading? && step == Step(m.Put(d, entry.value.(intent := Create)), []))
      || (!IsStored(entry) && step == CreateOrPromote(m, d, bound, want))
  {
  }

  predicate IsIdle(m: LifecycleModel, step: Step) {
    step.model == m && (step.effects == [] || (|step.effects| == 1 && step.effects[0].Refuse?))
  }

  /** Only the store holds the document, or is about to. */
  predicate IsStored(entry: Option<Lifecycle>) {
    entry.Some? && (entry.value.Unloaded? || entry.value.Unloading?)
  }

  function SuspendedOf(entry: Lifecycle): bool
    requires entry.Unloaded? || entry.Unloading?
  {
    if entry.Unloaded? then entry.suspended else entry.held.suspended
  }

  function DepartingOf(entry: Lifecycle): Option<Generation> {
    if entry.Unloading? then Some(entry.held.gen) else None
  }

  lemma AnswerGetKeeps(compat: Compat, m: LifecycleModel, d: DocId, bound: BoundSchema, want: DoorIntent)
    requires Good(m) && (d in m.docs.items && m.docs.items[d].Unloading? ==> m.docs.items[d].stage.Leaving?)
    ensures Keeps(m, AnswerGet(compat, m, d, bound, want))
  {
    var entry, step := m.Entry(d), AnswerGet(compat, m, d, bound, want);
    AnswerGetIs(compat, m, d, bound, want);
    if IsIdle(m, step) {
      IdleKeeps(m, step.effects);
    } else if IsStored(entry) {
      LoadAgainKeeps(m, d, Interpret(bound, Hydration), SuspendedOf(entry.value), want, DepartingOf(entry.value));
    } else {
      if entry.Some? && entry.value.Loading? {
        SameInstanceKeeps(m, d, entry.value.(intent := Create), []);
      }
      CreateOrPromoteKeeps(m, d, bound, want);
    }
  }

  lemma LoadAgainKeeps(m: LifecycleModel, d: DocId, spec: BuildSpec, suspended: bool, want: DoorIntent, departing: Option<Generation>)
    requires Good(m) && MayReplace(m, d, spec.Stored(), departing)
    ensures Keeps(m, LoadAgain(m, d, spec, suspended, want, departing))
  {
    BeginKeeps(m, d, spec.Stored(), suspended, if want.ToCreate? then Create else Open(UnloadedReplaced), None, departing);
  }

  /** Cancelling an unload. */
  lemma CancelKeeps(m: LifecycleModel, d: DocId)
    requires Good(m) && d in m.docs.items && m.docs.items[d].Unloading? && m.docs.items[d].stage.Storing?
    ensures Keeps(m, Cancel(m, d, m.docs.items[d]))
  {
    var entry := m.docs.items[d];
    var step := Cancel(m, d, entry);
    var ready := Ready(entry.held, entry.registered || m.hooked, entry.writer);
    var x: seq<Effect> := [Store(StoreKeep(d))];
    var y := if entry.registered && !entry.held.suspended then [LeavingGraph(d, false)] else [];
    var z := Registration(m, d, entry.held, entry.registered);
    assert HeldAt(m, d, entry.held.gen);
    PutGood(m, d, ready);
    forall b, g: Generation | Account(m, b, g) ensures Account(step.model, GenFold(b, x + y + z, g), g) {
      CancelFolds(m, d, entry, b, DocBook(false, false), g, d);
      SameInstance(m, d, ready, b, GenFold(b, x + y + z, g), g);
    }
    forall t, c | DocAccount(m, t, c) ensures DocAccount(step.model, DocFold(t, x + y + z, c), c) {
      CancelFolds(m, d, entry, UNISSUED, t, 0, c);
    }
  }

  lemma CancelFolds(m: LifecycleModel, d: DocId, entry: Lifecycle, b: GenBook, t: DocBook, g: Generation, c: DocId)
    requires entry.Unloading?
    ensures var es := Cancel(m, d, entry).effects;
      && GenFold(b, es, g) == (if !entry.registered && m.hooked && g == entry.held.gen then b.(registered := b.registered + 1) else b)
      && DocFold(t, es, c) == (if c == d && entry.registered && !entry.held.suspended then DocBook(false, t.clash || !t.on) else t)
  {
    var x: seq<Effect> := [Store(StoreKeep(d))];
    var y := if entry.registered && !entry.held.suspended then [LeavingGraph(d, false)] else [];
    var z := Registration(m, d, entry.held, entry.registered);
    assert Cancel(m, d, entry).effects == x + y + z;
    PlainFolds(b, t, x, g, c);
    FoldOne(b, t, LeavingGraph(d, false), g, c);
    GenFoldConcat(b, x, y, g);
    DocFoldConcat(t, x, y, c);
    GenFoldConcat(b, x + y, z, g);
    DocFoldConcat(t, x + y, z, c);
    RegistrationFolds(m, d, entry.held, entry.registered, GenFold(b, x + y, g), DocFold(t, x + y, c), g, c);
  }

  lemma UnloadKeeps(m: LifecycleModel, d: DocId)
    requires Good(m)
    ensures Keeps(m, UnloadDoc(m, d))
  {
    var step := UnloadDoc(m, d);
    if step.model == m && (step.effects == [] || (|step.effects| == 1 && step.effects[0].Refuse?)) {
      IdleKeeps(m, step.effects);
    } else {
      var e := m.docs.items[d];
      var x := if e.held.spec.Interpret? then [Drain(d, e.held.gen)] else [];
      var y := if e.registered && !e.held.suspended then [LeavingGraph(d, true)] else [];
      var z := [Store(StoreAdvanced(d)), Store(StoreRelease(d, e.held.gen))];
      assert step.effects == x + y + z;
      var after := Unloading(e.held, Storing, e.registered, e.writer);
      assert HeldAt(m, d, e.held.gen);
      PutGood(m, d, after);
      forall b, g: Generation | Account(m, b, g) ensures Account(step.model, GenFold(b, step.effects, g), g) {
        UnloadFolds(d, x, y, z, b, DocBook(false, false), g, d);
        SameInstance(m, d, after, b, b, g);
      }
      forall t, c | DocAccount(m, t, c) ensures DocAccount(step.model, DocFold(t, step.effects, c), c) {
        UnloadFolds(d, x, y, z, UNISSUED, t, 0, c);
      }
    }
  }

  lemma UnloadFolds(d: DocId, x: seq<Effect>, y: seq<Effect>, z: seq<Effect>, b: GenBook, t: DocBook, g: Generation, c: DocId)
    requires (forall i :: 0 <= i < |x| ==> Plain(x[i])) && (forall i :: 0 <= i < |z| ==> Plain(z[i])) && (y == [] || y == [LeavingGraph(d, true)])
    ensures GenFold(b, x + y + z, g) == b
    ensures DocFold(t, x + y + z, c) == if y != [] && c == d then DocBook(true, t.clash || t.on) else t
  {
    PlainFolds(b, t, x, g, c);
    FoldOne(b, t, LeavingGraph(d, true), g, c);
    GenFoldConcat(b, x, y, g);
    DocFoldConcat(t, x, y, c);
    GenFoldConcat(b, x + y, z, g);
    DocFoldConcat(t, x + y, z, c);
    PlainFolds(GenFold(b, x + y, g), DocFold(t, x + y, c), z, g, c);
  }

  lemma ReleasedKeeps(m: LifecycleModel, d: DocId, gen: Generation, version: string)
    requires Good(m)
    ensures Keeps(m, ReleasedDoc(m, d, gen, version))
  {
    var step := ReleasedDoc(m, d, gen, version);
    if step.model == m && (step.effects == [] || step.effects == [Store(StoreHydrated(d, version))]) {
      IdleKeeps(m, step.effects);
    } else {
      var e := m.docs.items[d];
      assert HeldAt(m, d, gen);
      if e.registered {
        StartLeavingKeeps(m, d);
      } else {
        EndKeeps(m, step.model, d, ByUnload, IsLoaded, []);
        assert EndWith(d, e, ByUnload, IsLoaded) + [] == step.effects;
      }
    }
  }

  /** Released and registered: the instance closes and starts to leave. */
  lemma StartLeavingKeeps(m: LifecycleModel, d: DocId)
    requires Good(m) && d in m.docs.items && m.docs.items[d].Unloading? && m.docs.items[d].stage.Storing? && m.docs.items[d].registered
    ensures var e := m.docs.items[d];
      Keeps(m, Step(m.Put(d, Unloading(e.held, Leaving, true, e.writer)), [Close(d, e.held.gen, ByUnload, IsLoaded), Leave(d, e.held.gen)]))
  {
    var e := m.docs.items[d];
    var x, y := Close(d, e.held.gen, ByUnload, IsLoaded), Leave(d, e.held.gen);
    var after := Unloading(e.held, Leaving, true, e.writer);
    assert HeldAt(m, d, e.held.gen);
    PutGood(m, d, after);
    forall b, g: Generation | Account(m, b, g) ensures Account(m.Put(d, after), GenFold(b, [x, y], g), g) {
      FoldTwo(b, DocBook(false, false), x, y, g, d);
      SameInstance(m, d, after, b, GenStep(b, x, g), g);
    }
    forall t, c | DocAccount(m, t, c) ensures DocAccount(m.Put(d, after), DocFold(t, [x, y], c), c) {
      FoldTwo(UNISSUED, t, x, y, 0, c);
    }
  }

  lemma LeftKeeps(m: LifecycleModel, d: DocId, gen: Generation)
    requires Good(m)
    ensures Keeps(m, LeftDoc(m, d, gen))
  {
    var step := LeftDoc(m, d, gen);
    var entry := m.Entry(d);
    if entry.Some? && IsLeaving(entry.value) && entry.value.held.gen == gen {
      assert HeldAt(m, d, gen);
      EndKeeps(m, step.model, d, ByUnload, IsLoaded, []);
      assert EndWith(d, entry.value, ByUnload, IsLoaded) + [] == step.effects;
    } else if gen !in m.departing.items {
      IdleKeeps(m, []);
    } else {
      DeleteValid(m.departing, gen);
      var m', e := step.model, Dispose(d, gen, ByUnload);
      forall c, g: Generation ensures HeldAt(m', c, g) <==> HeldAt(m, c, g) {
      }
      assert Good(m');
      forall b, g: Generation | Account(m, b, g) ensures Account(m', GenFold(b, [e], g), g) {
        FoldOne(b, DocBook(false, false), e, g, d);
        SameHolders(m, m', g);
      }
      forall t, c | DocAccount(m, t, c) ensures DocAccount(m', DocFold(t, [e], c), c) {
        FoldOne(UNISSUED, t, e, 0, c);
      }
    }
  }

  lemma SameHolders(m: LifecycleModel, m': LifecycleModel, g: Generation)
    requires forall c :: HeldAt(m', c, g) <==> HeldAt(m, c, g)
    ensures HeldSomewhere(m', g) <==> HeldSomewhere(m, g)
  {
    if HeldSomewhere(m, g) {
      var c :| HeldAt(m, c, g);
      assert HeldAt(m', c, g);
    }
    if HeldSomewhere(m', g) {
      var c :| HeldAt(m', c, g);
      assert HeldAt(m, c, g);
    }
  }

  lemma DestroyKeeps(m: LifecycleModel, d: DocId)
    requires Good(m)
    ensures Keeps(m, DestroyDoc(m, d))
  {
    var step := DestroyDoc(m, d);
    var entry := m.Entry(d);
    if entry.Some? && entry.value.IsHeld() {
      var rest := (if m.StoredOf(entry.value.held.spec.MetadataOf().syncMode) then [Store(StoreDestroy(d))] else []) + [Notify(d, WasDestroyed)];
      EndKeeps(m, step.model, d, ByDestroy, HydrationOf(entry.value), rest);
      assert step.effects == EndWith(d, entry.value, ByDestroy, HydrationOf(entry.value)) + rest;
    } else {
      NoInstanceKeeps(m, step.model, d, step.effects);
    }
  }

  lemma SuspendKeeps(m: LifecycleModel, d: DocId, suspended: bool)
    requires Good(m)
    ensures Keeps(m, SetSuspended(m, d, suspended))
  {
    var step := SetSuspended(m, d, suspended);
    var entry := m.Entry(d);
    if entry.Some? && (entry.value.Loading? || entry.value.Ready? || entry.value.Failed?) && entry.value.held.suspended != suspended {
      SameInstanceKeeps(m, d, WithSuspended(entry.value, suspended), step.effects);
    } else {
      IdleKeeps(m, step.effects);
    }
  }

  lemma ReplicateKeeps(m: LifecycleModel, d: DocId, spec: BuildSpec)
    requires Good(m) && spec.Replicate?
    ensures Keeps(m, ReplicateDocument(m, d, spec))
  {
    var entry := m.Entry(d);
    if entry.None? || entry.value.Deferred? {
      BeginKeeps(m, d, spec, false, Create, None, None);
    } else if entry.value.Unloaded? && entry.value.spec.Replicate? {
      BeginKeeps(m, d, spec, entry.value.suspended, Create, None, None);
    } else {
      IdleKeeps(m, ReplicateDocument(m, d, spec).effects);
    }
  }

  // ---------------------------------------------------------------------
  // Hooks and closing everything
  // ---------------------------------------------------------------------

  /** The entry of `d` is ready and unregistered, and holds `g`. */
  predicate AwaitsRegistration(docs: OrderedMap<DocId, Lifecycle>, d: DocId, g: Generation) {
    d in docs.items && docs.items[d].Ready? && !docs.items[d].registered && docs.items[d].held.gen == g
  }

  /** `g` is the generation of a ready, unregistered instance under one of `keys`. */
  ghost predicate WouldRegister(docs: OrderedMap<DocId, Lifecycle>, keys: seq<DocId>, g: Generation) {
    exists d :: d in keys && AwaitsRegistration(docs, d, g)
  }

  function RegisterCount(docs: OrderedMap<DocId, Lifecycle>, keys: seq<DocId>, g: Generation): nat {
    if keys == [] then 0
    else RegisterCount(docs, keys[..|keys| - 1], g) + if AwaitsRegistration(docs, keys[|keys| - 1], g) then 1 else 0
  }

  lemma {:induction false} HookedFolds(docs: OrderedMap<DocId, Lifecycle>, keys: seq<DocId>, b: GenBook, t: DocBook, g: Generation, c: DocId)
    ensures GenFold(b, HookedEffects(docs, keys), g) == b.(registered := b.registered + RegisterCount(docs, keys, g))
    ensures DocFold(t, HookedEffects(docs, keys), c) == t
  {
    if keys != [] {
      var init, d := keys[..|keys| - 1], keys[|keys| - 1];
      HookedFolds(docs, init, b, t, g, c);
      var rest := HookedEffects(docs, init);
      if d in docs.items && docs.items[d].Ready? && !docs.items[d].registered {
        FoldLast(b, t, rest, Register(d, docs.items[d].held.gen, docs.items[d].held.suspended), g, c);
      } else {
        assert rest + [] == rest;
      }
    }
  }

  /** No two entries hold one generation. */
  lemma {:induction false} RegistersOnce(m: LifecycleModel, keys: seq<DocId>, g: Generation)
    requires Good(m) && Distinct(keys)
    ensures RegisterCount(m.docs, keys, g) == if WouldRegister(m.docs, keys, g) then 1 else 0
  {
    if keys != [] {
      var init, d := keys[..|keys| - 1], keys[|keys| - 1];
      RegistersOnce(m, init, g);
      assert d !in init && forall k :: k in keys <==> k in init || k == d;
      if AwaitsRegistration(m.docs, d, g) {
        forall k | k in init ensures !AwaitsRegistration(m.docs, k, g) {
          assert HeldAt(m, d, g);
          assert AwaitsRegistration(m.docs, k, g) ==> HeldAt(m, k, g);
        }
      }
    }
  }

  lemma HookedKeeps(m: LifecycleModel)
    requires Good(m)
    ensures Keeps(m, HookedAll(m))
  {
    var step := HookedAll(m);
    var m' := step.model;
    forall d, g: Generation ensures HeldAt(m', d, g) <==> HeldAt(m, d, g) {
    }
    assert Good(m');
    forall b, g: Generation | Account(m, b, g) ensures Account(m', GenFold(b, step.effects, g), g) {
      HookedFolds(m.docs, m.docs.keys, b, DocBook(false, false), g, "");
      RegistersOnce(m, m.docs.keys, g);
      HookedAccount(m, b, g);
    }
    forall t, c | DocAccount(m, t, c) ensures DocAccount(m', DocFold(t, step.effects, c), c) {
      HookedFolds(m.docs, m.docs.keys, UNISSUED, t, 0, c);
    }
  }

  lemma HookedAccount(m: LifecycleModel, b: GenBook, g: Generation)
    requires Good(m) && Account(m, b, g)
    ensures Account(HookedAll(m).model, if WouldRegister(m.docs, m.docs.keys, g) then b.(registered := b.registered + 1) else b, g)
  {
    var m' := HookedAll(m).model;
    forall d ensures HeldAt(m', d, g) <==> HeldAt(m, d, g) {
    }
    SameHolders(m, m', g);
    if WouldRegister(m.docs, m.docs.keys, g) {
      var d :| d in m.docs.keys && AwaitsRegistration(m.docs, d, g);
      assert HeldAt(m, d, g);
    } else {
      forall d | HeldAt(m, d, g) ensures m'.docs.items[d] == m.docs.items[d] || IsRegistered(m.docs.items[d]) {
        assert d in m.docs.keys;
      }
    }
  }

  /** `g` is held by an entry under one of `keys`. */
  ghost predicate HeldIn(m: LifecycleModel, keys: seq<DocId>, g: Generation) {
    exists d :: d in keys && HeldAt(m, d, g)
  }

  /** The book of a generation whose instance has just been ended. */
  function EndedBook(b: GenBook, wasClosed: bool): GenBook {
    if wasClosed then b.(disposed := b.disposed + 1, early := b.early || b.closed == 0)
    else b.(closed := b.closed + 1, disposed := b.disposed + 1)
  }

  lemma {:induction false} CloseDocsFold(m: LifecycleModel, keys: seq<DocId>, reason: ClosedReason, b: GenBook, g: Generation)
    requires Good(m) && Distinct(keys)
    ensures !HeldIn(m, keys, g) ==> GenFold(b, CloseDocs(m.docs, keys, reason), g) == b
    ensures forall d :: d in keys && HeldAt(m, d, g) ==> GenFold(b, CloseDocs(m.docs, keys, reason), g) == EndedBook(b, IsLeaving(m.docs.items[d]))
  {
    hide DocStep, GenStep;
    if keys != [] {
      var init, d := keys[..|keys| - 1], keys[|keys| - 1];
      CloseDocsFold(m, init, reason, b, g);
      var rest := CloseDocs(m.docs, init, reason);
      assert forall k :: k in keys <==> k in init || k == d;
      assert d !in init;
      if d in m.docs.items && m.docs.items[d].IsHeld() {
        var e := m.docs.items[d];
        assert HeldAt(m, d, e.held.gen);
        var last := End(d, e, reason);
        assert last == EndWith(d, e, reason, HydrationOf(e));
        GenFoldConcat(b, rest, last, g);
        EndFolds(d, e, reason, HydrationOf(e), GenFold(b, rest, g), DocBook(false, false), g, d);
      } else {
        assert rest + [] == rest;
      }
    }
  }

  lemma {:induction false} CloseDocsDocFold(m: LifecycleModel, keys: seq<DocId>, reason: ClosedReason, t: DocBook, c: DocId)
    requires Good(m) && DocAccount(m, t, c)
    ensures var after := DocFold(t, CloseDocs(m.docs, keys, reason), c);
      !after.clash && (after.on ==> t.on && c !in keys)
  {
    if keys != [] {
      var init, d := keys[..|keys| - 1], keys[|keys| - 1];
      CloseDocsDocFold(m, init, reason, t, c);
      var rest := CloseDocs(m.docs, init, reason);
      if d in m.docs.items && m.docs.items[d].IsHeld() {
        var e := m.docs.items[d];
        var last := End(d, e, reason);
        assert last == EndWith(d, e, reason, HydrationOf(e));
        DocFoldConcat(t, rest, last, c);
        EndFolds(d, e, reason, HydrationOf(e), UNISSUED, DocFold(t, rest, c), 0, c);
      } else {
        assert rest + [] == rest;
      }
    }
  }

  lemma {:induction false} DisposeDepartingFold(departing: OrderedMap<Generation, DocId>, gens: seq<Generation>, reason: ClosedReason,
                                                b: GenBook, t: DocBook, g: Generation, c: DocId)
    requires Distinct(gens) && forall k :: k in gens ==> k in departing.items
    ensures GenFold(b, DisposeDeparting(departing, gens, reason), g) == if g in gens then EndedBook(b, true) else b
    ensures DocFold(t, DisposeDeparting(departing, gens, reason), c) == t
  {
    if gens != [] {
      var init, gen := gens[..|gens| - 1], gens[|gens| - 1];
      DisposeDepartingFold(departing, init, reason, b, t, g, c);
      var rest, last := DisposeDeparting(departing, init, reason), Dispose(departing.items[gen], gen, reason);
      FoldLast(b, t, rest, last, g, c);
      assert forall k :: k in gens <==> k in init || k == gen;
      assert gen !in init;
    }
  }

  lemma CloseAllKeeps(m: LifecycleModel, reason: ClosedReason)
    requires Good(m)
    ensures Keeps(m, CloseEverything(m, reason))
  {
    var step := CloseEverything(m, reason);
    var x, y := CloseDocs(m.docs, m.docs.keys, reason), DisposeDeparting(m.departing, m.departing.keys, reason);
    assert Good(step.model);
    forall b, g: Generation | Account(m, b, g) ensures Account(step.model, GenFold(b, x + y, g), g) {
      CloseAllAccount(m, reason, b, g);
    }
    forall t, c | DocAccount(m, t, c) ensures DocAccount(step.model, DocFold(t, x + y, c), c) {
      CloseDocsDocFold(m, m.docs.keys, reason, t, c);
      DocFoldConcat(t, x, y, c);
      DisposeDepartingFold(m.departing, m.departing.keys, reason, UNISSUED, DocFold(t, x, c), 0, c);
    }
  }

  lemma CloseAllAccount(m: LifecycleModel, reason: ClosedReason, b: GenBook, g: Generation)
    requires Good(m) && Account(m, b, g)
    ensures Account(CloseEverything(m, reason).model, GenFold(b, CloseEverything(m, reason).effects, g), g)
  {
    var x, y := CloseDocs(m.docs, m.docs.keys, reason), DisposeDeparting(m.departing, m.departing.keys, reason);
    var m' := CloseEverything(m, reason).model;
    CloseDocsFold(m, m.docs.keys, reason, b, g);
    GenFoldConcat(b, x, y, g);
    DisposeDepartingFold(m.departing, m.departing.keys, reason, GenFold(b, x, g), DocBook(false, false), g, "");
    assert !HeldSomewhere(m', g);
    if HeldSomewhere(m, g) {
      var d :| HeldAt(m, d, g);
      assert d in m.docs.keys && g !in m.departing.keys;
    } else {
      assert !HeldIn(m, m.docs.keys, g);
    }
  }
}
