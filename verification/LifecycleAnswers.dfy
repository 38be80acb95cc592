/** What each request and completion does: the document as it is afterwards, and the
    effects that tell the world. */
module LifecycleAnswers {
  import opened Prelude
  import opened Lifecycles
  import opened LifecycleBooks
  import opened LifecycleRuns
  import opened LifecycleDoors

  /** Exactly these effects, none of them twice. */
  ghost predicate Emits(step: Step, effects: set<Effect>) {
    (forall e :: e in step.effects <==> e in effects) && Distinct(step.effects)
  }

  ghost predicate Refuses(m: LifecycleModel, step: Step, refusal: Refusal) {
    step.model == m && step.effects == [Refuse(refusal)]
  }

  ghost predicate DoesNothing(m: LifecycleModel, step: Step) {
    step.model == m && step.effects == []
  }

  /** A document of this sync mode reaches a store. */
  predicate Persists(m: LifecycleModel, mode: SyncMode) {
    m.hasStore && mode.persistent
  }

  /** The document's entry afterwards. */
  ghost predicate Becomes(step: Step, d: DocId, entry: Lifecycle) {
    step.model.Entry(d) == Some(entry)
  }

  // ---------------------------------------------------------------------
  // Suspending and resuming
  // ---------------------------------------------------------------------

  /** A held document that is not being unloaded. */
  predicate Settled(entry: Option<Lifecycle>) {
    entry.Some? && entry.value.IsHeld() && !entry.value.Unloading?
  }

  /** The same instance in the same phase. */
  predicate SameButSuspension(a: Lifecycle, b: Lifecycle) {
    && a.IsHeld() && b.IsHeld() && a.held.gen == b.held.gen && a.held.spec == b.held.spec
    && (a.Loading? ==> b.Loading? && a.intent == b.intent)
    && (a.Ready? ==> b.Ready? && a.registered == b.registered && a.writer == b.writer)
    && (a.Failed? ==> b.Failed? && a.error == b.error)
  }

  /** After `suspend` a settled document is suspended, and the hook is told exactly
      when it was not before. */
  lemma SuspendSuspends(compat: Compat, m: LifecycleModel, d: DocId)
    requires Settled(m.Entry(d))
    ensures var step := Update(compat, Suspend(d), m);
      && SuspensionOf(step.model.Entry(d)) == Some(true)
      && SameButSuspension(m.docs.items[d], step.model.docs.items[d])
      && Emits(step, if SuspensionOf(m.Entry(d)) == Some(false) then {Notify(d, WasSuspended)} else {})
  {
  }

  /** After `resume` it is not; where it was not before the request is refused. */
  lemma ResumeResumes(compat: Compat, m: LifecycleModel, d: DocId)
    requires Settled(m.Entry(d))
    ensures var step := Update(compat, Resume(d), m);
      && SuspensionOf(step.model.Entry(d)) == Some(false)
      && SameButSuspension(m.docs.items[d], step.model.docs.items[d])
      && (SuspensionOf(m.Entry(d)) == Some(true) ==> Emits(step, {Notify(d, WasResumed)}))
      && (SuspensionOf(m.Entry(d)) == Some(false) ==> Refuses(m, step, NotSuspended(d)))
  {
  }

  /** Any other document refuses both, saying what it is instead. */
  lemma UnsettledRefuse(compat: Compat, m: LifecycleModel, d: DocId)
    requires !Settled(m.Entry(d))
    ensures m.Entry(d).Some? && m.Entry(d).value.Unloading? ==>
      Refuses(m, Update(compat, Suspend(d), m), InUnload(d, SuspendDoor)) && Refuses(m, Update(compat, Resume(d), m), InUnload(d, ResumeDoor))
    ensures !(m.Entry(d).Some? && m.Entry(d).value.Unloading?) ==>
      && Refuses(m, Update(compat, Suspend(d), m), NotHeld(d, SuspendDoor, PhaseOf(m.Entry(d))))
      && Refuses(m, Update(compat, Resume(d), m), NotHeld(d, ResumeDoor, PhaseOf(m.Entry(d))))
  {
  }

  // ---------------------------------------------------------------------
  // Loading
  // ---------------------------------------------------------------------

  /** The current load of a document. */
  predicate IsLoadingNow(m: LifecycleModel, d: DocId, gen: Generation) {
    d in m.docs.items && m.docs.items[d].Loading? && m.docs.items[d].held.gen == gen
  }

  /** What the store is told of a load: the version found, that a new document is to
      be registered, or nothing. */
  function StoreHears(d: DocId, outcome: LoadOutcome): set<Effect> {
    match outcome
    case FoundStored(version) => {Store(StoreHydrated(d, version))}
    case FoundEmpty => {Store(StoreRegister(d))}
    case FoundNone => {}
  }

  /** What a document that becomes ready does: it claims its identity and is wired if
      it is interpreted, and registers if hooks are set. */
  function ReadyTells(m: LifecycleModel, d: DocId, held: Held, writer: Option<PeerId>): set<Effect> {
    (if held.spec.Interpret? then {Adopt(d, held.gen, writer), Wire(d, held.gen)} else {})
    + (if m.hooked then {Register(d, held.gen, held.suspended)} else {})
  }

  lemma ReadyEmits(m: LifecycleModel, d: DocId, held: Held, outcome: LoadOutcome, writer: Option<PeerId>)
    ensures var es := ReadyEffects(m, d, held, outcome, writer);
      (forall e :: e in es <==> e in ReadyTells(m, d, held, writer) + StoreHears(d, outcome)) && Distinct(es)
  {
    var a := if held.spec.Interpret? then [Adopt(d, held.gen, writer)] else [];
    var s, r := StoreLearns(d, outcome), Registration(m, d, held, false);
    var w := if held.spec.Interpret? then [Wire(d, held.gen)] else [];
    AppendDistinct(a, s);
    AppendDistinct(a + s, r);
    AppendDistinct(a + s + r, w);
  }

  lemma AppendDistinct(x: seq<Effect>, y: seq<Effect>)
    requires Distinct(x) && Distinct(y) && forall e :: e in x ==> e !in y
    ensures Distinct(x + y) && forall e :: e in x + y <==> e in x || e in y
  {
    forall i, j | 0 <= i < j < |x + y| ensures (x + y)[i] != (x + y)[j] {
      if i < |x| <= j {
        assert (x + y)[i] in x && (x + y)[j] in y;
      }
    }
  }

  /** The answer to the current load: a `create`, and an `open` of something stored,
      make the document ready with the writer that was found, and the store hears
      what was. */
  lemma LoadedIsReady(compat: Compat, m: LifecycleModel, d: DocId, gen: Generation, outcome: LoadOutcome, writer: Option<PeerId>)
    requires IsLoadingNow(m, d, gen) && (m.docs.items[d].intent.Create? || outcome.FoundStored?)
    ensures var step, held := Update(compat, Loaded(d, gen, outcome, writer), m), m.docs.items[d].held;
      && Becomes(step, d, Ready(held, m.hooked, writer))
      && Emits(step, ReadyTells(m, d, held, writer) + StoreHears(d, outcome))
  {
    var held := m.docs.items[d].held;
    ReadyEmits(m, d, held, outcome, writer);
    assert [] + ReadyEffects(m, d, held, outcome, writer) == ReadyEffects(m, d, held, outcome, writer);
  }

  /** An `open` for which nothing stored was found ends its instance and puts back
      what it replaced; a document that had been stored is reported destroyed. */
  lemma LoadedIsUndone(compat: Compat, m: LifecycleModel, d: DocId, gen: Generation, outcome: LoadOutcome, writer: Option<PeerId>)
    requires IsLoadingNow(m, d, gen) && m.docs.items[d].intent.Open? && !outcome.FoundStored?
    ensures var step, replaced := Update(compat, Loaded(d, gen, outcome, writer), m), m.docs.items[d].intent.replaced;
      Undone(step, d, gen, replaced, {})
  {
    UndoneEmits(d, gen, m.docs.items[d].intent);
  }

  lemma UndoneEmits(d: DocId, gen: Generation, intent: Intent)
    requires intent.Open?
    ensures var es := UndoneEffects(d, gen, intent);
      && Distinct(es) && [] + es == es && (forall e :: e in es ==> !e.Build? && !e.Interpreted?)
      && forall e :: e in es <==> e in {Close(d, gen, ByDisposal, HasFailed(NOT_HELD_ERROR)), Dispose(d, gen, ByDisposal)}
                                      + (if intent.replaced.UnloadedReplaced? then {Notify(d, WasDestroyed)} else {})
  {
  }

  /** A load that fails leaves the document failed, with the error; a load that is
      not the current one changes nothing. */
  lemma LoadFailsIsFailed(compat: Compat, m: LifecycleModel, d: DocId, gen: Generation, error: string)
    ensures IsLoadingNow(m, d, gen) ==>
      Becomes(Update(compat, LoadFailed(d, gen, error), m), d, Failed(m.docs.items[d].held, error))
      && Update(compat, LoadFailed(d, gen, error), m).effects == []
    ensures !IsLoadingNow(m, d, gen) ==> DoesNothing(m, Update(compat, LoadFailed(d, gen, error), m))
    ensures !IsLoadingNow(m, d, gen) ==>
      forall outcome, writer :: DoesNothing(m, Update(compat, Loaded(d, gen, outcome, writer), m))
  {
  }

  // ---------------------------------------------------------------------
  // A new instance
  // ---------------------------------------------------------------------

  /** What an `open` leaves that found nothing: what it replaced is put back, and a
      document that had been stored is reported destroyed. */
  ghost predicate Undone(step: Step, d: DocId, gen: Generation, replaced: Replaced, built: set<Effect>) {
    && step.model.Entry(d) == (if replaced.DeferredReplaced? then Some(Deferred) else None)
    && Emits(step, built + {Close(d, gen, ByDisposal, HasFailed(NOT_HELD_ERROR)), Dispose(d, gen, ByDisposal)}
                   + (if replaced.UnloadedReplaced? then {Notify(d, WasDestroyed)} else {}))
  }

  /** The document gets a new instance: it loads if there is a store to load from and
      no replica to promote; otherwise a `create` is ready at once, and an `open` has
      found nothing. */
  ghost predicate GetsInstance(m: LifecycleModel, step: Step, d: DocId, spec: BuildSpec, suspended: bool, intent: Intent, writer: Option<PeerId>) {
    var held := Held(m.nextGen, spec, suspended);
    var built := Built(d, m.nextGen, spec);
    if Persists(m, spec.MetadataOf().syncMode) && !(spec.Interpret? && spec.from.Promote?) then
      Becomes(step, d, Loading(held, intent)) && Emits(step, built + {Load(d, m.nextGen)})
    else if intent.Create? then
      Becomes(step, d, Ready(held, m.hooked, writer)) && Emits(step, built + ReadyTells(m, d, held, writer))
    else
      Undone(step, d, m.nextGen, intent.replaced, built)
  }

  lemma BeginGets(m: LifecycleModel, d: DocId, spec: BuildSpec, suspended: bool, intent: Intent, writer: Option<PeerId>)
    ensures GetsInstance(m, Begin(m, d, spec, suspended, intent, writer), d, spec, suspended, intent, writer)
  {
    hide ReadyEffects, ReadyTells, BuildPrefix, UndoneEffects, Emits;
    var held, issued := Held(m.nextGen, spec, suspended), m.(nextGen := m.nextGen + 1);
    var prefix := BuildPrefix(d, m.nextGen, spec);
    if Persists(m, spec.MetadataOf().syncMode) && !(spec.Interpret? && spec.from.Promote?) {
      ThenLoads(d, m.nextGen, spec, issued.Put(d, Loading(held, intent)));
    } else if intent.Create? {
      ThenReady(m, issued, d, held, writer, issued.Put(d, Ready(held, m.hooked, writer)));
    } else {
      ThenUndone(d, m.nextGen, spec, intent, Begin(m, d, spec, suspended, intent, writer).model);
    }
  }

  function Built(d: DocId, gen: Generation, spec: BuildSpec): set<Effect> {
    {Build(d, gen, spec)} + (if spec.Interpret? then {Interpreted(d, gen)} else {})
  }

  lemma ThenLoads(d: DocId, gen: Generation, spec: BuildSpec, m: LifecycleModel)
    ensures Emits(Step(m, BuildPrefix(d, gen, spec) + [Load(d, gen)]), Built(d, gen, spec) + {Load(d, gen)})
  {
    PrefixEmits(d, gen, spec);
    AppendDistinct(BuildPrefix(d, gen, spec), [Load(d, gen)]);
  }

  lemma ThenReady(m: LifecycleModel, issued: LifecycleModel, d: DocId, held: Held, writer: Option<PeerId>, after: LifecycleModel)
    requires m.hooked == issued.hooked
    ensures Emits(Step(after, BuildPrefix(d, held.gen, held.spec) + ReadyEffects(issued, d, held, FoundNone, writer)),
                  Built(d, held.gen, held.spec) + ReadyTells(m, d, held, writer))
  {
    hide ReadyEffects, ReadyTells, BuildPrefix;
    PrefixEmits(d, held.gen, held.spec);
    ReadyEmits(issued, d, held, FoundNone, writer);
    ReadyApart(issued, d, held, writer);
    SameHooks(m, issued, d, held, writer);
    AppendDistinct(BuildPrefix(d, held.gen, held.spec), ReadyEffects(issued, d, held, FoundNone, writer));
  }

  lemma ThenUndone(d: DocId, gen: Generation, spec: BuildSpec, intent: Intent, after: LifecycleModel)
    requires intent.Open?
    ensures Emits(Step(after, BuildPrefix(d, gen, spec) + UndoneEffects(d, gen, intent)),
                  Built(d, gen, spec) + {Close(d, gen, ByDisposal, HasFailed(NOT_HELD_ERROR)), Dispose(d, gen, ByDisposal)}
                  + (if intent.replaced.UnloadedReplaced? then {Notify(d, WasDestroyed)} else {}))
  {
    hide BuildPrefix, UndoneEffects;
    PrefixEmits(d, gen, spec);
    UndoneEmits(d, gen, intent);
    AppendDistinct(BuildPrefix(d, gen, spec), UndoneEffects(d, gen, intent));
  }

  lemma SameHooks(m: LifecycleModel, m': LifecycleModel, d: DocId, held: Held, writer: Option<PeerId>)
    requires m.hooked == m'.hooked
    ensures ReadyTells(m, d, held, writer) == ReadyTells(m', d, held, writer)
  {
  }

  lemma PrefixEmits(d: DocId, gen: Generation, spec: BuildSpec)
    ensures var es := BuildPrefix(d, gen, spec);
      && Distinct(es) && (forall e :: e in es ==> e.Build? || e.Interpreted?)
      && forall e :: e in es <==> e in Built(d, gen, spec)
  {
  }

  lemma ReadyApart(m: LifecycleModel, d: DocId, held: Held, writer: Option<PeerId>)
    ensures forall e :: e in ReadyTells(m, d, held, writer) + StoreHears(d, FoundNone) <==> e in ReadyTells(m, d, held, writer)
    ensures forall e :: e in ReadyTells(m, d, held, writer) ==> !e.Build? && !e.Interpreted?
  {
  }

  /** Replicating a document nobody holds gives it a replica, suspended if an unloaded
      one was; a held one, and an unloaded interpreted one, are left alone. */
  lemma ReplicateReplicates(compat: Compat, m: LifecycleModel, d: DocId, factoryType: string, mode: SyncMode, hash: string)
    ensures var step, entry := Update(compat, ReplicateDoc(d, factoryType, mode, hash), m), m.Entry(d);
      var spec := Replicate(factoryType, mode, hash);
      match entry
      case None => GetsInstance(m, step, d, spec, false, Create, None)
      case Some(Deferred) => GetsInstance(m, step, d, spec, false, Create, None)
      case Some(Unloaded(was, suspended)) =>
        if was.Interpret? then Refuses(m, step, AlreadyHeld(d, InterpretTier)) else GetsInstance(m, step, d, spec, suspended, Create, None)
      case Some(e) => Refuses(m, step, AlreadyHeld(d, if e.held.spec.Interpret? then InterpretTier else ReplicateTier))
  {
    hide GetsInstance, Begin;
    var spec := Replicate(factoryType, mode, hash);
    BeginGets(m, d, spec, false, Create, None);
    if d in m.docs.items && m.docs.items[d].Unloaded? {
      BeginGets(m, d, spec, m.docs.items[d].suspended, Create, None);
    }
  }

  /** An announcement is noted of a document unknown so far, and of no other. */
  lemma DeferDefers(compat: Compat, m: LifecycleModel, d: DocId)
    ensures var step := Update(compat, Defer(d), m);
      if m.Entry(d).None? then Becomes(step, d, Deferred) && step.effects == [] else DoesNothing(m, step)
  {
  }

  /** Reloading brings an unloaded document back from the store, suspended if it was. */
  lemma ReloadReloads(compat: Compat, m: LifecycleModel, d: DocId)
    ensures var step, entry := Update(compat, Reload(d), m), m.Entry(d);
      if entry.Some? && entry.value.Unloaded? then GetsInstance(m, step, d, entry.value.spec.Stored(), entry.value.suspended, Open(UnloadedReplaced), None)
      else DoesNothing(m, step)
  {
    hide GetsInstance, Begin;
    if d in m.docs.items && m.docs.items[d].Unloaded? {
      BeginGets(m, d, m.docs.items[d].spec.Stored(), m.docs.items[d].suspended, Open(UnloadedReplaced), None);
    }
  }

  // ---------------------------------------------------------------------
  // Opening and creating
  // ---------------------------------------------------------------------

  /** Why a schema cannot read the document, if it cannot; nothing is known of one
      that is absent or deferred. */
  function MismatchOf(compat: Compat, bound: BoundSchema, entry: Option<Lifecycle>): Option<string> {
    match entry
    case None => None
    case Some(Deferred) => None
    case Some(Unloaded(spec, _)) => compat(bound, spec.MetadataOf())
    case Some(e) => compat(bound, e.held.spec.MetadataOf())
  }

  function IntentFor(want: DoorIntent, replaced: Replaced): Intent {
    if want.ToCreate? then Create else Open(replaced)
  }

  /** A document nobody holds: it is built, from the store if there is one for it;
      without, only a `create` builds. */
  lemma GetOfNothing(compat: Compat, m: LifecycleModel, d: DocId, bound: BoundSchema, want: DoorIntent)
    requires m.Entry(d).None? || m.Entry(d).value.Deferred?
    ensures var step, stored := Update(compat, Get(d, bound, want), m), Persists(m, bound.metadata.syncMode);
      if want.ToOpen? && !stored then DoesNothing(m, step)
      else GetsInstance(m, step, d, Interpret(bound, if stored then Hydration else Empty), false,
                        IntentFor(want, if m.Entry(d).Some? then DeferredReplaced else NothingReplaced), None)
  {
    hide GetsInstance, Begin;
    var stored := Persists(m, bound.metadata.syncMode);
    BeginGets(m, d, Interpret(bound, if stored then Hydration else Empty), false,
              IntentFor(want, if m.Entry(d).Some? then DeferredReplaced else NothingReplaced), None);
  }

  /** An interpreted document: a schema that cannot read it is refused; otherwise
      nothing happens, but a `create` keeps what an `open` is loading. */
  lemma GetOfInterpreted(compat: Compat, m: LifecycleModel, d: DocId, bound: BoundSchema, want: DoorIntent)
    requires Settled(m.Entry(d)) && m.docs.items[d].held.spec.Interpret?
    ensures var step, entry := Update(compat, Get(d, bound, want), m), m.docs.items[d];
      match MismatchOf(compat, bound, m.Entry(d))
      case Some(mismatch) => Refuses(m, step, Mismatch(d, mismatch))
      case None =>
        if entry.Loading? && entry.intent.Open? && want.ToCreate? then Becomes(step, d, Loading(entry.held, Create)) && step.effects == []
        else DoesNothing(m, step)
  {
  }

  /** A replica is promoted once it has loaded, if the schema can read it; it keeps
      its writer and its suspension. */
  lemma GetOfReplica(compat: Compat, m: LifecycleModel, d: DocId, bound: BoundSchema, want: DoorIntent)
    requires Settled(m.Entry(d)) && m.docs.items[d].held.spec.Replicate?
    ensures var step, entry := Update(compat, Get(d, bound, want), m), m.docs.items[d];
      match entry
      case Loading(_, _) => Refuses(m, step, NotHydrated(d))
      case Failed(_, error) => Refuses(m, step, LoadDidFail(d, error))
      case Ready(held, _, writer) =>
        (match MismatchOf(compat, bound, m.Entry(d))
         case Some(mismatch) => Refuses(m, step, Mismatch(d, mismatch))
         case None => GetsInstance(m, step, d, Interpret(bound, Promote(held.gen)), held.suspended, Create, writer))
  {
    hide GetsInstance, Begin;
    var entry := m.docs.items[d];
    if entry.Ready? {
      BeginGets(m, d, Interpret(bound, Promote(entry.held.gen)), entry.held.suspended, Create, entry.writer);
    }
  }

  /** A document only the store holds all of is loaded again under the schema, if it
      can read it; an instance still leaving departs meanwhile. */
  lemma GetOfStored(compat: Compat, m: LifecycleModel, d: DocId, bound: BoundSchema, want: DoorIntent)
    requires IsStored(m.Entry(d)) && !LifecycleDoors.Storing(m.Entry(d))
    ensures var step, entry := Update(compat, Get(d, bound, want), m), m.docs.items[d];
      match MismatchOf(compat, bound, m.Entry(d))
      case Some(mismatch) => Refuses(m, step, Mismatch(d, mismatch))
      case None =>
        && GetsInstance(m, step, d, Interpret(bound, Hydration), SuspensionOf(m.Entry(d)).value, IntentFor(want, UnloadedReplaced), None)
        && step.model.departing.items == (if entry.Unloading? then m.departing.items[entry.held.gen := d] else m.departing.items)
  {
    hide GetsInstance, Begin;
    var entry := m.docs.items[d];
    var m0 := Recorded(m, d, DepartingOf(entry));
    var suspended, intent := SuspensionOf(m.Entry(d)).value, IntentFor(want, UnloadedReplaced);
    BeginGets(m0, d, Interpret(bound, Hydration), suspended, intent, None);
    SameWithDeparting(m, m0, Begin(m0, d, Interpret(bound, Hydration), suspended, intent, None), d, bound, suspended, intent);
    KeepsDeparting(m0, d, Interpret(bound, Hydration), suspended, intent, None);
  }

  lemma SameWithDeparting(m: LifecycleModel, m0: LifecycleModel, step: Step, d: DocId, bound: BoundSchema, suspended: bool, intent: Intent)
    requires m0.nextGen == m.nextGen && m0.hooked == m.hooked && m0.hasStore == m.hasStore
    requires GetsInstance(m0, step, d, Interpret(bound, Hydration), suspended, intent, None)
    ensures GetsInstance(m, step, d, Interpret(bound, Hydration), suspended, intent, None)
  {
    SameHooks(m, m0, d, Held(m.nextGen, Interpret(bound, Hydration), suspended), None);
  }

  lemma KeepsDeparting(m: LifecycleModel, d: DocId, spec: BuildSpec, suspended: bool, intent: Intent, writer: Option<PeerId>)
    ensures Begin(m, d, spec, suspended, intent, writer).model.departing == m.departing
  {
    hide ReadyEffects, BuildPrefix, UndoneEffects;
  }

  // ---------------------------------------------------------------------
  // Unloading
  // ---------------------------------------------------------------------

  /** A ready document that the store keeps starts to unload: what a native document
      holds is drained, a registered one in the sync graph starts to leave, and the
      store is told of the advance and asked for the release, in this order. Any other
      says why not, or is on its way already. */
  lemma UnloadUnloads(compat: Compat, m: LifecycleModel, d: DocId)
    ensures var step := Update(compat, Unload(d), m);
      match m.Entry(d)
      case Some(Ready(held, registered, writer)) =>
        if !Persists(m, held.spec.MetadataOf().syncMode) then Refuses(m, step, NotStored(d))
        else
          && Becomes(step, d, Unloading(held, Storing, registered, writer))
          && Emits(step, {Store(StoreAdvanced(d)), Store(StoreRelease(d, held.gen))}
                         + (if held.spec.Interpret? then {Drain(d, held.gen)} else {})
                         + (if registered && !held.suspended then {LeavingGraph(d, true)} else {}))
          && |step.effects| >= 2 && step.effects[|step.effects| - 2] == Store(StoreAdvanced(d))
          && step.effects[|step.effects| - 1] == Store(StoreRelease(d, held.gen))
          && (held.spec.Interpret? ==> step.effects[0] == Drain(d, held.gen))
      case Some(Loading(_, _)) => Refuses(m, step, NotHydrated(d))
      case Some(Failed(_, error)) => Refuses(m, step, LoadDidFail(d, error))
      case Some(Unloading(_, _, _, _)) => DoesNothing(m, step)
      case Some(Unloaded(_, _)) => DoesNothing(m, step)
      case _ => Refuses(m, step, NotHeld(d, UnloadDoor, PhaseOf(m.Entry(d))))
  {
  }

  /** The unload the store has released goes on: a registered instance closes and
      leaves the graph, any other is disposed. A document that is ready again hands
      the release back; to any other it says nothing. */
  lemma ReleasedGoesOn(compat: Compat, m: LifecycleModel, d: DocId, gen: Generation, version: string)
    ensures var step, entry := Update(compat, Released(d, gen, version), m), m.Entry(d);
      if LifecycleDoors.Storing(entry) && entry.value.held.gen == gen then
        if entry.value.registered then
          Becomes(step, d, Unloading(entry.value.held, Leaving, true, entry.value.writer))
          && step.effects == [Close(d, gen, ByUnload, IsLoaded), Leave(d, gen)]
        else
          Becomes(step, d, Unloaded(entry.value.held.spec.Stored(), entry.value.held.suspended))
          && step.effects == [Close(d, gen, ByUnload, IsLoaded), Dispose(d, gen, ByUnload)]
      else if entry.Some? && entry.value.Ready? then step.model == m && step.effects == [Store(StoreHydrated(d, version))]
      else DoesNothing(m, step)
  {
  }

  /** An instance that has left is disposed: the document's own, which is then
      unloaded, or one that departed. */
  lemma LeftIsDisposed(compat: Compat, m: LifecycleModel, d: DocId, gen: Generation)
    requires m.docs.Valid() && m.departing.Valid()
    ensures var step, entry := Update(compat, Left(d, gen), m), m.Entry(d);
      if entry.Some? && IsLeaving(entry.value) && entry.value.held.gen == gen then
        Becomes(step, d, Unloaded(entry.value.held.spec.Stored(), entry.value.held.suspended)) && step.effects == [Dispose(d, gen, ByUnload)]
      else if gen in m.departing.items then
        step.model.docs == m.docs && step.model.departing.items == m.departing.items - {gen} && step.effects == [Dispose(d, gen, ByUnload)]
      else DoesNothing(m, step)
  {
  }

  // ---------------------------------------------------------------------
  // Destroying and closing
  // ---------------------------------------------------------------------

  /** How an instance ends: it is closed, unless a release already did, and disposed. */
  function Ends(d: DocId, entry: Lifecycle, reason: ClosedReason): set<Effect>
    requires entry.IsHeld()
  {
    (if IsLeaving(entry) then {} else {Close(d, entry.held.gen, reason, HydrationOf(entry))}) + {Dispose(d, entry.held.gen, reason)}
  }

  /** A destroyed document is gone, its instance ended. The store deletes it unless it
      is known never to have been stored, and the hook is told. */
  lemma DestroyDestroys(compat: Compat, m: LifecycleModel, d: DocId)
    requires m.docs.Valid()
    ensures var step, entry := Update(compat, Destroy(d), m), m.Entry(d);
      && step.model.Entry(d) == None
      && Emits(step, {Notify(d, WasDestroyed)}
          + (if entry.Some? && entry.value.IsHeld() then Ends(d, entry.value, ByDestroy) else {})
          + (if entry.Some? && entry.value.IsHeld() && !Persists(m, entry.value.held.spec.MetadataOf().syncMode) then {} else {Store(StoreDestroy(d))}))
  {
    hide HydrationOf, Without;
  }

  lemma {:induction false} ClosedAre(m: LifecycleModel, keys: seq<DocId>, reason: ClosedReason, e: Effect)
    ensures e in CloseDocs(m.docs, keys, reason) <==> exists d :: d in keys && d in m.docs.items && m.docs.items[d].IsHeld() && e in Ends(d, m.docs.items[d], reason)
  {
    if keys != [] {
      var init, last := keys[..|keys| - 1], keys[|keys| - 1];
      ClosedAre(m, init, reason, e);
      assert keys == init + [last];
      if last in m.docs.items && m.docs.items[last].IsHeld() {
        assert e in End(last, m.docs.items[last], reason) <==> e in Ends(last, m.docs.items[last], reason);
      }
    }
  }

  lemma {:induction false} DisposedAre(m: LifecycleModel, gens: seq<Generation>, reason: ClosedReason, e: Effect)
    ensures e in DisposeDeparting(m.departing, gens, reason)
      <==> exists g :: g in gens && g in m.departing.items && e == Dispose(m.departing.items[g], g, reason)
  {
    if gens != [] {
      DisposedAre(m, gens[..|gens| - 1], reason, e);
      assert gens == gens[..|gens| - 1] + [gens[|gens| - 1]];
    }
  }

  ghost predicate EndsSomeDocument(m: LifecycleModel, reason: ClosedReason, e: Effect) {
    exists d :: d in m.docs.items && m.docs.items[d].IsHeld() && e in Ends(d, m.docs.items[d], reason)
  }

  ghost predicate DisposesDeparting(m: LifecycleModel, reason: ClosedReason, e: Effect) {
    exists g :: g in m.departing.items && e == Dispose(m.departing.items[g], g, reason)
  }

  /** Closing everything ends every held instance and disposes of every departing one;
      nothing is left. */
  lemma CloseAllCloses(compat: Compat, m: LifecycleModel, reason: ClosedReason)
    requires Good(m)
    ensures var step := Update(compat, CloseAll(reason), m);
      && step.model.docs.items == map[] && step.model.departing.items == map[]
      && forall e :: e in step.effects <==> EndsSomeDocument(m, reason, e) || DisposesDeparting(m, reason, e)
  {
    hide Ends;
    forall e ensures e in CloseEverything(m, reason).effects <==> EndsSomeDocument(m, reason, e) || DisposesDeparting(m, reason, e) {
      ClosedAre(m, m.docs.keys, reason, e);
      DisposedAre(m, m.departing.keys, reason, e);
    }
  }

  /** Once hooks are set exactly the ready documents not yet registered register, with
      their suspension, and every ready one counts as registered. */
  lemma HookedRegisters(compat: Compat, m: LifecycleModel)
    requires Good(m)
    ensures var step := Update(compat, Hooked, m);
      && step.model.hooked && step.model.docs.items.Keys == m.docs.items.Keys
      && (forall d :: d in m.docs.items ==>
            step.model.docs.items[d] == match m.docs.items[d] case Ready(held, _, writer) => Ready(held, true, writer) case e => e)
      && forall e :: e in step.effects <==> RegistersNow(m, e)
  {
    forall e ensures e in HookedEffects(m.docs, m.docs.keys) <==> RegistersNow(m, e) {
      HooksAre(m, m.docs.keys, e);
    }
  }

  ghost predicate RegistersNow(m: LifecycleModel, e: Effect) {
    exists d :: d in m.docs.items && AwaitsHooks(m.docs.items[d]) && e == Register(d, m.docs.items[d].held.gen, m.docs.items[d].held.suspended)
  }

  predicate AwaitsHooks(entry: Lifecycle) {
    entry.Ready? && !entry.registered
  }

  lemma {:induction false} HooksAre(m: LifecycleModel, keys: seq<DocId>, e: Effect)
    ensures e in HookedEffects(m.docs, keys)
      <==> exists d :: d in keys && d in m.docs.items && AwaitsHooks(m.docs.items[d]) && e == Register(d, m.docs.items[d].held.gen, m.docs.items[d].held.suspended)
  {
    if keys != [] {
      HooksAre(m, keys[..|keys| - 1], e);
      assert keys == keys[..|keys| - 1] + [keys[|keys| - 1]];
    }
  }

  // ---------------------------------------------------------------------
  // There and back
  // ---------------------------------------------------------------------

  /** A ready document unloaded, released, left and loaded again is ready with a new
      instance, built from the store, and as suspended as it was. */
  lemma ThereAndBack(compat: Compat, m: LifecycleModel, d: DocId, version: string, writer: Option<PeerId>)
    requires Good(m) && d in m.docs.items && m.docs.items[d].Ready? && Persists(m, m.docs.items[d].held.spec.MetadataOf().syncMode)
    ensures var held, n := m.docs.items[d].held, m.nextGen;
      Run(compat, m, [Unload(d), Released(d, held.gen, version), Left(d, held.gen), Reload(d), Loaded(d, n, FoundStored(version), writer)]).model.Entry(d)
      == Some(Ready(Held(n, held.spec.Stored(), held.suspended), m.hooked, writer))
  {
    hide Update, Run, Emits;
    var entry, n := m.docs.items[d], m.nextGen;
    var held := entry.held;
    var inputs: seq<Input> := [Unload(d), Released(d, held.gen, version), Left(d, held.gen), Reload(d), Loaded(d, n, FoundStored(version), writer)];
    FiveSteps(compat, m, inputs);
    var m3 := ThenUnloaded(compat, m, d, version);
    StoredKeepsMode(held.spec);
    ReloadLoads(compat, m3, d);
    LoadedIsReady(compat, Update(compat, Reload(d), m3).model, d, n, FoundStored(version), writer);
  }

  /** A model that differs in documents and departing instances only. */
  predicate SameStanding(m: LifecycleModel, m': LifecycleModel) {
    m'.nextGen == m.nextGen && m'.hooked == m.hooked && m'.hasStore == m.hasStore
  }

  lemma StandingStays(compat: Compat, m: LifecycleModel, d: DocId, gen: Generation, version: string)
    ensures SameStanding(m, Update(compat, Unload(d), m).model) && SameStanding(m, Update(compat, Released(d, gen, version), m).model)
    ensures SameStanding(m, Update(compat, Left(d, gen), m).model)
  {
  }

  /** Unloaded, released and left: the document is unloaded, whether it was registered
      or not. */
  lemma ThenUnloaded(compat: Compat, m: LifecycleModel, d: DocId, version: string) returns (m3: LifecycleModel)
    requires Good(m) && d in m.docs.items && m.docs.items[d].Ready? && Persists(m, m.docs.items[d].held.spec.MetadataOf().syncMode)
    ensures var held := m.docs.items[d].held;
      && m3 == Update(compat, Left(d, held.gen), Update(compat, Released(d, held.gen, version), Update(compat, Unload(d), m).model).model).model
      && m3.Entry(d) == Some(Unloaded(held.spec.Stored(), held.suspended)) && SameStanding(m, m3)
  {
    hide Update, Emits;
    var gen := m.docs.items[d].held.gen;
    var m1 := Update(compat, Unload(d), m).model;
    var m2 := Update(compat, Released(d, gen, version), m1).model;
    m3 := Update(compat, Left(d, gen), m2).model;
    assert HeldAt(m, d, gen);
    UnloadUnloads(compat, m, d);
    ReleasedGoesOn(compat, m1, d, gen, version);
    UpdateKeeps(compat, Unload(d), m);
    UpdateKeeps(compat, Released(d, gen, version), m1);
    StandingStays(compat, m, d, gen, version);
    StandingStays(compat, m1, d, gen, version);
    StandingStays(compat, m2, d, gen, version);
    LeftIsDisposed(compat, m2, d, gen);
  }

  lemma StoredKeepsMode(spec: BuildSpec)
    ensures spec.Stored().MetadataOf() == spec.MetadataOf() && spec.Stored().Stored() == spec.Stored() && !(spec.Stored().Interpret? && spec.Stored().from.Promote?)
  {
  }

  lemma ReloadLoads(compat: Compat, m: LifecycleModel, d: DocId)
    requires d in m.docs.items && m.docs.items[d].Unloaded? && Persists(m, m.docs.items[d].spec.MetadataOf().syncMode)
    ensures var step, entry := Update(compat, Reload(d), m), m.docs.items[d];
      && Becomes(step, d, Loading(Held(m.nextGen, entry.spec.Stored().Stored(), entry.suspended), Open(UnloadedReplaced)))
      && step.model.hooked == m.hooked
  {
    StoredKeepsMode(m.docs.items[d].spec);
  }

  lemma FiveSteps(compat: Compat, m: LifecycleModel, inputs: seq<Input>)
    requires |inputs| == 5
    ensures Run(compat, m, inputs).model
      == Update(compat, inputs[4], Update(compat, inputs[3], Update(compat, inputs[2], Update(compat, inputs[1],
                Update(compat, inputs[0], m).model).model).model).model).model
  {
    hide Update;
    assert inputs[..4][..3] == inputs[..3] && inputs[..3][..2] == inputs[..2] && inputs[..2][..1] == inputs[..1] && inputs[..1][..0] == [];
    assert Run(compat, m, inputs[..1]).model == Update(compat, inputs[0], m).model;
    assert Run(compat, m, inputs[..2]).model == Update(compat, inputs[1], Run(compat, m, inputs[..1]).model).model;
    assert Run(compat, m, inputs[..3]).model == Update(compat, inputs[2], Run(compat, m, inputs[..2]).model).model;
    assert Run(compat, m, inputs[..4]).model == Update(compat, inputs[3], Run(compat, m, inputs[..3]).model).model;
  }
}
