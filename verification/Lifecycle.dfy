/** The lifecycle of a document, as one table: every request and every
    completion is answered in every phase
    (packages/exchange/src/lifecycle-program.ts, interpret.ts). */
module Lifecycles {
  import opened Prelude
  import opened OrderedMaps

  type DocId = string
  type PeerId = string
  type Generation = nat

  datatype Tier = InterpretTier | ReplicateTier

  /** Other fields of a sync mode play no part here. */
  datatype SyncMode = SyncMode(persistent: bool)

  datatype Metadata = Metadata(replicaType: string, syncMode: SyncMode, schemaHash: string)

  /** A schema a caller reads a document with, known by a name. */
  datatype BoundSchema = BoundSchema(name: string, metadata: Metadata)

  /** Why the schema cannot read a document, if it cannot. The comparison itself
      is not part of this model. */
  type Compat = (BoundSchema, Metadata) -> Option<string>

  datatype Replaced = NothingReplaced | DeferredReplaced | UnloadedReplaced

  datatype Intent = Create | Open(replaced: Replaced)

  datatype DoorIntent = ToCreate | ToOpen

  datatype From = Hydration | Empty | Promote(gen: Generation)

  datatype BuildSpec =
    | Interpret(bound: BoundSchema, from: From)
    | Replicate(factoryType: string, syncMode: SyncMode, schemaHash: string)
  {
    function TierOf(): Tier {
      if Interpret? then InterpretTier else ReplicateTier
    }

    function MetadataOf(): Metadata {
      match this
      case Interpret(bound, _) => bound.metadata
      case Replicate(factoryType, mode, hash) => Metadata(factoryType, mode, hash)
    }

    /** What builds the document again from the store. */
    function Stored(): BuildSpec {
      match this
      case Interpret(bound, _) => Interpret(bound, Hydration)
      case Replicate(_, _, _) => this
    }
  }

  datatype Held = Held(gen: Generation, spec: BuildSpec, suspended: bool)

  datatype Stage = Storing | Leaving

  /** Absent is the absence of an entry. */
  datatype Lifecycle =
    | Deferred
    | Loading(held: Held, intent: Intent)
    | Ready(held: Held, registered: bool, writer: Option<PeerId>)
    | Failed(held: Held, error: string)
    | Unloading(held: Held, stage: Stage, registered: bool, writer: Option<PeerId>)
    | Unloaded(spec: BuildSpec, suspended: bool)
  {
    predicate IsHeld() {
      Loading? || Ready? || Failed? || Unloading?
    }
  }

  datatype LifecycleModel = LifecycleModel(
    docs: OrderedMap<DocId, Lifecycle>,
    departing: OrderedMap<Generation, DocId>,
    nextGen: Generation,
    hooked: bool,
    hasStore: bool)
  {
    function Entry(docId: DocId): Option<Lifecycle> {
      if docId in docs.items then Some(docs.items[docId]) else None
    }

    function Put(docId: DocId, entry: Lifecycle): LifecycleModel {
      this.(docs := docs.Put(docId, entry))
    }

    function Remove(docId: DocId): LifecycleModel {
      if docId in docs.items then this.(docs := docs.Delete(docId)) else this
    }

    /** Will a document of this sync mode ever reach a store? */
    predicate StoredOf(mode: SyncMode) {
      hasStore && mode.persistent
    }
  }

  function InitialLifecycle(hasStore: bool): LifecycleModel {
    LifecycleModel(OrderedMap([], map[]), OrderedMap([], map[]), 0, false, hasStore)
  }

  // ---------------------------------------------------------------------
  // Inputs and effects
  // ---------------------------------------------------------------------

  datatype LoadOutcome = FoundStored(version: string) | FoundEmpty | FoundNone

  datatype ClosedReason = ByReset | ByShutdown | ByDestroy | ByUnload | ByDisposal

  datatype Input =
    | Get(docId: DocId, bound: BoundSchema, want: DoorIntent)
    | ReplicateDoc(docId: DocId, factoryType: string, syncMode: SyncMode, schemaHash: string)
    | Defer(docId: DocId)
    | Destroy(docId: DocId)
    | Suspend(docId: DocId)
    | Resume(docId: DocId)
    | Unload(docId: DocId)
    | Reload(docId: DocId)
    | Hooked
    | CloseAll(reason: ClosedReason)
    | Loaded(docId: DocId, gen: Generation, outcome: LoadOutcome, writer: Option<PeerId>)
    | LoadFailed(docId: DocId, gen: Generation, error: string)
    | Released(docId: DocId, gen: Generation, version: string)
    | Left(docId: DocId, gen: Generation)

  datatype Hydrated = IsLoaded | IsPending | HasFailed(error: string)

  datatype HeldDoor = SuspendDoor | ResumeDoor | UnloadDoor

  datatype DocPhase = AbsentPhase | InterpretPhase | ReplicatePhase | DeferredPhase | UnloadedPhase

  datatype Refusal =
    | NotHydrated(docId: DocId)
    | LoadDidFail(docId: DocId, error: string)
    | Mismatch(docId: DocId, mismatch: string)
    | NotHeld(docId: DocId, door: HeldDoor, phase: DocPhase)
    | NotSuspended(docId: DocId)
    | AlreadyHeld(docId: DocId, tier: Tier)
    | NotStored(docId: DocId)
    | InUnload(docId: DocId, door: HeldDoor)

  datatype StoreInput =
    | StoreHydrated(docId: DocId, version: string)
    | StoreRegister(docId: DocId)
    | StoreKeep(docId: DocId)
    | StoreAdvanced(docId: DocId)
    | StoreRelease(docId: DocId, gen: Generation)
    | StoreDestroy(docId: DocId)

  datatype Hook = WasDestroyed | WasSuspended | WasResumed

  datatype Effect =
    | Refuse(refusal: Refusal)
    | Build(docId: DocId, gen: Generation, spec: BuildSpec)
    | Interpreted(docId: DocId, gen: Generation)
    | Load(docId: DocId, gen: Generation)
    | Adopt(docId: DocId, gen: Generation, writer: Option<PeerId>)
    | Store(input: StoreInput)
    | Register(docId: DocId, gen: Generation, suspended: bool)
    | Wire(docId: DocId, gen: Generation)
    | Drain(docId: DocId, gen: Generation)
    | LeavingGraph(docId: DocId, on: bool)
    | Leave(docId: DocId, gen: Generation)
    | Close(docId: DocId, gen: Generation, reason: ClosedReason, hydration: Hydrated)
    | Dispose(docId: DocId, gen: Generation, reason: ClosedReason)
    | Notify(docId: DocId, hook: Hook)

  datatype Step = Step(model: LifecycleModel, effects: seq<Effect>)

  const NOT_HELD_ERROR: string := "NotHeldError"

  // ---------------------------------------------------------------------
  // What a door should do about a document
  // ---------------------------------------------------------------------

  datatype LoadStatus = NoLoad | LoadIs(hydration: Hydrated)

  datatype Action =
    | ReturnCached
    | CreateDoc
    | PromoteDoc
    | LoadDoc
    | RefuseMismatch(mismatch: string)
    | RefuseNotHydrated
    | RefuseLoadFailed(error: string)

  /** Being open is no exemption from being readable; a replica that has not
      loaded is told so before anything is said about the schema. */
  function PlanInterpretation(compat: Compat, phase: DocPhase, reader: BoundSchema, doc: Option<Metadata>, hydration: LoadStatus): Action {
    var mismatch := if doc.Some? then compat(reader, doc.value) else None;
    match phase
    case AbsentPhase => CreateDoc
    case InterpretPhase => if mismatch.Some? then RefuseMismatch(mismatch.value) else ReturnCached
    case ReplicatePhase =>
      if hydration == LoadIs(IsPending) then RefuseNotHydrated
      else if hydration.LoadIs? && hydration.hydration.HasFailed? then RefuseLoadFailed(hydration.hydration.error)
      else if mismatch.Some? then RefuseMismatch(mismatch.value)
      else PromoteDoc
    case DeferredPhase => if mismatch.Some? then RefuseMismatch(mismatch.value) else PromoteDoc
    case UnloadedPhase => if mismatch.Some? then RefuseMismatch(mismatch.value) else LoadDoc
  }

  function PhaseOf(entry: Option<Lifecycle>): DocPhase {
    match entry
    case None => AbsentPhase
    case Some(Deferred) => DeferredPhase
    case Some(Unloaded(_, _)) => UnloadedPhase
    case Some(e) => if e.held.spec.Interpret? then InterpretPhase else ReplicatePhase
  }

  function HydrationOf(entry: Lifecycle): Hydrated {
    match entry
    case Loading(_, _) => IsPending
    case Failed(_, error) => HasFailed(error)
    case _ => IsLoaded
  }

  // ---------------------------------------------------------------------
  // Transitions
  // ---------------------------------------------------------------------

  function Refused(m: LifecycleModel, refusal: Refusal): Step {
    Step(m, [Refuse(refusal)])
  }

  function CloseOf(docId: DocId, entry: Lifecycle, reason: ClosedReason): Effect
    requires entry.IsHeld()
  {
    Close(docId, entry.held.gen, reason, HydrationOf(entry))
  }

  /** End an instance for good: close its ref, unless a release already did,
      then release its memory. */
  function End(docId: DocId, entry: Lifecycle, reason: ClosedReason): seq<Effect>
    requires entry.IsHeld()
  {
    if entry.Unloading? && entry.stage.Leaving? then [Dispose(docId, entry.held.gen, reason)]
    else [CloseOf(docId, entry, reason), Dispose(docId, entry.held.gen, reason)]
  }

  /** Register an instance that is ready, if it is not yet and an Exchange has
      set hooks. */
  function Registration(m: LifecycleModel, docId: DocId, held: Held, registered: bool): seq<Effect> {
    if registered || !m.hooked then [] else [Register(docId, held.gen, held.suspended)]
  }

  /** What the store program learns from a load. */
  function StoreLearns(docId: DocId, outcome: LoadOutcome): seq<Effect> {
    match outcome
    case FoundStored(version) => [Store(StoreHydrated(docId, version))]
    case FoundEmpty => [Store(StoreRegister(docId))]
    case FoundNone => []
  }

  /** End a load, however it ended. An `open` that found nothing ends its instance
      in this one step and puts back what it replaced; otherwise the document is
      ready. */
  function FinishLoad(m: LifecycleModel, docId: DocId, held: Held, intent: Intent, outcome: LoadOutcome,
                      writer: Option<PeerId>, prefix: seq<Effect>): Step {
    if intent.Open? && !outcome.FoundStored? then
      var after := if intent.replaced.DeferredReplaced? then m.Put(docId, Deferred) else m.Remove(docId);
      Step(after,
           prefix + UndoneEffects(docId, held.gen, intent))
    else
      Step(m.Put(docId, Ready(held, m.hooked, writer)), prefix + ReadyEffects(m, docId, held, outcome, writer))
  }

  /** An instance for which nothing was found goes. */
  function UndoneEffects(docId: DocId, gen: Generation, intent: Intent): seq<Effect> {
    [Close(docId, gen, ByDisposal, HasFailed(NOT_HELD_ERROR)), Dispose(docId, gen, ByDisposal)]
    + (if intent.Open? && intent.replaced.UnloadedReplaced? then [Notify(docId, WasDestroyed)] else [])
  }

  /** Claim identity, tell the store program, register, and wire, in this order.
      A replica claims no identity and makes no writes of its own. */
  function ReadyEffects(m: LifecycleModel, docId: DocId, held: Held, outcome: LoadOutcome, writer: Option<PeerId>): seq<Effect> {
    (if held.spec.Interpret? then [Adopt(docId, held.gen, writer)] else [])
    + StoreLearns(docId, outcome)
    + Registration(m, docId, held, false)
    + (if held.spec.Interpret? then [Wire(docId, held.gen)] else [])
  }

  function BuildPrefix(docId: DocId, gen: Generation, spec: BuildSpec): seq<Effect> {
    [Build(docId, gen, spec)] + (if spec.Interpret? then [Interpreted(docId, gen)] else [])
  }

  /** Issue a generation for a new instance and start its load; or, with nothing
      to load, finish it at once. */
  function Begin(m: LifecycleModel, docId: DocId, spec: BuildSpec, suspended: bool, intent: Intent, writer: Option<PeerId>): Step {
    var held := Held(m.nextGen, spec, suspended);
    var issued := m.(nextGen := m.nextGen + 1);
    var loads := m.StoredOf(spec.MetadataOf().syncMode) && !(spec.Interpret? && spec.from.Promote?);
    if loads then
      Step(issued.Put(docId, Loading(held, intent)), BuildPrefix(docId, held.gen, spec) + [Load(docId, held.gen)])
    else
      FinishLoad(issued, docId, held, intent, FoundNone, writer, BuildPrefix(docId, held.gen, spec))
  }

  /** Load a new instance of a document the store holds all of. A departing
      instance is the one leaving meanwhile. */
  function LoadAgain(m: LifecycleModel, docId: DocId, spec: BuildSpec, suspended: bool, want: DoorIntent, departing: Option<Generation>): Step {
    var intent := if want.ToCreate? then Create else Open(UnloadedReplaced);
    var recorded := if departing.None? then m else m.(departing := m.departing.Put(departing.value, docId));
    Begin(recorded, docId, spec.Stored(), suspended, intent, None)
  }

  /** Cancel an unload the store has not released. */
  function Cancel(m: LifecycleModel, docId: DocId, entry: Lifecycle): Step
    requires entry.Unloading?
  {
    var registered := entry.registered || m.hooked;
    Step(m.Put(docId, Ready(entry.held, registered, entry.writer)),
         [Store(StoreKeep(docId))]
         + (if entry.registered && !entry.held.suspended then [LeavingGraph(docId, false)] else [])
         + Registration(m, docId, entry.held, entry.registered))
  }

  predicate BeforeCommit(e: Effect) {
    e.Refuse? || e.Build?
  }

  function Filter(es: seq<Effect>, leading: bool): (r: seq<Effect>)
    ensures |r| <= |es|
  {
    if es == [] then []
    else
      var rest := Filter(es[..|es| - 1], leading);
      if BeforeCommit(es[|es| - 1]) == leading then rest + [es[|es| - 1]] else rest
  }

  function FirstRefusal(es: seq<Effect>): Option<Effect> {
    if es == [] then None
    else if es[0].Refuse? then Some(es[0])
    else FirstRefusal(es[1..])
  }

  /** `then_` run after `first`, as one step: what can fail leads, and a refusal
      discards both. */
  function Sequence(before: LifecycleModel, first: Step, then_: Step): Step {
    match FirstRefusal(then_.effects)
    case Some(refusal) => Step(before, [refusal])
    case None => Step(then_.model, Filter(then_.effects, true) + first.effects + Filter(then_.effects, false))
  }

  function GetDoc(compat: Compat, m: LifecycleModel, docId: DocId, bound: BoundSchema, want: DoorIntent): Step {
    var entry := m.Entry(docId);
    if entry.Some? && entry.value.Unloading? && entry.value.stage.Storing? then
      var cancelled := Cancel(m, docId, entry.value);
      Sequence(m, cancelled, AnswerGet(compat, cancelled.model, docId, bound, want))
    else AnswerGet(compat, m, docId, bound, want)
  }

  /** The answer to a `get` of a document with no unload to cancel. */
  function AnswerGet(compat: Compat, m: LifecycleModel, docId: DocId, bound: BoundSchema, want: DoorIntent): Step {
    var entry := m.Entry(docId);
    var isStored := entry.Some? && (entry.value.Unloaded? || entry.value.Unloading?);
    var isHeld := entry.Some? && !isStored && entry.value.IsHeld();
    var known := if entry.None? || entry.value.Deferred? then None
                 else if entry.value.Unloaded? then Some(entry.value.spec.MetadataOf())
                 else Some(entry.value.held.spec.MetadataOf());
    var action := PlanInterpretation(compat, if isStored then UnloadedPhase else PhaseOf(entry), bound, known,
                                     if isHeld then LoadIs(HydrationOf(entry.value)) else NoLoad);
    match action
    case RefuseMismatch(mismatch) => Refused(m, Mismatch(docId, mismatch))
    case RefuseLoadFailed(error) => Refused(m, LoadDidFail(docId, error))
    case RefuseNotHydrated => Refused(m, NotHydrated(docId))
    case ReturnCached =>
      if entry.Some? && entry.value.Loading? && entry.value.intent.Open? && want.ToCreate?
      then Step(m.Put(docId, entry.value.(intent := Create)), [])
      else Step(m, [])
    case LoadDoc =>
      if !isStored then Step(m, [])
      else
        var suspended := if entry.value.Unloaded? then entry.value.suspended else entry.value.held.suspended;
        LoadAgain(m, docId, Interpret(bound, Hydration), suspended, want,
                  if entry.value.Unloading? then Some(entry.value.held.gen) else None)
    case CreateDoc => CreateOrPromote(m, docId, bound, want)
    case PromoteDoc => CreateOrPromote(m, docId, bound, want)
  }

  /** A ready replica is promoted, keeping its writer and its suspension; anything
      else is made. An `open` that can load nothing builds nothing. */
  function CreateOrPromote(m: LifecycleModel, docId: DocId, bound: BoundSchema, want: DoorIntent): Step {
    var entry := m.Entry(docId);
    if entry.Some? && entry.value.IsHeld() then
      if !entry.value.Ready? then Step(m, [])
      else Begin(m, docId, Interpret(bound, Promote(entry.value.held.gen)), entry.value.held.suspended, Create, entry.value.writer)
    else
      var stored := m.StoredOf(bound.metadata.syncMode);
      if want.ToOpen? && !stored then Step(m, [])
      else
        var intent := if want.ToCreate? then Create
                      else Open(if entry.Some? && entry.value.Deferred? then DeferredReplaced else NothingReplaced);
        Begin(m, docId, Interpret(bound, if stored then Hydration else Empty), false, intent, None)
  }

  function UnloadDoc(m: LifecycleModel, docId: DocId): Step {
    match m.Entry(docId)
    case None => Refused(m, NotHeld(docId, UnloadDoor, AbsentPhase))
    case Some(Deferred) => Refused(m, NotHeld(docId, UnloadDoor, DeferredPhase))
    case Some(Loading(_, _)) => Refused(m, NotHydrated(docId))
    case Some(Failed(_, error)) => Refused(m, LoadDidFail(docId, error))
    case Some(Unloading(_, _, _, _)) => Step(m, [])
    case Some(Unloaded(_, _)) => Step(m, [])
    case Some(Ready(held, registered, writer)) =>
      if !m.StoredOf(held.spec.MetadataOf().syncMode) then Refused(m, NotStored(docId))
      else
        Step(m.Put(docId, Unloading(held, Storing, registered, writer)),
             (if held.spec.Interpret? then [Drain(docId, held.gen)] else [])
             + (if registered && !held.suspended then [LeavingGraph(docId, true)] else [])
             + [Store(StoreAdvanced(docId)), Store(StoreRelease(docId, held.gen))])
  }

  /** The store released the document: the unload of that generation takes it, and
      a document that is ready again hands it back. */
  function ReleasedDoc(m: LifecycleModel, docId: DocId, gen: Generation, version: string): Step {
    match m.Entry(docId)
    case Some(Ready(_, _, _)) => Step(m, [Store(StoreHydrated(docId, version))])
    case Some(Unloading(held, Storing, registered, writer)) =>
      if held.gen != gen then Step(m, [])
      else if registered then
        Step(m.Put(docId, Unloading(held, Leaving, registered, writer)), [Close(docId, gen, ByUnload, IsLoaded), Leave(docId, gen)])
      else
        Step(m.Put(docId, Unloaded(held.spec.Stored(), held.suspended)), [Close(docId, gen, ByUnload, IsLoaded), Dispose(docId, gen, ByUnload)])
    case _ => Step(m, [])
  }

  /** An instance left the sync graph: its replica is disposed. */
  function LeftDoc(m: LifecycleModel, docId: DocId, gen: Generation): Step {
    var entry := m.Entry(docId);
    if entry.Some? && entry.value.Unloading? && entry.value.stage.Leaving? && entry.value.held.gen == gen then
      Step(m.Put(docId, Unloaded(entry.value.held.spec.Stored(), entry.value.held.suspended)), [Dispose(docId, gen, ByUnload)])
    else if gen !in m.departing.items then Step(m, [])
    else Step(m.(departing := m.departing.Delete(gen)), [Dispose(docId, gen, ByUnload)])
  }

  function ReplicateDocument(m: LifecycleModel, docId: DocId, spec: BuildSpec): Step {
    match m.Entry(docId)
    case None => Begin(m, docId, spec, false, Create, None)
    case Some(Deferred) => Begin(m, docId, spec, false, Create, None)
    case Some(Unloaded(unloaded, suspended)) =>
      if unloaded.Interpret? then Refused(m, AlreadyHeld(docId, InterpretTier))
      else Begin(m, docId, spec, suspended, Create, None)
    case Some(entry) => Refused(m, AlreadyHeld(docId, entry.held.spec.TierOf()))
  }

  function DestroyDoc(m: LifecycleModel, docId: DocId): Step {
    var entry := m.Entry(docId);
    var held := entry.Some? && entry.value.IsHeld();
    Step(m.Remove(docId),
         (if held then End(docId, entry.value, ByDestroy) else [])
         + (if !held || m.StoredOf(entry.value.held.spec.MetadataOf().syncMode) then [Store(StoreDestroy(docId))] else [])
         + [Notify(docId, WasDestroyed)])
  }

  function SetSuspended(m: LifecycleModel, docId: DocId, suspended: bool): Step {
    var door := if suspended then SuspendDoor else ResumeDoor;
    match m.Entry(docId)
    case None => Refused(m, NotHeld(docId, door, AbsentPhase))
    case Some(Deferred) => Refused(m, NotHeld(docId, door, DeferredPhase))
    case Some(Unloaded(_, _)) => Refused(m, NotHeld(docId, door, UnloadedPhase))
    case Some(Unloading(_, _, _, _)) => Refused(m, InUnload(docId, door))
    case Some(entry) =>
      if entry.held.suspended == suspended then
        if suspended then Step(m, []) else Refused(m, NotSuspended(docId))
      else
        Step(m.Put(docId, WithSuspended(entry, suspended)), [Notify(docId, if suspended then WasSuspended else WasResumed)])
  }

  function WithSuspended(entry: Lifecycle, suspended: bool): Lifecycle
    requires entry.IsHeld()
  {
    var held := entry.held.(suspended := suspended);
    match entry
    case Loading(_, intent) => Loading(held, intent)
    case Ready(_, registered, writer) => Ready(held, registered, writer)
    case Failed(_, error) => Failed(held, error)
    case Unloading(_, stage, registered, writer) => Unloading(held, stage, registered, writer)
  }

  /** Every ready, unregistered instance among some documents registers. */
  function HookedEffects(docs: OrderedMap<DocId, Lifecycle>, keys: seq<DocId>): seq<Effect> {
    if keys == [] then []
    else
      var docId := keys[|keys| - 1];
      HookedEffects(docs, keys[..|keys| - 1])
      + (if docId in docs.items && docs.items[docId].Ready? && !docs.items[docId].registered
         then [Register(docId, docs.items[docId].held.gen, docs.items[docId].held.suspended)] else [])
  }

  function HookedEntry(entry: Lifecycle): Lifecycle {
    if entry.Ready? then Ready(entry.held, true, entry.writer) else entry
  }

  function HookedAll(m: LifecycleModel): Step {
    Step(m.(docs := OrderedMap(m.docs.keys, map d | d in m.docs.items :: HookedEntry(m.docs.items[d])), hooked := true),
         HookedEffects(m.docs, m.docs.keys))
  }

  function CloseDocs(docs: OrderedMap<DocId, Lifecycle>, keys: seq<DocId>, reason: ClosedReason): seq<Effect> {
    if keys == [] then []
    else
      var docId := keys[|keys| - 1];
      CloseDocs(docs, keys[..|keys| - 1], reason)
      + (if docId in docs.items && docs.items[docId].IsHeld() then End(docId, docs.items[docId], reason) else [])
  }

  function DisposeDeparting(departing: OrderedMap<Generation, DocId>, gens: seq<Generation>, reason: ClosedReason): seq<Effect> {
    if gens == [] then []
    else
      var gen := gens[|gens| - 1];
      DisposeDeparting(departing, gens[..|gens| - 1], reason)
      + (if gen in departing.items then [Dispose(departing.items[gen], gen, reason)] else [])
  }

  function CloseEverything(m: LifecycleModel, reason: ClosedReason): Step {
    Step(m.(docs := OrderedMap([], map[]), departing := OrderedMap([], map[])),
         CloseDocs(m.docs, m.docs.keys, reason) + DisposeDeparting(m.departing, m.departing.keys, reason))
  }

  function Update(compat: Compat, input: Input, m: LifecycleModel): Step {
    match input
    case Get(docId, bound, want) => GetDoc(compat, m, docId, bound, want)
    case ReplicateDoc(docId, factoryType, mode, hash) => ReplicateDocument(m, docId, Replicate(factoryType, mode, hash))
    case Defer(docId) => if docId in m.docs.items then Step(m, []) else Step(m.Put(docId, Deferred), [])
    case Destroy(docId) => DestroyDoc(m, docId)
    case Suspend(docId) => SetSuspended(m, docId, true)
    case Resume(docId) => SetSuspended(m, docId, false)
    case Unload(docId) => UnloadDoc(m, docId)
    case Reload(docId) =>
      if docId in m.docs.items && m.docs.items[docId].Unloaded?
      then LoadAgain(m, docId, m.docs.items[docId].spec, m.docs.items[docId].suspended, ToOpen, None)
      else Step(m, [])
    case Hooked => HookedAll(m)
    case CloseAll(reason) => CloseEverything(m, reason)
    case Loaded(docId, gen, outcome, writer) =>
      if docId in m.docs.items && m.docs.items[docId].Loading? && m.docs.items[docId].held.gen == gen
      then FinishLoad(m, docId, m.docs.items[docId].held, m.docs.items[docId].intent, outcome, writer, [])
      else Step(m, [])
    case LoadFailed(docId, gen, error) =>
      if docId in m.docs.items && m.docs.items[docId].Loading? && m.docs.items[docId].held.gen == gen
      then Step(m.Put(docId, Failed(m.docs.items[docId].held, error)), [])
      else Step(m, [])
    case Released(docId, gen, version) => ReleasedDoc(m, docId, gen, version)
    case Left(docId, gen) => LeftDoc(m, docId, gen)
  }

  /** Every input answered in turn: the model reached, and the effects emitted. */
  function Run(compat: Compat, m: LifecycleModel, inputs: seq<Input>): Step {
    if inputs == [] then Step(m, [])
    else
      var before := Run(compat, m, inputs[..|inputs| - 1]);
      var step := Update(compat, inputs[|inputs| - 1], before.model);
      Step(step.model, before.effects + step.effects)
  }
}
