/** What the doors of the lifecycle restore, keep and leave no trace of. */
module LifecycleDoors {
  import opened Prelude
  import opened OrderedMaps
  import opened Lifecycles
  import opened LifecycleBooks
  import opened LifecycleRuns

  // ---------------------------------------------------------------------
  // A request concerns one document
  // ---------------------------------------------------------------------

  /** The document an effect is for. */
  function EffectDoc(e: Effect): DocId {
    match e
    case Refuse(refusal) => refusal.docId
    case Store(input) => input.docId
    case Build(d, _, _) => d
    case Interpreted(d, _) => d
    case Load(d, _) => d
    case Adopt(d, _, _) => d
    case Register(d, _, _) => d
    case Wire(d, _) => d
    case Drain(d, _) => d
    case LeavingGraph(d, _) => d
    case Leave(d, _) => d
    case Close(d, _, _, _) => d
    case Dispose(d, _, _) => d
    case Notify(d, _) => d
  }

  ghost predicate AboutOnly(es: seq<Effect>, d: DocId) {
    forall e :: e in es ==> EffectDoc(e) == d
  }

  /** Only the entry of `d` may differ, only effects for `d` are emitted, and
      generations are never taken back. */
  ghost predicate Touches(m: LifecycleModel, step: Step, d: DocId) {
    && AboutOnly(step.effects, d)
    && m.nextGen <= step.model.nextGen
    && forall c :: c != d ==> step.model.Entry(c) == m.Entry(c)
  }

  lemma FinishTouches(m: LifecycleModel, d: DocId, held: Held, intent: Intent, outcome: LoadOutcome, writer: Option<PeerId>)
    ensures Touches(m, FinishLoad(m, d, held, intent, outcome, writer, []), d)
  {
    AboutReady(m, d, held, outcome, writer);
  }

  lemma AboutReady(m: LifecycleModel, d: DocId, held: Held, outcome: LoadOutcome, writer: Option<PeerId>)
    ensures AboutOnly(ReadyEffects(m, d, held, outcome, writer), d)
  {
  }

  lemma BeginTouches(m: LifecycleModel, d: DocId, spec: BuildSpec, suspended: bool, intent: Intent, writer: Option<PeerId>)
    ensures Touches(m, Begin(m, d, spec, suspended, intent, writer), d)
  {
    var held, issued := Held(m.nextGen, spec, suspended), m.(nextGen := m.nextGen + 1);
    FinishTouches(issued, d, held, intent, FoundNone, writer);
    FinishPrefix(issued, d, held, intent, FoundNone, writer, BuildPrefix(d, held.gen, spec));
    assert AboutOnly(BuildPrefix(d, held.gen, spec), d);
    assert FinishLoad(issued, d, held, intent, FoundNone, writer, BuildPrefix(d, held.gen, spec)).model
        == FinishLoad(issued, d, held, intent, FoundNone, writer, []).model;
  }

  lemma CreateOrPromoteTouches(m: LifecycleModel, d: DocId, bound: BoundSchema, want: DoorIntent)
    ensures Touches(m, CreateOrPromote(m, d, bound, want), d)
  {
    var entry := m.Entry(d);
    if entry.Some? && entry.value.IsHeld() {
      if entry.value.Ready? {
        BeginTouches(m, d, Interpret(bound, Promote(entry.value.held.gen)), entry.value.held.suspended, Create, entry.value.writer);
      }
    } else {
      var stored := m.StoredOf(bound.metadata.syncMode);
      var intent := if want.ToCreate? then Create
                    else Open(if entry.Some? && entry.value.Deferred? then DeferredReplaced else NothingReplaced);
      BeginTouches(m, d, Interpret(bound, if stored then Hydration else Empty), false, intent, None);
    }
  }

  lemma AnswerGetTouches(compat: Compat, m: LifecycleModel, d: DocId, bound: BoundSchema, want: DoorIntent)
    ensures Touches(m, AnswerGet(compat, m, d, bound, want), d)
  {
    hide Begin, FinishLoad, ReadyEffects, CreateOrPromote;
    var entry := m.Entry(d);
    CreateOrPromoteTouches(m, d, bound, want);
    if entry.Some? && (entry.value.Unloaded? || entry.value.Unloading?) {
      var suspended := if entry.value.Unloaded? then entry.value.suspended else entry.value.held.suspended;
      var intent := if want.ToCreate? then Create else Open(UnloadedReplaced);
      var departing := if entry.value.Unloading? then Some(entry.value.held.gen) else None;
      BeginTouches(Recorded(m, d, departing), d, Interpret(bound, Hydration), suspended, intent, None);
    }
  }

  lemma CancelTouches(m: LifecycleModel, d: DocId, entry: Lifecycle)
    requires entry.Unloading?
    ensures Touches(m, Cancel(m, d, entry), d)
  {
  }

  lemma GetTouches(compat: Compat, m: LifecycleModel, d: DocId, bound: BoundSchema, want: DoorIntent)
    ensures Touches(m, GetDoc(compat, m, d, bound, want), d)
  {
    var entry := m.Entry(d);
    if entry.Some? && entry.value.Unloading? && entry.value.stage.Storing? {
      var cancelled := Cancel(m, d, entry.value);
      var answer := AnswerGet(compat, cancelled.model, d, bound, want);
      CancelTouches(m, d, entry.value);
      AnswerGetTouches(compat, cancelled.model, d, bound, want);
      AnswerGetShaped(compat, cancelled.model, d, bound, want);
      SequenceIs(m, cancelled, answer);
      if answer.effects != [] {
        assert forall e :: e in answer.effects[1..] ==> e in answer.effects;
      }
    } else {
      AnswerGetTouches(compat, m, d, bound, want);
    }
  }

  /** The document a request or completion names; hooks and closing name none. */
  function Named(input: Input): Option<DocId> {
    match input
    case Hooked => None
    case CloseAll(_) => None
    case Get(d, _, _) => Some(d)
    case ReplicateDoc(d, _, _, _) => Some(d)
    case Defer(d) => Some(d)
    case Destroy(d) => Some(d)
    case Suspend(d) => Some(d)
    case Resume(d) => Some(d)
    case Unload(d) => Some(d)
    case Reload(d) => Some(d)
    case Loaded(d, _, _, _) => Some(d)
    case LoadFailed(d, _, _) => Some(d)
    case Released(d, _, _) => Some(d)
    case Left(d, _) => Some(d)
  }

  /** An input that names a document touches no other. */
  lemma UpdateTouches(compat: Compat, input: Input, m: LifecycleModel)
    requires Named(input).Some?
    ensures Touches(m, Update(compat, input, m), Named(input).value)
  {
    match input
    case Get(d, bound, want) => GetTouches(compat, m, d, bound, want);
    case ReplicateDoc(d, factoryType, mode, hash) => ReplicateTouches(m, d, Replicate(factoryType, mode, hash));
    case Reload(d) => ReloadTouches(compat, m, d);
    case Loaded(d, gen, outcome, writer) =>
      if d in m.docs.items && m.docs.items[d].Loading? && m.docs.items[d].held.gen == gen {
        FinishTouches(m, d, m.docs.items[d].held, m.docs.items[d].intent, outcome, writer);
      }
    case Destroy(d) => DestroyTouches(m, d);
    case Unload(d) => UnloadTouches(m, d);
    case Released(d, gen, version) => ReleasedTouches(m, d, gen, version);
    case Suspend(d) => SuspendTouches(m, d, true);
    case Resume(d) => SuspendTouches(m, d, false);
    case Left(d, gen) => LeftTouches(m, d, gen);
    case Defer(d) =>
    case LoadFailed(d, gen, error) =>
  }

  lemma ReplicateTouches(m: LifecycleModel, d: DocId, spec: BuildSpec)
    ensures Touches(m, ReplicateDocument(m, d, spec), d)
  {
    BeginTouches(m, d, spec, false, Create, None);
    if d in m.docs.items && m.docs.items[d].Unloaded? {
      BeginTouches(m, d, spec, m.docs.items[d].suspended, Create, None);
    }
  }

  lemma ReloadTouches(compat: Compat, m: LifecycleModel, d: DocId)
    ensures Touches(m, Update(compat, Reload(d), m), d)
  {
    if d in m.docs.items && m.docs.items[d].Unloaded? {
      BeginTouches(m, d, m.docs.items[d].spec.Stored(), m.docs.items[d].suspended, Open(UnloadedReplaced), None);
    }
  }

  lemma DestroyTouches(m: LifecycleModel, d: DocId)
    ensures Touches(m, DestroyDoc(m, d), d)
  {
    hide Without, HydrationOf;
  }

  lemma UnloadTouches(m: LifecycleModel, d: DocId)
    ensures Touches(m, UnloadDoc(m, d), d)
  {
  }

  lemma ReleasedTouches(m: LifecycleModel, d: DocId, gen: Generation, version: string)
    ensures Touches(m, ReleasedDoc(m, d, gen, version), d)
  {
  }

  lemma SuspendTouches(m: LifecycleModel, d: DocId, suspended: bool)
    ensures Touches(m, SetSuspended(m, d, suspended), d)
  {
  }

  lemma LeftTouches(m: LifecycleModel, d: DocId, gen: Generation)
    ensures Touches(m, LeftDoc(m, d, gen), d)
  {
  }

  // ---------------------------------------------------------------------
  // An unload and a door
  // ---------------------------------------------------------------------

  predicate Storing(entry: Option<Lifecycle>) {
    entry.Some? && entry.value.Unloading? && entry.value.stage.Storing?
  }

  /** A `get` of a document waiting for the store is either refused, and the
      unload goes on; or an interpreted document is ready again just as it was,
      the same instance; or a replica is promoted, keeping its writer and its
      suspension. */
  lemma DoorRestores(compat: Compat, m: LifecycleModel, d: DocId, bound: BoundSchema, want: DoorIntent)
    requires Storing(m.Entry(d))
    ensures var step, was := GetDoc(compat, m, d, bound, want), m.docs.items[d];
      || (step.model == m && |step.effects| == 1 && step.effects[0].Refuse?)
      || (was.held.spec.Interpret? && step.model.Entry(d) == Some(Ready(was.held, was.registered || m.hooked, was.writer)))
      || (was.held.spec.Replicate? && step.model.Entry(d)
          == Some(Ready(Held(m.nextGen, Interpret(bound, Promote(was.held.gen)), was.held.suspended), m.hooked, was.writer)))
  {
    var entry := m.docs.items[d];
    var cancelled := Cancel(m, d, entry);
    var answer := AnswerGet(compat, cancelled.model, d, bound, want);
    AnswerGetShaped(compat, cancelled.model, d, bound, want);
    SequenceIs(m, cancelled, answer);
  }

  /** As long as an unload waits for the store, whatever else happens, its entry
      stays as it was. */
  lemma StoringWaits(compat: Compat, input: Input, m: LifecycleModel, d: DocId)
    requires Storing(m.Entry(d)) && Storing(Update(compat, input, m).model.Entry(d))
    ensures Update(compat, input, m).model.Entry(d) == m.Entry(d)
  {
    if Named(input).Some? {
      UpdateTouches(compat, input, m);
    }
    match input
    case Get(docId, bound, want) =>
      if docId == d {
        DoorRestores(compat, m, d, bound, want);
      }
    case _ =>
  }

  lemma {:induction false} StoringWaitsOn(compat: Compat, m: LifecycleModel, inputs: seq<Input>, d: DocId)
    requires forall k :: 0 <= k <= |inputs| ==> Storing(Run(compat, m, inputs[..k]).model.Entry(d))
    ensures Run(compat, m, inputs).model.Entry(d) == m.Entry(d)
  {
    if inputs == [] {
    } else {
      var init := inputs[..|inputs| - 1];
      forall k | 0 <= k <= |init| ensures Storing(Run(compat, m, init[..k]).model.Entry(d)) {
        assert init[..k] == inputs[..k];
      }
      StoringWaitsOn(compat, m, init, d);
      assert inputs[..|inputs|] == inputs && inputs[..|init|] == init;
      StoringWaits(compat, inputs[|inputs| - 1], Run(compat, m, init).model, d);
    }
  }

  /** An unload that a `get` cancels before the store releases it, after whatever
      happened meanwhile, leaves an interpreted document ready with the same
      generation, spec, writer and suspension. */
  lemma UnloadCancelled(compat: Compat, m: LifecycleModel, d: DocId, meanwhile: seq<Input>, bound: BoundSchema, want: DoorIntent)
    requires d in m.docs.items && m.docs.items[d].Ready? && m.docs.items[d].held.spec.Interpret?
    requires var unloaded := UnloadDoc(m, d).model;
      forall k :: 0 <= k <= |meanwhile| ==> Storing(Run(compat, unloaded, meanwhile[..k]).model.Entry(d))
    ensures var before, step := Run(compat, UnloadDoc(m, d).model, meanwhile).model,
        GetDoc(compat, Run(compat, UnloadDoc(m, d).model, meanwhile).model, d, bound, want);
      || (step.model == before && |step.effects| == 1 && step.effects[0].Refuse?)
      || step.model.Entry(d) == Some(Ready(m.docs.items[d].held, m.docs.items[d].registered || before.hooked, m.docs.items[d].writer))
  {
    var unloaded := UnloadDoc(m, d).model;
    StoringWaitsOn(compat, unloaded, meanwhile, d);
    assert meanwhile[..0] == [];
    assert Storing(Run(compat, unloaded, meanwhile[..0]).model.Entry(d));
    DoorRestores(compat, Run(compat, unloaded, meanwhile).model, d, bound, want);
  }

  // ---------------------------------------------------------------------
  // Suspension
  // ---------------------------------------------------------------------

  /** Whether a document is suspended; absent and deferred ones cannot be. */
  function SuspensionOf(entry: Option<Lifecycle>): Option<bool> {
    match entry
    case None => None
    case Some(Deferred) => None
    case Some(Unloaded(_, suspended)) => Some(suspended)
    case Some(e) => Some(e.held.suspended)
  }

  /** Nothing but `suspend` and `resume` changes the suspension of a document that
      stays: it survives loading, failing, promotion, unloading and reloading. */
  lemma SuspensionSurvives(compat: Compat, input: Input, m: LifecycleModel, d: DocId)
    requires SuspensionOf(m.Entry(d)).Some? && input != Suspend(d) && input != Resume(d)
    ensures var after := SuspensionOf(Update(compat, input, m).model.Entry(d)); after.Some? ==> after == SuspensionOf(m.Entry(d))
  {
    if Named(input).Some? {
      UpdateTouches(compat, input, m);
    }
    match input
    case Get(docId, bound, want) =>
      if docId == d {
        GetKeepsSuspension(compat, m, d, bound, want);
      }
    case _ =>
  }

  lemma GetKeepsSuspension(compat: Compat, m: LifecycleModel, d: DocId, bound: BoundSchema, want: DoorIntent)
    requires SuspensionOf(m.Entry(d)).Some?
    ensures var after := SuspensionOf(GetDoc(compat, m, d, bound, want).model.Entry(d)); after.Some? ==> after == SuspensionOf(m.Entry(d))
  {
    if Storing(m.Entry(d)) {
      DoorRestores(compat, m, d, bound, want);
    }
  }

  // ---------------------------------------------------------------------
  // An open that finds nothing
  // ---------------------------------------------------------------------

  /** A trace of a document outside its instance: identity claimed, the store
      program told, registered or wired. */
  predicate Trace(e: Effect) {
    e.Adopt? || e.Store? || e.Register? || e.Wire?
  }

  ghost predicate NoTrace(es: seq<Effect>, d: DocId) {
    forall e :: e in es && Trace(e) ==> EffectDoc(e) != d
  }

  predicate LoadingAs(entry: Option<Lifecycle>, gen: Generation) {
    entry.Some? && entry.value.Loading? && entry.value.held.gen == gen
  }

  /** An instance that is loading after a step, and was issued before it, was
      loading before it; the step leaves no trace of its document, and does not
      make an `open` of a `create`. */
  lemma LoadingSince(compat: Compat, input: Input, m: LifecycleModel, d: DocId, gen: Generation)
    requires LoadingAs(Update(compat, input, m).model.Entry(d), gen) && gen < m.nextGen
    ensures LoadingAs(m.Entry(d), gen) && NoTrace(Update(compat, input, m).effects, d)
    ensures var after := Update(compat, input, m).model.docs.items[d]; after.intent.Open? ==> m.docs.items[d].intent == after.intent
  {
    if Named(input).Some? && Named(input).value != d {
      UpdateTouches(compat, input, m);
    } else if input.Get? {
      GetLoadingSince(compat, m, d, input.bound, input.want, gen);
    } else if input.Hooked? {
      HookedNoTrace(m.docs, m.docs.keys, d);
    } else if input.ReplicateDoc? || input.Reload? || input.Loaded? || input.Released? {
      BeginLoadingSince(compat, input, m, d, gen);
    } else {
      QuietLoadingSince(compat, input, m, d, gen);
    }
  }

  lemma BeginLoadingSince(compat: Compat, input: Input, m: LifecycleModel, d: DocId, gen: Generation)
    requires LoadingAs(Update(compat, input, m).model.Entry(d), gen) && gen < m.nextGen
    requires input.ReplicateDoc? || input.Reload? || input.Loaded? || input.Released?
    requires Named(input) == Some(d)
    ensures LoadingAs(m.Entry(d), gen) && NoTrace(Update(compat, input, m).effects, d)
    ensures var after := Update(compat, input, m).model.docs.items[d]; after.intent.Open? ==> m.docs.items[d].intent == after.intent
  {
  }

  lemma QuietLoadingSince(compat: Compat, input: Input, m: LifecycleModel, d: DocId, gen: Generation)
    requires LoadingAs(Update(compat, input, m).model.Entry(d), gen) && gen < m.nextGen
    requires !input.Get? && !input.Hooked? && !input.ReplicateDoc? && !input.Reload? && !input.Loaded? && !input.Released?
    requires Named(input).Some? ==> Named(input).value == d
    ensures LoadingAs(m.Entry(d), gen) && NoTrace(Update(compat, input, m).effects, d)
    ensures var after := Update(compat, input, m).model.docs.items[d]; after.intent.Open? ==> m.docs.items[d].intent == after.intent
  {
  }

  lemma {:induction false} HookedNoTrace(docs: OrderedMap<DocId, Lifecycle>, keys: seq<DocId>, d: DocId)
    requires d in docs.items ==> !docs.items[d].Ready?
    ensures NoTrace(HookedEffects(docs, keys), d)
  {
    if keys != [] {
      HookedNoTrace(docs, keys[..|keys| - 1], d);
    }
  }

  lemma AnswerLoadingSince(compat: Compat, m: LifecycleModel, d: DocId, bound: BoundSchema, want: DoorIntent, gen: Generation)
    requires LoadingAs(AnswerGet(compat, m, d, bound, want).model.Entry(d), gen) && gen < m.nextGen
    ensures LoadingAs(m.Entry(d), gen) && NoTrace(AnswerGet(compat, m, d, bound, want).effects, d)
    ensures var after := AnswerGet(compat, m, d, bound, want).model.docs.items[d]; after.intent.Open? ==> m.docs.items[d].intent == after.intent
  {
  }

  lemma GetLoadingSince(compat: Compat, m: LifecycleModel, d: DocId, bound: BoundSchema, want: DoorIntent, gen: Generation)
    requires LoadingAs(GetDoc(compat, m, d, bound, want).model.Entry(d), gen) && gen < m.nextGen
    ensures LoadingAs(m.Entry(d), gen) && NoTrace(GetDoc(compat, m, d, bound, want).effects, d)
    ensures var after := GetDoc(compat, m, d, bound, want).model.docs.items[d]; after.intent.Open? ==> m.docs.items[d].intent == after.intent
  {
    hide AnswerGet;
    if Storing(m.Entry(d)) {
      DoorRestores(compat, m, d, bound, want);
    } else {
      AnswerLoadingSince(compat, m, d, bound, want, gen);
    }
  }

  lemma GenerationsGrow(compat: Compat, input: Input, m: LifecycleModel)
    ensures m.nextGen <= Update(compat, input, m).model.nextGen
  {
    if Named(input).Some? {
      UpdateTouches(compat, input, m);
    }
  }

  /** An instance that is still loading at the end of a run was loading all along,
      and the run leaves no trace of its document. */
  lemma {:induction false} LoadingThroughout(compat: Compat, m: LifecycleModel, inputs: seq<Input>, d: DocId, gen: Generation)
    requires gen < m.nextGen && LoadingAs(Run(compat, m, inputs).model.Entry(d), gen)
    ensures LoadingAs(m.Entry(d), gen) && NoTrace(Run(compat, m, inputs).effects, d) && m.nextGen <= Run(compat, m, inputs).model.nextGen
    ensures var after := Run(compat, m, inputs).model.docs.items[d]; after.intent.Open? ==> m.docs.items[d].intent == after.intent
  {
    if inputs != [] {
      var init, input := inputs[..|inputs| - 1], inputs[|inputs| - 1];
      var before := Run(compat, m, init);
      RunGrows(compat, m, init);
      LoadingSince(compat, input, before.model, d, gen);
      LoadingThroughout(compat, m, init, d, gen);
      GenerationsGrow(compat, input, before.model);
    }
  }

  lemma {:induction false} RunGrows(compat: Compat, m: LifecycleModel, inputs: seq<Input>)
    ensures m.nextGen <= Run(compat, m, inputs).model.nextGen
  {
    if inputs != [] {
      RunGrows(compat, m, inputs[..|inputs| - 1]);
      GenerationsGrow(compat, inputs[|inputs| - 1], Run(compat, m, inputs[..|inputs| - 1]).model);
    }
  }

  /** What an `open` of an absent or deferred document starts. */
  lemma OpenStarts(compat: Compat, m: LifecycleModel, d: DocId, bound: BoundSchema)
    requires m.Entry(d) == None || m.Entry(d) == Some(Deferred)
    ensures var step := GetDoc(compat, m, d, bound, ToOpen);
      step.model.Entry(d) != m.Entry(d) ==>
        && step.model.nextGen == m.nextGen + 1 && LoadingAs(step.model.Entry(d), m.nextGen)
        && step.model.docs.items[d].intent == Open(if m.Entry(d).None? then NothingReplaced else DeferredReplaced)
        && NoTrace(step.effects, d)
  {
  }

  /** An `open` of an absent or deferred document, whatever happens while it loads,
      and a load that finds nothing: as long as no `create` took the open over,
      nothing was adopted, stored, registered or wired for the document in the whole
      run, and its entry is what it was. */
  lemma OpenLeavesNoTrace(compat: Compat, m: LifecycleModel, d: DocId, bound: BoundSchema, meanwhile: seq<Input>,
                          outcome: LoadOutcome, writer: Option<PeerId>)
    requires m.Entry(d) == None || m.Entry(d) == Some(Deferred)
    requires GetDoc(compat, m, d, bound, ToOpen).model.Entry(d) != m.Entry(d) && !outcome.FoundStored?
    requires var before := Run(compat, GetDoc(compat, m, d, bound, ToOpen).model, meanwhile).model.Entry(d);
      LoadingAs(before, m.nextGen) && before.value.intent.Open?
    ensures var begun := GetDoc(compat, m, d, bound, ToOpen);
      var waited := Run(compat, begun.model, meanwhile);
      var last := Update(compat, Loaded(d, m.nextGen, outcome, writer), waited.model);
      && NoTrace(begun.effects, d) && NoTrace(waited.effects, d) && NoTrace(last.effects, d)
      && last.model.Entry(d) == m.Entry(d)
  {
    var begun := GetDoc(compat, m, d, bound, ToOpen);
    OpenStarts(compat, m, d, bound);
    LoadingThroughout(compat, begun.model, meanwhile, d, m.nextGen);
  }
}
