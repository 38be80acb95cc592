# Kyneta, verified: incremental Datalog, document lifecycle, compiler passes

A Dafny 4.11 model of the three most intricate parts of the Kyneta repository, with proofs of what
each of them is for. `dafny verify dfyconfig.toml` checks everything.

**The incremental Datalog engine** (`packages/datalog/src`). Rules over relations are evaluated
stratum by stratum on a long-lived database of weighted facts. `step` adds signed ground facts,
picks the affected strata, drives each rule by the delta at one body element at a time (new database
before it, old database after it, negated deltas with inverted sign), iterates recursive strata to a
fixed point while writing to the live database, and wipes and recomputes a stratum when a retraction
reaches recursion. The main result is when a step ends at the perfect model of the rules over the net
ground facts: exactly when every fact of a recursive stratum that loses its ground part without
flipping belongs to that model, or something else the stratum reads is lost; the iteration cap is an
exception only where some stratum takes more rounds of consequences than the cap. While steps end so,
incremental evaluation equals evaluation from scratch, and on positive programs naive evaluation. It
rests on: keys that identify tuples; join indexes that agree with a scan; a planner that cannot change
an answer; the telescoping of the asymmetric join; least models of strata; the selection of strata;
and a stratifier (Tarjan, levels, union-find) that accepts exactly the programs that have a stratification.

| modules | what they hold |
|---|---|
| Prelude, FiniteSums, OrderedMaps | sequences, finite sums and products, insertion-ordered maps |
| Numbers, Values, Syntax, Unify, Keys | number texts, values and guards, rules, matching, serialised keys |
| ZRelation, JoinIndexes, StoredRelations, Databases | weighted relations as values, the mutable relation with its indexes that refines them, databases and the old-state view |
| Joins, Plans, Evaluate, Semantics, Guards | body elements, the planner, rule evaluation, counting derivations, what guards mean |
| Telescope, Firing, Deltas, Models, Stages, SemiNaive, Invariants, StratumUpdate | one stratum |
| Programs, Affected, StepTheory, Evaluators, Naive, Limits | whole programs, `step`, the naive oracle, a retraction that is missed |
| Graphs, Tarjan, UnionFinds, Arity, Stratification | the dependency graph and its strata |

**The document lifecycle** (`packages/exchange/src/lifecycle-program.ts`). A pure machine of inputs
to a new model and an ordered list of effects, over the phases of a document, the generations of
its instances, and instances still departing. `Lifecycles` is the whole machine; `LifecycleBooks`
keeps, for every generation and every document, a book folded over the effects; `LifecycleRuns`
states what every step and every run keeps; `LifecycleStarts` how often a run loads, adopts, wires and
sends away each instance, and what it told the store; `LifecycleAnswers` what each input does;
`LifecycleDoors` what reopening, suspending and failing to load do.

**Compiler passes** (`experimental/compiler/src`). `Expressions`, `Grammar`, `RoundTrip`, `Updates` and
`Expansion` are the printer against a lexer and parser of the expression grammar of ECMA-262 (what names,
strings, accesses, calls, updates and operators need of sections 12.7 to 12.9 for tokens and 13.1 to
13.14 for expressions). `Dependencies` is the extraction of dependencies, and `RefChains` says what their
texts stand for. `TemplateWalk` and `NavPlans` are the walk over the tree, template extraction and the
planning of DOM navigation.
`Merging` and `Dissolution` merge the branches of a conditional and splice the result; `Alikeness` says
when branches merge, `DissolvedTrees` what goes and what stays, and `MergedTexts` reads the merged
texts by the same grammar.

Loops and objects that change in place are methods and classes, proved against functions of their
inputs; the properties are lemmas about those functions and invariants of those classes. In the
Datalog engine a rule is *safe* when every variable of its head, guards and negations occurs in a
positive atom of its body, and none of these holds a wildcard. The choice between an index and a scan
is an arbitrary parameter of every join, and relation sizes an arbitrary parameter of the planner,
so no answer can depend on either.

Where the code and its comments differ, the model follows the code:

- The comment of `evaluateRuleDelta` has every negation that is not driven by the delta read the new
  database. The code reads negations like atoms: new before the driven element, old after it, which is
  what makes the sum telescope (`packages/datalog/src/evaluate.ts:552-553`, `388-407`).
- The example in the comment of `planWalk` has one `up` and a `right` between the paths `[0, 0]` and
  `[1]`; the code climbs to the common ancestor and emits `up`, `up`, `down`, `right`
  (`experimental/compiler/src/template.ts:336-443`).
- The printer never parenthesises the condition of a conditional, so a conditional there is misread
  (`Expansion.TernaryConditionIsMisread`), and neither does merging (`MergedTexts.NestedConditionIsMisread`).
  When bindings are expanded the printer looks for merging prefix operators at the binding and not at
  what it expands to (`Expansion.HiddenMinusDecrements`).
- `step` notices retractions by presence flips. A ground fact retracted from a predicate that a
  recursive stratum derives flips nothing while its derivations hold it up, also where they depend on
  it themselves (`Limits.RetractionIntoRecursionIsMissed`).
- The comment of `dissolveConditionals` promises that no conditional that could be dissolved is left. One
  pass can leave one (`DissolvedTrees.OnePassIsNotEnough`).
- A binding inside a ref that is read goes by its name, not by its expression
  (`Dependencies.ReadsAreExpanded`).

## Model

| member | source | states |
|---|---|---|
| `Keys.SerializeTuple` | packages/datalog/src/types.ts:1004-1018 | The key built in one pass over the positions of a mask is the full key of the selected sub-sequence, and with all positions selected the key of the tuple. |
| `Keys.SelectIsSubsequence` | packages/datalog/src/types.ts:964-1018 | For widths up to 32 each position has its own bit: the selection is the sub-sequence of exactly the masked positions, in order. |
| `Keys.ValueDecodes` | packages/datalog/src/types.ts:936-955 | From the front of a key a value can be read in one way only, even when its text holds the separator; in the peer of a reference no separator may come right after a colon and a number and right before the tag that a value key begins with. |
| `Keys.TupleKeyInjective` | packages/datalog/src/types.ts:1004-1018 | Two tuples have the same key if and only if they are equal. Strings may hold any character; so may the peers of references, save a separator right after a colon and a number and right before the tag of a value. |
| `Keys.PeersWithPipesCollide` | packages/datalog/src/types.ts:936-955 | Where a peer holds `|r:` right after a colon and a number the key does not identify the tuple: two different tuples of one width share a key, for all peers, counters and surrounding values. |
| `Keys.PipeApartIsSafe` | packages/datalog/src/types.ts:936-955 | A peer in which no separator comes right after a digit, or none right before the tag of a value, meets the condition. |
| `Keys.TupleKeyRecovered` | packages/datalog/src/types.ts:1041-1069 | The tuple key is recovered from a fact key exactly when the fact key is one of that predicate, whatever characters the predicate name holds. |
| `Keys.FactKeyInjective` | packages/datalog/src/types.ts:1030-1032 | Facts of one predicate have the same fact key if and only if they are equal, under the same condition on peers. |
| `Guards.GuardsHold` | packages/datalog/src/types.ts:1213-1316 | Each guard operator holds of two values exactly when their order says so, which is written down type by type: false before true; integers by size; strings and bytes by prefix, or by the first place where they differ; references by peer and then counter; numbers by the real numbers their texts denote, `-0` before `0` and the infinities at the ends. Nothing is ordered across types, nor null, nor NaN; only `eq` and `neq` are by equality. |
| `Guards.OrderIsTotal` | packages/datalog/src/types.ts:1245-1316 | Of two values of one type, neither null nor NaN, either one comes before the other or they are the same, and only one of these. |
| `Numbers.DecimalReads` | packages/datalog/src/types.ts:1262-1271 | The text of a number, in any of the five layouts of Number::toString (section 6.1.6.1.20 of ECMA-262), reads as the sum of its digits times the powers of ten of their places. |
| `Numbers.OneText` | packages/datalog/src/types.ts:1150-1165 | A number other than zero has one text, so two numbers are the same exactly when their texts are. |
| `ZRelation.AddWeightedIsAddition` | packages/datalog/src/types.ts:680-701 | Adding a weight adds to that tuple and to no other, and the relation still stores no zero. |
| `ZRelation.PresentSum` | packages/datalog/src/types.ts:505-521 | A scan of the present tuples counts each fitting tuple once, whatever its multiplicity. |
| `ZRelation.FlipSum` | packages/datalog/src/types.ts:524-535 | A scan of a delta counts the fitting tuples that appeared less those that disappeared. |
| `ZRelation.PresenceBeforeIs` | packages/datalog/src/types.ts:778-791 | Undoing the presence flips of a delta gives back the presence before it: a disappeared tuple is there, an appeared one is not, every other is as it was. |
| `ZRelation.PresenceBeforeUndoes` | packages/datalog/src/types.ts:778-791 | The same at every prefix of the delta, together with the weights of tuples the delta does not name. |
| `JoinIndexes.BucketsPartition` | packages/datalog/src/types.ts:590-631 | The buckets of a coherent index split the stored entries: every entry is in the bucket of its own masked key and in no other, and no bucket is empty. |
| `JoinIndexes.PutKeepsCoherent` | packages/datalog/src/types.ts:546-552 | Adding an entry to its bucket keeps an index equal to the entries split by masked key in insertion order. |
| `JoinIndexes.DropKeepsCoherent` | packages/datalog/src/types.ts:555-565 | Removing an entry, and its bucket when that empties, keeps an index equal to the entries split by masked key in insertion order. |
| `JoinIndexes.ReadBucket` | packages/datalog/src/types.ts:590-608 | Reading one bucket gives the same list, in the same order, as reading everything and keeping what has the probed key. |
| `JoinIndexes.StoreSumIsAddition` | packages/datalog/src/types.ts:680-701 | Storing by key (insert last, update in place, drop at zero) is addition on the relation the entries stand for. |
| `JoinIndexes.RelationOfValid` | packages/datalog/src/types.ts:451-466 | Entries stored under their own keys stand for a relation without duplicates or zero weights. |
| `StoredRelations.StoredRelation.AddWeightedByKey` | packages/datalog/src/types.ts:680-701 | Mutating the keyed entries and every index built so far is addition on the relation shown, and all indexes stay coherent. |
| `StoredRelations.StoredRelation.Remove` | packages/datalog/src/types.ts:738-750 | The tuple is gone whatever its weight, the answer says whether it was present, no other tuple moves, and all indexes stay coherent. |
| `StoredRelations.StoredRelation.GetWeight` | packages/datalog/src/types.ts:710-717 | A lookup by key finds the weight of the tuple, because keys identify tuples. |
| `StoredRelations.StoredRelation.Scan` | packages/datalog/src/types.ts:505-535 | The entries read back are the relation shown, in insertion order. |
| `StoredRelations.StoredRelation.IndexFor` | packages/datalog/src/types.ts:618-631 | An index is built on first request unless the relation is small and has none for the mask; what is returned is coherent with all entries. |
| `StoredRelations.StoredRelation.Candidates` | packages/datalog/src/types.ts:590-608 | The candidates of a probe, by bucket or by scan, are those of the relation shown, and asking changes no entry. |
| `StoredRelations.StoredRelation.Clone` | packages/datalog/src/types.ts:794-804 | A deep copy shows the same relation and shares no entry with the original. |
| `StoredRelations.StoredRelation.PresenceBefore` | packages/datalog/src/types.ts:778-791 | The copy with the flips undone shows the relation before the delta, in the same order as the specification. |
| `Databases.DatabaseView.GetRelation` | packages/datalog/src/evaluator.ts:240-262 | The memoised read shows the relation as it was before the delta, and filling the cache changes nothing that the view shows. |
| `Databases.Database.AddAllWeighted` | packages/datalog/src/types.ts:883-890 | Z-set addition of two databases, fact by fact. |
| `Unify.MatchUnder` | packages/datalog/src/unify.ts:223-243 | A match, seen through any total valuation, succeeds exactly when the valuation extends the substitution and makes the atom fit the tuple; it binds exactly the variables of the atom and keeps the weight. |
| `Unify.MatchPrefixSound` | packages/datalog/src/unify.ts:90-121 | Positions unified from left to right extend the substitution consistently, repeated variables included. |
| `Unify.MatchPrefixComplete` | packages/datalog/src/unify.ts:90-121 | Unification fails only when no extension fits, and gives the most general one. |
| `Unify.MatchAgreesWithProbe` | packages/datalog/src/unify.ts:181-208 | A tuple that matches has the probed values at the masked positions, so candidates are a superset of the matches. |
| `Unify.GroundIsInstance` | packages/datalog/src/unify.ts:258-283 | A head whose variables are bound grounds to its instance. |
| `Joins.NarrowKeepsMatches` | packages/datalog/src/evaluate.ts:673-716 | Narrowing a scan to one bucket loses no match and keeps their order, for joins and for negation. |
| `Joins.EvaluatePositiveAtom` | packages/datalog/src/evaluate.ts:673-716 | The join does not depend on the mask or on whether an index answered it. |
| `Joins.EvaluateNegation` | packages/datalog/src/evaluate.ts:728-759 | A substitution stays exactly when no present tuple fits, whatever the mask and index. |
| `Joins.EvaluateDifferentialNegation` | packages/datalog/src/evaluate.ts:787-816 | Each fitting delta entry contributes with its sign inverted, whatever the mask and index. |
| `Joins.JoinSum` | packages/datalog/src/evaluate.ts:673-716 | A join multiplies the weight of every valuation by the sum of the weights of the entries that fit it. |
| `Joins.ApplySum` | packages/datalog/src/evaluate.ts:478-523 | One step of a plan multiplies the weight of every valuation by the factor of its element, provided a filter comes after its variables. |
| `Plans.PlanOrder` | packages/datalog/src/evaluate.ts:285-332 | The order is a permutation of the body. With sizes each element is the cheapest of those that come after it, by what is bound when it is chosen, the first in the body among equals; without, it is the order of the body. For a safe rule every negation and guard comes after the atoms that bind it, whatever the sizes. |
| `Plans.CostsAre` | packages/datalog/src/evaluate.ts:335-377 | A filter is free once its variables are bound and cannot run before; a scan costs one lookup if a position of an atom narrow enough to index is known, and all that is stored otherwise, in the delta if the delta drives it. |
| `Plans.PlanRuleEvaluation` | packages/datalog/src/evaluate.ts:232-258 | Every step reads its element from the right side of the delta, and its mask names exactly the positions whose values are known from the elements before it. |
| `Evaluate.StepMaskBound` | packages/datalog/src/evaluate.ts:232-258 | The positions in the mask of a step are bound in every substitution that reaches it. |
| `Evaluate.RunAllSum` | packages/datalog/src/evaluate.ts:478-523 | After the whole plan every valuation has the product of the weights of the body elements, in whatever order they were joined. |
| `Evaluate.PlanCounts` | packages/datalog/src/evaluate.ts:232-258 | Planner, executor and grounding together: for a safe rule the weight of a head tuple is the sum over all valuations that produce it. |
| `Evaluate.GroundHead` | packages/datalog/src/evaluate.ts:930-960 | Duplicates are summed, and what sums to zero is left out: each head tuple has the total weight of the substitutions that ground to it. |
| `Evaluate.EvaluateRule` | packages/datalog/src/evaluate.ts:478-523 | The weighted facts are the sum over all valuations of the product of element weights, independent of sizes, order and index use; a guard weighs 1 where it holds of its two values (`Guards.GuardsHold`) and 0 elsewhere. |
| `Evaluate.EvaluateRuleDelta` | packages/datalog/src/evaluate.ts:567-639 | The same with the delta at one element, the new database before it and the old one after it; the view is only read. |
| `Semantics.CountPositive` | packages/datalog/src/evaluate.ts:478-523 | A tuple has a positive number of derivations exactly when a satisfying valuation makes it the instance of the head. |
| `Semantics.CountWide` | packages/datalog/src/evaluate.ts:930-960 | The number of derivations does not depend on the set of valuations it is counted over. |
| `Guards.DerivesWhatHolds` | packages/datalog/src/evaluate.ts:478-523 | Safe rules derive a fact exactly when there are values for the variables of some body under which every atom is met by a fact, every negated atom by none, every guard holds in the order of values, and the head is the fact. |
| `Telescope.AsymmetricJoinTelescopes` | packages/datalog/src/evaluator.ts:349-400 | Driving every positive atom and then every negation by its delta adds up to exactly the change in the number of derivations between the two databases. |
| `Telescope.DrivenResults` | packages/datalog/src/evaluate.ts:388-407 | One driven evaluation counts the derivations with the difference at the driven element, new before it and old after it (for negations, on the side the code reads). |
| `Telescope.UnchangedContributesNothing` | packages/datalog/src/evaluator.ts:379-400 | An element whose relation did not change contributes nothing, so skipping it is sound. |
| `Deltas.ApplyDerivedFact` | packages/datalog/src/evaluator.ts:115-141 | The fact gains its weight, the running delta gains exactly its change of presence, and its first weight is remembered. |
| `Deltas.ApplyDistinct` | packages/datalog/src/evaluator.ts:162-178 | Negative weights among the touched facts become zero, all other weights stay, and the answer says whether any was negative. |
| `Deltas.ApplyDistinctIdle` | packages/datalog/src/evaluator.ts:162-178 | Where no weight is negative the clamp does nothing: in a stratum with exact counts it is never needed. |
| `Deltas.ExtractDelta` | packages/datalog/src/evaluator.ts:184-196 | The delta holds exactly the facts whose presence differs from the start, as 1 and -1. |
| `SemiNaive.SeedPhase` | packages/datalog/src/evaluator.ts:429-491 | The total collected before anything is applied is, for every fact, the change in its number of derivations (or the full number, in a recompute). |
| `SemiNaive.DriveSeeds` | packages/datalog/src/evaluator.ts:379-400 | The sources of one rule together contribute the difference between its counts in the new and the old database. |
| `SemiNaive.NothingToDo` | packages/datalog/src/evaluator.ts:484-491 | A seed phase that changes no weight means the stratum is in order already. |
| `SemiNaive.IterationComplete` | packages/datalog/src/evaluator.ts:493-521 | Although facts are written to the live database mid-iteration, after an iteration everything derivable from the facts at its start is present. |
| `SemiNaive.Iterate` | packages/datalog/src/evaluator.ts:493-521 | One turn of the loop keeps every fact supported and the next delta exactly what the turn added. |
| `SemiNaive.IterationPhase` | packages/datalog/src/evaluator.ts:493-521 | A loop that runs dry has everything derivable present, on top of its ground part; one that is cut off at the cap has a fact in its least model that 100 000 rounds of consequences do not reach. Every fact stays supported either way. |
| `SemiNaive.EvaluateStratumSemiNaive` | packages/datalog/src/evaluator.ts:429-522 | From good seeds the stratum ends at the least model of its rules, touches only its heads, reports exactly the presence flips, keeps every head weight above its ground weight, and in a non-recursive stratum leaves every weight exact. It is cut short at the iteration cap only if some fact of its least model is out of reach of 100 000 rounds of consequences, and never if it is not recursive. |
| `Stages.NonRecursiveTakesOne` | packages/datalog/src/evaluator.ts:493-521 | One round of consequences reaches the whole least model of rules that read none of their heads. |
| `Stages.LongIsLarge` | packages/datalog/src/evaluator.ts:493-521 | Rules that take more than n rounds have more than n head facts in every model over the same inputs. |
| `Stages.LeastExists` | packages/datalog/src/evaluate.ts:91-121 | Safe rules whose negations lie below have a least model over any inputs: the first stage of consequences that adds nothing. |
| `Firing.FiredResults` | packages/datalog/src/evaluate.ts:567-639 | In a later iteration a driven evaluation yields only facts derivable in the live database, and every head whose valuation uses a new fact. |
| `Models.LeastUnique` | packages/datalog/src/evaluate.ts:91-121 | Rules have at most one least model over given inputs. |
| `Models.OldModelSupported` | packages/datalog/src/evaluator.ts:493-521 | The old least model, less any heads that a ground delta made disappear, is still supported over inputs that have grown: nothing the rules read was lost. |
| `Invariants.ExactAfterStep` | packages/datalog/src/evaluator.ts:429-491 | If every head weighs its ground weight plus its derivations before, it does so again after the seed phase. |
| `Invariants.GrowingSeedsAreGood` | packages/datalog/src/evaluator.ts:493-521 | A delta that cannot remove a derivation leaves a recursive stratum with good seeds, where a present head that lost its ground part counts as ground. |
| `Invariants.RecomputeSeedsAreGood` | packages/datalog/src/evaluator.ts:619-653 | The ground part of the heads, with all inputs counted as new, is a good start whatever was derived before. |
| `StratumUpdate.WipeDerived` | packages/datalog/src/evaluator.ts:532-554 | Every present head fact falls to its ground weight, nothing else changes, and the first weights are remembered. |
| `StratumUpdate.RetractsInto` | packages/datalog/src/evaluator.ts:585-601 | True exactly when some change can remove a derivation: a disappearance under a positive atom or an appearance under a negation. |
| `StratumUpdate.RetractsIntoRecursion` | packages/datalog/src/evaluator.ts:561-579 | True exactly when such a change reaches a recursive stratum that has something to lose. |
| `StratumUpdate.RecomputeStratum` | packages/datalog/src/evaluator.ts:619-653 | The heads end at the least model over the inputs and the ground part, whatever was derived before, and the delta is presence after minus presence before. |
| `StratumUpdate.LeftIsOk` | packages/datalog/src/evaluator.ts:561-579 | A stratum that a step leaves is at its least model if and only if every head that lost its ground part and stayed follows from the facts that are left. |
| `StratumUpdate.EvaluateStratumFromDelta` | packages/datalog/src/evaluator.ts:314-328 | A stratum that reads no head of its own, and one whose gate fires, ends at the least model of its rules; any other ends at the least model over what was present as ground, unless that takes more rounds of consequences than the cap. The delta is exactly the flips of its heads. |
| `Affected.BuildReaders` | packages/datalog/src/evaluator.ts:752-773 | A predicate is mapped to exactly the strata whose rules read it. |
| `Affected.ComputeAffectedStrata` | packages/datalog/src/evaluator.ts:781-822 | The affected strata, ascending: closed under reading a changed or affected predicate, and nothing without a reason. |
| `StepTheory.UnaffectedLeft` | packages/datalog/src/evaluator.ts:781-822 | A stratum none of whose inputs changed is as an evaluation would leave it, without being evaluated. |
| `StepTheory.ExactIsLeast` | packages/datalog/src/evaluator.ts:429-491 | In a non-recursive stratum exact weights make the present heads the least model. |
| `StepTheory.AllStrataLeft` | packages/datalog/src/evaluator.ts:1227-1261 | Once the affected strata are done, all strata are as a step leaves them. |
| `StepTheory.InOrderIffHeldFollow` | packages/datalog/src/evaluator.ts:1227-1261 | Then all strata are at their least models if and only if, in every recursive stratum, each head that lost its ground part and stayed follows from the facts that are left. |
| `StepTheory.InOrderIffForeseen` | packages/datalog/src/evaluator.ts:1227-1261 | The same said of the state before the step and the model M it should reach: all strata end at their least models if and only if, in every recursive stratum, each head that loses its ground part and would stay is in M, or the gate fires on what M has lost or gained. |
| `Programs.PerfectModelUnique` | packages/datalog/src/stratify.ts:275-513 | A program has at most one perfect model, and it does not depend on how the program was stratified. |
| `Programs.PerfectModelExists` | packages/datalog/src/stratify.ts:275-513 | Every stratified program has a perfect model over any ground facts. |
| `Evaluators.Evaluator.ApplyGroundDelta` | packages/datalog/src/evaluator.ts:1172-1191 | Every fact gains its ground weight, the ground part of derived predicates is tracked apart, and the result is the presence flips. |
| `Evaluators.Evaluator.CheckGroundArity` | packages/datalog/src/evaluator.ts:1160-1170 | A delta is refused exactly when some fact of a known predicate has a width other than the known one, and the refusal names such a fact with both widths. |
| `Evaluators.Evaluator.EvaluateAffected` | packages/datalog/src/evaluator.ts:1227-1261 | Evaluating the given strata bottom-up, each output joining the next input, leaves each of them as a step leaves it (at the least model over its ground part and the heads it holds on to) and all others untouched. |
| `Evaluators.Evaluator.Step` | packages/datalog/src/evaluator.ts:1227-1261 | Any delta with no negative net ground weight, retractions included. The step ends at the perfect model M of the rules over the net ground facts if and only if, in every recursive stratum, each fact that loses its ground part without flipping is in M, or M loses something the stratum reads or gains something it negates (of its own heads, what the ground delta alone takes away): a condition on the state before the step. It is met when no such fact is derived recursively. Equally, if and only if each such fact that stayed follows from what is left. Only a loop cut off at the iteration cap is excepted, and then some stratum takes more than 100 000 rounds of consequences. The step reports exactly the facts whose presence the strata changed; a delta that flips nothing only adds its weights; a refused one changes nothing. |
| `Evaluators.Evaluator.DeriveAll` | packages/datalog/src/evaluator.ts:1027-1075 | Recomputing all strata over an empty database gives a valid evaluator, unless some stratum takes more than 100 000 rounds of consequences. |
| `Evaluators.ValidIsPerfect` | packages/datalog/src/evaluator.ts:1227-1261 | A valid evaluator holds the perfect model of its rules over the net ground facts of its history. |
| `Evaluators.NonRecursiveIsShort` | packages/datalog/src/evaluator.ts:493-521 | Only recursive strata can take more rounds than the cap: a program without recursion is never cut off. |
| `Evaluators.IncrementalEqualsBatch` | packages/datalog/src/evaluator.ts:1287-1341 | Two valid evaluators of the same rules whose histories net to the same present ground facts hold the same facts, whatever the steps and the stratification were. |
| `Evaluators.IncrementalEqualsNaive` | packages/datalog/src/evaluate.ts:91-121 | On a positive program what a valid evaluator holds after any sequence of steps is what naive evaluation of the net ground facts holds. |
| `Evaluators.CreateEvaluator` | packages/datalog/src/evaluator.ts:971-1023 | Construction fails exactly on rules that disagree about a width; cyclic negation gives an evaluator that derives nothing; otherwise the evaluator starts valid, unless some stratum takes more than 100 000 rounds of consequences. |
| `Naive.EvaluateNaive` | packages/datalog/src/evaluate.ts:91-121 | The naive loop ends at the least model of a positive program over the facts. |
| `Naive.PositivePerfectIsLeast` | packages/datalog/src/evaluate.ts:91-121 | On a positive program the perfect model of any stratification is the least model. |
| `Naive.NaiveAgrees` | packages/datalog/src/evaluate.ts:91-121 | Naive evaluation and any stratified evaluation agree on positive programs. |
| `Limits.RetractionIntoRecursionIsMissed` | packages/datalog/src/evaluator.ts:561-579 | The condition can fail: for every value, two rules that copy a predicate to another and back, created and stepped twice, keep both facts after the only ground fact is taken back, and no longer hold a perfect model. |
| `Graphs.BuildDependencyGraph` | packages/datalog/src/stratify.ts:74-140 | The graph has exactly the predicates the rules name and an edge, with its sign, for every body predicate of every head. |
| `Tarjan.ComputeSCCs` | packages/datalog/src/stratify.ts:162-181 | Each predicate is in exactly one component, each component is a whole class of mutually reachable predicates, and comes after all components it depends on. |
| `Tarjan.TarjanState.StrongConnect` | packages/datalog/src/stratify.ts:183-224 | A visit finishes the node or leaves it on the stack with the lowest index it can reach there, keeping the search invariant. |
| `Tarjan.SegmentIsClass` | packages/datalog/src/stratify.ts:211-223 | When the low link of a node is its own index, the stack from it up is one whole class with every dependency already emitted. |
| `UnionFinds.UnionFind.Find` | packages/datalog/src/stratify.ts:391-397 | The representative is found, and halving the path changes no class. |
| `UnionFinds.UnionFind.Union` | packages/datalog/src/stratify.ts:399-405 | Exactly the two classes are merged. |
| `UnionFinds.MergedConnects` | packages/datalog/src/stratify.ts:399-405 | Merging two classes is adding one link: classes stay the connected components of the links. |
| `Stratification.CheckCyclicNegation` | packages/datalog/src/stratify.ts:526-551 | A component is reported exactly when some dependency cycle holds a negative edge. |
| `Stratification.NegativeCyclesAreCyclicNegation` | packages/datalog/src/stratify.ts:526-551 | Such a cycle in the graph is cyclic negation of the rules, and conversely. |
| `Stratification.AssignLevels` | packages/datalog/src/stratify.ts:320-347 | Every component has the least level that is not below its positive dependencies and above its negative ones. |
| `Stratification.ConnectComponents` | packages/datalog/src/stratify.ts:385-437 | Components are united exactly when a rule ties two of one level through a derived predicate. |
| `Stratification.CollectGroups` | packages/datalog/src/stratify.ts:448-464 | The components are split into groups of one level and one class, each in ascending order. |
| `Stratification.SortGroups` | packages/datalog/src/stratify.ts:467-477 | Groups are put in order of level and then of first component. |
| `Stratification.AnalysisStratifies` | packages/datalog/src/stratify.ts:275-513 | The layout is a stratification: body predicates at or below the stratum of the head, negated ones strictly below, every rule in exactly one stratum. |
| `Stratification.Stratify` | packages/datalog/src/stratify.ts:275-513 | Stratification succeeds exactly when a stratification exists; it fails on shapes exactly when the rules disagree about a width and on cyclic negation exactly when there is any, naming a real cycle; the strata it gives cannot be split. |
| `Stratification.CyclicNegationCannotStratify` | packages/datalog/src/stratify.ts:526-551 | No stratification at all exists for a program that negates cyclically. |
| `Arity.AnalyzeArity` | packages/datalog/src/arity.ts:86-173 | There is no error exactly when all mentions of each predicate have one width; every reported conflict is real; without errors every mention has the recorded width. |
| `Arity.MentionsAreAll` | packages/datalog/src/arity.ts:86-173 | The mentions that are compared are those of every head and of every atom of a body, negated or not. |
| `LifecycleRuns.UpdateKeeps` | packages/exchange/src/lifecycle-program.ts:985-1149 | Every input keeps the model in shape and the books of every generation and of every document in order. |
| `LifecycleRuns.RunKeepsBooks` | packages/exchange/src/lifecycle-program.ts:985-1149 | The same over every run from the start. |
| `LifecycleBooks.BeginKeeps` | packages/exchange/src/lifecycle-program.ts:640-672 | Beginning an instance issues one generation, and accounts for the one it promotes or leaves departing. |
| `LifecycleBooks.CancelKeeps` | packages/exchange/src/lifecycle-program.ts:705-734 | Cancelling an unload keeps the books: a leaving registration is taken back, a missing one is made up. |
| `LifecycleBooks.UnloadKeeps` | packages/exchange/src/lifecycle-program.ts:859-906 | Starting an unload keeps the books. |
| `LifecycleBooks.LeftKeeps` | packages/exchange/src/lifecycle-program.ts:959-983 | A completed leave ends an unload, or disposes of a departing instance, and keeps the books. |
| `LifecycleBooks.KeepsCompose` | packages/exchange/src/lifecycle-program.ts:745-753 | Two steps that keep the books keep them one after the other, which is what sequencing relies on. |
| `LifecycleRuns.LedgerOverRuns` | packages/exchange/src/lifecycle-program.ts:985-1149 | Over every run each issued generation is exactly one of held, departing, promoted away or disposed; it is built exactly once, closed at most once, disposed at most once, and not before it is closed. |
| `LifecycleRuns.RegistrationOverRuns` | packages/exchange/src/lifecycle-program.ts:540-552 | Over every run: once hooked every ready entry is registered, no generation registers twice, an entry counts as registered exactly when it registered, and a leaving entry is registered. |
| `LifecycleRuns.LeavingAlternatesOverRuns` | packages/exchange/src/lifecycle-program.ts:859-906 | Over every run, between two equal leaving effects of a document there is an opposite one, or a close. |
| `LifecycleRuns.LateCompletionsHarmless` | packages/exchange/src/lifecycle-program.ts:1115-1149 | A late load result, release or leave changes the entry of no document that holds another generation or none, and builds, acts on, closes and disposes only its own. |
| `LifecycleRuns.UpdateShaped` | packages/exchange/src/lifecycle-program.ts:745-753 | A refusal is the only effect of its step and leaves the model unchanged; otherwise builds lead the effects, through sequencing too. |
| `LifecycleRuns.UpdateInOrder` | packages/exchange/src/lifecycle-program.ts:576-634 | For one instance in one step, adopt comes before store, store before register, register before wire. |
| `LifecycleDoors.UpdateTouches` | packages/exchange/src/lifecycle-program.ts:985-1149 | An input that names a document touches the entry and the effects of no other. |
| `LifecycleDoors.DoorRestores` | packages/exchange/src/lifecycle-program.ts:755-857 | A door on an unload the store has not released refuses with no effect, or restores the same generation, spec, writer and suspension, or, for a replica, promotes it with its suspension. |
| `LifecycleDoors.StoringWaits` | packages/exchange/src/lifecycle-program.ts:859-906 | While an unload waits for the store no input changes its entry. |
| `LifecycleDoors.UnloadCancelled` | packages/exchange/src/lifecycle-program.ts:755-857 | An unload, anything that leaves it waiting, and a door: the document is as it was before the unload. |
| `LifecycleDoors.SuspensionSurvives` | packages/exchange/src/lifecycle-program.ts:1051-1083 | No input but suspend and resume changes the suspension of a document that stays, through promotion, unload and reload. |
| `LifecycleDoors.LoadingThroughout` | packages/exchange/src/lifecycle-program.ts:576-634 | An instance still loading after a run was loading all along, and the run leaves no adopt, store, register or wire of its document. |
| `LifecycleDoors.OpenLeavesNoTrace` | packages/exchange/src/lifecycle-program.ts:576-634 | An open of an absent or deferred document whose load finds nothing, with no create in between, emits none of these effects and restores the prior entry. |
| `LifecycleStarts.StartsOverRuns` | packages/exchange/src/lifecycle-program.ts:985-1149 | Over every run: an instance that is loading or failed to was asked for once; an interpreted one that is ready or unloading claimed its identity and was wired once, and no other did; one that is leaving was sent away once; and no instance had two of any of these. |
| `LifecycleStarts.ReleasesOverRuns` | packages/exchange/src/lifecycle-program.ts:859-906 | Over every run: an instance is unloading exactly when the last the store was told of its document is an advance and, right after, to release that instance. |
| `LifecycleAnswers.SuspendSuspends` | packages/exchange/src/lifecycle-program.ts:1051-1083 | After `suspend` a held document that is not being unloaded is suspended, otherwise as it was, and the hook is told exactly when it was not suspended before. |
| `LifecycleAnswers.ResumeResumes` | packages/exchange/src/lifecycle-program.ts:1051-1083 | After `resume` it is not suspended; the hook is told when it was before, and the request is refused when it was not. |
| `LifecycleAnswers.UnsettledRefuse` | packages/exchange/src/lifecycle-program.ts:1051-1068 | Any other document refuses both, saying that it is being unloaded, or in which phase it is. |
| `LifecycleAnswers.LoadedIsReady` | packages/exchange/src/lifecycle-program.ts:576-634 | The answer to the current load makes the document ready, unless an `open` found nothing stored: with the writer found it claims its identity, is wired and registers, and the store hears exactly of the version found, of a new document, or nothing. |
| `LifecycleAnswers.LoadedIsUndone` | packages/exchange/src/lifecycle-program.ts:576-612 | An `open` that found nothing stored ends its instance, puts back what it replaced, and reports a document destroyed only if it had been stored. |
| `LifecycleAnswers.LoadFailsIsFailed` | packages/exchange/src/lifecycle-program.ts:1115-1143 | A failed load leaves the document failed with the error; a load that is not the current one changes nothing. |
| `LifecycleAnswers.BeginGets` | packages/exchange/src/lifecycle-program.ts:640-672 | A new instance is built under the next generation. It loads exactly when the document reaches a store and no replica is promoted; otherwise a `create` is ready at once and an `open` has found nothing. |
| `LifecycleAnswers.GetOfNothing` | packages/exchange/src/lifecycle-program.ts:755-857 | A `get` of a document nobody holds builds it, from the store if there is one for it; without one only a `create` builds. |
| `LifecycleAnswers.GetOfInterpreted` | packages/exchange/src/lifecycle-program.ts:755-857 | A `get` of an interpreted document is refused exactly when its schema cannot read it, and otherwise changes nothing, except that a `create` keeps what an `open` is loading. |
| `LifecycleAnswers.GetOfReplica` | packages/exchange/src/lifecycle-program.ts:755-857 | A replica that is loading or failed refuses; one that has loaded is promoted with its writer and suspension if the schema can read it. |
| `LifecycleAnswers.GetOfStored` | packages/exchange/src/lifecycle-program.ts:755-857 | A document only the store holds is loaded again under the schema if it can read it, suspended if it was, and an instance still leaving departs. |
| `LifecycleAnswers.ReplicateReplicates` | packages/exchange/src/lifecycle-program.ts:990-1011 | A replica is made of a document nobody holds, suspended if an unloaded replica was; any held document and an unloaded interpreted one refuse. |
| `LifecycleAnswers.DeferDefers` | packages/exchange/src/lifecycle-program.ts:1026-1030 | An announcement is noted of a document unknown so far, and changes no other. |
| `LifecycleAnswers.ReloadReloads` | packages/exchange/src/lifecycle-program.ts:1013-1024 | Reloading loads an unloaded document from the store, suspended if it was, and touches no other. |
| `LifecycleAnswers.UnloadUnloads` | packages/exchange/src/lifecycle-program.ts:859-906 | A ready document that reaches a store starts to unload: a native one is drained first, a registered one in the graph starts to leave, and the advance and the request to release come last, in this order; any other says why not, or is on its way. |
| `LifecycleAnswers.ReleasedGoesOn` | packages/exchange/src/lifecycle-program.ts:917-953 | A release goes on with the unload of that generation, leaving or disposing as it was registered or not; a document that is ready again hands it back; any other ignores it. |
| `LifecycleAnswers.LeftIsDisposed` | packages/exchange/src/lifecycle-program.ts:959-983 | An instance that has left is disposed of, whether it is the document's own, which is then unloaded, or one that departed. |
| `LifecycleAnswers.DestroyDestroys` | packages/exchange/src/lifecycle-program.ts:1032-1049 | A destroyed document is absent and its instance ended; the store deletes it unless it is held and never reaches a store; the hook is told. |
| `LifecycleAnswers.CloseAllCloses` | packages/exchange/src/lifecycle-program.ts:1104-1113 | Closing everything ends every held instance and disposes of every departing one, and leaves nothing. |
| `LifecycleAnswers.HookedRegisters` | packages/exchange/src/lifecycle-program.ts:1085-1102 | Once hooks are set exactly the ready documents not yet registered register, with their suspension. |
| `LifecycleAnswers.ThereAndBack` | packages/exchange/src/lifecycle-program.ts:859-983 | A ready stored document that is unloaded, released, left, reloaded and loaded is ready with a new instance built from the store, and as suspended as it was. |
| `NavPlans.BeforeIsOrder` | experimental/compiler/src/template.ts:311-317 | The comparison of paths is a total order. |
| `NavPlans.Compare` | experimental/compiler/src/template.ts:311-317 | The loop computes that order: first difference, then length. |
| `NavPlans.SortHoles` | experimental/compiler/src/template.ts:345-350 | A stable sort: a permutation of the holes in nondecreasing path order, equal paths in their given order. |
| `NavPlans.PlanWalk` | experimental/compiler/src/template.ts:345-443 | On every tree that has the paths, the planned operations never step off the tree and grab the holes in document order, each while standing at its own path. |
| `NavPlans.EachHoleOnce` | experimental/compiler/src/template.ts:345-443 | The grabs name every hole exactly once. |
| `NavPlans.AlreadySorted` | experimental/compiler/src/template.ts:345-443 | Holes already in document order are grabbed in their own order. |
| `TemplateWalk.Walker.WalkMarkup` | experimental/compiler/src/walk.ts:208-346 | The generator yields exactly the specified events with the paths of the DOM positions, and leaves the path stack as it found it. |
| `TemplateWalk.Walker.WalkChild` | experimental/compiler/src/walk.ts:381-469 | The same for every kind of child, whether it takes a DOM position or not. |
| `TemplateWalk.ExtractTemplate` | experimental/compiler/src/template.ts:62-85 | The html is the fold of the events, opening tags closed lazily; the holes are exactly the dynamic places of the tree, in order, each once. |
| `TemplateWalk.StreamIsMarkup` | experimental/compiler/src/template.ts:99-222 | The streamed html is the markup of the tree written down directly, with the same region and component markers in the same order. |
| `TemplateWalk.HolesArePlaces` | experimental/compiler/src/walk.ts:278-346 | The walk of an element leaves a hole for every attribute that is not literal and every handler, at the element; for every content that is not literal, loop, conditional and component, at its own position among the nodes of the document; for nothing else, and for nothing below a component or a void element. |
| `TemplateWalk.MarkupHoles` | experimental/compiler/src/template.ts:62-85 | Holes are extracted in nondecreasing path order, all at or below their element. |
| `TemplateWalk.MarkupInTree` | experimental/compiler/src/walk.ts:278-346 | Every extracted path exists in the tree the markup describes. |
| `TemplateWalk.PlanTemplate` | experimental/compiler/src/template.ts:345-443 | End to end, for a builder, an element and a component at the root: the holes are exactly the dynamic places of the tree, and walking the plan over the tree grabs each of them, in order, at its own node. |
| `RoundTrip.PrintedReadsAs` | experimental/compiler/src/expression-ir.ts:828-974 | For every expression of the fragment with no sign hidden in a binding, by name or expanded, lexing and parsing the printed text by the grammar of ECMA-262 sections 13.1 to 13.14 succeeds and gives one explicit tree. |
| `Expansion.PrintingRoundTrips` | experimental/compiler/src/expression-ir.ts:828-1021 | With bindings by name that tree is the printed expression if and only if no conditional is the condition of a conditional. |
| `Expansion.TernaryConditionIsMisread` | experimental/compiler/src/expression-ir.ts:828-974 | A conditional as a condition is printed without parentheses, like another expression, and reads as that one, whatever the names. |
| `RoundTrip.TextHasTokens` | experimental/compiler/src/expression-ir.ts:828-993 | The printed text lexes to the intended tokens before any continuation: no two of them run together. |
| `RoundTrip.BinaryReads` | experimental/compiler/src/expression-ir.ts:1004-1021 | Where operators of some precedence are wanted, an expression printed with or without its parentheses is read whole. |
| `RoundTrip.PrintedByRung` | experimental/compiler/src/expression-ir.ts:636-702 | The precedence by which an operator is printed is the rung of its production in sections 13.7 to 13.13 of ECMA-262. |
| `Updates.TreeRoundTrips` | experimental/compiler/src/expression-ir.ts:828-974 | By name or expanded, reading back gives the printed expression if and only if no conditional is the condition of a conditional and no plus or minus stands over a binding that begins with the same sign. |
| `Updates.HiddenSignIsMisread` | experimental/compiler/src/expression-ir.ts:828-974 | Such a sign puts an increment or a decrement into the text, and no reading of that is the printed expression. |
| `Expansion.MarkedPrints` | experimental/compiler/src/expression-ir.ts:828-974 | Printing with bindings expanded is printing the expression with every binding replaced, save those under a prefix operator that they begin with. |
| `Expansion.ExpandedRoundTrips` | experimental/compiler/src/expression-ir.ts:828-974 | With bindings expanded the text reads as the expression with every binding replaced, if and only if no conditional is the condition of a conditional and no plus or minus stands over a binding that begins with the same sign; repeated `!` and `~` are harmless. |
| `Expansion.HiddenMinusDecrements` | experimental/compiler/src/expression-ir.ts:828-974 | The condition can fail: a minus over a binding of a minus prints as a decrement, and by section 13.4 reads as one. |
| `Dependencies.ExtractDeps` | experimental/compiler/src/expression-ir.ts:460-582 | The dependencies are exactly the first reads of the most specific sources under dotted-prefix order, each once, in the order in which they are first read. |
| `RefChains.ReadsAreListed` | experimental/compiler/src/expression-ir.ts:460-540 | The reads that count are those of every place in the expression that reads a ref, bindings looked through and read refs not looked into, in order. |
| `RefChains.ChainSource` | experimental/compiler/src/expression-ir.ts:1047-1053 | The source of a chain of property accesses on an identifier is its names joined by dots. |
| `RefChains.DottedExtends` | experimental/compiler/src/expression-ir.ts:560-575 | For chains of names without dots, equal sources mean equal chains, and one source is a dotted prefix of another exactly when the one chain goes on from the other. |
| `RefChains.ChainsAreKept` | experimental/compiler/src/expression-ir.ts:460-582 | Where such chains are read, the dependencies are exactly the chains that are read and that no other read goes on from, each once. |
| `RefChains.WrittenAsPrinted` | experimental/compiler/src/expression-ir.ts:1047-1090 | A ref without arguments and operators is subscribed to by the text that is printed for it. |
| `RefChains.SourceHoldsParts` | experimental/compiler/src/expression-ir.ts:1047-1097 | The source of a ref of any kind holds the sources of its parts, and the name or operator it adds to them. |
| `Dependencies.ReadsAreExpanded` | experimental/compiler/src/expression-ir.ts:460-540 | What is read through bindings is what the expression with every binding replaced reads, if and only if no ref that is read takes its text from the name of a binding. |
| `Dependencies.BindingsInRefsAreNamed` | experimental/compiler/src/expression-ir.ts:1077-1078 | The condition can fail: a read of a binding is listed under the name of the binding, while the expanded expression lists it under the text it stands for. |
| `Dependencies.EveryReadCovered` | experimental/compiler/src/expression-ir.ts:554-582 | Every read source is, or is a dotted prefix of, a maximal one. |
| `Dependencies.DependenciesCover` | experimental/compiler/src/expression-ir.ts:554-582 | Every read is covered by a kept dependency, and there are none exactly when nothing is read. |
| `Dependencies.ReactiveIffReads` | experimental/compiler/src/expression-ir.ts:593-633 | If all bindings read something, an expression is reactive exactly when it reads something. |
| `Dependencies.ReactiveIffDependencies` | experimental/compiler/src/expression-ir.ts:593-633 | And exactly when its dependencies are not empty. |
| `Merging.MergeBodies` | experimental/compiler/src/ir.ts:1207-1295 | The loops from the last branch back give the merge of all branches, or the first reason in the order the code meets them. |
| `Alikeness.MergesIffAlike` | experimental/compiler/src/ir.ts:1207-1295 | Merging succeeds exactly on alike branches: two or more, as many nodes in each, every one but the last with a condition (with more than two, only if there is anything to merge), and at each position contents with alike values, one statement, or elements of one tag, one set of attribute names and handlers, alike values and alike children. Values are alike when each is literal, or fixed at rendering, or followed by equal ones that are, or what the later ones come to. The result is what they come to, position by position. |
| `Alikeness.FailureIsExplained` | experimental/compiler/src/ir.ts:1028-1193 | The reason reported for nodes that do not merge is a difference they have, at the child it names. |
| `Dissolution.MergedValue` | experimental/compiler/src/ir.ts:911-1015 | A merged value is, in every environment, the first value where the condition holds and the second where it does not, and lists every dependency of all three. |
| `MergedTexts.MergedTextReads` | experimental/compiler/src/ir.ts:911-1015 | For all texts that are expressions, the merged text reads as the conditional of its three parts if and only if the condition can stand before a `?` without parentheses. |
| `MergedTexts.NestedConditionIsMisread` | experimental/compiler/src/ir.ts:930-940 | Merged over the condition `x ? y : z`, the text reads as `x ? y : (z ? a : b)`. |
| `MergedTexts.NestedConditionMeans` | experimental/compiler/src/ir.ts:930-940 | It then shows the value of `y` where `x` holds, and what it should only where `x` does not hold. |
| `MergedTexts.GrammarIsLawful` | experimental/compiler/src/ir.ts:911-1015 | The expressions of the grammar, whatever names and operators mean, obey the laws that merging relies on, with the conditions that need no parentheses as conditions. |
| `MergedTexts.QuotedIsExpression` | experimental/compiler/src/ir.ts:911-1015 | A quoted text is an expression of that language, and can stand as a condition. |
| `Dissolution.MergedNode` | experimental/compiler/src/ir.ts:1028-1193 | A merged node is shown, in every environment, as the first where the condition holds and as the second where it does not, attributes taken as a map. |
| `Dissolution.MergedBodies` | experimental/compiler/src/ir.ts:1207-1295 | A conditional with an else branch that merges is shown as its merged body: the first branch that applies. |
| `Dissolution.DissolveList` | experimental/compiler/src/transforms.ts:154-184 | The loop splices merged bodies in where their conditionals stood and dissolves what it keeps, as `DissolvedTrees.DissolvedPieces` says of its result. |
| `DissolvedTrees.DissolvedPieces` | experimental/compiler/src/transforms.ts:154-226 | The dissolved list is what each node contributes, in order: a reactive conditional with an else branch and alike branches exactly the body they come to; any other node itself around dissolved lists, a conditional with its conditions, its reactivity and all its branches. |
| `DissolvedTrees.LeftoverIffRipening` | experimental/compiler/src/transforms.ts:133-137 | One pass leaves no conditional that could still be dissolved if and only if no conditional that stays gets alike branches by the dissolving inside them. |
| `DissolvedTrees.OnePassIsNotEnough` | experimental/compiler/src/transforms.ts:133-137 | The condition can fail: a choice between two contents inside one branch, against a content in the other, for all texts and conditions. |
| `Dissolution.DissolutionPreservesMeaning` | experimental/compiler/src/transforms.ts:140-226 | Dissolving a tree changes nothing of what it shows in any environment, and every value in the result still lists all it depends on. |

## Left out

- Evaluators.Evaluator.Step: steps from a state that an earlier step left short of the perfect model (a missed retraction, or the iteration cap), what the model is when the cap cuts a loop off, and negative net ground weights.
- Keys.TupleKeyInjective: assumes that no peer of a reference holds `|` right after a colon and a number and right before the tag of a value; such peers can share keys (`Keys.PeersWithPipesCollide`).
- Dissolution.DissolutionPreservesMeaning: for markup without components and event handlers. Merging keeps only the first node's handlers when their sources agree and drops the component reference of an element, so for those nodes the result says nothing.
- Aggregation in rule bodies, foreign relations, compute elements and `hostErrors`: aggregation resets weights to one and always recomputes, so it has no counting invariant; the others call host code that is not part of this model.
- `changeRules` and `ruleIdentity`: rules are fixed at construction.
- Wildcards in negated atoms: differential negation counts each delta tuple, which is only right when a negated atom determines its tuple.
- The evaluator's database holds relations as values; `StoredRelations` shows separately that the mutable relation refines them. A relation handed out while another reader keeps a reference to it (aliasing) is not captured.
- The table of touched facts is keyed by fact, where the code nests predicate and key; reported deltas are maps keyed by fact, where the code uses Z-sets of fact keys.
- IEEE 754: a number is any text that Number::toString can give, with distinct zeros; which of them a double can hold is left out; `bigint` is `int`; text is a sequence of characters without UTF-16 detail; the counter of a reference is an integer.
- `planInterpretation` is modelled branch by branch over an abstract compatibility relation between what a schema reads and what is known of a document, sync mode included.
- Effects are data: what the exchange does with them, and hooks that throw, are not part of this model. The callback of `driveDeltaSources` is modelled as one method for each of its two uses.
- Printing of literals, raw source, template strings, postfix operators, `??`, right-associative operators and assignments is modelled in `Expressions` and left out of the round trip; a lexer for comments, numbers, templates and regular expressions is not part of this model.
- Dependency sources are texts of refs; the deltas and modes recorded with them ride along unchanged.
- `dependencies.includes` compares objects; merging compares dependency sources by value.
- Dissolution reads the text of a merged value through an abstract language in which a condition can stand before `?`, a conditional text chooses by it, and parentheses change nothing. `MergedTexts` gives such a language for the texts of the expression grammar; a condition that is itself a conditional is not a condition of it.
- The body of a loop is rendered once for every item in an extended environment; list diffing is left out.
- Browser parsing: adjacent text nodes that merge and the two comment markers of a region, which shift later positions, are left out; paths and trees are those of the compiler.
- `filterTargetBlocks`, event wiring, code generation and analysis of TypeScript sources would only add simpler members, or depend on the TypeScript checker.
