# Placement engine of the personal values lab

The application lets a user sort a catalog of personal values into five
priority tiers (S, A, B, C, D), pick an ordered Top-5 among the tier
values, and write reflections about the ones picked. Its core is the
`AppState` object of `src/lib/state.svelte.ts`. This object owns three
containers: the unassigned **pool**, the five **tiers**, and the five
**Top-5 slots**. Around them it keeps the current phase, three reflection
stores keyed by value id, the selected card and the two input fields for
a custom value. Its actions move values between the containers by find,
splice, push and compaction. The state is saved as a snapshot and loaded
back, with a recovery pass that puts lost Top-5 values back into tier S.

The model has seven modules:

- `Placement` (placement.dfy) holds the containers as values (`Board`). It gives the specification of
  every move as a function: `Move`/`Put` for moveValue, `MoveToTop5`,
  `RankedMove` and `Admitted` for moveValueToTop5. It also states the engine's invariants as
  `Valid`: five fixed tiers, a five-slot Top-5, every id in at most one
  place among the tiers and the pool, no id in two slots, and every ranked id
  in some tier. Ids are counted with multisets (`ResidentBag`, `TierBag`,
  `RankedBag`), so "a move relocates exactly one value" becomes an
  equation between bags.
- `Views` (views.dfy) holds the derived views and the phase gate.
- `Reflections` (reflections.dfy) holds the lazy seeding of reflection records.
- `Text` (text.dfy) holds JavaScript's `trim` and the construction of a custom value.
- `Persistence` (persistence.dfy) holds the snapshot, the save function, the field-by-field
  overlay of a load and the recovery pass.
- `State` (state.dfy) holds the class `AppState`. Its fields are the ones of the source,
  and its methods change them in place with the source's loops. Each
  method is proved against the functions above. Every action except load
  and the constructor keeps `Valid` when it held before (for moveValue,
  with the pool or one of the five labels as target; for addCustomValue,
  with a fresh id). The two halves of a move, `FindAndRemoveValue` and
  `PutBack`, break it between them and promise nothing about it. A load
  guarantees only that every ranked value is in a tier or the pool
  (`Persistence.LoadRanksResident`) and keeps exclusive ownership when
  the loaded tiers and pool had it (`Persistence.LoadExclusive`).
- `Scenarios` (scenarios.dfy) works through Top-5 moves on small Top-5 lists (the
  `RankedMove` and `Admitted` parts of `MoveToTop5`), one per branch of moveValueToTop5.

Three points of the code's behaviour that a reader might expect
otherwise:

- A move to another tier leaves the Top-5 alone. Only a move to the pool
  empties the slot of the moved value, so a ranked value moved between
  tiers keeps its rank. `Placement.Move` states this.
- The recovery pass accepts pool residency: a ranked value found only in
  the pool stays there and is not copied into tier S
  (`Persistence.LoadKeepsRankedInPool`).
- Reflection records are only ever added, never removed, when the Top-5
  changes.

## Model

| member | source | states |
|---|---|---|
| State.AppState.constructor | src/lib/state.svelte.ts:19-45 | the state starts as the defaults (all catalog values in the pool, five empty tiers, phase 1, five empty slots, no reflections) with the saved snapshot loaded over them; nothing is selected and both input fields are empty |
| State.AppState.GoToPhase | src/lib/state.svelte.ts:85-91 | the phase becomes `p` exactly when the gate allows it and is unchanged otherwise |
| State.AppState.AddCustomValue | src/lib/state.svelte.ts:93-105 | a blank name changes nothing; otherwise the value built from the trimmed fields is prepended to the pool and both fields are cleared; with a fresh id the invariants are kept |
| State.AppState.PrependAndClear | src/lib/state.svelte.ts:102-104 | the pool gains the value at its front, the inputs are cleared, and a value with a fresh id keeps the invariants |
| State.AppState.SelectValue | src/lib/state.svelte.ts:133-135 | selecting the selected card deselects it; any other id becomes the selection |
| State.AppState.FindAndRemoveValue | src/lib/state.svelte.ts:159-177 | the first tier holding the id, or else the pool, loses the first value with that id, which is returned; an unknown id changes nothing and returns None |
| State.AppState.MoveValue | src/lib/state.svelte.ts:137-157 | outside phase 1 nothing changes; in phase 1 the containers become `Move(old, id, target)` and the selection is cleared when the id was found; with the pool or a real label as target the invariants are kept |
| State.AppState.PutBack | src/lib/state.svelte.ts:143-156 | the taken value is appended to the pool (emptying the slot of the id) or to the named tier, or dropped when no tier has the name; the selection is cleared |
| State.AppState.RemoveFromTop5 | src/lib/state.svelte.ts:231-233 | only slot `index` changes, to empty, and the invariants are kept |
| State.AppState.FindInTiers | src/lib/state.svelte.ts:203-208 | returns the first tier value with the id, tiers in order, without removing it; None when no tier has it |
| State.AppState.MoveValueToTop5 | src/lib/state.svelte.ts:179-228 | the Top-5 becomes `MoveToTop5(old, id, index)`; an admitted tier value seeds an empty personal definition for every ranked id; the selection is cleared unless nothing happened; the invariants are kept |
| State.AppState.PlaceInTop5 | src/lib/state.svelte.ts:179-228 | the same Top-5, definitions and selection as MoveValueToTop5, branch by branch |
| State.AppState.ReorderTop5 | src/lib/state.svelte.ts:183-201 | a ranked value is placed by `RankedMove` and the selection is cleared |
| State.AppState.AdmitToTop5 | src/lib/state.svelte.ts:212-227 | the Top-5 becomes the laid-out `Admitted` list, every ranked id without a definition gets an empty one, and the selection is cleared |
| State.AppState.PlaceAndDefine | src/lib/state.svelte.ts:219-225 | the forEach lays the list into slots 0..4 padded with empty slots and seeds a definition for each listed id, keeping existing ones |
| State.AppState.LayOutInto | src/lib/state.svelte.ts:194-196 | the `for i < 5` loop lays the list into slots 0..4 padded with empty slots |
| State.AppState.SeedReflections | src/lib/state.svelte.ts:52-61 | every ranked id without a commitment gets `{contact: 5, '', ''}` and without a vision gets empty strings; existing entries are kept |
| State.AppState.Load | src/lib/state.svelte.ts:256-287 | the saved part of the state becomes `Persistence.Load(old, saved)`; no snapshot changes nothing |
| State.AppState.ApplySnapshot | src/lib/state.svelte.ts:262-272 | every field present in the snapshot replaces the current one, a phase only when non-zero, tiers entry by entry |
| State.AppState.OverlaySavedTiers | src/lib/state.svelte.ts:263-265 | tier `i` takes the values of saved entry `i` when there is one and keeps its label |
| State.AppState.RecoverRanked | src/lib/state.svelte.ts:274-282 | the tiers become `Persistence.Recover` of the ranked values against the tiers and pool |
| State.AppState.RecoverEach | src/lib/state.svelte.ts:275-282 | the forEach over ranked values computes `Persistence.Recover` step by step |
| Placement.IndexOf | src/lib/state.svelte.ts:161 | the result is -1 or a position holding the id, and no earlier position holds it |
| Placement.IndexOfBag | src/lib/state.svelte.ts:161 | findIndex finds nothing exactly when the id does not occur |
| Placement.SlotIndexOf | src/lib/state.svelte.ts:146 | the first slot holding the id, or -1 when none does |
| Placement.SlotIndexOfBag | src/lib/state.svelte.ts:180 | a ranked id is found in the Top-5 exactly when it is ranked |
| Placement.LabelIndex | src/lib/state.svelte.ts:151 | the first tier with the label, or -1 when none has it |
| Placement.TierSearch | src/lib/state.svelte.ts:160-167 | the first tier holding the id and its position there, or nowhere exactly when no tier holds it |
| Placement.TierSearchBag | src/lib/state.svelte.ts:160-167 | the tier search fails exactly when no tier holds the id |
| Placement.Locate | src/lib/state.svelte.ts:159-177 | tiers first, then the pool; the place found holds the id, nowhere exactly when the id is resident nowhere, and the pool only when no tier has it |
| Placement.Take | src/lib/state.svelte.ts:159-177 | the splice keeps the Top-5, the number of tiers and their labels |
| Placement.TakeBags | src/lib/state.svelte.ts:159-177 | taking a value out removes exactly one residence of its id, from the tiers when it was found there |
| Placement.RemoveAt | src/lib/state.svelte.ts:164 | the splice shortens the sequence by one |
| Placement.IdBagRemoveAt | src/lib/state.svelte.ts:172 | the splice removes exactly one occurrence of the removed id |
| Placement.AppendToTier | src/lib/state.svelte.ts:153 | pushing into a tier keeps the labels and adds one occurrence of the id |
| Placement.ValidTop5 | src/lib/state.svelte.ts:66 | the view holds exactly the values of the non-empty slots |
| Placement.ValidTop5Append | src/lib/state.svelte.ts:66 | the filter distributes over concatenation |
| Placement.RankedBagClear | src/lib/state.svelte.ts:148 | emptying a slot un-ranks exactly the value it held |
| Placement.InsertAt | src/lib/state.svelte.ts:193 | the splice inserts the value at the index, or at the end past it, and removing it again gives the list back |
| Placement.InsertAtBag | src/lib/state.svelte.ts:213 | the splice adds exactly one occurrence of the inserted id |
| Placement.Without | src/lib/state.svelte.ts:192 | the filter keeps exactly the values with another id, and is shorter when the id occurs |
| Placement.WithoutBag | src/lib/state.svelte.ts:192 | the filter removes every occurrence of the id and nothing else |
| Placement.LayOut | src/lib/state.svelte.ts:194-196 | the list laid into five slots |
| Placement.ValidTop5LayOut | src/lib/state.svelte.ts:194-196 | laying out at most five values and reading the non-empty slots gives the list back |
| Placement.Move | src/lib/state.svelte.ts:137-157 | an unknown id changes nothing, a tier target never touches the Top-5, and the tier labels and Top-5 size are kept |
| Placement.Put | src/lib/state.svelte.ts:143-155 | a tier target never touches the Top-5; tier labels and Top-5 size are kept |
| Placement.PutInPool | src/lib/state.svelte.ts:144 | pushing to the pool adds one residence of the id |
| Placement.PutInTier | src/lib/state.svelte.ts:151-153 | pushing to an existing tier makes the value its last entry and adds one residence of the id |
| Placement.MoveToPoolRelocates | src/lib/state.svelte.ts:140-149 | a move to the pool makes the found value the last pool entry and keeps every id's number of residences |
| Placement.MoveToTierRelocates | src/lib/state.svelte.ts:140-154 | a move to an existing tier makes the found value that tier's last entry and keeps every id's number of residences |
| Placement.MoveToMissingTierDrops | src/lib/state.svelte.ts:151-154 | a move to a label no tier has loses exactly one residence of the id |
| Placement.MovePreservesValid | src/lib/state.svelte.ts:137-157 | with the pool or a real label as target, every move keeps the invariants |
| Placement.MoveToPoolKeepsRanked | src/lib/state.svelte.ts:143-149 | a move to the pool un-ranks the moved id, and every value still ranked stays in a tier |
| Placement.MoveToTierKeepsValid | src/lib/state.svelte.ts:150-154 | a move between tiers, or from the pool to a tier, keeps the invariants |
| Placement.Unrank | src/lib/state.svelte.ts:146-149 | emptying the first slot holding the id un-ranks it and no other id |
| Placement.RankedMove | src/lib/state.svelte.ts:183-201 | the reordered Top-5 still has five slots |
| Placement.RankedMoveIntoEmpty | src/lib/state.svelte.ts:184-189 | into an empty slot the value moves directly, its old slot empties and no other slot changes |
| Placement.RankedMoveOntoOccupied | src/lib/state.svelte.ts:190-197 | onto an occupied slot the Top-5 reads back as the other occupants with the value inserted at the index, and no occupant is lost |
| Placement.RankedMoveKeepsRanked | src/lib/state.svelte.ts:183-201 | reordering ranks exactly the same ids |
| Placement.Admitted | src/lib/state.svelte.ts:212-217 | the admit list: the occupants in slot order with the value inserted at the index and the sixth entry dropped; its meaning is stated by `Placement.AdmittedRanks` and the admit scenarios |
| Placement.AdmittedRanks | src/lib/state.svelte.ts:212-226 | an admitted value is ranked and nothing new besides it; an occupant is bumped only from a full Top-5, and then only the last |
| Placement.MoveToTop5 | src/lib/state.svelte.ts:179-228 | the Top-5 keeps five slots |
| Placement.MoveToTop5PreservesValid | src/lib/state.svelte.ts:179-228 | every Top-5 move keeps the invariants; an id neither ranked nor in a tier (a pool value) changes nothing |
| Placement.AdmitKeepsValid | src/lib/state.svelte.ts:203-226 | admitting a tier value keeps the invariants |
| Placement.RemoveFromTop5PreservesValid | src/lib/state.svelte.ts:231-233 | emptying a slot keeps the invariants and un-ranks exactly the value it held |
| Placement.PrependPreservesValid | src/lib/state.svelte.ts:102 | prepending a value with a fresh id keeps the invariants and adds one residence |
| Views.IsRanked | src/lib/state.svelte.ts:71 | `top5.some` by id; `Placement.SlotIndexOfBag` proves it holds exactly for ranked ids |
| Views.TierCount | src/lib/state.svelte.ts:76 | the reduce over tier sizes; `Views.TierCountIsSize` proves it counts the tier-resident values |
| Views.CanProceedToPhase2 | src/lib/state.svelte.ts:76 | at least five tier values, by `Views.TierCountIsSize`; `Views.FinishImpliesProceed` and `Views.PhaseGate` use it |
| Views.CanFinishRanking | src/lib/state.svelte.ts:78 | no slot is empty; `Views.FinishIffFull` proves it holds exactly when the filled-slot view keeps every slot |
| Views.PhaseAllowed | src/lib/state.svelte.ts:85-87 | the two early returns of goToPhase; `Views.PhaseGate` states it in container terms in both directions |
| Views.Unranked | src/lib/state.svelte.ts:70-72 | every candidate of a tier is one of its values, tagged with its label, and is not ranked |
| Views.CategorizedCandidates | src/lib/state.svelte.ts:68-74 | every candidate is an unranked value of a tier with the candidate's label |
| Views.UnrankedBag | src/lib/state.svelte.ts:70-72 | a tier offers each unranked id as often as it holds it and a ranked id never |
| Views.CandidatesBag | src/lib/state.svelte.ts:68-74 | the candidates hold each unranked tier id as often as the tiers do and no ranked id |
| Views.CandidatesAccount | src/lib/state.svelte.ts:66-74 | under the invariants the candidates and the ranked values together are exactly the tier values, and their counts add up to the tier count |
| Views.TierCountIsSize | src/lib/state.svelte.ts:76 | the reduce counts exactly the tier-resident values |
| Views.FinishIffFull | src/lib/state.svelte.ts:66-78 | no slot is empty exactly when the view keeps every slot |
| Views.FinishImpliesProceed | src/lib/state.svelte.ts:76-78 | under the invariants a complete Top-5 implies at least five tier values |
| Views.PhaseGate | src/lib/state.svelte.ts:85-87 | phase 2 is allowed exactly with at least five tier values, a later phase exactly with an occupied slot, any other phase always |
| Reflections.Seeded | src/lib/state.svelte.ts:52-61 | the seeding loops (also 222-224 for personal definitions); `Reflections.SeededEntries` states which keys it adds and that it keeps existing entries, `Reflections.SeededIdempotent` that a second run adds nothing |
| Reflections.SeededEntries | src/lib/state.svelte.ts:52-61 | after seeding exactly the old keys and the seeded ids have entries, old entries are untouched and new ones are the default |
| Reflections.SeededSnoc | src/lib/state.svelte.ts:53-59 | one more loop step adds the id's entry unless it has one |
| Reflections.SeededNoop | src/lib/state.svelte.ts:54-58 | seeding ids that all have entries changes nothing |
| Reflections.SeededIdempotent | src/lib/state.svelte.ts:52-61 | running the seeding effect again has no effect |
| Text.TrimStart | src/lib/state.svelte.ts:94 | the result is a suffix, only spaces were removed, and it does not start with a space |
| Text.TrimEnd | src/lib/state.svelte.ts:94 | the result is a prefix, only spaces were removed, and it does not end with a space |
| Text.Trim | src/lib/state.svelte.ts:94-99 | the result is the text without its surrounding spaces: it is a slice of the text with only spaces before and after it, neither starts nor ends with a space, and is empty exactly when the text is all spaces |
| Text.CustomId | src/lib/state.svelte.ts:97 | the id `custom-` followed by the time stamp; `State.AppState.AddCustomValue` keeps the invariants when it is fresh |
| Text.TrimPadded | src/lib/state.svelte.ts:98-99 | trim removes exactly the surrounding spaces of a trimmed text |
| Text.TrimIdempotent | src/lib/state.svelte.ts:94-98 | trimming twice is trimming once |
| Text.NewCustomValue | src/lib/state.svelte.ts:94-100 | no value exactly when the name is blank; otherwise the given id, the trimmed name, and the trimmed description or the placeholder when it is blank |
| Text.CustomValueTrimmed | src/lib/state.svelte.ts:96-100 | a created value has a non-empty trimmed name and a non-empty trimmed description |
| Persistence.Initial | src/lib/state.svelte.ts:18-38 | the field defaults: catalog in the pool, five empty tiers S..D, phase 1, five empty slots, empty record stores; `Persistence.InitialValid` proves they meet the invariants |
| Persistence.SaveTiers | src/lib/state.svelte.ts:245 | each tier saved as its label and values; `Persistence.SaveLoadRoundTrip` shows loading gives the tiers back |
| Persistence.Save | src/lib/state.svelte.ts:242-254 | the snapshot object with every saved field present; `Persistence.SaveLoadRoundTrip`, `Persistence.ValidRoundTrip` and `Persistence.LoadFixedPoint` are its partners |
| Persistence.Overlay | src/lib/state.svelte.ts:262-272 | every present field replaces the current one; the tiers keep their number and labels |
| Persistence.Pick | src/lib/state.svelte.ts:267 | a present field replaces the current value (`if (data.pool)` and the lines like it); `State.AppState.ApplySnapshot` is proved against it |
| Persistence.PickPhase | src/lib/state.svelte.ts:268 | the phase is taken only when present and non-zero; `Persistence.SaveLoadRoundTrip` needs a non-zero phase because of it |
| Persistence.RecoverStep | src/lib/state.svelte.ts:276-281 | the tiers keep their number and labels, and gain the value's id once, in tier S, exactly when it is in no tier and not in the pool |
| Persistence.InitialValid | src/lib/state.svelte.ts:19-30 | the initial state meets every invariant when the catalog ids are distinct |
| Persistence.OverlayTiers | src/lib/state.svelte.ts:262-266 | the tiers keep their number and labels |
| Persistence.OverlayTiersAt | src/lib/state.svelte.ts:263-265 | tier `i` takes the saved values at position `i` when that entry is present, and keeps its own otherwise |
| Persistence.Recover | src/lib/state.svelte.ts:274-282 | the tiers keep their number and labels |
| Persistence.RecoverSnoc | src/lib/state.svelte.ts:275-281 | recovering one more ranked value is one more step of the forEach |
| Persistence.Load | src/lib/state.svelte.ts:256-287 | no snapshot changes nothing; the tiers keep their number and labels |
| Persistence.RecoverResident | src/lib/state.svelte.ts:274-282 | after recovery every ranked value is in a tier or the pool, and no tier value is lost |
| Persistence.RecoverAppends | src/lib/state.svelte.ts:280 | recovery only appends ranked values to tier S and leaves every other tier alone |
| Persistence.RecoverKeepsResident | src/lib/state.svelte.ts:276-278 | a value already in a tier or in the pool is never added again |
| Persistence.RecoverCount | src/lib/state.svelte.ts:274-282 | for any tiers and pool, recovery adds one tier copy of an id exactly when a ranked value has that id and it was in no tier and not in the pool, and none otherwise |
| Persistence.RecoverExclusive | src/lib/state.svelte.ts:274-282 | recovery never puts an id in two places when the tiers and pool had none there; derived from `Persistence.RecoverCount` |
| Persistence.RecoverNoop | src/lib/state.svelte.ts:274-282 | when every ranked value is resident, recovery does nothing |
| Persistence.RecoverIdempotent | src/lib/state.svelte.ts:274-282 | running recovery twice has the effect of running it once |
| Persistence.LoadRanksResident | src/lib/state.svelte.ts:256-287 | after a load every ranked value is in a tier or the pool |
| Persistence.LoadExclusive | src/lib/state.svelte.ts:256-287 | a load keeps exclusive ownership when the loaded tiers and pool had it |
| Persistence.SaveLoadRoundTrip | src/lib/state.svelte.ts:242-287 | loading a saved state gives it back when its phase is non-zero and its ranked values are resident |
| Persistence.ValidRoundTrip | src/lib/state.svelte.ts:242-287 | a state meeting the invariants, with a non-zero phase, loads back unchanged over the initial state |
| Persistence.LoadFixedPoint | src/lib/state.svelte.ts:242-287 | whatever was loaded, saving it and loading that again changes nothing |
| Persistence.LoadKeepsRankedInPool | src/lib/state.svelte.ts:276-278 | a ranked value that the snapshot has only in the pool stays in the pool and stays ranked |
| Scenarios.MoveIntoEmptySlot | src/lib/state.svelte.ts:186-189 | [A,_,B,_,_] with A moved to slot 1 gives [_,A,B,_,_] |
| Scenarios.MoveOntoOccupiedSlot | src/lib/state.svelte.ts:190-197 | [A,B,C,_,_] with C moved onto slot 0 gives [C,A,B,_,_] |
| Scenarios.AdmitIntoPartialTop5 | src/lib/state.svelte.ts:212-221 | [A,B,C,_,_] with D admitted at slot 1 gives [A,D,B,C,_] |
| Scenarios.AdmitIntoFullTop5 | src/lib/state.svelte.ts:212-221 | [A,B,C,D,E] with F admitted at slot 0 gives [F,A,B,C,D] |
| Scenarios.AdmitPastOccupants | src/lib/state.svelte.ts:213 | [A,_,_,_,_] with B admitted at slot 3 gives [A,B,_,_,_] |

## Left out

- src/lib/tooltipStore.ts holds UI tooltip coordinates and has no logic. It is not part of this model.
- `handleDragStart`, `handleDragOver`, `handleTop5Drop` and `handlePoolDrop` (lines 107-131) are not modelled, because they work on DOM drag events. `handleTop5Drop` and `handlePoolDrop` read the id out of the event and call `moveValueToTop5` or `moveValue`, which are modelled. `handleDragStart` writes the id into the event and clears the selection (`selectedCardId = null`); that clearing is not modelled. `handleDragOver` only calls `preventDefault`.
- `toggleHelp`/`showHelp`, the `window.scrollTo` in `goToPhase`, and `handleReset` are not modelled. They are browser UI: `window.confirm`, `location.reload` and removing the stored entry.
- Storage, `JSON.stringify`/`JSON.parse` and the `console.error` of a failed parse are not modelled. A missing, unreadable or unparsable entry is the snapshot `None`. A snapshot field is `None` when it is missing or falsy, except `currentPhase`, whose 0 is carried as `Some(0)` and ignored by `Persistence.PickPhase`. Fields of the wrong type are not modelled.
- Svelte reactivity is not modelled. Derived values are functions. The seeding effect is the method `SeedReflections`, which a caller runs after a change. The save effect is the function `Persistence.Save`. The order in which Svelte runs effects is not modelled.
- The catalog of `./values` is not shown, so it is the constructor's `catalog` parameter. `Date.now()` is the `stamp` parameter of `AddCustomValue`.
- Tier colours and descriptions are display data. Only the labels are kept.
- Text.Trim: strings are sequences of Unicode characters, not UTF-16 code units. Every character `trim` removes is a single code unit, so the two agree on what is removed, but lone surrogates are not modelled.
- State.AppState.MoveValueToTop5: requires a five-slot Top-5 and an index below 5. The application always keeps five slots; only a loaded snapshot can bring a Top-5 of another length, and the model states the moves for five slots only. An index of 5 or more behaves differently per branch. For a ranked value the target `top5[index]` is undefined, so the code writes the value past slot 4 and the array grows; the model does not follow that write. For a tier value not yet ranked, `splice` inserts after the occupants and the new array still has five slots, so the result is that of an index equal to the number of occupants (when all five slots are full, the newcomer is inserted last and popped again). The model leaves this case out with the other.
- State.AppState.RemoveFromTop5: requires an index inside the Top-5. A larger index would make the code extend the array.
- State.AppState.Load: requires at least one tier, which the five fixed tiers always give. With no tiers, `tiers[0]` in the recovery pass would throw.
- State.AppState.MoveValue: promises to keep the invariants only for the pool or one of the five labels as target. A label no tier has drops the value, and a dropped ranked value is then in no tier (`Placement.MoveToMissingTierDrops`).
- State.AppState.AddCustomValue: promises to keep the invariants only when `"custom-" + stamp` is not already an id in the tiers or the pool. Two values created in the same millisecond would share an id.
- Reflections.Seeded: the three record stores are maps. In the application they are plain objects, whose truthiness test also sees inherited keys, so an id such as `constructor` or `toString` reads as present and is never seeded there; the model seeds it like any other id.
- State.AppState.constructor: does not run the save and seeding effects, which Svelte runs after construction. `SeedReflections` and `Persistence.Save` model them.
