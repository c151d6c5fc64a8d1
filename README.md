# Relic scoring and store model for hsr_project

hsr_project is a web tool for Honkai: Star Rail players. They keep a roster of
characters and an inventory of relics. Each character holds weight presets.
The tool scores every relic against a "perfect relic" built for the
character's active preset.

This Dafny project models the logic behind that:

- the relic scorer and the perfect-relic generator (`RelicScoring`, `PerfectRelic`);
- the character and weight-preset utilities (`CharacterUtils`);
- the pure store transformers of the application store (`StoreOps`);
- the JSON relic importer (`ImportRelic`);
- the validation chain of the manual relic-entry form (`AddRelicForm`).

It also proves properties of all of these.

The game's static tables are the main-stat values, substat ranges and roll
values, legal main stats per slot, the set lists, and the flat/percent
roll constants. They are not built in. Every operation takes them as a
`GameData.Tables` value, so each proof holds for any table contents.

Three behaviours of the host platform are parameters:

- number-to-text conversion (`NumberFormat`);
- the string order used by `localeCompare` (`CharacterUtils.StrLess`, a code-point lexicographic order);
- the routine that attaches perfect relics to a preset (`gen`).

Scores are `real`.

Module layout:

- `types.dfy` (`Types`): the entities of `src/types/index.ts`:
  - `Stat`, `Relic` and `RelicType`;
  - `WeightPreset`, `Character` and `AppStore`.
- `game_data.dfy` (`GameData`): `Tables`, plus the JavaScript `||` default lookup (`Or`).
- `seq_util.dfy` (`SeqUtil`): subsequence, distinctness, `Min`.
- `js_text.dfy` (`JsText`): JavaScript white space and `trimStart`, used by the `parseInt` model.
- `character_utils.dfy` (`CharacterUtils`): `src/utils/characterUtils.ts`.
  - The four preset editors change the character inside the store in place.
  - So they are methods of the class `StoreHandle`, whose field `store` they reassign.
- `relic_scoring.dfy` (`RelicScoring`): the score parts and the grade ladder of `src/utils/relicScoring.ts`.
- `perfect_relic.dfy` (`PerfectRelic`): `findBestMainStat`, `findBestSubstats`, `generatePerfectRelic` and `calculateRelicScore`.
  - These are methods with their loops.
  - Each method is proved equal to a specification function whose properties are proved as lemmas.
- `store_ops.dfy` (`StoreOps`): the nine store transformers of `src/store/StoreContext.tsx`, as functions from store to store.
- `import_relic.dfy` (`ImportRelic`): `src/utils/importRelic.ts`.
- `add_relic_form.dfy` (`AddRelicForm`): `handleAddRelic`, `getAvailableSubStats` and `handleMainStatChange` of `src/components/AddRelicForm.tsx`.

## Model

| member | source | states |
|---|---|---|
| CharacterUtils.FindCharacter | src/utils/characterUtils.ts:96-98 | the index found is the first character with the id; None exactly when no character has it |
| CharacterUtils.GetCharacterByID | src/utils/characterUtils.ts:96-98 | None iff no character has the id; otherwise the first stored character with that id |
| CharacterUtils.FindPreset | src/utils/characterUtils.ts:167-168 | the index found is the first preset with the id; None exactly when none has it |
| CharacterUtils.HasPresetNamed | src/utils/characterUtils.ts:109 | true iff some preset has the name |
| CharacterUtils.GetCurrentWeightFromCharacter | src/utils/characterUtils.ts:189-198 | a preset is returned iff the active id is the default's or a listed preset's; it carries the active id; the default one when the ids match |
| CharacterUtils.GetCurrentWeightPreset | src/utils/characterUtils.ts:177-188 | None for an unknown character; else the active preset of the first character with the id |
| CharacterUtils.GetCharacterAlias | src/utils/characterUtils.ts:63-69 | an alias exactly when the alias table has the id |
| CharacterUtils.CreateNewWeightPreset | src/utils/characterUtils.ts:80-89 | a preset with exactly the given name, weights, main stats, sets and default flag, under the caller-supplied id |
| CharacterUtils.CreateCharacter | src/utils/characterUtils.ts:20-55 | error iff the id is missing from the character or game table; otherwise no presets, nothing equipped, a default preset named Default under the given id with the table's base HP/ATK/DEF, and an active preset that resolves |
| CharacterUtils.PresetAdded | src/utils/characterUtils.ts:105-117 | refuses a default preset; leaves the character unchanged when the name is taken; otherwise appends the generated preset |
| CharacterUtils.WithoutPreset | src/utils/characterUtils.ts:128 | keeps, in order and with their multiplicity, exactly the presets with another id |
| CharacterUtils.PresetRemoved | src/utils/characterUtils.ts:124-137 | no preset with the id remains, all others are kept in order and with their multiplicity; an active id that was removed falls back to the default; nothing else changes |
| CharacterUtils.ActivePresetSet | src/utils/characterUtils.ts:144-155 | refused iff the id is neither the default's nor a listed preset's; otherwise only the active id changes, and it resolves |
| CharacterUtils.PresetUpdated | src/utils/characterUtils.ts:162-175 | refused iff no preset has the id; otherwise the first preset with the id is replaced by the generated preset |
| CharacterUtils.AddKeepsActiveResolved | src/utils/characterUtils.ts:105-117 | adding a preset keeps the active preset resolvable |
| CharacterUtils.RemoveKeepsActiveResolved | src/utils/characterUtils.ts:124-137 | removing a preset keeps the active preset resolvable (the fallback to the default) |
| CharacterUtils.UpdateKeepsActiveResolved | src/utils/characterUtils.ts:162-175 | replacing a preset keeps the active preset resolvable |
| CharacterUtils.StoreHandle.constructor | src/store/StoreContext.tsx:26 | the handle holds the given store |
| CharacterUtils.StoreHandle.AddWeightPreset | src/utils/characterUtils.ts:105-117 | unknown character: None, store unchanged; otherwise the result is PresetAdded of the first such character, and that character is replaced with it in place |
| CharacterUtils.StoreHandle.RemoveWeightPreset | src/utils/characterUtils.ts:124-137 | unknown character: None, store unchanged; otherwise the first such character becomes PresetRemoved of itself |
| CharacterUtils.StoreHandle.SetActivePreset | src/utils/characterUtils.ts:144-155 | unknown character: None, store unchanged; otherwise ActivePresetSet of the first such character, written back when accepted |
| CharacterUtils.StoreHandle.UpdateWeightPreset | src/utils/characterUtils.ts:162-175 | unknown character: None, store unchanged; otherwise PresetUpdated of the first such character, written back when accepted |
| CharacterUtils.StrLessIrreflexive | src/utils/characterUtils.ts:215 | the name order used for sorting is irreflexive |
| CharacterUtils.StrLessTransitive | src/utils/characterUtils.ts:215 | the name order is transitive |
| CharacterUtils.StrLessAsymmetric | src/utils/characterUtils.ts:215 | the name order is asymmetric |
| CharacterUtils.StrLessTotal | src/utils/characterUtils.ts:215 | the name order is total |
| CharacterUtils.GenerateRelicId | src/utils/characterUtils.ts:208-225 | the id of a relic; RelicIdIgnoresSubstatOrder states that it does not depend on the order of distinctly named substats |
| CharacterUtils.InsertByName | src/utils/characterUtils.ts:215 | inserting into a name-sorted list keeps it sorted and adds exactly the element |
| CharacterUtils.SortByName | src/utils/characterUtils.ts:215 | the result is sorted by name and is a permutation of the input |
| CharacterUtils.SortedByNameUnique | src/utils/characterUtils.ts:215 | two name-sorted permutations of a list with distinct names are equal |
| CharacterUtils.RelicIdIgnoresSubstatOrder | src/utils/characterUtils.ts:208-225 | the relic id does not depend on the order of substats with distinct names |
| CharacterUtils.GetRelicMainStatValue | src/utils/characterUtils.ts:227-229 | the table's main-stat value, 0 when absent |
| GameData.Or | src/utils/relicScoring.ts:26 | the table value when present and non-zero, else the default (JavaScript `||`) |
| GameData.RangeMax | src/utils/relicScoring.ts:54 | the range maximum, 0 when the stat is absent |
| RelicScoring.FlatStatWeightFor | src/utils/relicScoring.ts:18-34 | 0 when a low-roll reference is missing or 0; otherwise weight × 2 × base × percent low roll equals the percent weight × flat low roll |
| RelicScoring.CalculateFlatStatWeight | src/utils/relicScoring.ts:18-44 | 0 without an active preset; otherwise the derived weight under the active preset, with the character's base HP/ATK/DEF |
| RelicScoring.CalculateFlatStatNormalization | src/utils/relicScoring.ts:51-60 | 1 when a reference value is missing; otherwise normalization × percent main value × flat high roll equals 64.8 × percent high roll |
| RelicScoring.SubstatScoreFor | src/utils/relicScoring.ts:69-89 | a substat's score under a preset; SubstatScoreLinear states it is additive and homogeneous in the value, CalculateSubstatScore ties it to the active preset |
| RelicScoring.CalculateSubstatScore | src/utils/relicScoring.ts:69-89 | 0 without an active preset; otherwise the substat score under the active preset |
| RelicScoring.SubstatScoreLinear | src/utils/relicScoring.ts:79-88 | a substat's score is additive and homogeneous in its value |
| RelicScoring.MainstatScoreFor | src/utils/relicScoring.ts:106-120 | a recommended main stat scores the full 64.8; any other scores a tenth of 64.8 × weight × normalization |
| RelicScoring.CalculateMainstatScore | src/utils/relicScoring.ts:97-121 | 0 on Head and Hand and without a preset; otherwise MainstatScoreFor under the active preset |
| RelicScoring.RecommendedMainStatDominates | src/utils/relicScoring.ts:112-120 | a recommended main stat scores at least as much as any other whose weight × normalization is at most 10, and strictly more below 10 |
| RelicScoring.SetScoreFor | src/utils/relicScoring.ts:134-148 | the set score is 1 or 0.6, and 1 exactly when the set is among the preset's sets of its own family |
| RelicScoring.CalculateSetScore | src/utils/relicScoring.ts:129-149 | 0 without an active preset; otherwise SetScoreFor under it |
| RelicScoring.SumOfPermutation | src/utils/relicScoring.ts:159-162 | a sum over substats is the same for any permutation of them |
| RelicScoring.CalculateRelic | src/utils/relicScoring.ts:157-172 | the loop computes (sum of substat scores + main-stat score) × set score |
| RelicScoring.RawScore | src/utils/relicScoring.ts:157-172 | (substat scores + main-stat score) × set score; CalculateRelic, RawScoreWithoutPreset, RawScoreIgnoresSubstatOrder and PerfectRelic.RawScoreGrowsWithMainStat state its properties |
| RelicScoring.RawScoreWithoutPreset | src/utils/relicScoring.ts:157-172 | without an active preset every relic scores 0 |
| RelicScoring.RawScoreIgnoresSubstatOrder | src/utils/relicScoring.ts:157-172 | relics differing only in substat order score the same |
| RelicScoring.LadderIndex | src/utils/relicScoring.ts:393-406 | the reference ladder index stays within the tiers |
| RelicScoring.GetRelicGrade | src/utils/relicScoring.ts:388-407 | the grade is the tier of the first threshold the percentage reaches, F when a score is not positive |
| RelicScoring.LadderIndexFirstReached | src/utils/relicScoring.ts:393-406 | a percentage sits at tier k exactly when it reaches threshold k and no earlier one |
| RelicScoring.LadderIndexMonotone | src/utils/relicScoring.ts:393-406 | a higher percentage never lands on a lower tier |
| RelicScoring.GradeMonotone | src/utils/relicScoring.ts:388-407 | against a fixed ideal, a higher actual score never gets a worse grade |
| RelicScoring.GradeBoundaries | src/utils/relicScoring.ts:388-407 | 95% is WTF, just below is SSS, 0 or negative scores and a 0 ideal give F |
| PerfectRelic.ScanBestFindsFirstBest | src/utils/relicScoring.ts:223-242 | the main-stat scan skips flat stats and returns the first remaining stat of highest score when it beats the seed score, else the seed |
| PerfectRelic.BestMainStatIsFirstArgmax | src/utils/relicScoring.ts:210-244 | without recommended main stats the chosen one is the first legal non-flat stat of highest score, or "" when every such score is at most -1 |
| PerfectRelic.BestMainStatFor | src/utils/relicScoring.ts:199-245 | HP on Head, ATK on Hand, "" on a flexible slot without legal main stats, the first recommended main stat when the preset lists one; otherwise BestMainStatIsFirstArgmax states the scan's choice |
| PerfectRelic.BestMainStat | src/utils/relicScoring.ts:199-245 | HP on Head and ATK on Hand before any preset check; otherwise an error iff no active preset, else the choice under the active preset |
| PerfectRelic.FindBestMainStat | src/utils/relicScoring.ts:199-245 | the method with its loop returns BestMainStat |
| PerfectRelic.AvailableSubstats | src/utils/relicScoring.ts:261 | exactly the table's substats other than the main stat |
| PerfectRelic.AvailableSubstatsOrdered | src/utils/relicScoring.ts:261 | the filter keeps table order and distinctness |
| PerfectRelic.RankCandidates | src/utils/relicScoring.ts:266-283 | one scored entry per candidate, in order, with its ranking score |
| PerfectRelic.InsertByScore | src/utils/relicScoring.ts:286 | one longer, headed by the new element or the old head |
| PerfectRelic.SortByScore | src/utils/relicScoring.ts:286 | the sort keeps the length |
| PerfectRelic.InsertByScorePermutes | src/utils/relicScoring.ts:286 | insertion adds exactly the element |
| PerfectRelic.InsertByScoreSorted | src/utils/relicScoring.ts:286 | insertion keeps descending score order |
| PerfectRelic.SortByScorePermutes | src/utils/relicScoring.ts:286 | the sort is a permutation |
| PerfectRelic.SortByScoreSorted | src/utils/relicScoring.ts:286 | the sort orders by descending score |
| PerfectRelic.SortKeepsNamesDistinct | src/utils/relicScoring.ts:286 | the sort keeps names distinct |
| PerfectRelic.SortByScoreStable | src/utils/relicScoring.ts:286 | the sort is stable: entries of equal score keep their order |
| PerfectRelic.Phase1 | src/utils/relicScoring.ts:306-313 | one roll to each of the first budget substats, none after, budget-capped in total |
| PerfectRelic.RolledIsProduct | src/utils/relicScoring.ts:306-328 | a value built roll by roll is count × roll value |
| PerfectRelic.ExtraWithinCap | src/utils/relicScoring.ts:320-328 | extra rolls keep a substat within its range |
| PerfectRelic.ExtraStopsAtCap | src/utils/relicScoring.ts:320-328 | extra rolls stop only when another roll would leave the range, or the budget is spent |
| PerfectRelic.RollAllocation | src/utils/relicScoring.ts:297-329 | at most the budget in all; each of the first budget substats gets a roll; extra rolls stay in range; a later substat gets extra rolls only once every earlier one is full |
| PerfectRelic.FirstRolls | src/utils/relicScoring.ts:306-313 | phase 1 of the loop gives one roll to the first substats and returns the remaining budget |
| PerfectRelic.ExtraRolls | src/utils/relicScoring.ts:317-328 | the inner loop adds exactly Extra rolls and spends them from the budget |
| PerfectRelic.AllocateRolls | src/utils/relicScoring.ts:297-329 | both loops produce the values of RollCounts |
| PerfectRelic.TopCandidatesRanked | src/utils/relicScoring.ts:261-289 | the kept candidates number min(4, available), are table substats other than the main stat with their own score, in descending order, distinct when the table is |
| PerfectRelic.TopCandidatesDominate | src/utils/relicScoring.ts:286-289 | no candidate left out ranks above one kept |
| PerfectRelic.AssignRollsFacts | src/utils/relicScoring.ts:292-331 | each substat's value is its roll count times its roll value, within the allocation's guarantees |
| PerfectRelic.BestSubstatsRolled | src/utils/relicScoring.ts:254-332 | at most four substats, each taking at least one roll |
| PerfectRelic.BestSubstats | src/utils/relicScoring.ts:254-332 | an error iff no active preset; otherwise the substats chosen under it |
| PerfectRelic.RankSubstats | src/utils/relicScoring.ts:266-283 | the ranking loop builds RankCandidates |
| PerfectRelic.FindBestSubstats | src/utils/relicScoring.ts:254-332 | the method returns BestSubstats |
| PerfectRelic.PerfectSetName | src/utils/relicScoring.ts:353-364 | the first preferred set of the slot's family, "" when there is none |
| PerfectRelic.PerfectRelic | src/utils/relicScoring.ts:340-380 | an error iff no active preset; otherwise the perfect relic under it |
| PerfectRelic.PerfectRelicShape | src/utils/relicScoring.ts:340-380 | the slot asked for, the best main stat (BestMainStatFor) with its table main value, the preset's first set of the slot's family (PerfectSetName), the best substats for that main stat (BestSubstatsFor), an id describing it, a preferred set or none, at most four substats, none the main stat, distinct when the table's are |
| PerfectRelic.PerfectRelicFor | src/utils/relicScoring.ts:340-380 | the perfect relic under a preset; PerfectRelicShape states its fields |
| PerfectRelic.CombineGrowsWithMainStat | src/utils/relicScoring.ts:171 | (s + m) × k grows with m when k is positive |
| PerfectRelic.RawScoreGrowsWithMainStat | src/utils/relicScoring.ts:157-172 | under an active preset, of two relics with the same substats and set the one with the higher main-stat score has the higher raw score |
| PerfectRelic.UnrecommendedMainStatAboveFull | src/utils/relicScoring.ts:106-120 | an unrecommended main stat of weight × normalization above 10 scores more than the full 64.8 of a recommended one |
| PerfectRelic.UnrecommendedMainStatCanScoreMore | src/utils/relicScoring.ts:97-172 | swapping a main stat that earns the full score for an unrecommended one with weight × normalization above 10 strictly raises the raw score |
| PerfectRelic.PerfectRelicNotUpperBound | src/utils/relicScoring.ts:199-245 | the perfect relic of a slot that has recommended main stats is beaten by the same relic with a legal, unrecommended main stat of weight × normalization above 10 |
| PerfectRelic.PerfectRelicMainStatRecommended | src/utils/relicScoring.ts:216-221 | a preset's first recommended main stat earns the full main-stat score |
| PerfectRelic.PerfectRelicSetScoreFull | src/utils/relicScoring.ts:129-149 | a set filed under the slot's own family earns the full set score |
| PerfectRelic.GeneratePerfectRelic | src/utils/relicScoring.ts:340-380 | the method returns PerfectRelic |
| PerfectRelic.RelicScore | src/utils/relicScoring.ts:180-191 | an error iff no active preset; otherwise the percentage and grade of the relic's raw score against the raw score of its slot's perfect relic under that preset |
| PerfectRelic.ScoreGradeAgree | src/utils/relicScoring.ts:180-191 | the grade is F when the percentage is not finite, not positive, or the ideal is negative; otherwise the ladder tier of the percentage |
| PerfectRelic.ScoreOfSelf | src/utils/relicScoring.ts:180-191 | a positive score against itself is 100% and WTF |
| PerfectRelic.PerfectRelicScoresFull | src/utils/relicScoring.ts:180-191 | the perfect relic, when its score is positive, scores 100% and WTF |
| PerfectRelic.CalculateRelicScore | src/utils/relicScoring.ts:180-191 | the method returns RelicScore |
| StoreOps.UpdateWherePointwise | src/store/StoreContext.tsx:35-42 | the map replaces exactly the entries with the id |
| StoreOps.LookupIsGetCharacterByID | src/utils/characterUtils.ts:96-98 | the store lookup is getCharacterByID |
| StoreOps.RemoveCharacterCounts | src/store/StoreContext.tsx:118-120 | the character filter keeps each character with another id as often as it occurred, and none with the id |
| StoreOps.RemoveRelicCounts | src/store/StoreContext.tsx:146 | the relic filter keeps each relic with another id as often as it occurred, and none with the id |
| StoreOps.RemoveCharacterFacts | src/store/StoreContext.tsx:116-122 | the filter keeps, in order and with their multiplicity, exactly the characters with another id |
| StoreOps.LookupRemove | src/store/StoreContext.tsx:116-122 | after the filter the id is not found and other lookups are unchanged |
| StoreOps.RemoveRelicFacts | src/store/StoreContext.tsx:143-147 | the filter keeps, in order and with their multiplicity, exactly the relics with another id, and changes nothing when no relic has it |
| StoreOps.AddCharacterLookup | src/store/StoreContext.tsx:28-33 | appending without a duplicate check: an earlier character with the id still wins; relics unchanged |
| StoreOps.AddCharacter | src/store/StoreContext.tsx:28-33 | appends the character; AddCharacterLookup states the lookups it gives |
| StoreOps.UpdateCharacterFacts | src/store/StoreContext.tsx:35-42 | every character with the id is replaced, nothing else changes, the lookup then finds the new one |
| StoreOps.UpdateCharacterIdempotent | src/store/StoreContext.tsx:35-42 | updating twice is updating once |
| StoreOps.UpdateCharacter | src/store/StoreContext.tsx:35-42 | replaces the characters with the id; UpdateCharacterFacts and UpdateCharacterIdempotent state its effect |
| StoreOps.DeleteCharacterFacts | src/store/StoreContext.tsx:116-122 | exactly the characters with another id remain, in order and with their multiplicity; relics untouched |
| StoreOps.DeleteCharacterLookup | src/store/StoreContext.tsx:116-122 | the deleted id is not found; other lookups unchanged |
| StoreOps.DeleteCharacter | src/store/StoreContext.tsx:116-122 | drops the characters with the id; DeleteCharacterFacts and DeleteCharacterLookup state its effect |
| StoreOps.AddRelicFacts | src/store/StoreContext.tsx:44-55 | the relic id is stored afterwards; a stored id leaves the store unchanged, a new one appends the relic at the end; characters unchanged |
| StoreOps.AddRelicIdempotent | src/store/StoreContext.tsx:44-55 | adding the same relic twice is adding it once |
| StoreOps.AddRelicToEmpty | src/store/StoreContext.test.tsx:57-72 | adding one relic to an empty store leaves exactly that relic |
| StoreOps.AddRelic | src/store/StoreContext.tsx:44-55 | appends a relic of a new id; AddRelicFacts and AddRelicIdempotent state its effect |
| StoreOps.NewRelicsFacts | src/store/StoreContext.tsx:59-61 | the batch filter keeps, in batch order and with their multiplicity, exactly the relics whose id is not stored |
| StoreOps.AddRelicsFacts | src/store/StoreContext.tsx:57-70 | the store gains exactly the new batch relics, with their multiplicity in the batch, at its end; characters unchanged |
| StoreOps.AddRelicsSingle | src/store/StoreContext.tsx:44-70 | a batch of one is addRelic |
| StoreOps.AddRelicsKeepsBatchDuplicates | src/store/StoreContext.tsx:57-70 | a new id repeated inside one batch is stored twice |
| StoreOps.AddRelics | src/store/StoreContext.tsx:57-70 | appends the batch relics of new ids; AddRelicsFacts, AddRelicsSingle and AddRelicsKeepsBatchDuplicates state its effect |
| StoreOps.NewRelicsCounts | src/store/StoreContext.tsx:59-61 | the batch filter keeps each batch relic of a new id as often as the batch has it, and none of a stored id |
| StoreOps.ReplaceRelicPointwise | src/store/StoreContext.tsx:72-79 | the map replaces exactly the relics with the id |
| StoreOps.UpdateRelicFacts | src/store/StoreContext.tsx:72-79 | same length and ids; exactly the relics with the id are replaced; characters unchanged |
| StoreOps.UpdateRelic | src/store/StoreContext.tsx:72-79 | replaces the relics with the id; UpdateRelicFacts states its effect |
| StoreOps.WithoutRelic | src/store/StoreContext.tsx:127-134 | the slot map loses exactly the slots naming the relic |
| StoreOps.ClearRelic | src/store/StoreContext.tsx:126-140 | every character has exactly its slots naming the relic cleared |
| StoreOps.DeleteRelicFacts | src/store/StoreContext.tsx:124-148 | no relic has the id and no slot names it; every other relic is kept, in order and with its multiplicity; characters keep everything but the slots naming it |
| StoreOps.DeleteUndoesAdd | src/store/StoreContext.test.tsx:74-92 | deleting a relic just added, which nobody equipped, restores the store |
| StoreOps.DeleteRelic | src/store/StoreContext.tsx:124-148 | drops the relic and clears every slot naming it; DeleteRelicFacts, DeleteUndoesAdd and DeleteRelicKeepsEquipsResolve state its effect |
| StoreOps.RemoveAppend | src/store/StoreContext.tsx:146 | the relic filter distributes over an appended relic |
| StoreOps.EquipRelicFacts | src/store/StoreContext.tsx:81-97 | only the named slot of the characters with the id changes, to the relic; the rest is unchanged |
| StoreOps.UnequipRelicFacts | src/store/StoreContext.tsx:99-114 | only the named slot of the characters with the id is removed; the rest is unchanged |
| StoreOps.EquipRelic | src/store/StoreContext.tsx:81-97 | sets one slot of the characters with the id; EquipRelicFacts and EquipKeepsEquipsResolve state its effect |
| StoreOps.UnequipRelic | src/store/StoreContext.tsx:99-114 | clears one slot of the characters with the id; UnequipRelicFacts and UnequipUndoesEquip state its effect |
| StoreOps.UnequipUndoesEquip | src/store/StoreContext.tsx:81-114 | unequipping right after equipping the same slot is just unequipping |
| StoreOps.DeleteRelicKeepsEquipsResolve | src/store/StoreContext.tsx:124-148 | deleting a relic keeps every equipped slot pointing at a stored relic |
| StoreOps.EquipKeepsEquipsResolve | src/store/StoreContext.tsx:81-114 | equipping a stored relic, and unequipping, keep every slot resolvable |
| StoreOps.AddRelicsKeepEquipsResolve | src/store/StoreContext.tsx:44-70 | adding relics keeps every slot resolvable |
| ImportRelic.MapSlotToRelicType | src/utils/importRelic.ts:10-21 | a known slot name maps to the type it names; any other maps to Head |
| ImportRelic.MapSlotRoundTrip | src/utils/importRelic.ts:10-21 | mapping each type's export name gives the type back |
| ImportRelic.DigitPrefix | src/utils/importRelic.ts:30 | the longest prefix of decimal digits |
| ImportRelic.DigitChar | src/utils/importRelic.ts:30 | the digit character of each value below 10 |
| ImportRelic.NatToDecimal | src/utils/importRelic.ts:30 | a non-empty digit string |
| ImportRelic.DecimalValue | src/utils/importRelic.ts:30 | a decimal numeral reads back as its number |
| ImportRelic.DigitPrefixOfDigits | src/utils/importRelic.ts:30 | parsing stops at the first non-digit |
| ImportRelic.ParseIntMinus | src/utils/importRelic.ts:30 | a leading minus negates the parsed digits |
| ImportRelic.ParseIntNonNegative | src/utils/importRelic.ts:30 | parseInt reads back a non-negative numeral followed by any non-digit text |
| ImportRelic.ParseIntNegative | src/utils/importRelic.ts:30 | parseInt reads back a negative numeral followed by any non-digit text |
| ImportRelic.ParseIntDecimal | src/utils/importRelic.ts:30 | parseInt inverts integer-to-decimal text, followed by any non-digit text |
| ImportRelic.ParseInt | src/utils/importRelic.ts:30 | `parseInt(s, 10)`; ParseIntNonNegative, ParseIntNegative, ParseIntMinus and ParseIntDecimal state what it reads |
| ImportRelic.FindSet | src/utils/importRelic.ts:33-37 | the first set with the id; None exactly when no set has it |
| ImportRelic.MapSetIdToInternalName | src/utils/importRelic.ts:28-42 | an unparsable id gives relic_unknown; otherwise the first matching relic set, then the first matching ornament set, else relic_unknown |
| ImportRelic.StripTrailingUnderscores | src/utils/importRelic.ts:51 | the longest prefix not ending in '_', everything removed being '_' |
| ImportRelic.CleanSubstatKeyIdempotent | src/utils/importRelic.ts:49-67 | a cleaned key never ends in '_' and cleaning it again changes nothing |
| ImportRelic.CleanSubstatKey | src/utils/importRelic.ts:49-67 | the cleaned substat key; CleanSubstatKeyIdempotent states it is a fixed point of cleaning |
| ImportRelic.ConvertSubstats | src/utils/importRelic.ts:100-103 | one stat per substat, with the cleaned key and the value |
| ImportRelic.ConvertedRelicWellFormed | src/utils/importRelic.ts:84-117 | an entry converts iff its substats and keys are present; the relic then has the id generated from its own fields, the table main value, and its substats' count and values |
| ImportRelic.ConvertRelic | src/utils/importRelic.ts:84-117 | one entry's conversion; ConvertedRelicWellFormed states when it succeeds and what it builds |
| ImportRelic.SomesCorrespond | src/utils/importRelic.ts:83-122 | the kept results are exactly the successful entries, in input order |
| ImportRelic.ConvertAll | src/utils/importRelic.ts:83-122 | one conversion outcome per entry |
| ImportRelic.ImportedCorrespond | src/utils/importRelic.ts:83-122 | every imported relic is the conversion of a successful input entry, in input order, and every successful entry is imported |
| ImportRelic.ImportRelicsFromJson | src/utils/importRelic.ts:74-125 | invalid input gives []; otherwise the loop returns the successful conversions, skipping the entries that throw |
| AddRelicForm.ValidSubStatsFacts | src/components/AddRelicForm.tsx:166 | exactly the filled substats, in order and with their multiplicity |
| AddRelicForm.StatNames | src/components/AddRelicForm.tsx:185-186 | the names of the stats, in order |
| AddRelicForm.HandleAddRelicRejectionOrder | src/components/AddRelicForm.tsx:158-207 | each rejection happens exactly when its check fails and every earlier one passes: main stat, four substats, ranges, duplicates, legal main stat, stored id |
| AddRelicForm.AcceptedChecks | src/components/AddRelicForm.tsx:158-209 | an accepted form passed every check and yields the relic built from its fields and its filled substats |
| AddRelicForm.ChecksPassAccepted | src/components/AddRelicForm.tsx:158-209 | a form passing every check is accepted with that relic |
| AddRelicForm.HandleAddRelic | src/components/AddRelicForm.tsx:158-228 | the validation chain; HandleAddRelicRejectionOrder, AcceptedChecks, ChecksPassAccepted and AcceptedRelicValid state its outcomes |
| AddRelicForm.AcceptedRelicValid | src/components/AddRelicForm.tsx:158-209 | an accepted relic has a legal main stat, at least four in-range filled substats, distinct names, none the main stat, and a new id |
| AddRelicForm.NamesApart | src/components/AddRelicForm.tsx:185-191 | distinct form names keep the filled substats apart from the main stat and from each other |
| AddRelicForm.SubmitRelicEffect | src/components/AddRelicForm.tsx:158-228 | a rejected form leaves form and store unchanged; an accepted one appends its relic, keeps the characters, and resets the form to its slot, a cleared main stat, four cleared substats and the first set of the slot's family |
| AddRelicForm.SpeedTwentyRejected | src/components/AddRelicForm.test.tsx:129-168 | Speed 20 against a maximum of 15 is rejected as out of range and nothing is stored |
| AddRelicForm.SampleRelicAccepted | src/components/AddRelicForm.test.tsx:87-127 | the sample Hand/ATK relic with HP 100 first of four substats is accepted and becomes the only stored relic |
| AddRelicForm.Unused | src/components/AddRelicForm.tsx:47 | exactly the table entries not used, in table order and with their multiplicity |
| AddRelicForm.GetAvailableSubStats | src/components/AddRelicForm.tsx:36-48 | in table order, exactly the substats that are neither the main stat nor the named substat of another row |
| AddRelicForm.MainStatChangeClears | src/components/AddRelicForm.tsx:50-68 | a new main-stat name takes the table value, and exactly the substats of that name are cleared |
| AddRelicForm.MainStatValueChangeIgnored | src/components/AddRelicForm.tsx:69-72 | a change of the value field leaves the form unchanged |
| AddRelicForm.HandleMainStatChange | src/components/AddRelicForm.tsx:50-73 | the main-stat edit; MainStatChangeClears and MainStatValueChangeIgnored state its effect |
| JsText.TrimStart | src/utils/importRelic.ts:30 | the result is empty or starts with a non-space, and is no longer than the input |
| JsText.TrimStartRemovesSpace | src/utils/importRelic.ts:30 | the result is a suffix; everything removed is white space; it is empty iff the text is blank |

## Left out

- I/O and the user interface are not part of this model:
  - React state and effects, `localStorage` persistence (`useLocalStorage`), `alert` and `console`.
  - A store transformer is a function from the old store to the new one; a form handler returns the rejection reason instead of alerting.
- The JSON tables (relicData.json, statConstants.json, characterData.json, gameData.json, aliasData.json) are parameters, so their contents are not fixed.
- IEEE-754 arithmetic: scores are exact reals.
  - `PerfectRelic.RelicScore`: the percentage is None where JavaScript would produce `Infinity`/`NaN` from a division by an ideal score of 0.
  - `RelicScoring.CalculateFlatStatWeight` requires positive base HP/ATK/DEF (`FlatBaseStatsPositive`), where JavaScript would divide by 0. `RelicScoring.CalculateSubstatScore`, `RelicScoring.RawScore`, `RelicScoring.CalculateRelic`, `PerfectRelic.RelicScore`, `PerfectRelic.CalculateRelicScore` and `PerfectRelic.PerfectRelicScoresFull` carry the same requirement. It also excludes a character with a zero base stat whose relics have no flat substats, which the source scores without dividing.
- `PerfectRelic.PerfectRelicNotUpperBound`: the perfect relic is not an upper bound of the raw score. A legal main stat the preset does not recommend, with weight × normalization above 10, beats the recommended one, so a percentage above 100 is possible; the model states this rather than a dominance property.
- `localeCompare` in the relic id's substat sort is replaced by code-point lexicographic order (`CharacterUtils.StrLess`), because locale collation tables are not available.
- `Array.prototype.sort` (the id's substat sort, the substat ranking) is a stable insertion sort, because the engine's sort is not visible. As a library routine it is a function, not a loop.
- Number-to-string conversion in the relic id is the `NumberFormat` parameter.
- `crypto.randomUUID` in `createNewWeightPreset` is the caller-supplied id.
- `generatePerfectRelicsforWeightPreset` is not part of this model. It is a parameter `gen` assumed to keep a preset's id, name and default flag.
- `ImportRelic.ParseInt`: `parseInt(s, 10)` is modelled over unbounded integers; beyond 2^53 JavaScript loses precision. White space is the JavaScript set of listed code points.
- A thrown exception (`Invalid character ID`, a missing `substats` array or substat key in an import entry) is an `Err`/`None` result.
- A non-object import entry is treated like one without substats.
- A missing `slot`, `set_id` or `mainstat` field is treated as a string value, because optional strings would not change any branch the model takes.
- Object-prototype keys (`"constructor"`, `"toString"`) looked up in the JavaScript key maps are not modelled: tables are Dafny maps.
- `AddRelicForm.HandleAddRelicRejectionOrder`: `allStats.mainStats[type]` throws when the slot has no entry; the model treats that as the illegal-main-stat rejection.
- `handleSubStatChange`, `getAvailableMainStats` and the form's `useEffect` are UI wiring and are not modelled.
- The form's own copy of `generateRelicId` (AddRelicForm.tsx:139-156) is the same as the one in characterUtils.ts, and is modelled once (`CharacterUtils.GenerateRelicId`).
- `AddRelicForm.SubmitRelicEffect`: requires the slot's set family to be non-empty, because the form's reset reads its first set (AddRelicForm.tsx:223-227).
- `CharacterUtils.StoreHandle`: the preset editors mutate the character object inside the store; the model writes back the same character index. Aliasing of that object with other references is not modelled.
