# Gameplay JSON schema validator, modelled in Dafny

This project models `scripts/tools/validate_json_data.py`. The tool checks the
game's four data collections before the game loads them:

- skills in `Skill.json`
- enemies in `EnemyStat.json`
- passives in `Passive.json`
- quests in `Quest.json`

It has four layers, and the model keeps all of them:

- **Primitive checks** (module `Schema`). `IsInt` is "an integer, not a
  boolean". `ExpectKeys` lists the required keys missing from a record.
- **Stat-block sub-validator** (`Schema.ValidateStatBlock`). It checks
  `STR`/`INT`/`DEX`/`VIT`.
- **Four record validators** (`Schema.ValidateSkill`, `ValidateEnemy`,
  `ValidatePassive`, `ValidateQuest`). Each one climbs a fixed ladder of
  checks and reports the first failure, as a `Reason` value. `Schema.ReasonText`
  gives the exact message for a `Reason`.
- **File driver and entry point** (module `Driver`). `ValidateFile` is the row
  loop of `_validate_file`: a method over the already-parsed document, with an
  accumulating defect list and a growing `seen` set. `RunValidation` is `main`:
  a loop over the four targets that concatenates their defects and returns the
  exit status.

Each method is proved against a specification function:

- `ValidateFile` against `FileOutcome`, which is built from `ScanRows`.
- `RunValidation` against `RunOutcome`.

The remaining modules state what the source promises:

- `Ladder` writes each validator's check order out as data. It proves that the
  validator reports the first failing rung, so a record passes iff every rung
  passes.
- `SchemaProperties` covers missing keys, wrong types, booleans, stat blocks
  and nested objects.
- `DriverProperties` covers per-row reporting, duplicate ids, row order,
  aggregation and the exit status.
- `Scenarios` covers concrete data sets.

Python values appear as the `JsonValue.Json` datatype: the value kinds
`json.load` produces. A float is kept only as its `str()` text.

The duplicate-id check keeps the source's behaviour exactly. It tests the raw
id against `seen`, but `seen` stores `str(id)`. As a consequence:

- Only a string id can be flagged as a duplicate.
- An integer id 5 followed by a string id "5" is flagged.
- Two integer ids 5 are not flagged.
- A list or object id makes `row_id in seen` raise `TypeError`. The model
  carries this as `Outcome.Raised(file, index)`. The run then ends there, and
  the interpreter exits with status 1.

Two behaviours of the code fall short of what its own structure shows it is
meant to do. The duplicate check (lines 183-184) shows ids are meant to be
unique, and the row loop (lines 177-191) collects every error, so a complete
report is meant. The model follows the code:

- Only string ids can be flagged as duplicates
  (`Scenarios.RepeatedIntIdIsNotDuplicate`). An integer id still fails
  "id must be string", so that row is reported anyway.
- A list or object id ends the run with an uncaught exception instead of a
  report (`DriverProperties.ScanRaisesIffUnhashableId`).

Check order and messages:

- Each validator checks its fields in the order the code writes them, and the
  `Ladder` module records that order. For example:
  - Skill checks `status_effect` and `description` after `resource_cost`.
  - Enemy checks `reward` after `skills`, `passive_effects` and
    `ai_pattern`.
  - Passive checks `active_effect` and `description` after `stat_bonus`.
  - Quest checks `objectives` before `rewards`.
- `resource_cost` and `reward` are checked inline, with their own messages
  (`resource_cost missing keys: [...]`, `resource_cost.mp must be int`). Only
  the stat block has a sub-validator, whose reason is prefixed with the field
  name.
- Key lists in messages are printed as Python's list repr, with quotes:
  `missing keys: ['resource_cost']`. `Schema.ReasonText` gives that text.

## Model

| member | source | states |
|---|---|---|
| JsonValue.TypeName | scripts/tools/validate_json_data.py:179 | `type(row).__name__` is non-empty, and is "dict", "bool" or "int" exactly for objects, booleans or integers |
| JsonValue.Stringify | scripts/tools/validate_json_data.py:185 | `str(row_id)` of a string id is the string itself, so a recorded string id can later be found |
| JsonValue.DecimalString | scripts/tools/validate_json_data.py:182 | the index text in `<missing-id:index>` is non-empty, with a leading '-' exactly for negative numbers |
| JsonValue.DigitsRoundTrip | scripts/tools/validate_json_data.py:182 | the digits `str(index)` writes read back as the index itself |
| JsonValue.DecimalStringInjective | scripts/tools/validate_json_data.py:182 | different integers have different `str()` texts |
| Schema.IsInt | scripts/tools/validate_json_data.py:18-19 | "integer but not boolean": booleans are a separate `Json` kind, so `IsInt` holds only for `Int`. `SchemaProperties.BooleanIsNotInt`, `StatValueIsNamed` and `PairValueIsNamed` show every integer field rejecting `true`/`false` |
| Schema.ValidateSkill | scripts/tools/validate_json_data.py:108-139 | no ensures of its own. `Ladder.SkillLadderAgrees` states it is the first failing check in the code's order; `SchemaProperties.MissingKeysReported`, `SkillWrongType`, `SkillCostValue` and `SkillCostRemoval` state its reasons |
| Schema.ValidateEnemy | scripts/tools/validate_json_data.py:42-78 | no ensures of its own. `Ladder.EnemyLadderAgrees` states it is the first failing check in the code's order; `SchemaProperties.EnemyWrongType`, `EnemyWrongStatBlock`, `EnemyRewardValue` and `EnemyRewardRemoval` state its reasons |
| Schema.ValidatePassive | scripts/tools/validate_json_data.py:81-105 | no ensures of its own. `Ladder.PassiveLadderAgrees` states it is the first failing check in the code's order; `SchemaProperties.PassiveWrongType` and `PassiveWrongStatBlock` state its reasons |
| Schema.ValidateQuest | scripts/tools/validate_json_data.py:142-163 | no ensures of its own. `Ladder.QuestLadderAgrees` states it is the first failing check in the code's order; `SchemaProperties.QuestWrongType` states its reasons |
| Driver.RowId | scripts/tools/validate_json_data.py:182 | no ensures of its own. `DriverProperties.RowWithoutIdReported` and `IdlessRowDuplicate` state how the `<missing-id:index>` placeholder is reported and compared |
| Driver.AlreadySeen | scripts/tools/validate_json_data.py:183 | no ensures of its own. `DriverProperties.DuplicateInRowDefects` and `DuplicateIffEarlierId` state that only a string id found in `seen` is a duplicate |
| Driver.RowDefects | scripts/tools/validate_json_data.py:178-189 | no ensures of its own. `DriverProperties.RowDefectsOrder` states the order within a row: the duplicate first, then the validator's reason. `RowDefectsAt`, `NonObjectRowReported`, `InvalidRowReported` and `ValidRowNotReported` state what one row contributes |
| Driver.FileOutcome | scripts/tools/validate_json_data.py:171-191 | no ensures of its own. `Driver.ValidateFile` is proved equal to it, and gives the single container defect of lines 172-174; `DriverProperties.ScanIsRowByRow` states the row-by-row result |
| Driver.RunOutcome | scripts/tools/validate_json_data.py:202-204 | no ensures of its own. `DriverProperties.RunIsFold`, `RunConcatenatesInOrder` and `ExitZeroIffEveryFileClean` state that it concatenates the files' defects in target order and when it is empty |
| Schema.Validate | scripts/tools/validate_json_data.py:195-200 | no ensures of its own. `Ladder.LadderAgrees` states that the validator each target uses is the first failure of that record type's ladder |
| Driver.ScanRows | scripts/tools/validate_json_data.py:177-191 | no ensures of its own. `Driver.ValidateFile` is proved equal to it; `DriverProperties.ScanIsRowByRow`, `ScanIsInRowOrder` and `ScanRaisesIffUnhashableId` state its properties |
| Driver.ExitStatus | scripts/tools/validate_json_data.py:206-213 | no ensures of its own. `DriverProperties.ExitZeroIffEveryFileClean` states the status is 0 exactly when every file completes with no defect |
| Schema.ExpectKeys | scripts/tools/validate_json_data.py:22-23 | the missing list is empty iff every required key is present |
| SchemaProperties.ExpectKeysExact | scripts/tools/validate_json_data.py:22-23 | `_expect_keys` returns exactly the required keys absent from the row, keeping the declared order |
| SchemaProperties.ExpectKeysSamePresence | scripts/tools/validate_json_data.py:22-23 | the result depends only on which required keys are present |
| SchemaProperties.ExpectKeysAfterRemoval | scripts/tools/validate_json_data.py:22-23 | removing one required key from a complete record makes exactly that key missing |
| Schema.NonIntKeys | scripts/tools/validate_json_data.py:35 | the wrong-type list holds exactly the stat keys whose values are not integers |
| SchemaProperties.NonIntKeysExact | scripts/tools/validate_json_data.py:35 | the wrong-type list is exactly the non-integer keys, in STR/INT/DEX/VIT order |
| SchemaProperties.NonIntKeysAllInt | scripts/tools/validate_json_data.py:35 | all-integer values give an empty wrong-type list |
| SchemaProperties.NonIntKeysAfterChange | scripts/tools/validate_json_data.py:35 | setting one key of an all-integer block to a non-integer makes exactly that key wrong |
| Schema.ValidateStatBlock | scripts/tools/validate_json_data.py:26-39 | a stat block passes iff it is an object whose four stat keys are all present and integers |
| SchemaProperties.StatBlockReasons | scripts/tools/validate_json_data.py:26-39 | a non-object fails first; then exactly the missing stat keys in order; then exactly the non-integer keys in order |
| SchemaProperties.StatBlockValueChange | scripts/tools/validate_json_data.py:35-37 | one non-integer value in a valid block is reported as that single key |
| SchemaProperties.StatBlockKeyRemoval | scripts/tools/validate_json_data.py:31-33 | one removed key from a valid block is reported as that single missing key |
| Ladder.FirstFailureNone | scripts/tools/validate_json_data.py:108-139 | a check ladder reports nothing iff every rung passes |
| Ladder.FirstFailureSome | scripts/tools/validate_json_data.py:108-139 | a ladder reports r iff some rung fails with r and every rung above it passes |
| Ladder.FirstFailureRungs | scripts/tools/validate_json_data.py:108-139 | each rung either reports its own reason or defers to the rungs below it |
| Ladder.SkillLadderAgrees | scripts/tools/validate_json_data.py:108-139 | `_validate_skill` is the first failure of its ladder, with `effect_value` before `resource_cost` and `status_effect`/`description` after it |
| Ladder.EnemyLadderAgrees | scripts/tools/validate_json_data.py:42-78 | `_validate_enemy` is the first failure of its ladder: keys, id, name, rank, base_stats, the three lists, then reward |
| Ladder.PassiveLadderAgrees | scripts/tools/validate_json_data.py:81-105 | `_validate_passive` is the first failure of its ladder, with `stat_bonus` before `active_effect` and `description` |
| Ladder.QuestLadderAgrees | scripts/tools/validate_json_data.py:142-163 | `_validate_quest` is the first failure of its ladder |
| Ladder.LadderAgrees | scripts/tools/validate_json_data.py:196-199 | whichever validator a target uses, it equals the first failure of that record type's ladder |
| Ladder.ValidIffEveryRungPasses | scripts/tools/validate_json_data.py:42-163 | a record is accepted (None) iff every check of its validator passes |
| Ladder.FirstFailingRungIsReported | scripts/tools/validate_json_data.py:42-163 | when several checks fail, the reason reported is that of the earliest one in the code's order |
| SchemaProperties.MissingKeysReported | scripts/tools/validate_json_data.py:43-46 | "missing keys" is reported iff some required key is absent, and then it names exactly the absent keys in declared order and nothing else |
| SchemaProperties.NoMissingKeysOnceAllPresent | scripts/tools/validate_json_data.py:43-46 | with every required key present, no validator reports "missing keys" |
| SchemaProperties.SkillWrongType | scripts/tools/validate_json_data.py:114-137 | in a valid skill, one top-level field of the wrong shape is reported by that field's own message |
| SchemaProperties.EnemyWrongType | scripts/tools/validate_json_data.py:48-68 | in a valid enemy, one top-level field of the wrong shape is reported by that field's own message |
| SchemaProperties.EnemyWrongTypeHead | scripts/tools/validate_json_data.py:48-57 | as EnemyWrongType for id, name, rank and base_stats |
| SchemaProperties.EnemyWrongTypeTail | scripts/tools/validate_json_data.py:59-68 | as EnemyWrongType for skills, passive_effects, ai_pattern and reward |
| SchemaProperties.PassiveWrongType | scripts/tools/validate_json_data.py:87-103 | in a valid passive, one field of the wrong shape is reported by that field's own message |
| SchemaProperties.PassiveWrongTypeHead | scripts/tools/validate_json_data.py:87-94 | as PassiveWrongType for id, name, rarity and max_level |
| SchemaProperties.PassiveWrongTypeTail | scripts/tools/validate_json_data.py:96-103 | as PassiveWrongType for stat_bonus, active_effect and description |
| SchemaProperties.QuestWrongType | scripts/tools/validate_json_data.py:148-161 | in a valid quest, one field of the wrong shape is reported by that field's own message |
| SchemaProperties.WrongTypeIsNamed | scripts/tools/validate_json_data.py:42-163 | for every record type, one mistyped field of a valid record is reported as that field's "must be ..." or stat-block reason |
| SchemaProperties.BooleanIsNotInt | scripts/tools/validate_json_data.py:18-19 | `true`/`false` in any integer field of a valid record (rank, max_level, effect_value, time_limit) is rejected with that field's "must be int" |
| SchemaProperties.RequiredKeysDistinct | scripts/tools/validate_json_data.py:43 | each validator's required-key list has no repeats |
| SchemaProperties.KeyRemovalIsNamed | scripts/tools/validate_json_data.py:44-46 | removing one required key from a valid record gives "missing keys" naming exactly that key |
| SchemaProperties.StatKeysDistinct | scripts/tools/validate_json_data.py:30 | the stat keys have no repeats |
| SchemaProperties.StatValueIsNamed | scripts/tools/validate_json_data.py:55-57 | a non-integer (booleans included) stat value in a valid enemy or passive gives "base_stats/stat_bonus invalid: stat values must be int" for that one key |
| SchemaProperties.StatKeyRemovalIsNamed | scripts/tools/validate_json_data.py:96-98 | a removed stat key in a valid enemy or passive gives "invalid: missing stat keys" for that one key |
| SchemaProperties.EnemyWrongStatBlock | scripts/tools/validate_json_data.py:55-57 | any failing base_stats in a valid enemy is reported with the "base_stats invalid: " prefix and the stat-block reason |
| SchemaProperties.PassiveWrongStatBlock | scripts/tools/validate_json_data.py:96-98 | any failing stat_bonus in a valid passive is reported with the "stat_bonus invalid: " prefix and the stat-block reason |
| SchemaProperties.PairValueIsNamed | scripts/tools/validate_json_data.py:73-76 | a non-integer (booleans included) `resource_cost.mp/ki` or `reward.gold/exp` in a valid record is reported as that nested field's "must be int" |
| SchemaProperties.SkillCostValue | scripts/tools/validate_json_data.py:129-132 | a non-integer mp or ki in a valid skill is reported as "resource_cost.mp/ki must be int" |
| SchemaProperties.EnemyRewardValue | scripts/tools/validate_json_data.py:73-76 | a non-integer gold or exp in a valid enemy is reported as "reward.gold/exp must be int" |
| SchemaProperties.PairKeyRemovalIsNamed | scripts/tools/validate_json_data.py:126-128 | removing mp/ki or gold/exp from a valid record is reported as "<field> missing keys" naming that key |
| SchemaProperties.SkillCostRemoval | scripts/tools/validate_json_data.py:126-128 | removing mp or ki in a valid skill gives "resource_cost missing keys" naming it |
| SchemaProperties.EnemyRewardRemoval | scripts/tools/validate_json_data.py:70-72 | removing gold or exp in a valid enemy gives "reward missing keys" naming it |
| Schema.KeyListText | scripts/tools/validate_json_data.py:33 | the key list in a message is bracketed like Python's list repr |
| Schema.ReasonText | scripts/tools/validate_json_data.py:42-163 | every validator reason has a non-empty message |
| Driver.ScanPrefix | scripts/tools/validate_json_data.py:177-191 | scanning one more row is one more loop iteration over the ids seen so far |
| Driver.ValidateFile | scripts/tools/validate_json_data.py:171-191 | the row loop's result is the scan of the rows; an absent or non-array list gives exactly one container defect and looks at no row |
| Driver.RaisedPersists | scripts/tools/validate_json_data.py:183 | once `row_id in seen` has raised, later rows do not change the outcome |
| Driver.RunValidation | scripts/tools/validate_json_data.py:194-213 | `main`'s loop yields the concatenated outcome of the four targets in order, and status 0 exactly for an empty defect list |
| Driver.RunRaisedPersists | scripts/tools/validate_json_data.py:203-204 | an exception in one file ends the run with it |
| DriverProperties.DefectsAtConcat | scripts/tools/validate_json_data.py:177-191 | selecting one row's defects distributes over concatenation |
| DriverProperties.DefectsAtNone | scripts/tools/validate_json_data.py:177-191 | a list with no defect on a row selects nothing for it |
| DriverProperties.DefectsAtAll | scripts/tools/validate_json_data.py:177-191 | a list of defects all on one row selects itself |
| DriverProperties.RowDefectsAt | scripts/tools/validate_json_data.py:178-189 | one row contributes at most two defects, all naming that row and that file |
| DriverProperties.RowDefectsOrder | scripts/tools/validate_json_data.py:183-189 | within an object row, the duplicate-id defect is first and the validator's reason last; a duplicate invalid row gives exactly `[DuplicateId, InvalidRow]` |
| DriverProperties.DuplicateInRowDefects | scripts/tools/validate_json_data.py:182-184 | a row is flagged duplicate iff it is an object whose id is a string already in `seen` |
| DriverProperties.RaisesAtPrefix | scripts/tools/validate_json_data.py:183 | whether a row raises does not depend on the rows after it |
| DriverProperties.ScanRaisesAtFirst | scripts/tools/validate_json_data.py:182-183 | a raised scan names its file and stops at the first object row with a list or object id |
| DriverProperties.ScanRaisesIffUnhashableId | scripts/tools/validate_json_data.py:182-183 | a scan raises iff some object row's id is a list or an object |
| DriverProperties.ScanIsInRowOrder | scripts/tools/validate_json_data.py:177-191 | every defect names an existing row, and defects appear in non-decreasing row order |
| DriverProperties.ScanIsRowByRow | scripts/tools/validate_json_data.py:177-191 | every row is visited: the defects filed under row i are exactly that row's own defects given the ids of the rows before it |
| DriverProperties.RowByRowStep | scripts/tools/validate_json_data.py:177-191 | appending the last row's defects keeps every earlier row's report and adds the last row's |
| DriverProperties.LastRowDefects | scripts/tools/validate_json_data.py:177-191 | the defects of the newest row are exactly those it appended |
| DriverProperties.EarlierRowUnchanged | scripts/tools/validate_json_data.py:177-191 | a later row does not change an earlier row's report |
| DriverProperties.SeenIdsMembers | scripts/tools/validate_json_data.py:185 | `seen` holds exactly `str(id)` of the object rows scanned so far |
| DriverProperties.SeenIdsBefore | scripts/tools/validate_json_data.py:185 | `seen` before row i holds exactly the ids recorded by rows 0..i-1 |
| DriverProperties.ScanDefectOrigin | scripts/tools/validate_json_data.py:177-191 | every defect in the list comes from its own row's checks |
| DriverProperties.DuplicateIffEarlierId | scripts/tools/validate_json_data.py:182-185 | row i is flagged duplicate iff its id is a string equal to `str(id)` of an earlier object row |
| DriverProperties.DefectsAtHas | scripts/tools/validate_json_data.py:177-191 | every defect is among the defects of the row it names |
| DriverProperties.DefectsAtIn | scripts/tools/validate_json_data.py:177-191 | a row's defects are all in the file's list |
| DriverProperties.OnlyStringIdsAreDuplicates | scripts/tools/validate_json_data.py:183-184 | every duplicate-id defect carries a string id |
| DriverProperties.NonObjectRowReported | scripts/tools/validate_json_data.py:178-180 | a non-object row yields exactly one "row must be object, got <type>" defect and nothing else |
| DriverProperties.InvalidRowReported | scripts/tools/validate_json_data.py:187-189 | an object row the validator rejects is reported with its id, the reason and the row, even when it is also a duplicate |
| DriverProperties.ValidRowNotReported | scripts/tools/validate_json_data.py:187-189 | an object row the validator accepts gets no invalid-row defect |
| DriverProperties.RowWithoutIdReported | scripts/tools/validate_json_data.py:182 | a row without `id` fails with "missing keys" naming id, reported under `<missing-id:index>` |
| DriverProperties.PlaceholdersDiffer | scripts/tools/validate_json_data.py:182 | the `<missing-id:index>` placeholders of two different rows differ |
| DriverProperties.IdlessRowDuplicate | scripts/tools/validate_json_data.py:182-185 | a row without `id` is flagged as a duplicate exactly when an earlier row's own `id` has the string form `<missing-id:i>`, so two rows without ids never flag each other |
| DriverProperties.CleanRowsHaveNoDefects | scripts/tools/validate_json_data.py:177-191 | valid object rows with distinct string ids give an empty defect list |
| DriverProperties.RunPrefixStep | scripts/tools/validate_json_data.py:203-204 | one more target appends that file's outcome to the run's |
| DriverProperties.AppendCompleted | scripts/tools/validate_json_data.py:204 | extending completes iff both parts complete, and is empty iff both parts are |
| DriverProperties.FileOutcomes | scripts/tools/validate_json_data.py:203-204 | the per-file outcomes, one per target, in target order |
| DriverProperties.RunIsFold | scripts/tools/validate_json_data.py:202-204 | the run's outcome is the fold of the per-file outcomes |
| DriverProperties.FoldCompletedIff | scripts/tools/validate_json_data.py:202-204 | a fold completes iff every file completes |
| DriverProperties.FoldCleanIff | scripts/tools/validate_json_data.py:202-206 | a fold is empty iff every file is |
| DriverProperties.RunCompletesIffFilesComplete | scripts/tools/validate_json_data.py:202-204 | the run completes iff no file raises |
| DriverProperties.ExitZeroIffEveryFileClean | scripts/tools/validate_json_data.py:206-213 | `main` returns 0 iff every file completes with no defect |
| DriverProperties.RunOfFour | scripts/tools/validate_json_data.py:202-204 | four completed files give their defects concatenated in target order |
| DriverProperties.RunConcatenatesInOrder | scripts/tools/validate_json_data.py:195-204 | the combined list is Skill's, then Enemy's, then Passive's, then Quest's defects |
| Scenarios.StatBlockValid | scripts/tools/validate_json_data.py:26-39 | a block with four integer stats passes |
| Scenarios.Fixture | scripts/tools/validate_json_data.py:182 | fixture (test input, not a model of the cited line): each fixture record carries the given string id |
| Scenarios.SkillFixtureValid | scripts/tools/validate_json_data.py:108-139 | a fully typed skill passes |
| Scenarios.EnemyFixtureShape | scripts/tools/validate_json_data.py:42-78 | the enemy fixture has every field in its expected shape |
| Scenarios.EnemyFixtureValid | scripts/tools/validate_json_data.py:42-78 | a fully typed enemy passes |
| Scenarios.PassiveFixtureShape | scripts/tools/validate_json_data.py:81-105 | the passive fixture has every field in its expected shape |
| Scenarios.PassiveFixtureValid | scripts/tools/validate_json_data.py:81-105 | a fully typed passive passes |
| Scenarios.QuestFixtureValid | scripts/tools/validate_json_data.py:142-163 | a fully typed quest passes |
| Scenarios.FixturesAreValid | scripts/tools/validate_json_data.py:42-163 | every record type has a record its validator accepts |
| Scenarios.Document | scripts/tools/validate_json_data.py:172 | fixture (test input, not a model of the cited line): a document holds its rows under its list key |
| Scenarios.DataSetOutcomes | scripts/tools/validate_json_data.py:195-204 | each file's outcome in a four-document data set is the scan of its rows |
| Scenarios.SingleValidRecordIsClean | scripts/tools/validate_json_data.py:177-191 | a file with one valid record has no defect |
| Scenarios.CleanDataSetPasses | scripts/tools/validate_json_data.py:206-213 | four documents of valid, uniquely identified records give no defect and exit 0 |
| Scenarios.SkillWithoutCost | scripts/tools/validate_json_data.py:182 | fixture (test input, not a model of the cited line): the broken skill record has string id "b" |
| Scenarios.SkillWithoutCostIsMissingCost | scripts/tools/validate_json_data.py:109-112 | a skill lacking only `resource_cost` fails with "missing keys: ['resource_cost']" |
| Scenarios.ValidThenInvalidRow | scripts/tools/validate_json_data.py:177-191 | a valid row then an invalid row with a different string id gives exactly one invalid-row defect at index 1 |
| Scenarios.BrokenSkillFileReportsOneDefect | scripts/tools/validate_json_data.py:177-191 | a Skill file with a valid record and one missing `resource_cost` reports exactly one defect naming id "b" |
| Scenarios.OneSkillDefectFailsRun | scripts/tools/validate_json_data.py:202-210 | one Skill defect and clean other files give that one defect and exit 1 |
| Scenarios.BrokenSkillRunFails | scripts/tools/validate_json_data.py:202-210 | the broken Skill data set reports exactly that defect and exits 1 |
| Scenarios.IntIdThenEqualStringIdIsDuplicate | scripts/tools/validate_json_data.py:183-185 | an integer id 5 followed by a string id "5" is flagged as a duplicate |
| Scenarios.RepeatedIntIdIsNotDuplicate | scripts/tools/validate_json_data.py:183-185 | two integer ids 5 are never flagged as duplicates |
| Scenarios.ListIdRaisesAtItsRow | scripts/tools/validate_json_data.py:182-183 | a list id raises at its own row, and the rows after it are not looked at |

## Left out

- Path resolution, opening the file and `json.load` (lines 14-15, 167-169). The driver receives the parsed document. A root that is not an object, on which `root.get` would raise, is excluded by a precondition on `Driver.ValidateFile` and `Driver.RunValidation`.
- Driver.ValidateFile: does not carry the `json.dumps(row)` rendering (line 189). The defect carries the row itself.
- Driver.ValidateFile: does not build the error line's text. A defect holds its file, index, id, reason and row as values. `Schema.ReasonText` gives the reason's exact message, but `str(row_id)` inside the line is not rendered.
- Driver.RunValidation: does not print the report or call `SystemExit` (lines 207-212, 216-217). It returns the status.
- Driver.RunValidation: when a row's id is a list or an object, the source dies with an uncaught `TypeError`. The model returns `Raised` with status 1, which is the interpreter's exit status in that case.
- Floating-point JSON numbers are kept as their `str()` text only. No arithmetic is done on them. Their text is assumed to be the one Python prints.
- Python's `str()` of an id is modelled for the values a hashable id can take: None, booleans, integers, floats and strings.
