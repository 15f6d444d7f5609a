/**
 Concrete scenarios: one valid record per record type, the end-to-end runs
 over a clean data set and over a Skill collection with one broken record, and
 the behaviour of duplicate-id detection on ids that are not strings.
 */
module Scenarios {
  import opened JsonValue
  import opened Schema
  import opened Driver
  import opened SchemaProperties
  import opened DriverProperties

  function StatBlock(): Json {
    Obj(map["STR" := Int(10), "INT" := Int(8), "DEX" := Int(6), "VIT" := Int(12)])
  }

  lemma StatBlockValid()
    ensures ValidateStatBlock(StatBlock()) == None
  {
    var fields := StatBlock().fields;
    assert StatKeys[0] in fields && StatKeys[1] in fields && StatKeys[2] in fields && StatKeys[3] in fields;
  }

  /** A Skill record with every required key, each of the right type. */
  function SkillFixture(id: string): Row {
    map["id" := Str(id), "name" := Str("Fireball"), "type" := Str("magic"),
        "resource_cost" := Obj(map["mp" := Int(5), "ki" := Int(0)]),
        "status_effect" := Str("burn"), "effect_value" := Int(30), "description" := Str("A ball of fire.")]
  }

  function EnemyFixture(id: string): Row {
    map["id" := Str(id), "name" := Str("Slime"), "rank" := Int(1), "base_stats" := StatBlock(),
        "skills" := Arr([Str("tackle")]), "passive_effects" := Arr([]), "ai_pattern" := Arr([Str("attack")]),
        "reward" := Obj(map["gold" := Int(3), "exp" := Int(5)])]
  }

  function PassiveFixture(id: string): Row {
    map["id" := Str(id), "name" := Str("Iron Skin"), "rarity" := Str("common"), "max_level" := Int(5),
        "stat_bonus" := StatBlock(), "active_effect" := Str("none"), "description" := Str("Harder skin.")]
  }

  function QuestFixture(id: string): Row {
    map["id" := Str(id), "name" := Str("First Steps"), "type" := Str("main"),
        "objectives" := Arr([Str("talk")]), "time_limit" := Int(0),
        "rewards" := Obj(map["gold" := Int(10)]), "branching_flags" := Arr([])]
  }

  function Fixture(kind: RecordKind, id: string): (row: Row)
    ensures "id" in row && row["id"] == Str(id)
  {
    match kind
    case Skill => SkillFixture(id)
    case Enemy => EnemyFixture(id)
    case Passive => PassiveFixture(id)
    case Quest => QuestFixture(id)
  }

  lemma SkillFixtureValid(id: string)
    ensures Validate(Skill, SkillFixture(id)) == None
  {
    var row := SkillFixture(id);
    assert SkillKeys[0] in row && SkillKeys[1] in row && SkillKeys[2] in row && SkillKeys[3] in row
      && SkillKeys[4] in row && SkillKeys[5] in row && SkillKeys[6] in row;
  }

  lemma EnemyFixtureShape(id: string)
    ensures var row := EnemyFixture(id);
            EnemyKeys[0] in row && EnemyKeys[1] in row && EnemyKeys[2] in row && EnemyKeys[3] in row &&
            EnemyKeys[4] in row && EnemyKeys[5] in row && EnemyKeys[6] in row && EnemyKeys[7] in row &&
            row["id"].Str? && row["name"].Str? && IsInt(row["rank"]) && row["base_stats"] == StatBlock() &&
            row["skills"].Arr? && row["passive_effects"].Arr? && row["ai_pattern"].Arr? &&
            row["reward"] == Obj(map["gold" := Int(3), "exp" := Int(5)])
  {
  }

  lemma EnemyFixtureValid(id: string)
    ensures Validate(Enemy, EnemyFixture(id)) == None
  {
    EnemyFixtureShape(id);
    StatBlockValid();
  }

  lemma PassiveFixtureShape(id: string)
    ensures var row := PassiveFixture(id);
            PassiveKeys[0] in row && PassiveKeys[1] in row && PassiveKeys[2] in row && PassiveKeys[3] in row &&
            PassiveKeys[4] in row && PassiveKeys[5] in row && PassiveKeys[6] in row &&
            row["id"].Str? && row["name"].Str? && row["rarity"].Str? && IsInt(row["max_level"]) &&
            row["stat_bonus"] == StatBlock() && row["active_effect"].Str? && row["description"].Str?
  {
  }

  lemma PassiveFixtureValid(id: string)
    ensures Validate(Passive, PassiveFixture(id)) == None
  {
    PassiveFixtureShape(id);
    StatBlockValid();
  }

  lemma QuestFixtureValid(id: string)
    ensures Validate(Quest, QuestFixture(id)) == None
  {
    var row := QuestFixture(id);
    assert QuestKeys[0] in row && QuestKeys[1] in row && QuestKeys[2] in row && QuestKeys[3] in row
      && QuestKeys[4] in row && QuestKeys[5] in row && QuestKeys[6] in row;
  }

  /** A record with every required key of the right type passes its validator, for each record type. */
  lemma FixturesAreValid(kind: RecordKind, id: string)
    ensures Validate(kind, Fixture(kind, id)) == None
  {
    match kind
    case Skill => SkillFixtureValid(id);
    case Enemy => EnemyFixtureValid(id);
    case Passive => PassiveFixtureValid(id);
    case Quest => QuestFixtureValid(id);
  }

  /** A collection document: an object holding the record array under its key. */
  function Document(listKey: string, rows: seq<Json>): (doc: Json)
    ensures doc.Obj? && listKey in doc.fields && doc.fields[listKey] == Arr(rows)
  {
    Obj(map[listKey := Arr(rows)])
  }

  /** A data set: the four collection documents, each holding its record array. */
  function DataSet(skills: seq<Json>, enemies: seq<Json>, passives: seq<Json>, quests: seq<Json>): map<string, Json> {
    map["Skill.json" := Document("skills", skills),
        "EnemyStat.json" := Document("enemies", enemies),
        "Passive.json" := Document("passives", passives),
        "Quest.json" := Document("quests", quests)]
  }

  /** Each target of a data set is the scan of its record array. */
  lemma DataSetOutcomes(skills: seq<Json>, enemies: seq<Json>, passives: seq<Json>, quests: seq<Json>)
    ensures Loaded(DataSet(skills, enemies, passives, quests), Targets)
    ensures TargetOutcome(DataSet(skills, enemies, passives, quests), Targets, 0) == ScanRows("Skill.json", Skill, skills)
    ensures TargetOutcome(DataSet(skills, enemies, passives, quests), Targets, 1) == ScanRows("EnemyStat.json", Enemy, enemies)
    ensures TargetOutcome(DataSet(skills, enemies, passives, quests), Targets, 2) == ScanRows("Passive.json", Passive, passives)
    ensures TargetOutcome(DataSet(skills, enemies, passives, quests), Targets, 3) == ScanRows("Quest.json", Quest, quests)
  {
    var documents := DataSet(skills, enemies, passives, quests);
    assert documents["Skill.json"] == Document("skills", skills);
    assert documents["EnemyStat.json"] == Document("enemies", enemies);
    assert documents["Passive.json"] == Document("passives", passives);
    assert documents["Quest.json"] == Document("quests", quests);
  }

  /** A collection holding one valid record has no defect. */
  lemma SingleValidRecordIsClean(file: string, kind: RecordKind, id: string)
    ensures ScanRows(file, kind, [Obj(Fixture(kind, id))]) == Completed([])
  {
    FixturesAreValid(kind, id);
    CleanRowsHaveNoDefects(file, kind, [Obj(Fixture(kind, id))]);
  }

  function CleanDocuments(): map<string, Json> {
    DataSet([Obj(Fixture(Skill, "fireball"))], [Obj(Fixture(Enemy, "slime"))],
            [Obj(Fixture(Passive, "iron_skin"))], [Obj(Fixture(Quest, "first_steps"))])
  }

  /** End to end: four collections of valid, uniquely identified records give no defect and exit status 0. */
  lemma CleanDataSetPasses()
    ensures Loaded(CleanDocuments(), Targets)
    ensures RunOutcome(CleanDocuments(), Targets) == Completed([])
    ensures ExitStatus(RunOutcome(CleanDocuments(), Targets)) == 0
  {
    DataSetOutcomes([Obj(Fixture(Skill, "fireball"))], [Obj(Fixture(Enemy, "slime"))],
                    [Obj(Fixture(Passive, "iron_skin"))], [Obj(Fixture(Quest, "first_steps"))]);
    SingleValidRecordIsClean("Skill.json", Skill, "fireball");
    SingleValidRecordIsClean("EnemyStat.json", Enemy, "slime");
    SingleValidRecordIsClean("Passive.json", Passive, "iron_skin");
    SingleValidRecordIsClean("Quest.json", Quest, "first_steps");
    RunConcatenatesInOrder(CleanDocuments(), [], [], [], []);
  }

  /** The second Skill record of the end-to-end scenario: valid except that it has no `resource_cost`. */
  function SkillWithoutCost(): (row: Row)
    ensures "id" in row && row["id"] == Str("b")
  {
    assert |"id"| != |"resource_cost"|;
    SkillFixture("b") - {"resource_cost"}
  }

  /** Removing `resource_cost` from a valid Skill record is reported as missing exactly that key. */
  lemma SkillWithoutCostIsMissingCost()
    ensures Validate(Skill, SkillWithoutCost()) == Some(MissingKeys(["resource_cost"]))
  {
    SkillFixtureValid("b");
    assert "resource_cost" == SkillKeys[3];
    KeyRemovalIsNamed(Skill, SkillFixture("b"), "resource_cost");
  }

  function BrokenSkillRows(): seq<Json> {
    [Obj(SkillFixture("a")), Obj(SkillWithoutCost())]
  }

  /** Two records with different string ids, the first valid: only the second's reason is reported. */
  lemma ValidThenInvalidRow(file: string, kind: RecordKind, good: Row, bad: Row, reason: Reason)
    requires Validate(kind, good) == None && Validate(kind, bad) == Some(reason)
    requires "id" in good && good["id"].Str? && "id" in bad && bad["id"].Str? && good["id"] != bad["id"]
    ensures ScanRows(file, kind, [Obj(good), Obj(bad)]) == Completed([InvalidRow(file, 1, bad["id"], reason, bad)])
  {
    var rows := [Obj(good), Obj(bad)];
    assert rows[..1] == [Obj(good)] && rows[..1][..0] == [];
    assert ScanRows(file, kind, rows[..1]) == Completed([]);
    assert SeenIds(rows[..1]) == {good["id"].s};
  }

  /**
   End to end, one file: of two Skill records, one valid and one without
   `resource_cost`, exactly the second is reported, under its own id and as
   missing exactly that key.
   */
  lemma BrokenSkillFileReportsOneDefect()
    ensures ScanRows("Skill.json", Skill, BrokenSkillRows()) ==
            Completed([InvalidRow("Skill.json", 1, Str("b"), MissingKeys(["resource_cost"]), SkillWithoutCost())])
  {
    SkillFixtureValid("a");
    SkillWithoutCostIsMissingCost();
    assert "a"[0] != "b"[0];
    ValidThenInvalidRow("Skill.json", Skill, SkillFixture("a"), SkillWithoutCost(), MissingKeys(["resource_cost"]));
  }

  function BrokenSkillDocuments(): map<string, Json> {
    DataSet(BrokenSkillRows(), [Obj(Fixture(Enemy, "slime"))],
            [Obj(Fixture(Passive, "iron_skin"))], [Obj(Fixture(Quest, "first_steps"))])
  }

  /** A run over a data set whose only defect is one in the Skill collection reports that defect alone and fails. */
  lemma OneSkillDefectFailsRun(skills: seq<Json>, enemies: seq<Json>, passives: seq<Json>, quests: seq<Json>, d: Defect)
    requires ScanRows("Skill.json", Skill, skills) == Completed([d])
    requires ScanRows("EnemyStat.json", Enemy, enemies) == Completed([])
    requires ScanRows("Passive.json", Passive, passives) == Completed([])
    requires ScanRows("Quest.json", Quest, quests) == Completed([])
    ensures Loaded(DataSet(skills, enemies, passives, quests), Targets)
    ensures RunOutcome(DataSet(skills, enemies, passives, quests), Targets) == Completed([d])
    ensures ExitStatus(RunOutcome(DataSet(skills, enemies, passives, quests), Targets)) == 1
  {
    DataSetOutcomes(skills, enemies, passives, quests);
    RunConcatenatesInOrder(DataSet(skills, enemies, passives, quests), [d], [], [], []);
    assert [d] + [] + [] + [] == [d];
  }

  /** End to end, the run: that one defect is the whole report, and the exit status is 1. */
  lemma BrokenSkillRunFails()
    ensures Loaded(BrokenSkillDocuments(), Targets)
    ensures RunOutcome(BrokenSkillDocuments(), Targets) ==
            Completed([InvalidRow("Skill.json", 1, Str("b"), MissingKeys(["resource_cost"]), SkillWithoutCost())])
    ensures ExitStatus(RunOutcome(BrokenSkillDocuments(), Targets)) == 1
  {
    BrokenSkillFileReportsOneDefect();
    SingleValidRecordIsClean("EnemyStat.json", Enemy, "slime");
    SingleValidRecordIsClean("Passive.json", Passive, "iron_skin");
    SingleValidRecordIsClean("Quest.json", Quest, "first_steps");
    OneSkillDefectFailsRun(BrokenSkillRows(), [Obj(Fixture(Enemy, "slime"))],
                           [Obj(Fixture(Passive, "iron_skin"))], [Obj(Fixture(Quest, "first_steps"))],
                           InvalidRow("Skill.json", 1, Str("b"), MissingKeys(["resource_cost"]), SkillWithoutCost()));
  }

  /**
   Ids are compared as the set holds them: an integer id 5 records "5", so a
   later string id "5" is flagged as a duplicate.
   */
  lemma IntIdThenEqualStringIdIsDuplicate()
    ensures var rows := [Obj(map["id" := Int(5)]), Obj(map["id" := Str("5")])];
            ScanRows("Quest.json", Quest, rows).Completed? &&
            DuplicateId("Quest.json", 1, Str("5")) in ScanRows("Quest.json", Quest, rows).defects
  {
    var rows := [Obj(map["id" := Int(5)]), Obj(map["id" := Str("5")])];
    ScanRaisesIffUnhashableId("Quest.json", Quest, rows);
    assert !RaisesAt(rows, 0) && !RaisesAt(rows, 1);
    var errs := ScanRows("Quest.json", Quest, rows).defects;
    assert DigitChar(5) == '5';
    assert RecordsId(rows, 0, "5");
    DuplicateIffEarlierId("Quest.json", Quest, rows, errs, 1, Str("5"));
  }

  /** ...but two equal integer ids are never flagged: only a string id is looked up as it is stored. */
  lemma RepeatedIntIdIsNotDuplicate()
    ensures var rows := [Obj(map["id" := Int(5)]), Obj(map["id" := Int(5)])];
            ScanRows("Quest.json", Quest, rows).Completed? &&
            forall i: nat, id: Json :: DuplicateId("Quest.json", i, id) !in ScanRows("Quest.json", Quest, rows).defects
  {
    var rows := [Obj(map["id" := Int(5)]), Obj(map["id" := Int(5)])];
    ScanRaisesIffUnhashableId("Quest.json", Quest, rows);
    assert !RaisesAt(rows, 0) && !RaisesAt(rows, 1);
    var errs := ScanRows("Quest.json", Quest, rows).defects;
    forall i: nat, id: Json
      ensures DuplicateId("Quest.json", i, id) !in errs
    {
      DuplicateIffEarlierId("Quest.json", Quest, rows, errs, i, id);
    }
  }

  /** A list id stops the scan with an error at that row; later rows are not looked at. */
  lemma ListIdRaisesAtItsRow()
    ensures var rows := [Obj(map["id" := Str("a")]), Obj(map["id" := Arr([Str("x")])]), Null];
            ScanRows("Quest.json", Quest, rows) == Raised("Quest.json", 1)
  {
    var rows := [Obj(map["id" := Str("a")]), Obj(map["id" := Arr([Str("x")])]), Null];
    ScanRaisesIffUnhashableId("Quest.json", Quest, rows);
    ScanRaisesAtFirst("Quest.json", Quest, rows);
    assert !RaisesAt(rows, 0) && RaisesAt(rows, 1);
  }
}
