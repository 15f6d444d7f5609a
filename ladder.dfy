/**
 The validators' check order written out as data: for each record type, the
 list of rungs the validator climbs, each a condition on the record and the
 reason reported when it fails. `FirstFailure` reads a ladder top to bottom and
 reports the first failing rung. The lemmas here show that each validator is
 exactly "the first failing rung of its ladder", so a record passes if and only
 if every rung passes, and a record with several defects is reported by the
 earliest one.
 */
module Ladder {
  import opened JsonValue
  import opened Schema

  /** One rung of a ladder: it passes, or it fails with its reason. */
  datatype Check = Pass | Fail(reason: Reason)

  function Require(ok: bool, reason: Reason): Check {
    if ok then Pass else Fail(reason)
  }

  function FirstFailure(checks: seq<Check>): Option<Reason> {
    if checks == [] then None
    else if checks[0].Fail? then Some(checks[0].reason)
    else FirstFailure(checks[1..])
  }

  /** A ladder reports nothing exactly when every rung passes. */
  lemma {:induction false} FirstFailureNone(checks: seq<Check>)
    ensures FirstFailure(checks) == None <==> forall i :: 0 <= i < |checks| ==> checks[i] == Pass
  {
    if checks != [] {
      FirstFailureNone(checks[1..]);
      assert forall i :: 1 <= i < |checks| ==> checks[i] == checks[1..][i - 1];
    }
  }

  /** A ladder reports `r` exactly when some rung fails with `r` and every rung above it passes. */
  lemma {:induction false} FirstFailureSome(checks: seq<Check>, r: Reason)
    ensures FirstFailure(checks) == Some(r) <==>
            exists i :: 0 <= i < |checks| && checks[i] == Fail(r) && forall j :: 0 <= j < i ==> checks[j] == Pass
  {
    if checks != [] {
      FirstFailureSome(checks[1..], r);
      if FirstFailure(checks) == Some(r) && checks[0] == Pass {
        var i :| 0 <= i < |checks[1..]| && checks[1..][i] == Fail(r) && forall j :: 0 <= j < i ==> checks[1..][j] == Pass;
        assert checks[i + 1] == Fail(r);
      }
      if exists i :: 0 <= i < |checks| && checks[i] == Fail(r) && forall j :: 0 <= j < i ==> checks[j] == Pass {
        var i :| 0 <= i < |checks| && checks[i] == Fail(r) && forall j :: 0 <= j < i ==> checks[j] == Pass;
        if i > 0 {
          assert checks[1..][i - 1] == Fail(r);
          assert forall j :: 0 <= j < i - 1 ==> checks[1..][j] == checks[j + 1];
        }
      }
    }
  }

  /** Each rung either reports its reason or hands over to the rest of the ladder. */
  lemma FirstFailureRungs(checks: seq<Check>)
    ensures FirstFailure(checks[0..]) == FirstFailure(checks)
    ensures FirstFailure(checks[|checks|..]) == None
    ensures forall k :: 0 <= k < |checks| ==> FirstFailure(checks[k..]) == Then(checks[k], FirstFailure(checks[k + 1..]))
  {
    assert checks[0..] == checks;
    forall k | 0 <= k < |checks|
      ensures FirstFailure(checks[k..]) == Then(checks[k], FirstFailure(checks[k + 1..]))
    {
      assert checks[k..][0] == checks[k];
      assert checks[k..][1..] == checks[k + 1..];
    }
  }

  /** The outcome of a rung followed by the outcome of the rungs below it. */
  function Then(c: Check, rest: Option<Reason>): Option<Reason> {
    if c.Fail? then Some(c.reason) else rest
  }

  /** `row[key]`, read only after the ladder has established that `key` is present. */
  function Field(row: Row, key: string): Json {
    if key in row then row[key] else Null
  }

  /** The entries of an object, read only after the ladder has established that `v` is one. */
  function FieldsOf(v: Json): Row {
    if v.Obj? then v.fields else map[]
  }

  function StatRung(field: string, v: Json): Check {
    match ValidateStatBlock(v)
    case None => Pass
    case Some(cause) => Fail(StatBlockInvalid(field, cause))
  }

  function SkillLadder(row: Row): seq<Check> {
    var cost := FieldsOf(Field(row, "resource_cost"));
    [ Require(ExpectKeys(row, SkillKeys) == [], MissingKeys(ExpectKeys(row, SkillKeys))),
      Require(Field(row, "id").Str?, NotString("id")),
      Require(Field(row, "name").Str?, NotString("name")),
      Require(Field(row, "type").Str?, NotString("type")),
      Require(IsInt(Field(row, "effect_value")), NotInt("effect_value")),
      Require(Field(row, "resource_cost").Obj?, NotObject("resource_cost")),
      Require(ExpectKeys(cost, CostKeys) == [], NestedMissingKeys("resource_cost", ExpectKeys(cost, CostKeys))),
      Require(IsInt(Field(cost, "mp")), NotInt("resource_cost.mp")),
      Require(IsInt(Field(cost, "ki")), NotInt("resource_cost.ki")),
      Require(Field(row, "status_effect").Str?, NotString("status_effect")),
      Require(Field(row, "description").Str?, NotString("description")) ]
  }

  lemma SkillLadderAgrees(row: Row)
    ensures ValidateSkill(row) == FirstFailure(SkillLadder(row))
  {
    var cs := SkillLadder(row);
    FirstFailureRungs(cs);
    if ExpectKeys(row, SkillKeys) == [] {
      assert SkillKeys[0] in row && SkillKeys[1] in row && SkillKeys[2] in row && SkillKeys[3] in row
        && SkillKeys[4] in row && SkillKeys[5] in row && SkillKeys[6] in row;
      assert FirstFailure(cs) == Then(cs[1], Then(cs[2], Then(cs[3], Then(cs[4], Then(cs[5],
        Then(cs[6], Then(cs[7], Then(cs[8], Then(cs[9], Then(cs[10], None))))))))));
      var cost := FieldsOf(row["resource_cost"]);
      if ExpectKeys(cost, CostKeys) == [] {
        assert CostKeys[0] in cost && CostKeys[1] in cost;
      }
    } else {
      assert cs[0] == Fail(MissingKeys(ExpectKeys(row, SkillKeys)));
    }
  }

  function EnemyLadder(row: Row): seq<Check> {
    var reward := FieldsOf(Field(row, "reward"));
    [ Require(ExpectKeys(row, EnemyKeys) == [], MissingKeys(ExpectKeys(row, EnemyKeys))),
      Require(Field(row, "id").Str?, NotString("id")),
      Require(Field(row, "name").Str?, NotString("name")),
      Require(IsInt(Field(row, "rank")), NotInt("rank")),
      StatRung("base_stats", Field(row, "base_stats")),
      Require(Field(row, "skills").Arr?, NotArray("skills")),
      Require(Field(row, "passive_effects").Arr?, NotArray("passive_effects")),
      Require(Field(row, "ai_pattern").Arr?, NotArray("ai_pattern")),
      Require(Field(row, "reward").Obj?, NotObject("reward")),
      Require(ExpectKeys(reward, RewardKeys) == [], NestedMissingKeys("reward", ExpectKeys(reward, RewardKeys))),
      Require(IsInt(Field(reward, "gold")), NotInt("reward.gold")),
      Require(IsInt(Field(reward, "exp")), NotInt("reward.exp")) ]
  }

  lemma EnemyLadderAgrees(row: Row)
    ensures ValidateEnemy(row) == FirstFailure(EnemyLadder(row))
  {
    var cs := EnemyLadder(row);
    FirstFailureRungs(cs);
    if ExpectKeys(row, EnemyKeys) == [] {
      assert EnemyKeys[0] in row && EnemyKeys[1] in row && EnemyKeys[2] in row && EnemyKeys[3] in row
        && EnemyKeys[4] in row && EnemyKeys[5] in row && EnemyKeys[6] in row && EnemyKeys[7] in row;
      assert FirstFailure(cs) == Then(cs[1], Then(cs[2], Then(cs[3], Then(cs[4], Then(cs[5],
        Then(cs[6], Then(cs[7], Then(cs[8], Then(cs[9], Then(cs[10], Then(cs[11], None)))))))))));
      var reward := FieldsOf(row["reward"]);
      if ExpectKeys(reward, RewardKeys) == [] {
        assert RewardKeys[0] in reward && RewardKeys[1] in reward;
      }
    } else {
      assert cs[0] == Fail(MissingKeys(ExpectKeys(row, EnemyKeys)));
    }
  }

  function PassiveLadder(row: Row): seq<Check> {
    [ Require(ExpectKeys(row, PassiveKeys) == [], MissingKeys(ExpectKeys(row, PassiveKeys))),
      Require(Field(row, "id").Str?, NotString("id")),
      Require(Field(row, "name").Str?, NotString("name")),
      Require(Field(row, "rarity").Str?, NotString("rarity")),
      Require(IsInt(Field(row, "max_level")), NotInt("max_level")),
      StatRung("stat_bonus", Field(row, "stat_bonus")),
      Require(Field(row, "active_effect").Str?, NotString("active_effect")),
      Require(Field(row, "description").Str?, NotString("description")) ]
  }

  lemma PassiveLadderAgrees(row: Row)
    ensures ValidatePassive(row) == FirstFailure(PassiveLadder(row))
  {
    var cs := PassiveLadder(row);
    FirstFailureRungs(cs);
    if ExpectKeys(row, PassiveKeys) == [] {
      assert PassiveKeys[0] in row && PassiveKeys[1] in row && PassiveKeys[2] in row && PassiveKeys[3] in row
        && PassiveKeys[4] in row && PassiveKeys[5] in row && PassiveKeys[6] in row;
      assert FirstFailure(cs) == Then(cs[1], Then(cs[2], Then(cs[3], Then(cs[4], Then(cs[5],
        Then(cs[6], Then(cs[7], None)))))));
    } else {
      assert cs[0] == Fail(MissingKeys(ExpectKeys(row, PassiveKeys)));
    }
  }

  function QuestLadder(row: Row): seq<Check> {
    [ Require(ExpectKeys(row, QuestKeys) == [], MissingKeys(ExpectKeys(row, QuestKeys))),
      Require(Field(row, "id").Str?, NotString("id")),
      Require(Field(row, "name").Str?, NotString("name")),
      Require(Field(row, "type").Str?, NotString("type")),
      Require(IsInt(Field(row, "time_limit")), NotInt("time_limit")),
      Require(Field(row, "objectives").Arr?, NotArray("objectives")),
      Require(Field(row, "rewards").Obj?, NotObject("rewards")),
      Require(Field(row, "branching_flags").Arr?, NotArray("branching_flags")) ]
  }

  lemma QuestLadderAgrees(row: Row)
    ensures ValidateQuest(row) == FirstFailure(QuestLadder(row))
  {
    var cs := QuestLadder(row);
    FirstFailureRungs(cs);
    if ExpectKeys(row, QuestKeys) == [] {
      assert QuestKeys[0] in row && QuestKeys[1] in row && QuestKeys[2] in row && QuestKeys[3] in row
        && QuestKeys[4] in row && QuestKeys[5] in row && QuestKeys[6] in row;
      assert FirstFailure(cs) == Then(cs[1], Then(cs[2], Then(cs[3], Then(cs[4], Then(cs[5],
        Then(cs[6], Then(cs[7], None)))))));
    } else {
      assert cs[0] == Fail(MissingKeys(ExpectKeys(row, QuestKeys)));
    }
  }

  /** The ladder of each record type. */
  function LadderOf(kind: RecordKind, row: Row): seq<Check> {
    match kind
    case Skill => SkillLadder(row)
    case Enemy => EnemyLadder(row)
    case Passive => PassiveLadder(row)
    case Quest => QuestLadder(row)
  }

  /** Valid records pass: a record is accepted exactly when every rung of its ladder passes. */
  lemma ValidIffEveryRungPasses(kind: RecordKind, row: Row)
    ensures Validate(kind, row) == None <==> forall i :: 0 <= i < |LadderOf(kind, row)| ==> LadderOf(kind, row)[i] == Pass
  {
    LadderAgrees(kind, row);
    FirstFailureNone(LadderOf(kind, row));
  }

  /** First failure wins: the reported reason is that of the earliest failing rung. */
  lemma FirstFailingRungIsReported(kind: RecordKind, row: Row, r: Reason)
    ensures Validate(kind, row) == Some(r) <==>
            exists i :: 0 <= i < |LadderOf(kind, row)| && LadderOf(kind, row)[i] == Fail(r) &&
                        forall j :: 0 <= j < i ==> LadderOf(kind, row)[j] == Pass
  {
    LadderAgrees(kind, row);
    FirstFailureSome(LadderOf(kind, row), r);
  }

  lemma LadderAgrees(kind: RecordKind, row: Row)
    ensures Validate(kind, row) == FirstFailure(LadderOf(kind, row))
  {
    match kind
    case Skill => SkillLadderAgrees(row);
    case Enemy => EnemyLadderAgrees(row);
    case Passive => PassiveLadderAgrees(row);
    case Quest => QuestLadderAgrees(row);
  }
}
