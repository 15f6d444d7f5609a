/**
 Properties of the record validators: the missing-keys report, the stat-block
 ladder, the field-type table each validator enforces, and what happens when a
 single field of a conforming record is dropped or given a value of the wrong
 type (booleans included where integers are required).
 */
module SchemaProperties {
  import opened JsonValue
  import opened Schema
  import opened Ladder

  ghost predicate Distinct(keys: seq<string>) {
    forall i, j :: 0 <= i < j < |keys| ==> keys[i] != keys[j]
  }

  /** `_expect_keys` lists exactly the required keys absent from the row, in the required order. */
  lemma {:induction false} ExpectKeysExact(row: Row, required: seq<string>)
    ensures forall k :: k in ExpectKeys(row, required) <==> k in required && k !in row
    ensures IsSubsequence(ExpectKeys(row, required), required)
  {
    if required != [] {
      ExpectKeysExact(row, required[1..]);
      var rest := ExpectKeys(row, required[1..]);
      if required[0] !in row {
        assert ([required[0]] + rest)[1..] == rest;
      }
    }
  }

  /** The non-integer keys of a block are listed exactly and in the order of `keys`. */
  lemma {:induction false} NonIntKeysExact(block: Row, keys: seq<string>)
    requires forall k :: k in keys ==> k in block
    ensures forall k :: k in NonIntKeys(block, keys) <==> k in keys && !IsInt(block[k])
    ensures IsSubsequence(NonIntKeys(block, keys), keys)
  {
    if keys != [] {
      NonIntKeysExact(block, keys[1..]);
      var rest := NonIntKeys(block, keys[1..]);
      if !IsInt(block[keys[0]]) {
        assert ([keys[0]] + rest)[1..] == rest;
      }
    }
  }

  /** The missing-keys report depends only on which required keys are present. */
  lemma {:induction false} ExpectKeysSamePresence(row: Row, other: Row, required: seq<string>)
    requires forall k :: k in required ==> (k in row <==> k in other)
    ensures ExpectKeys(other, required) == ExpectKeys(row, required)
  {
    if required != [] {
      ExpectKeysSamePresence(row, other, required[1..]);
    }
  }

  /** Dropping one required key from a row that has them all yields exactly that key. */
  lemma {:induction false} ExpectKeysAfterRemoval(row: Row, required: seq<string>, key: string)
    requires forall k :: k in required ==> k in row
    requires Distinct(required) && key in required
    ensures ExpectKeys(row - {key}, required) == [key]
  {
    if required[0] == key {
      assert forall k :: k in required[1..] ==> k != key by {
        forall k | k in required[1..] ensures k != key {
          var j :| 0 <= j < |required[1..]| && required[1..][j] == k;
          assert required[j + 1] == k;
        }
      }
      ExpectKeysSamePresence(row, row - {key}, required[1..]);
      assert ExpectKeys(row, required[1..]) == [] by {
        ExpectKeysExact(row, required[1..]);
      }
    } else {
      ExpectKeysAfterRemoval(row, required[1..], key);
    }
  }

  lemma {:induction false} NonIntKeysAllInt(block: Row, keys: seq<string>)
    requires forall k :: k in keys ==> k in block && IsInt(block[k])
    ensures NonIntKeys(block, keys) == []
  {
    if keys != [] {
      NonIntKeysAllInt(block, keys[1..]);
    }
  }

  /** Making one value of an all-integer block non-integer yields exactly that key. */
  lemma {:induction false} NonIntKeysAfterChange(block: Row, keys: seq<string>, key: string, v: Json)
    requires forall k :: k in keys ==> k in block && IsInt(block[k])
    requires Distinct(keys) && key in keys && !IsInt(v)
    ensures NonIntKeys(block[key := v], keys) == [key]
  {
    var changed := block[key := v];
    if keys[0] == key {
      assert forall k :: k in keys[1..] ==> k != key by {
        forall k | k in keys[1..] ensures k != key {
          var j :| 0 <= j < |keys[1..]| && keys[1..][j] == k;
          assert keys[j + 1] == k;
        }
      }
      NonIntKeysAllInt(changed, keys[1..]);
    } else {
      NonIntKeysAfterChange(block, keys[1..], key, v);
    }
  }

  /** Stat-block ladder: not an object; else the missing stat keys; else the non-integer ones; else valid. */
  lemma StatBlockReasons(value: Json)
    ensures !value.Obj? ==> ValidateStatBlock(value) == Some(StatNotObject)
    ensures value.Obj? && (exists k :: k in StatKeys && k !in value.fields) ==>
              ValidateStatBlock(value).Some? && ValidateStatBlock(value).value.MissingStatKeys? &&
              IsSubsequence(ValidateStatBlock(value).value.keys, StatKeys) &&
              forall k :: k in ValidateStatBlock(value).value.keys <==> k in StatKeys && k !in value.fields
    ensures value.Obj? && (forall k :: k in StatKeys ==> k in value.fields) ==>
              ValidateStatBlock(value) == None ||
              (ValidateStatBlock(value).value.NonIntStatKeys? &&
               IsSubsequence(ValidateStatBlock(value).value.keys, StatKeys) &&
               forall k :: k in ValidateStatBlock(value).value.keys <==> k in StatKeys && !IsInt(value.fields[k]))
  {
    if value.Obj? {
      ExpectKeysExact(value.fields, StatKeys);
      if forall k :: k in StatKeys ==> k in value.fields {
        NonIntKeysExact(value.fields, StatKeys);
      }
    }
  }

  /**
   Missing keys come first: a record lacks some required key exactly when the
   validator reports "missing keys", and then it names exactly the absent keys,
   in the declared order, and reports nothing else.
   */
  lemma MissingKeysReported(kind: RecordKind, row: Row)
    ensures (Validate(kind, row).Some? && Validate(kind, row).value.MissingKeys?) <==>
            exists k :: k in RequiredKeys(kind) && k !in row
    ensures Validate(kind, row).Some? && Validate(kind, row).value.MissingKeys? ==>
            IsSubsequence(Validate(kind, row).value.keys, RequiredKeys(kind)) &&
            forall k :: k in Validate(kind, row).value.keys <==> k in RequiredKeys(kind) && k !in row
  {
    var missing := ExpectKeys(row, RequiredKeys(kind));
    if missing != [] {
      ExpectKeysExact(row, RequiredKeys(kind));
      assert missing[0] in missing;
      assert Validate(kind, row) == Some(MissingKeys(missing));
    } else {
      NoMissingKeysOnceAllPresent(kind, row);
    }
  }

  lemma NoMissingKeysOnceAllPresent(kind: RecordKind, row: Row)
    requires ExpectKeys(row, RequiredKeys(kind)) == []
    ensures !(Validate(kind, row).Some? && Validate(kind, row).value.MissingKeys?)
  {
    match kind
    case Skill =>
      assert SkillKeys[3] in row;
    case Enemy =>
      assert EnemyKeys[3] in row && EnemyKeys[7] in row;
    case Passive =>
      assert PassiveKeys[4] in row;
    case Quest =>
  }

  /** The type each field of each record type must have. */
  datatype FieldType = StrField | IntField | ArrField | ObjField | StatField

  const SkillTypes: map<string, FieldType> := map[
    "id" := StrField, "name" := StrField, "type" := StrField, "resource_cost" := ObjField,
    "status_effect" := StrField, "effect_value" := IntField, "description" := StrField]
  const EnemyTypes: map<string, FieldType> := map[
    "id" := StrField, "name" := StrField, "rank" := IntField, "base_stats" := StatField,
    "skills" := ArrField, "passive_effects" := ArrField, "ai_pattern" := ArrField, "reward" := ObjField]
  const PassiveTypes: map<string, FieldType> := map[
    "id" := StrField, "name" := StrField, "rarity" := StrField, "max_level" := IntField,
    "stat_bonus" := StatField, "active_effect" := StrField, "description" := StrField]
  const QuestTypes: map<string, FieldType> := map[
    "id" := StrField, "name" := StrField, "type" := StrField, "objectives" := ArrField,
    "time_limit" := IntField, "rewards" := ObjField, "branching_flags" := ArrField]

  function FieldTypes(kind: RecordKind): map<string, FieldType> {
    match kind
    case Skill => SkillTypes
    case Enemy => EnemyTypes
    case Passive => PassiveTypes
    case Quest => QuestTypes
  }

  /** Whether a value has the outer shape a field type asks for. */
  predicate HasType(v: Json, t: FieldType) {
    match t
    case StrField => v.Str?
    case IntField => IsInt(v)
    case ArrField => v.Arr?
    case ObjField => v.Obj?
    case StatField => v.Obj?
  }

  /** The reason reported for a field whose value has the wrong outer shape. */
  function Mismatch(field: string, t: FieldType): Reason {
    match t
    case StrField => NotString(field)
    case IntField => NotInt(field)
    case ArrField => NotArray(field)
    case ObjField => NotObject(field)
    case StatField => StatBlockInvalid(field, StatNotObject)
  }

  lemma SkillWrongType(row: Row, field: string, v: Json)
    requires ValidateSkill(row) == None
    requires field in SkillTypes && !HasType(v, SkillTypes[field])
    ensures ValidateSkill(row[field := v]) == Some(Mismatch(field, SkillTypes[field]))
  {
    assert field in SkillKeys;
    ExpectKeysSamePresence(row, row[field := v], SkillKeys);
    assert SkillKeys[0] in row && SkillKeys[1] in row && SkillKeys[2] in row && SkillKeys[3] in row
      && SkillKeys[4] in row && SkillKeys[5] in row && SkillKeys[6] in row;
  }

  lemma EnemyWrongType(row: Row, field: string, v: Json)
    requires ValidateEnemy(row) == None
    requires field in EnemyTypes && !HasType(v, EnemyTypes[field])
    ensures ValidateEnemy(row[field := v]) == Some(Mismatch(field, EnemyTypes[field]))
  {
    assert field in EnemyKeys;
    ExpectKeysSamePresence(row, row[field := v], EnemyKeys);
    if field in EnemyKeys[..4] {
      EnemyWrongTypeHead(row, field, v);
    } else {
      EnemyWrongTypeTail(row, field, v);
    }
  }

  lemma EnemyWrongTypeHead(row: Row, field: string, v: Json)
    requires ValidateEnemy(row) == None
    requires field in EnemyKeys[..4] && field in EnemyTypes && !HasType(v, EnemyTypes[field])
    requires ExpectKeys(row[field := v], EnemyKeys) == ExpectKeys(row, EnemyKeys)
    ensures ValidateEnemy(row[field := v]) == Some(Mismatch(field, EnemyTypes[field]))
  {
    assert EnemyKeys[0] in row && EnemyKeys[1] in row && EnemyKeys[2] in row && EnemyKeys[3] in row
      && EnemyKeys[4] in row && EnemyKeys[5] in row && EnemyKeys[6] in row && EnemyKeys[7] in row;
  }

  lemma EnemyWrongTypeTail(row: Row, field: string, v: Json)
    requires ValidateEnemy(row) == None
    requires field in EnemyKeys[4..] && field in EnemyTypes && !HasType(v, EnemyTypes[field])
    requires ExpectKeys(row[field := v], EnemyKeys) == ExpectKeys(row, EnemyKeys)
    ensures ValidateEnemy(row[field := v]) == Some(Mismatch(field, EnemyTypes[field]))
  {
    assert EnemyKeys[0] in row && EnemyKeys[1] in row && EnemyKeys[2] in row && EnemyKeys[3] in row
      && EnemyKeys[4] in row && EnemyKeys[5] in row && EnemyKeys[6] in row && EnemyKeys[7] in row;
  }

  lemma PassiveWrongType(row: Row, field: string, v: Json)
    requires ValidatePassive(row) == None
    requires field in PassiveTypes && !HasType(v, PassiveTypes[field])
    ensures ValidatePassive(row[field := v]) == Some(Mismatch(field, PassiveTypes[field]))
  {
    assert field in PassiveKeys;
    ExpectKeysSamePresence(row, row[field := v], PassiveKeys);
    if field in PassiveKeys[..4] {
      PassiveWrongTypeHead(row, field, v);
    } else {
      PassiveWrongTypeTail(row, field, v);
    }
  }

  lemma PassiveWrongTypeHead(row: Row, field: string, v: Json)
    requires ValidatePassive(row) == None
    requires field in PassiveKeys[..4] && field in PassiveTypes && !HasType(v, PassiveTypes[field])
    requires ExpectKeys(row[field := v], PassiveKeys) == ExpectKeys(row, PassiveKeys)
    ensures ValidatePassive(row[field := v]) == Some(Mismatch(field, PassiveTypes[field]))
  {
    assert PassiveKeys[0] in row && PassiveKeys[1] in row && PassiveKeys[2] in row && PassiveKeys[3] in row
      && PassiveKeys[4] in row && PassiveKeys[5] in row && PassiveKeys[6] in row;
  }

  lemma PassiveWrongTypeTail(row: Row, field: string, v: Json)
    requires ValidatePassive(row) == None
    requires field in PassiveKeys[4..] && field in PassiveTypes && !HasType(v, PassiveTypes[field])
    requires ExpectKeys(row[field := v], PassiveKeys) == ExpectKeys(row, PassiveKeys)
    ensures ValidatePassive(row[field := v]) == Some(Mismatch(field, PassiveTypes[field]))
  {
    assert PassiveKeys[0] in row && PassiveKeys[1] in row && PassiveKeys[2] in row && PassiveKeys[3] in row
      && PassiveKeys[4] in row && PassiveKeys[5] in row && PassiveKeys[6] in row;
  }

  lemma QuestWrongType(row: Row, field: string, v: Json)
    requires ValidateQuest(row) == None
    requires field in QuestTypes && !HasType(v, QuestTypes[field])
    ensures ValidateQuest(row[field := v]) == Some(Mismatch(field, QuestTypes[field]))
  {
    assert field in QuestKeys;
    ExpectKeysSamePresence(row, row[field := v], QuestKeys);
    assert QuestKeys[0] in row && QuestKeys[1] in row && QuestKeys[2] in row && QuestKeys[3] in row
      && QuestKeys[4] in row && QuestKeys[5] in row && QuestKeys[6] in row;
  }

  /**
   A wrong type is named: giving one field of a conforming record a value of
   the wrong shape makes the validator report that field, and nothing earlier.
   */
  lemma WrongTypeIsNamed(kind: RecordKind, row: Row, field: string, v: Json)
    requires Validate(kind, row) == None
    requires field in FieldTypes(kind) && !HasType(v, FieldTypes(kind)[field])
    ensures Validate(kind, row[field := v]) == Some(Mismatch(field, FieldTypes(kind)[field]))
  {
    match kind
    case Skill => SkillWrongType(row, field, v);
    case Enemy => EnemyWrongType(row, field, v);
    case Passive => PassiveWrongType(row, field, v);
    case Quest => QuestWrongType(row, field, v);
  }

  /** Booleans are not integers: `true` or `false` in an integer field is reported as "must be int". */
  lemma BooleanIsNotInt(kind: RecordKind, row: Row, field: string, b: bool)
    requires Validate(kind, row) == None
    requires field in FieldTypes(kind) && FieldTypes(kind)[field] == IntField
    ensures Validate(kind, row[field := Bool(b)]) == Some(NotInt(field))
  {
    WrongTypeIsNamed(kind, row, field, Bool(b));
  }

  lemma RequiredKeysDistinct(kind: RecordKind)
    ensures Distinct(RequiredKeys(kind))
  {
  }

  /** Removing any one required key from a conforming record is reported as exactly that missing key. */
  lemma KeyRemovalIsNamed(kind: RecordKind, row: Row, key: string)
    requires Validate(kind, row) == None
    requires key in RequiredKeys(kind)
    ensures Validate(kind, row - {key}) == Some(MissingKeys([key]))
  {
    assert ExpectKeys(row, RequiredKeys(kind)) == [];
    RequiredKeysDistinct(kind);
    ExpectKeysAfterRemoval(row, RequiredKeys(kind), key);
  }

  /** The field holding a stat block: `base_stats` for enemies, `stat_bonus` for passives. */
  function StatFieldOf(kind: RecordKind): string
    requires kind == Enemy || kind == Passive
  {
    if kind == Enemy then "base_stats" else "stat_bonus"
  }

  lemma StatKeysDistinct()
    ensures Distinct(StatKeys)
  {
  }

  /** A conforming stat block whose `key` value is replaced by a non-integer reports exactly that key. */
  lemma StatBlockValueChange(block: Row, key: string, v: Json)
    requires ValidateStatBlock(Obj(block)) == None
    requires key in StatKeys && !IsInt(v)
    ensures ValidateStatBlock(Obj(block[key := v])) == Some(NonIntStatKeys([key]))
  {
    StatKeysDistinct();
    ExpectKeysSamePresence(block, block[key := v], StatKeys);
    NonIntKeysAfterChange(block, StatKeys, key, v);
  }

  /** A conforming stat block without `key` reports exactly that key as missing. */
  lemma StatBlockKeyRemoval(block: Row, key: string)
    requires ValidateStatBlock(Obj(block)) == None
    requires key in StatKeys
    ensures ValidateStatBlock(Obj(block - {key})) == Some(MissingStatKeys([key]))
  {
    StatKeysDistinct();
    ExpectKeysAfterRemoval(block, StatKeys, key);
  }

  /**
   A nested stat value that is not an integer (a boolean included) is reported
   with the containing field and the offending stat key.
   */
  lemma StatValueIsNamed(kind: RecordKind, row: Row, key: string, v: Json)
    requires kind == Enemy || kind == Passive
    requires Validate(kind, row) == None
    requires key in StatKeys && !IsInt(v)
    ensures StatFieldOf(kind) in row && row[StatFieldOf(kind)].Obj?
    ensures Validate(kind, row[StatFieldOf(kind) := Obj(row[StatFieldOf(kind)].fields[key := v])]) ==
            Some(StatBlockInvalid(StatFieldOf(kind), NonIntStatKeys([key])))
  {
    var field := StatFieldOf(kind);
    assert field == RequiredKeys(kind)[if kind == Enemy then 3 else 4];
    var block := row[field].fields;
    StatBlockValueChange(block, key, v);
    var changed := Obj(block[key := v]);
    if kind == Enemy {
      EnemyWrongStatBlock(row, changed);
    } else {
      PassiveWrongStatBlock(row, changed);
    }
  }

  /** A nested stat block missing one key is reported with the containing field and that key. */
  lemma StatKeyRemovalIsNamed(kind: RecordKind, row: Row, key: string)
    requires kind == Enemy || kind == Passive
    requires Validate(kind, row) == None
    requires key in StatKeys
    ensures StatFieldOf(kind) in row && row[StatFieldOf(kind)].Obj?
    ensures Validate(kind, row[StatFieldOf(kind) := Obj(row[StatFieldOf(kind)].fields - {key})]) ==
            Some(StatBlockInvalid(StatFieldOf(kind), MissingStatKeys([key])))
  {
    var field := StatFieldOf(kind);
    assert field == RequiredKeys(kind)[if kind == Enemy then 3 else 4];
    var block := row[field].fields;
    StatBlockKeyRemoval(block, key);
    var changed := Obj(block - {key});
    if kind == Enemy {
      EnemyWrongStatBlock(row, changed);
    } else {
      PassiveWrongStatBlock(row, changed);
    }
  }

  lemma EnemyWrongStatBlock(row: Row, stats: Json)
    requires ValidateEnemy(row) == None && ValidateStatBlock(stats).Some?
    ensures ValidateEnemy(row["base_stats" := stats]) == Some(StatBlockInvalid("base_stats", ValidateStatBlock(stats).value))
  {
    ExpectKeysSamePresence(row, row["base_stats" := stats], EnemyKeys);
    assert EnemyKeys[0] in row && EnemyKeys[1] in row && EnemyKeys[2] in row && EnemyKeys[3] in row;
  }

  lemma PassiveWrongStatBlock(row: Row, stats: Json)
    requires ValidatePassive(row) == None && ValidateStatBlock(stats).Some?
    ensures ValidatePassive(row["stat_bonus" := stats]) == Some(StatBlockInvalid("stat_bonus", ValidateStatBlock(stats).value))
  {
    ExpectKeysSamePresence(row, row["stat_bonus" := stats], PassiveKeys);
    assert PassiveKeys[0] in row && PassiveKeys[1] in row && PassiveKeys[2] in row && PassiveKeys[3] in row
      && PassiveKeys[4] in row;
  }

  /** The field holding an integer pair: `resource_cost` (mp, ki) for skills, `reward` (gold, exp) for enemies. */
  function PairFieldOf(kind: RecordKind): string
    requires kind == Skill || kind == Enemy
  {
    if kind == Skill then "resource_cost" else "reward"
  }

  function PairKeysOf(kind: RecordKind): seq<string>
    requires kind == Skill || kind == Enemy
  {
    if kind == Skill then CostKeys else RewardKeys
  }

  /**
   A nested pair value that is not an integer (a boolean included) is reported
   as "<field>.<key> must be int".
   */
  lemma PairValueIsNamed(kind: RecordKind, row: Row, key: string, v: Json)
    requires kind == Skill || kind == Enemy
    requires Validate(kind, row) == None
    requires key in PairKeysOf(kind) && !IsInt(v)
    ensures PairFieldOf(kind) in row && row[PairFieldOf(kind)].Obj?
    ensures Validate(kind, row[PairFieldOf(kind) := Obj(row[PairFieldOf(kind)].fields[key := v])]) ==
            Some(NotInt(PairFieldOf(kind) + "." + key))
  {
    if kind == Skill {
      SkillCostValue(row, key, v);
    } else {
      EnemyRewardValue(row, key, v);
    }
  }

  lemma SkillCostValue(row: Row, key: string, v: Json)
    requires ValidateSkill(row) == None
    requires key in CostKeys && !IsInt(v)
    ensures "resource_cost" in row && row["resource_cost"].Obj?
    ensures ValidateSkill(row["resource_cost" := Obj(row["resource_cost"].fields[key := v])]) ==
            Some(NotInt("resource_cost" + "." + key))
  {
    assert SkillKeys[0] in row && SkillKeys[1] in row && SkillKeys[2] in row && SkillKeys[3] in row
      && SkillKeys[5] in row;
    var pair := row["resource_cost"].fields;
    assert CostKeys[0] in pair && CostKeys[1] in pair;
    ExpectKeysSamePresence(row, row["resource_cost" := Obj(pair[key := v])], SkillKeys);
    ExpectKeysSamePresence(pair, pair[key := v], CostKeys);
    assert "resource_cost" + "." + "mp" == "resource_cost.mp";
    assert "resource_cost" + "." + "ki" == "resource_cost.ki";
  }

  lemma EnemyRewardValue(row: Row, key: string, v: Json)
    requires ValidateEnemy(row) == None
    requires key in RewardKeys && !IsInt(v)
    ensures "reward" in row && row["reward"].Obj?
    ensures ValidateEnemy(row["reward" := Obj(row["reward"].fields[key := v])]) ==
            Some(NotInt("reward" + "." + key))
  {
    assert EnemyKeys[0] in row && EnemyKeys[1] in row && EnemyKeys[2] in row && EnemyKeys[3] in row
      && EnemyKeys[4] in row && EnemyKeys[5] in row && EnemyKeys[6] in row && EnemyKeys[7] in row;
    var pair := row["reward"].fields;
    assert RewardKeys[0] in pair && RewardKeys[1] in pair;
    ExpectKeysSamePresence(row, row["reward" := Obj(pair[key := v])], EnemyKeys);
    ExpectKeysSamePresence(pair, pair[key := v], RewardKeys);
    assert "reward" + "." + "gold" == "reward.gold";
    assert "reward" + "." + "exp" == "reward.exp";
  }

  /** A nested pair missing one key is reported as "<field> missing keys" naming exactly that key. */
  lemma PairKeyRemovalIsNamed(kind: RecordKind, row: Row, key: string)
    requires kind == Skill || kind == Enemy
    requires Validate(kind, row) == None
    requires key in PairKeysOf(kind)
    ensures PairFieldOf(kind) in row && row[PairFieldOf(kind)].Obj?
    ensures Validate(kind, row[PairFieldOf(kind) := Obj(row[PairFieldOf(kind)].fields - {key})]) ==
            Some(NestedMissingKeys(PairFieldOf(kind), [key]))
  {
    if kind == Skill {
      SkillCostRemoval(row, key);
    } else {
      EnemyRewardRemoval(row, key);
    }
  }

  lemma SkillCostRemoval(row: Row, key: string)
    requires ValidateSkill(row) == None
    requires key in CostKeys
    ensures "resource_cost" in row && row["resource_cost"].Obj?
    ensures ValidateSkill(row["resource_cost" := Obj(row["resource_cost"].fields - {key})]) ==
            Some(NestedMissingKeys("resource_cost", [key]))
  {
    assert SkillKeys[0] in row && SkillKeys[1] in row && SkillKeys[2] in row && SkillKeys[3] in row
      && SkillKeys[5] in row;
    var pair := row["resource_cost"].fields;
    assert CostKeys[0] in pair && CostKeys[1] in pair;
    ExpectKeysSamePresence(row, row["resource_cost" := Obj(pair - {key})], SkillKeys);
    ExpectKeysAfterRemoval(pair, CostKeys, key);
  }

  lemma EnemyRewardRemoval(row: Row, key: string)
    requires ValidateEnemy(row) == None
    requires key in RewardKeys
    ensures "reward" in row && row["reward"].Obj?
    ensures ValidateEnemy(row["reward" := Obj(row["reward"].fields - {key})]) ==
            Some(NestedMissingKeys("reward", [key]))
  {
    assert EnemyKeys[0] in row && EnemyKeys[1] in row && EnemyKeys[2] in row && EnemyKeys[3] in row
      && EnemyKeys[4] in row && EnemyKeys[5] in row && EnemyKeys[6] in row && EnemyKeys[7] in row;
    var pair := row["reward"].fields;
    assert RewardKeys[0] in pair && RewardKeys[1] in pair;
    ExpectKeysSamePresence(row, row["reward" := Obj(pair - {key})], EnemyKeys);
    ExpectKeysAfterRemoval(pair, RewardKeys, key);
  }
}
