/**
 The record-level checks of the gameplay data validator: the primitive checks,
 the stat-block sub-validator and the Skill, Enemy, Passive and Quest
 validators. Each validator returns `None` for a conforming record or the one
 reason of the first check that fails, in the order the checks are written.
 */
module Schema {
  import opened JsonValue

  datatype Option<T> = None | Some(value: T)

  /** "integer but not boolean": JSON `true`/`false` decode to `Bool`, never to `Int`. */
  predicate IsInt(v: Json) {
    v.Int?
  }

  /** `xs` is `ys` with some elements deleted and the rest kept in order. */
  ghost predicate IsSubsequence(xs: seq<string>, ys: seq<string>)
    decreases |ys|
  {
    if ys == [] then xs == []
    else (xs != [] && xs[0] == ys[0] && IsSubsequence(xs[1..], ys[1..])) || IsSubsequence(xs, ys[1..])
  }

  /** The required keys absent from `row`, in the order they are required. */
  function ExpectKeys(row: Row, required: seq<string>): (missing: seq<string>)
    ensures missing == [] <==> forall i :: 0 <= i < |required| ==> required[i] in row
  {
    if required == [] then []
    else
      var rest := ExpectKeys(row, required[1..]);
      if required[0] in row then rest else [required[0]] + rest
  }

  /** The keys of `block` among `keys` whose values are not integers, in the order of `keys`. */
  function NonIntKeys(block: Row, keys: seq<string>): (wrong: seq<string>)
    requires forall k :: k in keys ==> k in block
    ensures forall k :: k in wrong <==> k in keys && !IsInt(block[k])
  {
    if keys == [] then []
    else
      var rest := NonIntKeys(block, keys[1..]);
      if IsInt(block[keys[0]]) then rest else [keys[0]] + rest
  }

  const StatKeys: seq<string> := ["STR", "INT", "DEX", "VIT"]

  datatype StatReason =
    | StatNotObject                         // "stat block must be an object"
    | MissingStatKeys(keys: seq<string>)    // "missing stat keys: [...]"
    | NonIntStatKeys(keys: seq<string>)     // "stat values must be int for keys: [...]"

  /** A stat block is an object whose STR, INT, DEX and VIT are all integers. */
  function ValidateStatBlock(value: Json): (r: Option<StatReason>)
    ensures r == None <==> value.Obj? && forall k :: k in StatKeys ==> k in value.fields && IsInt(value.fields[k])
  {
    if !value.Obj? then Some(StatNotObject)
    else
      var missing := ExpectKeys(value.fields, StatKeys);
      if missing != [] then assert missing[0] in missing; Some(MissingStatKeys(missing))
      else
        var wrong := NonIntKeys(value.fields, StatKeys);
        if wrong != [] then assert wrong[0] in wrong; Some(NonIntStatKeys(wrong))
        else None
  }

  /** One value per distinct message a record validator can return. */
  datatype Reason =
    | MissingKeys(keys: seq<string>)                      // "missing keys: [...]"
    | NotString(field: string)                            // "<field> must be string"
    | NotInt(field: string)                               // "<field> must be int"
    | NotArray(field: string)                             // "<field> must be array"
    | NotObject(field: string)                            // "<field> must be object"
    | NestedMissingKeys(field: string, keys: seq<string>) // "<field> missing keys: [...]"
    | StatBlockInvalid(field: string, cause: StatReason)  // "<field> invalid: <cause>"

  const SkillKeys: seq<string> := ["id", "name", "type", "resource_cost", "status_effect", "effect_value", "description"]
  const CostKeys: seq<string> := ["mp", "ki"]
  const EnemyKeys: seq<string> := ["id", "name", "rank", "base_stats", "skills", "passive_effects", "ai_pattern", "reward"]
  const RewardKeys: seq<string> := ["gold", "exp"]
  const PassiveKeys: seq<string> := ["id", "name", "rarity", "max_level", "stat_bonus", "active_effect", "description"]
  const QuestKeys: seq<string> := ["id", "name", "type", "objectives", "time_limit", "rewards", "branching_flags"]

  function ValidateEnemy(row: Row): Option<Reason> {
    var missing := ExpectKeys(row, EnemyKeys);
    if missing != [] then Some(MissingKeys(missing))
    else
    assert EnemyKeys[0] in row && EnemyKeys[1] in row && EnemyKeys[2] in row && EnemyKeys[3] in row && EnemyKeys[4] in row && EnemyKeys[5] in row && EnemyKeys[6] in row && EnemyKeys[7] in row;
    if !row["id"].Str? then Some(NotString("id"))
    else if !row["name"].Str? then Some(NotString("name"))
    else if !IsInt(row["rank"]) then Some(NotInt("rank"))
    else if ValidateStatBlock(row["base_stats"]).Some? then
      Some(StatBlockInvalid("base_stats", ValidateStatBlock(row["base_stats"]).value))
    else if !row["skills"].Arr? then Some(NotArray("skills"))
    else if !row["passive_effects"].Arr? then Some(NotArray("passive_effects"))
    else if !row["ai_pattern"].Arr? then Some(NotArray("ai_pattern"))
    else if !row["reward"].Obj? then Some(NotObject("reward"))
    else
      var reward := row["reward"].fields;
      var missingReward := ExpectKeys(reward, RewardKeys);
      if missingReward != [] then Some(NestedMissingKeys("reward", missingReward))
      else
      assert RewardKeys[0] in reward && RewardKeys[1] in reward;
      if !IsInt(reward["gold"]) then Some(NotInt("reward.gold"))
      else if !IsInt(reward["exp"]) then Some(NotInt("reward.exp"))
      else None
  }

  function ValidatePassive(row: Row): Option<Reason> {
    var missing := ExpectKeys(row, PassiveKeys);
    if missing != [] then Some(MissingKeys(missing))
    else
    assert PassiveKeys[0] in row && PassiveKeys[1] in row && PassiveKeys[2] in row && PassiveKeys[3] in row && PassiveKeys[4] in row && PassiveKeys[5] in row && PassiveKeys[6] in row;
    if !row["id"].Str? then Some(NotString("id"))
    else if !row["name"].Str? then Some(NotString("name"))
    else if !row["rarity"].Str? then Some(NotString("rarity"))
    else if !IsInt(row["max_level"]) then Some(NotInt("max_level"))
    else if ValidateStatBlock(row["stat_bonus"]).Some? then
      Some(StatBlockInvalid("stat_bonus", ValidateStatBlock(row["stat_bonus"]).value))
    else if !row["active_effect"].Str? then Some(NotString("active_effect"))
    else if !row["description"].Str? then Some(NotString("description"))
    else None
  }

  function ValidateSkill(row: Row): Option<Reason> {
    var missing := ExpectKeys(row, SkillKeys);
    if missing != [] then Some(MissingKeys(missing))
    else
    assert SkillKeys[0] in row && SkillKeys[1] in row && SkillKeys[2] in row && SkillKeys[3] in row && SkillKeys[4] in row && SkillKeys[5] in row && SkillKeys[6] in row;
    if !row["id"].Str? then Some(NotString("id"))
    else if !row["name"].Str? then Some(NotString("name"))
    else if !row["type"].Str? then Some(NotString("type"))
    else if !IsInt(row["effect_value"]) then Some(NotInt("effect_value"))
    else if !row["resource_cost"].Obj? then Some(NotObject("resource_cost"))
    else
      var resource := row["resource_cost"].fields;
      var missingCost := ExpectKeys(resource, CostKeys);
      if missingCost != [] then Some(NestedMissingKeys("resource_cost", missingCost))
      else
      assert CostKeys[0] in resource && CostKeys[1] in resource;
      if !IsInt(resource["mp"]) then Some(NotInt("resource_cost.mp"))
      else if !IsInt(resource["ki"]) then Some(NotInt("resource_cost.ki"))
      else if !row["status_effect"].Str? then Some(NotString("status_effect"))
      else if !row["description"].Str? then Some(NotString("description"))
      else None
  }

  function ValidateQuest(row: Row): Option<Reason> {
    var missing := ExpectKeys(row, QuestKeys);
    if missing != [] then Some(MissingKeys(missing))
    else
    assert QuestKeys[0] in row && QuestKeys[1] in row && QuestKeys[2] in row && QuestKeys[3] in row && QuestKeys[4] in row && QuestKeys[5] in row && QuestKeys[6] in row;
    if !row["id"].Str? then Some(NotString("id"))
    else if !row["name"].Str? then Some(NotString("name"))
    else if !row["type"].Str? then Some(NotString("type"))
    else if !IsInt(row["time_limit"]) then Some(NotInt("time_limit"))
    else if !row["objectives"].Arr? then Some(NotArray("objectives"))
    else if !row["rewards"].Obj? then Some(NotObject("rewards"))
    else if !row["branching_flags"].Arr? then Some(NotArray("branching_flags"))
    else None
  }

  /** The four record types, each with its validator. */
  datatype RecordKind = Skill | Enemy | Passive | Quest

  function RequiredKeys(kind: RecordKind): seq<string> {
    match kind
    case Skill => SkillKeys
    case Enemy => EnemyKeys
    case Passive => PassiveKeys
    case Quest => QuestKeys
  }

  function Validate(kind: RecordKind, row: Row): Option<Reason> {
    match kind
    case Skill => ValidateSkill(row)
    case Enemy => ValidateEnemy(row)
    case Passive => ValidatePassive(row)
    case Quest => ValidateQuest(row)
  }

  /** Python's `repr` of a list of strings, for keys that contain no quote character: `['a', 'b']`. */
  function KeyListText(keys: seq<string>): (text: string)
    ensures |text| >= 2 && text[0] == '[' && text[|text| - 1] == ']'
  {
    "[" + JoinQuoted(keys) + "]"
  }

  function JoinQuoted(keys: seq<string>): string {
    if keys == [] then ""
    else if |keys| == 1 then "'" + keys[0] + "'"
    else "'" + keys[0] + "', " + JoinQuoted(keys[1..])
  }

  function StatReasonText(r: StatReason): string {
    match r
    case StatNotObject => "stat block must be an object"
    case MissingStatKeys(keys) => "missing stat keys: " + KeyListText(keys)
    case NonIntStatKeys(keys) => "stat values must be int for keys: " + KeyListText(keys)
  }

  /** The message the validator returns for a reason. */
  function ReasonText(r: Reason): (text: string)
    ensures |text| > 0
  {
    match r
    case MissingKeys(keys) => "missing keys: " + KeyListText(keys)
    case NotString(field) => field + " must be string"
    case NotInt(field) => field + " must be int"
    case NotArray(field) => field + " must be array"
    case NotObject(field) => field + " must be object"
    case NestedMissingKeys(field, keys) => field + " missing keys: " + KeyListText(keys)
    case StatBlockInvalid(field, cause) => field + " invalid: " + StatReasonText(cause)
  }
}
