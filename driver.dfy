/**
 The file-level driver and the entry point. `ValidateFile` scans one
 collection's record array, row by row, collecting every defect without
 stopping; `RunValidation` runs it over the four collections in a fixed order,
 concatenates the defects and turns them into the process exit status.

 Each method is proved against a function that states its result: `FileOutcome`
 for one file and `RunOutcome` for the whole run. Reading and parsing the files
 happens before these methods: they receive the already-parsed documents.
 */
module Driver {
  import opened JsonValue
  import opened Schema

  /** One reported defect, carried structurally rather than as formatted text. */
  datatype Defect =
      /** "[file] 'listKey' must be an array" */
    | ContainerNotArray(file: string, listKey: string)
      /** "[file] row i: row must be object, got <type name>" */
    | RowNotObject(file: string, index: nat, typeName: string)
      /** "[file] row i id=<id>: duplicate id" */
    | DuplicateId(file: string, index: nat, id: Json)
      /** "[file] row i id=<id>: <reason>; row=<the row as JSON>" */
    | InvalidRow(file: string, index: nat, id: Json, reason: Reason, row: Row)

  /**
   How a scan ends: with its list of defects, or with the TypeError that
   `row_id in seen` raises when a row's id is a list or an object.
   */
  datatype Outcome =
    | Completed(defects: seq<Defect>)
    | Raised(file: string, index: nat)

  /** The id a row is reported under: its `id` value, or `<missing-id:index>` when it has none. */
  function RowId(row: Row, index: nat): Json {
    if "id" in row then row["id"] else Str("<missing-id:" + DecimalString(index) + ">")
  }

  /** Whether `row_id in seen` holds: only a string can equal a member of a set of strings. */
  predicate AlreadySeen(id: Json, seen: set<string>) {
    id.Str? && id.s in seen
  }

  /** The defects one row contributes, given the ids recorded by the rows before it. */
  function RowDefects(file: string, kind: RecordKind, index: nat, row: Json, seen: set<string>): seq<Defect>
    requires row.Obj? ==> Hashable(RowId(row.fields, index))
  {
    if !row.Obj? then [RowNotObject(file, index, TypeName(row))]
    else
      var id := RowId(row.fields, index);
      (if AlreadySeen(id, seen) then [DuplicateId(file, index, id)] else []) +
      (match Validate(kind, row.fields)
       case None => []
       case Some(reason) => [InvalidRow(file, index, id, reason, row.fields)])
  }

  /** The string form `seen.add(str(row_id))` records for a row, if the scan gets that far. */
  function Recorded(row: Json, index: nat): set<string> {
    if row.Obj? && Hashable(RowId(row.fields, index)) then {Stringify(RowId(row.fields, index))} else {}
  }

  /** The string forms `seen` holds after the rows `rows`. */
  function SeenIds(rows: seq<Json>): set<string> {
    if rows == [] then {}
    else SeenIds(rows[..|rows| - 1]) + Recorded(rows[|rows| - 1], |rows| - 1)
  }

  /** One iteration of the row loop: how row `index` extends the outcome of the rows before it. */
  function ScanStep(file: string, kind: RecordKind, before: Outcome, index: nat, row: Json, seen: set<string>): Outcome {
    match before
    case Raised(f, i) => Raised(f, i)
    case Completed(defects) =>
      if row.Obj? && !Hashable(RowId(row.fields, index)) then Raised(file, index)
      else Completed(defects + RowDefects(file, kind, index, row, seen))
  }

  /** The outcome of scanning the rows `rows` in index order. */
  function ScanRows(file: string, kind: RecordKind, rows: seq<Json>): Outcome {
    if rows == [] then Completed([])
    else
      var last := |rows| - 1;
      ScanStep(file, kind, ScanRows(file, kind, rows[..last]), last, rows[last], SeenIds(rows[..last]))
  }

  lemma ScanPrefix(file: string, kind: RecordKind, rows: seq<Json>, n: nat)
    requires n < |rows|
    ensures ScanRows(file, kind, rows[..n + 1]) ==
            ScanStep(file, kind, ScanRows(file, kind, rows[..n]), n, rows[n], SeenIds(rows[..n]))
    ensures SeenIds(rows[..n + 1]) == SeenIds(rows[..n]) + Recorded(rows[n], n)
  {
    assert rows[..n + 1][..n] == rows[..n];
  }

  /** Whether `root[listKey]` is present and is an array. */
  predicate HasRecordArray(root: Json, listKey: string)
    requires root.Obj?
  {
    listKey in root.fields && root.fields[listKey].Arr?
  }

  function FileOutcome(file: string, listKey: string, kind: RecordKind, root: Json): Outcome
    requires root.Obj?
  {
    if !HasRecordArray(root, listKey) then Completed([ContainerNotArray(file, listKey)])
    else ScanRows(file, kind, root.fields[listKey].items)
  }

  /**
   `_validate_file` after the document has been parsed: a bad container gives
   exactly one defect and no row is looked at; otherwise every row is visited
   in index order and its defects are appended.
   */
  method ValidateFile(file: string, listKey: string, kind: RecordKind, root: Json) returns (outcome: Outcome)
    requires root.Obj?
    ensures outcome == FileOutcome(file, listKey, kind, root)
    ensures !HasRecordArray(root, listKey) ==> outcome == Completed([ContainerNotArray(file, listKey)])
  {
    if !HasRecordArray(root, listKey) {
      return Completed([ContainerNotArray(file, listKey)]);
    }
    var rows := root.fields[listKey].items;
    var errors: seq<Defect> := [];
    var seen: set<string> := {};
    for index := 0 to |rows|
      invariant ScanRows(file, kind, rows[..index]) == Completed(errors)
      invariant seen == SeenIds(rows[..index])
    {
      ScanPrefix(file, kind, rows, index);
      var row := rows[index];
      if !row.Obj? {
        errors := errors + [RowNotObject(file, index, TypeName(row))];
        continue;
      }
      var rowId := RowId(row.fields, index);
      if !Hashable(rowId) {
        // `row_id in seen` raises TypeError: unhashable type
        RaisedPersists(file, kind, rows, index + 1);
        assert rows[..|rows|] == rows;
        return Raised(file, index);
      }
      var found: seq<Defect> := [];
      if AlreadySeen(rowId, seen) {
        found := [DuplicateId(file, index, rowId)];
      }
      seen := seen + {Stringify(rowId)};
      var reason := Validate(kind, row.fields);
      if reason.Some? {
        found := found + [InvalidRow(file, index, rowId, reason.value, row.fields)];
      }
      assert found == RowDefects(file, kind, index, row, SeenIds(rows[..index]));
      errors := errors + found;
    }
    assert rows[..|rows|] == rows;
    return Completed(errors);
  }

  /** Once a scan has raised, scanning further rows does not change that. */
  lemma {:induction false} RaisedPersists(file: string, kind: RecordKind, rows: seq<Json>, n: nat)
    requires n <= |rows| && ScanRows(file, kind, rows[..n]).Raised?
    ensures ScanRows(file, kind, rows) == ScanRows(file, kind, rows[..n])
    decreases |rows| - n
  {
    if n < |rows| {
      assert rows[..n + 1][..n] == rows[..n];
      RaisedPersists(file, kind, rows, n + 1);
    } else {
      assert rows[..n] == rows;
    }
  }

  /** One entry of the fixed list of collections: its file, the key of its array and its record type. */
  datatype Target = Target(file: string, listKey: string, kind: RecordKind)

  const Targets: seq<Target> := [
    Target("Skill.json", "skills", Skill),
    Target("EnemyStat.json", "enemies", Enemy),
    Target("Passive.json", "passives", Passive),
    Target("Quest.json", "quests", Quest)
  ]

  /** Every target's document has been read and parsed to a JSON object. */
  predicate Loaded(documents: map<string, Json>, targets: seq<Target>) {
    forall i :: 0 <= i < |targets| ==> targets[i].file in documents && documents[targets[i].file].Obj?
  }

  /** The outcome of a run that goes on to one more file: a raised error ends it, defects accumulate. */
  function Append(earlier: Outcome, next: Outcome): Outcome {
    match earlier
    case Raised(f, i) => Raised(f, i)
    case Completed(before) =>
      match next
      case Raised(f, i) => Raised(f, i)
      case Completed(defects) => Completed(before + defects)
  }

  /** The defects of all targets, concatenated in target order; the first raised error ends the run. */
  function RunOutcome(documents: map<string, Json>, targets: seq<Target>): Outcome
    requires Loaded(documents, targets)
  {
    if targets == [] then Completed([])
    else
      var last := |targets| - 1;
      var t := targets[last];
      Append(RunOutcome(documents, targets[..last]), FileOutcome(t.file, t.listKey, t.kind, documents[t.file]))
  }

  /** 0 when the run found no defect, 1 otherwise (an uncaught exception also ends the process with 1). */
  function ExitStatus(outcome: Outcome): int {
    if outcome == Completed([]) then 0 else 1
  }

  /**
   `main`: validate the four collections in order, concatenating their defects,
   and return the exit status.
   */
  method RunValidation(documents: map<string, Json>) returns (outcome: Outcome, status: int)
    requires Loaded(documents, Targets)
    ensures outcome == RunOutcome(documents, Targets)
    ensures status == ExitStatus(outcome)
  {
    var allErrors: seq<Defect> := [];
    for n := 0 to |Targets|
      invariant Loaded(documents, Targets[..n])
      invariant RunOutcome(documents, Targets[..n]) == Completed(allErrors)
    {
      assert Targets[..n + 1][..n] == Targets[..n];
      var t := Targets[n];
      var fileOutcome := ValidateFile(t.file, t.listKey, t.kind, documents[t.file]);
      if fileOutcome.Raised? {
        RunRaisedPersists(documents, Targets, n + 1);
        assert Targets[..|Targets|] == Targets;
        return fileOutcome, 1;
      }
      allErrors := allErrors + fileOutcome.defects;
    }
    assert Targets[..|Targets|] == Targets;
    outcome := Completed(allErrors);
    status := if |allErrors| > 0 then 1 else 0;
  }

  /** Once a run has raised, the remaining targets do not change that. */
  lemma {:induction false} RunRaisedPersists(documents: map<string, Json>, targets: seq<Target>, n: nat)
    requires Loaded(documents, targets)
    requires n <= |targets| && RunOutcome(documents, targets[..n]).Raised?
    ensures Loaded(documents, targets[..n])
    ensures RunOutcome(documents, targets) == RunOutcome(documents, targets[..n])
    decreases |targets| - n
  {
    if n < |targets| {
      assert targets[..n + 1][..n] == targets[..n];
      RunRaisedPersists(documents, targets, n + 1);
    } else {
      assert targets[..n] == targets;
    }
  }
}
