/**
 Properties of the file-level driver and of the run: the scan visits every row
 in index order and reports each row's defects in place, it raises only on a
 list or object id, duplicate detection flags exactly the string ids recorded
 by an earlier row, and the exit status is 0 exactly when no file has a defect.
 */
module DriverProperties {
  import opened JsonValue
  import opened Schema
  import opened Driver
  import opened SchemaProperties

  /** The row a defect is reported against (-1 for the container defect). */
  function RowIndex(d: Defect): int {
    match d
    case ContainerNotArray(_, _) => -1
    case RowNotObject(_, i, _) => i
    case DuplicateId(_, i, _) => i
    case InvalidRow(_, i, _, _, _) => i
  }

  /** The defects of `ds` reported against row `i`, in their order in `ds`. */
  function DefectsAt(ds: seq<Defect>, i: int): seq<Defect> {
    if ds == [] then []
    else DefectsAt(ds[..|ds| - 1], i) + (if RowIndex(ds[|ds| - 1]) == i then [ds[|ds| - 1]] else [])
  }

  /** Whether row `i` is an object whose id cannot be looked up in a set. */
  predicate RaisesAt(rows: seq<Json>, i: int)
    requires 0 <= i < |rows|
  {
    rows[i].Obj? && !Hashable(RowId(rows[i].fields, i))
  }

  lemma {:induction false} DefectsAtConcat(a: seq<Defect>, b: seq<Defect>, i: int)
    ensures DefectsAt(a + b, i) == DefectsAt(a, i) + DefectsAt(b, i)
    decreases |b|
  {
    if b == [] {
      assert a + b == a;
    } else {
      var last := |b| - 1;
      assert (a + b)[..|a + b| - 1] == a + b[..last];
      DefectsAtConcat(a, b[..last], i);
    }
  }

  lemma {:induction false} DefectsAtNone(ds: seq<Defect>, i: int)
    requires forall k :: 0 <= k < |ds| ==> RowIndex(ds[k]) != i
    ensures DefectsAt(ds, i) == []
  {
    if ds != [] {
      DefectsAtNone(ds[..|ds| - 1], i);
    }
  }

  lemma {:induction false} DefectsAtAll(ds: seq<Defect>, i: int)
    requires forall k :: 0 <= k < |ds| ==> RowIndex(ds[k]) == i
    ensures DefectsAt(ds, i) == ds
  {
    if ds != [] {
      DefectsAtAll(ds[..|ds| - 1], i);
    }
  }

  /** What one row contributes: at most two defects, all against that row and that file. */
  lemma RowDefectsAt(file: string, kind: RecordKind, index: nat, row: Json, seen: set<string>)
    requires row.Obj? ==> Hashable(RowId(row.fields, index))
    ensures |RowDefects(file, kind, index, row, seen)| <= 2
    ensures forall k :: 0 <= k < |RowDefects(file, kind, index, row, seen)| ==>
              RowIndex(RowDefects(file, kind, index, row, seen)[k]) == index &&
              RowDefects(file, kind, index, row, seen)[k].file == file
  {
  }

  /**
   Within one object row, the duplicate-id defect comes first and the
   validator's reason last; a row flagged on both counts gives exactly that pair.
   */
  lemma RowDefectsOrder(file: string, kind: RecordKind, index: nat, row: Json, seen: set<string>)
    requires row.Obj? && Hashable(RowId(row.fields, index))
    ensures var ds := RowDefects(file, kind, index, row, seen);
            (forall k :: 0 <= k < |ds| && ds[k].DuplicateId? ==> k == 0) &&
            (forall k :: 0 <= k < |ds| && ds[k].InvalidRow? ==> k == |ds| - 1) &&
            (forall k :: 0 <= k < |ds| ==> !ds[k].RowNotObject? && !ds[k].ContainerNotArray?)
    ensures AlreadySeen(RowId(row.fields, index), seen) && Validate(kind, row.fields).Some? ==>
            RowDefects(file, kind, index, row, seen) ==
              [DuplicateId(file, index, RowId(row.fields, index)),
               InvalidRow(file, index, RowId(row.fields, index), Validate(kind, row.fields).value, row.fields)]
  {
  }

  /** Row `i` was flagged as a duplicate exactly when its id is a string already in `seen`. */
  lemma DuplicateInRowDefects(file: string, kind: RecordKind, index: nat, row: Json, seen: set<string>, id: Json)
    requires row.Obj? ==> Hashable(RowId(row.fields, index))
    ensures DuplicateId(file, index, id) in RowDefects(file, kind, index, row, seen) <==>
            row.Obj? && id == RowId(row.fields, index) && id.Str? && id.s in seen
  {
    if row.Obj? && id == RowId(row.fields, index) && id.Str? && id.s in seen {
      assert RowDefects(file, kind, index, row, seen)[0] == DuplicateId(file, index, id);
    }
  }

  lemma RaisesAtPrefix(rows: seq<Json>, n: nat, j: nat)
    requires j < n <= |rows|
    ensures RaisesAt(rows[..n], j) == RaisesAt(rows, j)
  {
    assert rows[..n][j] == rows[j];
  }

  /**
   When a scan raises, it is at the first object row whose id is a list or an
   object, and the error names the file being scanned.
   */
  lemma {:induction false} ScanRaisesAtFirst(file: string, kind: RecordKind, rows: seq<Json>)
    ensures ScanRows(file, kind, rows).Raised? ==>
              var i := ScanRows(file, kind, rows).index;
              ScanRows(file, kind, rows).file == file && i < |rows| && RaisesAt(rows, i) &&
              forall j :: 0 <= j < i ==> !RaisesAt(rows, j)
  {
    if rows != [] {
      var last := |rows| - 1;
      var prefix := rows[..last];
      ScanRaisesAtFirst(file, kind, prefix);
      if ScanRows(file, kind, prefix).Raised? {
        var i := ScanRows(file, kind, prefix).index;
        RaisesAtPrefix(rows, last, i);
        forall j | 0 <= j < i
          ensures !RaisesAt(rows, j)
        {
          RaisesAtPrefix(rows, last, j);
        }
      } else if RaisesAt(rows, last) {
        var earlier := ScanRows(file, kind, prefix).defects;
        ScanIsRowByRow(file, kind, prefix, earlier);
        forall j | 0 <= j < last
          ensures !RaisesAt(rows, j)
        {
          assert RowReported(file, kind, prefix, earlier, j);
          RaisesAtPrefix(rows, last, j);
        }
      }
    }
  }

  /** A scan raises exactly when some object row's id is a list or an object. */
  lemma ScanRaisesIffUnhashableId(file: string, kind: RecordKind, rows: seq<Json>)
    ensures ScanRows(file, kind, rows).Raised? <==> exists i :: 0 <= i < |rows| && RaisesAt(rows, i)
  {
    ScanRaisesAtFirst(file, kind, rows);
    if ScanRows(file, kind, rows).Raised? {
      assert RaisesAt(rows, ScanRows(file, kind, rows).index);
    } else {
      var errs := ScanRows(file, kind, rows).defects;
      ScanIsRowByRow(file, kind, rows, errs);
      forall i | 0 <= i < |rows|
        ensures !RaisesAt(rows, i)
      {
        assert RowReported(file, kind, rows, errs, i);
      }
    }
  }

  /**
   The scan reports in row order: when it completes, every defect belongs to a
   row of the file and defects appear in non-decreasing row order.
   */
  lemma {:induction false} ScanIsInRowOrder(file: string, kind: RecordKind, rows: seq<Json>, errs: seq<Defect>)
    requires ScanRows(file, kind, rows) == Completed(errs)
    ensures forall k :: 0 <= k < |errs| ==> 0 <= RowIndex(errs[k]) < |rows|
    ensures forall a, b :: 0 <= a < b < |errs| ==> RowIndex(errs[a]) <= RowIndex(errs[b])
  {
    if rows != [] {
      var last := |rows| - 1;
      var prefix := rows[..last];
      var earlier := ScanRows(file, kind, prefix).defects;
      ScanIsInRowOrder(file, kind, prefix, earlier);
      var mine := RowDefects(file, kind, last, rows[last], SeenIds(prefix));
      RowDefectsAt(file, kind, last, rows[last], SeenIds(prefix));
      assert errs == earlier + mine;
    }
  }

  /**
   Row `i` is reported in place: it did not raise, and the defects listed
   against it are exactly what it contributes given the ids the rows before it
   recorded.
   */
  predicate RowReported(file: string, kind: RecordKind, rows: seq<Json>, errs: seq<Defect>, i: nat)
    requires i < |rows|
  {
    !RaisesAt(rows, i) &&
    DefectsAt(errs, i) == RowDefects(file, kind, i, rows[i], SeenIds(rows[..i]))
  }

  /** The scan is exhaustive: when it completes, every row is reported in place. */
  lemma {:induction false} ScanIsRowByRow(file: string, kind: RecordKind, rows: seq<Json>, errs: seq<Defect>)
    requires ScanRows(file, kind, rows) == Completed(errs)
    ensures forall i :: 0 <= i < |rows| ==> RowReported(file, kind, rows, errs, i)
  {
    if rows != [] {
      var last := |rows| - 1;
      var prefix := rows[..last];
      var earlier := ScanRows(file, kind, prefix).defects;
      ScanIsRowByRow(file, kind, prefix, earlier);
      ScanIsInRowOrder(file, kind, prefix, earlier);
      assert !RaisesAt(rows, last);
      var mine := RowDefects(file, kind, last, rows[last], SeenIds(prefix));
      assert errs == earlier + mine;
      RowByRowStep(file, kind, rows, prefix, earlier, mine);
    }
  }

  /** The induction step of `ScanIsRowByRow`: appending the last row's defects. */
  lemma RowByRowStep(file: string, kind: RecordKind, rows: seq<Json>, prefix: seq<Json>,
                     earlier: seq<Defect>, mine: seq<Defect>)
    requires rows != [] && prefix == rows[..|rows| - 1]
    requires forall i :: 0 <= i < |prefix| ==> RowReported(file, kind, prefix, earlier, i)
    requires forall k :: 0 <= k < |earlier| ==> RowIndex(earlier[k]) < |rows| - 1
    requires !RaisesAt(rows, |rows| - 1)
    requires mine == RowDefects(file, kind, |rows| - 1, rows[|rows| - 1], SeenIds(rows[..|rows| - 1]))
    ensures forall i :: 0 <= i < |rows| ==> RowReported(file, kind, rows, earlier + mine, i)
  {
    var last := |rows| - 1;
    RowDefectsAt(file, kind, last, rows[last], SeenIds(rows[..last]));
    forall i | 0 <= i < |rows|
      ensures RowReported(file, kind, rows, earlier + mine, i)
    {
      if i < last {
        assert RowReported(file, kind, prefix, earlier, i);
        EarlierRowUnchanged(file, kind, rows, earlier, mine, i);
      } else {
        LastRowDefects(earlier, mine, i);
      }
    }
  }

  /** The last row's defects are exactly what it contributes. */
  lemma LastRowDefects(earlier: seq<Defect>, mine: seq<Defect>, i: int)
    requires forall k :: 0 <= k < |earlier| ==> RowIndex(earlier[k]) < i
    requires forall k :: 0 <= k < |mine| ==> RowIndex(mine[k]) == i
    ensures DefectsAt(earlier + mine, i) == mine
  {
    DefectsAtConcat(earlier, mine, i);
    DefectsAtNone(earlier, i);
    DefectsAtAll(mine, i);
  }

  /** Appending the last row's defects leaves an earlier row's defects as they were. */
  lemma EarlierRowUnchanged(file: string, kind: RecordKind, rows: seq<Json>, earlier: seq<Defect>,
                            mine: seq<Defect>, i: nat)
    requires i < |rows| - 1
    requires forall k :: 0 <= k < |mine| ==> RowIndex(mine[k]) == |rows| - 1
    requires RowReported(file, kind, rows[..|rows| - 1], earlier, i)
    ensures RowReported(file, kind, rows, earlier + mine, i)
  {
    var prefix := rows[..|rows| - 1];
    assert prefix[i] == rows[i];
    assert prefix[..i] == rows[..i];
    DefectsAtConcat(earlier, mine, i);
    DefectsAtNone(mine, i);
  }

  /** Whether row `j` is an object whose id `seen.add` records as `s`. */
  predicate RecordsId(rows: seq<Json>, j: nat, s: string)
    requires j < |rows|
  {
    rows[j].Obj? && Hashable(RowId(rows[j].fields, j)) && Stringify(RowId(rows[j].fields, j)) == s
  }

  /** `seen` holds the string form of the id of every object row so far, and nothing else. */
  lemma {:induction false} SeenIdsMembers(rows: seq<Json>, s: string)
    ensures s in SeenIds(rows) <==> exists j :: 0 <= j < |rows| && RecordsId(rows, j, s)
  {
    if rows != [] {
      var last := |rows| - 1;
      SeenIdsMembers(rows[..last], s);
      assert forall j :: 0 <= j < last ==> (RecordsId(rows[..last], j, s) <==> RecordsId(rows, j, s));
      assert s in Recorded(rows[last], last) <==> RecordsId(rows, last, s);
    }
  }

  /** The ids recorded before row `i` are those of the object rows before it. */
  lemma SeenIdsBefore(rows: seq<Json>, i: nat, s: string)
    requires i <= |rows|
    ensures s in SeenIds(rows[..i]) <==> exists j :: 0 <= j < i && RecordsId(rows, j, s)
  {
    SeenIdsMembers(rows[..i], s);
    assert forall j :: 0 <= j < i ==> (RecordsId(rows[..i], j, s) <==> RecordsId(rows, j, s));
  }

  /** Each defect of a completed scan is one its own row contributed. */
  lemma ScanDefectOrigin(file: string, kind: RecordKind, rows: seq<Json>, errs: seq<Defect>, k: nat)
    requires ScanRows(file, kind, rows) == Completed(errs)
    requires k < |errs|
    ensures var r := RowIndex(errs[k]);
            0 <= r < |rows| && !RaisesAt(rows, r) &&
            errs[k] in RowDefects(file, kind, r, rows[r], SeenIds(rows[..r]))
  {
    ScanIsInRowOrder(file, kind, rows, errs);
    ScanIsRowByRow(file, kind, rows, errs);
    var r := RowIndex(errs[k]);
    assert RowReported(file, kind, rows, errs, r);
    DefectsAtHas(errs, k);
  }

  /**
   Duplicate ids: row `i` is flagged as a duplicate exactly when it is an
   object whose id is a string equal to the string form of the id of an
   earlier object row. The flag carries the row's own id.
   */
  lemma DuplicateIffEarlierId(file: string, kind: RecordKind, rows: seq<Json>, errs: seq<Defect>, i: nat, id: Json)
    requires ScanRows(file, kind, rows) == Completed(errs)
    ensures DuplicateId(file, i, id) in errs <==>
            i < |rows| && rows[i].Obj? && id == RowId(rows[i].fields, i) && id.Str? &&
            exists j :: 0 <= j < i && RecordsId(rows, j, id.s)
  {
    if DuplicateId(file, i, id) in errs {
      var k :| 0 <= k < |errs| && errs[k] == DuplicateId(file, i, id);
      ScanDefectOrigin(file, kind, rows, errs, k);
      DuplicateInRowDefects(file, kind, i, rows[i], SeenIds(rows[..i]), id);
      SeenIdsBefore(rows, i, id.s);
    }
    if i < |rows| && rows[i].Obj? && id == RowId(rows[i].fields, i) && id.Str? &&
       exists j :: 0 <= j < i && RecordsId(rows, j, id.s) {
      ScanIsRowByRow(file, kind, rows, errs);
      assert RowReported(file, kind, rows, errs, i);
      SeenIdsBefore(rows, i, id.s);
      DuplicateInRowDefects(file, kind, i, rows[i], SeenIds(rows[..i]), id);
      DefectsAtIn(errs, i);
    }
  }

  /** A defect listed under row `RowIndex(errs[k])` is there. */
  lemma {:induction false} DefectsAtHas(errs: seq<Defect>, k: nat)
    requires k < |errs|
    ensures errs[k] in DefectsAt(errs, RowIndex(errs[k]))
  {
    var last := |errs| - 1;
    if k < last {
      DefectsAtHas(errs[..last], k);
      assert errs[..last][k] == errs[k];
    }
  }

  /** Every defect listed under row `i` is one of the scan's defects. */
  lemma {:induction false} DefectsAtIn(errs: seq<Defect>, i: int)
    ensures forall d :: d in DefectsAt(errs, i) ==> d in errs
  {
    if errs != [] {
      var last := |errs| - 1;
      DefectsAtIn(errs[..last], i);
      assert forall d :: d in errs[..last] ==> d in errs;
    }
  }

  /** Only string ids are ever flagged as duplicates. */
  lemma OnlyStringIdsAreDuplicates(file: string, kind: RecordKind, rows: seq<Json>, errs: seq<Defect>)
    requires ScanRows(file, kind, rows) == Completed(errs)
    ensures forall k :: 0 <= k < |errs| && errs[k].DuplicateId? ==> errs[k].id.Str?
  {
    forall k | 0 <= k < |errs| && errs[k].DuplicateId?
      ensures errs[k].id.Str?
    {
      ScanDefectOrigin(file, kind, rows, errs, k);
      var r := RowIndex(errs[k]);
      RowDefectsAt(file, kind, r, rows[r], SeenIds(rows[..r]));
      DuplicateInRowDefects(file, kind, r, rows[r], SeenIds(rows[..r]), errs[k].id);
    }
  }

  /** A row that is not an object gets exactly one defect, naming its type. */
  lemma NonObjectRowReported(file: string, kind: RecordKind, rows: seq<Json>, errs: seq<Defect>, i: nat)
    requires ScanRows(file, kind, rows) == Completed(errs)
    requires i < |rows| && !rows[i].Obj?
    ensures DefectsAt(errs, i) == [RowNotObject(file, i, TypeName(rows[i]))]
  {
    ScanIsRowByRow(file, kind, rows, errs);
    assert RowReported(file, kind, rows, errs, i);
  }

  /**
   An object row that its record type's validator rejects is reported with
   that reason, whether or not it was also flagged as a duplicate.
   */
  lemma InvalidRowReported(file: string, kind: RecordKind, rows: seq<Json>, errs: seq<Defect>, i: nat)
    requires ScanRows(file, kind, rows) == Completed(errs)
    requires i < |rows| && rows[i].Obj? && Validate(kind, rows[i].fields).Some?
    ensures InvalidRow(file, i, RowId(rows[i].fields, i), Validate(kind, rows[i].fields).value, rows[i].fields) in errs
  {
    ScanIsRowByRow(file, kind, rows, errs);
    assert RowReported(file, kind, rows, errs, i);
    DefectsAtIn(errs, i);
  }

  /** An object row its validator accepts is never reported as invalid. */
  lemma ValidRowNotReported(file: string, kind: RecordKind, rows: seq<Json>, errs: seq<Defect>, i: nat)
    requires ScanRows(file, kind, rows) == Completed(errs)
    requires i < |rows| && rows[i].Obj? && Validate(kind, rows[i].fields) == None
    ensures forall k :: 0 <= k < |errs| && errs[k].InvalidRow? ==> errs[k].index != i
  {
    forall k | 0 <= k < |errs| && errs[k].InvalidRow?
      ensures errs[k].index != i
    {
      ScanDefectOrigin(file, kind, rows, errs, k);
    }
  }

  /**
   A record without an `id` is reported as missing keys, one of them `id`,
   under the placeholder id `<missing-id:i>`.
   */
  lemma RowWithoutIdReported(file: string, kind: RecordKind, rows: seq<Json>, errs: seq<Defect>, i: nat)
    requires ScanRows(file, kind, rows) == Completed(errs)
    requires i < |rows| && rows[i].Obj? && "id" !in rows[i].fields
    ensures Validate(kind, rows[i].fields).Some? && Validate(kind, rows[i].fields).value.MissingKeys?
    ensures "id" in Validate(kind, rows[i].fields).value.keys
    ensures InvalidRow(file, i, Str("<missing-id:" + DecimalString(i) + ">"), Validate(kind, rows[i].fields).value,
                       rows[i].fields) in errs
  {
    assert "id" == RequiredKeys(kind)[0];
    MissingKeysReported(kind, rows[i].fields);
    InvalidRowReported(file, kind, rows, errs, i);
  }

  /** The placeholders of two different rows differ, because `str(index)` determines the index. */
  lemma PlaceholdersDiffer(i: nat, j: nat)
    requires i != j
    ensures "<missing-id:" + DecimalString(i) + ">" != "<missing-id:" + DecimalString(j) + ">"
  {
    var prefix := "<missing-id:";
    var a := prefix + DecimalString(i) + ">";
    var b := prefix + DecimalString(j) + ">";
    if a == b {
      assert a[|prefix|..|a| - 1] == DecimalString(i);
      assert b[|prefix|..|b| - 1] == DecimalString(j);
      DecimalStringInjective(i, j);
    }
  }

  /**
   A row without an `id` is flagged as a duplicate exactly when an earlier row
   carries its own `id` whose string form is this row's placeholder
   `<missing-id:i>`: two rows without ids never flag each other.
   */
  lemma IdlessRowDuplicate(file: string, kind: RecordKind, rows: seq<Json>, errs: seq<Defect>, i: nat, id: Json)
    requires ScanRows(file, kind, rows) == Completed(errs)
    requires i < |rows| && rows[i].Obj? && "id" !in rows[i].fields
    ensures DuplicateId(file, i, id) in errs <==>
            id == Str("<missing-id:" + DecimalString(i) + ">") &&
            exists j :: 0 <= j < i && RecordsId(rows, j, id.s) && "id" in rows[j].fields
  {
    DuplicateIffEarlierId(file, kind, rows, errs, i, id);
    if DuplicateId(file, i, id) in errs {
      var j :| 0 <= j < i && RecordsId(rows, j, id.s);
      if "id" !in rows[j].fields {
        PlaceholdersDiffer(i, j);
        assert false;
      }
    }
  }

  /** A file of valid object rows with distinct string ids has no defects. */
  lemma {:induction false} CleanRowsHaveNoDefects(file: string, kind: RecordKind, rows: seq<Json>)
    requires forall i :: 0 <= i < |rows| ==> rows[i].Obj? && Validate(kind, rows[i].fields) == None
    requires forall i :: 0 <= i < |rows| ==> RowId(rows[i].fields, i).Str?
    requires forall i, j :: 0 <= j < i < |rows| ==> RowId(rows[i].fields, i) != RowId(rows[j].fields, j)
    ensures ScanRows(file, kind, rows) == Completed([])
  {
    if rows != [] {
      var last := |rows| - 1;
      var prefix := rows[..last];
      CleanRowsHaveNoDefects(file, kind, prefix);
      SeenIdsMembers(prefix, RowId(rows[last].fields, last).s);
    }
  }

  /** The outcome of the `i`-th target's file. */
  function TargetOutcome(documents: map<string, Json>, targets: seq<Target>, i: nat): Outcome
    requires Loaded(documents, targets) && i < |targets|
  {
    FileOutcome(targets[i].file, targets[i].listKey, targets[i].kind, documents[targets[i].file])
  }

  /** One step of the run: the outcome after target `n` from the outcome before it. */
  lemma RunPrefixStep(documents: map<string, Json>, targets: seq<Target>, n: nat)
    requires Loaded(documents, targets) && n < |targets|
    ensures Loaded(documents, targets[..n]) && Loaded(documents, targets[..n + 1])
    ensures RunOutcome(documents, targets[..n + 1]) ==
            Append(RunOutcome(documents, targets[..n]), TargetOutcome(documents, targets, n))
  {
    assert targets[..n + 1][..n] == targets[..n];
    assert targets[..n + 1][n] == targets[n];
  }

  /** A run step completes exactly when both what came before and the next file complete. */
  lemma AppendCompleted(earlier: Outcome, next: Outcome)
    ensures Append(earlier, next).Completed? <==> earlier.Completed? && next.Completed?
    ensures Append(earlier, next) == Completed([]) <==> earlier == Completed([]) && next == Completed([])
  {
    if earlier.Completed? && next.Completed? {
      assert earlier.defects + next.defects == [] <==> earlier.defects == [] && next.defects == [];
    }
  }

  /** The outcomes of the targets' files, in target order. */
  function FileOutcomes(documents: map<string, Json>, targets: seq<Target>): (outcomes: seq<Outcome>)
    requires Loaded(documents, targets)
    ensures |outcomes| == |targets|
    ensures forall i :: 0 <= i < |targets| ==> outcomes[i] == TargetOutcome(documents, targets, i)
  {
    if targets == [] then []
    else
      var last := |targets| - 1;
      assert Loaded(documents, targets[..last]);
      assert forall i :: 0 <= i < last ==> TargetOutcome(documents, targets[..last], i) == TargetOutcome(documents, targets, i);
      FileOutcomes(documents, targets[..last]) + [TargetOutcome(documents, targets, last)]
  }

  /** A sequence of file outcomes run one after another. */
  function Fold(outcomes: seq<Outcome>): Outcome {
    if outcomes == [] then Completed([])
    else Append(Fold(outcomes[..|outcomes| - 1]), outcomes[|outcomes| - 1])
  }

  lemma {:induction false} RunIsFold(documents: map<string, Json>, targets: seq<Target>)
    requires Loaded(documents, targets)
    ensures RunOutcome(documents, targets) == Fold(FileOutcomes(documents, targets))
  {
    if targets != [] {
      var last := |targets| - 1;
      assert Loaded(documents, targets[..last]);
      RunIsFold(documents, targets[..last]);
      var outcomes := FileOutcomes(documents, targets);
      assert outcomes[..last] == FileOutcomes(documents, targets[..last]);
    }
  }

  lemma {:induction false} FoldCompletedIff(outcomes: seq<Outcome>)
    ensures Fold(outcomes).Completed? <==> forall i :: 0 <= i < |outcomes| ==> outcomes[i].Completed?
  {
    if outcomes != [] {
      var last := |outcomes| - 1;
      FoldCompletedIff(outcomes[..last]);
      AppendCompleted(Fold(outcomes[..last]), outcomes[last]);
      assert forall i :: 0 <= i < last ==> outcomes[..last][i] == outcomes[i];
    }
  }

  lemma {:induction false} FoldCleanIff(outcomes: seq<Outcome>)
    ensures Fold(outcomes) == Completed([]) <==> forall i :: 0 <= i < |outcomes| ==> outcomes[i] == Completed([])
  {
    if outcomes != [] {
      var last := |outcomes| - 1;
      FoldCleanIff(outcomes[..last]);
      AppendCompleted(Fold(outcomes[..last]), outcomes[last]);
      assert forall i :: 0 <= i < last ==> outcomes[..last][i] == outcomes[i];
    }
  }

  /** The run completes exactly when every file completes. */
  lemma RunCompletesIffFilesComplete(documents: map<string, Json>, targets: seq<Target>)
    requires Loaded(documents, targets)
    ensures RunOutcome(documents, targets).Completed? <==>
            forall i :: 0 <= i < |targets| ==> TargetOutcome(documents, targets, i).Completed?
  {
    RunIsFold(documents, targets);
    FoldCompletedIff(FileOutcomes(documents, targets));
  }

  /**
   Exit status: `main` returns 0 exactly when every file completes with no
   defect; one defect in any file, or a raised error, makes it 1.
   */
  lemma ExitZeroIffEveryFileClean(documents: map<string, Json>, targets: seq<Target>)
    requires Loaded(documents, targets)
    ensures ExitStatus(RunOutcome(documents, targets)) == 0 <==>
            forall i :: 0 <= i < |targets| ==> TargetOutcome(documents, targets, i) == Completed([])
  {
    RunIsFold(documents, targets);
    FoldCleanIff(FileOutcomes(documents, targets));
  }

  /** A run over four targets concatenates their defects in target order. */
  lemma RunOfFour(documents: map<string, Json>, targets: seq<Target>, a: seq<Defect>, b: seq<Defect>,
                  c: seq<Defect>, d: seq<Defect>)
    requires Loaded(documents, targets) && |targets| == 4
    requires TargetOutcome(documents, targets, 0) == Completed(a)
    requires TargetOutcome(documents, targets, 1) == Completed(b)
    requires TargetOutcome(documents, targets, 2) == Completed(c)
    requires TargetOutcome(documents, targets, 3) == Completed(d)
    ensures RunOutcome(documents, targets) == Completed(a + b + c + d)
  {
    assert targets[..0] == [];
    RunPrefixStep(documents, targets, 0);
    assert RunOutcome(documents, targets[..1]) == Completed(a);
    RunPrefixStep(documents, targets, 1);
    assert RunOutcome(documents, targets[..2]) == Completed(a + b);
    RunPrefixStep(documents, targets, 2);
    assert RunOutcome(documents, targets[..3]) == Completed(a + b + c);
    RunPrefixStep(documents, targets, 3);
    assert targets[..4] == targets;
  }

  /** The run's defects are the four files' defects, concatenated in Skill, Enemy, Passive, Quest order. */
  lemma RunConcatenatesInOrder(documents: map<string, Json>, skills: seq<Defect>, enemies: seq<Defect>,
                               passives: seq<Defect>, quests: seq<Defect>)
    requires Loaded(documents, Targets)
    requires TargetOutcome(documents, Targets, 0) == Completed(skills)
    requires TargetOutcome(documents, Targets, 1) == Completed(enemies)
    requires TargetOutcome(documents, Targets, 2) == Completed(passives)
    requires TargetOutcome(documents, Targets, 3) == Completed(quests)
    ensures RunOutcome(documents, Targets) == Completed(skills + enemies + passives + quests)
  {
    RunOfFour(documents, Targets, skills, enemies, passives, quests);
  }
}
