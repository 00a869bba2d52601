/** Every view shows every field once and every record once, whatever is done. */
module WellFormed {
  import opened Options
  import opened Datasheet
  import opened DeleteField
  import opened AddField
  import opened Records
  import opened Sequences
  import D = DeleteRecords

  /** The ids are distinct and are the keys. */
  ghost predicate Lists(ids: seq<Id>, keys: set<Id>) {
    multiset(ids) == multiset(keys)
  }

  lemma ListsMeans(ids: seq<Id>, keys: set<Id>)
    ensures Lists(ids, keys) <==>
            (forall x :: x in ids <==> x in keys) && (forall i, j :: 0 <= i < j < |ids| ==> ids[i] != ids[j])
  {
    var distinct := forall i, j :: 0 <= i < j < |ids| ==> ids[i] != ids[j];
    if Lists(ids, keys) {
      forall x ensures x in ids <==> x in keys {
        assert x in ids <==> x in multiset(ids);
      }
      forall i, j | 0 <= i < j < |ids| ensures ids[i] != ids[j] {
        assert multiset(keys)[ids[i]] <= 1;
        if ids[i] == ids[j] {
          TwiceCounted(ids, i, j);
        }
      }
    } else if distinct && forall x :: x in ids <==> x in keys {
      forall x ensures multiset(ids)[x] == multiset(keys)[x] {
        DistinctCounted(ids, x);
      }
      assert false;
    }
  }

  lemma TwiceCounted(ids: seq<Id>, i: nat, j: nat)
    requires i < j < |ids| && ids[i] == ids[j]
    ensures multiset(ids)[ids[i]] >= 2
  {
    assert ids == ids[..j] + [ids[j]] + ids[j + 1..];
    assert ids[i] in ids[..j];
  }

  lemma {:induction false} DistinctCounted(ids: seq<Id>, x: Id)
    requires forall i, j :: 0 <= i < j < |ids| ==> ids[i] != ids[j]
    ensures multiset(ids)[x] == if x in ids then 1 else 0
  {
    if ids != [] {
      assert ids == [ids[0]] + ids[1..];
      assert forall i :: 0 <= i < |ids[1..]| ==> ids[1..][i] == ids[i + 1];
      DistinctCounted(ids[1..], x);
    }
  }

  ghost predicate ViewWellFormed(v: View, fields: set<Id>, records: set<Id>) {
    Lists(ColumnIds(v.columns), fields) && Lists(RowIds(v.rows), records)
  }

  ghost predicate WellFormed(s: Snapshot) {
    forall i :: 0 <= i < |s.views| ==> ViewWellFormed(s.views[i], s.fieldMap.Keys, s.recordMap.Keys)
  }

  // ---------------------------------------------------------------- lists of ids

  lemma ListsInsert(ids: seq<Id>, keys: set<Id>, i: nat, x: Id)
    requires Lists(ids, keys) && i <= |ids| && x !in keys
    ensures Lists(InsertAt(ids, i, x), keys + {x})
  {
    assert ids == ids[..i] + ids[i..];
    assert multiset(InsertAt(ids, i, x)) == multiset(ids) + multiset{x};
  }

  lemma ListsRemove(ids: seq<Id>, keys: set<Id>, i: nat)
    requires Lists(ids, keys) && i < |ids|
    ensures Lists(RemoveAt(ids, i), keys - {ids[i]})
  {
    ListsHas(ids, keys, ids[i]);
    assert ids == ids[..i] + [ids[i]] + ids[i + 1..];
    assert multiset(RemoveAt(ids, i)) == multiset(ids) - multiset{ids[i]};
    assert multiset(keys - {ids[i]}) == multiset(keys) - multiset{ids[i]};
  }

  lemma ListsHas(ids: seq<Id>, keys: set<Id>, x: Id)
    requires Lists(ids, keys)
    ensures x in ids <==> x in keys
  {
    assert x in ids <==> x in multiset(ids);
  }

  lemma ListsMove(ids: seq<Id>, keys: set<Id>, from: nat, target: nat)
    requires Lists(ids, keys) && from < |ids| && target < |ids|
    ensures Lists(InsertAt(RemoveAt(ids, from), target, ids[from]), keys)
  {
    ListsHas(ids, keys, ids[from]);
    ListsRemove(ids, keys, from);
    ListsInsert(RemoveAt(ids, from), keys - {ids[from]}, target, ids[from]);
    assert keys - {ids[from]} + {ids[from]} == keys;
  }

  function Count(rows: seq<Row>, x: Id): nat {
    multiset(RowIds(rows))[x]
  }

  lemma CountCons(r: Row, rows: seq<Row>, x: Id)
    ensures Count([r] + rows, x) == (if r.recordId == x then 1 else 0) + Count(rows, x)
  {
    assert RowIds([r] + rows) == [r.recordId] + RowIds(rows);
  }

  lemma {:induction false} KeptCounted(rows: seq<Row>, del: set<Id>, x: Id)
    ensures Count(D.Kept(rows, del), x) == if x in del then 0 else Count(rows, x)
  {
    if rows == [] {
      assert RowIds(rows) == [];
    } else {
      KeptCounted(rows[1..], del, x);
      CountCons(rows[0], rows[1..], x);
      CountCons(rows[0], D.Kept(rows[1..], del), x);
      assert rows == [rows[0]] + rows[1..];
      assert [] + D.Kept(rows[1..], del) == D.Kept(rows[1..], del);
    }
  }

  lemma ListsKept(rows: seq<Row>, keys: set<Id>, del: set<Id>)
    requires Lists(RowIds(rows), keys)
    ensures Lists(RowIds(D.Kept(rows, del)), keys - del)
  {
    forall x ensures multiset(RowIds(D.Kept(rows, del)))[x] == multiset(keys - del)[x] {
      KeptCounted(rows, del, x);
    }
  }

  // ---------------------------------------------------------------- commands

  datatype Command =
    | AddFieldCommand(field: Field, placement: Placement)
    | DeleteFieldCommand(fieldId: Id, datasheetId: Id, viewId: Option<Id>)
    | AddRecordCommand(activeView: Id, record: Record, index: int)
    | DeleteRecordsCommand(ids: seq<Id>, editable: set<Id>)
    | MoveRowCommand(rowView: Id, recordId: Id, rowTarget: int)
    | MoveColumnCommand(columnView: Id, columnField: Id, columnTarget: int)
    | SetRecordCommand(cellRecord: Id, cellField: Id, value: CellValue)

  function Single(a: Option<Action>): seq<Action> {
    if a.None? then [] else [a.value]
  }

  function Actions(s: Snapshot, c: Command): seq<Action> {
    match c
    case AddFieldCommand(f, p) => AddFieldActions(s, f, p)
    case DeleteFieldCommand(f, d, v) => DeleteFieldActions(s, f, d, v)
    case AddRecordCommand(v, r, i) => AddRecordActions(s, v, r, i)
    case DeleteRecordsCommand(ids, e) => D.DeleteActions(s, ids, e)
    case MoveRowCommand(v, r, t) => Single(MoveRow(s, v, r, t))
    case MoveColumnCommand(v, f, t) => Single(MoveColumn(s, v, f, t))
    case SetRecordCommand(r, f, x) => Single(SetRecord(s, r, f, x))
  }

  /** The snapshot that a command's actions lead to, if they fit. */
  function Execute(s: Snapshot, c: Command): Option<Snapshot> {
    ApplyAll(s, Actions(s, c))
  }

  function ExecuteAll(s: Snapshot, cs: seq<Command>): Option<Snapshot>
    decreases |cs|
  {
    if cs == [] then Some(s)
    else var t := Execute(s, cs[0]); if t.None? then None else ExecuteAll(t.value, cs[1..])
  }

  lemma AddedFieldView1(v: View, field: Field, p: Placement, fields: set<Id>, records: set<Id>)
    requires ViewWellFormed(v, fields, records)
    ensures ViewWellFormed(AddedFieldView(v, field, p), fields + {field.id}, records)
  {
    ListsHas(ColumnIds(v.columns), fields, field.id);
    if field.id in fields {
      assert fields + {field.id} == fields;
    } else {
      var at := SpliceStart(NewColumnIndex(v, p), |v.columns|);
      InsertedColumnIds(v.columns, at, NewColumn(v, field, p));
      ListsInsert(ColumnIds(v.columns), fields, at, field.id);
    }
  }

  lemma DeletedFieldView1(v: View, fieldId: Id, mayClean: bool, fields: set<Id>, records: set<Id>)
    requires ViewWellFormed(v, fields, records)
    ensures ViewWellFormed(DeletedFieldView(v, fieldId, mayClean), fields - {fieldId}, records)
  {
    ListsHas(ColumnIds(v.columns), fields, fieldId);
    var i := ColumnIndex(v, fieldId);
    if i < 0 {
      assert fields - {fieldId} == fields;
    } else {
      ListsRemove(ColumnIds(v.columns), fields, i);
      assert ColumnIds(RemoveAt(v.columns, i)) == RemoveAt(ColumnIds(v.columns), i);
    }
  }

  lemma AddedRecordView1(v: View, viewId: Id, id: Id, index: int, fields: set<Id>, records: set<Id>)
    requires ViewWellFormed(v, fields, records)
    ensures ViewWellFormed(AddedRecordView(v, viewId, id, index), fields, records + {id})
  {
    ListsHas(RowIds(v.rows), records, id);
    if id in records {
      assert records + {id} == records;
    } else {
      var at := SpliceStart(NewRowIndex(v, viewId, index), |v.rows|);
      InsertedRowIds(v.rows, at, Row(id));
      ListsInsert(RowIds(v.rows), records, at, id);
    }
  }

  lemma AddFieldKeeps(s: Snapshot, field: Field, p: Placement)
    requires WellFormed(s)
    ensures WellFormed(AddedField(s, field, p))
  {
    var t := AddedField(s, field, p);
    assert t.fieldMap.Keys == s.fieldMap.Keys + {field.id};
    forall i | 0 <= i < |t.views| ensures ViewWellFormed(t.views[i], t.fieldMap.Keys, t.recordMap.Keys) {
      AddedFieldView1(s.views[i], field, p, s.fieldMap.Keys, s.recordMap.Keys);
    }
  }

  lemma DeleteFieldKeeps(s: Snapshot, fieldId: Id, datasheetId: Id, viewId: Option<Id>)
    requires WellFormed(s)
    ensures WellFormed(DeletedField(s, fieldId, datasheetId, viewId))
  {
    var t := DeletedField(s, fieldId, datasheetId, viewId);
    assert t.fieldMap.Keys == s.fieldMap.Keys - {fieldId};
    forall i | 0 <= i < |t.views| ensures ViewWellFormed(t.views[i], t.fieldMap.Keys, t.recordMap.Keys) {
      DeletedFieldView1(s.views[i], fieldId, MayClean(s, s.views[i], datasheetId, viewId),
                        s.fieldMap.Keys, s.recordMap.Keys);
    }
  }

  lemma AddRecordKeeps(s: Snapshot, viewId: Id, record: Record, index: int)
    requires WellFormed(s)
    ensures WellFormed(AddedRecord(s, viewId, record, index))
  {
    var t := AddedRecord(s, viewId, record, index);
    assert t.recordMap.Keys == s.recordMap.Keys + {record.id};
    forall i | 0 <= i < |t.views| ensures ViewWellFormed(t.views[i], t.fieldMap.Keys, t.recordMap.Keys) {
      AddedRecordView1(s.views[i], viewId, record.id, index, s.fieldMap.Keys, s.recordMap.Keys);
    }
  }

  lemma DeleteRecordsKeeps(s: Snapshot, ids: seq<Id>)
    requires WellFormed(s)
    ensures WellFormed(D.Deleted(s, ids))
  {
    var t, del := D.Deleted(s, ids), ToSet(ids);
    assert t.recordMap.Keys == s.recordMap.Keys - del;
    forall i | 0 <= i < |t.views| ensures ViewWellFormed(t.views[i], t.fieldMap.Keys, t.recordMap.Keys) {
      ListsKept(s.views[i].rows, s.recordMap.Keys, del);
    }
  }

  lemma OneViewKeeps(s: Snapshot, i: nat, v: View)
    requires WellFormed(s) && i < |s.views| && ViewWellFormed(v, s.fieldMap.Keys, s.recordMap.Keys)
    ensures WellFormed(s.(views := s.views[i := v]))
  {
  }

  lemma MoveRowKeeps(s: Snapshot, viewId: Id, recordId: Id, target: int)
    requires WellFormed(s)
    ensures WellFormed(MovedRow(s, viewId, recordId, target))
  {
    var i := ViewIndex(s.views, viewId);
    if i >= 0 {
      var v := s.views[i];
      var from := IndexOf(RowIds(v.rows), recordId);
      if from >= 0 {
        var at := LandsAt(|v.rows|, from, target);
        MovedRowIds(v.rows, from, at);
        ListsMove(RowIds(v.rows), s.recordMap.Keys, from, at);
        OneViewKeeps(s, i, v.(rows := InsertAt(RemoveAt(v.rows, from), at, v.rows[from])));
      }
    }
  }

  lemma MoveColumnKeeps(s: Snapshot, viewId: Id, fieldId: Id, target: int)
    requires WellFormed(s)
    ensures WellFormed(MovedColumn(s, viewId, fieldId, target))
  {
    var i := ViewIndex(s.views, viewId);
    if i >= 0 {
      var v := s.views[i];
      var from := ColumnIndex(v, fieldId);
      if from >= 0 && from != target {
        var at := LandsAt(|v.columns|, from, target);
        MovedColumnIds(v.columns, from, at);
        ListsMove(ColumnIds(v.columns), s.fieldMap.Keys, from, at);
        OneViewKeeps(s, i, v.(columns := InsertAt(RemoveAt(v.columns, from), at, v.columns[from])));
      }
    }
  }

  lemma SetRecordKeeps(s: Snapshot, recordId: Id, fieldId: Id, value: CellValue)
    requires WellFormed(s)
    ensures WellFormed(AfterSet(s, recordId, fieldId, value))
  {
    if recordId in s.recordMap {
      SetRecordSets(s, recordId, fieldId, value);
      assert AfterSet(s, recordId, fieldId, value).recordMap.Keys == s.recordMap.Keys;
    }
  }

  // ---------------------------------------------------------------- what a command does

  function Executed(s: Snapshot, c: Command): Snapshot {
    match c
    case AddFieldCommand(f, p) => AddedField(s, f, p)
    case DeleteFieldCommand(f, d, v) => DeletedField(s, f, d, v)
    case AddRecordCommand(v, r, i) => AddedRecord(s, v, r, i)
    case DeleteRecordsCommand(ids, _) => D.Deleted(s, ids)
    case MoveRowCommand(v, r, t) => MovedRow(s, v, r, t)
    case MoveColumnCommand(v, f, t) => MovedColumn(s, v, f, t)
    case SetRecordCommand(r, f, x) => AfterSet(s, r, f, x)
  }

  lemma MoveRowExecutes(s: Snapshot, viewId: Id, recordId: Id, target: int)
    ensures ApplyAll(s, Single(MoveRow(s, viewId, recordId, target))) == Some(MovedRow(s, viewId, recordId, target))
  {
    var a := MoveRow(s, viewId, recordId, target);
    if a.Some? {
      ApplyOne(s, a.value);
      MoveRowMoves(s, viewId, recordId, target);
    }
  }

  lemma MoveColumnExecutes(s: Snapshot, viewId: Id, fieldId: Id, target: int)
    ensures ApplyAll(s, Single(MoveColumn(s, viewId, fieldId, target))) ==
            Some(MovedColumn(s, viewId, fieldId, target))
  {
    var a := MoveColumn(s, viewId, fieldId, target);
    if a.Some? {
      ApplyOne(s, a.value);
      MoveColumnMoves(s, viewId, fieldId, target);
    }
  }

  lemma SetRecordExecutes(s: Snapshot, recordId: Id, fieldId: Id, value: CellValue)
    ensures ApplyAll(s, Single(SetRecord(s, recordId, fieldId, value))) == Some(AfterSet(s, recordId, fieldId, value))
  {
    var a := SetRecord(s, recordId, fieldId, value);
    if a.Some? {
      ApplyOne(s, a.value);
    }
  }

  /** Every command's actions fit, whatever its indices, and do what is said of it. */
  lemma ExecuteIs(s: Snapshot, c: Command)
    ensures Execute(s, c) == Some(Executed(s, c))
  {
    match c {
      case AddFieldCommand(f, p) => AddFieldApplies(s, f, p);
      case DeleteFieldCommand(f, d, v) => DeleteFieldApplies(s, f, d, v);
      case AddRecordCommand(v, r, i) => AddRecordApplies(s, v, r, i);
      case DeleteRecordsCommand(ids, e) => D.DeleteActionsApply(s, ids, e);
      case MoveRowCommand(v, r, t) => MoveRowExecutes(s, v, r, t);
      case MoveColumnCommand(v, f, t) => MoveColumnExecutes(s, v, f, t);
      case SetRecordCommand(r, f, x) => SetRecordExecutes(s, r, f, x);
    }
  }

  lemma ExecutedKeeps(s: Snapshot, c: Command)
    requires WellFormed(s)
    ensures WellFormed(Executed(s, c))
  {
    match c {
      case AddFieldCommand(f, p) => AddFieldKeeps(s, f, p);
      case DeleteFieldCommand(f, d, v) => DeleteFieldKeeps(s, f, d, v);
      case AddRecordCommand(v, r, i) => AddRecordKeeps(s, v, r, i);
      case DeleteRecordsCommand(ids, e) => DeleteRecordsKeeps(s, ids);
      case MoveRowCommand(v, r, t) => MoveRowKeeps(s, v, r, t);
      case MoveColumnCommand(v, f, t) => MoveColumnKeeps(s, v, f, t);
      case SetRecordCommand(r, f, x) => SetRecordKeeps(s, r, f, x);
    }
  }

  lemma ExecuteKeeps(s: Snapshot, c: Command)
    requires WellFormed(s)
    ensures Execute(s, c).Some? && WellFormed(Execute(s, c).value)
  {
    ExecuteIs(s, c);
    ExecutedKeeps(s, c);
  }

  /** Well-formedness is kept by any sequence of commands, also by ones whose indices are
      out of range. */
  lemma {:induction false} RunKeeps(s: Snapshot, cs: seq<Command>)
    requires WellFormed(s)
    ensures ExecuteAll(s, cs).Some? && WellFormed(ExecuteAll(s, cs).value)
    decreases |cs|
  {
    if cs != [] {
      ExecuteKeeps(s, cs[0]);
      RunKeeps(Execute(s, cs[0]).value, cs[1..]);
    }
  }

  // ---------------------------------------------------------------- undoing a run

  predicate RowTargetExists(s: Snapshot, viewId: Id, target: int) {
    var i := ViewIndex(s.views, viewId);
    i >= 0 && 0 <= target < |s.views[i].rows|
  }

  predicate ColumnTargetExists(s: Snapshot, viewId: Id, target: int) {
    var i := ViewIndex(s.views, viewId);
    i >= 0 && 0 <= target < |s.views[i].columns|
  }

  /** What a caller can check before a command to know that it can be undone. */
  predicate UndoableCommand(s: Snapshot, c: Command) {
    match c
    case AddFieldCommand(f, p) => forall i :: 0 <= i < |s.views| ==> ColumnFoundAgain(s.views[i], f, p)
    case DeleteFieldCommand(_, _, _) => true
    case AddRecordCommand(v, r, n) => forall i :: 0 <= i < |s.views| ==> RowFoundAgain(s.views[i], v, r.id, n)
    case DeleteRecordsCommand(ids, e) => D.AllEditable(s.recordMap, ids, e)
    case MoveRowCommand(v, r, t) => MoveRow(s, v, r, t).None? || RowTargetExists(s, v, t)
    case MoveColumnCommand(v, f, t) => MoveColumn(s, v, f, t).None? || ColumnTargetExists(s, v, t)
    case SetRecordCommand(r, f, x) => r in s.recordMap ==> SetRecord(s, r, f, x).None? || Undoable(s, r, f, x)
  }

  /** Whether undoing a single action takes t back to s. */
  lemma SingleUndone(s: Snapshot, a: Option<Action>, t: Snapshot)
    ensures ApplyAll(t, InvertAll(Single(a))) == if a.None? then Some(t) else Apply(t, Invert(a.value))
  {
    if a.Some? {
      assert [a.value][1..] == [];
      assert InvertAll([a.value]) == [Invert(a.value)];
      ApplyOne(t, Invert(a.value));
    }
  }

  lemma MoveRowUndoneIff(s: Snapshot, viewId: Id, recordId: Id, target: int)
    ensures ApplyAll(MovedRow(s, viewId, recordId, target), InvertAll(Single(MoveRow(s, viewId, recordId, target)))) ==
              Some(s) <==>
            MoveRow(s, viewId, recordId, target).None? || RowTargetExists(s, viewId, target)
  {
    SingleUndone(s, MoveRow(s, viewId, recordId, target), MovedRow(s, viewId, recordId, target));
    if MoveRow(s, viewId, recordId, target).Some? {
      MoveRowMoves(s, viewId, recordId, target);
    }
  }

  lemma MoveColumnUndoneIff(s: Snapshot, viewId: Id, fieldId: Id, target: int)
    ensures ApplyAll(MovedColumn(s, viewId, fieldId, target),
                     InvertAll(Single(MoveColumn(s, viewId, fieldId, target)))) == Some(s) <==>
            MoveColumn(s, viewId, fieldId, target).None? || ColumnTargetExists(s, viewId, target)
  {
    SingleUndone(s, MoveColumn(s, viewId, fieldId, target), MovedColumn(s, viewId, fieldId, target));
    if MoveColumn(s, viewId, fieldId, target).Some? {
      MoveColumnMoves(s, viewId, fieldId, target);
    }
  }

  lemma SetRecordUndone(s: Snapshot, recordId: Id, fieldId: Id, value: CellValue)
    ensures ApplyAll(AfterSet(s, recordId, fieldId, value),
                     InvertAll(Single(SetRecord(s, recordId, fieldId, value)))) == Some(s) <==>
            (recordId in s.recordMap ==>
               SetRecord(s, recordId, fieldId, value).None? || Undoable(s, recordId, fieldId, value))
  {
    SingleUndone(s, SetRecord(s, recordId, fieldId, value), AfterSet(s, recordId, fieldId, value));
    if SetRecord(s, recordId, fieldId, value).Some? {
      SetRecordUndoneIff(s, recordId, fieldId, value);
    }
  }

  lemma ExecutedUndoneIff(s: Snapshot, c: Command)
    ensures ApplyAll(Executed(s, c), InvertAll(Actions(s, c))) == Some(s) <==> UndoableCommand(s, c)
  {
    match c {
      case AddFieldCommand(f, p) => AddFieldUndoneIff(s, f, p);
      case DeleteFieldCommand(f, d, v) => DeleteFieldUndone(s, f, d, v);
      case AddRecordCommand(v, r, i) => AddRecordUndoneIff(s, v, r, i);
      case DeleteRecordsCommand(ids, e) => D.DeleteUndoneIff(s, ids, e);
      case MoveRowCommand(v, r, t) => MoveRowUndoneIff(s, v, r, t);
      case MoveColumnCommand(v, f, t) => MoveColumnUndoneIff(s, v, f, t);
      case SetRecordCommand(r, f, x) => SetRecordUndone(s, r, f, x);
    }
  }

  /** A command is undone by the reversed inverse of its actions if and only if it drops no
      cell on the way and its indices lead the inverse back to the same place. */
  lemma CommandUndoneIff(s: Snapshot, c: Command)
    ensures Execute(s, c).Some?
    ensures ApplyAll(Execute(s, c).value, InvertAll(Actions(s, c))) == Some(s) <==> UndoableCommand(s, c)
  {
    ExecuteIs(s, c);
    ExecutedUndoneIff(s, c);
  }

  /** Every command of a run could be undone at its turn. */
  predicate UndoableRun(s: Snapshot, cs: seq<Command>)
    decreases |cs|
  {
    cs == [] ||
    (Execute(s, cs[0]).Some? && UndoableCommand(s, cs[0]) && UndoableRun(Execute(s, cs[0]).value, cs[1..]))
  }

  /** The inverses of a run's commands, last command first. */
  function UndoRun(s: Snapshot, cs: seq<Command>): seq<Action>
    decreases |cs|
  {
    if cs == [] || Execute(s, cs[0]).None? then []
    else UndoRun(Execute(s, cs[0]).value, cs[1..]) + InvertAll(Actions(s, cs[0]))
  }

  /** Undoing every command of a run, last one first, restores the first snapshot. */
  lemma {:induction false} RunUndone(s: Snapshot, cs: seq<Command>)
    requires UndoableRun(s, cs)
    ensures ExecuteAll(s, cs).Some?
    ensures ApplyAll(ExecuteAll(s, cs).value, UndoRun(s, cs)) == Some(s)
    decreases |cs|
  {
    if cs != [] {
      var t := Execute(s, cs[0]).value;
      RunUndone(t, cs[1..]);
      CommandUndoneIff(s, cs[0]);
      ApplyAllConcat(ExecuteAll(s, cs).value, UndoRun(t, cs[1..]), InvertAll(Actions(s, cs[0])));
    }
  }
}
