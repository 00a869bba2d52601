/** Adding records, changing cells, and moving rows and columns. */
module Records {
  import opened Options
  import opened Datasheet
  import opened ViewEdits
  import opened DeleteField
  import opened AddField
  import opened Sequences
  import LinkedData

  function RowIds(rows: seq<Row>): (r: seq<Id>)
    ensures |r| == |rows| && forall i :: 0 <= i < |rows| ==> r[i] == rows[i].recordId
  {
    seq(|rows|, i requires 0 <= i < |rows| => rows[i].recordId)
  }

  // ---------------------------------------------------------------- adding a record

  function NewRowIndex(v: View, viewId: Id, index: int): int {
    if viewId == v.id then index else |v.rows|
  }

  function AddRecordEdits(v: View, viewId: Id, id: Id, index: int): seq<ViewEdit> {
    if id in RowIds(v.rows) then [] else [Rows(LI(NewRowIndex(v, viewId, index), Row(id)))]
  }

  function RowEdits(viewId: Id, id: Id, index: int): View -> seq<ViewEdit> {
    (v: View) => AddRecordEdits(v, viewId, id, index)
  }

  function AddRecordActions(s: Snapshot, viewId: Id, record: Record, index: int): seq<Action> {
    AllViews(RowEdits(viewId, record.id, index), s.views, 0) +
    (if record.id in s.recordMap then [] else [OnRecord(record.id, OI(record))])
  }

  function AddedRecordView(v: View, viewId: Id, id: Id, index: int): View {
    if id in RowIds(v.rows) then v
    else v.(rows := InsertAt(v.rows, SpliceStart(NewRowIndex(v, viewId, index), |v.rows|), Row(id)))
  }

  function AddedRecord(s: Snapshot, viewId: Id, record: Record, index: int): Snapshot {
    s.(views := seq(|s.views|, i requires 0 <= i < |s.views| =>
                  AddedRecordView(s.views[i], viewId, record.id, index)),
       recordMap := if record.id in s.recordMap then s.recordMap else s.recordMap[record.id := record])
  }

  lemma AddRecordOnView(v: View, viewId: Id, id: Id, index: int)
    ensures ApplyEdits(v, AddRecordEdits(v, viewId, id, index)) == Some(AddedRecordView(v, viewId, id, index))
  {
    if id !in RowIds(v.rows) {
      OneEdit(v, Rows(LI(NewRowIndex(v, viewId, index), Row(id))));
    }
  }

  lemma AddRowsApplies(s: Snapshot, viewId: Id, record: Record, index: int)
    ensures ApplyAll(s, AllViews(RowEdits(viewId, record.id, index), s.views, 0)) ==
            Some(s.(views := AddedRecord(s, viewId, record, index).views))
  {
    var g, after := RowEdits(viewId, record.id, index), AddedRecord(s, viewId, record, index).views;
    forall i | 0 <= i < |after| ensures ApplyEdits(s.views[i], g(s.views[i])) == Some(after[i]) {
      AddRecordOnView(s.views[i], viewId, record.id, index);
    }
    AllViewsTo(s, g, after);
  }

  /** Every view that does not show the record gets one row for it, the active one where
      asked and the others at the end, and the record is stored. */
  lemma AddRecordApplies(s: Snapshot, viewId: Id, record: Record, index: int)
    ensures ApplyAll(s, AddRecordActions(s, viewId, record, index)) == Some(AddedRecord(s, viewId, record, index))
  {
    AddRowsApplies(s, viewId, record, index);
    var last := if record.id in s.recordMap then [] else [OnRecord(record.id, OI(record))];
    ApplyAllConcat(s, AllViews(RowEdits(viewId, record.id, index), s.views, 0), last);
    if record.id !in s.recordMap {
      ApplyOne(s.(views := AddedRecord(s, viewId, record, index).views), last[0]);
    }
  }

  /** What the actions come to, on the snapshot they reach: the view the record is added in
      gets the row at the index, where splicing puts it, every other view at its end. */
  lemma AddRecordMeans(s: Snapshot, viewId: Id, record: Record, index: int)
    ensures var t := ApplyAll(s, AddRecordActions(s, viewId, record, index));
            && t.Some?
            && t.value == s.(views := t.value.views, recordMap := t.value.recordMap)
            && (forall r :: r in t.value.recordMap <==> r in s.recordMap || r == record.id)
            && (forall r :: r in t.value.recordMap ==>
                  t.value.recordMap[r] == if r in s.recordMap then s.recordMap[r] else record)
            && |t.value.views| == |s.views|
            && forall i :: 0 <= i < |s.views| ==>
                 var v, w := s.views[i], t.value.views[i];
                 if exists j :: 0 <= j < |v.rows| && v.rows[j].recordId == record.id then w == v
                 else GainsRow(v, w, Row(record.id), if v.id == viewId then index else |v.rows|)
  {
    AddRecordApplies(s, viewId, record, index);
    forall i | 0 <= i < |s.views|
      ensures var v, w := s.views[i], AddedRecordView(s.views[i], viewId, record.id, index);
              if exists j :: 0 <= j < |v.rows| && v.rows[j].recordId == record.id then w == v
              else GainsRow(v, w, Row(record.id), if v.id == viewId then index else |v.rows|)
    {
      RowGained(s.views[i], viewId, record.id, index);
    }
  }

  /** w is v with the row spliced in at `at`. */
  predicate GainsRow(v: View, w: View, row: Row, at: int) {
    && w == v.(rows := w.rows)
    && w.rows ==
       (if 0 <= at <= |v.rows| then v.rows[..at] + [row] + v.rows[at..]
        else if at > |v.rows| then v.rows + [row]
        else if at < -|v.rows| then [row] + v.rows
        else v.rows[..|v.rows| + at] + [row] + v.rows[|v.rows| + at..])
  }

  lemma RowGained(v: View, viewId: Id, id: Id, index: int)
    ensures var w := AddedRecordView(v, viewId, id, index);
            if exists j :: 0 <= j < |v.rows| && v.rows[j].recordId == id then w == v
            else GainsRow(v, w, Row(id), if v.id == viewId then index else |v.rows|)
  {
    assert forall j :: 0 <= j < |v.rows| ==> RowIds(v.rows)[j] == v.rows[j].recordId;
    var xs, row := v.rows, Row(id);
    assert InsertAt(xs, |xs|, row) == xs + [row] && InsertAt(xs, 0, row) == [row] + xs;
  }

  predicate RowFoundAgain(v: View, viewId: Id, id: Id, index: int) {
    id in RowIds(v.rows) || FoundAgain(NewRowIndex(v, viewId, index), |v.rows|)
  }

  lemma AddRecordUndoneOnView(v: View, viewId: Id, id: Id, index: int)
    ensures ApplyEdits(AddedRecordView(v, viewId, id, index), InvertEdits(AddRecordEdits(v, viewId, id, index))) ==
              Some(v) <==>
            RowFoundAgain(v, viewId, id, index)
  {
    if id !in RowIds(v.rows) {
      var i := NewRowIndex(v, viewId, index);
      assert Row(id) !in v.rows by {
        assert forall j :: 0 <= j < |v.rows| ==> v.rows[j].recordId == RowIds(v.rows)[j];
      }
      InsertUndoneIff(v.rows, i, Row(id));
      assert InvertEdits([Rows(LI(i, Row(id)))]) == [Rows(LD(i, Row(id)))] by {
        assert [Rows(LI(i, Row(id)))][1..] == [];
      }
      OneEdit(AddedRecordView(v, viewId, id, index), Rows(LD(i, Row(id))));
    }
  }

  lemma AddRowsUndoneIff(s: Snapshot, viewId: Id, record: Record, index: int, t: Snapshot)
    requires t.views == AddedRecord(s, viewId, record, index).views
    ensures ApplyAll(t, InvertAll(AllViews(RowEdits(viewId, record.id, index), s.views, 0))) ==
              Some(t.(views := s.views)) <==>
            forall i :: 0 <= i < |s.views| ==> RowFoundAgain(s.views[i], viewId, record.id, index)
  {
    var g := RowEdits(viewId, record.id, index);
    forall i | 0 <= i < |s.views|
      ensures RestoresView(g, s.views[i], t.views[i]) <==> RowFoundAgain(s.views[i], viewId, record.id, index)
    {
      AddRecordUndoneOnView(s.views[i], viewId, record.id, index);
    }
    AllViewsUndoneIff(t, g, s.views);
  }

  /** Undoing an added record restores the snapshot exactly when every view that got a row
      finds it again; only the active view can fail to. */
  lemma AddRecordUndoneIff(s: Snapshot, viewId: Id, record: Record, index: int)
    ensures ApplyAll(AddedRecord(s, viewId, record, index), InvertAll(AddRecordActions(s, viewId, record, index))) ==
              Some(s) <==>
            forall i :: 0 <= i < |s.views| ==> RowFoundAgain(s.views[i], viewId, record.id, index)
    ensures forall i :: 0 <= i < |s.views| && s.views[i].id != viewId ==>
              RowFoundAgain(s.views[i], viewId, record.id, index)
  {
    var t := AddedRecord(s, viewId, record, index);
    var rows := AllViews(RowEdits(viewId, record.id, index), s.views, 0);
    var last := if record.id in s.recordMap then [] else [OnRecord(record.id, OI(record))];
    var t1 := t.(recordMap := s.recordMap);
    InvertAllConcat(rows, last);
    ApplyAllConcat(t, InvertAll(last), InvertAll(rows));
    assert ApplyAll(t, InvertAll(last)) == Some(t1) by {
      if record.id !in s.recordMap {
        assert s.recordMap[record.id := record] - {record.id} == s.recordMap;
        assert InvertAll(last) == [OnRecord(record.id, OD(record))] by {
          assert last[1..] == [];
        }
        ApplyOne(t, OnRecord(record.id, OD(record)));
      }
    }
    AddRowsUndoneIff(s, viewId, record, index, t1);
    assert t1.(views := s.views) == s;
  }

  // ---------------------------------------------------------------- moving

  function ViewIndex(views: seq<View>, viewId: Id): (i: int)
    ensures -1 <= i < |views|
    ensures i >= 0 ==> views[i].id == viewId
    ensures i < 0 ==> forall j :: 0 <= j < |views| ==> views[j].id != viewId
  {
    var ids := seq(|views|, j requires 0 <= j < |views| => views[j].id);
    assert forall j :: 0 <= j < |views| ==> ids[j] == views[j].id;
    IndexOf(ids, viewId)
  }

  function MoveRow(s: Snapshot, viewId: Id, recordId: Id, target: int): Option<Action> {
    var i := ViewIndex(s.views, viewId);
    if i < 0 then None
    else
      var from := IndexOf(RowIds(s.views[i].rows), recordId);
      if from < 0 then None else Some(OnView(i, Rows(LM(from, target))))
  }

  function MoveColumn(s: Snapshot, viewId: Id, fieldId: Id, target: int): Option<Action> {
    var i := ViewIndex(s.views, viewId);
    if i < 0 then None
    else
      var from := ColumnIndex(s.views[i], fieldId);
      if from < 0 || from == target then None else Some(OnView(i, Columns(LM(from, target))))
  }

  function MovedRow(s: Snapshot, viewId: Id, recordId: Id, target: int): Snapshot {
    var i := ViewIndex(s.views, viewId);
    if i < 0 then s
    else
      var rows := s.views[i].rows;
      var from := IndexOf(RowIds(rows), recordId);
      if from < 0 then s
      else
        var moved := InsertAt(RemoveAt(rows, from), LandsAt(|rows|, from, target), rows[from]);
        s.(views := s.views[i := s.views[i].(rows := moved)])
  }

  function MovedColumn(s: Snapshot, viewId: Id, fieldId: Id, target: int): Snapshot {
    var i := ViewIndex(s.views, viewId);
    if i < 0 then s
    else
      var columns := s.views[i].columns;
      var from := ColumnIndex(s.views[i], fieldId);
      if from < 0 || from == target then s
      else
        var moved := InsertAt(RemoveAt(columns, from), LandsAt(|columns|, from, target), columns[from]);
        s.(views := s.views[i := s.views[i].(columns := moved)])
  }

  /** xs and ys agree up to where x stands. */
  predicate SameOrderWithout(xs: seq<Id>, ys: seq<Id>, x: Id) {
    exists i, j :: 0 <= i < |xs| && 0 <= j < |ys| && xs[i] == x && ys[j] == x && RemoveAt(xs, i) == RemoveAt(ys, j)
  }

  lemma MovedOrder(ids: seq<Id>, from: nat, target: nat)
    requires from < |ids| && target < |ids|
    ensures var after := InsertAt(RemoveAt(ids, from), target, ids[from]);
            |after| == |ids| && after[target] == ids[from] && RemoveAt(after, target) == RemoveAt(ids, from)
  {
    var after := InsertAt(RemoveAt(ids, from), target, ids[from]);
    assert RemoveAt(after, target) == RemoveAt(ids, from);
  }

  lemma MovedRowIds(rows: seq<Row>, from: nat, target: nat)
    requires from < |rows| && target < |rows|
    ensures RowIds(InsertAt(RemoveAt(rows, from), target, rows[from])) ==
            InsertAt(RemoveAt(RowIds(rows), from), target, RowIds(rows)[from])
  {
    assert RowIds(RemoveAt(rows, from)) == RemoveAt(RowIds(rows), from);
    InsertedRowIds(RemoveAt(rows, from), target, rows[from]);
  }

  lemma InsertedRowIds(rows: seq<Row>, i: nat, row: Row)
    requires i <= |rows|
    ensures RowIds(InsertAt(rows, i, row)) == InsertAt(RowIds(rows), i, row.recordId)
  {
    assert forall j :: 0 <= j <= |rows| ==>
      RowIds(InsertAt(rows, i, row))[j] == InsertAt(RowIds(rows), i, row.recordId)[j];
  }

  lemma MovedColumnIds(columns: seq<Column>, from: nat, target: nat)
    requires from < |columns| && target < |columns|
    ensures ColumnIds(InsertAt(RemoveAt(columns, from), target, columns[from])) ==
            InsertAt(RemoveAt(ColumnIds(columns), from), target, ColumnIds(columns)[from])
  {
    assert ColumnIds(RemoveAt(columns, from)) == RemoveAt(ColumnIds(columns), from);
    InsertedColumnIds(RemoveAt(columns, from), target, columns[from]);
  }

  lemma InsertedColumnIds(columns: seq<Column>, i: nat, column: Column)
    requires i <= |columns|
    ensures ColumnIds(InsertAt(columns, i, column)) == InsertAt(ColumnIds(columns), i, column.fieldId)
  {
    assert forall j :: 0 <= j <= |columns| ==>
      ColumnIds(InsertAt(columns, i, column))[j] == InsertAt(ColumnIds(columns), i, column.fieldId)[j];
  }

  /** A moved row ends up at the target, or as near as the list allows, the other rows keep
      their order and nothing else changes; the inverse takes it back exactly when the
      target is a row. */
  lemma MoveRowMoves(s: Snapshot, viewId: Id, recordId: Id, target: int)
    requires MoveRow(s, viewId, recordId, target).Some?
    ensures var a, i := MoveRow(s, viewId, recordId, target).value, ViewIndex(s.views, viewId);
            var rows := s.views[i].rows;
            var t := MovedRow(s, viewId, recordId, target);
            && Apply(s, a) == Some(t)
            && t == s.(views := s.views[i := s.views[i].(rows := t.views[i].rows)])
            && |t.views[i].rows| == |rows|
            && t.views[i].rows[LandsAt(|rows|, IndexOf(RowIds(rows), recordId), target)].recordId == recordId
            && SameOrderWithout(RowIds(rows), RowIds(t.views[i].rows), recordId)
            && (Apply(t, Invert(a)) == Some(s) <==> 0 <= target < |rows|)
  {
    var a, i := MoveRow(s, viewId, recordId, target).value, ViewIndex(s.views, viewId);
    var rows := s.views[i].rows;
    var from := IndexOf(RowIds(rows), recordId);
    var at := LandsAt(|rows|, from, target);
    MoveLands(rows, from, target);
    MovedRowIds(rows, from, at);
    MovedOrder(RowIds(rows), from, at);
    MoveUndoneIff(rows, from, target);
    OneViewBack(s, i, s.views[i].(rows := InsertAt(RemoveAt(rows, from), at, rows[from])), Rows(LM(target, from)));
  }

  /** An edit of a changed view takes the snapshot back exactly when it takes the view back. */
  lemma OneViewBack(s: Snapshot, i: nat, v: View, e: ViewEdit)
    requires i < |s.views|
    ensures Apply(s.(views := s.views[i := v]), OnView(i, e)) == Some(s) <==> ApplyView(v, e) == Some(s.views[i])
  {
    var w := ApplyView(v, e);
    if w.Some? {
      assert s.views[i := v][i := w.value] == s.views[i := w.value];
      assert s.views[i := w.value] == s.views <==> w.value == s.views[i];
    }
  }

  lemma MoveColumnMoves(s: Snapshot, viewId: Id, fieldId: Id, target: int)
    requires MoveColumn(s, viewId, fieldId, target).Some?
    ensures var a, i := MoveColumn(s, viewId, fieldId, target).value, ViewIndex(s.views, viewId);
            var columns := s.views[i].columns;
            var t := MovedColumn(s, viewId, fieldId, target);
            && Apply(s, a) == Some(t)
            && t == s.(views := s.views[i := s.views[i].(columns := t.views[i].columns)])
            && |t.views[i].columns| == |columns|
            && t.views[i].columns[LandsAt(|columns|, ColumnIndex(s.views[i], fieldId), target)].fieldId == fieldId
            && SameOrderWithout(ColumnIds(columns), ColumnIds(t.views[i].columns), fieldId)
            && (Apply(t, Invert(a)) == Some(s) <==> 0 <= target < |columns|)
  {
    var a, i := MoveColumn(s, viewId, fieldId, target).value, ViewIndex(s.views, viewId);
    var columns := s.views[i].columns;
    var from := ColumnIndex(s.views[i], fieldId);
    var at := LandsAt(|columns|, from, target);
    MoveLands(columns, from, target);
    MovedColumnIds(columns, from, at);
    MovedOrder(ColumnIds(columns), from, at);
    MoveUndoneIff(columns, from, target);
    OneViewBack(s, i, s.views[i].(columns := InsertAt(RemoveAt(columns, from), at, columns[from])),
                Columns(LM(target, from)));
  }

  // ---------------------------------------------------------------- cells

  predicate EmptyValue(value: CellValue) {
    value == Null || value == Items([])
  }

  /** What a cell reads as: an absent cell and a null one read the same. */
  function CellAt(s: Snapshot, recordId: Id, fieldId: Id): CellValue {
    if recordId in s.recordMap && fieldId in s.recordMap[recordId].data
    then s.recordMap[recordId].data[fieldId] else Null
  }

  function SetRecord(s: Snapshot, recordId: Id, fieldId: Id, value: CellValue): Option<Action> {
    if recordId !in s.recordMap then None
    else
      var oldCellValue := CellAt(s, recordId, fieldId);
      if oldCellValue == value then None
      else if EmptyValue(value) then Some(OnCell(recordId, fieldId, OD(oldCellValue)))
      else if oldCellValue == Null then Some(OnCell(recordId, fieldId, OI(value)))
      else Some(OnCell(recordId, fieldId, OR(oldCellValue, value)))
  }

  function AfterSet(s: Snapshot, recordId: Id, fieldId: Id, value: CellValue): Snapshot {
    var a := SetRecord(s, recordId, fieldId, value);
    if a.None? then s else var t := Apply(s, a.value); if t.None? then s else t.value
  }

  /** Afterwards the cell reads as the value, with an empty list read as no value, and no
      other cell, record or view has changed. */
  lemma SetRecordSets(s: Snapshot, recordId: Id, fieldId: Id, value: CellValue)
    requires recordId in s.recordMap
    ensures var t := AfterSet(s, recordId, fieldId, value);
            && (CellAt(s, recordId, fieldId) == value == Items([]) ||
                CellAt(t, recordId, fieldId) == if EmptyValue(value) then Null else value)
            && t == s.(recordMap := s.recordMap[recordId := t.recordMap[recordId]])
            && t.recordMap[recordId].id == s.recordMap[recordId].id
            && t.recordMap[recordId].data - {fieldId} == s.recordMap[recordId].data - {fieldId}
  {
    assert s.recordMap[recordId := s.recordMap[recordId]] == s.recordMap;
  }

  /** No cell is stored empty. */
  predicate Normalised(s: Snapshot) {
    forall r, f :: r in s.recordMap && f in s.recordMap[r].data ==> !EmptyValue(s.recordMap[r].data[f])
  }

  lemma SetRecordNormalised(s: Snapshot, recordId: Id, fieldId: Id, value: CellValue)
    requires Normalised(s)
    ensures Normalised(AfterSet(s, recordId, fieldId, value))
  {
    var t := AfterSet(s, recordId, fieldId, value);
    if recordId in s.recordMap {
      SetRecordSets(s, recordId, fieldId, value);
      forall r, f | r in t.recordMap && f in t.recordMap[r].data ensures !EmptyValue(t.recordMap[r].data[f]) {
        if r == recordId && f != fieldId {
          assert f in t.recordMap[r].data - {fieldId};
          assert (t.recordMap[r].data - {fieldId})[f] == s.recordMap[r].data[f];
        }
      }
    }
  }

  /** Setting a cell is undone by the recorded inverse, except when an empty list was
      written to an absent cell, or a stored null was overwritten by anything else. */
  predicate Undoable(s: Snapshot, recordId: Id, fieldId: Id, value: CellValue)
    requires recordId in s.recordMap
  {
    var data := s.recordMap[recordId].data;
    if fieldId !in data then value != Items([]) else data[fieldId] == Null ==> value == Items([])
  }

  lemma SetRecordUndoneIff(s: Snapshot, recordId: Id, fieldId: Id, value: CellValue)
    requires SetRecord(s, recordId, fieldId, value).Some?
    ensures Apply(AfterSet(s, recordId, fieldId, value), Invert(SetRecord(s, recordId, fieldId, value).value)) ==
            Some(s)
            <==> Undoable(s, recordId, fieldId, value)
  {
    var a := SetRecord(s, recordId, fieldId, value).value;
    var t := AfterSet(s, recordId, fieldId, value);
    var u := Apply(t, Invert(a)).value;
    var data := s.recordMap[recordId].data;
    if Undoable(s, recordId, fieldId, value) && fieldId in data && data[fieldId] == Null {
      assert a == OnCell(recordId, fieldId, OD(Null));
      assert u.recordMap[recordId].data == data;
      assert u.recordMap == s.recordMap;
    } else if Undoable(s, recordId, fieldId, value) {
      ActionUndone(s, a);
    } else {
      assert (fieldId in u.recordMap[recordId].data) != (fieldId in data);
    }
  }

  /** In a normalised snapshot only writing an empty list to an absent cell is not undone. */
  lemma NormalisedUndone(s: Snapshot, recordId: Id, fieldId: Id, value: CellValue)
    requires Normalised(s) && SetRecord(s, recordId, fieldId, value).Some?
    ensures Apply(AfterSet(s, recordId, fieldId, value), Invert(SetRecord(s, recordId, fieldId, value).value)) ==
            Some(s)
            <==> fieldId in s.recordMap[recordId].data || value != Items([])
  {
    SetRecordUndoneIff(s, recordId, fieldId, value);
  }

  // ---------------------------------------------------------------- link cells

  function AsCellValue(links: Option<seq<Id>>): CellValue {
    if links.None? then Null else Items(links.value)
  }

  function AsAction(a: LinkedData.CellAction): Action {
    match a
    case CellInsert(k, after) => OnCell(k.rec, k.field, OI(Items(after)))
    case CellDelete(k, before) => OnCell(k.rec, k.field, OD(Items(before)))
    case CellReplace(k, before, after) => OnCell(k.rec, k.field, OR(Items(before), Items(after)))
  }

  /** On link cells the generator is the one whose symmetry is proved in LinkSymmetry. */
  lemma LinkCellsAgree(s: Snapshot, cells: LinkedData.Snapshot, k: LinkedData.Key, links: seq<Id>)
    requires cells.records == s.recordMap.Keys
    requires CellAt(s, k.rec, k.field) == AsCellValue(LinkedData.Cell(cells, k))
    ensures SetRecord(s, k.rec, k.field, AsCellValue(LinkedData.ToCell(links))) ==
            var a := LinkedData.SetRecord2Action(cells, k, LinkedData.ToCell(links));
            if a.None? then None else Some(AsAction(a.value))
  {
    var before, after := LinkedData.Cell(cells, k), LinkedData.ToCell(links);
    assert AsCellValue(before) == AsCellValue(after) <==> before == after;
  }
}
