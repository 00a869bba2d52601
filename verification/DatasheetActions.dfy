/** The generators that push their actions view by view. */
module DatasheetActions {
  import opened Options
  import opened Datasheet
  import opened ViewEdits
  import opened DeleteField
  import opened AddField
  import opened Records
  import opened Sequences
  import D = DeleteRecords

  lemma {:induction false} AllViewsSnoc(g: View -> seq<ViewEdit>, views: seq<View>, v: View, start: nat)
    ensures AllViews(g, views + [v], start) == AllViews(g, views, start) + Lift(start + |views|, g(v))
    decreases |views|
  {
    if views == [] {
      assert [] + [v] == [v];
      assert [v][1..] == [];
    } else {
      assert (views + [v])[1..] == views[1..] + [v];
      AllViewsSnoc(g, views[1..], v, start + 1);
    }
  }

  lemma AllViewsUpTo(g: View -> seq<ViewEdit>, views: seq<View>, i: nat)
    requires i < |views|
    ensures AllViews(g, views[..i + 1], 0) == AllViews(g, views[..i], 0) + Lift(i, g(views[i]))
  {
    assert views[..i + 1] == views[..i] + [views[i]];
    AllViewsSnoc(g, views[..i], views[i], 0);
  }

  method AddField2Action(s: Snapshot, field: Field, p: Placement) returns (actions: seq<Action>)
    ensures actions == AddFieldActions(s, field, p)
  {
    ghost var g := ColumnEdits(field, p);
    actions := [];
    for viewIndex := 0 to |s.views|
      invariant actions == AllViews(g, s.views[..viewIndex], 0)
    {
      AllViewsUpTo(g, s.views, viewIndex);
      var cur := s.views[viewIndex];
      var columnIndex := |cur.columns|;
      if field.id in ColumnIds(cur.columns) { continue; }
      if Given(p.viewId) && p.index.Some? && p.index.value != 0 && p.viewId.value == cur.id {
        columnIndex := p.index.value;
      }
      if Given(p.fieldId) {
        var fieldIdIndex := ColumnIndex(cur, p.fieldId.value);
        columnIndex := fieldIdIndex + p.offset;
      }
      LiftOne(viewIndex, Columns(LI(columnIndex, NewColumn(cur, field, p))));
      actions := actions + [OnView(viewIndex, Columns(LI(columnIndex, NewColumn(cur, field, p))))];
    }
    assert s.views[..|s.views|] == s.views;
    if field.id !in s.fieldMap {
      actions := actions + [OnField(field.id, OI(field))];
    }
  }

  method AddRecord2Action(s: Snapshot, viewId: Id, record: Record, index: int) returns (actions: seq<Action>)
    ensures actions == AddRecordActions(s, viewId, record, index)
  {
    ghost var g := RowEdits(viewId, record.id, index);
    actions := [];
    for viewIndex := 0 to |s.views|
      invariant actions == AllViews(g, s.views[..viewIndex], 0)
    {
      AllViewsUpTo(g, s.views, viewIndex);
      var cur := s.views[viewIndex];
      var rowIndex := |cur.rows|;
      if record.id in RowIds(cur.rows) { continue; }
      if viewId == cur.id {
        rowIndex := index;
      }
      LiftOne(viewIndex, Rows(LI(rowIndex, Row(record.id))));
      actions := actions + [OnView(viewIndex, Rows(LI(rowIndex, Row(record.id))))];
    }
    assert s.views[..|s.views|] == s.views;
    if record.id !in s.recordMap {
      actions := actions + [OnRecord(record.id, OI(record))];
    }
  }

  // ---------------------------------------------------------------- deleting a field

  method DeleteField2Action(
    s: Snapshot, fieldId: Id, datasheetId: Id, viewId: Option<Id>) returns (actions: seq<Action>)
    ensures actions == DeleteFieldActions(s, fieldId, datasheetId, viewId)
  {
    ghost var g := FieldEdits(s, fieldId, datasheetId, viewId);
    actions := [];
    for index := 0 to |s.views|
      invariant actions == AllViews(g, s.views[..index], 0)
    {
      AllViewsUpTo(g, s.views, index);
      var view := s.views[index];
      var columnIndex := ColumnIndex(view, fieldId);
      if columnIndex < 0 { continue; }
      var edits: seq<ViewEdit> := [];
      if datasheetId != s.datasheetId || !(view.locked && Some(view.id) != viewId) {
        edits := CleanEdits(view, fieldId, columnIndex);
      }
      edits := edits + [Columns(LD(columnIndex, view.columns[columnIndex]))];
      assert edits == g(view);
      actions := actions + Lift(index, edits);
    }
    assert s.views[..|s.views|] == s.views;
    if fieldId in s.fieldMap {
      actions := actions + [OnField(fieldId, OD(s.fieldMap[fieldId]))];
    }
  }

  // ---------------------------------------------------------------- deleting records

  /** Deletes of the rows at ascending indices: the i-th has had i rows go before it. */
  function Shifted(rows: seq<Row>, indices: seq<nat>): seq<ViewEdit>
    requires forall i :: 0 <= i < |indices| ==> indices[i] < |rows|
  {
    seq(|indices|, i requires 0 <= i < |indices| => Rows(LD(indices[i] - i, rows[indices[i]])))
  }

  lemma ShiftedSnoc(rows: seq<Row>, indices: seq<nat>, i: nat)
    requires i < |rows| && forall j :: 0 <= j < |indices| ==> indices[j] < |rows|
    ensures Shifted(rows, indices + [i]) == Shifted(rows, indices) + [Rows(LD(i - |indices|, rows[i]))]
  {
  }

  /** Two passes, the first noting indices and the second shifting them, make the deletes
      that a single pass would. */
  method RowsToDelete(rows: seq<Row>, del: set<Id>) returns (edits: seq<ViewEdit>)
    ensures edits == D.RowDeletes(rows, del, 0)
  {
    var toDelete: seq<nat> := [];
    assert rows[0..] == rows;
    for i := 0 to |rows|
      invariant |toDelete| <= i
      invariant forall j :: 0 <= j < |toDelete| ==> toDelete[j] < |rows|
      invariant D.RowDeletes(rows, del, 0) == Shifted(rows, toDelete) + D.RowDeletes(rows[i..], del, i - |toDelete|)
    {
      assert rows[i..][0] == rows[i] && rows[i..][1..] == rows[i + 1..];
      if rows[i].recordId in del {
        ShiftedSnoc(rows, toDelete, i);
        Associates(Shifted(rows, toDelete), [Rows(LD(i - |toDelete|, rows[i]))],
                   D.RowDeletes(rows[i + 1..], del, i - |toDelete|));
        toDelete := toDelete + [i];
      }
    }
    edits := Shifted(rows, toDelete);
    assert rows[|rows|..] == [] && edits + [] == edits;
  }

  method NextViewRows(rows: seq<Row>, del: set<Id>) returns (kept: seq<Row>)
    ensures kept == D.Kept(rows, del)
  {
    kept := [];
    assert rows[0..] == rows;
    for i := 0 to |rows|
      invariant D.Kept(rows, del) == kept + D.Kept(rows[i..], del)
    {
      D.KeptFrom(rows, del, i);
      if rows[i].recordId !in del {
        Associates(kept, [rows[i]], D.Kept(rows[i + 1..], del));
        kept := kept + [rows[i]];
      }
    }
    assert rows[|rows|..] == [] && kept + [] == kept;
  }

  method RowActions(s: Snapshot, del: set<Id>, bulk: bool) returns (actions: seq<Action>)
    ensures actions == AllViews(if bulk then D.InBulk(del) else D.OneByOne(del), s.views, 0)
  {
    ghost var g := if bulk then D.InBulk(del) else D.OneByOne(del);
    actions := [];
    for index := 0 to |s.views|
      invariant actions == AllViews(g, s.views[..index], 0)
    {
      AllViewsUpTo(g, s.views, index);
      var rows := s.views[index].rows;
      if bulk {
        var nextViewRows := NextViewRows(rows, del);
        LiftOne(index, AllRows(rows, nextViewRows));
        actions := actions + [OnView(index, AllRows(rows, nextViewRows))];
      } else {
        var toDelete := RowsToDelete(rows, del);
        actions := actions + Lift(index, toDelete);
      }
    }
    assert s.views[..|s.views|] == s.views;
  }

  method DeleteRecords(s: Snapshot, recordIds: seq<Id>, editable: set<Id>) returns (actions: seq<Action>)
    ensures actions == D.DeleteActions(s, recordIds, editable)
  {
    var del := ToSet(recordIds);
    actions := RowActions(s, del, D.BulkCheaper(|del|, |s.recordMap|));
    assert recordIds[0..] == recordIds;
    for i := 0 to |recordIds|
      invariant D.DeleteActions(s, recordIds, editable) ==
                actions + D.RecordDeletes(s.recordMap, recordIds[i..], editable)
    {
      var recordId := recordIds[i];
      assert recordIds[i..][0] == recordId && recordIds[i..][1..] == recordIds[i + 1..];
      Associates(actions, D.RecordDelete(s.recordMap, recordId, editable),
                 D.RecordDeletes(s.recordMap, recordIds[i + 1..], editable));
      if recordId in s.recordMap {
        actions := actions + [OnRecord(recordId, OD(D.Recorded(s.recordMap[recordId], editable)))];
      } else {
        assert actions + [] == actions;
      }
    }
    assert recordIds[|recordIds|..] == [] && actions + [] == actions;
  }
}
