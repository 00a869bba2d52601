/** Adding a field: one column in every view. */
module AddField {
  import opened Options
  import opened Datasheet
  import opened ViewEdits
  import opened DeleteField

  /** Where a new column goes. Index 0 and empty ids count as not given. */
  datatype Placement = Placement(
    viewId: Option<Id>,
    index: Option<int>,
    fieldId: Option<Id>,
    offset: int,
    hiddenColumn: Option<bool>
  )

  predicate Given(id: Option<Id>) {
    id.Some? && id.value != ""
  }

  function NewColumnIndex(v: View, p: Placement): int {
    if Given(p.fieldId) then ColumnIndex(v, p.fieldId.value) + p.offset
    else if Given(p.viewId) && p.index.Some? && p.index.value != 0 && p.viewId.value == v.id then p.index.value
    else |v.columns|
  }

  predicate Flag(c: Column, key: string) {
    key in c.flags && c.flags[key]
  }

  function HiddenKey(t: ViewType): string {
    match t
    case Gantt => "hiddenInGantt"
    case Calendar => "hiddenInCalendar"
    case OrgChart => "hiddenInOrgChart"
    case _ => "hidden"
  }

  function NewFlags(v: View, p: Placement): map<string, bool> {
    var hiddenKey := HiddenKey(v.viewType);
    var inView := p.viewId == Some(v.id);
    if hiddenKey == "hidden" && ((Given(p.viewId) && inView) || forall c :: c in v.columns ==> !Flag(c, "hidden"))
    then map["hidden" := p.hiddenColumn == Some(true)]
    else
      (if inView && v.viewType == Gantt
       then (if p.hiddenColumn.Some? then map["hidden" := p.hiddenColumn.value] else map[])
       else map["hidden" := true])[hiddenKey := true]
  }

  function NewColumn(v: View, field: Field, p: Placement): Column {
    Column(field.id, field.isNumeric, NewFlags(v, p))
  }

  function AddFieldEdits(v: View, field: Field, p: Placement): seq<ViewEdit> {
    if field.id in ColumnIds(v.columns) then []
    else [Columns(LI(NewColumnIndex(v, p), NewColumn(v, field, p)))]
  }

  function ColumnEdits(field: Field, p: Placement): View -> seq<ViewEdit> {
    (v: View) => AddFieldEdits(v, field, p)
  }

  function AddFieldActions(s: Snapshot, field: Field, p: Placement): seq<Action> {
    AllViews(ColumnEdits(field, p), s.views, 0) +
    (if field.id in s.fieldMap then [] else [OnField(field.id, OI(field))])
  }

  // ---------------------------------------------------------------- what they do

  function AddedFieldView(v: View, field: Field, p: Placement): View {
    if field.id in ColumnIds(v.columns) then v
    else
      var at := SpliceStart(NewColumnIndex(v, p), |v.columns|);
      v.(columns := InsertAt(v.columns, at, NewColumn(v, field, p)))
  }

  function AddedField(s: Snapshot, field: Field, p: Placement): Snapshot {
    s.(views := seq(|s.views|, i requires 0 <= i < |s.views| => AddedFieldView(s.views[i], field, p)),
       fieldMap := if field.id in s.fieldMap then s.fieldMap else s.fieldMap[field.id := field])
  }

  lemma AddFieldOnView(v: View, field: Field, p: Placement)
    ensures ApplyEdits(v, AddFieldEdits(v, field, p)) == Some(AddedFieldView(v, field, p))
  {
    if field.id !in ColumnIds(v.columns) {
      OneEdit(v, Columns(LI(NewColumnIndex(v, p), NewColumn(v, field, p))));
    }
  }

  lemma AddColumnsApplies(s: Snapshot, field: Field, p: Placement)
    ensures ApplyAll(s, AllViews(ColumnEdits(field, p), s.views, 0)) ==
            Some(s.(views := AddedField(s, field, p).views))
  {
    var g, after := ColumnEdits(field, p), AddedField(s, field, p).views;
    forall i | 0 <= i < |after| ensures ApplyEdits(s.views[i], g(s.views[i])) == Some(after[i]) {
      AddFieldOnView(s.views[i], field, p);
    }
    AllViewsTo(s, g, after);
  }

  /** Every view that does not show the field gets one new column for it, whatever the
      computed index, and the field is recorded. */
  lemma AddFieldApplies(s: Snapshot, field: Field, p: Placement)
    ensures ApplyAll(s, AddFieldActions(s, field, p)) == Some(AddedField(s, field, p))
  {
    AddColumnsApplies(s, field, p);
    var last := if field.id in s.fieldMap then [] else [OnField(field.id, OI(field))];
    ApplyAllConcat(s, AllViews(ColumnEdits(field, p), s.views, 0), last);
    if field.id !in s.fieldMap {
      ApplyOne(s.(views := AddedField(s, field, p).views), last[0]);
    }
  }

  // ---------------------------------------------------------------- undoing

  /** The inverse finds the new column: the index is in range, or so far in front that
      the column went to the start and is looked for there. */
  predicate FoundAgain(index: int, length: nat) {
    0 <= index <= length || index + length < 0
  }

  predicate ColumnFoundAgain(v: View, field: Field, p: Placement) {
    field.id in ColumnIds(v.columns) || FoundAgain(NewColumnIndex(v, p), |v.columns|)
  }

  lemma AddFieldUndoneOnView(v: View, field: Field, p: Placement)
    ensures ApplyEdits(AddedFieldView(v, field, p), InvertEdits(AddFieldEdits(v, field, p))) == Some(v) <==>
            ColumnFoundAgain(v, field, p)
  {
    if field.id !in ColumnIds(v.columns) {
      var i, c := NewColumnIndex(v, p), NewColumn(v, field, p);
      assert c !in v.columns by {
        assert forall j :: 0 <= j < |v.columns| ==> v.columns[j].fieldId == ColumnIds(v.columns)[j];
      }
      InsertUndoneIff(v.columns, i, c);
      assert InvertEdits([Columns(LI(i, c))]) == [Columns(LD(i, c))] by {
        assert [Columns(LI(i, c))][1..] == [];
      }
      OneEdit(AddedFieldView(v, field, p), Columns(LD(i, c)));
    }
  }

  lemma AddColumnsUndoneIff(s: Snapshot, field: Field, p: Placement, t: Snapshot)
    requires t.views == AddedField(s, field, p).views
    ensures ApplyAll(t, InvertAll(AllViews(ColumnEdits(field, p), s.views, 0))) == Some(t.(views := s.views)) <==>
            forall i :: 0 <= i < |s.views| ==> ColumnFoundAgain(s.views[i], field, p)
  {
    var g := ColumnEdits(field, p);
    forall i | 0 <= i < |s.views|
      ensures RestoresView(g, s.views[i], t.views[i]) <==> ColumnFoundAgain(s.views[i], field, p)
    {
      AddFieldUndoneOnView(s.views[i], field, p);
    }
    AllViewsUndoneIff(t, g, s.views);
  }

  /** Undoing an added field restores the snapshot exactly when every view that got a
      column finds it again. */
  lemma AddFieldUndoneIff(s: Snapshot, field: Field, p: Placement)
    ensures ApplyAll(AddedField(s, field, p), InvertAll(AddFieldActions(s, field, p))) == Some(s) <==>
            forall i :: 0 <= i < |s.views| ==> ColumnFoundAgain(s.views[i], field, p)
  {
    var t := AddedField(s, field, p);
    var columns := AllViews(ColumnEdits(field, p), s.views, 0);
    var last := if field.id in s.fieldMap then [] else [OnField(field.id, OI(field))];
    var t1 := t.(fieldMap := s.fieldMap);
    InvertAllConcat(columns, last);
    ApplyAllConcat(t, InvertAll(last), InvertAll(columns));
    assert ApplyAll(t, InvertAll(last)) == Some(t1) by {
      if field.id !in s.fieldMap {
        assert s.fieldMap[field.id := field] - {field.id} == s.fieldMap;
        assert InvertAll(last) == [OnField(field.id, OD(field))] by {
          assert last[1..] == [];
        }
        ApplyOne(t, OnField(field.id, OD(field)));
      }
    }
    AddColumnsUndoneIff(s, field, p, t1);
    assert t1.(views := s.views) == s;
  }

  /** The new column is the only one added and the others keep their order.  With an index
      in range it stands there: next to the reference field, `offset` places on. */
  lemma NewColumnPlaced(v: View, field: Field, p: Placement)
    requires field.id !in ColumnIds(v.columns)
    ensures var i, after := NewColumnIndex(v, p), AddedFieldView(v, field, p).columns;
            var at := SpliceStart(i, |v.columns|);
            && after[at] == NewColumn(v, field, p)
            && RemoveAt(after, at) == v.columns
            && (Given(p.fieldId) && p.fieldId.value in ColumnIds(v.columns) && 0 <= i <= |v.columns| ==>
                  after[if p.offset > 0 then i - p.offset else i - p.offset + 1].fieldId == p.fieldId.value)
  {
    var i, after := NewColumnIndex(v, p), AddedFieldView(v, field, p).columns;
    var at := SpliceStart(i, |v.columns|);
    assert RemoveAt(after, at) == v.columns;
    if Given(p.fieldId) && p.fieldId.value in ColumnIds(v.columns) && 0 <= i <= |v.columns| {
      var ref := ColumnIndex(v, p.fieldId.value);
      assert v.columns[ref].fieldId == p.fieldId.value;
      assert after[if ref < at then ref else ref + 1] == v.columns[ref];
    }
  }

  // ---------------------------------------------------------------- what it comes to

  /** The view shows every column; a gantt, calendar or organisation chart view has its own way
      of hiding them. */
  predicate AllShown(v: View) {
    forall c :: c in v.columns ==> "hidden" !in c.flags || !c.flags["hidden"]
  }

  /** Whether the new column is hidden.  In the view the field is added from, and in views that
      show all their columns, it is hidden where asked; in others it is.  A gantt, calendar or
      organisation chart view hides it in its own way too. */
  lemma NewColumnHidden(v: View, field: Field, p: Placement)
    ensures var c := NewColumn(v, field, p);
            var asked := p.hiddenColumn == Some(true);
            var here := p.viewId == Some(v.id);
            && c.fieldId == field.id && c.sumStat == field.isNumeric
            && (v.viewType in {Grid, Kanban, Gallery} ==>
                  c.flags == map["hidden" := if (here && v.id != "") || AllShown(v) then asked else true])
            && (v.viewType == Calendar ==> c.flags == map["hidden" := true, "hiddenInCalendar" := true])
            && (v.viewType == OrgChart ==> c.flags == map["hidden" := true, "hiddenInOrgChart" := true])
            && (v.viewType == Gantt && !here ==> c.flags == map["hidden" := true, "hiddenInGantt" := true])
            && (v.viewType == Gantt && here && p.hiddenColumn.Some? ==>
                  c.flags == map["hidden" := asked, "hiddenInGantt" := true])
            && (v.viewType == Gantt && here && p.hiddenColumn.None? ==> c.flags == map["hiddenInGantt" := true])
  {
    assert (forall c :: c in v.columns ==> !Flag(c, "hidden")) <==> AllShown(v);
    assert map["hidden" := true]["hiddenInGantt" := true] == map["hidden" := true, "hiddenInGantt" := true];
    assert map[]["hiddenInGantt" := true] == map["hiddenInGantt" := true];
    if p.hiddenColumn.Some? {
      var b := p.hiddenColumn.value;
      assert map["hidden" := b]["hiddenInGantt" := true] == map["hidden" := b, "hiddenInGantt" := true];
    }
  }

  /** Where a view gets the new column: with a reference field `offset` places from it, else at
      a given index other than 0 if it is the view the index is for, else at the end. */
  predicate PlacedAt(v: View, p: Placement, at: int) {
    if p.fieldId.Some? && p.fieldId.value != "" then
      if exists k :: 0 <= k < |v.columns| && v.columns[k].fieldId == p.fieldId.value
      then exists k :: FirstColumnOf(v, k, p.fieldId.value) && at == k + p.offset
      else at == p.offset - 1
    else if p.viewId == Some(v.id) && v.id != "" && p.index.Some? && p.index.value != 0 then at == p.index.value
    else at == |v.columns|
  }

  lemma NewColumnIndexIs(v: View, p: Placement)
    ensures PlacedAt(v, p, NewColumnIndex(v, p))
  {
    if Given(p.fieldId) {
      ShownColumn(v, p.fieldId.value);
    }
  }

  /** w is v with the column spliced in at `at`. */
  predicate GainsColumn(v: View, w: View, c: Column, at: int) {
    && w == v.(columns := w.columns)
    && w.columns ==
       (if 0 <= at <= |v.columns| then v.columns[..at] + [c] + v.columns[at..]
        else if at > |v.columns| then v.columns + [c]
        else if at < -|v.columns| then [c] + v.columns
        else v.columns[..|v.columns| + at] + [c] + v.columns[|v.columns| + at..])
  }

  /** What the actions come to, on the snapshot they reach. */
  lemma AddFieldMeans(s: Snapshot, field: Field, p: Placement)
    ensures var t := ApplyAll(s, AddFieldActions(s, field, p));
            && t.Some?
            && t.value == s.(views := t.value.views, fieldMap := t.value.fieldMap)
            && t.value.fieldMap == (if field.id in s.fieldMap then s.fieldMap else s.fieldMap[field.id := field])
            && |t.value.views| == |s.views|
            && forall i :: 0 <= i < |s.views| ==>
                 var v, w := s.views[i], t.value.views[i];
                 if Shows(v, field.id) then w == v
                 else exists at :: PlacedAt(v, p, at) && GainsColumn(v, w, NewColumn(v, field, p), at)
  {
    AddFieldApplies(s, field, p);
    forall i | 0 <= i < |s.views|
      ensures var v, w := s.views[i], AddedFieldView(s.views[i], field, p);
              if Shows(v, field.id) then w == v
              else exists at :: PlacedAt(v, p, at) && GainsColumn(v, w, NewColumn(v, field, p), at)
    {
      var v := s.views[i];
      assert Shows(v, field.id) <==> field.id in ColumnIds(v.columns) by {
        assert forall k :: 0 <= k < |v.columns| ==> ColumnIds(v.columns)[k] == v.columns[k].fieldId;
      }
      if !Shows(v, field.id) {
        NewColumnIndexIs(v, p);
        ColumnGained(v, field, p);
      }
    }
  }

  lemma ColumnGained(v: View, field: Field, p: Placement)
    requires field.id !in ColumnIds(v.columns)
    ensures GainsColumn(v, AddedFieldView(v, field, p), NewColumn(v, field, p), NewColumnIndex(v, p))
  {
    var xs, at, c := v.columns, NewColumnIndex(v, p), NewColumn(v, field, p);
    assert InsertAt(xs, |xs|, c) == xs + [c] && InsertAt(xs, 0, c) == [c] + xs;
  }
}
