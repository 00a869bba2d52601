/** Deleting a field: its column and everything in a view that refers to it. */
module DeleteField {
  import opened Options
  import opened Datasheet
  import opened ViewEdits
  import opened Sequences

  function ColumnIds(columns: seq<Column>): (r: seq<Id>)
    ensures |r| == |columns| && forall i :: 0 <= i < |columns| ==> r[i] == columns[i].fieldId
  {
    seq(|columns|, i requires 0 <= i < |columns| => columns[i].fieldId)
  }

  function RuleIds(rules: seq<Rule>): (r: seq<Id>)
    ensures |r| == |rules| && forall i :: 0 <= i < |rules| ==> r[i] == rules[i].fieldId
  {
    seq(|rules|, i requires 0 <= i < |rules| => rules[i].fieldId)
  }

  function ColumnIndex(v: View, fieldId: Id): (i: int)
    ensures -1 <= i < |v.columns|
  {
    IndexOf(ColumnIds(v.columns), fieldId)
  }

  function RuleIndex(rules: seq<Rule>, fieldId: Id): (i: int)
    ensures -1 <= i < |rules|
  {
    IndexOf(RuleIds(rules), fieldId)
  }

  function OtherConditions(cs: seq<Condition>, fieldId: Id): (r: seq<Condition>)
    ensures |r| <= |cs| && forall c :: c in r <==> c in cs && c.fieldId != fieldId
  {
    if cs == [] then []
    else (if cs[0].fieldId == fieldId then [] else [cs[0]]) + OtherConditions(cs[1..], fieldId)
  }

  lemma {:induction false} OtherConditionsSame(cs: seq<Condition>, fieldId: Id)
    ensures |OtherConditions(cs, fieldId)| == |cs| ==> OtherConditions(cs, fieldId) == cs
  {
    if cs != [] {
      OtherConditionsSame(cs[1..], fieldId);
    }
  }

  function FilterEdits(v: View, fieldId: Id): seq<ViewEdit> {
    if v.filterInfo.None? then []
    else
      var newConditions := OtherConditions(v.filterInfo.value, fieldId);
      if |newConditions| == 0 then [FilterInfo(OD(v.filterInfo.value))]
      else if |newConditions| != |v.filterInfo.value| then [Conditions(v.filterInfo.value, newConditions)]
      else []
  }

  function GroupEdits(v: View, fieldId: Id): seq<ViewEdit> {
    if v.groupInfo.None? then []
    else
      var info := v.groupInfo.value;
      var i := RuleIndex(info, fieldId);
      if i > -1 && |info| > 1 then [GroupRules(LD(i, info[i]))]
      else if i > -1 && |info| == 1 then [GroupInfo(OD(info))]
      else []
  }

  function SortEdits(v: View, fieldId: Id): seq<ViewEdit> {
    if v.sortInfo.None? then []
    else
      var info := v.sortInfo.value.rules;
      var i := RuleIndex(info, fieldId);
      if i > -1 && |info| > 1 then [SortRules(LD(i, info[i]))]
      else if i > -1 && |info| == 1 then [SortInfos(OD(v.sortInfo.value))]
      else []
  }

  function KanbanEdits(v: View, fieldId: Id): seq<ViewEdit> {
    if v.viewType == Kanban && v.kanbanFieldId == Some(fieldId) then [KanbanFieldId(OD(fieldId))] else []
  }

  function GanttEdits(v: View, fieldId: Id): seq<ViewEdit> {
    if v.viewType != Gantt then []
    else
      (if v.startFieldId == Some(fieldId) then [StartFieldId(OD(fieldId))] else []) +
      (if v.endFieldId == Some(fieldId) then [EndFieldId(OD(fieldId))] else [])
  }

  function FrozenEdits(v: View, columnIndex: int): seq<ViewEdit> {
    if v.frozenColumnCount.Some? && v.frozenColumnCount.value > 0 && columnIndex < v.frozenColumnCount.value
    then [FrozenColumnCount(OR(v.frozenColumnCount.value, v.frozenColumnCount.value - 1))] else []
  }

  /** Locked views of the field's own datasheet are left alone, except the one the
      command comes from. */
  predicate MayClean(s: Snapshot, v: View, datasheetId: Id, viewId: Option<Id>) {
    datasheetId != s.datasheetId || !(v.locked && Some(v.id) != viewId)
  }

  function CleanEdits(v: View, fieldId: Id, columnIndex: int): seq<ViewEdit> {
    FilterEdits(v, fieldId) + (GroupEdits(v, fieldId) + (SortEdits(v, fieldId) +
      (KanbanEdits(v, fieldId) + (GanttEdits(v, fieldId) + FrozenEdits(v, columnIndex)))))
  }

  function DeleteFieldEdits(v: View, fieldId: Id, mayClean: bool): seq<ViewEdit> {
    var columnIndex := ColumnIndex(v, fieldId);
    if columnIndex < 0 then []
    else
      (if mayClean then CleanEdits(v, fieldId, columnIndex) else []) +
      [Columns(LD(columnIndex, v.columns[columnIndex]))]
  }

  function FieldEdits(s: Snapshot, fieldId: Id, datasheetId: Id, viewId: Option<Id>): View -> seq<ViewEdit> {
    (v: View) => DeleteFieldEdits(v, fieldId, MayClean(s, v, datasheetId, viewId))
  }

  function DeleteFieldActions(s: Snapshot, fieldId: Id, datasheetId: Id, viewId: Option<Id>): seq<Action> {
    AllViews(FieldEdits(s, fieldId, datasheetId, viewId), s.views, 0) +
    (if fieldId in s.fieldMap then [OnField(fieldId, OD(s.fieldMap[fieldId]))] else [])
  }

  // ---------------------------------------------------------------- one view

  function FilterAfter(v: View, fieldId: Id): Option<seq<Condition>> {
    if v.filterInfo.None? || OtherConditions(v.filterInfo.value, fieldId) == [] then None
    else Some(OtherConditions(v.filterInfo.value, fieldId))
  }

  function RulesAfter(rules: seq<Rule>, fieldId: Id): seq<Rule> {
    var i := RuleIndex(rules, fieldId);
    if i < 0 then rules else RemoveAt(rules, i)
  }

  lemma RulesAfterLength(rules: seq<Rule>, fieldId: Id)
    ensures |RulesAfter(rules, fieldId)| == |rules| - (if RuleIndex(rules, fieldId) < 0 then 0 else 1)
  {
  }

  function GroupAfter(v: View, fieldId: Id): Option<seq<Rule>> {
    if v.groupInfo.None? || v.groupInfo.value == [] then v.groupInfo
    else
      var rules := RulesAfter(v.groupInfo.value, fieldId);
      if rules == [] then None else Some(rules)
  }

  function SortAfter(v: View, fieldId: Id): Option<SortInfo> {
    if v.sortInfo.None? || v.sortInfo.value.rules == [] then v.sortInfo
    else
      var rules := RulesAfter(v.sortInfo.value.rules, fieldId);
      if rules == [] then None else Some(v.sortInfo.value.(rules := rules))
  }

  function Forget(x: Option<Id>, fieldId: Id, applies: bool): Option<Id> {
    if applies && x == Some(fieldId) then None else x
  }

  function FrozenAfter(v: View, columnIndex: int): Option<nat> {
    if v.frozenColumnCount.Some? && v.frozenColumnCount.value > 0 && columnIndex < v.frozenColumnCount.value
    then Some(v.frozenColumnCount.value - 1) else v.frozenColumnCount
  }

  /** A view with nothing left that refers to the field. */
  function CleanedView(v: View, fieldId: Id, columnIndex: int): View {
    v.(filterInfo := FilterAfter(v, fieldId),
       groupInfo := GroupAfter(v, fieldId),
       sortInfo := SortAfter(v, fieldId),
       kanbanFieldId := Forget(v.kanbanFieldId, fieldId, v.viewType == Kanban),
       startFieldId := Forget(v.startFieldId, fieldId, v.viewType == Gantt),
       endFieldId := Forget(v.endFieldId, fieldId, v.viewType == Gantt),
       frozenColumnCount := FrozenAfter(v, columnIndex))
  }

  lemma FilterTakes(v: View, fieldId: Id)
    ensures Takes(v, FilterEdits(v, fieldId), v.(filterInfo := FilterAfter(v, fieldId)))
  {
    if v.filterInfo.Some? {
      var cs := OtherConditions(v.filterInfo.value, fieldId);
      OtherConditionsSame(v.filterInfo.value, fieldId);
      if |cs| == 0 {
        TakesOne(v, FilterInfo(OD(v.filterInfo.value)), v.(filterInfo := None));
      } else if |cs| != |v.filterInfo.value| {
        TakesOne(v, Conditions(v.filterInfo.value, cs), v.(filterInfo := Some(cs)));
      }
    }
  }

  lemma GroupRuleGoes(v: View, i: int)
    requires v.groupInfo.Some? && 0 <= i < |v.groupInfo.value|
    ensures Takes(v, [GroupRules(LD(i, v.groupInfo.value[i]))], v.(groupInfo := Some(RemoveAt(v.groupInfo.value, i))))
  {
    TakesOne(v, GroupRules(LD(i, v.groupInfo.value[i])), v.(groupInfo := Some(RemoveAt(v.groupInfo.value, i))));
  }

  lemma GroupAfterMany(v: View, fieldId: Id)
    requires v.groupInfo.Some? && |v.groupInfo.value| > 1 && RuleIndex(v.groupInfo.value, fieldId) >= 0
    ensures GroupAfter(v, fieldId) == Some(RemoveAt(v.groupInfo.value, RuleIndex(v.groupInfo.value, fieldId)))
  {
    RulesAfterLength(v.groupInfo.value, fieldId);
  }

  lemma GroupTakes(v: View, fieldId: Id)
    ensures Takes(v, GroupEdits(v, fieldId), v.(groupInfo := GroupAfter(v, fieldId)))
  {
    if v.groupInfo.Some? {
      var i := RuleIndex(v.groupInfo.value, fieldId);
      RulesAfterLength(v.groupInfo.value, fieldId);
      if i > -1 && |v.groupInfo.value| > 1 {
        GroupRuleGoes(v, i);
        GroupAfterMany(v, fieldId);
      } else if i > -1 {
        TakesOne(v, GroupInfo(OD(v.groupInfo.value)), v.(groupInfo := None));
      }
    }
  }

  function WithSortRules(v: View, rules: seq<Rule>): View
    requires v.sortInfo.Some?
  {
    v.(sortInfo := Some(v.sortInfo.value.(rules := rules)))
  }

  lemma SortRuleGoes(v: View, i: int)
    requires v.sortInfo.Some? && 0 <= i < |v.sortInfo.value.rules|
    ensures var rules := v.sortInfo.value.rules;
            Takes(v, [SortRules(LD(i, rules[i]))], WithSortRules(v, RemoveAt(rules, i)))
  {
    var rules := v.sortInfo.value.rules;
    TakesOne(v, SortRules(LD(i, rules[i])), WithSortRules(v, RemoveAt(rules, i)));
  }

  lemma SortAfterMany(v: View, fieldId: Id)
    requires v.sortInfo.Some? && |v.sortInfo.value.rules| > 1 && RuleIndex(v.sortInfo.value.rules, fieldId) >= 0
    ensures var rules := v.sortInfo.value.rules;
            v.(sortInfo := SortAfter(v, fieldId)) == WithSortRules(v, RemoveAt(rules, RuleIndex(rules, fieldId)))
  {
    RulesAfterLength(v.sortInfo.value.rules, fieldId);
  }

  lemma SortAfterOne(v: View, fieldId: Id)
    requires v.sortInfo.Some? && |v.sortInfo.value.rules| <= 1
    ensures SortAfter(v, fieldId) == if RuleIndex(v.sortInfo.value.rules, fieldId) >= 0 then None else v.sortInfo
  {
    RulesAfterLength(v.sortInfo.value.rules, fieldId);
  }

  lemma SortTakes(v: View, fieldId: Id)
    ensures Takes(v, SortEdits(v, fieldId), v.(sortInfo := SortAfter(v, fieldId)))
  {
    if v.sortInfo.Some? {
      var info := v.sortInfo.value.rules;
      var i := RuleIndex(info, fieldId);
      if |info| <= 1 {
        SortAfterOne(v, fieldId);
        if i >= 0 {
          TakesOne(v, SortInfos(OD(v.sortInfo.value)), v.(sortInfo := None));
        }
      } else if i >= 0 {
        SortRuleGoes(v, i);
        SortAfterMany(v, fieldId);
      } else {
        TakesNothing(v);
      }
    }
  }

  lemma KanbanTakes(v: View, fieldId: Id)
    ensures Takes(v, KanbanEdits(v, fieldId),
            v.(kanbanFieldId := Forget(v.kanbanFieldId, fieldId, v.viewType == Kanban)))
  {
    if KanbanEdits(v, fieldId) != [] {
      TakesOne(v, KanbanFieldId(OD(fieldId)), v.(kanbanFieldId := None));
    }
  }

  lemma GanttTakes(v: View, fieldId: Id)
    ensures Takes(v, GanttEdits(v, fieldId),
                  v.(startFieldId := Forget(v.startFieldId, fieldId, v.viewType == Gantt),
                     endFieldId := Forget(v.endFieldId, fieldId, v.viewType == Gantt)))
  {
    if v.viewType == Gantt {
      var w := v.(startFieldId := Forget(v.startFieldId, fieldId, true));
      var x := w.(endFieldId := Forget(v.endFieldId, fieldId, true));
      var first := if v.startFieldId == Some(fieldId) then [StartFieldId(OD(fieldId))] else [];
      var second := if v.endFieldId == Some(fieldId) then [EndFieldId(OD(fieldId))] else [];
      if first != [] { TakesOne(v, StartFieldId(OD(fieldId)), w); }
      if second != [] { TakesOne(w, EndFieldId(OD(fieldId)), x); }
      TakesThen(v, first, w, second, x);
    }
  }

  lemma FrozenTakes(v: View, columnIndex: int)
    ensures Takes(v, FrozenEdits(v, columnIndex), v.(frozenColumnCount := FrozenAfter(v, columnIndex)))
  {
    if FrozenEdits(v, columnIndex) != [] {
      TakesOne(v, FrozenColumnCount(OR(v.frozenColumnCount.value, v.frozenColumnCount.value - 1)),
               v.(frozenColumnCount := Some(v.frozenColumnCount.value - 1)));
    }
  }

  /** The cleaning edits do not get in each other's way. */
  lemma CleanTakes(v: View, fieldId: Id, columnIndex: int)
    ensures Takes(v, CleanEdits(v, fieldId, columnIndex), CleanedView(v, fieldId, columnIndex))
  {
    var v1 := v.(filterInfo := FilterAfter(v, fieldId));
    var v2 := v1.(groupInfo := GroupAfter(v, fieldId));
    var v3 := v2.(sortInfo := SortAfter(v, fieldId));
    var v4 := v3.(kanbanFieldId := Forget(v.kanbanFieldId, fieldId, v.viewType == Kanban));
    var v5 := v4.(startFieldId := Forget(v.startFieldId, fieldId, v.viewType == Gantt),
                  endFieldId := Forget(v.endFieldId, fieldId, v.viewType == Gantt));
    var v6 := v5.(frozenColumnCount := FrozenAfter(v, columnIndex));
    FilterTakes(v, fieldId);
    GroupTakes(v1, fieldId);
    SortTakes(v2, fieldId);
    KanbanTakes(v3, fieldId);
    GanttTakes(v4, fieldId);
    FrozenTakes(v5, columnIndex);
    TakesThen(v4, GanttEdits(v, fieldId), v5, FrozenEdits(v, columnIndex), v6);
    TakesThen(v3, KanbanEdits(v, fieldId), v4, GanttEdits(v, fieldId) + FrozenEdits(v, columnIndex), v6);
    TakesThen(v2, SortEdits(v, fieldId), v3,
              KanbanEdits(v, fieldId) + (GanttEdits(v, fieldId) + FrozenEdits(v, columnIndex)), v6);
    TakesThen(v1, GroupEdits(v, fieldId), v2,
              SortEdits(v, fieldId) +
                  (KanbanEdits(v, fieldId) + (GanttEdits(v, fieldId) + FrozenEdits(v, columnIndex))), v6);
    TakesThen(v, FilterEdits(v, fieldId), v1,
              GroupEdits(v, fieldId) +
                  (SortEdits(v, fieldId) +
                      (KanbanEdits(v, fieldId) + (GanttEdits(v, fieldId) + FrozenEdits(v, columnIndex)))), v6);
  }

  function DeletedFieldView(v: View, fieldId: Id, mayClean: bool): View {
    var i := ColumnIndex(v, fieldId);
    if i < 0 then v
    else (if mayClean then CleanedView(v, fieldId, i) else v).(columns := RemoveAt(v.columns, i))
  }

  lemma DeleteFieldTakes(v: View, fieldId: Id, mayClean: bool)
    ensures Takes(v, DeleteFieldEdits(v, fieldId, mayClean), DeletedFieldView(v, fieldId, mayClean))
  {
    var i := ColumnIndex(v, fieldId);
    if i >= 0 {
      var w := if mayClean then CleanedView(v, fieldId, i) else v;
      var edits := if mayClean then CleanEdits(v, fieldId, i) else [];
      if mayClean { CleanTakes(v, fieldId, i); }
      TakesOne(w, Columns(LD(i, v.columns[i])), w.(columns := RemoveAt(v.columns, i)));
      TakesThen(v, edits, w, [Columns(LD(i, v.columns[i]))], w.(columns := RemoveAt(v.columns, i)));
    }
  }

  // ---------------------------------------------------------------- what is left

  predicate RefersTo(rules: seq<Rule>, fieldId: Id) {
    fieldId in RuleIds(rules)
  }

  predicate OnceAtMost(ids: seq<Id>, id: Id) {
    forall i, j :: 0 <= i < j < |ids| ==> ids[i] != id || ids[j] != id
  }

  lemma RemoveAtMember(ids: seq<Id>, i: nat, id: Id)
    requires i < |ids|
    ensures id in RemoveAt(ids, i) <==> exists j :: 0 <= j < |ids| && j != i && ids[j] == id
  {
    var after := RemoveAt(ids, i);
    if id in after {
      var j :| 0 <= j < |after| && after[j] == id;
      assert after[j] == ids[if j < i then j else j + 1];
    }
    if j :| 0 <= j < |ids| && j != i && ids[j] == id {
      assert after[if j < i then j else j - 1] == id;
    }
  }

  lemma RemoveFirstIff(ids: seq<Id>, id: Id)
    requires IndexOf(ids, id) >= 0
    ensures id !in RemoveAt(ids, IndexOf(ids, id)) <==> OnceAtMost(ids, id)
  {
    var i := IndexOf(ids, id);
    RemoveAtMember(ids, i, id);
    if j :| 0 <= j < |ids| && j != i && ids[j] == id {
      assert i < j;
    }
  }

  lemma OneCondition(c: Condition, fieldId: Id)
    ensures OtherConditions([c], fieldId) == if c.fieldId == fieldId then [] else [c]
  {
    assert [c][1..] == [];
  }

  /** Of two stretches of conditions those on other fields stay, in their order. */
  lemma {:induction false} OtherConditionsInOrder(xs: seq<Condition>, ys: seq<Condition>, fieldId: Id)
    ensures OtherConditions(xs + ys, fieldId) == OtherConditions(xs, fieldId) + OtherConditions(ys, fieldId)
  {
    if xs == [] {
      assert xs + ys == ys;
    } else {
      assert (xs + ys)[1..] == xs[1..] + ys;
      OtherConditionsInOrder(xs[1..], ys, fieldId);
    }
  }

  /** Of the rules only the first one of the field goes; the others stay in their order. */
  lemma RulesAfterInOrder(rules: seq<Rule>, fieldId: Id)
    ensures if RefersTo(rules, fieldId) then
              exists i :: && 0 <= i < |rules| && rules[i].fieldId == fieldId
                          && (forall j :: 0 <= j < i ==> rules[j].fieldId != fieldId)
                          && RulesAfter(rules, fieldId) == rules[..i] + rules[i + 1..]
            else RulesAfter(rules, fieldId) == rules
  {
    var i := RuleIndex(rules, fieldId);
    if i >= 0 {
      assert rules[i].fieldId == fieldId;
      assert forall j :: 0 <= j < i ==> RuleIds(rules)[j] == rules[j].fieldId;
    }
  }

  lemma RuleIdsRemoved(rules: seq<Rule>, i: nat)
    requires i < |rules|
    ensures RuleIds(RemoveAt(rules, i)) == RemoveAt(RuleIds(rules), i)
  {
  }

  /** Only the first rule of a field is removed, so none is left if and only if there was
      at most one. */
  lemma RulesAfterIff(rules: seq<Rule>, fieldId: Id)
    ensures !RefersTo(RulesAfter(rules, fieldId), fieldId) <==> OnceAtMost(RuleIds(rules), fieldId)
  {
    var i := RuleIndex(rules, fieldId);
    if i >= 0 {
      RemoveFirstIff(RuleIds(rules), fieldId);
      RuleIdsRemoved(rules, i);
    }
  }

  predicate OneRuleAtMost(rules: Option<seq<Rule>>, fieldId: Id) {
    rules.Some? ==> OnceAtMost(RuleIds(rules.value), fieldId)
  }

  function SortRulesOf(info: Option<SortInfo>): Option<seq<Rule>> {
    if info.None? then None else Some(info.value.rules)
  }

  lemma NoGroupRefersIff(v: View, fieldId: Id)
    ensures (GroupAfter(v, fieldId).Some? ==> !RefersTo(GroupAfter(v, fieldId).value, fieldId))
            <==> OneRuleAtMost(v.groupInfo, fieldId)
  {
    if v.groupInfo.Some? {
      RulesAfterIff(v.groupInfo.value, fieldId);
    }
  }

  lemma NoSortRefersIff(v: View, fieldId: Id)
    ensures (SortAfter(v, fieldId).Some? ==> !RefersTo(SortAfter(v, fieldId).value.rules, fieldId))
            <==> OneRuleAtMost(SortRulesOf(v.sortInfo), fieldId)
  {
    if v.sortInfo.Some? {
      RulesAfterIff(v.sortInfo.value.rules, fieldId);
    }
  }

  /** Nothing in a view refers to the field. */
  ghost predicate Clean(w: View, fieldId: Id) {
    && (w.filterInfo.Some? ==> forall c :: c in w.filterInfo.value ==> c.fieldId != fieldId)
    && (w.groupInfo.Some? ==> !RefersTo(w.groupInfo.value, fieldId))
    && (w.sortInfo.Some? ==> !RefersTo(w.sortInfo.value.rules, fieldId))
    && (w.viewType == Kanban ==> w.kanbanFieldId != Some(fieldId))
    && (w.viewType == Gantt ==> w.startFieldId != Some(fieldId) && w.endFieldId != Some(fieldId))
  }

  predicate FrozenFits(v: View) {
    v.frozenColumnCount.Some? ==> v.frozenColumnCount.value <= |v.columns|
  }

  /** In a view that may be cleaned and shows the field, no filter condition, group or
      sort rule, kanban or gantt field refers to it afterwards, exactly when at most one
      group rule and at most one sort rule did; frozen columns that existed still do. */
  lemma NothingRefersIff(v: View, fieldId: Id)
    requires ColumnIndex(v, fieldId) >= 0
    ensures Clean(DeletedFieldView(v, fieldId, true), fieldId) <==>
            OneRuleAtMost(v.groupInfo, fieldId) && OneRuleAtMost(SortRulesOf(v.sortInfo), fieldId)
    ensures FrozenFits(v) ==> FrozenFits(DeletedFieldView(v, fieldId, true))
  {
    NoGroupRefersIff(v, fieldId);
    NoSortRefersIff(v, fieldId);
    RemoveAtLength(v.columns, ColumnIndex(v, fieldId));
  }

  lemma RemoveAtLength(columns: seq<Column>, i: nat)
    requires i < |columns|
    ensures |RemoveAt(columns, i)| == |columns| - 1
  {
  }

  // ---------------------------------------------------------------- the whole snapshot

  function DeletedField(s: Snapshot, fieldId: Id, datasheetId: Id, viewId: Option<Id>): Snapshot {
    s.(views := seq(|s.views|, i requires 0 <= i < |s.views| =>
                  DeletedFieldView(s.views[i], fieldId, MayClean(s, s.views[i], datasheetId, viewId))),
       fieldMap := s.fieldMap - {fieldId})
  }

  lemma DeleteColumnsApplies(s: Snapshot, fieldId: Id, datasheetId: Id, viewId: Option<Id>)
    ensures var columns := AllViews(FieldEdits(s, fieldId, datasheetId, viewId), s.views, 0);
            && ApplyAll(s, columns) == Some(s.(views := DeletedField(s, fieldId, datasheetId, viewId).views))
            && ExactAll(s, columns)
  {
    var g, after := FieldEdits(s, fieldId, datasheetId, viewId), DeletedField(s, fieldId, datasheetId, viewId).views;
    forall i | 0 <= i < |after|
      ensures ApplyEdits(s.views[i], g(s.views[i])) == Some(after[i]) && ExactEdits(s.views[i], g(s.views[i]))
    {
      DeleteFieldTakes(s.views[i], fieldId, MayClean(s, s.views[i], datasheetId, viewId));
    }
    AllViewsToExactly(s, g, after);
  }

  /** The generated actions delete the field as described, each in range and recording
      what it finds. */
  lemma DeleteFieldApplies(s: Snapshot, fieldId: Id, datasheetId: Id, viewId: Option<Id>)
    ensures ApplyAll(s, DeleteFieldActions(s, fieldId, datasheetId, viewId)) ==
            Some(DeletedField(s, fieldId, datasheetId, viewId))
    ensures ExactAll(s, DeleteFieldActions(s, fieldId, datasheetId, viewId))
  {
    DeleteColumnsApplies(s, fieldId, datasheetId, viewId);
    var columns := AllViews(FieldEdits(s, fieldId, datasheetId, viewId), s.views, 0);
    var last := if fieldId in s.fieldMap then [OnField(fieldId, OD(s.fieldMap[fieldId]))] else [];
    ApplyAllConcat(s, columns, last);
    ExactAllConcat(s, columns, last);
    if fieldId in s.fieldMap {
      ApplyOne(s.(views := DeletedField(s, fieldId, datasheetId, viewId).views), last[0]);
      assert last[1..] == [];
    } else {
      assert s.fieldMap - {fieldId} == s.fieldMap;
    }
  }

  // ---------------------------------------------------------------- what it comes to

  predicate FirstColumnOf(v: View, k: int, fieldId: Id) {
    && 0 <= k < |v.columns| && v.columns[k].fieldId == fieldId
    && forall j :: 0 <= j < k ==> v.columns[j].fieldId != fieldId
  }

  predicate Shows(v: View, fieldId: Id) {
    exists k :: 0 <= k < |v.columns| && v.columns[k].fieldId == fieldId
  }

  /** The rules but for the first one of the field. */
  ghost predicate FirstRuleGone(before: seq<Rule>, after: seq<Rule>, fieldId: Id) {
    if forall k :: 0 <= k < |before| ==> before[k].fieldId != fieldId then after == before
    else exists k :: && 0 <= k < |before| && before[k].fieldId == fieldId
                     && (forall j :: 0 <= j < k ==> before[j].fieldId != fieldId)
                     && after == before[..k] + before[k + 1..]
  }

  function OrNone<T>(x: Option<seq<T>>): seq<T> {
    if x.Some? then x.value else []
  }

  /** What refers to the field in v is gone from w: all its filter conditions, its first group
      and sort rule, its place in a kanban or gantt view, and one frozen column if it was one.
      Lists that become empty go altogether. */
  ghost predicate ReferencesGone(v: View, w: View, fieldId: Id, columnIndex: nat) {
    && (forall c :: c in OrNone(w.filterInfo) <==> c in OrNone(v.filterInfo) && c.fieldId != fieldId)
    && OrNone(w.filterInfo) == OtherConditions(OrNone(v.filterInfo), fieldId)
    && w.filterInfo != Some([])
    && FirstRuleGone(OrNone(v.groupInfo), OrNone(w.groupInfo), fieldId)
    && (w.groupInfo == Some([]) <==> v.groupInfo == Some([]))
    && FirstRuleGone(OrNone(SortRulesOf(v.sortInfo)), OrNone(SortRulesOf(w.sortInfo)), fieldId)
    && (SortRulesOf(w.sortInfo) == Some([]) <==> SortRulesOf(v.sortInfo) == Some([]))
    && (w.sortInfo.Some? ==> v.sortInfo.Some? && w.sortInfo.value.keepSort == v.sortInfo.value.keepSort)
    && w.kanbanFieldId == (if v.viewType == Kanban && v.kanbanFieldId == Some(fieldId) then None else v.kanbanFieldId)
    && w.startFieldId == (if v.viewType == Gantt && v.startFieldId == Some(fieldId) then None else v.startFieldId)
    && w.endFieldId == (if v.viewType == Gantt && v.endFieldId == Some(fieldId) then None else v.endFieldId)
    && (v.frozenColumnCount.None? ==> w.frozenColumnCount.None?)
    && (v.frozenColumnCount.Some? ==>
          var n := v.frozenColumnCount.value;
          w.frozenColumnCount == Some(if columnIndex < n then n - 1 else n))
  }

  /** A view that shows the field loses its column; where it is not protected also what refers
      to the field; and nothing else. */
  ghost predicate FieldGone(v: View, w: View, fieldId: Id, protected: bool) {
    exists k :: && FirstColumnOf(v, k, fieldId) && w.columns == v.columns[..k] + v.columns[k + 1..]
                && (if protected then w == v.(columns := w.columns)
                    else ReferencesGone(v, w, fieldId, k) && OnlyReferences(v, w))
  }

  /** They differ in columns and in what may refer to fields only. */
  ghost predicate OnlyReferences(v: View, w: View) {
    (w.id, w.viewType, w.locked, w.rows) == (v.id, v.viewType, v.locked, v.rows)
  }

  lemma FirstRuleGoes(rules: seq<Rule>, fieldId: Id)
    ensures FirstRuleGone(rules, RulesAfter(rules, fieldId), fieldId)
  {
    RulesAfterInOrder(rules, fieldId);
    assert RefersTo(rules, fieldId) <==> exists k :: 0 <= k < |rules| && rules[k].fieldId == fieldId by {
      assert forall k :: 0 <= k < |rules| ==> RuleIds(rules)[k] == rules[k].fieldId;
    }
  }

  lemma GroupGoes(v: View, fieldId: Id)
    ensures FirstRuleGone(OrNone(v.groupInfo), OrNone(GroupAfter(v, fieldId)), fieldId)
    ensures GroupAfter(v, fieldId) == Some([]) <==> v.groupInfo == Some([])
  {
    FirstRuleGoes(OrNone(v.groupInfo), fieldId);
    GroupAfterRules(v, fieldId);
  }

  lemma GroupAfterRules(v: View, fieldId: Id)
    ensures OrNone(GroupAfter(v, fieldId)) == RulesAfter(OrNone(v.groupInfo), fieldId)
    ensures GroupAfter(v, fieldId) == Some([]) <==> v.groupInfo == Some([])
  {
    if v.groupInfo.Some? && v.groupInfo.value != [] {
      RulesAfterLength(v.groupInfo.value, fieldId);
    }
  }

  lemma SortGoes(v: View, fieldId: Id)
    ensures FirstRuleGone(OrNone(SortRulesOf(v.sortInfo)), OrNone(SortRulesOf(SortAfter(v, fieldId))), fieldId)
    ensures SortRulesOf(SortAfter(v, fieldId)) == Some([]) <==> SortRulesOf(v.sortInfo) == Some([])
  {
    var rules := OrNone(SortRulesOf(v.sortInfo));
    FirstRuleGoes(rules, fieldId);
    SortAfterRules(v, fieldId);
  }

  lemma SortAfterRules(v: View, fieldId: Id)
    ensures OrNone(SortRulesOf(SortAfter(v, fieldId))) == RulesAfter(OrNone(SortRulesOf(v.sortInfo)), fieldId)
    ensures SortRulesOf(SortAfter(v, fieldId)) == Some([]) <==> SortRulesOf(v.sortInfo) == Some([])
  {
    if v.sortInfo.Some? && v.sortInfo.value.rules != [] {
      RulesAfterLength(v.sortInfo.value.rules, fieldId);
    }
  }

  lemma ShownColumn(v: View, fieldId: Id)
    ensures ColumnIndex(v, fieldId) >= 0 ==> FirstColumnOf(v, ColumnIndex(v, fieldId), fieldId)
    ensures ColumnIndex(v, fieldId) >= 0 <==> Shows(v, fieldId)
  {
    assert forall k :: 0 <= k < |v.columns| ==> ColumnIds(v.columns)[k] == v.columns[k].fieldId;
  }

  lemma FilterGoes(v: View, fieldId: Id)
    ensures OrNone(FilterAfter(v, fieldId)) == OtherConditions(OrNone(v.filterInfo), fieldId)
    ensures FilterAfter(v, fieldId) != Some([])
  {
  }

  lemma FieldGoes(v: View, fieldId: Id, mayClean: bool)
    requires Shows(v, fieldId)
    ensures FieldGone(v, DeletedFieldView(v, fieldId, mayClean), fieldId, !mayClean)
  {
    ShownColumn(v, fieldId);
    var k := ColumnIndex(v, fieldId);
    var w := DeletedFieldView(v, fieldId, mayClean);
    assert w.columns == v.columns[..k] + v.columns[k + 1..];
    if mayClean {
      ReferencesGo(v, fieldId, k);
      var c := CleanedView(v, fieldId, k);
      assert w == c.(columns := w.columns);
      assert ReferencesGone(v, w, fieldId, k);
    }
  }

  lemma ReferencesGo(v: View, fieldId: Id, columnIndex: nat)
    ensures ReferencesGone(v, CleanedView(v, fieldId, columnIndex), fieldId, columnIndex)
    ensures OnlyReferences(v, CleanedView(v, fieldId, columnIndex))
  {
    FilterGoes(v, fieldId);
    GroupGoes(v, fieldId);
    SortGoes(v, fieldId);
  }

  /** What the actions come to, on the snapshot they reach.  In every view that shows the field
      its column goes, and what refers to it unless the view is locked, belongs to the
      datasheet of the command and is not the one the command comes from.  Nothing else
      changes. */
  lemma DeleteFieldMeans(s: Snapshot, fieldId: Id, datasheetId: Id, viewId: Option<Id>)
    ensures var t := ApplyAll(s, DeleteFieldActions(s, fieldId, datasheetId, viewId));
            && t.Some?
            && t.value == s.(views := t.value.views, fieldMap := s.fieldMap - {fieldId})
            && |t.value.views| == |s.views|
            && forall i :: 0 <= i < |s.views| ==>
                 var v, w := s.views[i], t.value.views[i];
                 if Shows(v, fieldId)
                 then FieldGone(v, w, fieldId, v.locked && datasheetId == s.datasheetId && viewId != Some(v.id))
                 else w == v
  {
    DeleteFieldApplies(s, fieldId, datasheetId, viewId);
    forall i | 0 <= i < |s.views|
      ensures var v, w := s.views[i], DeletedField(s, fieldId, datasheetId, viewId).views[i];
              if Shows(v, fieldId)
              then FieldGone(v, w, fieldId, v.locked && datasheetId == s.datasheetId && viewId != Some(v.id))
              else w == v
    {
      ShownColumn(s.views[i], fieldId);
      if Shows(s.views[i], fieldId) {
        FieldGoes(s.views[i], fieldId, MayClean(s, s.views[i], datasheetId, viewId));
      }
    }
  }

  /** Where nothing but its column refers to the field, the view gets that one action only. */
  lemma OnlyItsColumn(v: View, fieldId: Id, mayClean: bool)
    requires Shows(v, fieldId)
    requires v.filterInfo != Some([]) && forall c :: c in OrNone(v.filterInfo) ==> c.fieldId != fieldId
    requires forall r :: r in OrNone(v.groupInfo) + OrNone(SortRulesOf(v.sortInfo)) ==> r.fieldId != fieldId
    requires Some(fieldId) !in {v.kanbanFieldId, v.startFieldId, v.endFieldId} && v.frozenColumnCount.None?
    ensures exists k :: FirstColumnOf(v, k, fieldId) &&
                        DeleteFieldEdits(v, fieldId, mayClean) == [Columns(LD(k, v.columns[k]))]
  {
    ShownColumn(v, fieldId);
    OtherConditionsAll(OrNone(v.filterInfo), fieldId);
    assert RuleIndex(OrNone(v.groupInfo), fieldId) == -1 && RuleIndex(OrNone(SortRulesOf(v.sortInfo)), fieldId) == -1;
  }

  lemma {:induction false} OtherConditionsAll(conditions: seq<Condition>, fieldId: Id)
    requires forall c :: c in conditions ==> c.fieldId != fieldId
    ensures OtherConditions(conditions, fieldId) == conditions
  {
    if conditions != [] {
      OtherConditionsAll(conditions[1..], fieldId);
    }
  }

  /** So a view that is unlocked, the command's own, or of another datasheet's command has
      nothing that refers to the field afterwards exactly when it had at most one group rule and
      one sort rule on it; any other view differs in its columns only. */
  lemma DeleteFieldCleansIff(s: Snapshot, fieldId: Id, datasheetId: Id, viewId: Option<Id>, i: nat)
    requires i < |s.views| && Shows(s.views[i], fieldId)
    ensures var t := ApplyAll(s, DeleteFieldActions(s, fieldId, datasheetId, viewId));
            && t.Some? && i < |t.value.views|
            && var v, w := s.views[i], t.value.views[i];
            && (!v.locked || viewId == Some(v.id) || datasheetId != s.datasheetId ==>
                  (Clean(w, fieldId) <==>
                     OneRuleAtMost(v.groupInfo, fieldId) && OneRuleAtMost(SortRulesOf(v.sortInfo), fieldId)))
            && (v.locked && viewId != Some(v.id) && datasheetId == s.datasheetId ==> w == v.(columns := w.columns))
  {
    DeleteFieldApplies(s, fieldId, datasheetId, viewId);
    ShownColumn(s.views[i], fieldId);
    NothingRefersIff(s.views[i], fieldId);
  }

  /** Undoing a field deletion restores the snapshot. */
  lemma DeleteFieldUndone(s: Snapshot, fieldId: Id, datasheetId: Id, viewId: Option<Id>)
    ensures ApplyAll(DeletedField(s, fieldId, datasheetId, viewId),
                     InvertAll(DeleteFieldActions(s, fieldId, datasheetId, viewId))) == Some(s)
  {
    DeleteFieldApplies(s, fieldId, datasheetId, viewId);
    AllUndone(s, DeleteFieldActions(s, fieldId, datasheetId, viewId));
  }
}
