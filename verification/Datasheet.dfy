/** Datasheet snapshots and the actions that edit them. */
module Datasheet {
  import opened Options

  type Id = string

  datatype CellValue = Null | Items(items: seq<Id>) | Scalar(n: int)

  datatype ViewType = Grid | Kanban | Gallery | Gantt | Calendar | OrgChart

  datatype Column = Column(fieldId: Id, sumStat: bool, flags: map<string, bool>)
  datatype Row = Row(recordId: Id)
  datatype Condition = Condition(fieldId: Id, expression: int)
  datatype Rule = Rule(fieldId: Id, desc: bool)
  datatype SortInfo = SortInfo(rules: seq<Rule>, keepSort: bool)

  datatype View = View(
    id: Id,
    viewType: ViewType,
    locked: bool,
    columns: seq<Column>,
    rows: seq<Row>,
    filterInfo: Option<seq<Condition>>,
    groupInfo: Option<seq<Rule>>,
    sortInfo: Option<SortInfo>,
    kanbanFieldId: Option<Id>,
    startFieldId: Option<Id>,
    endFieldId: Option<Id>,
    frozenColumnCount: Option<nat>
  )

  datatype Field = Field(id: Id, isNumeric: bool)
  datatype Record = Record(id: Id, data: map<Id, CellValue>)

  datatype Snapshot = Snapshot(
    datasheetId: Id,
    views: seq<View>,
    fieldMap: map<Id, Field>,
    recordMap: map<Id, Record>
  )

  // ---------------------------------------------------------------- actions

  /** LI, LD and LM: an index and what is inserted, deleted or moved to. */
  datatype ListEdit<T> = LI(i: int, li: T) | LD(i: int, ld: T) | LM(i: int, lm: int)

  /** OI, OD and OR on one key. */
  datatype SlotEdit<T> = OI(oi: T) | OD(od: T) | OR(od: T, oi: T)

  /** What an action's path below a view leads to. */
  datatype ViewEdit =
    | Rows(rows: ListEdit<Row>)
    | AllRows(od: seq<Row>, oi: seq<Row>)
    | Columns(columns: ListEdit<Column>)
    | Conditions(before: seq<Condition>, after: seq<Condition>)
    | FilterInfo(filter: SlotEdit<seq<Condition>>)
    | GroupRules(group: ListEdit<Rule>)
    | GroupInfo(groups: SlotEdit<seq<Rule>>)
    | SortRules(sort: ListEdit<Rule>)
    | SortInfos(sorts: SlotEdit<SortInfo>)
    | KanbanFieldId(kanban: SlotEdit<Id>)
    | StartFieldId(start: SlotEdit<Id>)
    | EndFieldId(end: SlotEdit<Id>)
    | FrozenColumnCount(frozen: SlotEdit<nat>)

  datatype Action =
    | OnView(view: nat, edit: ViewEdit)
    | OnField(fieldId: Id, field: SlotEdit<Field>)
    | OnRecord(recordId: Id, record: SlotEdit<Record>)
    | OnCell(rec: Id, cell: Id, value: SlotEdit<CellValue>)

  // ---------------------------------------------------------------- applying

  function InsertAt<T>(xs: seq<T>, i: nat, x: T): seq<T> requires i <= |xs| { xs[..i] + [x] + xs[i..] }
  function RemoveAt<T>(xs: seq<T>, i: nat): seq<T> requires i < |xs| { xs[..i] + xs[i + 1..] }

  /** Where JavaScript's splice starts on a list of n elements: a negative index counts
      from the end, and what is still outside is moved to the nearer end. */
  function SpliceStart(i: int, n: nat): (r: nat)
    ensures r <= n && (0 <= i <= n ==> r == i)
  {
    if i > n then n else if i >= 0 then i else if n + i >= 0 then n + i else 0
  }

  /** Edits a list by splicing, as the library behind `jot` does.  None stands for a list
      with an undefined element, which moving from outside the list would leave. */
  function ApplyList<T>(xs: seq<T>, e: ListEdit<T>): Option<seq<T>> {
    match e
    case LI(i, x) => Some(InsertAt(xs, SpliceStart(i, |xs|), x))
    case LD(i, _) => Some(var k := SpliceStart(i, |xs|); if k < |xs| then RemoveAt(xs, k) else xs)
    case LM(i, j) =>
      if i == j then Some(xs)
      else if 0 <= i < |xs| then Some(InsertAt(RemoveAt(xs, i), SpliceStart(j, |xs| - 1), xs[i]))
      else None
  }

  /** Old values are recorded but not looked at. */
  function ApplySlot<T>(e: SlotEdit<T>): Option<T> {
    if e.OD? then None else Some(e.oi)
  }

  function ApplyView(v: View, e: ViewEdit): Option<View> {
    match e
    case Rows(l) => var r := ApplyList(v.rows, l); if r.None? then None else Some(v.(rows := r.value))
    case AllRows(_, after) => Some(v.(rows := after))
    case Columns(l) => var r := ApplyList(v.columns, l); if r.None? then None else Some(v.(columns := r.value))
    case Conditions(_, after) => if v.filterInfo.None? then None else Some(v.(filterInfo := Some(after)))
    case FilterInfo(s) => Some(v.(filterInfo := ApplySlot(s)))
    case GroupRules(l) =>
      if v.groupInfo.None? then None
      else var r := ApplyList(v.groupInfo.value, l); if r.None? then None else Some(v.(groupInfo := r))
    case GroupInfo(s) => Some(v.(groupInfo := ApplySlot(s)))
    case SortRules(l) =>
      if v.sortInfo.None? then None
      else
        var r := ApplyList(v.sortInfo.value.rules, l);
        if r.None? then None else Some(v.(sortInfo := Some(v.sortInfo.value.(rules := r.value))))
    case SortInfos(s) => Some(v.(sortInfo := ApplySlot(s)))
    case KanbanFieldId(s) => Some(v.(kanbanFieldId := ApplySlot(s)))
    case StartFieldId(s) => Some(v.(startFieldId := ApplySlot(s)))
    case EndFieldId(s) => Some(v.(endFieldId := ApplySlot(s)))
    case FrozenColumnCount(s) => Some(v.(frozenColumnCount := ApplySlot(s)))
  }

  function Store<T>(m: map<Id, T>, k: Id, x: Option<T>): map<Id, T> {
    if x.Some? then m[k := x.value] else m - {k}
  }

  function Apply(s: Snapshot, a: Action): Option<Snapshot> {
    match a
    case OnView(i, e) =>
      if i >= |s.views| then None
      else var v := ApplyView(s.views[i], e); if v.None? then None else Some(s.(views := s.views[i := v.value]))
    case OnField(k, e) => Some(s.(fieldMap := Store(s.fieldMap, k, ApplySlot(e))))
    case OnRecord(k, e) => Some(s.(recordMap := Store(s.recordMap, k, ApplySlot(e))))
    case OnCell(r, f, e) =>
      if r !in s.recordMap then None
      else
        var rec := s.recordMap[r];
        Some(s.(recordMap := s.recordMap[r := rec.(data := Store(rec.data, f, ApplySlot(e)))]))
  }

  function ApplyAll(s: Snapshot, actions: seq<Action>): Option<Snapshot>
    decreases |actions|
  {
    if actions == [] then Some(s)
    else var t := Apply(s, actions[0]); if t.None? then None else ApplyAll(t.value, actions[1..])
  }

  lemma {:induction false} ApplyAllConcat(s: Snapshot, xs: seq<Action>, ys: seq<Action>)
    ensures ApplyAll(s, xs + ys) ==
            if ApplyAll(s, xs).None? then None else ApplyAll(ApplyAll(s, xs).value, ys)
    decreases |xs|
  {
    if xs == [] {
      assert xs + ys == ys;
    } else {
      assert (xs + ys)[1..] == xs[1..] + ys;
      if Apply(s, xs[0]).Some? {
        ApplyAllConcat(Apply(s, xs[0]).value, xs[1..], ys);
      }
    }
  }

  lemma ApplyOne(s: Snapshot, a: Action)
    ensures ApplyAll(s, [a]) == Apply(s, a)
  {
    assert [a][1..] == [];
  }

  // ---------------------------------------------------------------- inverting

  function InvertList<T>(e: ListEdit<T>): ListEdit<T> {
    match e
    case LI(i, x) => LD(i, x)
    case LD(i, x) => LI(i, x)
    case LM(i, j) => LM(j, i)
  }

  function InvertSlot<T>(e: SlotEdit<T>): SlotEdit<T> {
    match e
    case OI(x) => OD(x)
    case OD(x) => OI(x)
    case OR(x, y) => OR(y, x)
  }

  function InvertView(e: ViewEdit): ViewEdit {
    match e
    case Rows(l) => Rows(InvertList(l))
    case AllRows(x, y) => AllRows(y, x)
    case Columns(l) => Columns(InvertList(l))
    case Conditions(x, y) => Conditions(y, x)
    case FilterInfo(s) => FilterInfo(InvertSlot(s))
    case GroupRules(l) => GroupRules(InvertList(l))
    case GroupInfo(s) => GroupInfo(InvertSlot(s))
    case SortRules(l) => SortRules(InvertList(l))
    case SortInfos(s) => SortInfos(InvertSlot(s))
    case KanbanFieldId(s) => KanbanFieldId(InvertSlot(s))
    case StartFieldId(s) => StartFieldId(InvertSlot(s))
    case EndFieldId(s) => EndFieldId(InvertSlot(s))
    case FrozenColumnCount(s) => FrozenColumnCount(InvertSlot(s))
  }

  function Invert(a: Action): Action {
    match a
    case OnView(i, e) => OnView(i, InvertView(e))
    case OnField(k, e) => OnField(k, InvertSlot(e))
    case OnRecord(k, e) => OnRecord(k, InvertSlot(e))
    case OnCell(r, f, e) => OnCell(r, f, InvertSlot(e))
  }

  function InvertAll(actions: seq<Action>): seq<Action> {
    if actions == [] then [] else InvertAll(actions[1..]) + [Invert(actions[0])]
  }

  lemma {:induction false} InvertAllConcat(xs: seq<Action>, ys: seq<Action>)
    ensures InvertAll(xs + ys) == InvertAll(ys) + InvertAll(xs)
  {
    if xs == [] {
      assert xs + ys == ys;
    } else {
      assert (xs + ys)[1..] == xs[1..] + ys;
      InvertAllConcat(xs[1..], ys);
    }
  }

  // ---------------------------------------------------------------- exactness

  /** An edit whose recorded old value is what it finds. */
  predicate ExactList<T(==)>(xs: seq<T>, e: ListEdit<T>) {
    match e
    case LI(i, _) => 0 <= i <= |xs|
    case LD(i, x) => 0 <= i < |xs| && xs[i] == x
    case LM(i, j) => 0 <= i < |xs| && 0 <= j < |xs|
  }

  predicate ExactSlot<T(==)>(slot: Option<T>, e: SlotEdit<T>) {
    match e
    case OI(_) => slot.None?
    case OD(x) => slot == Some(x)
    case OR(x, _) => slot == Some(x)
  }

  predicate ExactView(v: View, e: ViewEdit) {
    match e
    case Rows(l) => ExactList(v.rows, l)
    case AllRows(before, _) => v.rows == before
    case Columns(l) => ExactList(v.columns, l)
    case Conditions(before, _) => v.filterInfo == Some(before)
    case FilterInfo(s) => ExactSlot(v.filterInfo, s)
    case GroupRules(l) => v.groupInfo.Some? && ExactList(v.groupInfo.value, l)
    case GroupInfo(s) => ExactSlot(v.groupInfo, s)
    case SortRules(l) => v.sortInfo.Some? && ExactList(v.sortInfo.value.rules, l)
    case SortInfos(s) => ExactSlot(v.sortInfo, s)
    case KanbanFieldId(s) => ExactSlot(v.kanbanFieldId, s)
    case StartFieldId(s) => ExactSlot(v.startFieldId, s)
    case EndFieldId(s) => ExactSlot(v.endFieldId, s)
    case FrozenColumnCount(s) => ExactSlot(v.frozenColumnCount, s)
  }

  function Lookup<T>(m: map<Id, T>, k: Id): Option<T> {
    if k in m then Some(m[k]) else None
  }

  predicate Exact(s: Snapshot, a: Action) {
    match a
    case OnView(i, e) => i < |s.views| && ExactView(s.views[i], e)
    case OnField(k, e) => ExactSlot(Lookup(s.fieldMap, k), e)
    case OnRecord(k, e) => ExactSlot(Lookup(s.recordMap, k), e)
    case OnCell(r, f, e) => r in s.recordMap && ExactSlot(Lookup(s.recordMap[r].data, f), e)
  }

  /** Every action of a list is exact when its turn comes. */
  predicate ExactAll(s: Snapshot, actions: seq<Action>)
    decreases |actions|
  {
    actions == [] ||
    (Exact(s, actions[0]) && Apply(s, actions[0]).Some? && ExactAll(Apply(s, actions[0]).value, actions[1..]))
  }

  lemma ListUndone<T>(xs: seq<T>, e: ListEdit<T>)
    requires ExactList(xs, e)
    ensures ApplyList(xs, e).Some? && ApplyList(ApplyList(xs, e).value, InvertList(e)) == Some(xs)
  {
    match e {
      case LI(i, x) =>
        assert RemoveAt(InsertAt(xs, i, x), i) == xs;
      case LD(i, x) =>
        assert InsertAt(RemoveAt(xs, i), i, x) == xs;
      case LM(i, j) =>
        var ys := InsertAt(RemoveAt(xs, i), j, xs[i]);
        assert ys[j] == xs[i];
        assert RemoveAt(ys, j) == RemoveAt(xs, i);
        assert InsertAt(RemoveAt(xs, i), i, xs[i]) == xs;
    }
  }

  /** Inserting a new element is undone by its inverse exactly when the index was in range,
      or so far in front of the list that both land at its start; from any other index the
      inverse removes another element or none. */
  lemma InsertUndoneIff<T>(xs: seq<T>, i: int, x: T)
    requires x !in xs
    ensures ApplyList(ApplyList(xs, LI(i, x)).value, LD(i, x)) == Some(xs) <==> ExactList(xs, LI(i, x)) || i < -|xs|
  {
    var n := |xs|;
    var ys := InsertAt(xs, SpliceStart(i, n), x);
    if 0 <= i <= n || i < -n {
      assert RemoveAt(ys, SpliceStart(i, n + 1)) == xs;
    } else if i < 0 {
      assert ys[n + i] == x && RemoveAt(ys, n + i + 1)[n + i] == x;
    }
  }

  /** Where an element moved from i to j ends up. */
  function LandsAt(n: nat, i: nat, j: int): (r: nat)
    requires i < n
    ensures r < n && (0 <= j < n ==> r == j)
  {
    if i == j then i else SpliceStart(j, n - 1)
  }

  lemma MoveLands<T>(xs: seq<T>, i: nat, j: int)
    requires i < |xs|
    ensures ApplyList(xs, LM(i, j)) == Some(InsertAt(RemoveAt(xs, i), LandsAt(|xs|, i, j), xs[i]))
  {
    if i == j {
      assert InsertAt(RemoveAt(xs, i), i, xs[i]) == xs;
    }
  }

  /** A move is undone by its inverse exactly when its target is in the list. */
  lemma MoveUndoneIff<T>(xs: seq<T>, i: nat, j: int)
    requires i < |xs|
    ensures ApplyList(ApplyList(xs, LM(i, j)).value, LM(j, i)) == Some(xs) <==> 0 <= j < |xs|
  {
    if 0 <= j < |xs| {
      ListUndone(xs, LM(i, j));
    }
  }

  /** The inverse restores a slot exactly when the edit records what the slot held. */
  lemma SlotUndoneIff<T>(slot: Option<T>, e: SlotEdit<T>)
    ensures ApplySlot(InvertSlot(e)) == slot <==> ExactSlot(slot, e)
  {
  }

  lemma ViewUndone(v: View, e: ViewEdit)
    requires ExactView(v, e)
    ensures ApplyView(v, e).Some? && ApplyView(ApplyView(v, e).value, InvertView(e)) == Some(v)
  {
    match e {
      case Rows(l) => ListUndone(v.rows, l);
      case Columns(l) => ListUndone(v.columns, l);
      case GroupRules(l) => ListUndone(v.groupInfo.value, l);
      case SortRules(l) => ListUndone(v.sortInfo.value.rules, l);
      case _ =>
    }
  }

  lemma StoreUndone<T>(m: map<Id, T>, k: Id, x: Option<T>)
    ensures Store(Store(m, k, x), k, Lookup(m, k)) == m
  {
  }

  /** The inverse of an exact action takes the snapshot back. */
  lemma ActionUndone(s: Snapshot, a: Action)
    requires Exact(s, a)
    ensures Apply(s, a).Some? && Apply(Apply(s, a).value, Invert(a)) == Some(s)
  {
    match a {
      case OnView(i, e) =>
        ViewUndone(s.views[i], e);
        var v := ApplyView(s.views[i], e).value;
        assert s.views[i := v][i := s.views[i]] == s.views;
      case OnField(k, e) =>
        StoreUndone(s.fieldMap, k, ApplySlot(e));
        SlotUndoneIff(Lookup(s.fieldMap, k), e);
      case OnRecord(k, e) =>
        StoreUndone(s.recordMap, k, ApplySlot(e));
        SlotUndoneIff(Lookup(s.recordMap, k), e);
      case OnCell(r, f, e) =>
        var rec := s.recordMap[r];
        StoreUndone(rec.data, f, ApplySlot(e));
        SlotUndoneIff(Lookup(rec.data, f), e);
        var rec' := rec.(data := Store(rec.data, f, ApplySlot(e)));
        assert rec'.(data := rec.data) == rec;
        assert s.recordMap[r := rec'][r := rec] == s.recordMap;
    }
  }

  /** The reversed inverse of exact actions restores the snapshot they started from. */
  lemma {:induction false} AllUndone(s: Snapshot, actions: seq<Action>)
    requires ExactAll(s, actions)
    ensures ApplyAll(s, actions).Some?
    ensures ApplyAll(ApplyAll(s, actions).value, InvertAll(actions)) == Some(s)
    decreases |actions|
  {
    if actions != [] {
      var t := Apply(s, actions[0]).value;
      AllUndone(t, actions[1..]);
      ActionUndone(s, actions[0]);
      ApplyAllConcat(ApplyAll(s, actions).value, InvertAll(actions[1..]), [Invert(actions[0])]);
      ApplyOne(t, Invert(actions[0]));
    }
  }

  lemma {:induction false} ExactAllConcat(s: Snapshot, xs: seq<Action>, ys: seq<Action>)
    requires ExactAll(s, xs) && ApplyAll(s, xs).Some?
    ensures ExactAll(s, xs + ys) <==> ExactAll(ApplyAll(s, xs).value, ys)
    decreases |xs|
  {
    if xs == [] {
      assert xs + ys == ys;
    } else {
      assert (xs + ys)[1..] == xs[1..] + ys;
      ExactAllConcat(Apply(s, xs[0]).value, xs[1..], ys);
    }
  }
}
