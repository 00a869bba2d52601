/** Deleting records: row by row or in bulk. */
module DeleteRecords {
  import opened Options
  import opened Datasheet
  import opened ViewEdits
  import opened Sequences

  function Kept(rows: seq<Row>, del: set<Id>): seq<Row> {
    if rows == [] then []
    else (if rows[0].recordId in del then [] else [rows[0]]) + Kept(rows[1..], del)
  }

  /** One ListDelete per doomed row, at the place it has once the doomed rows in front of it
      are gone; `at` is the place of the first row. */
  function RowDeletes(rows: seq<Row>, del: set<Id>, at: nat): seq<ViewEdit>
    decreases |rows|
  {
    if rows == [] then []
    else if rows[0].recordId in del then [Rows(LD(at, rows[0]))] + RowDeletes(rows[1..], del, at)
    else RowDeletes(rows[1..], del, at + 1)
  }

  function OneByOne(del: set<Id>): View -> seq<ViewEdit> {
    (v: View) => RowDeletes(v.rows, del, 0)
  }

  function InBulk(del: set<Id>): View -> seq<ViewEdit> {
    (v: View) => [AllRows(v.rows, Kept(v.rows, del))]
  }

  /** When the rows of every view are replaced instead of deleted one by one. */
  predicate BulkCheaper(deleted: nat, total: nat) {
    (2 * deleted > total && total > 100) || deleted > 500
  }

  /** The record as it is recorded for undoing: its editable cells. */
  function Recorded(r: Record, editable: set<Id>): Record {
    r.(data := map f | f in r.data && f in editable :: r.data[f])
  }

  function RecordDelete(m: map<Id, Record>, id: Id, editable: set<Id>): seq<Action> {
    if id in m then [OnRecord(id, OD(Recorded(m[id], editable)))] else []
  }

  function RecordDeletes(m: map<Id, Record>, ids: seq<Id>, editable: set<Id>): seq<Action> {
    if ids == [] then [] else RecordDelete(m, ids[0], editable) + RecordDeletes(m, ids[1..], editable)
  }

  function RowActions(s: Snapshot, del: set<Id>): seq<Action> {
    AllViews(if BulkCheaper(|del|, |s.recordMap|) then InBulk(del) else OneByOne(del), s.views, 0)
  }

  function DeleteActions(s: Snapshot, ids: seq<Id>, editable: set<Id>): seq<Action> {
    RowActions(s, ToSet(ids)) + RecordDeletes(s.recordMap, ids, editable)
  }

  // ---------------------------------------------------------------- the rows

  lemma RemoveMiddle(xs: seq<Row>, ys: seq<Row>)
    requires ys != []
    ensures (xs + ys)[|xs|] == ys[0] && RemoveAt(xs + ys, |xs|) == xs + ys[1..]
  {
  }

  lemma KeptFrom(rows: seq<Row>, del: set<Id>, i: nat)
    requires i < |rows|
    ensures rows[i..] == [rows[i]] + rows[i + 1..]
    ensures Kept(rows[i..], del) == (if rows[i].recordId in del then [] else [rows[i]]) + Kept(rows[i + 1..], del)
  {
    assert rows[i..][1..] == rows[i + 1..];
  }

  /** Deleting a doomed row behind the kept ones. */
  lemma RowGoes(v: View, kept: seq<Row>, row: Row, rest: seq<Row>)
    requires v.rows == kept + ([row] + rest)
    ensures var e := Rows(LD(|kept|, row));
            ApplyView(v, e) == Some(v.(rows := kept + rest)) && ExactView(v, e)
  {
    RemoveMiddle(kept, [row] + rest);
    assert ([row] + rest)[1..] == rest;
  }

  /** Behind the rows kept so far, the deletes hit the right rows, in range and with the right
      old value, and keep the rest. */
  lemma {:induction false} RowDeletesApply(v: View, kept: seq<Row>, rows: seq<Row>, del: set<Id>)
    requires v.rows == kept + rows
    ensures Takes(v, RowDeletes(rows, del, |kept|), v.(rows := kept + Kept(rows, del)))
    decreases |rows|
  {
    if rows == [] {
      TakesNothing(v);
    } else {
      assert rows == [rows[0]] + rows[1..];
      var rest := Kept(rows[1..], del);
      if rows[0].recordId in del {
        var w := v.(rows := kept + rows[1..]);
        RowGoes(v, kept, rows[0], rows[1..]);
        RowDeletesApply(w, kept, rows[1..], del);
        TakesCons(v, Rows(LD(|kept|, rows[0])), w, RowDeletes(rows[1..], del, |kept|), w.(rows := kept + rest));
        assert [] + rest == rest;
      } else {
        Associates(kept, [rows[0]], rows[1..]);
        RowDeletesApply(v, kept + [rows[0]], rows[1..], del);
        Associates(kept, [rows[0]], rest);
      }
    }
  }

  function WithoutRows(views: seq<View>, del: set<Id>): (r: seq<View>)
    ensures |r| == |views|
    ensures forall i :: 0 <= i < |views| ==> r[i] == views[i].(rows := Kept(views[i].rows, del))
  {
    seq(|views|, i requires 0 <= i < |views| => views[i].(rows := Kept(views[i].rows, del)))
  }

  lemma OneByOneOnView(v: View, del: set<Id>)
    ensures ApplyEdits(v, OneByOne(del)(v)) == Some(v.(rows := Kept(v.rows, del)))
    ensures ExactEdits(v, OneByOne(del)(v))
  {
    assert [] + v.rows == v.rows;
    RowDeletesApply(v, [], v.rows, del);
    assert [] + Kept(v.rows, del) == Kept(v.rows, del);
  }

  lemma InBulkOnView(v: View, del: set<Id>)
    ensures ApplyEdits(v, InBulk(del)(v)) == Some(v.(rows := Kept(v.rows, del)))
    ensures ExactEdits(v, InBulk(del)(v))
  {
    OneEdit(v, AllRows(v.rows, Kept(v.rows, del)));
  }

  /** The edits g makes for a view take away its doomed rows, exactly. */
  ghost predicate TakesDoomed(g: View -> seq<ViewEdit>, del: set<Id>, v: View) {
    ApplyEdits(v, g(v)) == Some(v.(rows := Kept(v.rows, del))) && ExactEdits(v, g(v))
  }

  lemma StrategyApplies(s: Snapshot, g: View -> seq<ViewEdit>, del: set<Id>)
    requires forall v :: TakesDoomed(g, del, v)
    ensures ApplyAll(s, AllViews(g, s.views, 0)) == Some(s.(views := WithoutRows(s.views, del)))
    ensures ExactAll(s, AllViews(g, s.views, 0))
  {
    forall i | 0 <= i < |s.views|
      ensures ApplyEdits(s.views[i], g(s.views[i])) == Some(WithoutRows(s.views, del)[i])
      ensures ExactEdits(s.views[i], g(s.views[i]))
    {
      assert TakesDoomed(g, del, s.views[i]);
    }
    AllViewsToExactly(s, g, WithoutRows(s.views, del));
  }

  lemma OneByOneApplies(s: Snapshot, del: set<Id>)
    ensures ApplyAll(s, AllViews(OneByOne(del), s.views, 0)) == Some(s.(views := WithoutRows(s.views, del)))
    ensures ExactAll(s, AllViews(OneByOne(del), s.views, 0))
  {
    forall v ensures TakesDoomed(OneByOne(del), del, v) {
      OneByOneOnView(v, del);
    }
    StrategyApplies(s, OneByOne(del), del);
  }

  lemma InBulkApplies(s: Snapshot, del: set<Id>)
    ensures ApplyAll(s, AllViews(InBulk(del), s.views, 0)) == Some(s.(views := WithoutRows(s.views, del)))
    ensures ExactAll(s, AllViews(InBulk(del), s.views, 0))
  {
    forall v ensures TakesDoomed(InBulk(del), del, v) {
      InBulkOnView(v, del);
    }
    StrategyApplies(s, InBulk(del), del);
  }

  /** Deleting rows one by one and replacing them in bulk reach the same snapshot, in
      which every view has lost exactly the doomed rows; both lists apply in range and
      record exactly what they find. */
  lemma StrategiesAgree(s: Snapshot, del: set<Id>)
    ensures ApplyAll(s, AllViews(OneByOne(del), s.views, 0)) == Some(s.(views := WithoutRows(s.views, del)))
    ensures ApplyAll(s, AllViews(InBulk(del), s.views, 0)) == Some(s.(views := WithoutRows(s.views, del)))
    ensures ExactAll(s, AllViews(OneByOne(del), s.views, 0)) && ExactAll(s, AllViews(InBulk(del), s.views, 0))
  {
    OneByOneApplies(s, del);
    InBulkApplies(s, del);
  }

  // ---------------------------------------------------------------- the records

  lemma RecordDeleteApplies(s: Snapshot, m: map<Id, Record>, id: Id, editable: set<Id>)
    requires s.recordMap.Keys <= m.Keys
    ensures ApplyAll(s, RecordDelete(m, id, editable)) == Some(s.(recordMap := s.recordMap - {id}))
  {
    if id in m {
      ApplyOne(s, OnRecord(id, OD(Recorded(m[id], editable))));
    } else {
      assert s.recordMap - {id} == s.recordMap;
    }
  }

  lemma {:induction false} RecordDeletesApply(s: Snapshot, m: map<Id, Record>, ids: seq<Id>, editable: set<Id>)
    requires s.recordMap.Keys <= m.Keys
    ensures ApplyAll(s, RecordDeletes(m, ids, editable)) == Some(s.(recordMap := s.recordMap - ToSet(ids)))
    decreases |ids|
  {
    if ids == [] {
      assert ToSet(ids) == {};
      assert s.recordMap - {} == s.recordMap;
    } else {
      var t := s.(recordMap := s.recordMap - {ids[0]});
      RecordDeleteApplies(s, m, ids[0], editable);
      RecordDeletesApply(t, m, ids[1..], editable);
      ApplyAllConcat(s, RecordDelete(m, ids[0], editable), RecordDeletes(m, ids[1..], editable));
      assert ToSet(ids) == {ids[0]} + ToSet(ids[1..]);
      assert t.recordMap - ToSet(ids[1..]) == s.recordMap - ToSet(ids);
    }
  }

  function Deleted(s: Snapshot, ids: seq<Id>): Snapshot {
    s.(views := WithoutRows(s.views, ToSet(ids)), recordMap := s.recordMap - ToSet(ids))
  }

  lemma RowActionsApply(s: Snapshot, del: set<Id>)
    ensures ApplyAll(s, RowActions(s, del)) == Some(s.(views := WithoutRows(s.views, del)))
    ensures ExactAll(s, RowActions(s, del))
  {
    StrategiesAgree(s, del);
  }

  /** Whichever strategy is chosen, the records and their rows are gone and nothing else
      has changed. */
  lemma DeleteActionsApply(s: Snapshot, ids: seq<Id>, editable: set<Id>)
    ensures ApplyAll(s, DeleteActions(s, ids, editable)) == Some(Deleted(s, ids))
  {
    RowActionsApply(s, ToSet(ids));
    ApplyAllConcat(s, RowActions(s, ToSet(ids)), RecordDeletes(s.recordMap, ids, editable));
    RecordDeletesApply(s.(views := WithoutRows(s.views, ToSet(ids))), s.recordMap, ids, editable);
  }

  // ---------------------------------------------------------------- undoing

  /** Every cell of a deleted record can be edited, so is recorded. */
  predicate AllEditable(m: map<Id, Record>, ids: seq<Id>, editable: set<Id>) {
    forall i :: 0 <= i < |ids| && ids[i] in m ==> m[ids[i]].data.Keys <= editable
  }

  /** The records that undoing puts back. */
  function PutBack(m: map<Id, Record>, ids: seq<Id>, editable: set<Id>): map<Id, Record> {
    map r | r in m && r in ids :: Recorded(m[r], editable)
  }

  lemma PutBackCons(base: map<Id, Record>, m: map<Id, Record>, ids: seq<Id>, editable: set<Id>)
    requires ids != []
    ensures base + PutBack(m, ids, editable) ==
            if ids[0] in m then (base + PutBack(m, ids[1..], editable))[ids[0] := Recorded(m[ids[0]], editable)]
            else base + PutBack(m, ids[1..], editable)
  {
    assert forall r :: r in ids <==> r == ids[0] || r in ids[1..];
  }

  /** Undoing the record deletes puts back the recorded records. */
  lemma {:induction false} RecordDeletesUndone(s: Snapshot, m: map<Id, Record>, ids: seq<Id>, editable: set<Id>)
    ensures ApplyAll(s, InvertAll(RecordDeletes(m, ids, editable))) ==
            Some(s.(recordMap := s.recordMap + PutBack(m, ids, editable)))
    decreases |ids|
  {
    if ids == [] {
      assert s.recordMap + PutBack(m, ids, editable) == s.recordMap;
    } else {
      var rest := RecordDeletes(m, ids[1..], editable);
      RecordDeletesUndone(s, m, ids[1..], editable);
      PutBackCons(s.recordMap, m, ids, editable);
      var t := s.(recordMap := s.recordMap + PutBack(m, ids[1..], editable));
      if ids[0] in m {
        var a := OnRecord(ids[0], OD(Recorded(m[ids[0]], editable)));
        assert ([a] + rest)[1..] == rest;
        ApplyAllConcat(s, InvertAll(rest), [Invert(a)]);
        ApplyOne(t, Invert(a));
      } else {
        assert [] + rest == rest;
      }
    }
  }

  function Restored(m: map<Id, Record>, ids: seq<Id>, editable: set<Id>): map<Id, Record> {
    map r | r in m :: if r in ids then Recorded(m[r], editable) else m[r]
  }

  lemma PutBackAll(m: map<Id, Record>, ids: seq<Id>, editable: set<Id>)
    ensures (m - ToSet(ids)) + PutBack(m, ids, editable) == Restored(m, ids, editable)
  {
  }

  lemma RowActionsUndone(s: Snapshot, records: map<Id, Record>, del: set<Id>)
    requires records.Keys == s.recordMap.Keys
    ensures ApplyAll(s.(views := WithoutRows(s.views, del), recordMap := records), InvertAll(RowActions(s, del))) ==
            Some(s.(recordMap := records))
  {
    var t := s.(recordMap := records);
    RowActionsOther(s, t, del);
    RowActionsApply(t, del);
    AllUndone(t, RowActions(t, del));
  }

  lemma DeleteUndone(s: Snapshot, ids: seq<Id>, editable: set<Id>)
    ensures ApplyAll(Deleted(s, ids), InvertAll(DeleteActions(s, ids, editable))) ==
            Some(s.(recordMap := Restored(s.recordMap, ids, editable)))
  {
    var rows, records := RowActions(s, ToSet(ids)), RecordDeletes(s.recordMap, ids, editable);
    InvertAllConcat(rows, records);
    ApplyAllConcat(Deleted(s, ids), InvertAll(records), InvertAll(rows));
    RecordDeletesUndone(Deleted(s, ids), s.recordMap, ids, editable);
    PutBackAll(s.recordMap, ids, editable);
    RowActionsUndone(s, Restored(s.recordMap, ids, editable), ToSet(ids));
  }

  lemma RowActionsOther(s: Snapshot, t: Snapshot, del: set<Id>)
    requires s.views == t.views && s.recordMap.Keys == t.recordMap.Keys
    ensures RowActions(s, del) == RowActions(t, del)
  {
    SameSize(s.recordMap, t.recordMap);
  }

  lemma SameSize(m: map<Id, Record>, n: map<Id, Record>)
    requires m.Keys == n.Keys
    ensures |m| == |n|
  {
    assert |m| == |m.Keys| && |n| == |n.Keys|;
  }

  lemma RestoredIff(m: map<Id, Record>, ids: seq<Id>, editable: set<Id>)
    ensures Restored(m, ids, editable) == m <==> AllEditable(m, ids, editable)
  {
    var restored := Restored(m, ids, editable);
    if AllEditable(m, ids, editable) {
      forall r | r in m ensures restored[r] == m[r] {
        if r in ids {
          assert Recorded(m[r], editable).data == m[r].data;
        }
      }
    } else {
      var i :| 0 <= i < |ids| && ids[i] in m && !(m[ids[i]].data.Keys <= editable);
      var f :| f in m[ids[i]].data && f !in editable;
      assert f !in restored[ids[i]].data;
    }
  }

  /** Deleting and then undoing restores the snapshot if and only if every cell of the
      deleted records can be edited; the other cells are lost. */
  lemma DeleteUndoneIff(s: Snapshot, ids: seq<Id>, editable: set<Id>)
    ensures ApplyAll(Deleted(s, ids), InvertAll(DeleteActions(s, ids, editable))) == Some(s) <==>
            AllEditable(s.recordMap, ids, editable)
  {
    DeleteUndone(s, ids, editable);
    RestoredIff(s.recordMap, ids, editable);
    var t := s.(recordMap := Restored(s.recordMap, ids, editable));
    assert t == s <==> t.recordMap == s.recordMap;
  }

  // ---------------------------------------------------------------- what it comes to

  /** Deleting and then undoing, on the snapshots reached: every view is as it was, every record
      is there under its id, one that was not deleted is as it was, and of a deleted one
      exactly the editable cells are. */
  lemma DeletedAndUndone(s: Snapshot, ids: seq<Id>, editable: set<Id>)
    ensures var actions := DeleteActions(s, ids, editable);
            && ApplyAll(s, actions).Some?
            && var u := ApplyAll(ApplyAll(s, actions).value, InvertAll(actions));
            && u.Some? && u.value == s.(recordMap := u.value.recordMap)
            && u.value.recordMap.Keys == s.recordMap.Keys
            && forall r :: r in s.recordMap ==>
                 var before, after := s.recordMap[r], u.value.recordMap[r];
                 && after.id == before.id
                 && (r !in ids ==> after == before)
                 && (r in ids ==>
                       forall f :: Lookup(after.data, f) == if f in editable then Lookup(before.data, f) else None)
  {
    DeleteActionsApply(s, ids, editable);
    DeleteUndone(s, ids, editable);
  }

  /** After deleting, no view shows a deleted record and no deleted record is left; every other
      record, and every other row of a view in its order, stays. */
  lemma DeletedMeans(s: Snapshot, ids: seq<Id>, editable: set<Id>)
    ensures var t := ApplyAll(s, DeleteActions(s, ids, editable));
            && t.Some?
            && t.value == s.(views := t.value.views, recordMap := t.value.recordMap)
            && (forall r :: Lookup(t.value.recordMap, r) == if r in ids then None else Lookup(s.recordMap, r))
            && |t.value.views| == |s.views|
            && forall i :: 0 <= i < |s.views| ==>
                 t.value.views[i] == s.views[i].(rows := Kept(s.views[i].rows, ToSet(ids)))
  {
    DeleteActionsApply(s, ids, editable);
  }

  lemma KeptOne(row: Row, del: set<Id>)
    ensures Kept([row], del) == if row.recordId in del then [] else [row]
  {
    assert [row][1..] == [];
  }

  /** Of two stretches of rows those that are not deleted stay, in their order. */
  lemma {:induction false} KeptInOrder(xs: seq<Row>, ys: seq<Row>, del: set<Id>)
    ensures Kept(xs + ys, del) == Kept(xs, del) + Kept(ys, del)
  {
    if xs == [] {
      assert xs + ys == ys;
    } else {
      assert (xs + ys)[1..] == xs[1..] + ys;
      KeptInOrder(xs[1..], ys, del);
    }
  }

  lemma {:induction false} RowDeletesCount(rows: seq<Row>, del: set<Id>, at: nat)
    ensures |RowDeletes(rows, del, at)| == |rows| - |Kept(rows, del)|
    decreases |rows|
  {
    if rows != [] {
      RowDeletesCount(rows[1..], del, if rows[0].recordId in del then at else at + 1);
    }
  }

  /** A view costs one action in bulk, and otherwise one for every row that goes.  It is in bulk
      that more than half of more than 100 records are deleted, or more than 500 of any. */
  lemma ActionsPerView(s: Snapshot, ids: seq<Id>, editable: set<Id>)
    ensures var n, total := |ToSet(ids)|, |s.recordMap|;
            var bulk := (n > total - n && total >= 101) || n >= 501;
            var edits := if bulk then InBulk(ToSet(ids)) else OneByOne(ToSet(ids));
            && DeleteActions(s, ids, editable) ==
               AllViews(edits, s.views, 0) + RecordDeletes(s.recordMap, ids, editable)
            && forall v :: |InBulk(ToSet(ids))(v)| == 1 &&
                           |OneByOne(ToSet(ids))(v)| == |v.rows| - |Kept(v.rows, ToSet(ids))|
  {
    forall v ensures |OneByOne(ToSet(ids))(v)| == |v.rows| - |Kept(v.rows, ToSet(ids))| {
      RowDeletesCount(v.rows, ToSet(ids), 0);
    }
  }
}
