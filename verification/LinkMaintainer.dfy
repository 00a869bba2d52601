/** Collects link changes during one command and turns them into actions once. */
module LinkMaintainer {
  import opened Options
  import opened LinkedData
  import opened Sequences

  type FieldChanges = map<Id, Change>             // by linked record
  type DatasheetChanges = map<Id, FieldChanges>   // by brother field
  type LinkedChange = map<Id, DatasheetChanges>   // by datasheet

  ghost function OfDatasheet(d: DatasheetChanges): Deltas {
    map f, r | f in d && r in d[f] :: Key(r, f) := d[f][r]
  }

  ghost function Flat(n: LinkedChange): Changes {
    map d, f, r | d in n && f in n[d] && r in n[d][f] :: CellId(d, Key(r, f)) := n[d][f][r]
  }

  function At(n: LinkedChange, c: CellId): Option<Change> {
    if c.dst in n && c.key.field in n[c.dst] && c.key.rec in n[c.dst][c.key.field]
    then Some(n[c.dst][c.key.field][c.key.rec]) else None
  }

  lemma FlatAt(n: LinkedChange, c: CellId)
    ensures c in Flat(n) <==> At(n, c).Some?
    ensures c in Flat(n) ==> Flat(n)[c] == At(n, c).value
    ensures ChangeAt(Flat(n), c) == if At(n, c).Some? then At(n, c).value else Change([], {})
  {
    assert c == CellId(c.dst, Key(c.key.rec, c.key.field));
  }

  /** The nested maps after one cell's entry has been created or replaced. */
  function Put(n: LinkedChange, c: CellId, ch: Change): LinkedChange {
    var datasheet := if c.dst in n then n[c.dst] else map[];
    var brotherField := if c.key.field in datasheet then datasheet[c.key.field] else map[];
    n[c.dst := datasheet[c.key.field := brotherField[c.key.rec := ch]]]
  }

  lemma PutAt(n: LinkedChange, c: CellId, ch: Change, x: CellId)
    ensures At(Put(n, c, ch), x) == if x == c then Some(ch) else At(n, x)
  {
  }

  function Found<K, V>(m: map<K, V>, k: K): Option<V> {
    if k in m then Some(m[k]) else None
  }

  lemma SameMap<K, V>(m: map<K, V>, n: map<K, V>)
    requires forall k :: Found(m, k) == Found(n, k)
    ensures m == n
  {
    forall k ensures k in m <==> k in n {
      assert Found(m, k) == Found(n, k);
    }
    forall k | k in m ensures m[k] == n[k] {
      assert Found(m, k) == Found(n, k);
    }
  }

  lemma FlatFound(n: LinkedChange, c: CellId)
    ensures Found(Flat(n), c) == At(n, c)
  {
    FlatAt(n, c);
  }

  lemma PutFlat(n: LinkedChange, c: CellId, ch: Change)
    ensures Flat(Put(n, c, ch)) == Flat(n)[c := ch]
  {
    forall x ensures Found(Flat(Put(n, c, ch)), x) == Found(Flat(n)[c := ch], x) {
      calc {
        Found(Flat(Put(n, c, ch)), x);
        { FlatFound(Put(n, c, ch), x); }
        At(Put(n, c, ch), x);
        { PutAt(n, c, ch, x); }
        if x == c then Some(ch) else At(n, x);
        { FlatFound(n, x); }
        Found(Flat(n)[c := ch], x);
      }
    }
    SameMap(Flat(Put(n, c, ch)), Flat(n)[c := ch]);
  }

  datatype LinkedAction = LinkedAction(datasheetId: Id, actions: seq<CellAction>)

  /** The datasheet has an action list. */
  predicate Lists(linkedActions: seq<LinkedAction>, dst: Id) {
    exists i :: 0 <= i < |linkedActions| && linkedActions[i].datasheetId == dst
  }

  lemma ListsOneMore(linkedActions: seq<LinkedAction>, a: LinkedAction)
    ensures forall d :: Lists(linkedActions + [a], d) <==> Lists(linkedActions, d) || d == a.datasheetId
  {
    var more := linkedActions + [a];
    assert more[|linkedActions|] == a;
    forall d | Lists(linkedActions, d) ensures Lists(more, d) {
      var i :| 0 <= i < |linkedActions| && linkedActions[i].datasheetId == d;
      assert more[i].datasheetId == d;
    }
    forall d | Lists(more, d) && d != a.datasheetId ensures Lists(linkedActions, d) {
      var i :| 0 <= i < |more| && more[i].datasheetId == d;
      assert linkedActions[i].datasheetId == d;
    }
  }

  /** All but the datasheets still to do have their action list. */
  ghost predicate Partial(
    state: map<Id, Snapshot>, changes: LinkedChange, todo: set<Id>, linkedActions: seq<LinkedAction>)
  {
    && todo <= changes.Keys && |linkedActions| + |todo| == |changes|
    && (forall d :: d in changes && d !in todo <==> Lists(linkedActions, d))
    && (forall i :: 0 <= i < |linkedActions| ==>
          linkedActions[i].datasheetId in changes &&
          FlushedBy(state, linkedActions[i], changes[linkedActions[i].datasheetId]))
  }

  lemma PartialNext(
    state: map<Id, Snapshot>, changes: LinkedChange, todo: set<Id>, linkedActions: seq<LinkedAction>, a: LinkedAction)
    requires Partial(state, changes, todo, linkedActions)
    requires a.datasheetId in todo && FlushedBy(state, a, changes[a.datasheetId])
    ensures Partial(state, changes, todo - {a.datasheetId}, linkedActions + [a])
  {
    ListsOneMore(linkedActions, a);
  }

  class LinkedDataConformanceMaintainer {
    var linkedChange: LinkedChange

    constructor ()
      ensures Contents() == map[]
    {
      linkedChange := map[];
    }

    ghost function Contents(): Changes
      reads this
    {
      Flat(linkedChange)
    }

    /** Notes one record id as added to or removed from a linked cell. */
    method InsertLinkedRecordChange(datasheetId: Id, brotherFieldId: Id, linkedRecordId: Id, recordId: Id, isAdd: bool)
      modifies this
      ensures Contents() ==
              NoteOne(old(Contents()), CellId(datasheetId, Key(linkedRecordId, brotherFieldId)), recordId, isAdd)
    {
      var datasheet := if datasheetId in linkedChange then linkedChange[datasheetId] else map[];
      var brotherField := if brotherFieldId in datasheet then datasheet[brotherFieldId] else map[];
      var linkedRecord := if linkedRecordId in brotherField then brotherField[linkedRecordId] else Change([], {});
      if isAdd {
        linkedRecord :=
            linkedRecord.(add := if recordId in linkedRecord.add then linkedRecord.add
                                 else linkedRecord.add + [recordId]);
      } else {
        linkedRecord := linkedRecord.(del := linkedRecord.del + {recordId});
      }
      ghost var c := CellId(datasheetId, Key(linkedRecordId, brotherFieldId));
      FlatAt(linkedChange, c);
      PutFlat(linkedChange, c, linkedRecord);
      brotherField := brotherField[linkedRecordId := linkedRecord];
      datasheet := datasheet[brotherFieldId := brotherField];
      linkedChange := linkedChange[datasheetId := datasheet];
    }

    method InsertAdds(datasheetId: Id, brotherFieldId: Id, toAdd: seq<Id>, recordId: Id)
      modifies this
      ensures Contents() == NoteAdds(old(Contents()), datasheetId, brotherFieldId, toAdd, recordId)
    {
      for i := 0 to |toAdd|
        invariant NoteAdds(old(Contents()), datasheetId, brotherFieldId, toAdd, recordId) ==
                  NoteAdds(Contents(), datasheetId, brotherFieldId, toAdd[i..], recordId)
      {
        assert toAdd[i..][1..] == toAdd[i + 1..];
        InsertLinkedRecordChange(datasheetId, brotherFieldId, toAdd[i], recordId, true);
      }
      assert toAdd[|toAdd|..] == [];
    }

    method InsertDels(other: Snapshot, datasheetId: Id, brotherFieldId: Id, toDel: seq<Id>, recordId: Id)
      modifies this
      ensures Contents() == NoteDels(old(Contents()), other, datasheetId, brotherFieldId, toDel, recordId)
    {
      for i := 0 to |toDel|
        invariant NoteDels(old(Contents()), other, datasheetId, brotherFieldId, toDel, recordId) ==
                  NoteDels(Contents(), other, datasheetId, brotherFieldId, toDel[i..], recordId)
      {
        assert toDel[i..][1..] == toDel[i + 1..];
        if recordId in Links(other, Key(toDel[i], brotherFieldId)) {
          InsertLinkedRecordChange(datasheetId, brotherFieldId, toDel[i], recordId, false);
        }
      }
      assert toDel[|toDel|..] == [];
    }

    /** Compares a link cell's new and old value and notes the difference at the other
        end. */
    method InsertCell(other: Snapshot, recordId: Id, fieldId: Id, foreignDatasheetId: Id, brother: Option<Id>,
                      value: Option<seq<Id>>, oldValue: Option<seq<Id>>)
      modifies this
      ensures Contents() == Insert(old(Contents()), other, foreignDatasheetId,
                                   if brother.Some? then brother.value else fieldId, recordId,
                                   if value.Some? then value.value else [],
                                   if oldValue.Some? then oldValue.value else [])
    {
      var brotherFieldId := if brother.Some? then brother.value else fieldId;
      if value.None? && oldValue.None? {
        return;
      }
      var after := if value.Some? then value.value else [];
      var before := if oldValue.Some? then oldValue.value else [];
      InsertAdds(foreignDatasheetId, brotherFieldId, Without(after, ToSet(before)), recordId);
      InsertDels(other, foreignDatasheetId, brotherFieldId, Without(before, ToSet(after)), recordId);
    }

    /** Turns everything noted into actions, one list per datasheet, and forgets it.  A
        datasheet's actions take it to exactly the snapshot the notes describe. */
    method FlushLinkedActions(state: map<Id, Snapshot>) returns (linkedActions: seq<LinkedAction>)
      modifies this
      ensures Contents() == map[]
      ensures |linkedActions| == |old(linkedChange)|
      ensures forall d :: d in old(linkedChange) <==> Lists(linkedActions, d)
      ensures forall i :: 0 <= i < |linkedActions| ==>
                linkedActions[i].datasheetId in old(linkedChange) &&
                FlushedBy(state, linkedActions[i], old(linkedChange)[linkedActions[i].datasheetId])
    {
      linkedActions := [];
      var todo := linkedChange.Keys;
      while todo != {}
        invariant linkedChange == old(linkedChange) && Partial(state, linkedChange, todo, linkedActions)
      {
        var datasheetId :| datasheetId in todo;
        var actions := [];
        if datasheetId in state {
          actions := FlushDatasheet(state[datasheetId], linkedChange[datasheetId]);
        }
        PartialNext(state, linkedChange, todo, linkedActions, LinkedAction(datasheetId, actions));
        linkedActions := linkedActions + [LinkedAction(datasheetId, actions)];
        todo := todo - {datasheetId};
      }
      assert linkedChange.Keys - todo == linkedChange.Keys;
      linkedChange := map[];
    }
  }

  ghost predicate FlushedBy(state: map<Id, Snapshot>, la: LinkedAction, changes: DatasheetChanges) {
    if la.datasheetId in state
    then ApplyCells(state[la.datasheetId], la.actions) == Flushed(state[la.datasheetId], OfDatasheet(changes))
    else la.actions == []
  }

  /** Every action is computed on the snapshot as it was; applied in order they add up. */
  method FlushDatasheet(snapshot: Snapshot, datasheet: DatasheetChanges) returns (actions: seq<CellAction>)
    ensures ApplyCells(snapshot, actions) == Flushed(snapshot, OfDatasheet(datasheet))
  {
    actions := [];
    FlushedNothing(snapshot);
    ghost var done: Deltas := map[];
    var fields := datasheet.Keys;
    while fields != {}
      invariant fields <= datasheet.Keys
      invariant ApplyCells(snapshot, actions) == Flushed(snapshot, done)
      invariant forall k :: k in done <==> k.field in datasheet.Keys - fields && k.rec in datasheet[k.field]
      invariant forall k :: k in done ==> done[k] == datasheet[k.field][k.rec]
    {
      var fieldId :| fieldId in fields;
      var field := datasheet[fieldId];
      var recs := field.Keys;
      while recs != {}
        invariant recs <= field.Keys
        invariant ApplyCells(snapshot, actions) == Flushed(snapshot, done)
        invariant forall k :: k in done <==>
                    || (k.field in datasheet.Keys - fields && k.rec in datasheet[k.field])
                    || (k.field == fieldId && k.rec in field.Keys - recs)
        invariant forall k :: k in done ==> done[k] == datasheet[k.field][k.rec]
      {
        var recordId :| recordId in recs;
        ghost var before := done;
        actions, done := FlushCell(snapshot, Key(recordId, fieldId), field[recordId], actions, done);
        recs := recs - {recordId};
      }
      fields := fields - {fieldId};
    }
    SameDeltas(done, datasheet);
  }

  lemma SameDeltas(done: Deltas, datasheet: DatasheetChanges)
    requires forall k :: k in done <==> k.field in datasheet && k.rec in datasheet[k.field]
    requires forall k :: k in done ==> done[k] == datasheet[k.field][k.rec]
    ensures done == OfDatasheet(datasheet)
  {
    forall k ensures k in done <==> k in OfDatasheet(datasheet) {
      assert k == Key(k.rec, k.field);
    }
  }

  /** The action for one linked cell, appended when there is one. */
  method FlushCell(snapshot: Snapshot, k: Key, change: Change, actions: seq<CellAction>, ghost done: Deltas)
    returns (actions': seq<CellAction>, ghost done': Deltas)
    requires k !in done && ApplyCells(snapshot, actions) == Flushed(snapshot, done)
    ensures done' == done[k := change] && ApplyCells(snapshot, actions') == Flushed(snapshot, done')
  {
    FlushedOneMore(snapshot, done, k, change);
    actions', done' := actions, done[k := change];
    if k.rec in snapshot.records {
      var links := if k.field in snapshot.linkFields then Links(snapshot, k) else [];
      var value := Without(links, change.del) + change.add;
      SetRecordSets(snapshot, Flushed(snapshot, done), k, value);
      var action := SetRecord2Action(snapshot, k, ToCell(value));
      if action.Some? {
        ApplyCellsSnoc(snapshot, actions, action.value);
        actions' := actions + [action.value];
      }
    }
  }
}
