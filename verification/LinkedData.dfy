/** Two-way link cells: deltas collected per linked cell while a command runs, and
    flushed into the linked datasheets once. */
module LinkedData {
  import opened Options
  import opened Sequences

  type Id = string

  datatype Key = Key(rec: Id, field: Id)

  /** The records of a datasheet and its link cells; an absent cell is an empty one. */
  datatype Snapshot = Snapshot(linkFields: set<Id>, records: set<Id>, cells: map<Key, seq<Id>>)

  function Cell(s: Snapshot, k: Key): Option<seq<Id>> {
    if k in s.cells then Some(s.cells[k]) else None
  }

  /** The linked record ids in a cell. */
  function Links(s: Snapshot, k: Key): seq<Id> {
    if k in s.cells then s.cells[k] else []
  }

  /** xs without the elements of ys. */
  function Without<T(==,!new)>(xs: seq<T>, ys: set<T>): (r: seq<T>)
    ensures forall x :: x in r <==> x in xs && x !in ys
  {
    if xs == [] then []
    else (if xs[0] in ys then [] else [xs[0]]) + Without(xs[1..], ys)
  }

  predicate DupFree(xs: seq<Id>) {
    forall i, j :: 0 <= i < j < |xs| ==> xs[i] != xs[j]
  }

  lemma {:induction false} WithoutDupFree(xs: seq<Id>, ys: set<Id>)
    requires DupFree(xs)
    ensures DupFree(Without(xs, ys))
  {
    if xs != [] {
      assert forall i, j :: 0 <= i < j < |xs[1..]| ==> xs[1..][i] == xs[i + 1] && xs[1..][j] == xs[j + 1];
      WithoutDupFree(xs[1..], ys);
      assert xs[0] !in xs[1..];
    }
  }

  // ---------------------------------------------------------------- cell actions

  datatype CellAction =
    | CellInsert(key: Key, oi: seq<Id>)
    | CellDelete(key: Key, od: seq<Id>)
    | CellReplace(key: Key, od: seq<Id>, oi: seq<Id>)

  /** The action that gives a cell a value; an empty value removes the cell. */
  function SetRecord2Action(s: Snapshot, k: Key, value: Option<seq<Id>>): Option<CellAction> {
    if k.rec !in s.records then None
    else
      var oldValue := Cell(s, k);
      if oldValue == value then None
      else if value.None? || value.value == [] then Some(CellDelete(k, Links(s, k)))
      else if oldValue.None? then Some(CellInsert(k, value.value))
      else Some(CellReplace(k, oldValue.value, value.value))
  }

  function ApplyCell(s: Snapshot, a: CellAction): Snapshot {
    s.(cells := if a.CellDelete? then s.cells - {a.key} else s.cells[a.key := a.oi])
  }

  function ApplyCells(s: Snapshot, actions: seq<CellAction>): Snapshot
    decreases |actions|
  {
    if actions == [] then s else ApplyCells(ApplyCell(s, actions[0]), actions[1..])
  }

  lemma {:induction false} ApplyCellsSnoc(s: Snapshot, actions: seq<CellAction>, a: CellAction)
    ensures ApplyCells(s, actions + [a]) == ApplyCell(ApplyCells(s, actions), a)
    decreases |actions|
  {
    if actions == [] {
      assert [a][1..] == [];
      assert [] + [a] == [a];
    } else {
      assert (actions + [a])[1..] == actions[1..] + [a];
      ApplyCellsSnoc(ApplyCell(s, actions[0]), actions[1..], a);
    }
  }

  function ToCell(links: seq<Id>): Option<seq<Id>> {
    if links == [] then None else Some(links)
  }

  /** A snapshot with an existing record's cell given new links. */
  function WithLinks(s: Snapshot, k: Key, links: seq<Id>): Snapshot {
    if k.rec !in s.records then s
    else s.(cells := if links == [] then s.cells - {k} else s.cells[k := links])
  }

  /** The action, computed on an older snapshot in which this cell was the same, sets
      the cell and nothing else. */
  lemma SetRecordSets(s: Snapshot, now: Snapshot, k: Key, links: seq<Id>)
    requires s.records == now.records && Cell(s, k) == Cell(now, k)
    ensures var a := SetRecord2Action(s, k, ToCell(links));
            (if a.Some? then ApplyCell(now, a.value) else now) == WithLinks(now, k, links)
  {
    if Cell(now, k) == ToCell(links) {
      if links == [] {
        assert now.cells - {k} == now.cells;
      } else {
        assert now.cells[k := links] == now.cells;
      }
    }
  }

  // ---------------------------------------------------------------- collected deltas

  /** `add` keeps insertion order. */
  datatype Change = Change(add: seq<Id>, del: set<Id>)

  /** Noted changes of one datasheet, cell by cell. */
  type Deltas = map<Key, Change>

  /** Noted changes of all linked datasheets. */
  datatype CellId = CellId(dst: Id, key: Key)
  type Changes = map<CellId, Change>

  function ChangeAt(m: Changes, c: CellId): Change {
    if c in m then m[c] else Change([], {})
  }

  function Noted(ch: Change, rec: Id, isAdd: bool): Change {
    if isAdd then ch.(add := if rec in ch.add then ch.add else ch.add + [rec])
    else ch.(del := ch.del + {rec})
  }

  function NoteOne(m: Changes, c: CellId, rec: Id, isAdd: bool): Changes {
    m[c := Noted(ChangeAt(m, c), rec, isAdd)]
  }

  function NoteAdds(m: Changes, dst: Id, field: Id, linked: seq<Id>, rec: Id): Changes
    decreases |linked|
  {
    if linked == [] then m
    else NoteAdds(NoteOne(m, CellId(dst, Key(linked[0], field)), rec, true), dst, field, linked[1..], rec)
  }

  /** Removals are only noted where the linked cell does hold the record. */
  function NoteDels(m: Changes, other: Snapshot, dst: Id, field: Id, linked: seq<Id>, rec: Id): Changes
    decreases |linked|
  {
    if linked == [] then m
    else
      var k := Key(linked[0], field);
      NoteDels(if rec in Links(other, k) then NoteOne(m, CellId(dst, k), rec, false) else m,
               other, dst, field, linked[1..], rec)
  }

  /** One changed link cell: what its value gained and lost is noted at the other end. */
  function Insert(
    m: Changes, other: Snapshot, dst: Id, field: Id, rec: Id, value: seq<Id>, oldValue: seq<Id>): Changes {
    var m' := NoteAdds(m, dst, field, Without(value, ToSet(oldValue)), rec);
    NoteDels(m', other, dst, field, Without(oldValue, ToSet(value)), rec)
  }

  // ---------------------------------------------------------------- flushing

  /** The links a changed cell ends up with. */
  function NewLinks(s: Snapshot, k: Key, ch: Change): seq<Id> {
    var links := if k.field in s.linkFields then Links(s, k) else [];
    Without(links, ch.del) + ch.add
  }

  /** A cell after the noted changes; records that do not exist are passed over. */
  function FlushedCell(s: Snapshot, m: Deltas, k: Key): Option<seq<Id>> {
    if k in m && k.rec in s.records then ToCell(NewLinks(s, k, m[k])) else Cell(s, k)
  }

  function Flushed(s: Snapshot, m: Deltas): Snapshot {
    s.(cells := map k | k in s.cells.Keys + m.Keys && FlushedCell(s, m, k).Some? :: FlushedCell(s, m, k).value)
  }

  lemma FlushedIs(s: Snapshot, m: Deltas, k: Key)
    ensures Cell(Flushed(s, m), k) == FlushedCell(s, m, k)
  {
  }

  lemma SameCells(s: Snapshot, t: Snapshot)
    requires s.linkFields == t.linkFields && s.records == t.records
    requires forall k :: Cell(s, k) == Cell(t, k)
    ensures s == t
  {
    forall k ensures k in s.cells <==> k in t.cells {
      assert Cell(s, k) == Cell(t, k);
    }
    forall k | k in s.cells ensures s.cells[k] == t.cells[k] {
      assert Cell(s, k) == Cell(t, k);
    }
    assert s.cells == t.cells;
  }

  lemma FlushedNothing(s: Snapshot)
    ensures Flushed(s, map[]) == s
  {
    SameCells(Flushed(s, map[]), s);
  }

  /** Flushing one more cell. */
  lemma FlushedOneMore(s: Snapshot, m: Deltas, k: Key, ch: Change)
    requires k !in m
    ensures Flushed(s, m[k := ch]) == WithLinks(Flushed(s, m), k, NewLinks(s, k, ch))
    ensures Cell(Flushed(s, m), k) == Cell(s, k)
  {
    var m' := m[k := ch];
    var links := NewLinks(s, k, ch);
    var after := WithLinks(Flushed(s, m), k, links);
    forall x ensures Cell(Flushed(s, m'), x) == Cell(after, x) {
      FlushedIs(s, m', x);
      FlushedIs(s, m, x);
      WithLinksCell(Flushed(s, m), k, links, x);
    }
    SameCells(Flushed(s, m'), after);
    FlushedIs(s, m, k);
  }

  lemma WithLinksCell(s: Snapshot, k: Key, links: seq<Id>, x: Key)
    ensures Cell(WithLinks(s, k, links), x) == if x == k && k.rec in s.records then ToCell(links) else Cell(s, x)
  {
  }
}
