/** A command that changes link cells keeps the two ends of a link field in agreement. */
module LinkSymmetry {
  import opened Options
  import opened LinkedData
  import opened Sequences
  import opened LinkMaintainer

  /** One end of a two-way link: field `field` of datasheet `dst`. */
  datatype End = End(dst: Id, field: Id)

  datatype CellChange = CellChange(rec: Id, value: seq<Id>)

  ghost predicate Symmetric(sa: Snapshot, f: Id, sb: Snapshot, g: Id) {
    forall a, b :: b in Links(sa, Key(a, f)) <==> a in Links(sb, Key(b, g))
  }

  ghost predicate AllDupFree(s: Snapshot, f: Id) {
    forall r :: DupFree(Links(s, Key(r, f)))
  }

  // ---------------------------------------------------------------- the command

  /** The direct writes, all computed on the snapshot before the command. */
  function DirectActions(sa: Snapshot, f: Id, changes: seq<CellChange>): seq<CellAction> {
    if changes == [] then []
    else
      var a := SetRecord2Action(sa, Key(changes[0].rec, f), ToCell(changes[0].value));
      (if a.Some? then [a.value] else []) + DirectActions(sa, f, changes[1..])
  }

  /** One changed cell, inserted with its old value. */
  function InsertOne(m: Changes, sa: Snapshot, f: Id, sb: Snapshot, far: End, c: CellChange): Changes {
    Insert(m, sb, far.dst, far.field, c.rec, c.value, Links(sa, Key(c.rec, f)))
  }

  /** What the maintainer has noted after all changed cells. */
  function InsertAll(m: Changes, sa: Snapshot, f: Id, sb: Snapshot, far: End, changes: seq<CellChange>): Changes
    decreases |changes|
  {
    if changes == [] then m
    else InsertAll(InsertOne(m, sa, f, sb, far, changes[0]), sa, f, sb, far, changes[1..])
  }

  function DeltasFor(m: Changes, dst: Id): Deltas {
    map c | c in m && c.dst == dst :: c.key := m[c]
  }

  predicate DistinctRecs(changes: seq<CellChange>) {
    forall i, j :: 0 <= i < j < |changes| ==> changes[i].rec != changes[j].rec
  }

  // ---------------------------------------------------------------- what gets noted

  lemma {:induction false} NoteAddsAt(m: Changes, dst: Id, field: Id, linked: seq<Id>, rec: Id, c: CellId)
    ensures ChangeAt(NoteAdds(m, dst, field, linked, rec), c) ==
            if c.dst == dst && c.key.field == field && c.key.rec in linked
            then Noted(ChangeAt(m, c), rec, true) else ChangeAt(m, c)
    decreases |linked|
  {
    if linked != [] {
      NoteAddsAt(NoteOne(m, CellId(dst, Key(linked[0], field)), rec, true), dst, field, linked[1..], rec, c);
      assert c == CellId(c.dst, Key(c.key.rec, c.key.field));
    }
  }

  lemma {:induction false} NoteDelsAt(
    m: Changes, other: Snapshot, dst: Id, field: Id, linked: seq<Id>, rec: Id, c: CellId)
    ensures var ch, ch' := ChangeAt(m, c), ChangeAt(NoteDels(m, other, dst, field, linked, rec), c);
            && ch'.add == ch.add
            && (var noted := c.dst == dst && c.key.field == field && c.key.rec in linked && rec in Links(other, c.key);
                ch'.del == if noted then ch.del + {rec} else ch.del)
    decreases |linked|
  {
    if linked != [] {
      var k := Key(linked[0], field);
      var m' := if rec in Links(other, k) then NoteOne(m, CellId(dst, k), rec, false) else m;
      NoteDelsAt(m', other, dst, field, linked[1..], rec, c);
      assert c == CellId(c.dst, Key(c.key.rec, c.key.field));
    }
  }

  /** The record gained the link b / lost the link b. */
  predicate Gains(sa: Snapshot, f: Id, c: CellChange, b: Id) {
    b in c.value && b !in Links(sa, Key(c.rec, f))
  }

  predicate Loses(sa: Snapshot, f: Id, c: CellChange, b: Id) {
    b !in c.value && b in Links(sa, Key(c.rec, f))
  }

  lemma InsertAt(m: Changes, sa: Snapshot, f: Id, sb: Snapshot, far: End, c: CellChange, at: CellId)
    ensures var ch := ChangeAt(m, at);
            var ch' := ChangeAt(InsertOne(m, sa, f, sb, far, c), at);
            var here := at.dst == far.dst && at.key.field == far.field;
            && ch'.add == (if here && Gains(sa, f, c, at.key.rec) && c.rec !in ch.add then ch.add + [c.rec] else ch.add)
            && ch'.del ==
                ch.del + (if here && Loses(sa, f, c, at.key.rec) && c.rec in Links(sb, at.key) then {c.rec} else {})
  {
    var oldValue := Links(sa, Key(c.rec, f));
    var toAdd := Without(c.value, ToSet(oldValue));
    var toDel := Without(oldValue, ToSet(c.value));
    NoteAddsAt(m, far.dst, far.field, toAdd, c.rec, at);
    NoteDelsAt(NoteAdds(m, far.dst, far.field, toAdd, c.rec), sb, far.dst, far.field, toDel, c.rec, at);
  }

  ghost predicate SomeGains(sa: Snapshot, f: Id, changes: seq<CellChange>, b: Id, a: Id) {
    exists i :: 0 <= i < |changes| && changes[i].rec == a && Gains(sa, f, changes[i], b)
  }

  ghost predicate SomeLoses(sa: Snapshot, f: Id, changes: seq<CellChange>, b: Id, a: Id) {
    exists i :: 0 <= i < |changes| && changes[i].rec == a && Loses(sa, f, changes[i], b)
  }

  lemma SomeGainsCons(sa: Snapshot, f: Id, changes: seq<CellChange>, b: Id, a: Id)
    requires changes != []
    ensures SomeGains(sa, f, changes, b, a) <==>
            (changes[0].rec == a && Gains(sa, f, changes[0], b)) || SomeGains(sa, f, changes[1..], b, a)
    ensures SomeLoses(sa, f, changes, b, a) <==>
            (changes[0].rec == a && Loses(sa, f, changes[0], b)) || SomeLoses(sa, f, changes[1..], b, a)
  {
    assert forall i :: 0 < i < |changes| ==> changes[i] == changes[1..][i - 1];
  }

  /** At the far end, the noted additions are the records that gained a link to it and
      the noted removals those that lost one. */
  lemma {:induction false} InsertAllAt(
    m: Changes, sa: Snapshot, f: Id, sb: Snapshot, far: End, changes: seq<CellChange>, b: Id, a: Id)
    ensures var at := CellId(far.dst, Key(b, far.field));
            var ch, ch' := ChangeAt(m, at), ChangeAt(InsertAll(m, sa, f, sb, far, changes), at);
            && (a in ch'.add <==> a in ch.add || SomeGains(sa, f, changes, b, a))
            && (a in ch'.del <==> a in ch.del || (SomeLoses(sa, f, changes, b, a) && a in Links(sb, at.key)))
            && (DupFree(ch.add) ==> DupFree(ch'.add))
    decreases |changes|
  {
    if changes != [] {
      var c := changes[0];
      InsertAt(m, sa, f, sb, far, c, CellId(far.dst, Key(b, far.field)));
      InsertAllAt(InsertOne(m, sa, f, sb, far, c), sa, f, sb, far, changes[1..], b, a);
      SomeGainsCons(sa, f, changes, b, a);
    }
  }

  /** No change adds or removes a link to b. */
  predicate Spared(sa: Snapshot, f: Id, changes: seq<CellChange>, b: Id) {
    forall i :: 0 <= i < |changes| ==> !Gains(sa, f, changes[i], b) && !Loses(sa, f, changes[i], b)
  }

  /** Nothing is noted anywhere else. */
  lemma {:induction false} InsertAllElsewhere(
    m: Changes, sa: Snapshot, f: Id, sb: Snapshot, far: End, changes: seq<CellChange>, at: CellId)
    requires at.dst != far.dst || at.key.field != far.field || Spared(sa, f, changes, at.key.rec)
    ensures at in InsertAll(m, sa, f, sb, far, changes) <==> at in m
    decreases |changes|
  {
    if changes != [] {
      var c := changes[0];
      var oldValue := Links(sa, Key(c.rec, f));
      var toAdd := Without(c.value, ToSet(oldValue));
      assert Spared(sa, f, changes, at.key.rec) ==> Spared(sa, f, changes[1..], at.key.rec);
      NoteAddsElsewhere(m, far.dst, far.field, toAdd, c.rec, at);
      NoteDelsElsewhere(NoteAdds(m, far.dst, far.field, toAdd, c.rec), sb, far.dst, far.field,
          Without(oldValue, ToSet(c.value)), c.rec, at);
      InsertAllElsewhere(InsertOne(m, sa, f, sb, far, c), sa, f, sb, far, changes[1..], at);
    }
  }

  lemma {:induction false} NoteAddsElsewhere(m: Changes, dst: Id, field: Id, linked: seq<Id>, rec: Id, at: CellId)
    requires at.dst != dst || at.key.field != field || at.key.rec !in linked
    ensures at in NoteAdds(m, dst, field, linked, rec) <==> at in m
    decreases |linked|
  {
    if linked != [] {
      NoteAddsElsewhere(NoteOne(m, CellId(dst, Key(linked[0], field)), rec, true), dst, field, linked[1..], rec, at);
    }
  }

  lemma {:induction false} NoteDelsElsewhere(
    m: Changes, other: Snapshot, dst: Id, field: Id, linked: seq<Id>, rec: Id, at: CellId)
    requires at.dst != dst || at.key.field != field || at.key.rec !in linked
    ensures at in NoteDels(m, other, dst, field, linked, rec) <==> at in m
    decreases |linked|
  {
    if linked != [] {
      var k := Key(linked[0], field);
      NoteDelsElsewhere(if rec in Links(other, k) then NoteOne(m, CellId(dst, k), rec, false) else m,
                        other, dst, field, linked[1..], rec, at);
    }
  }

  // ---------------------------------------------------------------- the direct writes

  function WriteAll(s: Snapshot, f: Id, changes: seq<CellChange>): Snapshot
    decreases |changes|
  {
    if changes == [] then s
    else WriteAll(WithLinks(s, Key(changes[0].rec, f), changes[0].value), f, changes[1..])
  }

  /** Actions computed up front set the cells one by one. */
  lemma {:induction false} DirectActionsWrite(sa: Snapshot, now: Snapshot, f: Id, changes: seq<CellChange>)
    requires DistinctRecs(changes) && sa.records == now.records
    requires forall i :: 0 <= i < |changes| ==> Cell(sa, Key(changes[i].rec, f)) == Cell(now, Key(changes[i].rec, f))
    ensures ApplyCells(now, DirectActions(sa, f, changes)) == WriteAll(now, f, changes)
    decreases |changes|
  {
    if changes != [] {
      var k, value := Key(changes[0].rec, f), changes[0].value;
      SetRecordSets(sa, now, k, value);
      var next := WithLinks(now, k, value);
      forall i | 0 <= i < |changes[1..]|
        ensures Cell(sa, Key(changes[1..][i].rec, f)) == Cell(next, Key(changes[1..][i].rec, f))
      {
        assert changes[1..][i] == changes[i + 1];
        WithLinksCell(now, k, value, Key(changes[i + 1].rec, f));
      }
      assert DistinctRecs(changes[1..]);
      DirectActionsWrite(sa, next, f, changes[1..]);
      var a := SetRecord2Action(sa, k, ToCell(value));
      if a.Some? {
        assert ([a.value] + DirectActions(sa, f, changes[1..]))[1..] == DirectActions(sa, f, changes[1..]);
      } else {
        assert [] + DirectActions(sa, f, changes[1..]) == DirectActions(sa, f, changes[1..]);
      }
    }
  }

  /** No change is to this cell. */
  predicate Unnamed(f: Id, changes: seq<CellChange>, k: Key) {
    forall i :: 0 <= i < |changes| ==> k != Key(changes[i].rec, f)
  }

  lemma {:induction false} WriteAllAt(s: Snapshot, f: Id, changes: seq<CellChange>, k: Key)
    requires DistinctRecs(changes)
    ensures forall i :: 0 <= i < |changes| && k == Key(changes[i].rec, f) && k.rec in s.records ==>
              Links(WriteAll(s, f, changes), k) == changes[i].value
    ensures Unnamed(f, changes, k) ==> Cell(WriteAll(s, f, changes), k) == Cell(s, k)
    decreases |changes|
  {
    if changes != [] {
      var next := WithLinks(s, Key(changes[0].rec, f), changes[0].value);
      assert forall i :: 0 <= i < |changes[1..]| ==> changes[1..][i] == changes[i + 1];
      WriteAllAt(next, f, changes[1..], k);
      assert forall i :: 0 < i < |changes| ==> changes[i] == changes[1..][i - 1];
    }
  }

  // ---------------------------------------------------------------- the two ends afterwards

  function NearAfter(sa: Snapshot, f: Id, changes: seq<CellChange>): Snapshot {
    ApplyCells(sa, DirectActions(sa, f, changes))
  }

  function FarDeltas(sa: Snapshot, f: Id, sb: Snapshot, far: End, changes: seq<CellChange>): Deltas {
    DeltasFor(InsertAll(map[], sa, f, sb, far, changes), far.dst)
  }

  function FarAfter(sa: Snapshot, f: Id, sb: Snapshot, far: End, changes: seq<CellChange>): Snapshot {
    Flushed(sb, FarDeltas(sa, f, sb, far, changes))
  }

  /** What a command may assume: a symmetric link field, cells only in existing records, and
      each changed cell named once. */
  ghost predicate Before(sa: Snapshot, f: Id, sb: Snapshot, far: End, changes: seq<CellChange>) {
    && Symmetric(sa, f, sb, far.field)
    && (forall k :: k in sb.cells ==> k.rec in sb.records)
    && far.field in sb.linkFields
    && DistinctRecs(changes)
    && (forall i :: 0 <= i < |changes| ==> changes[i].rec in sa.records)
  }

  /** No cell and no new value holds a record twice. */
  ghost predicate NoDuplicates(sa: Snapshot, f: Id, sb: Snapshot, far: End, changes: seq<CellChange>) {
    && AllDupFree(sa, f) && AllDupFree(sb, far.field)
    && (forall i :: 0 <= i < |changes| ==> DupFree(changes[i].value))
  }

  /** Every link the command adds leads to an existing record. */
  predicate TargetsExist(sa: Snapshot, f: Id, sb: Snapshot, changes: seq<CellChange>) {
    forall i, b :: 0 <= i < |changes| && b in changes[i].value && b !in Links(sa, Key(changes[i].rec, f)) ==>
        b in sb.records
  }

  lemma FarLinks(sa: Snapshot, f: Id, sb: Snapshot, far: End, changes: seq<CellChange>, b: Id, a: Id)
    requires Before(sa, f, sb, far, changes) && b in sb.records
    ensures a in Links(FarAfter(sa, f, sb, far, changes), Key(b, far.field)) <==>
            || (a in Links(sb, Key(b, far.field)) && !SomeLoses(sa, f, changes, b, a))
            || SomeGains(sa, f, changes, b, a)
  {
    var m := InsertAll(map[], sa, f, sb, far, changes);
    var k := Key(b, far.field);
    InsertAllAt(map[], sa, f, sb, far, changes, b, a);
    var ch := ChangeAt(m, CellId(far.dst, k));
    FlushedIs(sb, FarDeltas(sa, f, sb, far, changes), k);
    assert k in FarDeltas(sa, f, sb, far, changes) <==> CellId(far.dst, k) in m;
    if CellId(far.dst, k) in m {
      assert a in NewLinks(sb, k, ch) <==> (a in Links(sb, k) && a !in ch.del) || a in ch.add;
    }
  }

  lemma NearLinks(sa: Snapshot, f: Id, sb: Snapshot, far: End, changes: seq<CellChange>, k: Key)
    requires Before(sa, f, sb, far, changes)
    ensures forall i :: 0 <= i < |changes| && k == Key(changes[i].rec, f) ==>
              Links(NearAfter(sa, f, changes), k) == changes[i].value
    ensures Unnamed(f, changes, k) ==> Cell(NearAfter(sa, f, changes), k) == Cell(sa, k)
  {
    DirectActionsWrite(sa, sa, f, changes);
    WriteAllAt(sa, f, changes, k);
  }

  /** For one pair of records whose far end exists, the two ends agree. */
  lemma PairAgrees(sa: Snapshot, f: Id, sb: Snapshot, far: End, changes: seq<CellChange>, a: Id, b: Id)
    requires Before(sa, f, sb, far, changes) && b in sb.records
    ensures b in Links(NearAfter(sa, f, changes), Key(a, f)) <==>
            a in Links(FarAfter(sa, f, sb, far, changes), Key(b, far.field))
  {
    NearLinks(sa, f, sb, far, changes, Key(a, f));
    FarLinks(sa, f, sb, far, changes, b, a);
    if i :| 0 <= i < |changes| && changes[i].rec == a {
      assert forall j :: 0 <= j < |changes| && changes[j].rec == a ==> j == i;
      assert SomeGains(sa, f, changes, b, a) <==> Gains(sa, f, changes[i], b);
      assert SomeLoses(sa, f, changes, b, a) <==> Loses(sa, f, changes[i], b);
    }
  }

  /** A far end that does not exist stays empty. */
  lemma MissingStaysEmpty(sa: Snapshot, f: Id, sb: Snapshot, far: End, changes: seq<CellChange>, b: Id)
    requires Before(sa, f, sb, far, changes) && b !in sb.records
    ensures Links(FarAfter(sa, f, sb, far, changes), Key(b, far.field)) == []
    ensures Links(sb, Key(b, far.field)) == []
  {
    FlushedIs(sb, FarDeltas(sa, f, sb, far, changes), Key(b, far.field));
  }

  /** With every added link leading to an existing record, one pair of records agrees. */
  lemma AnyPairAgrees(sa: Snapshot, f: Id, sb: Snapshot, far: End, changes: seq<CellChange>, a: Id, b: Id)
    requires Before(sa, f, sb, far, changes) && TargetsExist(sa, f, sb, changes)
    ensures b in Links(NearAfter(sa, f, changes), Key(a, f)) <==>
            a in Links(FarAfter(sa, f, sb, far, changes), Key(b, far.field))
  {
    if b in sb.records {
      PairAgrees(sa, f, sb, far, changes, a, b);
    } else {
      MissingStaysEmpty(sa, f, sb, far, changes, b);
      NearLinks(sa, f, sb, far, changes, Key(a, f));
      assert b !in Links(sa, Key(a, f));
    }
  }

  /** A link added to a missing record has no other end. */
  lemma MissingTargetBreaks(sa: Snapshot, f: Id, sb: Snapshot, far: End, changes: seq<CellChange>, i: nat, b: Id)
    requires Before(sa, f, sb, far, changes) && i < |changes|
    requires b in changes[i].value && b !in sb.records
    ensures b in Links(NearAfter(sa, f, changes), Key(changes[i].rec, f))
    ensures changes[i].rec !in Links(FarAfter(sa, f, sb, far, changes), Key(b, far.field))
  {
    NearLinks(sa, f, sb, far, changes, Key(changes[i].rec, f));
    MissingStaysEmpty(sa, f, sb, far, changes, b);
  }

  /** After the direct writes and the flush the link field is symmetric again if and only
      if every added link leads to an existing record. */
  lemma SymmetricIff(sa: Snapshot, f: Id, sb: Snapshot, far: End, changes: seq<CellChange>)
    requires Before(sa, f, sb, far, changes)
    ensures Symmetric(NearAfter(sa, f, changes), f, FarAfter(sa, f, sb, far, changes), far.field) <==>
            TargetsExist(sa, f, sb, changes)
  {
    var near, after := NearAfter(sa, f, changes), FarAfter(sa, f, sb, far, changes);
    if TargetsExist(sa, f, sb, changes) {
      forall a, b ensures b in Links(near, Key(a, f)) <==> a in Links(after, Key(b, far.field)) {
        AnyPairAgrees(sa, f, sb, far, changes, a, b);
      }
    } else {
      var i, b :| 0 <= i < |changes| && b in changes[i].value && b !in sb.records;
      MissingTargetBreaks(sa, f, sb, far, changes, i, b);
    }
  }

  lemma ConcatDupFree(xs: seq<Id>, ys: seq<Id>)
    requires DupFree(xs) && DupFree(ys) && forall x :: x in xs ==> x !in ys
    ensures DupFree(xs + ys)
  {
    var zs := xs + ys;
    forall i, j | 0 <= i < j < |zs| ensures zs[i] != zs[j] {
      if i < |xs| <= j {
        assert zs[i] in xs && zs[j] == ys[j - |xs|];
      } else if |xs| <= i {
        assert zs[i] == ys[i - |xs|] && zs[j] == ys[j - |xs|];
      }
    }
  }

  /** No cell of the link field, at either end, holds a record twice afterwards. */
  lemma DupFreeKept(sa: Snapshot, f: Id, sb: Snapshot, far: End, changes: seq<CellChange>)
    requires Before(sa, f, sb, far, changes) && NoDuplicates(sa, f, sb, far, changes)
    ensures AllDupFree(NearAfter(sa, f, changes), f) && AllDupFree(FarAfter(sa, f, sb, far, changes), far.field)
  {
    forall r ensures DupFree(Links(NearAfter(sa, f, changes), Key(r, f))) {
      NearLinks(sa, f, sb, far, changes, Key(r, f));
      assert DupFree(Links(sa, Key(r, f)));
    }
    forall b ensures DupFree(Links(FarAfter(sa, f, sb, far, changes), Key(b, far.field))) {
      FarDupFree(sa, f, sb, far, changes, b);
    }
  }

  lemma FarDupFree(sa: Snapshot, f: Id, sb: Snapshot, far: End, changes: seq<CellChange>, b: Id)
    requires Before(sa, f, sb, far, changes) && NoDuplicates(sa, f, sb, far, changes)
    ensures DupFree(Links(FarAfter(sa, f, sb, far, changes), Key(b, far.field)))
  {
    var k := Key(b, far.field);
    var m := InsertAll(map[], sa, f, sb, far, changes);
    var ch := ChangeAt(m, CellId(far.dst, k));
    assert DupFree(Links(sb, k));
    FlushedIs(sb, FarDeltas(sa, f, sb, far, changes), k);
    if CellId(far.dst, k) in m && b in sb.records {
      InsertAllAt(map[], sa, f, sb, far, changes, b, b);
      WithoutDupFree(Links(sb, k), ch.del);
      forall x | x in Links(sb, k) ensures x !in ch.add {
        InsertAllAt(map[], sa, f, sb, far, changes, b, x);
        assert b in Links(sa, Key(x, f));
      }
      ConcatDupFree(Without(Links(sb, k), ch.del), ch.add);
    }
  }

  /** Every cell that no change is to keeps its value, and at the other end every cell to which
      no change adds or removes a link, order included. */
  lemma OthersUntouched(sa: Snapshot, f: Id, sb: Snapshot, far: End, changes: seq<CellChange>, k: Key)
    requires DistinctRecs(changes)
    ensures Unnamed(f, changes, k) ==> Cell(NearAfter(sa, f, changes), k) == Cell(sa, k)
    ensures k.field != far.field || Spared(sa, f, changes, k.rec) ==>
              Cell(FarAfter(sa, f, sb, far, changes), k) == Cell(sb, k)
  {
    DirectActionsWrite(sa, sa, f, changes);
    WriteAllAt(sa, f, changes, k);
    FlushedIs(sb, FarDeltas(sa, f, sb, far, changes), k);
    if k.field != far.field || Spared(sa, f, changes, k.rec) {
      InsertAllElsewhere(map[], sa, f, sb, far, changes, CellId(far.dst, k));
    }
  }

  // ---------------------------------------------------------------- the command itself

  lemma DeltasForAt(m: Changes, dst: Id, k: Key)
    ensures Found(DeltasFor(m, dst), k) == Found(m, CellId(dst, k))
  {
    assert CellId(dst, k).key == k;
  }

  lemma OfDatasheetAt(d: DatasheetChanges, k: Key)
    ensures Found(OfDatasheet(d), k) ==
            if k.field in d && k.rec in d[k.field] then Some(d[k.field][k.rec]) else None
  {
    assert k == Key(k.rec, k.field);
  }

  lemma DatasheetDeltas(n: LinkedChange, dst: Id)
    ensures DeltasFor(Flat(n), dst) == if dst in n then OfDatasheet(n[dst]) else map[]
  {
    var right: Deltas := if dst in n then OfDatasheet(n[dst]) else map[];
    forall k ensures Found(DeltasFor(Flat(n), dst), k) == Found(right, k) {
      DeltasForAt(Flat(n), dst, k);
      FlatAt(n, CellId(dst, k));
      if dst in n {
        OfDatasheetAt(n[dst], k);
      }
    }
    SameMap(DeltasFor(Flat(n), dst), right);
  }

  /** The execute phase: every changed cell is noted with its old value and gets its
      direct write. */
  method ExecuteSetRecords(ldcMaintainer: LinkedDataConformanceMaintainer, sa: Snapshot, nearField: Id,
                           sb: Snapshot, far: End, changes: seq<CellChange>)
    returns (actions: seq<CellAction>)
    modifies ldcMaintainer
    ensures actions == DirectActions(sa, nearField, changes)
    ensures ldcMaintainer.Contents() == InsertAll(old(ldcMaintainer.Contents()), sa, nearField, sb, far, changes)
  {
    actions := [];
    for i := 0 to |changes|
      invariant ldcMaintainer.Contents() ==
                InsertAll(old(ldcMaintainer.Contents()), sa, nearField, sb, far, changes[..i])
      invariant actions == DirectActions(sa, nearField, changes[..i])
    {
      OneMoreChange(old(ldcMaintainer.Contents()), sa, nearField, sb, far, changes, i);
      var action := ExecuteOne(ldcMaintainer, sa, nearField, sb, far, changes[i]);
      actions := actions + action;
    }
    assert changes[..|changes|] == changes;
  }

  method ExecuteOne(ldcMaintainer: LinkedDataConformanceMaintainer, sa: Snapshot, nearField: Id,
                    sb: Snapshot, far: End, change: CellChange)
    returns (action: seq<CellAction>)
    modifies ldcMaintainer
    ensures DirectActions(sa, nearField, [change]) == action
    ensures ldcMaintainer.Contents() ==
            InsertOne(old(ldcMaintainer.Contents()), sa, nearField, sb, far, change)
  {
    var k := Key(change.rec, nearField);
    ldcMaintainer.InsertCell(sb, change.rec, nearField, far.dst, Some(far.field), ToCell(change.value), Cell(sa, k));
    var a := SetRecord2Action(sa, k, ToCell(change.value));
    action := if a.Some? then [a.value] else [];
    assert [change][1..] == [];
  }

  lemma OneMoreChange(m: Changes, sa: Snapshot, f: Id, sb: Snapshot, far: End, changes: seq<CellChange>, i: nat)
    requires i < |changes|
    ensures InsertAll(m, sa, f, sb, far, changes[..i + 1]) ==
            InsertOne(InsertAll(m, sa, f, sb, far, changes[..i]), sa, f, sb, far, changes[i])
    ensures DirectActions(sa, f, changes[..i + 1]) ==
            DirectActions(sa, f, changes[..i]) + DirectActions(sa, f, [changes[i]])
  {
    assert changes[..i + 1] == changes[..i] + [changes[i]];
    InsertAllSnoc(m, sa, f, sb, far, changes[..i], changes[i]);
    DirectActionsSnoc(sa, f, changes[..i], changes[i]);
  }

  lemma {:induction false} DirectActionsSnoc(sa: Snapshot, f: Id, changes: seq<CellChange>, c: CellChange)
    ensures DirectActions(sa, f, changes + [c]) == DirectActions(sa, f, changes) + DirectActions(sa, f, [c])
  {
    if changes == [] {
      assert changes + [c] == [c];
      assert [] + DirectActions(sa, f, [c]) == DirectActions(sa, f, [c]);
    } else {
      assert (changes + [c])[1..] == changes[1..] + [c];
      DirectActionsSnoc(sa, f, changes[1..], c);
    }
  }

  lemma {:induction false} InsertAllSnoc(
    m: Changes, sa: Snapshot, f: Id, sb: Snapshot, far: End, changes: seq<CellChange>, c: CellChange)
    ensures InsertAll(m, sa, f, sb, far, changes + [c]) ==
            InsertOne(InsertAll(m, sa, f, sb, far, changes), sa, f, sb, far, c)
    decreases |changes|
  {
    if changes == [] {
      assert changes + [c] == [c];
      assert [c][1..] == [];
    } else {
      assert (changes + [c])[1..] == changes[1..] + [c];
      InsertAllSnoc(InsertOne(m, sa, f, sb, far, changes[0]), sa, f, sb, far, changes[1..], c);
    }
  }

  ghost predicate FarReached(linkedActions: seq<LinkedAction>, dst: Id, sb: Snapshot, after: Snapshot) {
    && (forall i :: 0 <= i < |linkedActions| && linkedActions[i].datasheetId == dst ==>
          ApplyCells(sb, linkedActions[i].actions) == after)
    && ((forall i :: 0 <= i < |linkedActions| ==> linkedActions[i].datasheetId != dst) ==> after == sb)
  }

  /** Sets link cells of one field and flushes what was noted.  Applied to the two
      datasheets, the returned actions reach the snapshots the theorems above speak of. */
  method SetLinkCells(sa: Snapshot, nearField: Id, sb: Snapshot, far: End, changes: seq<CellChange>)
    returns (actions: seq<CellAction>, linkedActions: seq<LinkedAction>)
    ensures ApplyCells(sa, actions) == NearAfter(sa, nearField, changes)
    ensures FarReached(linkedActions, far.dst, sb, FarAfter(sa, nearField, sb, far, changes))
  {
    var ldcMaintainer := new LinkedDataConformanceMaintainer();
    actions := ExecuteSetRecords(ldcMaintainer, sa, nearField, sb, far, changes);
    ghost var noted := ldcMaintainer.linkedChange;
    DatasheetDeltas(noted, far.dst);
    linkedActions := ldcMaintainer.FlushLinkedActions(map[far.dst := sb]);
    if far.dst !in noted {
      FlushedNothing(sb);
    }
  }
}
