/** Saving a locally changed view to the server, and resetting it to the server's. */
module ViewPatch {
  import opened Options
  import opened Datasheet

  /** A property value; `===` on objects compares references, so two objects are the same
      value here only if they are one object. */
  datatype Value = Undefined | Nil | Flag(b: bool) | Num(n: int) | Text(s: string) | Object(ref: nat, json: string)

  type Props = map<string, Value>

  const IGNORED := {"id", "type", "rows", "name", "lockInfo"}

  function Read(p: Props, k: string): Value {
    if k in p then p[k] else Undefined
  }

  predicate Truthy(v: Value) {
    match v
    case Undefined => false
    case Nil => false
    case Flag(b) => b
    case Num(n) => n != 0
    case Text(s) => s != ""
    case Object(_, _) => true
  }

  // ---------------------------------------------------------------- edits of keys

  datatype KeyEdit = KeyEdit(key: string, edit: SlotEdit<Value>)

  /** What an edit leaves under its key.  The library takes an undefined new value for none
      and deletes the key. */
  function ApplyKey(e: SlotEdit<Value>): Option<Value> {
    if ApplySlot(e) == Some(Undefined) then None else ApplySlot(e)
  }

  function Patch(p: Props, edits: seq<KeyEdit>): Props
    decreases |edits|
  {
    if edits == [] then p else Patch(Store(p, edits[0].key, ApplyKey(edits[0].edit)), edits[1..])
  }

  function Inverse(edits: seq<KeyEdit>): seq<KeyEdit> {
    if edits == [] then [] else Inverse(edits[1..]) + [KeyEdit(edits[0].key, InvertSlot(edits[0].edit))]
  }

  predicate Touches(edits: seq<KeyEdit>, k: string) {
    exists i :: 0 <= i < |edits| && edits[i].key == k
  }

  /** The edits are the ones f gives, one per key it gives one for, in any order. */
  ghost predicate Lists(edits: seq<KeyEdit>, f: string -> Option<SlotEdit<Value>>) {
    && (forall i, j :: 0 <= i < j < |edits| ==> edits[i].key != edits[j].key)
    && (forall i :: 0 <= i < |edits| ==> f(edits[i].key) == Some(edits[i].edit))
    && (forall k :: f(k).Some? ==> Touches(edits, k))
  }

  lemma {:induction false} PatchSnoc(p: Props, edits: seq<KeyEdit>, e: KeyEdit)
    ensures Patch(p, edits + [e]) == Store(Patch(p, edits), e.key, ApplyKey(e.edit))
    decreases |edits|
  {
    if edits == [] {
      assert [] + [e] == [e];
      assert [e][1..] == [];
    } else {
      assert (edits + [e])[1..] == edits[1..] + [e];
      PatchSnoc(Store(p, edits[0].key, ApplyKey(edits[0].edit)), edits[1..], e);
    }
  }

  /** What a key holds after edits of distinct keys. */
  lemma {:induction false} PatchAt(p: Props, edits: seq<KeyEdit>, k: string, i: nat)
    requires forall a, b :: 0 <= a < b < |edits| ==> edits[a].key != edits[b].key
    ensures !Touches(edits, k) ==> Lookup(Patch(p, edits), k) == Lookup(p, k)
    ensures i < |edits| && edits[i].key == k ==> Lookup(Patch(p, edits), k) == ApplyKey(edits[i].edit)
    decreases |edits|
  {
    if edits != [] {
      var last := edits[|edits| - 1];
      var init := edits[..|edits| - 1];
      assert edits == init + [last];
      PatchSnoc(p, init, last);
      PatchAt(p, init, k, i);
    }
  }

  lemma {:induction false} InverseAt(p: Props, edits: seq<KeyEdit>, k: string, i: nat)
    requires forall a, b :: 0 <= a < b < |edits| ==> edits[a].key != edits[b].key
    ensures !Touches(edits, k) ==> Lookup(Patch(p, Inverse(edits)), k) == Lookup(p, k)
    ensures i < |edits| && edits[i].key == k ==>
              Lookup(Patch(p, Inverse(edits)), k) == ApplyKey(InvertSlot(edits[i].edit))
    decreases |edits|
  {
    if edits != [] {
      var rest := edits[1..];
      assert forall a :: 0 <= a < |rest| ==> rest[a] == edits[a + 1];
      PatchSnoc(p, Inverse(rest), KeyEdit(edits[0].key, InvertSlot(edits[0].edit)));
      InverseAt(p, rest, k, if i > 0 then i - 1 else 0);
    }
  }

  lemma ListedAt(p: Props, edits: seq<KeyEdit>, f: string -> Option<SlotEdit<Value>>, k: string)
    requires Lists(edits, f)
    ensures Lookup(Patch(p, edits), k) == if f(k).Some? then ApplyKey(f(k).value) else Lookup(p, k)
    ensures Lookup(Patch(p, Inverse(edits)), k) ==
            if f(k).Some? then ApplyKey(InvertSlot(f(k).value)) else Lookup(p, k)
  {
    if f(k).Some? {
      var i :| 0 <= i < |edits| && edits[i].key == k;
      PatchAt(p, edits, k, i);
      InverseAt(p, edits, k, i);
    } else {
      PatchAt(p, edits, k, 0);
      InverseAt(p, edits, k, 0);
    }
  }

  // ---------------------------------------------------------------- saving

  /** The edit that takes the server's value of a key to the local one. */
  function SaveEdit(local: Props, server: Props, k: string): Option<SlotEdit<Value>> {
    if k in IGNORED || Read(local, k) == Read(server, k) then None
    else if k in local && k in server then Some(OR(server[k], local[k]))
    else if k in local then Some(OI(local[k]))
    else if k in server then Some(OD(server[k]))
    else None
  }

  function Saving(local: Props, server: Props): string -> Option<SlotEdit<Value>> {
    k => SaveEdit(local, server, k)
  }

  /** The properties that a view keeps for itself. */
  predicate Ignored(k: string) {
    k in {"id", "type", "rows", "name", "lockInfo"}
  }

  lemma ReadIsLookup(p: Props, k: string)
    ensures Read(p, k) == if Lookup(p, k).Some? then Lookup(p, k).value else Undefined
  {
  }

  lemma TouchesListed(edits: seq<KeyEdit>, f: string -> Option<SlotEdit<Value>>, k: string)
    requires Lists(edits, f)
    ensures Touches(edits, k) <==> f(k).Some?
  {
  }

  /** Exactly the other properties that differ are sent. */
  lemma SavedKeys(local: Props, server: Props, edits: seq<KeyEdit>, k: string)
    requires Lists(edits, Saving(local, server))
    ensures Touches(edits, k) <==> !Ignored(k) && Read(local, k) != Read(server, k)
  {
    TouchesListed(edits, Saving(local, server), k);
  }

  /** The saved edits take the server's view to one that reads like the local one, and
      leave the ignored properties alone. */
  lemma SaveReads(local: Props, server: Props, edits: seq<KeyEdit>, k: string)
    requires Lists(edits, Saving(local, server))
    ensures Ignored(k) ==> Lookup(Patch(server, edits), k) == Lookup(server, k)
    ensures !Ignored(k) ==> Read(Patch(server, edits), k) == Read(local, k)
  {
    SavedKeys(local, server, edits, k);
    ListedAt(server, edits, Saving(local, server), k);
    ReadIsLookup(Patch(server, edits), k);
  }

  predicate HoldsUndefined(p: Props, k: string) {
    k in p && p[k] == Undefined
  }

  /** The local view holds the key with an undefined value and the server's does not, or the
      server's does and the local view does not hold the key. */
  predicate Dangling(local: Props, server: Props, k: string) {
    && k !in IGNORED
    && ((HoldsUndefined(local, k) && !HoldsUndefined(server, k)) || (k !in local && HoldsUndefined(server, k)))
  }

  /** Which keys there are agrees too, exactly when no key is present but undefined on
      one side only. */
  lemma SaveExactIff(local: Props, server: Props, edits: seq<KeyEdit>)
    requires Lists(edits, Saving(local, server))
    ensures (forall k :: k !in IGNORED ==> Lookup(Patch(server, edits), k) == Lookup(local, k))
            <==> (forall k :: !Dangling(local, server, k))
  {
    var saved := Patch(server, edits);
    forall k ensures k !in IGNORED ==> (Lookup(saved, k) == Lookup(local, k) <==> !Dangling(local, server, k)) {
      ListedAt(server, edits, Saving(local, server), k);
    }
    if forall k :: k !in IGNORED ==> Lookup(saved, k) == Lookup(local, k) {
      forall k ensures !Dangling(local, server, k) {
      }
    }
  }

  /** A key that the server's view holds with an undefined value and the local one gives a
      value: the inverse deletes it. */
  predicate UndefinedGoes(local: Props, server: Props, k: string) {
    k !in IGNORED && HoldsUndefined(server, k) && Read(local, k) != Undefined
  }

  /** The inverse gives the server back its view, but for keys held with an undefined value. */
  lemma SaveUndoneIff(local: Props, server: Props, edits: seq<KeyEdit>)
    requires Lists(edits, Saving(local, server))
    ensures Patch(Patch(server, edits), Inverse(edits)) == server <==>
            (forall k :: !UndefinedGoes(local, server, k))
  {
    var undone := Patch(Patch(server, edits), Inverse(edits));
    forall k ensures Lookup(undone, k) == Lookup(server, k) <==> !UndefinedGoes(local, server, k) {
      ListedAt(server, edits, Saving(local, server), k);
      ListedAt(Patch(server, edits), edits, Saving(local, server), k);
    }
    if forall k :: !UndefinedGoes(local, server, k) {
      forall k ensures Lookup(undone, k) == Lookup(server, k) {
        assert !UndefinedGoes(local, server, k);
      }
      SameLookups(undone, server);
    }
  }

  lemma SameLookups(p: Props, q: Props)
    requires forall k :: Lookup(p, k) == Lookup(q, k)
    ensures p == q
  {
    forall k ensures k in p <==> k in q {
      assert Lookup(p, k) == Lookup(q, k);
    }
    forall k | k in p ensures p[k] == q[k] {
      assert Lookup(p, k) == Lookup(q, k);
    }
  }

  // ---------------------------------------------------------------- resetting

  /** The edit that takes the local value of a key back to the server's. */
  function ResetEdit(local: Props, server: Props, k: string): Option<SlotEdit<Value>> {
    var mine, theirs := Read(local, k), Read(server, k);
    if k in IGNORED || mine == theirs then None
    else if Truthy(mine) && Truthy(theirs) then Some(OR(mine, theirs))
    else if Truthy(mine) then Some(OD(mine))
    else if Truthy(theirs) then Some(OI(theirs))
    else None
  }

  function Resetting(local: Props, server: Props): string -> Option<SlotEdit<Value>> {
    k => ResetEdit(local, server, k)
  }

  /** The values that JavaScript takes for false. */
  predicate Falsy(v: Value) {
    v in {Undefined, Nil, Flag(false), Num(0), Text("")}
  }

  lemma FalsyIff(v: Value)
    ensures Falsy(v) <==> !Truthy(v)
  {
  }

  /** Exactly the other properties that differ, and are not falsy on both sides, are reset. */
  lemma ResetKeys(local: Props, server: Props, edits: seq<KeyEdit>, k: string)
    requires Lists(edits, Resetting(local, server))
    ensures Touches(edits, k) <==>
            && !Ignored(k) && Read(local, k) != Read(server, k)
            && !(Falsy(Read(local, k)) && Falsy(Read(server, k)))
  {
    TouchesListed(edits, Resetting(local, server), k);
    FalsyIff(Read(local, k));
    FalsyIff(Read(server, k));
  }

  /** The reset view reads like the server's up to falsy values, and keeps its own
      ignored properties. */
  lemma ResetReads(local: Props, server: Props, edits: seq<KeyEdit>, k: string)
    requires Lists(edits, Resetting(local, server))
    ensures Ignored(k) ==> Lookup(Patch(local, edits), k) == Lookup(local, k)
    ensures !Ignored(k) && !Falsy(Read(server, k)) ==> Read(Patch(local, edits), k) == Read(server, k)
    ensures !Ignored(k) && Falsy(Read(server, k)) ==> Falsy(Read(Patch(local, edits), k))
  {
    ResetKeys(local, server, edits, k);
    ListedAt(local, edits, Resetting(local, server), k);
    ReadIsLookup(Patch(local, edits), k);
    FalsyIff(Read(server, k));
    FalsyIff(Read(Patch(local, edits), k));
  }

  /** A falsy value of the server's that resetting does not bring back: the local value is
      another falsy one, which stays, or a truthy one, which is deleted. */
  predicate Lost(local: Props, server: Props, k: string) {
    var mine, theirs := Read(local, k), Read(server, k);
    k !in IGNORED && mine != theirs && !Truthy(theirs) && (Truthy(mine) ==> theirs != Undefined)
  }

  lemma ResetExactIff(local: Props, server: Props, edits: seq<KeyEdit>)
    requires Lists(edits, Resetting(local, server))
    ensures (forall k :: k !in IGNORED ==> Read(Patch(local, edits), k) == Read(server, k))
            <==> (forall k :: !Lost(local, server, k))
  {
    var reset := Patch(local, edits);
    forall k ensures k !in IGNORED ==> (Read(reset, k) == Read(server, k) <==> !Lost(local, server, k)) {
      ListedAt(local, edits, Resetting(local, server), k);
      assert Read(reset, k) == var slot := Lookup(reset, k); if slot.Some? then slot.value else Undefined;
    }
    if forall k :: k !in IGNORED ==> Read(reset, k) == Read(server, k) {
      forall k ensures !Lost(local, server, k) {
      }
    }
  }

  /** A stored falsy value that an ObjectInsert overwrites without recording it. */
  predicate Overwritten(local: Props, server: Props, k: string) {
    k !in IGNORED && k in local && !Truthy(local[k]) && Truthy(Read(server, k))
  }

  lemma ResetUndoneIff(local: Props, server: Props, edits: seq<KeyEdit>)
    requires Lists(edits, Resetting(local, server))
    ensures Patch(Patch(local, edits), Inverse(edits)) == local
            <==> (forall k :: !Overwritten(local, server, k))
  {
    var undone := Patch(Patch(local, edits), Inverse(edits));
    forall k ensures Lookup(undone, k) == Lookup(local, k) <==> !Overwritten(local, server, k) {
      ListedAt(local, edits, Resetting(local, server), k);
      ListedAt(Patch(local, edits), edits, Resetting(local, server), k);
    }
    if forall k :: !Overwritten(local, server, k) {
      forall k ensures Lookup(undone, k) == Lookup(local, k) {
        assert !Overwritten(local, server, k);
      }
      SameLookups(undone, local);
    }
  }

  // ---------------------------------------------------------------- the generators

  /** Threw: a property of the view that was not found is read. */
  datatype Outcome = Threw | Edits(viewIndex: int, edits: seq<KeyEdit>)

  method FindView(views: seq<Props>, viewId: string) returns (i: int)
    ensures -1 <= i < |views|
    ensures i >= 0 ==> Read(views[i], "id") == Text(viewId)
    ensures forall j :: 0 <= j < (if i < 0 then |views| else i) ==> Read(views[j], "id") != Text(viewId)
  {
    i := 0;
    while i < |views|
      invariant 0 <= i <= |views|
      invariant forall j :: 0 <= j < i ==> Read(views[j], "id") != Text(viewId)
    {
      if Read(views[i], "id") == Text(viewId) { return; }
      i := i + 1;
    }
    i := -1;
  }

  lemma ListsMore(edits: seq<KeyEdit>, f: string -> Option<SlotEdit<Value>>, todo: set<string>, k: string)
    requires Covers(edits, f, todo) && k in todo
    ensures Covers(if f(k).Some? then edits + [KeyEdit(k, f(k).value)] else edits, f, todo - {k})
  {
    var after := if f(k).Some? then edits + [KeyEdit(k, f(k).value)] else edits;
    forall x | f(x).Some? && x !in todo - {k} ensures Touches(after, x) {
      if x == k {
        assert after[|edits|].key == k;
      } else {
        var i :| 0 <= i < |edits| && edits[i].key == x;
        assert after[i].key == x;
      }
    }
  }

  /** The edits so far are f's for all keys but those still to do. */
  ghost predicate Covers(edits: seq<KeyEdit>, f: string -> Option<SlotEdit<Value>>, todo: set<string>) {
    && (forall i, j :: 0 <= i < j < |edits| ==> edits[i].key != edits[j].key)
    && (forall i :: 0 <= i < |edits| ==> f(edits[i].key) == Some(edits[i].edit) && edits[i].key !in todo)
    && (forall k :: f(k).Some? && k !in todo ==> Touches(edits, k))
  }

  lemma CoversAll(edits: seq<KeyEdit>, f: string -> Option<SlotEdit<Value>>)
    requires Covers(edits, f, {})
    ensures Lists(edits, f)
  {
  }

  /** The edits that save the view; `viewIndex` is never null, so a view that is not there
      makes the generator throw unless the server's has only ignored properties. */
  method ManualSaveView(views: seq<Props>, viewId: string, server: Props) returns (r: Outcome)
    ensures r.Threw? <==>
            (forall i :: 0 <= i < |views| ==> Read(views[i], "id") != Text(viewId)) && !(server.Keys <= IGNORED)
    ensures r.Edits? && r.viewIndex < 0 ==>
              && r.edits == []
              && forall i :: 0 <= i < |views| ==> Read(views[i], "id") != Text(viewId)
    ensures r.Edits? && r.viewIndex >= 0 ==>
              && r.viewIndex < |views| && Read(views[r.viewIndex], "id") == Text(viewId)
              && Lists(r.edits, Saving(views[r.viewIndex], server))
  {
    var viewIndex := FindView(views, viewId);
    if viewIndex < 0 {
      var wanted := server.Keys - IGNORED;
      assert wanted == {} <==> server.Keys <= IGNORED by {
        assert forall k :: k in wanted <==> k in server.Keys && k !in IGNORED;
      }
      return if wanted == {} then Edits(viewIndex, []) else Threw;
    }
    var local := views[viewIndex];
    var edits: seq<KeyEdit> := [];
    var todo := (server.Keys + local.Keys) - IGNORED;
    while todo != {}
      invariant todo <= (server.Keys + local.Keys) - IGNORED
      invariant Covers(edits, Saving(local, server), todo)
    {
      var key :| key in todo;
      ListsMore(edits, Saving(local, server), todo, key);
      if Read(local, key) != Read(server, key) {
        if key in local && key in server {
          edits := edits + [KeyEdit(key, OR(server[key], local[key]))];
        }
        if key in local && key !in server {
          edits := edits + [KeyEdit(key, OI(local[key]))];
        }
        if key !in local && key in server {
          edits := edits + [KeyEdit(key, OD(server[key]))];
        }
      }
      todo := todo - {key};
    }
    CoversAll(edits, Saving(local, server));
    r := Edits(viewIndex, edits);
  }

  /** The edits that reset the view. */
  method ResetView(views: seq<Props>, viewId: string, server: Props) returns (r: Outcome)
    ensures r.Threw? <==>
            (forall i :: 0 <= i < |views| ==> Read(views[i], "id") != Text(viewId)) && !(server.Keys <= IGNORED)
    ensures r.Edits? && r.viewIndex < 0 ==>
              && r.edits == []
              && forall i :: 0 <= i < |views| ==> Read(views[i], "id") != Text(viewId)
    ensures r.Edits? && r.viewIndex >= 0 ==>
              && r.viewIndex < |views| && Read(views[r.viewIndex], "id") == Text(viewId)
              && Lists(r.edits, Resetting(views[r.viewIndex], server))
  {
    var viewIndex := FindView(views, viewId);
    if viewIndex < 0 {
      var wanted := server.Keys - IGNORED;
      assert wanted == {} <==> server.Keys <= IGNORED by {
        assert forall k :: k in wanted <==> k in server.Keys && k !in IGNORED;
      }
      return if wanted == {} then Edits(viewIndex, []) else Threw;
    }
    var local := views[viewIndex];
    var edits: seq<KeyEdit> := [];
    var todo := (local.Keys + server.Keys) - IGNORED;
    while todo != {}
      invariant todo <= (local.Keys + server.Keys) - IGNORED
      invariant Covers(edits, Resetting(local, server), todo)
    {
      var key :| key in todo;
      ListsMore(edits, Resetting(local, server), todo, key);
      var mine, theirs := Read(local, key), Read(server, key);
      if mine != theirs {
        if Truthy(mine) && Truthy(theirs) {
          edits := edits + [KeyEdit(key, OR(mine, theirs))];
        }
        if Truthy(mine) && !Truthy(theirs) {
          edits := edits + [KeyEdit(key, OD(mine))];
        }
        if !Truthy(mine) && Truthy(theirs) {
          edits := edits + [KeyEdit(key, OI(theirs))];
        }
      }
      todo := todo - {key};
    }
    CoversAll(edits, Resetting(local, server));
    r := Edits(viewIndex, edits);
  }
}
