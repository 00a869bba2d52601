/** A concrete operational transform on JSON documents: number add, list
    insert/delete/replace and object insert/delete/replace at any depth, with
    recorded old values.  It meets every law of module `Ot`, so the theorems about
    the engine hold of it unconditionally. */
module JsonOt {
  import opened Options
  import Ot

  datatype Json = Num(n: int) | Text(s: string) | Arr(items: seq<Json>) | Obj(fields: map<string, Json>)

  /** One action: the steps of its path from the root, then what happens to the
      slot the path ends in.  Object(k, Insert(v)) is OI, List(i, Delete(v)) is LD,
      and so on; Within carries the rest of a longer path. */
  datatype Action =
    | NumberAdd(na: int)
    | Object(key: string, edit: Edit)
    | List(index: nat, edit: Edit)

  datatype Edit =
    | Insert(new_: Json)
    | Delete(old_: Json)
    | Replace(old_: Json, new_: Json)
    | Within(sub: Action)

  // ---------------------------------------------------------------- apply

  function Lookup(fields: map<string, Json>, key: string): Option<Json> {
    if key in fields then Some(fields[key]) else None
  }

  function Store(fields: map<string, Json>, key: string, slot: Option<Json>): map<string, Json> {
    if slot.Some? then fields[key := slot.value] else fields - {key}
  }

  function Apply(doc: Json, a: Action): Option<Json>
    decreases a
  {
    match a
    case NumberAdd(na) => if doc.Num? then Some(Num(doc.n + na)) else None
    case Object(key, edit) =>
      if !doc.Obj? then None
      else
        var slot := ApplyEdit(Lookup(doc.fields, key), edit);
        if slot.None? then None else Some(Obj(Store(doc.fields, key, slot.value)))
    case List(index, edit) =>
      if !doc.Arr? then None
      else
        var items := ApplyAt(doc.items, index, edit);
        if items.None? then None else Some(Arr(items.value))
  }

  /** What an edit does to the slot it addresses; None when it does not fit. */
  function ApplyEdit(slot: Option<Json>, e: Edit): Option<Option<Json>>
    decreases e, 0
  {
    match e
    case Insert(v) => if slot.None? then Some(Some(v)) else None
    case Delete(v) => if slot == Some(v) then Some(None) else None
    case Replace(v, w) => if slot == Some(v) then Some(Some(w)) else None
    case Within(sub) =>
      if slot.None? then None
      else
        var child := Apply(slot.value, sub);
        if child.None? then None else Some(child)
  }

  /** items with the n elements from i on replaced by mid. */
  function Splice(items: seq<Json>, i: nat, n: nat, mid: seq<Json>): seq<Json>
    requires i + n <= |items|
  {
    items[..i] + mid + items[i + n..]
  }

  /** How many elements an edit looks at: inserting opens a slot, every other edit
      needs one. */
  function Width(e: Edit): nat {
    if e.Insert? then 0 else 1
  }

  function SlotAt(items: seq<Json>, i: nat, e: Edit): Option<Json>
    requires i + Width(e) <= |items|
  {
    if e.Insert? then None else Some(items[i])
  }

  function ApplyAt(items: seq<Json>, i: nat, e: Edit): Option<seq<Json>>
    decreases e, 1
  {
    if i + Width(e) > |items| then None
    else
      var slot := ApplyEdit(SlotAt(items, i, e), e);
      if slot.None? then None
      else Some(Splice(items, i, Width(e), Ot.ToSeq(slot.value)))
  }

  // ---------------------------------------------------------------- invert

  function Invert(a: Action): Action
    decreases a
  {
    match a
    case NumberAdd(na) => NumberAdd(-na)
    case Object(key, edit) => Object(key, InvertEdit(edit))
    case List(index, edit) => List(index, InvertEdit(edit))
  }

  function InvertEdit(e: Edit): Edit
    decreases e
  {
    match e
    case Insert(v) => Delete(v)
    case Delete(v) => Insert(v)
    case Replace(v, w) => Replace(w, v)
    case Within(sub) => Within(Invert(sub))
  }

  // ---------------------------------------------------------------- cross

  /** A value recorded by a delete or replace, brought up to date with an edit made
      inside it. */
  function Refresh(v: Json, sub: Action): Json {
    var w := Apply(v, sub);
    if w.Some? then w.value else v
  }

  function MapWithin(a: Option<Action>): Option<Edit> {
    if a.Some? then Some(Within(a.value)) else None
  }

  /** Two edits of the same slot.  Deleting twice is deleting once, replacing beats
      deleting, l wins a tie, and an edit inside a slot that goes away is dropped. */
  function CrossEdit(l: Edit, r: Edit): (Option<Edit>, Option<Edit>)
    decreases l, r, 0
  {
    match (l, r)
    case (Insert(v), Insert(w)) => (Some(Replace(w, v)), None)
    case (Delete(_), Delete(_)) => (None, None)
    case (Delete(_), Replace(_, w)) => (None, Some(Insert(w)))
    case (Replace(_, w), Delete(_)) => (Some(Insert(w)), None)
    case (Replace(_, v), Replace(_, w)) => (Some(Replace(w, v)), None)
    case (Within(x), Delete(v)) => (None, Some(Delete(Refresh(v, x))))
    case (Within(x), Replace(v, w)) => (None, Some(Replace(Refresh(v, x), w)))
    case (Delete(v), Within(x)) => (Some(Delete(Refresh(v, x))), None)
    case (Replace(v, w), Within(x)) => (Some(Replace(Refresh(v, x), w)), None)
    case (Within(x), Within(y)) =>
      var (x', y') := Cross(x, y);
      (MapWithin(x'), MapWithin(y'))
    case _ => (Some(l), Some(r))
  }

  function OnKey(key: string, e: Option<Edit>): Option<Action> {
    if e.Some? then Some(Object(key, e.value)) else None
  }

  function OnIndex(i: nat, e: Option<Edit>): Option<Action> {
    if e.Some? then Some(List(i, e.value)) else None
  }

  /** Where the existing slot i is after e was applied at j. */
  function Shift(i: nat, j: nat, e: Edit): nat {
    if e.Insert? && j <= i then i + 1
    else if e.Delete? && j < i then i - 1
    else i
  }

  function CrossAt(i: nat, l: Edit, j: nat, r: Edit): (Option<Action>, Option<Action>)
    decreases l, r, 1
  {
    if l.Insert? && r.Insert? then
      if i <= j then (Some(List(i, l)), Some(List(j + 1, r)))
      else (Some(List(i + 1, l)), Some(List(j, r)))
    else if i == j && !l.Insert? && !r.Insert? then
      var (l', r') := CrossEdit(l, r);
      (OnIndex(i, l'), OnIndex(i, r'))
    else
      (Some(List(Shift(i, j, r), l)), Some(List(Shift(j, i, l), r)))
  }

  function Cross(l: Action, r: Action): (Option<Action>, Option<Action>)
    decreases l, r
  {
    match (l, r)
    case (Object(k, e), Object(k', f)) =>
      if k != k' then (Some(l), Some(r))
      else
        var (e', f') := CrossEdit(e, f);
        (OnKey(k, e'), OnKey(k, f'))
    case (List(i, e), List(j, f)) => CrossAt(i, e, j, f)
    case _ => (Some(l), Some(r))
  }

  // ---------------------------------------------------------------- compose

  datatype Merge<T> = Apart | Merged(result: Option<T>)

  /** Merges two edits made one after the other on the same slot, where one edit
      can do the work of both. */
  function MergeEdit(e: Edit, f: Edit): Merge<Edit>
    decreases e, f
  {
    match (e, f)
    case (Insert(v), Delete(_)) => Merged(None)
    case (Insert(v), Replace(_, w)) => Merged(Some(Insert(w)))
    case (Insert(v), Within(x)) => Merged(Some(Insert(Refresh(v, x))))
    case (Delete(v), Insert(w)) => Merged(Some(Replace(v, w)))
    case (Replace(v, _), Delete(_)) => Merged(Some(Delete(v)))
    case (Replace(v, _), Replace(_, w)) => Merged(Some(Replace(v, w)))
    case (Replace(v, w), Within(x)) => Merged(Some(Replace(v, Refresh(w, x))))
    case (Within(x), Within(y)) =>
      (match MergeAction(x, y)
       case Apart => Apart
       case Merged(z) => Merged(MapWithin(z)))
    case _ => Apart
  }

  function MergeAction(a: Action, b: Action): Merge<Action>
    decreases a, b
  {
    match (a, b)
    case (NumberAdd(x), NumberAdd(y)) => Merged(Some(NumberAdd(x + y)))
    case (Object(k, e), Object(k', f)) =>
      if k != k' then Apart
      else (match MergeEdit(e, f)
            case Apart => Apart
            case Merged(g) => Merged(OnKey(k, g)))
    case (List(i, e), List(j, f)) =>
      if i != j then Apart
      else (match MergeEdit(e, f)
            case Apart => Apart
            case Merged(g) => Merged(OnIndex(i, g)))
    case _ => Apart
  }

  /** Appends one action to a list, merging it into the last one where possible. */
  function Append(actions: seq<Action>, a: Action): seq<Action> {
    if actions == [] then [a]
    else
      match MergeAction(actions[|actions| - 1], a)
      case Apart => actions + [a]
      case Merged(b) => actions[..|actions| - 1] + Ot.ToSeq(b)
  }

  function Compose(first: seq<Action>, second: seq<Action>): seq<Action>
    decreases |second|
  {
    if second == [] then first else Compose(Append(first, second[0]), second[1..])
  }

  predicate Redundant(a: Action)
    decreases a
  {
    match a
    case NumberAdd(_) => false
    case Object(_, e) => RedundantEdit(e)
    case List(_, e) => RedundantEdit(e)
  }

  predicate RedundantEdit(e: Edit)
    decreases e
  {
    match e
    case Replace(v, w) => v == w
    case Within(sub) => Redundant(sub)
    case _ => false
  }

  function Depth(a: Action): nat
    decreases a
  {
    match a
    case NumberAdd(_) => 0
    case Object(_, e) => 1 + DepthEdit(e)
    case List(_, e) => 1 + DepthEdit(e)
  }

  function DepthEdit(e: Edit): nat
    decreases e
  {
    if e.Within? then Depth(e.sub) else 0
  }

  /** The operational transform on JSON documents. */
  function Transform(): Ot.Ot<Json, Action> {
    Ot.Ot(Apply, Invert, Cross, Compose, Redundant, Depth)
  }

  // ---------------------------------------------------------------- the diamond

  function ApplyOpt(doc: Json, a: Option<Action>): Option<Json> {
    if a.None? then Some(doc) else Apply(doc, a.value)
  }

  function EditOpt(slot: Option<Json>, e: Option<Edit>): Option<Option<Json>> {
    if e.None? then Some(slot) else ApplyEdit(slot, e.value)
  }

  lemma {:induction false} EditDiamond(slot: Option<Json>, l: Edit, r: Edit)
    requires ApplyEdit(slot, l).Some? && ApplyEdit(slot, r).Some?
    ensures var (l', r') := CrossEdit(l, r);
            var left := EditOpt(ApplyEdit(slot, l).value, r');
            left.Some? && left == EditOpt(ApplyEdit(slot, r).value, l')
    decreases l, r
  {
    if l.Within? && r.Within? {
      ActionDiamond(slot.value, l.sub, r.sub);
    }
  }

  lemma {:induction false} ActionDiamond(doc: Json, l: Action, r: Action)
    requires Apply(doc, l).Some? && Apply(doc, r).Some?
    ensures var (l', r') := Cross(l, r);
            var left := ApplyOpt(Apply(doc, l).value, r');
            left.Some? && left == ApplyOpt(Apply(doc, r).value, l')
    decreases l, r
  {
    match (l, r) {
      case (Object(k, e), Object(k', f)) =>
        if k == k' {
          EditDiamond(Lookup(doc.fields, k), e, f);
          SameKey(doc.fields, k, e, f);
        } else {
          OtherKey(doc.fields, k, e, k', f);
        }
      case (List(i, e), List(j, f)) =>
        if i == j && !e.Insert? && !f.Insert? {
          EditDiamond(Some(doc.items[i]), e, f);
          SameIndex(doc.items, i, e, f);
        } else {
          OtherIndex(doc.items, i, e, j, f);
        }
      case _ =>
    }
  }

  lemma ApplyOnKey(fields: map<string, Json>, k: string, e: Edit)
    requires ApplyEdit(Lookup(fields, k), e).Some?
    ensures Apply(Obj(fields), Object(k, e)) == Some(Obj(Store(fields, k, ApplyEdit(Lookup(fields, k), e).value)))
  {
  }

  lemma StoreSame(fields: map<string, Json>, k: string, x: Option<Json>, y: Option<Json>)
    ensures Lookup(Store(fields, k, x), k) == x
    ensures Store(Store(fields, k, x), k, y) == Store(fields, k, y)
  {
  }

  lemma EditKeyAgain(fields: map<string, Json>, k: string, x: Option<Json>, e: Option<Edit>)
    requires EditOpt(x, e).Some?
    ensures ApplyOpt(Obj(Store(fields, k, x)), OnKey(k, e)) == Some(Obj(Store(fields, k, EditOpt(x, e).value)))
  {
    StoreSame(fields, k, x, EditOpt(x, e).value);
    if e.Some? {
      ApplyOnKey(Store(fields, k, x), k, e.value);
    }
  }

  lemma SameKey(fields: map<string, Json>, k: string, e: Edit, f: Edit)
    requires ApplyEdit(Lookup(fields, k), e).Some? && ApplyEdit(Lookup(fields, k), f).Some?
    requires var (e', f') := CrossEdit(e, f);
             var left := EditOpt(ApplyEdit(Lookup(fields, k), e).value, f');
             left.Some? && left == EditOpt(ApplyEdit(Lookup(fields, k), f).value, e')
    ensures var (e', f') := CrossEdit(e, f);
            var left := ApplyOpt(Apply(Obj(fields), Object(k, e)).value, OnKey(k, f'));
            left.Some? && left == ApplyOpt(Apply(Obj(fields), Object(k, f)).value, OnKey(k, e'))
  {
    var (e', f') := CrossEdit(e, f);
    ApplyOnKey(fields, k, e);
    ApplyOnKey(fields, k, f);
    EditKeyAgain(fields, k, ApplyEdit(Lookup(fields, k), e).value, f');
    EditKeyAgain(fields, k, ApplyEdit(Lookup(fields, k), f).value, e');
  }

  lemma StoreOther(fields: map<string, Json>, k: string, x: Option<Json>, k': string, y: Option<Json>)
    requires k != k'
    ensures Lookup(Store(fields, k, x), k') == Lookup(fields, k')
    ensures Store(Store(fields, k, x), k', y) == Store(Store(fields, k', y), k, x)
  {
  }

  lemma OtherKey(fields: map<string, Json>, k: string, e: Edit, k': string, f: Edit)
    requires k != k'
    requires ApplyEdit(Lookup(fields, k), e).Some? && ApplyEdit(Lookup(fields, k'), f).Some?
    ensures var left := Apply(Apply(Obj(fields), Object(k, e)).value, Object(k', f));
            left.Some? && left == Apply(Apply(Obj(fields), Object(k', f)).value, Object(k, e))
  {
    var x := ApplyEdit(Lookup(fields, k), e).value;
    var y := ApplyEdit(Lookup(fields, k'), f).value;
    StoreOther(fields, k, x, k', y);
    StoreOther(fields, k', y, k, x);
    ApplyOnKey(fields, k, e);
    ApplyOnKey(fields, k', f);
    ApplyOnKey(Store(fields, k, x), k', f);
    ApplyOnKey(Store(fields, k', y), k, e);
  }

  lemma SameIndex(items: seq<Json>, i: nat, e: Edit, f: Edit)
    requires i < |items| && !e.Insert? && !f.Insert?
    requires ApplyEdit(Some(items[i]), e).Some? && ApplyEdit(Some(items[i]), f).Some?
    requires var (e', f') := CrossEdit(e, f);
             var left := EditOpt(ApplyEdit(Some(items[i]), e).value, f');
             left.Some? && left == EditOpt(ApplyEdit(Some(items[i]), f).value, e')
    ensures var (e', f') := CrossEdit(e, f);
            var left := ApplyOpt(Arr(ApplyAt(items, i, e).value), OnIndex(i, f'));
            left.Some? && left == ApplyOpt(Arr(ApplyAt(items, i, f).value), OnIndex(i, e'))
  {
    var (e', f') := CrossEdit(e, f);
    EditAfter(items, i, e, f');
    EditAfter(items, i, f, e');
  }

  /** Editing again the slot that was just edited changes nothing else. */
  lemma EditAfter(items: seq<Json>, i: nat, e: Edit, f: Option<Edit>)
    requires i + Width(e) <= |items| && ApplyEdit(SlotAt(items, i, e), e).Some?
    requires EditOpt(ApplyEdit(SlotAt(items, i, e), e).value, f).Some?
    ensures var slot := EditOpt(ApplyEdit(SlotAt(items, i, e), e).value, f).value;
            ApplyOpt(Arr(ApplyAt(items, i, e).value), OnIndex(i, f)) ==
            Some(Arr(Splice(items, i, Width(e), Ot.ToSeq(slot))))
  {
    var x := ApplyEdit(SlotAt(items, i, e), e).value;
    if f.Some? {
      var slot := ApplyEdit(x, f.value).value;
      var once := Splice(items, i, Width(e), Ot.ToSeq(x));
      assert f.value.Insert? <==> x.None?;
      assert SlotAt(once, i, f.value) == x;
      assert ApplyAt(once, i, f.value) == Some(Splice(once, i, Width(f.value), Ot.ToSeq(slot)));
      assert Splice(once, i, Width(f.value), Ot.ToSeq(slot)) == Splice(items, i, Width(e), Ot.ToSeq(slot));
    }
  }

  /** Where what was at j is after an edit to the left of it. */
  function Moved(j: nat, e: Edit): nat
    requires Width(e) <= j
  {
    if e.Insert? then j + 1 else if e.Delete? then j - 1 else j
  }

  lemma CrossApart(i: nat, e: Edit, j: nat, f: Edit)
    requires i != j || e.Insert? || f.Insert?
    ensures i + Width(e) <= j ==> CrossAt(i, e, j, f) == (Some(List(i, e)), Some(List(Moved(j, e), f)))
    ensures i + Width(e) > j ==>
            j + Width(f) <= i && CrossAt(i, e, j, f) == (Some(List(Moved(i, f), e)), Some(List(j, f)))
  {
  }

  lemma ApplyOnIndex(items: seq<Json>, i: nat, e: Edit)
    ensures ApplyOpt(Arr(items), Some(List(i, e))) ==
            var after := ApplyAt(items, i, e); if after.None? then None else Some(Arr(after.value))
  {
  }

  lemma OtherIndex(items: seq<Json>, i: nat, e: Edit, j: nat, f: Edit)
    requires i != j || e.Insert? || f.Insert?
    requires ApplyAt(items, i, e).Some? && ApplyAt(items, j, f).Some?
    ensures var (l', r') := CrossAt(i, e, j, f);
            var left := ApplyOpt(Arr(ApplyAt(items, i, e).value), r');
            left.Some? && left == ApplyOpt(Arr(ApplyAt(items, j, f).value), l')
  {
    var (l', r') := CrossAt(i, e, j, f);
    CrossApart(i, e, j, f);
    if i + Width(e) <= j {
      Disjoint(items, i, e, j, f);
    } else {
      Disjoint(items, j, f, i, e);
    }
    ApplyOnIndex(ApplyAt(items, i, e).value, r'.value.index, f);
    ApplyOnIndex(ApplyAt(items, j, f).value, l'.value.index, e);
  }

  lemma ApplyAtIs(items: seq<Json>, i: nat, e: Edit)
    requires i + Width(e) <= |items|
    ensures ApplyAt(items, i, e) ==
            var slot := ApplyEdit(SlotAt(items, i, e), e);
            if slot.None? then None else Some(Splice(items, i, Width(e), Ot.ToSeq(slot.value)))
  {
  }

  /** A slot outside the spliced stretch is where the splice has moved it. */
  lemma SlotBeside(items: seq<Json>, i: nat, n: nat, p: seq<Json>, j: nat, f: Edit)
    requires i + n <= |items| && j + Width(f) <= |items|
    ensures i + n <= j ==> SlotAt(Splice(items, i, n, p), j - n + |p|, f) == SlotAt(items, j, f)
    ensures j + Width(f) <= i ==> SlotAt(Splice(items, i, n, p), j, f) == SlotAt(items, j, f)
  {
  }

  /** An edit at i and one at j to the right of it: the left one stays put, the
      right one moves by what the left one added or removed. */
  lemma Disjoint(items: seq<Json>, i: nat, e: Edit, j: nat, f: Edit)
    requires i + Width(e) <= j
    requires ApplyAt(items, i, e).Some? && ApplyAt(items, j, f).Some?
    ensures var left := ApplyAt(ApplyAt(items, i, e).value, Moved(j, e), f);
            left.Some? && left == ApplyAt(ApplyAt(items, j, f).value, i, e)
  {
    var x, y := ApplyEdit(SlotAt(items, i, e), e).value, ApplyEdit(SlotAt(items, j, f), f).value;
    var p, q := Ot.ToSeq(x), Ot.ToSeq(y);
    assert Moved(j, e) == j - Width(e) + |p|;
    AppliesTo(items, i, e, x);
    AppliesTo(items, j, f, y);
    SlotBeside(items, i, Width(e), p, j, f);
    SlotBeside(items, j, Width(f), q, i, e);
    AppliesTo(Splice(items, i, Width(e), p), Moved(j, e), f, y);
    AppliesTo(Splice(items, j, Width(f), q), i, e, x);
    SpliceCommute(items, i, Width(e), p, j, Width(f), q);
  }

  lemma AppliesTo(items: seq<Json>, i: nat, e: Edit, x: Option<Json>)
    requires i + Width(e) <= |items| && ApplyEdit(SlotAt(items, i, e), e) == Some(x)
    ensures ApplyAt(items, i, e) == Some(Splice(items, i, Width(e), Ot.ToSeq(x)))
  {
  }

  lemma SpliceCommute(items: seq<Json>, i: nat, n: nat, p: seq<Json>, j: nat, m: nat, q: seq<Json>)
    requires i + n <= j && j + m <= |items|
    ensures Splice(Splice(items, i, n, p), j - n + |p|, m, q) == Splice(Splice(items, j, m, q), i, n, p)
  {
    var a := Splice(items, i, n, p);
    assert a[..j - n + |p|] == items[..i] + p + items[i + n..j];
    assert a[j - n + |p| + m..] == items[j + m..];
    var b := Splice(items, j, m, q);
    assert b[..i] == items[..i];
    assert b[i + n..] == items[i + n..j] + q + items[j + m..];
  }

  // ---------------------------------------------------------------- the other laws

  lemma {:induction false} EditUndone(slot: Option<Json>, e: Edit)
    requires ApplyEdit(slot, e).Some?
    ensures ApplyEdit(ApplyEdit(slot, e).value, InvertEdit(e)) == Some(slot)
    decreases e
  {
    if e.Within? {
      ActionUndone(slot.value, e.sub);
    }
  }

  lemma {:induction false} ActionUndone(doc: Json, a: Action)
    requires Apply(doc, a).Some?
    ensures Apply(Apply(doc, a).value, Invert(a)) == Some(doc)
    decreases a
  {
    match a {
      case NumberAdd(_) =>
      case Object(k, e) =>
        EditUndone(Lookup(doc.fields, k), e);
        var x := ApplyEdit(Lookup(doc.fields, k), e).value;
        StoreSame(doc.fields, k, x, Lookup(doc.fields, k));
        ApplyOnKey(doc.fields, k, e);
        ApplyOnKey(Store(doc.fields, k, x), k, InvertEdit(e));
        assert Store(doc.fields, k, Lookup(doc.fields, k)) == doc.fields;
      case List(i, e) =>
        EditUndone(SlotAt(doc.items, i, e), e);
        EditAfter(doc.items, i, e, Some(InvertEdit(e)));
        SpliceSame(doc.items, i, e);
    }
  }

  lemma {:induction false} EditInvolution(e: Edit)
    ensures InvertEdit(InvertEdit(e)) == e
    decreases e
  {
    if e.Within? {
      ActionInvolution(e.sub);
    }
  }

  lemma {:induction false} ActionInvolution(a: Action)
    ensures Invert(Invert(a)) == a
    decreases a
  {
    if !a.NumberAdd? {
      EditInvolution(a.edit);
    }
  }

  /** A merged edit does what its two parts did in turn. */
  lemma {:induction false} MergeEditSound(slot: Option<Json>, e: Edit, f: Edit)
    requires MergeEdit(e, f).Merged?
    requires ApplyEdit(slot, e).Some? && ApplyEdit(ApplyEdit(slot, e).value, f).Some?
    ensures EditOpt(slot, MergeEdit(e, f).result) == ApplyEdit(ApplyEdit(slot, e).value, f)
    decreases e, f, 0
  {
    if e.Within? && f.Within? {
      MergeActionSound(slot.value, e.sub, f.sub);
    }
  }

  /** A merged edit looks at the slot its first part looked at. */
  lemma MergeKeepsWidth(slot: Option<Json>, e: Edit, f: Edit)
    requires MergeEdit(e, f).Merged?
    requires ApplyEdit(slot, e).Some? && ApplyEdit(ApplyEdit(slot, e).value, f).Some?
    ensures MergeEdit(e, f).result.Some? ==> MergeEdit(e, f).result.value.Insert? == e.Insert?
    ensures f.Insert? == ApplyEdit(slot, e).value.None?
  {
  }

  lemma {:induction false} MergeActionSound(doc: Json, a: Action, b: Action)
    requires MergeAction(a, b).Merged?
    requires Apply(doc, a).Some? && Apply(Apply(doc, a).value, b).Some?
    ensures ApplyOpt(doc, MergeAction(a, b).result) == Apply(Apply(doc, a).value, b)
    decreases a, b
  {
    match (a, b) {
      case (NumberAdd(x), NumberAdd(y)) =>
      case (Object(k, e), Object(_, f)) =>
        MergeOnKey(doc.fields, k, e, f);
      case (List(i, e), List(_, f)) =>
        MergeOnIndex(doc.items, i, e, f);
    }
  }

  lemma {:induction false} MergeOnKey(fields: map<string, Json>, k: string, e: Edit, f: Edit)
    requires MergeEdit(e, f).Merged?
    requires Apply(Obj(fields), Object(k, e)).Some?
    requires Apply(Apply(Obj(fields), Object(k, e)).value, Object(k, f)).Some?
    ensures ApplyOpt(Obj(fields), OnKey(k, MergeEdit(e, f).result)) ==
            Apply(Apply(Obj(fields), Object(k, e)).value, Object(k, f))
    decreases e, f, 1
  {
    var slot := Lookup(fields, k);
    var x := ApplyEdit(slot, e).value;
    assert Lookup(Store(fields, k, x), k) == x;
    MergeEditSound(slot, e, f);
    var y := ApplyEdit(x, f).value;
    assert Store(Store(fields, k, x), k, y) == Store(fields, k, y);
    assert Store(fields, k, slot) == fields;
  }

  lemma {:induction false} MergeOnIndex(items: seq<Json>, i: nat, e: Edit, f: Edit)
    requires MergeEdit(e, f).Merged?
    requires ApplyAt(items, i, e).Some? && ApplyAt(ApplyAt(items, i, e).value, i, f).Some?
    ensures ApplyOpt(Arr(items), OnIndex(i, MergeEdit(e, f).result)) ==
            ApplyOpt(Arr(ApplyAt(items, i, e).value), Some(List(i, f)))
    decreases e, f, 1
  {
    var slot := SlotAt(items, i, e);
    var x := ApplyEdit(slot, e).value;
    var once := Splice(items, i, Width(e), Ot.ToSeq(x));
    ApplyAtIs(items, i, e);
    ApplyAtIs(once, i, f);
    assert SlotAt(once, i, f) == x;
    MergeEditSound(slot, e, f);
    EditAfter(items, i, e, Some(f));
    MergeKeepsWidth(slot, e, f);
    var g := MergeEdit(e, f).result;
    if g.Some? {
      assert SlotAt(items, i, g.value) == slot;
      ApplyAtIs(items, i, g.value);
    } else {
      SpliceSame(items, i, e);
    }
  }

  lemma ApplyOptIsList(doc: Json, a: Option<Action>)
    ensures Ot.Apply(Transform(), doc, Ot.ToSeq(a)) == ApplyOpt(doc, a)
  {
    if a.Some? {
      assert [a.value][1..] == [];
    }
  }

  lemma {:induction false} AppendSound(doc: Json, actions: seq<Action>, a: Action)
    requires Ot.Apply(Transform(), doc, actions + [a]).Some?
    ensures Ot.Apply(Transform(), doc, Append(actions, a)) == Ot.Apply(Transform(), doc, actions + [a])
  {
    var ot := Transform();
    if actions != [] && MergeAction(actions[|actions| - 1], a).Merged? {
      var n := |actions| - 1;
      var front, last := actions[..n], actions[n];
      assert actions + [a] == front + [last, a];
      Ot.ApplyConcat(ot, doc, front, [last, a]);
      var mid := Ot.Apply(ot, doc, front).value;
      assert [last, a][1..] == [a];
      assert Ot.Apply(ot, mid, [last, a]) == Ot.Apply(ot, Apply(mid, last).value, [a]);
      assert Ot.Apply(ot, Apply(mid, last).value, [a]) == Apply(Apply(mid, last).value, a) by {
        ApplyOptIsList(Apply(mid, last).value, Some(a));
      }
      MergeActionSound(mid, last, a);
      ApplyOptIsList(mid, MergeAction(last, a).result);
      Ot.ApplyConcat(ot, doc, front, Ot.ToSeq(MergeAction(last, a).result));
    }
  }

  lemma {:induction false} ComposeSound(doc: Json, first: seq<Action>, second: seq<Action>)
    requires Ot.Apply(Transform(), doc, first + second).Some?
    ensures Ot.Apply(Transform(), doc, Compose(first, second)) == Ot.Apply(Transform(), doc, first + second)
    decreases |second|
  {
    var ot := Transform();
    if second == [] {
      assert first + second == first;
    } else {
      assert first + second == (first + [second[0]]) + second[1..];
      Ot.ApplyConcat(ot, doc, first + [second[0]], second[1..]);
      AppendSound(doc, first, second[0]);
      Ot.ApplyConcat(ot, doc, Append(first, second[0]), second[1..]);
      ComposeSound(doc, Append(first, second[0]), second[1..]);
    }
  }

  lemma {:induction false} RedundantEditSound(slot: Option<Json>, e: Edit)
    requires RedundantEdit(e) && ApplyEdit(slot, e).Some?
    ensures ApplyEdit(slot, e) == Some(slot)
    decreases e
  {
    if e.Within? {
      RedundantSound(slot.value, e.sub);
    }
  }

  lemma SpliceSame(items: seq<Json>, i: nat, e: Edit)
    requires i + Width(e) <= |items|
    ensures Splice(items, i, Width(e), Ot.ToSeq(SlotAt(items, i, e))) == items
  {
  }

  lemma {:induction false} RedundantSound(doc: Json, a: Action)
    requires Redundant(a) && Apply(doc, a).Some?
    ensures Apply(doc, a) == Some(doc)
    decreases a
  {
    match a {
      case Object(k, e) =>
        RedundantEditSound(Lookup(doc.fields, k), e);
        assert Store(doc.fields, k, Lookup(doc.fields, k)) == doc.fields;
      case List(i, e) =>
        assert ApplyAt(doc.items, i, e).Some?;
        RedundantEditSound(SlotAt(doc.items, i, e), e);
        SpliceSame(doc.items, i, e);
    }
  }

  /** The JSON transform meets every law the engine relies on. */
  lemma JsonOtLaws()
    ensures Ot.Laws(Transform())
  {
    var ot := Transform();
    forall s, l, r ensures Ot.DiamondAt(ot, s, l, r) {
      if Apply(s, l).Some? && Apply(s, r).Some? {
        ActionDiamond(s, l, r);
        var (l', r') := Cross(l, r);
        ApplyOptIsList(Apply(s, l).value, r');
        ApplyOptIsList(Apply(s, r).value, l');
      }
    }
    forall s, a ensures Ot.UndoAt(ot, s, a) {
      if Apply(s, a).Some? {
        ActionUndone(s, a);
      }
    }
    forall a ensures Ot.InvolutionAt(ot, a) {
      ActionInvolution(a);
    }
    forall s, first, second ensures Ot.ComposeAt(ot, s, first, second) {
      if Ot.Apply(ot, s, first + second).Some? {
        ComposeSound(s, first, second);
      }
    }
    forall s, a ensures Ot.RedundantAt(ot, s, a) {
      if Redundant(a) && Apply(s, a).Some? {
        RedundantSound(s, a);
      }
    }
  }
}
