/** Action lists made view by view, as most generators make them. */
module ViewEdits {
  import opened Options
  import opened Datasheet
  import opened Sequences

  function ApplyEdits(v: View, edits: seq<ViewEdit>): Option<View>
    decreases |edits|
  {
    if edits == [] then Some(v)
    else var w := ApplyView(v, edits[0]); if w.None? then None else ApplyEdits(w.value, edits[1..])
  }

  predicate ExactEdits(v: View, edits: seq<ViewEdit>)
    decreases |edits|
  {
    edits == [] ||
    (ExactView(v, edits[0]) && ApplyView(v, edits[0]).Some? && ExactEdits(ApplyView(v, edits[0]).value, edits[1..]))
  }

  lemma {:induction false} ApplyEditsConcat(v: View, xs: seq<ViewEdit>, ys: seq<ViewEdit>)
    requires ApplyEdits(v, xs).Some?
    ensures ApplyEdits(v, xs + ys) == ApplyEdits(ApplyEdits(v, xs).value, ys)
    ensures ExactEdits(v, xs) ==> (ExactEdits(v, xs + ys) <==> ExactEdits(ApplyEdits(v, xs).value, ys))
    decreases |xs|
  {
    if xs == [] {
      assert xs + ys == ys;
    } else {
      assert (xs + ys)[1..] == xs[1..] + ys;
      ApplyEditsConcat(ApplyView(v, xs[0]).value, xs[1..], ys);
    }
  }

  lemma OneEdit(v: View, e: ViewEdit)
    ensures ApplyEdits(v, [e]) == ApplyView(v, e)
    ensures ExactEdits(v, [e]) <==> ExactView(v, e) && ApplyView(v, e).Some?
  {
    assert [e][1..] == [];
  }

  /** edits take v to w, each recording what it finds. */
  ghost predicate Takes(v: View, edits: seq<ViewEdit>, w: View) {
    ApplyEdits(v, edits) == Some(w) && ExactEdits(v, edits)
  }

  lemma TakesNothing(v: View)
    ensures Takes(v, [], v)
  {
  }

  lemma TakesOne(v: View, e: ViewEdit, w: View)
    requires ApplyView(v, e) == Some(w) && ExactView(v, e)
    ensures Takes(v, [e], w)
  {
    OneEdit(v, e);
  }

  lemma TakesThen(v: View, xs: seq<ViewEdit>, w: View, ys: seq<ViewEdit>, x: View)
    requires Takes(v, xs, w) && Takes(w, ys, x)
    ensures Takes(v, xs + ys, x)
  {
    ApplyEditsConcat(v, xs, ys);
  }

  lemma TakesCons(v: View, e: ViewEdit, w: View, rest: seq<ViewEdit>, x: View)
    requires ApplyView(v, e) == Some(w) && ExactView(v, e) && Takes(w, rest, x)
    ensures Takes(v, [e] + rest, x)
  {
    TakesOne(v, e, w);
    TakesThen(v, [e], w, rest, x);
  }

  /** A view's edits as actions on view i. */
  function Lift(i: nat, edits: seq<ViewEdit>): seq<Action> {
    if edits == [] then [] else [OnView(i, edits[0])] + Lift(i, edits[1..])
  }

  /** The actions a generator makes from each view in turn. */
  function AllViews(g: View -> seq<ViewEdit>, views: seq<View>, start: nat): seq<Action>
    decreases |views|
  {
    if views == [] then [] else Lift(start, g(views[0])) + AllViews(g, views[1..], start + 1)
  }

  lemma {:induction false} LiftApplies(s: Snapshot, i: nat, edits: seq<ViewEdit>)
    requires i < |s.views|
    ensures ApplyAll(s, Lift(i, edits)) ==
            (var w := ApplyEdits(s.views[i], edits);
             if w.None? then None else Some(s.(views := s.views[i := w.value])))
    ensures ExactAll(s, Lift(i, edits)) <==> ExactEdits(s.views[i], edits)
    decreases |edits|
  {
    if edits == [] {
      assert s.views[i := s.views[i]] == s.views;
    } else {
      assert ([OnView(i, edits[0])] + Lift(i, edits[1..]))[1..] == Lift(i, edits[1..]);
      var w := ApplyView(s.views[i], edits[0]);
      if w.Some? {
        var t := s.(views := s.views[i := w.value]);
        LiftApplies(t, i, edits[1..]);
        var x := ApplyEdits(w.value, edits[1..]);
        if x.Some? {
          assert t.views[i := x.value] == s.views[i := x.value];
        }
      }
    }
  }

  /** A view after a generator's edits for it. */
  function Edited(g: View -> seq<ViewEdit>, v: View): View {
    var w := ApplyEdits(v, g(v));
    if w.Some? then w.value else v
  }

  function EditedViews(g: View -> seq<ViewEdit>, views: seq<View>): (r: seq<View>)
    ensures |r| == |views|
    ensures forall i :: 0 <= i < |views| ==> r[i] == Edited(g, views[i])
  {
    seq(|views|, i requires 0 <= i < |views| => Edited(g, views[i]))
  }

  /** The generator's edits fit every view. */
  predicate FitViews(g: View -> seq<ViewEdit>, views: seq<View>) {
    forall i :: 0 <= i < |views| ==> ApplyEdits(views[i], g(views[i])).Some?
  }

  predicate ExactViews(g: View -> seq<ViewEdit>, views: seq<View>) {
    forall i :: 0 <= i < |views| ==> ExactEdits(views[i], g(views[i]))
  }

  lemma FitViewsCons(g: View -> seq<ViewEdit>, views: seq<View>)
    requires views != []
    ensures FitViews(g, views) <==> ApplyEdits(views[0], g(views[0])).Some? && FitViews(g, views[1..])
  {
    assert forall i :: 0 < i < |views| ==> views[i] == views[1..][i - 1];
  }

  lemma EditedViewsCons(g: View -> seq<ViewEdit>, views: seq<View>)
    requires views != []
    ensures EditedViews(g, views) == [Edited(g, views[0])] + EditedViews(g, views[1..])
  {
  }

  function WithEdited(s: Snapshot, g: View -> seq<ViewEdit>, start: nat): Snapshot
    requires start <= |s.views|
  {
    s.(views := s.views[..start] + EditedViews(g, s.views[start..]))
  }

  lemma UpdateSplits<T>(xs: seq<T>, i: nat, x: T)
    requires i < |xs|
    ensures xs[i := x][..i + 1] == xs[..i] + [x] && xs[i := x][i + 1..] == xs[i..][1..]
  {
  }

  lemma WithEditedStep(s: Snapshot, g: View -> seq<ViewEdit>, start: nat)
    requires start < |s.views|
    ensures var t := s.(views := s.views[start := Edited(g, s.views[start])]);
            t.views[start + 1..] == s.views[start..][1..] && WithEdited(t, g, start + 1) == WithEdited(s, g, start)
  {
    var views, e := s.views[start..], Edited(g, s.views[start]);
    UpdateSplits(s.views, start, e);
    EditedViewsCons(g, views);
    Associates(s.views[..start], [e], EditedViews(g, views[1..]));
  }

  /** Although every view's actions are computed on the snapshot before any of them, each
      view gets exactly its own edits; and the whole list fits exactly when they all do. */
  lemma {:induction false} AllViewsApply(s: Snapshot, g: View -> seq<ViewEdit>, start: nat)
    requires start <= |s.views|
    ensures ApplyAll(s, AllViews(g, s.views[start..], start)) ==
            if FitViews(g, s.views[start..]) then Some(WithEdited(s, g, start)) else None
    decreases |s.views| - start
  {
    var views := s.views[start..];
    if views == [] {
      assert s.views[..start] + EditedViews(g, views) == s.views;
    } else {
      var first, rest := Lift(start, g(views[0])), AllViews(g, views[1..], start + 1);
      ApplyAllConcat(s, first, rest);
      LiftApplies(s, start, g(views[0]));
      FitViewsCons(g, views);
      if ApplyEdits(views[0], g(views[0])).Some? {
        var t := s.(views := s.views[start := Edited(g, views[0])]);
        WithEditedStep(s, g, start);
        AllViewsApply(t, g, start + 1);
      }
    }
  }

  lemma {:induction false} AllViewsExact(s: Snapshot, g: View -> seq<ViewEdit>, start: nat)
    requires start <= |s.views| && FitViews(g, s.views[start..]) && ExactViews(g, s.views[start..])
    ensures ExactAll(s, AllViews(g, s.views[start..], start))
    decreases |s.views| - start
  {
    var views := s.views[start..];
    if views != [] {
      var first, rest := Lift(start, g(views[0])), AllViews(g, views[1..], start + 1);
      LiftApplies(s, start, g(views[0]));
      ExactAllConcat(s, first, rest);
      var t := s.(views := s.views[start := Edited(g, views[0])]);
      assert t.views[start + 1..] == views[1..];
      AllViewsExact(t, g, start + 1);
    }
  }

  /** The edits take every view to the one given for it. */
  lemma AllViewsTo(s: Snapshot, g: View -> seq<ViewEdit>, after: seq<View>)
    requires |after| == |s.views|
    requires forall i :: 0 <= i < |after| ==> ApplyEdits(s.views[i], g(s.views[i])) == Some(after[i])
    ensures ApplyAll(s, AllViews(g, s.views, 0)) == Some(s.(views := after))
  {
    assert s.views[0..] == s.views && s.views[..0] == [];
    AllViewsApply(s, g, 0);
    assert forall i :: 0 <= i < |after| ==> EditedViews(g, s.views)[i] == after[i];
    assert [] + EditedViews(g, s.views) == after;
  }

  lemma AllViewsToExactly(s: Snapshot, g: View -> seq<ViewEdit>, after: seq<View>)
    requires |after| == |s.views|
    requires forall i :: 0 <= i < |after| ==> ApplyEdits(s.views[i], g(s.views[i])) == Some(after[i])
    requires forall i :: 0 <= i < |after| ==> ExactEdits(s.views[i], g(s.views[i]))
    ensures ApplyAll(s, AllViews(g, s.views, 0)) == Some(s.(views := after))
    ensures ExactAll(s, AllViews(g, s.views, 0))
  {
    AllViewsTo(s, g, after);
    assert s.views[0..] == s.views;
    AllViewsExact(s, g, 0);
  }

  // ---------------------------------------------------------------- undoing

  function InvertEdits(edits: seq<ViewEdit>): seq<ViewEdit> {
    if edits == [] then [] else InvertEdits(edits[1..]) + [InvertView(edits[0])]
  }

  lemma {:induction false} LiftConcat(i: nat, xs: seq<ViewEdit>, ys: seq<ViewEdit>)
    ensures Lift(i, xs + ys) == Lift(i, xs) + Lift(i, ys)
  {
    if xs == [] {
      assert xs + ys == ys;
    } else {
      assert (xs + ys)[1..] == xs[1..] + ys;
      LiftConcat(i, xs[1..], ys);
    }
  }

  lemma LiftOne(i: nat, e: ViewEdit)
    ensures Lift(i, [e]) == [OnView(i, e)]
  {
    assert [e][1..] == [];
  }

  lemma {:induction false} LiftInverse(i: nat, edits: seq<ViewEdit>)
    ensures InvertAll(Lift(i, edits)) == Lift(i, InvertEdits(edits))
  {
    if edits != [] {
      LiftInverse(i, edits[1..]);
      LiftConcat(i, InvertEdits(edits[1..]), [InvertView(edits[0])]);
      LiftOne(i, InvertView(edits[0]));
      assert ([OnView(i, edits[0])] + Lift(i, edits[1..]))[1..] == Lift(i, edits[1..]);
    }
  }

  /** What the inverses of g's edits for the views `before` make of the views `after`. */
  function UndoViews(g: View -> seq<ViewEdit>, before: seq<View>, after: seq<View>): (r: Option<seq<View>>)
    requires |before| == |after|
    ensures r.Some? ==> |r.value| == |after|
  {
    if before == [] then Some([])
    else
      var v := ApplyEdits(after[0], InvertEdits(g(before[0])));
      var rest := UndoViews(g, before[1..], after[1..]);
      if v.None? || rest.None? then None else Some([v.value] + rest.value)
  }

  /** The reversed inverse of a generator's actions undoes every view by itself. */
  lemma {:induction false} AllViewsUndo(t: Snapshot, g: View -> seq<ViewEdit>, before: seq<View>, start: nat)
    requires start + |before| == |t.views|
    ensures ApplyAll(t, InvertAll(AllViews(g, before, start))) ==
            var r := UndoViews(g, before, t.views[start..]);
            if r.None? then None else Some(t.(views := t.views[..start] + r.value))
    decreases |before|
  {
    if before == [] {
      assert t.views[..start] + [] == t.views;
    } else {
      var first, rest := Lift(start, g(before[0])), AllViews(g, before[1..], start + 1);
      InvertAllConcat(first, rest);
      LiftInverse(start, g(before[0]));
      ApplyAllConcat(t, InvertAll(rest), InvertAll(first));
      AllViewsUndo(t, g, before[1..], start + 1);
      assert t.views[start..][1..] == t.views[start + 1..];
      var r := UndoViews(g, before[1..], t.views[start + 1..]);
      if r.Some? {
        UndoFirst(t, g, before, start, r.value);
      }
    }
  }

  lemma UndoFirst(t: Snapshot, g: View -> seq<ViewEdit>, before: seq<View>, start: nat, rest: seq<View>)
    requires before != [] && start + |before| == |t.views| && |rest| == |before| - 1
    ensures var t1 := t.(views := t.views[..start + 1] + rest);
            var v := ApplyEdits(t.views[start], InvertEdits(g(before[0])));
            ApplyAll(t1, Lift(start, InvertEdits(g(before[0])))) ==
            if v.None? then None else Some(t.(views := t.views[..start] + ([v.value] + rest)))
  {
    var t1 := t.(views := t.views[..start + 1] + rest);
    LiftApplies(t1, start, InvertEdits(g(before[0])));
    var v := ApplyEdits(t.views[start], InvertEdits(g(before[0])));
    if v.Some? {
      assert t1.views[start := v.value] == t.views[..start] + ([v.value] + rest);
    }
  }

  predicate RestoresView(g: View -> seq<ViewEdit>, before: View, after: View) {
    ApplyEdits(after, InvertEdits(g(before))) == Some(before)
  }

  predicate RestoresViews(g: View -> seq<ViewEdit>, before: seq<View>, after: seq<View>)
    requires |before| == |after|
  {
    forall i :: 0 <= i < |before| ==> RestoresView(g, before[i], after[i])
  }

  /** Undoing restores the views exactly when it restores each of them. */
  lemma AllViewsUndoneIff(t: Snapshot, g: View -> seq<ViewEdit>, before: seq<View>)
    requires |before| == |t.views|
    ensures ApplyAll(t, InvertAll(AllViews(g, before, 0))) == Some(t.(views := before)) <==>
            RestoresViews(g, before, t.views)
  {
    AllViewsUndo(t, g, before, 0);
    assert t.views[0..] == t.views && t.views[..0] == [];
    UndoViewsIff(g, before, t.views);
    var r := UndoViews(g, before, t.views);
    if r.Some? {
      assert [] + r.value == r.value;
      assert t.(views := r.value).views == r.value;
    }
  }

  lemma RestoresViewsCons(g: View -> seq<ViewEdit>, before: seq<View>, after: seq<View>)
    requires |before| == |after| > 0
    ensures RestoresViews(g, before, after) <==>
            RestoresView(g, before[0], after[0]) && RestoresViews(g, before[1..], after[1..])
  {
    assert forall i :: 0 < i < |before| ==> before[i] == before[1..][i - 1] && after[i] == after[1..][i - 1];
  }

  lemma ConsEquals<T>(x: T, xs: seq<T>, ys: seq<T>)
    requires ys != []
    ensures [x] + xs == ys <==> x == ys[0] && xs == ys[1..]
  {
    assert ([x] + xs)[1..] == xs && ([x] + xs)[0] == x;
    assert ys == [ys[0]] + ys[1..];
  }

  lemma {:induction false} UndoViewsIff(g: View -> seq<ViewEdit>, before: seq<View>, after: seq<View>)
    requires |before| == |after|
    ensures UndoViews(g, before, after) == Some(before) <==> RestoresViews(g, before, after)
  {
    if before != [] {
      UndoViewsIff(g, before[1..], after[1..]);
      RestoresViewsCons(g, before, after);
      var v := ApplyEdits(after[0], InvertEdits(g(before[0])));
      var rest := UndoViews(g, before[1..], after[1..]);
      if v.Some? && rest.Some? {
        ConsEquals(v.value, rest.value, before);
      }
    }
  }
}
