/** Concrete inputs on which the code does not do what one would expect, one for each
    lemma that says exactly when it does. */
module Witnesses {
  import opened Options
  import H = History
  import J = JsonOt
  import Divergence
  import Ot
  import D = Datasheet
  import Records
  import DeleteRecords
  import DeleteField
  import AddField
  import References
  import L = LinkedData
  import LinkSymmetry
  import ViewPatch

  // ---------------------------------------------------------------- undo history

  lemma DeletesMeet(v: J.Json)
    ensures Ot.TransformX(J.Transform(), [J.List(0, J.Delete(v))], [J.List(0, J.Delete(v))]) == ([], [])
  {
    var l := J.List(0, J.Delete(v));
    var nothing: seq<J.Action> := [];
    assert J.CrossEdit(J.Delete(v), J.Delete(v)) == (None, None);
    assert J.CrossAt(0, J.Delete(v), 0, J.Delete(v)) == (None, None);
    assert J.Cross(l, l) == (None, None);
    assert [l][1..] == nothing;
    assert Ot.CrossOne(J.Transform(), nothing, None) == (nothing, None);
    assert Ot.CrossOne(J.Transform(), [l], Some(l)) == (nothing, None);
    assert Ot.TransformX(J.Transform(), nothing, nothing) == (nothing, nothing);
  }

  const REGISTRY: H.Registry := map["SetRecords" := true]

  function Entry(actions: seq<J.Action>): H.UndoCommand<J.Action> {
    H.UndoCommand("SetRecords", actions)
  }

  lemma InsertStep(v: J.Json)
    ensures H.Step(J.Transform(), REGISTRY, H.History(J.Arr([]), [], []), H.Command(Entry([J.List(0, J.Insert(v))]))) ==
            H.History(J.Arr([v]), [Entry([J.List(0, J.Delete(v))])], [])
  {
    var insert := [J.List(0, J.Insert(v))];
    Divergence.InsertInto([], 0, v);
    var none: seq<J.Json> := [];
    assert none[..0] + [v] + none[0..] == [v];
    assert Ot.Invert(J.Transform(), insert) == [J.List(0, J.Delete(v))] by {
      assert insert[1..] == [];
      assert J.InvertEdit(J.Insert(v)) == J.Delete(v);
      assert Ot.Invert(J.Transform(), insert[1..]) == [];
    }
  }

  lemma DeleteStep(v: J.Json)
    ensures H.Step(J.Transform(), REGISTRY, H.History(J.Arr([v]), [Entry([J.List(0, J.Delete(v))])], []),
                   H.RemoteEdit([J.List(0, J.Delete(v))])) ==
            H.History(J.Arr([]), [Entry([])], [])
  {
    var ot, stack, remote := J.Transform(), [Entry([J.List(0, J.Delete(v))])], [J.List(0, J.Delete(v))];
    Divergence.DeletesOnly(v);
    DeletesMeet(v);
    assert H.Front(stack) == [] && !H.OverLimit(1, 1);
    assert H.TransformStack(ot, [], []) == [];
    assert [] + [Entry([])] == [Entry([])];
  }

  lemma KeysLose()
    ensures var ot, h := J.Transform(), H.History(J.Arr([]), [Entry([])], []);
            H.RedoN(ot, REGISTRY, H.UndoN(ot, REGISTRY, h, 1), 1) == H.History(J.Arr([]), [], [])
  {
    var ot, h, start := J.Transform(), H.History(J.Arr([]), [Entry([])], []), H.History(J.Arr([]), [], []);
    assert H.Front([Entry([])]) == [];
    assert H.UndoStep(ot, REGISTRY, h) == start;
    assert H.UndoN(ot, REGISTRY, start, 0) == start && H.RedoN(ot, REGISTRY, start, 0) == start;
  }

  /** I insert v, a remote edit deletes it again: my undo entry becomes empty.  One undo and
      one redo later the entry is gone. */
  lemma RebasedAwayEntryIsLost(v: J.Json)
    ensures var ot, start := J.Transform(), H.History(J.Arr([]), [], []);
            var h := H.Run(ot, REGISTRY, start,
                [H.Command(Entry([J.List(0, J.Insert(v))])), H.RemoteEdit([J.List(0, J.Delete(v))])]);
            && h == H.History(J.Arr([]), [Entry([])], [])
            && H.RedoN(ot, REGISTRY, H.UndoN(ot, REGISTRY, h, 1), 1) == start
  {
    var events := [H.Command(Entry([J.List(0, J.Insert(v))])), H.RemoteEdit([J.List(0, J.Delete(v))])];
    InsertStep(v);
    DeleteStep(v);
    KeysLose();
    assert events[1..][1..] == [];
    var h := H.History(J.Arr([]), [Entry([])], []);
    assert H.Run(J.Transform(), REGISTRY, h, []) == h;
  }

  // ---------------------------------------------------------------- datasheets

  function OneRecord(data: map<string, D.CellValue>): D.Snapshot {
    D.Snapshot("dst", [], map["fld" := D.Field("fld", false)], map["rec" := D.Record("rec", data)])
  }

  /** Writing an empty list to an absent cell deletes nothing; undoing it stores a null. */
  lemma EmptyListIsNotUndone()
    ensures var s := OneRecord(map[]);
            && Records.SetRecord(s, "rec", "fld", D.Items([])) == Some(D.OnCell("rec", "fld", D.OD(D.Null)))
            && Records.AfterSet(s, "rec", "fld", D.Items([])) == s
            && D.Apply(s, D.Invert(D.OnCell("rec", "fld", D.OD(D.Null)))) == Some(OneRecord(map["fld" := D.Null]))
  {
    var s := OneRecord(map[]);
    var data: map<string, D.CellValue> := map[];
    assert data - {"fld"} == data;
    assert s.recordMap["rec" := s.recordMap["rec"]] == s.recordMap;
    assert s.recordMap["rec" := D.Record("rec", map["fld" := D.Null])] == OneRecord(map["fld" := D.Null]).recordMap;
  }

  /** A deleted record's cell that cannot be edited does not come back. */
  lemma UneditableCellIsLost()
    ensures var s := OneRecord(map["fld" := D.Scalar(1)]);
            var actions := DeleteRecords.DeleteActions(s, ["rec"], {});
            && D.ApplyAll(s, actions).Some?
            && D.ApplyAll(D.ApplyAll(s, actions).value, D.InvertAll(actions)) == Some(OneRecord(map[]))
  {
    var s := OneRecord(map["fld" := D.Scalar(1)]);
    DeleteRecords.DeleteActionsApply(s, ["rec"], {});
    DeleteRecords.DeleteUndone(s, ["rec"], {});
    var restored := DeleteRecords.Restored(s.recordMap, ["rec"], {});
    assert "rec" in ["rec"];
    assert restored["rec"].data == map[];
    assert restored == OneRecord(map[]).recordMap;
  }

  /** Of two sort rules on the deleted field the second stays. */
  lemma SecondRuleStays()
    ensures var rules := [D.Rule("fld", false), D.Rule("fld", true)];
            DeleteField.RulesAfter(rules, "fld") == [D.Rule("fld", true)]
  {
    var rules := [D.Rule("fld", false), D.Rule("fld", true)];
    assert DeleteField.RuleIds(rules) == ["fld", "fld"];
    assert DeleteField.RuleIndex(rules, "fld") == 0;
    assert D.RemoveAt(rules, 0) == [D.Rule("fld", true)];
  }

  /** Placed before a reference field that the view does not show, the new column's index is
      -1, which puts it before the last column, and undoing removes that one instead. */
  lemma MissingReferenceIsNotUndone(v: D.View, field: D.Field)
    requires v.columns == [D.Column("a", false, map[]), D.Column("b", false, map[])] && field.id == "new"
    ensures var p := AddField.Placement(None, None, Some("ref"), 0, None);
            var added := AddField.NewColumn(v, field, p);
            && AddField.NewColumnIndex(v, p) == -1
            && AddField.AddedFieldView(v, field, p).columns == [v.columns[0], added, v.columns[1]]
            && D.ApplyList([v.columns[0], added, v.columns[1]], D.LD(-1, added)) == Some([v.columns[0], added])
  {
    assert DeleteField.ColumnIds(v.columns) == ["a", "b"];
    var p := AddField.Placement(None, None, Some("ref"), 0, None);
    var added := AddField.NewColumn(v, field, p);
    assert D.SpliceStart(-1, 2) == 1 && D.SpliceStart(-1, 3) == 2;
    assert D.InsertAt(v.columns, 1, added) == [v.columns[0], added, v.columns[1]];
    assert D.RemoveAt([v.columns[0], added, v.columns[1]], 2) == [v.columns[0], added];
  }

  /** A local 0 hides the server's "": resetting leaves it. */
  lemma ResetKeepsFalsy()
    ensures var local, server := map["rowHeight" := ViewPatch.Num(0)], map["rowHeight" := ViewPatch.Text("")];
            ViewPatch.Lists([], ViewPatch.Resetting(local, server)) &&
            ViewPatch.Read(ViewPatch.Patch(local, []), "rowHeight") != ViewPatch.Read(server, "rowHeight")
  {
    var local, server := map["rowHeight" := ViewPatch.Num(0)], map["rowHeight" := ViewPatch.Text("")];
    forall k ensures ViewPatch.ResetEdit(local, server, k).None? {
    }
  }

  // ---------------------------------------------------------------- derived data

  /** A field recomputed without cleaning keeps an edge to a field it no longer uses. */
  lemma StaleEdgeStays()
    ensures var g := References.Recorded(References.Recorded(References.Refs(map[], map[]), "d-a", {"d-b"}), "d-a", {});
            References.Edge(g.refMap, "d-b", "d-a") && !References.Edge(g.reRefMap, "d-a", "d-b")
  {
    References.RecordedEdges(References.Refs(map[], map[]), "d-a", {"d-b"});
    References.RecordedEdges(References.Recorded(References.Refs(map[], map[]), "d-a", {"d-b"}), "d-a", {});
  }

  /** A link to a record that is not there has no other end. */
  lemma DanglingLinkIsOneSided()
    ensures var sa, sb := L.Snapshot({"f"}, {"a"}, map[]), L.Snapshot({"g"}, {}, map[]);
            var far, changes := LinkSymmetry.End("B", "g"), [LinkSymmetry.CellChange("a", ["b"])];
            && "b" in L.Links(LinkSymmetry.NearAfter(sa, "f", changes), L.Key("a", "f"))
            && "a" !in L.Links(LinkSymmetry.FarAfter(sa, "f", sb, far, changes), L.Key("b", "g"))
  {
    var sa, sb := L.Snapshot({"f"}, {"a"}, map[]), L.Snapshot({"g"}, {}, map[]);
    var far, changes := LinkSymmetry.End("B", "g"), [LinkSymmetry.CellChange("a", ["b"])];
    LinkSymmetry.NearLinks(sa, "f", sb, far, changes, L.Key("a", "f"));
    assert changes[0].value == ["b"];
    LinkSymmetry.MissingStaysEmpty(sa, "f", sb, far, changes, "b");
  }
}
