/** A server that merges link cells, on concrete JSON documents: the author of the later change
    ends up with its own value, everybody else with the merged one. */
module Amendments {
  import opened Options
  import opened Changesets
  import opened ClientState
  import opened Protocol
  import opened JsonOt
  import opened Divergence
  import LinkMerge
  import Ot

  /** A document with one link cell; an empty one is not stored. */
  function Holding(value: seq<Json>): Json {
    Obj(if value == [] then map[] else map["cell" := Arr(value)])
  }

  /** The actions that take the cell from one list of links to another; none where only their
      order differs. */
  function Toward(from: seq<Json>, to: seq<Json>): seq<Action> {
    if multiset(from) == multiset(to) then []
    else if from != [] && to != [] then [Object("cell", Replace(Arr(from), Arr(to)))]
    else if from != [] then [Object("cell", Delete(Arr(from)))]
    else [Object("cell", Insert(Arr(to)))]
  }

  predicate ReplacesCell(actions: seq<Action>) {
    && |actions| == 1 && actions[0].Object? && actions[0].edit.Replace?
    && actions[0].edit.old_.Arr? && actions[0].edit.new_.Arr?
  }

  /** Where the submitted and the missed action both replace the cell, their values are merged. */
  function MergeActions(missed: seq<Action>, submitted: seq<Action>, rebased: seq<Action>): seq<Action> {
    if ReplacesCell(submitted) && ReplacesCell(missed) then
      var oiServer := missed[0].edit.new_.items;
      Toward(oiServer, LinkMerge.Merged(submitted[0].edit.old_.items, oiServer, submitted[0].edit.new_.items))
    else rebased
  }

  function MergeCells(
    log: seq<RemoteChangeset<Action>>, base: nat, submitted: seq<Action>, rebased: seq<Action>): Option<seq<Action>>
  {
    Some(MergeActions(if base <= |log| then LogActions(log[base..]) else [], submitted, rebased))
  }

  function MergingServer(): Server<Action> {
    Server(100, MergeCells)
  }

  /** What the server's cell holds after both changes. */
  function Kept(od: seq<Json>, oiServer: seq<Json>, oiClient: seq<Json>): seq<Json> {
    var merged := LinkMerge.Merged(od, oiServer, oiClient);
    if multiset(oiServer) == multiset(merged) then oiServer else merged
  }

  function SetCell(from: seq<Json>, to: seq<Json>): Op {
    Operation("SetRecords", [Object("cell", Replace(Arr(from), Arr(to)))], None)
  }

  // ---------------------------------------------------------------- small evaluations

  lemma Replaces(from: seq<Json>, to: seq<Json>)
    requires from != [] && to != []
    ensures Ot.Apply(Transform(), Holding(from), SetCell(from, to).actions) == Some(Holding(to))
  {
    var fields := Holding(from).fields;
    ApplyOptIsList(Holding(from), Some(Object("cell", Replace(Arr(from), Arr(to)))));
    assert ApplyEdit(Lookup(fields, "cell"), Replace(Arr(from), Arr(to))) == Some(Some(Arr(to)));
    assert Store(fields, "cell", Some(Arr(to))) == Holding(to).fields;
  }

  lemma TowardReplaces(oiServer: seq<Json>, od: seq<Json>, oiClient: seq<Json>)
    requires oiServer != []
    ensures Ot.Apply(Transform(), Holding(oiServer), Toward(oiServer, LinkMerge.Merged(od, oiServer, oiClient))) ==
            Some(Holding(Kept(od, oiServer, oiClient)))
  {
    var merged := LinkMerge.Merged(od, oiServer, oiClient);
    if multiset(oiServer) == multiset(merged) {
    } else if merged != [] {
      Replaces(oiServer, merged);
    } else {
      var fields := Holding(oiServer).fields;
      ApplyOptIsList(Holding(oiServer), Some(Object("cell", Delete(Arr(oiServer)))));
      assert ApplyEdit(Lookup(fields, "cell"), Delete(Arr(oiServer))) == Some(None);
      assert Store(fields, "cell", None) == Holding([]).fields;
    }
  }

  lemma EditsCell(c: Client<Json, Action>, from: seq<Json>, to: seq<Json>)
    requires c.snapshot == Holding(from) && from != [] && to != []
    ensures ClientState.Edit(Transform(), c, SetCell(from, to)) ==
            c.(snapshot := Holding(to), opBuffer := c.opBuffer + [SetCell(from, to)])
  {
    Replaces(from, to);
  }

  /** Two replacements cross: the left one wins. */
  lemma CrossCells(od: seq<Json>, l: seq<Json>, r: seq<Json>)
    ensures TransformOps(Transform(), [SetCell(od, l)], SetCell(od, r).actions) == ([SetCell(r, l)], [])
  {
    var (x, y, x') := (SetCell(od, l).actions[0], SetCell(od, r).actions[0], SetCell(r, l).actions[0]);
    assert Cross(x, y) == (Some(x'), None);
    assert [x][1..] == [] && [y][1..] == [];
    var nothing: seq<Action> := [];
    assert Ot.CrossOne(Transform(), nothing, None) == (nothing, None);
    assert Ot.CrossOne(Transform(), [x], Some(y)) == ([x'], None) by {
      assert [x'] + nothing == [x'];
    }
    assert Ot.TransformX(Transform(), [x'], nothing) == ([x'], nothing);
    assert nothing + nothing == nothing;
    assert Ot.TransformX(Transform(), [x], [y]) == ([x'], nothing);
    assert [SetCell(od, l)][1..] == [];
    var none: seq<Op> := [];
    assert TransformOps(Transform(), none, nothing) == (none, nothing);
    assert [SetCell(r, l)] + none == [SetCell(r, l)];
  }

  lemma AmendedSingle(
    server: Server<Action>, log: seq<RemoteChangeset<Action>>, base: nat, op: Op, after: Op, actions: seq<Action>)
    requires server.amend(log, base, op.actions, after.actions) == Some(actions)
    ensures Amended(server, log, base, [op], [after]) == Some([Operation(op.cmd, actions, op.mainLinkDstId)])
  {
    assert [op][1..] == [] && [after][1..] == [];
    var none: seq<Op> := [];
    assert Amended(server, log, base, none, none) == Some(none);
    assert [Operation(op.cmd, actions, op.mainLinkDstId)] + none == [Operation(op.cmd, actions, op.mainLinkDstId)];
  }

  lemma MergesPair(od: seq<Json>, oiServer: seq<Json>, oiClient: seq<Json>, rebased: seq<Action>)
    ensures MergeActions(SetCell(od, oiServer).actions, SetCell(od, oiClient).actions, rebased) ==
            Toward(oiServer, LinkMerge.Merged(od, oiServer, oiClient))
  {
    assert ReplacesCell(SetCell(od, oiServer).actions) && ReplacesCell(SetCell(od, oiClient).actions);
  }

  lemma Merges(
    od: seq<Json>, oiServer: seq<Json>, oiClient: seq<Json>, log: seq<RemoteChangeset<Action>>, rebased: seq<Action>)
    requires LogActions(log) == SetCell(od, oiServer).actions
    ensures MergeCells(log, 0, SetCell(od, oiClient).actions, rebased) ==
            Some(Toward(oiServer, LinkMerge.Merged(od, oiServer, oiClient)))
  {
    assert log[0..] == log;
    MergesPair(od, oiServer, oiClient, rebased);
  }

  /** The server logs the merge behind the other client's change. */
  lemma LogsMerge(od: seq<Json>, oiServer: seq<Json>, oiClient: seq<Json>, first: RemoteChangeset<Action>)
    requires first == RemoteChangeset(2, 1, [SetCell(od, oiServer)])
    ensures var merged := LinkMerge.Merged(od, oiServer, oiClient);
            Commit(Transform(), [first], MergingServer(), LocalChangeset(1, 0, [SetCell(od, oiClient)])) ==
            Some(RemoteChangeset(1, 2, [Operation("SetRecords", Toward(oiServer, merged), None)]))
  {
    OneLogged(first, SetCell(od, oiServer));
    CrossCells(od, oiClient, oiServer);
    var merged := Toward(oiServer, LinkMerge.Merged(od, oiServer, oiClient));
    Merges(od, oiServer, oiClient, [first], SetCell(oiServer, oiClient).actions);
    CommitsSingle(first, SetCell(od, oiClient), SetCell(oiServer, oiClient), merged);
  }

  lemma OneLogged(first: RemoteChangeset<Action>, op: Op)
    requires first.operations == [op]
    ensures LogActions([first]) == op.actions
  {
    FlatSingle(op);
    assert [first][1..] == [];
    assert op.actions + [] == op.actions;
  }

  lemma CommitsSingle(first: RemoteChangeset<Action>, op: Op, after: Op, actions: seq<Action>)
    requires first.messageId != 1 && |LogActions([first])| == 1 && |op.actions| == 1 && op.mainLinkDstId == None
    requires TransformOps(Transform(), [op], LogActions([first])).0 == [after]
    requires MergeCells([first], 0, op.actions, after.actions) == Some(actions)
    ensures Commit(Transform(), [first], MergingServer(), LocalChangeset(1, 0, [op])) ==
            Some(RemoteChangeset(1, 2, [Operation(op.cmd, actions, None)]))
  {
    FlatSingle(op);
    assert [first][0..] == [first];
    AmendedSingle(MergingServer(), [first], 0, op, after, actions);
  }

  // ---------------------------------------------------------------- the run

  /** Client 1's changeset, logged first, and client 0's behind it with these actions. */
  function LogOf(od: seq<Json>, oiServer: seq<Json>, actions: seq<Action>): seq<RemoteChangeset<Action>> {
    [RemoteChangeset(2, 1, [SetCell(od, oiServer)]), RemoteChangeset(1, 2, [Operation("SetRecords", actions, None)])]
  }

  /** Client i has changed the cell and sent that. */
  function Sent(id: MessageId, od: seq<Json>, oi: seq<Json>): Client<Json, Action> {
    Client(Holding(oi), 0, Some(LocalChangeset(id, 0, [SetCell(od, oi)])), [])
  }

  lemma BothSent(od: seq<Json>, oiServer: seq<Json>, oiClient: seq<Json>) returns (sys: Sys)
    requires od != [] && oiServer != [] && oiClient != []
    ensures Shape(Initial(Holding(od), MergingServer(), 2), sys, [], [Sent(1, od, oiClient), Sent(2, od, oiServer)],
      [Packet(0, LocalChangeset(1, 0, [SetCell(od, oiClient)])),
       Packet(1, LocalChangeset(2, 0, [SetCell(od, oiServer)]))])
  {
    sys := Starts(Holding(od), MergingServer());
    EditsCell(sys.clients[0], od, oiClient);
    sys := Edits(sys, 0, SetCell(od, oiClient));
    EditsCell(sys.clients[1], od, oiServer);
    sys := Edits(sys, 1, SetCell(od, oiServer));
    assert sys.clients[0] == Client(Holding(oiClient), 0, None, [SetCell(od, oiClient)]);
    assert sys.clients[1] == Client(Holding(oiServer), 0, None, [SetCell(od, oiServer)]);
    sys := Sends(sys, 0, 1);
    sys := Sends(sys, 1, 2);
    assert sys.clients == [Sent(1, od, oiClient), Sent(2, od, oiServer)];
  }

  lemma FirstLogged(od: seq<Json>, oiServer: seq<Json>, oiClient: seq<Json>) returns (sys: Sys)
    requires od != [] && oiServer != [] && oiClient != []
    ensures |sys.net| == 2 && sys.net[0].changeset == LocalChangeset(1, 0, [SetCell(od, oiClient)])
    ensures Shape(Initial(Holding(od), MergingServer(), 2), sys, [RemoteChangeset(2, 1, [SetCell(od, oiServer)])],
      [Sent(1, od, oiClient), Sent(2, od, oiServer)], sys.net)
  {
    sys := BothSent(od, oiServer, oiClient);
    sys := Logs(sys, 1);
  }

  lemma BothLogged(od: seq<Json>, oiServer: seq<Json>, oiClient: seq<Json>) returns (sys: Sys, actions: seq<Action>)
    requires od != [] && oiServer != [] && oiClient != []
    ensures actions == Toward(oiServer, LinkMerge.Merged(od, oiServer, oiClient))
    ensures Shape(Initial(Holding(od), MergingServer(), 2), sys, LogOf(od, oiServer, actions),
      [Sent(1, od, oiClient), Sent(2, od, oiServer)], sys.net)
  {
    actions := Toward(oiServer, LinkMerge.Merged(od, oiServer, oiClient));
    sys := FirstLogged(od, oiServer, oiClient);
    LogsMerge(od, oiServer, oiClient, sys.log[0]);
    sys := Logs(sys, 0);
  }

  /** Client 0 takes client 1's entry in, counts its own and clears it. */
  lemma CatchesUp(before: Sys, od: seq<Json>, oiServer: seq<Json>, oiClient: seq<Json>, actions: seq<Action>)
    returns (sys: Sys)
    requires Reached(before, 2) && |before.clients| == 2 && before.log == LogOf(od, oiServer, actions)
    requires before.clients[0] == Sent(1, od, oiClient)
    ensures Shape(before, sys, before.log, before.clients[0 := Client(Holding(oiClient), 2, None, [])], before.net)
  {
    TakesOtherIn(before.clients[0], od, oiServer, oiClient);
    sys := Delivers(before, 0, 0);
    sys := Acks(sys, 0, 1);
    sys := Sends(sys, 0, 3);
    assert sys.clients == before.clients[0 := Client(Holding(oiClient), 2, None, [])];
  }

  /** Client 0 takes in client 1's change: its own value stays. */
  lemma TakesOtherIn(c: Client<Json, Action>, od: seq<Json>, oiServer: seq<Json>, oiClient: seq<Json>)
    requires c.pending.Some? && c.pending.value.operations == [SetCell(od, oiClient)] && c.opBuffer == []
    ensures TakeIn(Transform(), c, RemoteChangeset(2, 1, [SetCell(od, oiServer)])) ==
            c.(revision := c.revision + 1,
               pending := Some(c.pending.value.(operations := [SetCell(oiServer, oiClient)], baseRevision := 1)))
  {
    FlatSingle(SetCell(od, oiServer));
    CrossCells(od, oiClient, oiServer);
  }

  /** Two clients replace the links of one cell, one after the other in the log, each acknowledged
      and then idle at the server's revision: the author of the later change shows its own
      links, the server's cell holds the merged ones.  So they agree exactly when those are the
      same list. */
  lemma MergedCellDiverges(od: seq<Json>, oiServer: seq<Json>, oiClient: seq<Json>)
    requires od != [] && oiServer != [] && oiClient != []
    ensures exists sys: Sys ::
      && Reached(sys, 2) && sys.init == Holding(od) && sys.server == MergingServer()
      && |sys.clients| == 2 && |sys.log| == 2
      && sys.clients[0].StorageClear() && sys.clients[0].revision == 2
      && sys.clients[0].snapshot == Holding(oiClient)
      && StateAt(Transform(), sys.init, sys.log, 2) == Some(Holding(Kept(od, oiServer, oiClient)))
  {
    var sys, actions := BothLogged(od, oiServer, oiClient);
    sys := CatchesUp(sys, od, oiServer, oiClient, actions);
    ServerKeeps(od, oiServer, oiClient, actions);
  }

  lemma ServerKeeps(od: seq<Json>, oiServer: seq<Json>, oiClient: seq<Json>, actions: seq<Action>)
    requires od != [] && oiServer != []
    requires actions == Toward(oiServer, LinkMerge.Merged(od, oiServer, oiClient))
    ensures StateAt(Transform(), Holding(od), LogOf(od, oiServer, actions), 2) ==
            Some(Holding(Kept(od, oiServer, oiClient)))
  {
    LoggedTwo(LogOf(od, oiServer, actions));
    FlatSingle(SetCell(od, oiServer));
    FlatSingle(Operation("SetRecords", actions, None));
    Ot.ApplyConcat(Transform(), Holding(od), SetCell(od, oiServer).actions, actions);
    Replaces(od, oiServer);
    TowardReplaces(oiServer, od, oiClient);
  }

  /** For example, each client adds a link of its own: the author of the second one to be logged
      does not get to see the other's. */
  lemma BothAdd(a: Json, b: Json, c: Json)
    requires a != b && a != c && b != c
    ensures b in Kept([a], [a, c], [a, b]) && c in Kept([a], [a, c], [a, b])
    ensures Holding([a, b]) != Holding(Kept([a], [a, c], [a, b]))
  {
    LinkMerge.MergedIs([a], [a, c], [a, b], b);
    LinkMerge.MergedIs([a], [a, c], [a, b], c);
    var merged := LinkMerge.Merged([a], [a, c], [a, b]);
    assert b in multiset(merged) && b !in multiset([a, c]);
    var kept := Kept([a], [a, c], [a, b]);
    assert kept == merged && c !in [a, b];
    assert Holding(kept).fields["cell"] == Arr(kept) && Holding([a, b]).fields["cell"] == Arr([a, b]);
  }
}
