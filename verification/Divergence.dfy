/** Runs that break the discipline, on the concrete JSON transform: the engine's code
    allows them, and the client they end with disagrees with the server for good. */
module Divergence {
  import opened Options
  import opened Changesets
  import opened ClientState
  import opened Protocol
  import opened JsonOt
  import Sessions
  import H = History
  import Ot

  type Ev = Event<Action>
  type Op = Operation<Action>
  type Sys = System<Json, Action>

  /** A command that inserts v in front of the list. */
  function Prepend(v: Json): Op {
    Operation("SetRecords", [List(0, Insert(v))], None)
  }

  /** A server that amends nothing. */
  function PlainServer(): Server<Action> {
    Server(100, (log, base, submitted, rebased) => Some(rebased))
  }

  /** sys is where a run from its initial document with n clients can be. */
  ghost predicate Reached(sys: Sys, n: nat) {
    exists events: seq<Ev> :: Run(Transform(), Initial(sys.init, sys.server, n), events) == sys
  }

  lemma ReachedStart(init: Json, server: Server<Action>, n: nat)
    ensures Reached(Initial(init, server, n), n)
  {
    var none: seq<Ev> := [];
    var start: Sys := Initial(init, server, n);
    assert Run(Transform(), start, none) == start;
  }

  lemma ReachedStep(sys: Sys, n: nat, ev: Ev)
    requires Reached(sys, n)
    ensures Reached(Step(Transform(), sys, ev), n)
  {
    var events :| Run(Transform(), Initial(sys.init, sys.server, n), events) == sys;
    RunSnoc(Initial(sys.init, sys.server, n), events, ev);
  }

  lemma {:induction false} RunSnoc(sys: Sys, events: seq<Ev>, ev: Ev)
    ensures Run(Transform(), sys, events + [ev]) == Step(Transform(), Run(Transform(), sys, events), ev)
    decreases |events|
  {
    if events == [] {
      assert events + [ev] == [ev];
      assert [ev][1..] == [];
    } else {
      assert (events + [ev])[1..] == events[1..] + [ev];
      RunSnoc(Step(Transform(), sys, events[0]), events[1..], ev);
    }
  }

  // ---------------------------------------------------------------- small evaluations

  lemma InsertInto(items: seq<Json>, i: nat, v: Json)
    requires i <= |items|
    ensures Ot.Apply(Transform(), Arr(items), [List(i, Insert(v))]) == Some(Arr(items[..i] + [v] + items[i..]))
  {
    assert ApplyAt(items, i, Insert(v)) == Some(Splice(items, i, 0, [v]));
    ApplyOptIsList(Arr(items), Some(List(i, Insert(v))));
  }

  lemma EditPrepends(c: Client<Json, Action>, v: Json)
    requires c.snapshot.Arr?
    ensures ClientState.Edit(Transform(), c, Prepend(v)) ==
            c.(snapshot := Arr([v] + c.snapshot.items), opBuffer := c.opBuffer + [Prepend(v)])
  {
    InsertInto(c.snapshot.items, 0, v);
    assert c.snapshot.items[..0] + [v] + c.snapshot.items[0..] == [v] + c.snapshot.items;
  }

  lemma SendsOne(c: Client<Json, Action>, op: Op, id: MessageId)
    requires c.opBuffer == [op]
    ensures DeOpBuffer(Transform(), c, id) == c.(opBuffer := [], pending := Some(LocalChangeset(id, c.revision, [op])))
  {
    assert [op][1..] == [];
    assert ComposeFrom(Transform(), [], [op]) == ComposeFrom(Transform(), [op], []);
  }

  /** Two single actions that cross without being absorbed. */
  lemma CrossPair(l: Action, r: Action, l': Action, r': Action)
    requires Cross(l, r) == (Some(l'), Some(r'))
    ensures Ot.TransformX(Transform(), [l], [r]) == ([l'], [r'])
  {
    assert [l][1..] == [] && [r][1..] == [];
    var nothing: seq<Action> := [];
    assert Ot.CrossOne(Transform(), nothing, Some(r')) == (nothing, Some(r'));
    assert [l'] + nothing == [l'];
    assert Ot.CrossOne(Transform(), [l], Some(r)) == ([l'], Some(r'));
    assert Ot.TransformX(Transform(), [l'], nothing) == ([l'], nothing);
    assert [r'] + nothing == [r'];
  }

  lemma RebasePair(cmd: string, l: Action, r: Action, l': Action, r': Action)
    requires Cross(l, r) == (Some(l'), Some(r'))
    ensures TransformOps(Transform(), [Operation(cmd, [l], None)], [r]) == ([Operation(cmd, [l'], None)], [r'])
  {
    var op, op' := Operation(cmd, [l], None), Operation(cmd, [l'], None);
    CrossPair(l, r, l', r');
    assert [op][1..] == [];
    var none: seq<Op> := [];
    assert TransformOps(Transform(), none, [r']) == (none, [r']);
    assert [op'] + none == [op'];
  }

  /** Two concurrent inserts in front: the left one ends up first. */
  lemma RebasePrepend(v: Json, w: Json)
    ensures TransformOps(Transform(), [Prepend(v)], Prepend(w).actions) == ([Prepend(v)], [List(1, Insert(w))])
  {
    RebasePair("SetRecords", List(0, Insert(v)), List(0, Insert(w)), List(0, Insert(v)), List(1, Insert(w)));
  }

  /** Past a waiting Prepend(v), an incoming Prepend(w) lands behind the first element. */
  lemma TakesIn(c: Client<Json, Action>, items: seq<Json>, cs: RemoteChangeset<Action>, v: Json, w: Json)
    requires c.snapshot == Arr(items) && items != [] && c.opBuffer == []
    requires cs.operations == [Prepend(w)]
    requires c.pending.Some? && c.pending.value.operations == [Prepend(v)]
    ensures TakeIn(Transform(), c, cs) ==
            c.(snapshot := Arr(items[..1] + [w] + items[1..]), revision := c.revision + 1,
               pending := Some(c.pending.value.(baseRevision := cs.revision)))
  {
    FlatSingle(Prepend(w));
    RebasePrepend(v, w);
    InsertInto(items, 1, w);
  }

  // ---------------------------------------------------------------- a step at a time

  type Peer = Client<Json, Action>

  /** A reachable system of two clients on the document and server of `from`. */
  ghost predicate Shape(
    from: Sys, sys: Sys, log: seq<RemoteChangeset<Action>>, clients: seq<Peer>, net: seq<Packet<Action>>)
  {
    && Reached(sys, 2) && sys.init == from.init && sys.server == from.server
    && sys.log == log && sys.clients == clients && sys.net == net
  }

  lemma Edits(sys: Sys, i: nat, op: Op) returns (next: Sys)
    requires Reached(sys, 2) && i < |sys.clients|
    ensures Shape(sys, next, sys.log, sys.clients[i := ClientState.Edit(Transform(), sys.clients[i], op)], sys.net)
  {
    next := Step(Transform(), sys, LocalEdit(i, op));
    ReachedStep(sys, 2, LocalEdit(i, op));
  }

  lemma Prepends(sys: Sys, i: nat, v: Json) returns (next: Sys)
    requires Reached(sys, 2) && i < |sys.clients| && sys.clients[i].snapshot.Arr?
    ensures var c := sys.clients[i];
            var c' := c.(snapshot := Arr([v] + c.snapshot.items), opBuffer := c.opBuffer + [Prepend(v)]);
            Shape(sys, next, sys.log, sys.clients[i := c'], sys.net)
  {
    EditPrepends(sys.clients[i], v);
    next := Edits(sys, i, Prepend(v));
  }

  lemma Sends(sys: Sys, i: nat, id: MessageId) returns (next: Sys)
    requires Reached(sys, 2) && i < |sys.clients| && |sys.clients[i].opBuffer| <= 1
    ensures var c := sys.clients[i];
            var cs := LocalChangeset(id, c.revision, c.opBuffer);
            var c' := c.(opBuffer := [], pending := if c.opBuffer == [] then None else Some(cs));
            Shape(sys, next, sys.log, sys.clients[i := c'],
                  if c.opBuffer == [] then sys.net else sys.net + [Packet(i, cs)])
  {
    next := Step(Transform(), sys, Send(i, id));
    if sys.clients[i].opBuffer != [] {
      SendsOne(sys.clients[i], sys.clients[i].opBuffer[0], id);
    }
    ReachedStep(sys, 2, Send(i, id));
  }

  lemma Logs(sys: Sys, k: nat) returns (next: Sys)
    requires Reached(sys, 2) && k < |sys.net|
    requires Commit(Transform(), sys.log, sys.server, sys.net[k].changeset).Some?
    ensures var entry := Commit(Transform(), sys.log, sys.server, sys.net[k].changeset).value;
            Shape(sys, next, sys.log + [entry], sys.clients, sys.net)
  {
    next := Step(Transform(), sys, Receive(k));
    ReachedStep(sys, 2, Receive(k));
  }

  lemma Delivers(sys: Sys, i: nat, k: nat) returns (next: Sys)
    requires Reached(sys, 2) && i < |sys.clients| && k < |sys.log|
    ensures var c' := ApplyNewChanges(Transform(), sys.clients[i], sys.log[k]).0;
            Shape(sys, next, sys.log, sys.clients[i := c'], sys.net)
  {
    next := Step(Transform(), sys, Deliver(i, k));
    ReachedStep(sys, 2, Deliver(i, k));
  }

  lemma Acks(sys: Sys, i: nat, k: nat) returns (next: Sys)
    requires Reached(sys, 2) && i < |sys.clients| && k < |sys.log|
    ensures Shape(sys, next, sys.log, sys.clients[i := AcceptCommit(sys.clients[i], sys.log[k]).0], sys.net)
  {
    next := Step(Transform(), sys, Ack(i, k));
    ReachedStep(sys, 2, Ack(i, k));
  }

  /** Two clients that have loaded a document. */
  lemma Starts(init: Json, server: Server<Action>) returns (sys: Sys)
    ensures Shape(Initial(init, server, 2), sys, [], [Client(init, 0, None, []), Client(init, 0, None, [])], [])
  {
    sys := Initial(init, server, 2);
    ReachedStart(init, server, 2);
  }

  /** Two clients with an empty list, and a server that amends nothing. */
  function Empty(): Sys {
    Initial(Arr([]), PlainServer(), 2)
  }

  // ---------------------------------------------------------------- the stale window

  function Entry(id: MessageId, revision: nat, v: Json): RemoteChangeset<Action> {
    RemoteChangeset(id, revision, [Prepend(v)])
  }

  /** Client 0 has inserted v, the server has logged it and client 0 has counted the
      acknowledgement without clearing the changeset; client 1 knows the entry. */
  lemma WindowOpens(v: Json) returns (sys: Sys, net: seq<Packet<Action>>)
    ensures |net| == 1 && Shape(Empty(), sys, [Entry(1, 1, v)],
      [Client(Arr([v]), 1, Some(LocalChangeset(1, 0, [Prepend(v)])), []), Client(Arr([v]), 1, None, [])], net)
  {
    sys := Starts(Arr([]), PlainServer());
    sys := Prepends(sys, 0, v);
    assert sys.clients[0] == Client(Arr([v]), 0, None, [Prepend(v)]) by {
      assert [v] + [] == [v];
    }
    sys := Sends(sys, 0, 1);
    sys := Logs(sys, 0);
    sys := Acks(sys, 0, 0);
    EmptyTakesIn(v);
    sys := Delivers(sys, 1, 0);
    net := sys.net;
    assert sys.clients[1] == Client(Arr([v]), 1, None, []);
  }

  lemma EmptyTakesIn(v: Json)
    ensures TakeIn(Transform(), Client(Arr([]), 0, None, []), Entry(1, 1, v)) == Client(Arr([v]), 1, None, [])
  {
    FlatSingle(Prepend(v));
    InsertInto([], 0, v);
    var none: seq<Json> := [];
    assert none[..0] + [v] + none[0..] == [v];
  }

  /** Client 1 then inserts w in front and has it logged. */
  lemma WindowUsed(v: Json, w: Json) returns (sys: Sys, c1: Peer, net: seq<Packet<Action>>)
    ensures Shape(Empty(), sys, [Entry(1, 1, v), Entry(2, 2, w)],
      [Client(Arr([v]), 1, Some(LocalChangeset(1, 0, [Prepend(v)])), []), c1], net)
  {
    sys, net := WindowOpens(v);
    sys := Prepends(sys, 1, w);
    sys := Sends(sys, 1, 2);
    assert sys.net[1].changeset == LocalChangeset(2, 1, [Prepend(w)]);
    sys := Logs(sys, 1);
    c1, net := sys.clients[1], sys.net;
    assert sys.log == [Entry(1, 1, v), Entry(2, 2, w)];
  }

  /** Between an acknowledgement and the clearing of the acknowledged changeset the
      engine still rebases incoming changes past it.  If client 0 takes w in inside
      that window, its next send leaves it with nothing to send, at the server's
      revision, and with the two elements in the opposite order. */
  lemma StaleWindowDiverges(v: Json, w: Json)
    requires v != w
    ensures exists sys: Sys ::
      && Reached(sys, 2) && sys.init == Arr([]) && sys.server == PlainServer() && |sys.clients| == 2 && |sys.log| == 2
      && sys.clients[0].StorageClear() && sys.clients[0].revision == 2
      && sys.clients[0].snapshot == Arr([v, w])
      && StateAt(Transform(), Arr([]), sys.log, 2) == Some(Arr([w, v]))
  {
    var sys, c1, net := WindowUsed(v, w);
    assert Counted(sys.clients[0]);
    TakesIn(sys.clients[0], [v], Entry(2, 2, w), v, w);
    sys := Delivers(sys, 0, 1);
    sys := Sends(sys, 0, 3);
    ServerHas(v, w);
    assert sys.log == [Entry(1, 1, v), Entry(2, 2, w)];
  }

  lemma ServerHas(v: Json, w: Json)
    ensures StateAt(Transform(), Arr([]), [Entry(1, 1, v), Entry(2, 2, w)], 2) == Some(Arr([w, v]))
  {
    LoggedTwo([Entry(1, 1, v), Entry(2, 2, w)]);
    FlatSingle(Prepend(v));
    FlatSingle(Prepend(w));
    Ot.ApplyConcat(Transform(), Arr([]), Prepend(v).actions, Prepend(w).actions);
    InsertInto([], 0, v);
    var none: seq<Json> := [];
    assert none[..0] + [v] + none[0..] == [v];
    InsertInto([v], 0, w);
    assert [v][..0] + [w] + [v][0..] == [w, v];
  }

  // ---------------------------------------------------------------- what does not even fit

  function Remove(v: Json): Op {
    Operation("DeleteRecords", [List(0, Delete(v))], None)
  }

  /** Client 0's insertion of v is acknowledged and not cleared, and it has another one buffered.
      The deletion of v, passed on by the insertion it already includes, does not fit. */
  lemma TakesRemovalIn(c: Client<Json, Action>, v: Json, w: Json)
    requires c.snapshot == Arr([w, v]) && c.opBuffer == [Prepend(w)]
    requires c.pending.Some? && c.pending.value.operations == [Prepend(v)]
    ensures var cs := RemoteChangeset(2, 2, [Remove(v)]);
            && Ot.Apply(Transform(), Arr([v]), PassedOn(Transform(), c, cs)) == None
            && TakeIn(Transform(), c, cs) ==
               c.(revision := c.revision + 1, pending := Some(c.pending.value.(baseRevision := 2)))
  {
    FlatSingle(Remove(v));
    FlatSingle(Prepend(v));
    RebasePair("SetRecords", List(0, Insert(v)), List(0, Delete(v)), List(0, Insert(v)), List(1, Delete(v)));
    RebasePair("SetRecords", List(0, Insert(w)), List(1, Delete(v)), List(0, Insert(w)), List(2, Delete(v)));
    CrossPair(List(0, Insert(v)), List(0, Delete(v)), List(0, Insert(v)), List(1, Delete(v)));
    ApplyOptIsList(Arr([v]), Some(List(1, Delete(v))));
    assert ApplyAt([v], 1, Delete(v)) == None;
    ApplyOptIsList(Arr([w, v]), Some(List(2, Delete(v))));
    assert ApplyAt([w, v], 2, Delete(v)) == None;
    assert PassedOn(Transform(), c, RemoteChangeset(2, 2, [Remove(v)])) == [List(1, Delete(v))];
    assert DoTransform(Transform(), c, RemoteChangeset(2, 2, [Remove(v)])).1 == [List(2, Delete(v))];
  }

  /** In the same window, where what is passed on does not fit: client 1 deletes the inserted v.
      The library throws, the deletion never reaches client 0's snapshot, and the client goes
      on at the server's revision with v still shown. */
  lemma DeletedAfterAckStays(v: Json, w: Json)
    ensures exists sys: Sys ::
      && Reached(sys, 2) && sys.init == Arr([]) && sys.server == PlainServer()
      && |sys.clients| == 2 && |sys.log| == 2
      && Acked(sys.log, sys.clients[0]) && sys.clients[0].revision == 2
      && sys.clients[0].snapshot == Arr([w, v])
      && StateAt(Transform(), Arr([]), sys.log, 2) == Some(Arr([]))
      && Ot.Apply(Transform(), Arr([]), Flat(sys.clients[0].opBuffer)) == Some(Arr([w]))
  {
    var sys, net := WindowOpens(v);
    sys := Prepends(sys, 0, w);
    assert [w] + [v] == [w, v];
    DeletesOnly(v);
    sys := Edits(sys, 1, Remove(v));
    sys := Sends(sys, 1, 2);
    assert sys.net[1].changeset == LocalChangeset(2, 1, [Remove(v)]);
    sys := Logs(sys, 1);
    assert sys.log == [Entry(1, 1, v), RemoteChangeset(2, 2, [Remove(v)])];
    TakesRemovalIn(sys.clients[0], v, w);
    sys := Delivers(sys, 0, 1);
    assert sys.log[..2][0].messageId == 1;
    ServerEmptied(v);
    FlatSingle(Prepend(w));
    InsertInto([], 0, w);
    var none: seq<Json> := [];
    assert none[..0] + [w] + none[0..] == [w];
  }

  lemma ServerEmptied(v: Json)
    ensures StateAt(Transform(), Arr([]), [Entry(1, 1, v), RemoteChangeset(2, 2, [Remove(v)])], 2) == Some(Arr([]))
  {
    var log := [Entry(1, 1, v), RemoteChangeset(2, 2, [Remove(v)])];
    LoggedTwo(log);
    Ot.ApplyConcat(Transform(), Arr([]), Flat(log[0].operations), Flat(log[1].operations));
    FlatSingle(Prepend(v));
    FlatSingle(Remove(v));
    InsertInto([], 0, v);
    var none: seq<Json> := [];
    assert none[..0] + [v] + none[0..] == [v];
    DeletesOnly(v);
  }

  lemma LoggedTwo(log: seq<RemoteChangeset<Action>>)
    requires |log| == 2
    ensures LogActions(log[..2]) == Flat(log[0].operations) + Flat(log[1].operations)
  {
    assert log[..2] == log && log[1..][1..] == [];
    assert LogActions(log[1..]) == Flat(log[1].operations) + LogActions(log[1..][1..]);
    assert Flat(log[1].operations) + [] == Flat(log[1].operations);
  }

  // ---------------------------------------------------------------- the overwritten changeset

  /** getNextChangeset replaces a changeset that still waits for its acknowledgement.  Here
      the server has logged it, the answer is late, the watcher sends it again and the
      answer to the duplicate starts the next round of sending.  The client no longer
      knows the logged changeset as its own and applies it a second time. */
  lemma OverwrittenPendingDiverges(v: Json, w: Json)
    ensures exists sys: Sys ::
      && Reached(sys, 2) && sys.init == Arr([]) && sys.server == PlainServer() && |sys.clients| == 2 && |sys.log| == 1
      && sys.clients[0].revision == 1 && !Counted(sys.clients[0])
      && sys.clients[0].snapshot == Arr([w, v, v])
      && StateAt(Transform(), Arr([]), sys.log, 1) == Some(Arr([v]))
      && Ot.Apply(Transform(), Arr([v]), Local(sys.clients[0])) == Some(Arr([w, v]))
  {
    var sys := Starts(Arr([]), PlainServer());
    sys := Prepends(sys, 0, v);
    assert sys.clients[0] == Client(Arr([v]), 0, None, [Prepend(v)]) by {
      assert [v] + [] == [v];
    }
    sys := Sends(sys, 0, 1);
    sys := Logs(sys, 0);
    sys := Prepends(sys, 0, w);
    assert [w] + [v] == [w, v];
    assert sys.clients[0] == Client(Arr([w, v]), 0, Some(LocalChangeset(1, 0, [Prepend(v)])), [Prepend(w)]);
    assert sys.log == [Entry(1, 1, v)];
    assert sys.log[0].messageId == 1 && HasId(sys.log, 1);
    sys := SentAgain(sys);
    sys := Sends(sys, 0, 2);
    var c := sys.clients[0];
    assert c == Client(Arr([w, v]), 0, Some(LocalChangeset(2, 0, [Prepend(w)])), []);
    TakesIn(c, [w, v], Entry(1, 1, v), w, v);
    assert [w, v][..1] + [v] + [w, v][1..] == [w, v, v];
    sys := Delivers(sys, 0, 0);
    assert sys.clients[0] == Client(Arr([w, v, v]), 1, Some(LocalChangeset(2, 1, [Prepend(w)])), []);
    OneEntry(v);
    AfterOverwrite(sys.clients[0], v, w);
  }

  /** The server refuses a changeset it has already logged. */
  lemma SentAgain(sys: Sys) returns (next: Sys)
    requires Reached(sys, 2) && |sys.clients| > 0 && sys.clients[0].pending.Some?
    requires HasId(sys.log, sys.clients[0].pending.value.messageId)
    ensures Reached(next, 2)
    ensures next == sys.(net := sys.net + [Packet(0, sys.clients[0].pending.value)])
  {
    ReachedStep(sys, 2, Resend(0));
    var sent := Step(Transform(), sys, Resend(0));
    assert sent.net[|sys.net|] == Packet(0, sys.clients[0].pending.value);
    ReachedStep(sent, 2, Receive(|sys.net|));
    next := Step(Transform(), sent, Receive(|sys.net|));
  }

  lemma OneEntry(v: Json)
    ensures StateAt(Transform(), Arr([]), [Entry(1, 1, v)], 1) == Some(Arr([v]))
  {
    var log := [Entry(1, 1, v)];
    assert log[..1] == log && log[1..] == [];
    FlatSingle(Prepend(v));
    assert LogActions(log) == Prepend(v).actions + [];
    InsertInto([], 0, v);
    var none: seq<Json> := [];
    assert none[..0] + [v] + none[0..] == [v];
  }

  lemma AfterOverwrite(c: Peer, v: Json, w: Json)
    requires c.pending.Some? && c.pending.value.operations == [Prepend(w)] && c.opBuffer == []
    ensures Ot.Apply(Transform(), Arr([v]), Local(c)) == Some(Arr([w, v]))
  {
    FlatSingle(Prepend(w));
    assert Local(c) == Prepend(w).actions;
    InsertInto([v], 0, w);
    assert [v][..0] + [w] + [v][0..] == [w, v];
  }

  // ---------------------------------------------------------------- the undo stacks

  /** The undo stacks are rebased on remote actions that have not yet passed the local
      ones.  With Prepend(v) still buffered and its inverse on the undo stack, taking
      in Prepend(w) leaves an undo entry that deletes v where w now is. */
  lemma RawRebaseBreaksUndo(v: Json, w: Json)
    requires v != w
    ensures var reg := map["SetRecords" := true];
            var s := Sessions.Session(Client(Arr([v]), 0, None, [Prepend(v)]),
                                      [H.UndoCommand("SetRecords", [List(0, Delete(v))])], []);
            && H.Ok(Transform(), reg, s.History())
            && Ot.Apply(Transform(), s.client.snapshot, Prepend(w).actions).Some?
            && Sessions.ApplyChanges(Transform(), s, Entry(1, 1, w)).0.client.snapshot == Arr([v, w])
            && !H.Ok(Transform(), reg, Sessions.ApplyChanges(Transform(), s, Entry(1, 1, w)).0.History())
  {
    var c := Client(Arr([v]), 0, None, [Prepend(v)]);
    var s := Sessions.Session(c, [Undoing(0, v)], []);
    OneUndo(v);
    FlatSingle(Prepend(w));
    InsertInto([v], 0, w);
    RebasePrepend(v, w);
    InsertInto([v], 1, w);
    assert [v][..1] + [w] + [v][1..] == [v, w];
    StackRebased(v, w);
    var s' := Sessions.ApplyChanges(Transform(), s, Entry(1, 1, w)).0;
    assert s'.History() == H.History(Arr([v, w]), [Undoing(1, v)], []);
    MisplacedUndo(v, w);
  }

  /** The undo entry of an insertion of v that has come to stand at index i. */
  function Undoing(i: nat, v: Json): H.UndoCommand<Action> {
    H.UndoCommand("SetRecords", [List(i, Delete(v))])
  }

  lemma OneUndo(v: Json)
    ensures H.Ok(Transform(), map["SetRecords" := true], H.History(Arr([v]), [Undoing(0, v)], []))
  {
    DeletesOnly(v);
    assert H.Front([Undoing(0, v)]) == [];
    assert H.After(Transform(), Arr([v]), [Undoing(0, v)], 1) == Some(Arr([]));
  }

  lemma StackRebased(v: Json, w: Json)
    ensures H.TransformStack(Transform(), [Undoing(0, v)], Prepend(w).actions) == [Undoing(1, v)]
  {
    DeletePastPrepend(v, w);
    assert H.Front([Undoing(0, v)]) == [] && !H.OverLimit(1, 1);
    assert H.TransformStack(Transform(), [], Ot.TransformX(Transform(), Undoing(0, v).actions, Prepend(w).actions).1)
           == [];
    assert [] + [Undoing(1, v)] == [Undoing(1, v)];
  }

  lemma MisplacedUndo(v: Json, w: Json)
    requires v != w
    ensures !H.Replays(Transform(), Arr([v, w]), [Undoing(1, v)])
  {
    ApplyOptIsList(Arr([v, w]), Some(List(1, Delete(v))));
    assert ApplyAt([v, w], 1, Delete(v)) == None;
  }

  lemma DeletesOnly(v: Json)
    ensures Ot.Apply(Transform(), Arr([v]), [List(0, Delete(v))]) == Some(Arr([]))
  {
    ApplyOptIsList(Arr([v]), Some(List(0, Delete(v))));
    assert ApplyAt([v], 0, Delete(v)) == Some(Splice([v], 0, 1, []));
    assert Splice([v], 0, 1, []) == [];
  }

  lemma DeletePastPrepend(v: Json, w: Json)
    ensures Ot.TransformX(Transform(), [List(0, Delete(v))], Prepend(w).actions).0 == [List(1, Delete(v))]
  {
    CrossPair(List(0, Delete(v)), List(0, Insert(w)), List(1, Delete(v)), List(0, Insert(w)));
  }

  /** A command that cannot be undone changes the snapshot under the stacks.  With
      Prepend(v) on the undo stack, an executed but not undoable Prepend(w) leaves an
      undo entry that deletes v where w now is. */
  lemma NonUndoableBreaksUndo(v: Json, w: Json)
    requires v != w
    ensures var reg := map["SetRecords" := true, "Rollback" := false];
            var h := H.History(Arr([v]), [H.UndoCommand("SetRecords", [List(0, Delete(v))])], []);
            var c := H.UndoCommand("Rollback", Prepend(w).actions);
            && H.Ok(Transform(), reg, h)
            && Ot.Apply(Transform(), h.snapshot, c.actions).Some?
            && !H.Ok(Transform(), reg, H.ExecuteActions(Transform(), reg, h, c, H.Execute).0)
  {
    var ot := Transform();
    var undo := H.UndoCommand("SetRecords", [List(0, Delete(v))]);
    DeletesOnly(v);
    assert H.Front([undo]) == [];
    assert H.After(ot, Arr([v]), [undo], 1) == Some(Arr([]));
    InsertInto([v], 0, w);
    assert [v][..0] + [w] + [v][0..] == [w, v];
    ApplyOptIsList(Arr([w, v]), Some(List(0, Delete(v))));
    assert ApplyAt([w, v], 0, Delete(v)) == None;
    assert H.After(ot, Arr([w, v]), [undo], 1) == None;
  }
}
