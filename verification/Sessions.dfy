/** A client together with its undo stacks: the engine rebases the stacks on remote
    actions before those have passed the local ones. */
module Sessions {
  import opened Options
  import opened Changesets
  import opened ClientState
  import H = History
  import P = Protocol
  import Ot

  datatype Session<S(!new), A> =
    Session(client: Client<S, A>, undo: seq<H.UndoCommand<A>>, redo: seq<H.UndoCommand<A>>)
  {
    function History(): H.History<S, A> {
      H.History(client.snapshot, undo, redo)
    }
  }

  function ApplyChanges<S(!new), A>(
    ot: Ot.Ot<S, A>, s: Session<S, A>, cs: RemoteChangeset<A>): (Session<S, A>, Outcome) {
    var (c', outcome) := ApplyNewChanges(ot, s.client, cs);
    if outcome == Applied then
      var h := H.TransformStacks(ot, s.History(), Flat(cs.operations));
      (Session(c', h.undo, h.redo), outcome)
    else (s, outcome)
  }

  function ApplyMissed<S(!new), A>(
    ot: Ot.Ot<S, A>, s: Session<S, A>, list: seq<RemoteChangeset<A>>): (Session<S, A>, bool)
    decreases |list|
  {
    if list == [] then (s, true)
    else
      var (s', outcome) := ApplyChanges(ot, s, list[0]);
      if outcome == MissChanges then (s', false) else ApplyMissed(ot, s', list[1..])
  }

  /** The client's part of a session is handled as without the stacks. */
  lemma {:induction false} ApplyMissedClient<S(!new), A>(
    ot: Ot.Ot<S, A>, s: Session<S, A>, list: seq<RemoteChangeset<A>>)
    ensures (ApplyMissed(ot, s, list).0.client, ApplyMissed(ot, s, list).1) == ApplyAll(ot, s.client, list)
    decreases |list|
  {
    if list != [] {
      ApplyMissedClient(ot, ApplyChanges(ot, s, list[0]).0, list[1..]);
    }
  }

  /** Both stacks are rebased on the remote actions as they come, the snapshot changes by
      what is left of them after the local ones.  Undoing k entries of either stack then
      agrees with undoing k original ones and applying the residual exactly when the two
      have the same effect on the snapshot. */
  lemma TakeInCommutesIff<S(!new), A(!new)>(
    ot: Ot.Ot<S, A>, s: Session<S, A>, cs: RemoteChangeset<A>, k: nat, j: nat)
    requires Ot.Laws(ot) && ApplyChanges(ot, s, cs).1 == Applied
    requires H.Replays(ot, s.client.snapshot, s.undo) && H.Replays(ot, s.client.snapshot, s.redo)
    requires Ot.Apply(ot, s.client.snapshot, Flat(cs.operations)).Some?
    requires k <= |ApplyChanges(ot, s, cs).0.undo| && j <= |ApplyChanges(ot, s, cs).0.redo|
    ensures var s', raw := ApplyChanges(ot, s, cs).0, Flat(cs.operations);
            var same := Ot.Apply(ot, s.client.snapshot, raw) == Some(s'.client.snapshot);
            && k <= |s.undo| && H.After(ot, s.client.snapshot, s.undo, k).Some?
            && j <= |s.redo| && H.After(ot, s.client.snapshot, s.redo, j).Some?
            && (Ot.Meet(H.After(ot, s'.client.snapshot, s'.undo, k),
                        Ot.Apply(ot, H.After(ot, s.client.snapshot, s.undo, k).value, H.Residual(ot, s.undo, raw, k)))
                <==> same)
            && (Ot.Meet(H.After(ot, s'.client.snapshot, s'.redo, j),
                        Ot.Apply(ot, H.After(ot, s.client.snapshot, s.redo, j).value, H.Residual(ot, s.redo, raw, j)))
                <==> same)
  {
    var s', raw := ApplyChanges(ot, s, cs).0, Flat(cs.operations);
    H.RebaseOnNothing(ot, s.undo);
    H.RebaseOnNothing(ot, s.redo);
    H.RebaseCommutesIff(ot, s.client.snapshot, s'.client.snapshot, s.undo, raw, k);
    H.RebaseCommutesIff(ot, s.client.snapshot, s'.client.snapshot, s.redo, raw, j);
  }

  /** Where the remote actions come through the local ones with their effect on the
      snapshot, every undo and redo entry stays valid. */
  lemma TakeInKeepsHistory<S(!new), A(!new)>(
    ot: Ot.Ot<S, A>, reg: H.Registry, s: Session<S, A>, cs: RemoteChangeset<A>)
    requires Ot.Laws(ot) && H.Ok(ot, reg, s.History())
    requires Ot.Apply(ot, s.client.snapshot, Flat(cs.operations)).Some?
    requires Ot.Apply(ot, s.client.snapshot, DoTransform(ot, s.client, cs).1) ==
             Ot.Apply(ot, s.client.snapshot, Flat(cs.operations))
    ensures H.Ok(ot, reg, ApplyChanges(ot, s, cs).0.History())
  {
    if ApplyChanges(ot, s, cs).1 == Applied {
      H.RemoteOk(ot, reg, s.History(), Flat(cs.operations));
      assert ApplyChanges(ot, s, cs).0.History() == H.RemoteStep(ot, s.History(), Flat(cs.operations));
    }
  }

  /** In particular with nothing waiting to be sent or acknowledged. */
  lemma ClearTakeInKeepsHistory<S(!new), A(!new)>(
    ot: Ot.Ot<S, A>, reg: H.Registry, s: Session<S, A>, cs: RemoteChangeset<A>)
    requires Ot.Laws(ot) && H.Ok(ot, reg, s.History()) && s.client.StorageClear()
    requires Ot.Apply(ot, s.client.snapshot, Flat(cs.operations)).Some?
    ensures H.Ok(ot, reg, ApplyChanges(ot, s, cs).0.History())
  {
    TakeInKeepsHistory(ot, reg, s, cs);
  }

  // ---------------------------------------------------------------- all runs

  datatype Event<A> =
    | Execute(command: H.UndoCommand<A>)
    | UndoKey
    | RedoKey
    | NextChangeset(id: MessageId)
    | Deliver(entry: RemoteChangeset<A>)
    | Ack(acked: RemoteChangeset<A>)

  /** The operation that an executed command, undo or redo hands on to be sent. */
  function Outgoing<A>(entry: H.UndoCommand<A>, t: H.ExecuteType): Operation<A> {
    Operation(if t == H.Undo then "UNDO:" + entry.cmd else entry.cmd, entry.actions, None)
  }

  /** A command, an undo or a redo, recorded on the stacks of h, which is the history with the
      entry popped. */
  function Executed<S(!new), A>(
    ot: Ot.Ot<S, A>, reg: H.Registry, h: H.History<S, A>, entry: H.UndoCommand<A>, t: H.ExecuteType)
    : (H.History<S, A>, Option<Operation<A>>)
  {
    var (h', ran) := H.ExecuteActions(ot, reg, h, entry, t);
    (h', if ran then Some(Outgoing(entry, t)) else None)
  }

  function Undone<S(!new), A>(
    ot: Ot.Ot<S, A>, reg: H.Registry, h: H.History<S, A>): (H.History<S, A>, Option<Operation<A>>)
  {
    if h.undo == [] then (h, None)
    else Executed(ot, reg, h.(undo := H.Front(h.undo)), H.Last(h.undo), H.Undo)
  }

  function Redone<S(!new), A>(
    ot: Ot.Ot<S, A>, reg: H.Registry, h: H.History<S, A>): (H.History<S, A>, Option<Operation<A>>)
  {
    if h.redo == [] then (h, None)
    else Executed(ot, reg, h.(redo := H.Front(h.redo)), H.Last(h.redo), H.Redo)
  }

  /** The outgoing operation reaches the client's snapshot and queue. */
  function Dispatched<S(!new), A>(
    ot: Ot.Ot<S, A>, c: Client<S, A>, h: H.History<S, A>, result: Option<Operation<A>>): Session<S, A>
  {
    Session(if result.Some? then Edit(ot, c, result.value) else c, h.undo, h.redo)
  }

  function Step<S(!new), A>(ot: Ot.Ot<S, A>, reg: H.Registry, s: Session<S, A>, ev: Event<A>): Session<S, A> {
    match ev
    case Execute(command) =>
      var (h, result) := Executed(ot, reg, s.History(), command, H.Execute);
      Dispatched(ot, s.client, h, result)
    case UndoKey =>
      var (h, result) := Undone(ot, reg, s.History());
      Dispatched(ot, s.client, h, result)
    case RedoKey =>
      var (h, result) := Redone(ot, reg, s.History());
      Dispatched(ot, s.client, h, result)
    case NextChangeset(id) => s.(client := DeOpBuffer(ot, s.client, id))
    case Deliver(entry) => ApplyChanges(ot, s, entry).0
    case Ack(acked) => s.(client := AcceptCommit(s.client, acked).0)
  }

  function Run<S(!new), A>(ot: Ot.Ot<S, A>, reg: H.Registry, s: Session<S, A>, events: seq<Event<A>>): Session<S, A>
    decreases |events|
  {
    if events == [] then s else Run(ot, reg, Step(ot, reg, s, events[0]), events[1..])
  }

  lemma {:induction false} RunSnoc<S(!new), A>(
    ot: Ot.Ot<S, A>, reg: H.Registry, s: Session<S, A>, events: seq<Event<A>>, ev: Event<A>)
    ensures Run(ot, reg, s, events + [ev]) == Step(ot, reg, Run(ot, reg, s, events), ev)
    decreases |events|
  {
    if events == [] {
      assert [] + [ev] == [ev] && [ev][1..] == [];
    } else {
      assert (events + [ev])[1..] == events[1..] + [ev];
      RunSnoc(ot, reg, Step(ot, reg, s, events[0]), events[1..], ev);
    }
  }

  /** Its client goes through the steps of the protocol: it sends, and takes in or acknowledges an
      entry of the log, as one of the system's clients does, and a command or a key is a local
      edit with the actions of the command or the top entry, or nothing. */
  lemma StepIsProtocol<S(!new), A>(
    ot: Ot.Ot<S, A>, reg: H.Registry, sys: P.System<S, A>, i: nat, s: Session<S, A>, ev: Event<A>, k: nat)
    requires i < |sys.clients| && sys.clients[i] == s.client
    ensures var c := Step(ot, reg, s, ev).client;
            && (ev.NextChangeset? ==> c == P.Step(ot, sys, P.Send(i, ev.id)).clients[i])
            && (k < |sys.log| && ev == Deliver(sys.log[k]) ==> c == P.Step(ot, sys, P.Deliver(i, k)).clients[i])
            && (k < |sys.log| && ev == Ack(sys.log[k]) ==> c == P.Step(ot, sys, P.Ack(i, k)).clients[i])
            && (ev.Execute? && c != s.client ==>
                  c == P.Step(ot, sys, P.LocalEdit(i, Outgoing(ev.command, H.Execute))).clients[i])
            && (ev.UndoKey? && c != s.client ==>
                  s.undo != [] && c == P.Step(ot, sys, P.LocalEdit(i, Outgoing(H.Last(s.undo), H.Undo))).clients[i])
            && (ev.RedoKey? && c != s.client ==>
                  s.redo != [] && c == P.Step(ot, sys, P.LocalEdit(i, Outgoing(H.Last(s.redo), H.Redo))).clients[i])
  {
  }

  // ---------------------------------------------------------------- what is handed on

  /** What is handed on carries the entry's actions under its name, marked as an undo if it is
      one, and nothing is handed on exactly when nothing was to be run. */
  lemma OutgoingIs<S(!new), A>(
    ot: Ot.Ot<S, A>, reg: H.Registry, h: H.History<S, A>, entry: H.UndoCommand<A>, t: H.ExecuteType)
    ensures var result := Executed(ot, reg, h, entry, t).1;
            && (result.Some? <==>
                  entry.cmd in reg && entry.actions != [] && (t.Execute? || reg[entry.cmd]))
            && (result.Some? ==>
                  && result.value.actions == entry.actions && result.value.mainLinkDstId == None
                  && result.value.cmd ==
                     match t case Undo => ['U', 'N', 'D', 'O', ':'] + entry.cmd case _ => entry.cmd)
  {
  }

  /** A client in step that shows the old snapshot is in step with the new one once it has
      queued what is handed on. */
  lemma HandedOnSynced<S(!new), A>(
    ot: Ot.Ot<S, A>, reg: H.Registry, base: Option<S>, c: Client<S, A>, h: H.History<S, A>,
    entry: H.UndoCommand<A>, t: H.ExecuteType)
    requires Synced(ot, base, c) && c.snapshot == h.snapshot && Ot.Apply(ot, h.snapshot, entry.actions).Some?
    ensures var (h', result) := Executed(ot, reg, h, entry, t);
            var queued := if result.Some? then PushOp(c, result.value) else c;
            Synced(ot, base, queued.(snapshot := h'.snapshot))
  {
    var (h', result) := Executed(ot, reg, h, entry, t);
    if result.Some? {
      PushedLocal(c, result.value);
      Ot.ApplyConcat(ot, base.value, Local(c), entry.actions);
      assert Local(PushOp(c, result.value).(snapshot := h'.snapshot)) == Local(PushOp(c, result.value));
    } else {
      assert c.(snapshot := h'.snapshot) == c;
    }
  }

  /** The same for the undo key and the redo key, whose results come from the popped entries. */
  lemma KeysHandedOnSynced<S(!new), A>(
    ot: Ot.Ot<S, A>, reg: H.Registry, base: Option<S>, c: Client<S, A>, h: H.History<S, A>)
    requires Synced(ot, base, c) && c.snapshot == h.snapshot
    requires h.undo != [] ==> Ot.Apply(ot, h.snapshot, H.Last(h.undo).actions).Some?
    requires h.redo != [] ==> Ot.Apply(ot, h.snapshot, H.Last(h.redo).actions).Some?
    ensures var (h', result) := Undone(ot, reg, h);
            var queued := if result.Some? then PushOp(c, result.value) else c;
            && h' == H.UndoStep(ot, reg, h)
            && Synced(ot, base, queued.(snapshot := h'.snapshot))
            && (result.Some? ==> h.undo != [] && result.value.cmd == "UNDO:" + H.Last(h.undo).cmd)
    ensures var (h', result) := Redone(ot, reg, h);
            var queued := if result.Some? then PushOp(c, result.value) else c;
            && h' == H.RedoStep(ot, reg, h)
            && Synced(ot, base, queued.(snapshot := h'.snapshot))
            && (result.Some? ==> h.redo != [] && result.value.cmd == H.Last(h.redo).cmd)
  {
    assert c.(snapshot := h.snapshot) == c;
    if h.undo != [] {
      HandedOnSynced(ot, reg, base, c, h.(undo := H.Front(h.undo)), H.Last(h.undo), H.Undo);
    }
    if h.redo != [] {
      HandedOnSynced(ot, reg, base, c, h.(redo := H.Front(h.redo)), H.Last(h.redo), H.Redo);
    }
  }

  /** The queue and the stacks see the same snapshot. */
  lemma DispatchedHistory<S(!new), A>(
    ot: Ot.Ot<S, A>, reg: H.Registry, c: Client<S, A>, h: H.History<S, A>, entry: H.UndoCommand<A>, t: H.ExecuteType)
    requires h.snapshot == c.snapshot
    ensures var (h', result) := Executed(ot, reg, h, entry, t);
            Dispatched(ot, c, h', result).History() == h' == H.ExecuteActions(ot, reg, h, entry, t).0
  {
  }

  /** A session's history goes through the steps of the history alone. */
  lemma StepHistory<S(!new), A>(ot: Ot.Ot<S, A>, reg: H.Registry, s: Session<S, A>, c: H.UndoCommand<A>)
    ensures Step(ot, reg, s, Execute(c)).History() == H.Step(ot, reg, s.History(), H.Command(c))
    ensures Step(ot, reg, s, UndoKey).History() == H.Step(ot, reg, s.History(), H.UndoKey)
    ensures Step(ot, reg, s, RedoKey).History() == H.Step(ot, reg, s.History(), H.RedoKey)
  {
    DispatchedHistory(ot, reg, s.client, s.History(), c, H.Execute);
    if s.undo != [] {
      DispatchedHistory(ot, reg, s.client, s.History().(undo := H.Front(s.undo)), H.Last(s.undo), H.Undo);
    }
    if s.redo != [] {
      DispatchedHistory(ot, reg, s.client, s.History().(redo := H.Front(s.redo)), H.Last(s.redo), H.Redo);
    }
  }

  /** Commands and keys keep a session's client in step with the server, whether their actions
      fit or not. */
  lemma StepSynced<S(!new), A(!new)>(
    ot: Ot.Ot<S, A>, reg: H.Registry, base: Option<S>, s: Session<S, A>, ev: Event<A>)
    requires Synced(ot, base, s.client) && (ev.Execute? || ev.UndoKey? || ev.RedoKey?)
    ensures Synced(ot, base, Step(ot, reg, s, ev).client)
  {
    var (h, result) := match ev
      case Execute(command) => Executed(ot, reg, s.History(), command, H.Execute)
      case UndoKey => Undone(ot, reg, s.History())
      case _ => Redone(ot, reg, s.History());
    if result.Some? {
      EditSynced(ot, base, s.client, result.value);
    }
  }

  // ---------------------------------------------------------------- the limit

  lemma StepWithinLimit<S(!new), A>(ot: Ot.Ot<S, A>, reg: H.Registry, s: Session<S, A>, ev: Event<A>)
    requires H.Total(s.History()) <= 50
    ensures H.Total(Step(ot, reg, s, ev).History()) <= 50
    ensures !ev.Execute? ==> H.Total(Step(ot, reg, s, ev).History()) <= H.Total(s.History())
    ensures ev.RedoKey? ==> s.undo <= Step(ot, reg, s, ev).undo
  {
    H.KeysEvictNothing(ot, reg, s.History());
    match ev {
      case Execute(command) =>
        StepHistory(ot, reg, s, command);
        H.ExecuteEvictsIff(ot, reg, s.History(), command);
      case UndoKey => StepHistory(ot, reg, s, H.UndoCommand("", []));
      case RedoKey => StepHistory(ot, reg, s, H.UndoCommand("", []));
      case _ =>
    }
  }

  /** Through any run of commands, undos, redos, sending, deliveries and acknowledgements,
      whatever is buffered and whatever fits, the stacks hold at most 50 entries together. */
  lemma {:induction false} RunWithinLimit<S(!new), A>(
    ot: Ot.Ot<S, A>, reg: H.Registry, s: Session<S, A>, events: seq<Event<A>>)
    requires H.Total(s.History()) <= 50
    ensures H.Total(Run(ot, reg, s, events).History()) <= 50
    decreases |events|
  {
    if events != [] {
      StepWithinLimit(ot, reg, s, events[0]);
      RunWithinLimit(ot, reg, Step(ot, reg, s, events[0]), events[1..]);
    }
  }

  /** Commands fit and can be undone if they change anything; an entry that is taken in has
      the same effect before and after passing the local operations. */
  ghost predicate Fits<S(!new), A>(ot: Ot.Ot<S, A>, reg: H.Registry, s: Session<S, A>, ev: Event<A>) {
    match ev
    case Execute(command) => H.Fits(ot, reg, s.History(), H.Command(command))
    case Deliver(entry) =>
      ApplyChanges(ot, s, entry).1 == Applied ==>
        var raw := Ot.Apply(ot, s.client.snapshot, Flat(entry.operations));
        raw.Some? && Ot.Apply(ot, s.client.snapshot, DoTransform(ot, s.client, entry).1) == raw
    case _ => true
  }

  ghost predicate FittingRun<S(!new), A>(ot: Ot.Ot<S, A>, reg: H.Registry, s: Session<S, A>, events: seq<Event<A>>)
    decreases |events|
  {
    events == [] || (Fits(ot, reg, s, events[0]) && FittingRun(ot, reg, Step(ot, reg, s, events[0]), events[1..]))
  }

  lemma StepKeepsHistory<S(!new), A(!new)>(ot: Ot.Ot<S, A>, reg: H.Registry, s: Session<S, A>, ev: Event<A>)
    requires Ot.Laws(ot) && H.Ok(ot, reg, s.History()) && Fits(ot, reg, s, ev)
    ensures H.Ok(ot, reg, Step(ot, reg, s, ev).History())
  {
    match ev {
      case Execute(command) =>
        StepHistory(ot, reg, s, command);
        H.StepOk(ot, reg, s.History(), H.Command(command));
      case UndoKey =>
        StepHistory(ot, reg, s, H.UndoCommand("", []));
        H.UndoOk(ot, reg, s.History());
      case RedoKey =>
        StepHistory(ot, reg, s, H.UndoCommand("", []));
        H.RedoOk(ot, reg, s.History());
      case NextChangeset(id) => assert Step(ot, reg, s, ev).History() == s.History();
      case Deliver(entry) =>
        if ApplyChanges(ot, s, entry).1 == Applied {
          TakeInKeepsHistory(ot, reg, s, entry);
        }
      case Ack(acked) => assert Step(ot, reg, s, ev).History() == s.History();
    }
  }

  lemma {:induction false} RunKeepsHistory<S(!new), A(!new)>(
    ot: Ot.Ot<S, A>, reg: H.Registry, s: Session<S, A>, events: seq<Event<A>>)
    requires Ot.Laws(ot) && H.Ok(ot, reg, s.History()) && FittingRun(ot, reg, s, events)
    ensures H.Ok(ot, reg, Run(ot, reg, s, events).History())
    decreases |events|
  {
    if events != [] {
      StepKeepsHistory(ot, reg, s, events[0]);
      RunKeepsHistory(ot, reg, Step(ot, reg, s, events[0]), events[1..]);
    }
  }

  /** From a freshly loaded document on, through any run of commands, undos, redos, sending,
      deliveries and acknowledgements that fit, every undo and redo entry is valid where it
      would be applied. */
  lemma LoadedKeepsHistory<S(!new), A(!new)>(
    ot: Ot.Ot<S, A>, reg: H.Registry, doc: S, revision: nat, events: seq<Event<A>>)
    requires Ot.Laws(ot)
    requires FittingRun(ot, reg, Session(Client(doc, revision, None, []), [], []), events)
    ensures H.Ok(ot, reg, Run(ot, reg, Session(Client(doc, revision, None, []), [], []), events).History())
  {
    H.EmptyOk(ot, reg, doc);
    RunKeepsHistory(ot, reg, Session(Client(doc, revision, None, []), [], []), events);
  }
}
