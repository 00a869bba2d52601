/** Clients, a server and a network that may delay, duplicate, reorder or lose.
    Every handler section between two awaits is one event, so a run covers every
    interleaving of the asynchronous handlers. */
module Protocol {
  import opened Options
  import opened Changesets
  import opened ClientState
  import Ot

  /** A changeset on its way to the server. */
  datatype Packet<A> = Packet(sender: nat, changeset: LocalChangeset<A>)

  /** A changeset as its author remembers it: its id and its command names. */
  type Receipt = (MessageId, seq<string>)

  /** What the server makes of an operation it has rebased, given the log, the base revision
      and the submitted and the rebased actions: it merges concurrent changes of a link cell,
      and refuses some operations (None). */
  type Amend<!A> = (seq<RemoteChangeset<A>>, nat, seq<A>, seq<A>) -> Option<seq<A>>

  /** The server's limit on rebasing, and its amendments. */
  datatype Server<!A> = Server(limit: nat, amend: Amend<A>)

  /** `authors` and `sent` are history: who wrote each log entry, and what each client
      has put in flight, in order. */
  datatype System<S(!new), !A> = System(
    init: S,
    server: Server<A>,
    log: seq<RemoteChangeset<A>>,
    clients: seq<Client<S, A>>,
    net: seq<Packet<A>>,
    usedIds: set<MessageId>,
    authors: seq<nat>,
    sent: seq<seq<Receipt>>
  )

  // ---------------------------------------------------------------- the server

  const MAX_REVISION_DIFF := 100

  predicate HasId<A>(log: seq<RemoteChangeset<A>>, id: MessageId) {
    exists i :: 0 <= i < |log| && log[i].messageId == id
  }

  /** All actions of a stretch of the log. */
  function LogActions<A>(log: seq<RemoteChangeset<A>>): seq<A> {
    if log == [] then [] else Flat(log[0].operations) + LogActions(log[1..])
  }

  /** The rebased operations as the server logs them; each keeps its command and the link
      marker it had.  One refusal refuses them all. */
  function Amended<A>(
    server: Server<A>, log: seq<RemoteChangeset<A>>, base: nat, before: seq<Operation<A>>, after: seq<Operation<A>>)
    : (r: Option<seq<Operation<A>>>)
    requires |before| == |after|
    ensures r.Some? ==> |r.value| == |before| && forall i :: 0 <= i < |before| ==> r.value[i].cmd == before[i].cmd
  {
    if before == [] then Some([])
    else
      var actions := server.amend(log, base, before[0].actions, after[0].actions);
      var rest := Amended(server, log, base, before[1..], after[1..]);
      if actions.None? || rest.None? then None
      else Some([Operation(before[0].cmd, actions.value, before[0].mainLinkDstId)] + rest.value)
  }

  /** What the server appends for a submitted changeset; None is a rejection: known
      message, base revision ahead of the log or too far behind, too much work, or an
      operation that is refused after rebasing. */
  function Commit<S(!new), A>(
    ot: Ot.Ot<S, A>, log: seq<RemoteChangeset<A>>, server: Server<A>, cs: LocalChangeset<A>)
    : Option<RemoteChangeset<A>>
  {
    if HasId(log, cs.messageId) then None
    else if cs.baseRevision > |log| || |log| - cs.baseRevision > MAX_REVISION_DIFF then None
    else if cs.baseRevision == |log| then
      Some(RemoteChangeset(cs.messageId, |log| + 1, cs.operations))
    else
      var missed := LogActions(log[cs.baseRevision..]);
      if |missed| * |Flat(cs.operations)| > server.limit then None
      else
        var rebased := TransformOps(ot, cs.operations, missed).0;
        var logged := Amended(server, log, cs.baseRevision, cs.operations, rebased);
        if logged.None? then None else Some(RemoteChangeset(cs.messageId, |log| + 1, logged.value))
  }

  /** The server's document at a revision. */
  function StateAt<S(!new), A>(ot: Ot.Ot<S, A>, init: S, log: seq<RemoteChangeset<A>>, r: nat): Option<S>
    requires r <= |log|
  {
    Ot.Apply(ot, init, LogActions(log[..r]))
  }

  // ---------------------------------------------------------------- events

  datatype Event<A> =
    | LocalEdit(client: nat, op: Operation<A>)        // a command executes
    | Send(client: nat, id: MessageId)                // nextSend -> getNextChangeset
    | Resend(client: nat)                             // the retry watcher
    | Receive(packet: nat)                            // the server handles a packet
    | Deliver(client: nat, entry: nat)                // applyNewChanges on a log entry
    | Ack(client: nat, entry: nat)                    // the acknowledgement handler completes
    | Join(revision: nat)                             // a client loads the document of that revision

  function SetClient<S(!new), A>(sys: System<S, A>, i: nat, c: Client<S, A>): System<S, A>
    requires i < |sys.clients|
  {
    sys.(clients := sys.clients[i := c])
  }

  function Step<S(!new), A>(ot: Ot.Ot<S, A>, sys: System<S, A>, ev: Event<A>): System<S, A> {
    match ev
    case LocalEdit(i, op) =>
      if i >= |sys.clients| then sys else SetClient(sys, i, Edit(ot, sys.clients[i], op))
    case Send(i, id) => if i >= |sys.clients| then sys else SendStep(ot, sys, i, id)
    case Resend(i) =>
      if i >= |sys.clients| || sys.clients[i].pending.None? then sys
      else sys.(net := sys.net + [Packet(i, sys.clients[i].pending.value)])
    case Receive(k) => if k >= |sys.net| then sys else ReceiveStep(ot, sys, sys.net[k])
    case Deliver(i, k) =>
      if i >= |sys.clients| || k >= |sys.log| then sys
      else SetClient(sys, i, ApplyNewChanges(ot, sys.clients[i], sys.log[k]).0)
    case Ack(i, k) =>
      if i >= |sys.clients| || k >= |sys.log| then sys
      else SetClient(sys, i, AcceptCommit(sys.clients[i], sys.log[k]).0)
    case Join(r) => if r > |sys.log| then sys else JoinStep(ot, sys, r)
  }

  function JoinStep<S(!new), A>(ot: Ot.Ot<S, A>, sys: System<S, A>, r: nat): System<S, A>
    requires r <= |sys.log|
  {
    var doc := StateAt(ot, sys.init, sys.log, r);
    if doc.None? then sys
    else sys.(clients := sys.clients + [Client(doc.value, r, None, [])], sent := sys.sent + [[]])
  }

  function SendStep<S(!new), A>(ot: Ot.Ot<S, A>, sys: System<S, A>, i: nat, id: MessageId): System<S, A>
    requires i < |sys.clients|
  {
    var c := DeOpBuffer(ot, sys.clients[i], id);
    if c.pending.None? then SetClient(sys, i, c)
    else
      SetClient(sys, i, c).(
        net := sys.net + [Packet(i, c.pending.value)],
        usedIds := sys.usedIds + {id},
        sent := if i < |sys.sent| then sys.sent[i := sys.sent[i] + [(id, Cmds(c.pending.value.operations))]]
                else sys.sent)
  }

  function ReceiveStep<S(!new), A>(ot: Ot.Ot<S, A>, sys: System<S, A>, p: Packet<A>): System<S, A> {
    var entry := Commit(ot, sys.log, sys.server, p.changeset);
    if entry.None? then sys
    else sys.(log := sys.log + [entry.value], authors := sys.authors + [p.sender])
  }

  function Run<S(!new), A>(ot: Ot.Ot<S, A>, sys: System<S, A>, events: seq<Event<A>>): System<S, A>
    decreases |events|
  {
    if events == [] then sys else Run(ot, Step(ot, sys, events[0]), events[1..])
  }

  /** n clients that have just loaded the document; more may join later. */
  function Initial<S(!new), A>(init: S, server: Server<A>, n: nat): (sys: System<S, A>) {
    System(init, server, [], seq(n, _ => Client(init, 0, None, [])), [], {}, [], seq(n, _ => []))
  }

  // ---------------------------------------------------------------- discipline

  /** The client has counted the log entry of its pending changeset, which only waits to
      be cleared. */
  predicate Acked<S(!new), A>(log: seq<RemoteChangeset<A>>, c: Client<S, A>) {
    c.pending.Some? && c.revision <= |log| && HasId(log[..c.revision], c.pending.value.messageId)
  }

  /** The next entry comes through an acknowledged, uncleared changeset with the effect it
      has on the server's document. */
  ghost predicate Harmless<S(!new), A>(
    ot: Ot.Ot<S, A>, init: S, log: seq<RemoteChangeset<A>>, c: Client<S, A>)
    requires c.revision < |log|
  {
    var base, entry := StateAt(ot, init, log, c.revision), log[c.revision];
    base.Some? && Ot.Apply(ot, base.value, PassedOn(ot, c, entry)) == Ot.Apply(ot, base.value, Flat(entry.operations))
  }

  /** What the submitted changeset is after rebasing alone. */
  function Rebased<S(!new), A>(ot: Ot.Ot<S, A>, log: seq<RemoteChangeset<A>>, cs: LocalChangeset<A>): seq<A>
    requires cs.baseRevision <= |log|
  {
    Ot.TransformX(ot, Flat(cs.operations), LogActions(log[cs.baseRevision..])).0
  }

  /** What the server logs for a packet, if anything, has the effect of rebasing alone: its
      amendments change nothing. */
  ghost predicate Faithful<S(!new), A>(
    ot: Ot.Ot<S, A>, init: S, log: seq<RemoteChangeset<A>>, server: Server<A>, cs: LocalChangeset<A>)
  {
    var entry, doc := Commit(ot, log, server, cs), StateAt(ot, init, log, |log|);
    entry.Some? && doc.Some? ==>
      Ot.Apply(ot, doc.value, Flat(entry.value.operations)) == Ot.Apply(ot, doc.value, Rebased(ot, log, cs))
  }

  /** Message ids are fresh. */
  predicate Fresh<S(!new), A>(sys: System<S, A>, ev: Event<A>) {
    ev.Send? && ev.client < |sys.clients| ==> ev.id !in sys.usedIds
  }

  predicate FreshRun<S(!new), A>(ot: Ot.Ot<S, A>, sys: System<S, A>, events: seq<Event<A>>)
    decreases |events|
  {
    events == [] || (Fresh(sys, events[0]) && FreshRun(ot, Step(ot, sys, events[0]), events[1..]))
  }

  /** What the rest of the system owes the engine.  Message ids are fresh, a new changeset
      is only started when none is waiting for its acknowledgement, an entry taken in
      between an acknowledgement and the clearing of the acknowledged changeset is
      harmless, and the server's amendments keep the effect of what they amend.  Module
      `Divergence` shows what happens otherwise. */
  ghost predicate Disciplined<S(!new), A>(ot: Ot.Ot<S, A>, sys: System<S, A>, ev: Event<A>) {
    match ev
    case Send(i, id) =>
      i < |sys.clients| ==>
        id !in sys.usedIds && (sys.clients[i].pending.None? || Acked(sys.log, sys.clients[i]))
    case Receive(k) => k < |sys.net| ==> Faithful(ot, sys.init, sys.log, sys.server, sys.net[k].changeset)
    case Deliver(i, k) =>
      i < |sys.clients| && k < |sys.log| && Acked(sys.log, sys.clients[i]) && k == sys.clients[i].revision ==>
        Harmless(ot, sys.init, sys.log, sys.clients[i])
    case _ => true
  }

  ghost predicate DisciplinedRun<S(!new), A>(ot: Ot.Ot<S, A>, sys: System<S, A>, events: seq<Event<A>>)
    decreases |events|
  {
    events == [] ||
    (Disciplined(ot, sys, events[0]) && DisciplinedRun(ot, Step(ot, sys, events[0]), events[1..]))
  }

  /** The discipline of clients in terms of what they can see: no entry at all is taken in
      between an acknowledgement and the clearing. */
  predicate Strict<S(!new), A>(sys: System<S, A>, ev: Event<A>) {
    match ev
    case Send(i, id) =>
      i < |sys.clients| ==>
        id !in sys.usedIds && (sys.clients[i].pending.None? || Counted(sys.clients[i]))
    case Deliver(i, k) =>
      i < |sys.clients| && Counted(sys.clients[i]) ==> k != sys.clients[i].revision
    case _ => true
  }

  predicate StrictRun<S(!new), A>(ot: Ot.Ot<S, A>, sys: System<S, A>, events: seq<Event<A>>)
    decreases |events|
  {
    events == [] || (Strict(sys, events[0]) && StrictRun(ot, Step(ot, sys, events[0]), events[1..]))
  }
}
