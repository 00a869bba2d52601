/** What every run keeps, whatever the transformation does: the numbering of the log, the
    ids, the base revisions, and which entries each client has taken in. */
module Bookkeeping {
  import opened Options
  import opened Changesets
  import opened ClientState
  import opened Protocol
  import Ot

  // ---------------------------------------------------------------- ids

  lemma HasIdNext<A>(log: seq<RemoteChangeset<A>>, r: nat, id: MessageId)
    requires r < |log|
    ensures HasId(log[..r + 1], id) <==> HasId(log[..r], id) || log[r].messageId == id
  {
    if HasId(log[..r], id) {
      var i :| 0 <= i < r && log[..r][i].messageId == id;
      assert log[..r + 1][i].messageId == id;
    }
    if log[r].messageId == id {
      assert log[..r + 1][r].messageId == id;
    }
  }

  lemma HasIdGrows<A>(log: seq<RemoteChangeset<A>>, entry: RemoteChangeset<A>, id: MessageId)
    ensures HasId(log + [entry], id) <==> HasId(log, id) || entry.messageId == id
  {
    assert (log + [entry])[..|log|] == log && (log + [entry])[..|log| + 1] == log + [entry];
    HasIdNext(log + [entry], |log|, id);
  }

  lemma HasIdBefore<A>(log: seq<RemoteChangeset<A>>, r: nat, id: MessageId)
    requires r <= |log| && HasId(log[..r], id)
    ensures HasId(log, id)
  {
    var i :| 0 <= i < r && log[..r][i].messageId == id;
    assert log[i].messageId == id;
  }

  lemma OwnNotYetCounted<A>(log: seq<RemoteChangeset<A>>, k: nat, id: MessageId)
    requires DistinctIds(log) && k < |log| && log[k].messageId == id
    ensures !HasId(log[..k], id)
  {
  }

  /** An entry goes to the end of the log under the message id it was submitted with, which
      the log does not have yet, and with the submitted commands. */
  lemma CommitShape<S(!new), A>(
    ot: Ot.Ot<S, A>, log: seq<RemoteChangeset<A>>, server: Server<A>, cs: LocalChangeset<A>)
    requires Commit(ot, log, server, cs).Some?
    ensures cs.baseRevision <= |log| && !HasId(log, cs.messageId)
    ensures var entry := Commit(ot, log, server, cs).value;
            && entry.messageId == cs.messageId && entry.revision == |log| + 1
            && Cmds(entry.operations) == Cmds(cs.operations)
  {
  }

  lemma {:induction false} AmendedIs<A>(
    server: Server<A>, log: seq<RemoteChangeset<A>>, base: nat, before: seq<Operation<A>>, after: seq<Operation<A>>)
    requires |before| == |after|
    ensures var r := Amended(server, log, base, before, after);
            && (r.Some? <==> forall i :: 0 <= i < |before| ==> AmendedAt(server, log, base, before, after, i).Some?)
            && (r.Some? ==> forall i :: 0 <= i < |before| ==>
                  r.value[i] == before[i].(actions := AmendedAt(server, log, base, before, after, i).value))
  {
    if before != [] {
      var xs, ys := before[1..], after[1..];
      AmendedIs(server, log, base, xs, ys);
      assert forall i :: 0 <= i < |xs| ==>
        AmendedAt(server, log, base, xs, ys, i) == AmendedAt(server, log, base, before, after, i + 1);
      if Amended(server, log, base, before, after).Some? {
        forall i | 0 <= i < |before| ensures AmendedAt(server, log, base, before, after, i).Some? {
          assert i > 0 ==> AmendedAt(server, log, base, xs, ys, i - 1).Some?;
        }
      } else {
        assert AmendedAt(server, log, base, before, after, 0).None? ||
               exists i :: 0 <= i < |xs| && AmendedAt(server, log, base, xs, ys, i).None?;
      }
    }
  }

  /** What the server makes of one of the rebased operations. */
  function AmendedAt<A>(
    server: Server<A>, log: seq<RemoteChangeset<A>>, base: nat, before: seq<Operation<A>>, after: seq<Operation<A>>,
    i: nat): Option<seq<A>>
    requires i < |before| == |after|
  {
    server.amend(log, base, before[i].actions, after[i].actions)
  }

  /** What a changeset's operations have become when the server has rebased them. */
  function RebasedOps<S(!new), A>(
    ot: Ot.Ot<S, A>, log: seq<RemoteChangeset<A>>, cs: LocalChangeset<A>): (r: seq<Operation<A>>)
    requires cs.baseRevision <= |log|
    ensures |r| == |cs.operations|
  {
    TransformOps(ot, cs.operations, LogActions(log[cs.baseRevision..])).0
  }

  /** A changeset is appended exactly when its id is new, its base revision is in the log or its
      end and no more than 100 entries back, and, unless it is the end, rebasing is within the
      limit and no operation is refused. */
  lemma CommitIff<S(!new), A>(
    ot: Ot.Ot<S, A>, log: seq<RemoteChangeset<A>>, server: Server<A>, cs: LocalChangeset<A>)
    ensures Commit(ot, log, server, cs).Some? <==>
            && (forall i :: 0 <= i < |log| ==> log[i].messageId != cs.messageId)
            && cs.baseRevision <= |log| <= cs.baseRevision + 100
            && (cs.baseRevision < |log| ==>
                  var rebased := RebasedOps(ot, log, cs);
                  && |LogActions(log[cs.baseRevision..])| * |Flat(cs.operations)| <= server.limit
                  && forall i :: 0 <= i < |cs.operations| ==>
                       AmendedAt(server, log, cs.baseRevision, cs.operations, rebased, i).Some?)
  {
    if cs.baseRevision < |log| {
      AmendedIs(server, log, cs.baseRevision, cs.operations, RebasedOps(ot, log, cs));
    }
  }

  /** Loading any revision up to the end of the log adds a client that shows it, with nothing to
      send; nothing else changes. */
  lemma JoinedShows<S(!new), A>(ot: Ot.Ot<S, A>, sys: System<S, A>, r: nat)
    requires r <= |sys.log| && StateAt(ot, sys.init, sys.log, r).Some?
    ensures var sys' := Step(ot, sys, Join(r));
            && |sys'.clients| == |sys.clients| + 1 && sys'.clients[..|sys.clients|] == sys.clients
            && var c := sys'.clients[|sys.clients|];
            && c.revision == r && Ot.Apply(ot, sys.init, LogActions(sys.log[..r])) == Some(c.snapshot)
            && c.StorageClear()
            && sys' == sys.(clients := sys'.clients, sent := sys.sent + [[]])
  {
  }

  ghost predicate IdsOk<S(!new), A>(sys: System<S, A>) {
    && (forall i :: 0 <= i < |sys.log| ==> sys.log[i].messageId in sys.usedIds)
    && (forall i :: 0 <= i < |sys.clients| && sys.clients[i].pending.Some? ==>
          sys.clients[i].pending.value.messageId in sys.usedIds)
    && (forall k :: 0 <= k < |sys.net| ==> sys.net[k].changeset.messageId in sys.usedIds)
    && (forall i, j :: 0 <= i < j < |sys.clients| && sys.clients[i].pending.Some? && sys.clients[j].pending.Some? ==>
          sys.clients[i].pending.value.messageId != sys.clients[j].pending.value.messageId)
  }

  // ---------------------------------------------------------------- revisions

  /** Log entries are numbered from 1. */
  predicate Numbered<S(!new), A>(sys: System<S, A>) {
    forall k :: 0 <= k < |sys.log| ==> sys.log[k].revision == k + 1
  }

  /** A pending changeset is based on its client's revision until that client has counted its
      log entry, and never on a later one. */
  predicate BaseOk<S(!new), A>(log: seq<RemoteChangeset<A>>, c: Client<S, A>) {
    && c.revision <= |log|
    && (c.pending.Some? ==>
          && c.pending.value.baseRevision <= c.revision
          && (!Acked(log, c) ==> c.pending.value.baseRevision == c.revision))
  }

  ghost predicate Based<S(!new), A>(sys: System<S, A>) {
    Numbered(sys) && forall i :: 0 <= i < |sys.clients| ==> BaseOk(sys.log, sys.clients[i])
  }

  lemma DeliverBased<S(!new), A>(ot: Ot.Ot<S, A>, log: seq<RemoteChangeset<A>>, c: Client<S, A>, k: nat)
    requires BaseOk(log, c) && k < |log| && log[k].revision == k + 1
    ensures BaseOk(log, ApplyNewChanges(ot, c, log[k]).0)
  {
    if c.pending.Some? && c.revision < |log| {
      HasIdNext(log, c.revision, c.pending.value.messageId);
    }
  }

  lemma AckBased<S(!new), A>(log: seq<RemoteChangeset<A>>, c: Client<S, A>, k: nat)
    requires BaseOk(log, c) && k < |log| && log[k].revision == k + 1
    ensures BaseOk(log, AcceptCommit(c, log[k]).0)
  {
    if c.pending.Some? && c.revision < |log| {
      HasIdNext(log, c.revision, c.pending.value.messageId);
    }
  }

  lemma ReceiveBased<S(!new), A>(ot: Ot.Ot<S, A>, sys: System<S, A>, p: Packet<A>)
    requires Based(sys)
    ensures Based(ReceiveStep(ot, sys, p))
  {
    var sys' := ReceiveStep(ot, sys, p);
    forall i | 0 <= i < |sys.clients| ensures BaseOk(sys'.log, sys'.clients[i]) {
      assert sys'.log[..sys.clients[i].revision] == sys.log[..sys.clients[i].revision];
    }
  }

  lemma StepBased<S(!new), A>(ot: Ot.Ot<S, A>, sys: System<S, A>, ev: Event<A>)
    requires Based(sys)
    ensures Based(Step(ot, sys, ev))
  {
    match ev {
      case Receive(k) => if k < |sys.net| { ReceiveBased(ot, sys, sys.net[k]); }
      case Deliver(i, k) =>
        if i < |sys.clients| && k < |sys.log| { DeliverBased(ot, sys.log, sys.clients[i], k); }
      case Ack(i, k) => if i < |sys.clients| && k < |sys.log| { AckBased(sys.log, sys.clients[i], k); }
      case _ =>
    }
  }

  lemma {:induction false} RunBased<S(!new), A>(ot: Ot.Ot<S, A>, sys: System<S, A>, events: seq<Event<A>>)
    requires Based(sys)
    ensures Based(Run(ot, sys, events))
    decreases |events|
  {
    if events != [] {
      StepBased(ot, sys, events[0]);
      RunBased(ot, Step(ot, sys, events[0]), events[1..]);
    }
  }

  /** In every run, disciplined or not, a pending changeset is based on its client's revision
      until it is acknowledged, that is, until the client has counted its log entry. */
  lemma PendingBase<S(!new), A>(
    ot: Ot.Ot<S, A>, init: S, server: Server<A>, n: nat, events: seq<Event<A>>, i: nat)
    requires i < |Run(ot, Initial<S, A>(init, server, n), events).clients|
    requires Run(ot, Initial<S, A>(init, server, n), events).clients[i].pending.Some?
    ensures var sys := Run(ot, Initial<S, A>(init, server, n), events);
            var c := sys.clients[i];
            && c.pending.value.baseRevision <= c.revision <= |sys.log|
            && (!Acked(sys.log, c) ==> c.pending.value.baseRevision == c.revision)
  {
    RunBased(ot, Initial<S, A>(init, server, n), events);
    var sys := Run(ot, Initial<S, A>(init, server, n), events);
    assert BaseOk(sys.log, sys.clients[i]);
  }

  // ---------------------------------------------------------------- reaching the end of the log

  /** Handling an entry to its end is the delivery and then the acknowledgement of it. */
  lemma HandledIsSteps<S(!new), A>(ot: Ot.Ot<S, A>, sys: System<S, A>, i: nat, k: nat)
    requires i < |sys.clients| && k < |sys.log| && sys.log[k].revision == sys.clients[i].revision + 1
    ensures Step(ot, Step(ot, sys, Deliver(i, k)), Ack(i, k)) ==
            SetClient(sys, i, Handled(ot, sys.clients[i], sys.log[k]))
  {
    assert sys.clients[i := sys.clients[i]] == sys.clients;
    var c' := ApplyNewChanges(ot, sys.clients[i], sys.log[k]).0;
    assert sys.clients[i := c'][i := c'] == sys.clients[i := c'];
  }

  /** In every reachable system, a client that is handed what it has not yet seen of the log, one
      entry handled after the other, reaches the end of the log. */
  lemma ReachesLogEnd<S(!new), A>(
    ot: Ot.Ot<S, A>, init: S, server: Server<A>, n: nat, events: seq<Event<A>>, i: nat)
    requires i < |Run(ot, Initial<S, A>(init, server, n), events).clients|
    ensures var sys := Run(ot, Initial<S, A>(init, server, n), events);
            var c := sys.clients[i];
            && c.revision <= |sys.log|
            && HandledAll(ot, c, sys.log[c.revision..]).revision == |sys.log|
  {
    var start := Initial<S, A>(init, server, n);
    RunBased(ot, start, events);
    var sys := Run(ot, start, events);
    var c := sys.clients[i];
    assert BaseOk(sys.log, c);
    assert Contiguous(sys.log[c.revision..], c.revision + 1);
    HandedInOrder(ot, c, sys.log[c.revision..], c.revision + 1);
  }

  // ---------------------------------------------------------------- taking entries in

  /** The log entry that an event makes client i take in or count as its own. */
  function TakenBy<S(!new), A>(sys: System<S, A>, ev: Event<A>, i: nat, ot: Ot.Ot<S, A>): seq<nat>
    requires i < |sys.clients|
  {
    match ev
    case Deliver(j, k) =>
      if j == i && k < |sys.log| && ApplyNewChanges(ot, sys.clients[i], sys.log[k]).1 == Applied then [k] else []
    case Ack(j, k) =>
      if j == i && k < |sys.log| && AcceptCommit(sys.clients[i], sys.log[k]).1 == Accepted then [k] else []
    case _ => []
  }

  lemma StepTakes<S(!new), A>(ot: Ot.Ot<S, A>, sys: System<S, A>, ev: Event<A>, i: nat)
    requires Numbered(sys) && i < |sys.clients|
    ensures var sys' := Step(ot, sys, ev);
            && Numbered(sys') && |sys.clients| <= |sys'.clients| && |sys.log| <= |sys'.log|
            && TakenBy(sys, ev, i, ot) ==
               (if sys'.clients[i].revision == sys.clients[i].revision then [] else [sys.clients[i].revision])
            && sys.clients[i].revision <= sys'.clients[i].revision <= sys.clients[i].revision + 1
            && (sys.clients[i].revision <= |sys.log| ==> sys'.clients[i].revision <= |sys'.log|)
  {
  }

  function Taken<S(!new), A>(ot: Ot.Ot<S, A>, sys: System<S, A>, events: seq<Event<A>>, i: nat): seq<nat>
    requires i < |sys.clients|
    decreases |events|
  {
    if events == [] then []
    else
      TakenBy(sys, events[0], i, ot) +
      Taken(ot, Step(ot, sys, events[0]), events[1..], i)
  }

  function Range(from: nat, to: nat): (r: seq<nat>)
    requires from <= to
    ensures |r| == to - from && forall k :: 0 <= k < |r| ==> r[k] == from + k
  {
    seq(to - from, k requires 0 <= k => from + k)
  }

  lemma RangeStep(r0: nat, r1: nat, r2: nat)
    requires r0 <= r1 <= r0 + 1 && r1 <= r2
    ensures (if r1 == r0 then [] else [r0]) + Range(r1, r2) == Range(r0, r2)
  {
  }

  /** What a run makes of one client, in terms of its first step. */
  ghost predicate TakesTo<S(!new), A>(ot: Ot.Ot<S, A>, sys: System<S, A>, events: seq<Event<A>>, i: nat)
    requires i < |sys.clients|
  {
    var sys' := Run(ot, sys, events);
    && i < |sys'.clients|
    && sys.clients[i].revision <= sys'.clients[i].revision <= |sys'.log|
    && Taken(ot, sys, events, i) == Range(sys.clients[i].revision, sys'.clients[i].revision)
  }

  lemma TakesToStep<S(!new), A>(ot: Ot.Ot<S, A>, sys: System<S, A>, next: System<S, A>, events: seq<Event<A>>, i: nat)
    requires i < |sys.clients| && i < |next.clients| && events != [] && next == Step(ot, sys, events[0])
    requires TakenBy(sys, events[0], i, ot) ==
             (if next.clients[i].revision == sys.clients[i].revision then [] else [sys.clients[i].revision])
    requires sys.clients[i].revision <= next.clients[i].revision <= sys.clients[i].revision + 1
    requires TakesTo(ot, next, events[1..], i)
    ensures TakesTo(ot, sys, events, i)
  {
    var last := Run(ot, next, events[1..]);
    assert Run(ot, sys, events) == last;
    RangeStep(sys.clients[i].revision, next.clients[i].revision, last.clients[i].revision);
    assert Taken(ot, sys, events, i) == TakenBy(sys, events[0], i, ot) + Taken(ot, next, events[1..], i);
  }

  lemma {:induction false} RunTakes<S(!new), A>(ot: Ot.Ot<S, A>, sys: System<S, A>, events: seq<Event<A>>, i: nat)
    requires Numbered(sys) && i < |sys.clients| && sys.clients[i].revision <= |sys.log|
    ensures TakesTo(ot, sys, events, i)
    decreases |events|
  {
    if events != [] {
      StepTakes(ot, sys, events[0], i);
      var next := Step(ot, sys, events[0]);
      RunTakes(ot, next, events[1..], i);
      TakesToStep(ot, sys, next, events, i);
    }
  }

  /** From any point of any run on, disciplined or not, with deliveries duplicated, reordered or
      missing and handlers interleaved in any way, the entries a client takes in or counts
      are those behind its revision, in order and once each.  For one of the first clients
      these are the log's first entries, for one that joined those behind the document it
      loaded. */
  lemma AppliedPrefix<S(!new), A>(
    ot: Ot.Ot<S, A>, init: S, server: Server<A>, n: nat, before: seq<Event<A>>, after: seq<Event<A>>, i: nat)
    requires i < |Run(ot, Initial<S, A>(init, server, n), before).clients|
    ensures var sys := Run(ot, Initial<S, A>(init, server, n), before);
            var sys' := Run(ot, sys, after);
            && i < |sys'.clients|
            && sys.clients[i].revision <= sys'.clients[i].revision <= |sys'.log|
            && Taken(ot, sys, after, i) == Range(sys.clients[i].revision, sys'.clients[i].revision)
  {
    var sys := Run(ot, Initial<S, A>(init, server, n), before);
    RunBased(ot, Initial<S, A>(init, server, n), before);
    assert BaseOk(sys.log, sys.clients[i]);
    RunTakes(ot, sys, after, i);
  }

  // ---------------------------------------------------------------- strict runs

  /** What a client can see of an acknowledgement agrees with the log. */
  ghost predicate CountedIsAcked<S(!new), A>(sys: System<S, A>) {
    forall i :: 0 <= i < |sys.clients| ==> (Counted(sys.clients[i]) <==> Acked(sys.log, sys.clients[i]))
  }

  ghost predicate StrictInv<S(!new), A>(sys: System<S, A>) {
    Based(sys) && DistinctIds(sys.log) && IdsOk(sys) && CountedIsAcked(sys)
  }

  lemma StrictSetClient<S(!new), A>(sys: System<S, A>, i: nat, c': Client<S, A>)
    requires StrictInv(sys) && i < |sys.clients| && BaseOk(sys.log, c') && (Counted(c') <==> Acked(sys.log, c'))
    requires c'.pending.Some? ==>
               sys.clients[i].pending.Some? &&
               c'.pending.value.messageId == sys.clients[i].pending.value.messageId
    ensures StrictInv(SetClient(sys, i, c'))
  {
  }

  lemma StrictDeliver<S(!new), A>(ot: Ot.Ot<S, A>, sys: System<S, A>, i: nat, k: nat)
    requires StrictInv(sys) && Strict(sys, Deliver(i, k)) && i < |sys.clients| && k < |sys.log|
    ensures StrictInv(SetClient(sys, i, ApplyNewChanges(ot, sys.clients[i], sys.log[k]).0))
  {
    var c := sys.clients[i];
    DeliverBased(ot, sys.log, c, k);
    if ApplyNewChanges(ot, c, sys.log[k]).1 == Applied && c.pending.Some? {
      HasIdNext(sys.log, k, c.pending.value.messageId);
    }
    StrictSetClient(sys, i, ApplyNewChanges(ot, c, sys.log[k]).0);
  }

  lemma StrictAck<S(!new), A>(sys: System<S, A>, i: nat, k: nat)
    requires StrictInv(sys) && i < |sys.clients| && k < |sys.log|
    ensures StrictInv(SetClient(sys, i, AcceptCommit(sys.clients[i], sys.log[k]).0))
  {
    var c := sys.clients[i];
    AckBased(sys.log, c, k);
    if AcceptCommit(c, sys.log[k]).1 == Accepted {
      HasIdNext(sys.log, k, c.pending.value.messageId);
      OwnNotYetCounted(sys.log, k, c.pending.value.messageId);
    }
    StrictSetClient(sys, i, AcceptCommit(c, sys.log[k]).0);
  }

  lemma StrictReceive<S(!new), A>(ot: Ot.Ot<S, A>, sys: System<S, A>, k: nat)
    requires StrictInv(sys) && k < |sys.net|
    ensures StrictInv(ReceiveStep(ot, sys, sys.net[k]))
  {
    ReceiveBased(ot, sys, sys.net[k]);
    var sys' := ReceiveStep(ot, sys, sys.net[k]);
    forall i | 0 <= i < |sys.clients| ensures Counted(sys.clients[i]) <==> Acked(sys'.log, sys.clients[i]) {
      assert BaseOk(sys.log, sys.clients[i]);
      assert sys'.log[..sys.clients[i].revision] == sys.log[..sys.clients[i].revision];
    }
  }

  lemma StrictSend<S(!new), A>(ot: Ot.Ot<S, A>, sys: System<S, A>, i: nat, id: MessageId)
    requires StrictInv(sys) && Strict(sys, Send(i, id)) && i < |sys.clients|
    ensures StrictInv(SendStep(ot, sys, i, id))
  {
    var c := sys.clients[i];
    assert BaseOk(sys.log, c);
    assert !HasId(sys.log[..c.revision], id) by {
      if HasId(sys.log[..c.revision], id) {
        HasIdBefore(sys.log, c.revision, id);
        assert false;
      }
    }
    StepBased(ot, sys, Send(i, id));
  }

  lemma StrictResend<S(!new), A>(ot: Ot.Ot<S, A>, sys: System<S, A>, i: nat)
    requires StrictInv(sys) && i < |sys.clients|
    ensures StrictInv(Step(ot, sys, Resend(i)))
  {
  }

  lemma StrictJoin<S(!new), A>(ot: Ot.Ot<S, A>, sys: System<S, A>, r: nat)
    requires StrictInv(sys) && r <= |sys.log|
    ensures StrictInv(JoinStep(ot, sys, r))
  {
  }

  lemma StrictStep<S(!new), A>(ot: Ot.Ot<S, A>, sys: System<S, A>, ev: Event<A>)
    requires StrictInv(sys) && Strict(sys, ev)
    ensures StrictInv(Step(ot, sys, ev))
  {
    match ev {
      case LocalEdit(i, op) => if i < |sys.clients| { StrictSetClient(sys, i, Edit(ot, sys.clients[i], op)); }
      case Send(i, id) => if i < |sys.clients| { StrictSend(ot, sys, i, id); }
      case Resend(i) => if i < |sys.clients| { StrictResend(ot, sys, i); }
      case Receive(k) => if k < |sys.net| { StrictReceive(ot, sys, k); }
      case Deliver(i, k) => if i < |sys.clients| && k < |sys.log| { StrictDeliver(ot, sys, i, k); }
      case Ack(i, k) => if i < |sys.clients| && k < |sys.log| { StrictAck(sys, i, k); }
      case Join(r) => if r <= |sys.log| { StrictJoin(ot, sys, r); }
    }
  }

  lemma {:induction false} StrictRunInv<S(!new), A>(ot: Ot.Ot<S, A>, sys: System<S, A>, events: seq<Event<A>>)
    requires StrictInv(sys) && StrictRun(ot, sys, events)
    ensures StrictInv(Run(ot, sys, events))
    decreases |events|
  {
    if events != [] {
      StrictStep(ot, sys, events[0]);
      StrictRunInv(ot, Step(ot, sys, events[0]), events[1..]);
    }
  }

  /** In a strict run the base revision is the client's revision exactly until the
      acknowledgement; afterwards it is a smaller one. */
  lemma StrictPendingBase<S(!new), A>(
    ot: Ot.Ot<S, A>, init: S, server: Server<A>, n: nat, events: seq<Event<A>>, i: nat)
    requires StrictRun(ot, Initial<S, A>(init, server, n), events)
    requires i < |Run(ot, Initial<S, A>(init, server, n), events).clients|
    requires Run(ot, Initial<S, A>(init, server, n), events).clients[i].pending.Some?
    ensures var sys := Run(ot, Initial<S, A>(init, server, n), events);
            var c := sys.clients[i];
            && c.pending.value.baseRevision <= c.revision <= |sys.log|
            && (c.pending.value.baseRevision == c.revision <==>
                  !HasId(sys.log[..c.revision], c.pending.value.messageId))
  {
    StrictRunInv(ot, Initial<S, A>(init, server, n), events);
    var sys := Run(ot, Initial<S, A>(init, server, n), events);
    assert BaseOk(sys.log, sys.clients[i]);
  }
}
