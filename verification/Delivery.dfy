/** Every changeset a client puts in flight is logged once, in the order of sending and with
    its commands in order, and none is dropped, exactly as long as no send replaces a
    changeset that is not logged yet.  Nothing here depends on the transformation. */
module Delivery {
  import opened Options
  import opened Changesets
  import opened ClientState
  import opened Protocol
  import opened Bookkeeping
  import Ot

  /** What the log holds from author i, in log order. */
  function ByAuthor<A>(log: seq<RemoteChangeset<A>>, authors: seq<nat>, i: nat): seq<Receipt>
    requires |authors| == |log|
  {
    if log == [] then []
    else
      var n := |log| - 1;
      ByAuthor(log[..n], authors[..n], i) +
      (if authors[n] == i then [(log[n].messageId, Cmds(log[n].operations))] else [])
  }

  /** What client i has sent is what the log has from it, plus the changeset in flight
      if the log does not have that yet. */
  ghost predicate DeliveredTo<S(!new), A>(sys: System<S, A>, i: nat)
    requires |sys.authors| == |sys.log| && i < |sys.sent| == |sys.clients|
  {
    var own, pending := ByAuthor(sys.log, sys.authors, i), sys.clients[i].pending;
    sys.sent[i] ==
      if pending.Some? && !HasId(sys.log, pending.value.messageId)
      then own + [(pending.value.messageId, Cmds(pending.value.operations))]
      else own
  }

  ghost predicate Delivered<S(!new), A>(sys: System<S, A>) {
    && |sys.authors| == |sys.log|
    && |sys.sent| == |sys.clients|
    && forall i :: 0 <= i < |sys.clients| ==> DeliveredTo(sys, i)
  }

  /** A packet that is not logged yet carries its sender's changeset in flight. */
  ghost predicate PacketCmds<S(!new), A>(sys: System<S, A>, p: Packet<A>) {
    && p.sender < |sys.clients|
    && (!HasId(sys.log, p.changeset.messageId) ==>
          && sys.clients[p.sender].pending.Some?
          && sys.clients[p.sender].pending.value.messageId == p.changeset.messageId
          && Cmds(p.changeset.operations) == Cmds(sys.clients[p.sender].pending.value.operations))
  }

  ghost predicate HistoryOk<S(!new), A>(sys: System<S, A>) {
    && Delivered(sys) && IdsOk(sys)
    && (forall k :: 0 <= k < |sys.authors| ==> sys.authors[k] < |sys.clients|)
    && (forall k :: 0 <= k < |sys.net| ==> PacketCmds(sys, sys.net[k]))
  }

  /** A client that keeps its pending changeset, up to rebasing, keeps its history. */
  lemma SetClientHistory<S(!new), A>(sys: System<S, A>, i: nat, c': Client<S, A>)
    requires HistoryOk(sys) && i < |sys.clients|
    requires var c := sys.clients[i];
             c.pending.Some? == c'.pending.Some? &&
             (c.pending.Some? ==>
                && c.pending.value.messageId == c'.pending.value.messageId
                && Cmds(c.pending.value.operations) == Cmds(c'.pending.value.operations))
    ensures HistoryOk(SetClient(sys, i, c'))
  {
    var sys' := SetClient(sys, i, c');
    forall j | 0 <= j < |sys'.clients| ensures DeliveredTo(sys', j) {
      assert DeliveredTo(sys, j);
    }
    forall k | 0 <= k < |sys'.net| ensures PacketCmds(sys', sys'.net[k]) {
      assert PacketCmds(sys, sys.net[k]);
    }
  }

  lemma TakeInKeepsCmds<S(!new), A>(ot: Ot.Ot<S, A>, c: Client<S, A>, cs: RemoteChangeset<A>)
    requires c.pending.Some?
    ensures Cmds(TakeIn(ot, c, cs).pending.value.operations) == Cmds(c.pending.value.operations)
  {
  }

  /** What is in flight is logged already, if anything is. */
  predicate InFlightLogged<S(!new), A>(log: seq<RemoteChangeset<A>>, c: Client<S, A>) {
    c.pending.Some? ==> HasId(log, c.pending.value.messageId)
  }

  /** A send under a fresh id loses nothing exactly when what it replaces is logged. */
  lemma SendDeliversIff<S(!new), A>(ot: Ot.Ot<S, A>, sys: System<S, A>, i: nat, id: MessageId)
    requires HistoryOk(sys) && i < |sys.clients| && id !in sys.usedIds
    ensures DeliveredTo(SendStep(ot, sys, i, id), i) <==> InFlightLogged(sys.log, sys.clients[i])
  {
    assert DeliveredTo(sys, i);
    assert !HasId(sys.log, id);
  }

  lemma SendHistory<S(!new), A>(ot: Ot.Ot<S, A>, sys: System<S, A>, i: nat, id: MessageId)
    requires HistoryOk(sys) && i < |sys.clients| && id !in sys.usedIds && InFlightLogged(sys.log, sys.clients[i])
    ensures HistoryOk(SendStep(ot, sys, i, id))
  {
    var sys' := SendStep(ot, sys, i, id);
    forall j | 0 <= j < |sys'.clients| ensures DeliveredTo(sys', j) {
      if j == i {
        SendDeliversIff(ot, sys, i, id);
      } else {
        assert DeliveredTo(sys, j);
      }
    }
    forall k | 0 <= k < |sys'.net| ensures PacketCmds(sys', sys'.net[k]) {
      if k < |sys.net| {
        assert PacketCmds(sys, sys.net[k]);
      }
    }
  }

  lemma ReceiveHistory<S(!new), A>(ot: Ot.Ot<S, A>, sys: System<S, A>, k: nat)
    requires HistoryOk(sys) && k < |sys.net|
    ensures HistoryOk(ReceiveStep(ot, sys, sys.net[k]))
  {
    var p := sys.net[k];
    var committed := Commit(ot, sys.log, sys.server, p.changeset);
    if committed.Some? {
      CommitShape(ot, sys.log, sys.server, p.changeset);
      assert PacketCmds(sys, p);
      var sys' := ReceiveStep(ot, sys, p);
      forall i | 0 <= i < |sys'.clients| ensures DeliveredTo(sys', i) {
        LoggedHistory(sys, p.sender, committed.value, i);
      }
      forall j | 0 <= j < |sys'.net| ensures PacketCmds(sys', sys'.net[j]) {
        assert PacketCmds(sys, sys.net[j]);
        HasIdGrows(sys.log, committed.value, sys.net[j].changeset.messageId);
      }
    }
  }

  lemma LoggedHistory<S(!new), A>(sys: System<S, A>, author: nat, entry: RemoteChangeset<A>, i: nat)
    requires |sys.authors| == |sys.log| && |sys.sent| == |sys.clients| && i < |sys.clients|
    requires IdsOk(sys) && DeliveredTo(sys, i) && author < |sys.clients|
    requires !HasId(sys.log, entry.messageId)
    requires sys.clients[author].pending.Some? &&
             sys.clients[author].pending.value.messageId == entry.messageId &&
             Cmds(sys.clients[author].pending.value.operations) == Cmds(entry.operations)
    ensures DeliveredTo(sys.(log := sys.log + [entry], authors := sys.authors + [author]), i)
  {
    var log', authors' := sys.log + [entry], sys.authors + [author];
    assert log'[..|sys.log|] == sys.log && authors'[..|sys.log|] == sys.authors;
    var pending := sys.clients[i].pending;
    if pending.Some? {
      HasIdGrows(sys.log, entry, pending.value.messageId);
    }
    if i != author {
      assert pending.Some? ==> pending.value.messageId != entry.messageId;
    }
  }

  lemma ResendHistory<S(!new), A>(sys: System<S, A>, i: nat)
    requires HistoryOk(sys) && i < |sys.clients| && sys.clients[i].pending.Some?
    ensures HistoryOk(sys.(net := sys.net + [Packet(i, sys.clients[i].pending.value)]))
  {
    var sys' := sys.(net := sys.net + [Packet(i, sys.clients[i].pending.value)]);
    forall j | 0 <= j < |sys'.clients| ensures DeliveredTo(sys', j) {
      assert DeliveredTo(sys, j);
    }
    forall k | 0 <= k < |sys'.net| ensures PacketCmds(sys', sys'.net[k]) {
      if k < |sys.net| { assert PacketCmds(sys, sys.net[k]); }
    }
  }

  lemma DeliverHistory<S(!new), A>(ot: Ot.Ot<S, A>, sys: System<S, A>, i: nat, k: nat)
    requires HistoryOk(sys) && i < |sys.clients| && k < |sys.log|
    ensures HistoryOk(SetClient(sys, i, ApplyNewChanges(ot, sys.clients[i], sys.log[k]).0))
  {
    if sys.clients[i].pending.Some? { TakeInKeepsCmds(ot, sys.clients[i], sys.log[k]); }
    SetClientHistory(sys, i, ApplyNewChanges(ot, sys.clients[i], sys.log[k]).0);
  }

  lemma {:induction false} NoneByOthers<A>(log: seq<RemoteChangeset<A>>, authors: seq<nat>, i: nat)
    requires |authors| == |log| && forall k :: 0 <= k < |authors| ==> authors[k] != i
    ensures ByAuthor(log, authors, i) == []
  {
    if log != [] {
      NoneByOthers(log[..|log| - 1], authors[..|log| - 1], i);
    }
  }

  lemma JoinHistory<S(!new), A>(ot: Ot.Ot<S, A>, sys: System<S, A>, r: nat)
    requires HistoryOk(sys) && r <= |sys.log|
    ensures HistoryOk(JoinStep(ot, sys, r))
  {
    var sys' := JoinStep(ot, sys, r);
    NoneByOthers(sys.log, sys.authors, |sys.clients|);
    forall j | 0 <= j < |sys'.clients| ensures DeliveredTo(sys', j) {
      if j < |sys.clients| { assert DeliveredTo(sys, j); }
    }
    forall k | 0 <= k < |sys'.net| ensures PacketCmds(sys', sys'.net[k]) {
      assert PacketCmds(sys, sys.net[k]);
    }
  }

  /** A send replaces only a changeset that is logged. */
  predicate ReplacesLogged<S(!new), A>(sys: System<S, A>, ev: Event<A>) {
    ev.Send? && ev.client < |sys.clients| ==> InFlightLogged(sys.log, sys.clients[ev.client])
  }

  lemma StepHistory<S(!new), A>(ot: Ot.Ot<S, A>, sys: System<S, A>, ev: Event<A>)
    requires HistoryOk(sys) && Fresh(sys, ev) && ReplacesLogged(sys, ev)
    ensures HistoryOk(Step(ot, sys, ev))
  {
    match ev {
      case LocalEdit(i, op) =>
        if i < |sys.clients| { SetClientHistory(sys, i, Edit(ot, sys.clients[i], op)); }
      case Send(i, id) =>
        if i < |sys.clients| { SendHistory(ot, sys, i, id); }
      case Resend(i) =>
        if i < |sys.clients| && sys.clients[i].pending.Some? { ResendHistory(sys, i); }
      case Receive(k) =>
        if k < |sys.net| { ReceiveHistory(ot, sys, k); }
      case Deliver(i, k) =>
        if i < |sys.clients| && k < |sys.log| { DeliverHistory(ot, sys, i, k); }
      case Ack(i, k) =>
        if i < |sys.clients| && k < |sys.log| {
          SetClientHistory(sys, i, AcceptCommit(sys.clients[i], sys.log[k]).0);
        }
      case Join(r) =>
        if r <= |sys.log| { JoinHistory(ot, sys, r); }
    }
  }

  // ---------------------------------------------------------------- all runs

  predicate ReplacesLoggedRun<S(!new), A>(ot: Ot.Ot<S, A>, sys: System<S, A>, events: seq<Event<A>>)
    decreases |events|
  {
    events == [] || (ReplacesLogged(sys, events[0]) && ReplacesLoggedRun(ot, Step(ot, sys, events[0]), events[1..]))
  }

  /** Everything sent is logged or in flight now and after every event. */
  ghost predicate DeliveredThroughout<S(!new), A>(ot: Ot.Ot<S, A>, sys: System<S, A>, events: seq<Event<A>>)
    decreases |events|
  {
    Delivered(sys) && (events == [] || DeliveredThroughout(ot, Step(ot, sys, events[0]), events[1..]))
  }

  lemma {:induction false} RunHistory<S(!new), A>(ot: Ot.Ot<S, A>, sys: System<S, A>, events: seq<Event<A>>)
    requires HistoryOk(sys) && FreshRun(ot, sys, events)
    ensures DeliveredThroughout(ot, sys, events) <==> ReplacesLoggedRun(ot, sys, events)
    ensures ReplacesLoggedRun(ot, sys, events) ==> HistoryOk(Run(ot, sys, events))
    decreases |events|
  {
    if events != [] {
      var next := Step(ot, sys, events[0]);
      if ReplacesLogged(sys, events[0]) {
        StepHistory(ot, sys, events[0]);
        RunHistory(ot, next, events[1..]);
      } else {
        SendDeliversIff(ot, sys, events[0].client, events[0].id);
        assert !Delivered(next);
      }
    }
  }

  /** Disciplined runs replace logged changesets only. */
  lemma {:induction false} DisciplinedReplacesLogged<S(!new), A>(
    ot: Ot.Ot<S, A>, sys: System<S, A>, events: seq<Event<A>>)
    requires DisciplinedRun(ot, sys, events)
    ensures FreshRun(ot, sys, events) && ReplacesLoggedRun(ot, sys, events)
    decreases |events|
  {
    if events != [] {
      DisciplinedReplacesLogged(ot, Step(ot, sys, events[0]), events[1..]);
      if events[0].Send? && events[0].client < |sys.clients| && Acked(sys.log, sys.clients[events[0].client]) {
        var c := sys.clients[events[0].client];
        HasIdBefore(sys.log, c.revision, c.pending.value.messageId);
      }
    }
  }

  lemma InitialHistory<S(!new), A>(init: S, server: Server<A>, n: nat)
    ensures HistoryOk(Initial<S, A>(init, server, n))
  {
    var start := Initial<S, A>(init, server, n);
    forall i | 0 <= i < n ensures DeliveredTo(start, i) {
    }
  }

  /** Over any run with fresh message ids, whatever the transformation and the server's
      amendments do and whatever is lost, duplicated, delayed or taken in when: after every
      event the log holds, author by author, exactly the changesets sent so far, in order, once
      each and with their commands in order, with only the one in flight possibly missing, if and
      only if no send has replaced a changeset that the log did not have. */
  lemma ExactlyOnceInOrder<S(!new), A>(ot: Ot.Ot<S, A>, init: S, server: Server<A>, n: nat, events: seq<Event<A>>)
    requires FreshRun(ot, Initial<S, A>(init, server, n), events)
    ensures DeliveredThroughout(ot, Initial<S, A>(init, server, n), events) <==>
            ReplacesLoggedRun(ot, Initial<S, A>(init, server, n), events)
  {
    InitialHistory(init, server, n);
    RunHistory(ot, Initial<S, A>(init, server, n), events);
  }

  /** In particular, at the end of such a run. */
  lemma SentIsLogged<S(!new), A>(ot: Ot.Ot<S, A>, init: S, server: Server<A>, n: nat, events: seq<Event<A>>)
    requires FreshRun(ot, Initial<S, A>(init, server, n), events)
    requires ReplacesLoggedRun(ot, Initial<S, A>(init, server, n), events)
    ensures var sys := Run(ot, Initial<S, A>(init, server, n), events);
            && |sys.authors| == |sys.log| && |sys.sent| == |sys.clients|
            && (forall i :: 0 <= i < |sys.clients| ==> DeliveredTo(sys, i))
            && (forall i :: 0 <= i < |sys.clients| && sys.clients[i].pending.None? ==>
                  sys.sent[i] == ByAuthor(sys.log, sys.authors, i))
  {
    InitialHistory(init, server, n);
    RunHistory(ot, Initial<S, A>(init, server, n), events);
    var sys := Run(ot, Initial<S, A>(init, server, n), events);
    forall i | 0 <= i < |sys.clients| && sys.clients[i].pending.None?
      ensures sys.sent[i] == ByAuthor(sys.log, sys.authors, i)
    {
      assert DeliveredTo(sys, i);
    }
  }
}
