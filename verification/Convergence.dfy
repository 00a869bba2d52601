/** Convergence over every disciplined run of the protocol. */
module Convergence {
  import opened Options
  import opened Changesets
  import opened ClientState
  import opened Protocol
  import opened Bookkeeping
  import Ot

  // ---------------------------------------------------------------- the log

  lemma {:induction false} LogActionsConcat<A>(xs: seq<RemoteChangeset<A>>, ys: seq<RemoteChangeset<A>>)
    ensures LogActions(xs + ys) == LogActions(xs) + LogActions(ys)
  {
    if xs == [] {
      assert xs + ys == ys;
    } else {
      assert (xs + ys)[1..] == xs[1..] + ys;
      LogActionsConcat(xs[1..], ys);
    }
  }

  lemma LogActionsSingle<A>(cs: RemoteChangeset<A>)
    ensures LogActions([cs]) == Flat(cs.operations)
  {
    assert [cs][1..] == [];
    assert Flat(cs.operations) + [] == Flat(cs.operations);
  }

  lemma LogActionsNext<A>(log: seq<RemoteChangeset<A>>, a: nat, b: nat)
    requires a <= b < |log|
    ensures LogActions(log[a..b + 1]) == LogActions(log[a..b]) + Flat(log[b].operations)
  {
    assert log[a..b + 1] == log[a..b] + [log[b]];
    LogActionsConcat(log[a..b], [log[b]]);
    LogActionsSingle(log[b]);
  }

  lemma LogActionsSplit<A>(log: seq<RemoteChangeset<A>>, a: nat, b: nat, c: nat)
    requires a <= b <= c <= |log|
    ensures LogActions(log[a..c]) == LogActions(log[a..b]) + LogActions(log[b..c])
  {
    assert log[a..c] == log[a..b] + log[b..c];
    LogActionsConcat(log[a..b], log[b..c]);
  }

  /** The state at a later revision is the state at an earlier one plus what was
      logged in between. */
  lemma StateAtSplit<S(!new), A>(ot: Ot.Ot<S, A>, init: S, log: seq<RemoteChangeset<A>>, a: nat, b: nat)
    requires a <= b <= |log|
    ensures StateAt(ot, init, log, b) ==
            if StateAt(ot, init, log, a).None? then None
            else Ot.Apply(ot, StateAt(ot, init, log, a).value, LogActions(log[a..b]))
  {
    LogActionsSplit(log, 0, a, b);
    assert log[0..b] == log[..b] && log[0..a] == log[..a];
    Ot.ApplyConcat(ot, init, LogActions(log[..a]), LogActions(log[a..b]));
  }

  // ---------------------------------------------------------------- the server

  ghost predicate AmendsNothing<A(!new)>(server: Server<A>) {
    forall log, base, before, after :: server.amend(log, base, before, after) == Some(after)
  }

  lemma {:induction false} AmendedFlat<A(!new)>(
    server: Server<A>, log: seq<RemoteChangeset<A>>, base: nat, before: seq<Operation<A>>, after: seq<Operation<A>>)
    requires AmendsNothing(server) && |before| == |after|
    ensures Amended(server, log, base, before, after).Some?
    ensures Flat(Amended(server, log, base, before, after).value) == Flat(after)
  {
    if before != [] {
      AmendedFlat(server, log, base, before[1..], after[1..]);
      var head := Operation(before[0].cmd, after[0].actions, before[0].mainLinkDstId);
      var rest := Amended(server, log, base, before[1..], after[1..]).value;
      assert Amended(server, log, base, before, after).value == [head] + rest;
    }
  }

  /** Where the server amends nothing, a committed entry is the submitted changeset rebased
      past what it missed. */
  lemma CommitIsRebase<S(!new), A(!new)>(
    ot: Ot.Ot<S, A>, log: seq<RemoteChangeset<A>>, server: Server<A>, cs: LocalChangeset<A>)
    requires Commit(ot, log, server, cs).Some? && AmendsNothing(server)
    ensures cs.baseRevision <= |log|
    ensures Flat(Commit(ot, log, server, cs).value.operations) == Rebased(ot, log, cs)
  {
    var missed := LogActions(log[cs.baseRevision..]);
    if cs.baseRevision < |log| {
      TransformOpsIsTransformX(ot, cs.operations, missed);
      AmendedFlat(server, log, cs.baseRevision, cs.operations, TransformOps(ot, cs.operations, missed).0);
    }
  }

  /** Such a server is faithful. */
  lemma PlainIsFaithful<S(!new), A(!new)>(
    ot: Ot.Ot<S, A>, init: S, log: seq<RemoteChangeset<A>>, server: Server<A>, cs: LocalChangeset<A>)
    requires AmendsNothing(server)
    ensures Faithful(ot, init, log, server, cs)
  {
    if Commit(ot, log, server, cs).Some? {
      CommitIsRebase(ot, log, server, cs);
    }
  }

  // ---------------------------------------------------------------- the invariant

  ghost predicate SameEffect<S(!new), A>(ot: Ot.Ot<S, A>, s: S, xs: seq<A>, ys: seq<A>) {
    Ot.Apply(ot, s, xs) == Ot.Apply(ot, s, ys)
  }

  /** Actions made at revision r, rebased to revision j. */
  function RebasedTo<S(!new), A>(
    ot: Ot.Ot<S, A>, log: seq<RemoteChangeset<A>>, r: nat, j: nat, actions: seq<A>): seq<A>
    requires r <= j <= |log|
  {
    Ot.TransformX(ot, actions, LogActions(log[r..j])).0
  }

  ghost predicate LogOk<S(!new), A>(ot: Ot.Ot<S, A>, init: S, log: seq<RemoteChangeset<A>>) {
    && (forall i :: 0 <= i < |log| ==> log[i].revision == i + 1)
    && DistinctIds(log)
    && StateAt(ot, init, log, |log|).Some?
  }

  /** Wherever the client's pending changeset shows up in the log ahead of it, the entry
      has the effect of that changeset rebased past the entries in between. */
  ghost predicate Foreseen<S(!new), A>(
    ot: Ot.Ot<S, A>, init: S, log: seq<RemoteChangeset<A>>, r: nat, p: LocalChangeset<A>)
  {
    r <= |log| &&
    forall j :: r <= j < |log| && log[j].messageId == p.messageId ==>
      StateAt(ot, init, log, j).Some? &&
      SameEffect(ot, StateAt(ot, init, log, j).value, Flat(log[j].operations),
                 RebasedTo(ot, log, r, j, Flat(p.operations)))
  }

  ghost predicate ClientOk<S(!new), A>(ot: Ot.Ot<S, A>, init: S, log: seq<RemoteChangeset<A>>, c: Client<S, A>) {
    && c.revision <= |log|
    && (if Acked(log, c) then Synced(ot, StateAt(ot, init, log, c.revision), c.(pending := None))
        else
          && Synced(ot, StateAt(ot, init, log, c.revision), c)
          && (c.pending.Some? ==>
                c.pending.value.baseRevision == c.revision && Foreseen(ot, init, log, c.revision, c.pending.value)))
  }

  /** A packet the server has not used yet carries its sender's pending changeset as
      it was at some earlier revision, and fits the server's document there. */
  ghost predicate PacketOk<S(!new), A>(
    ot: Ot.Ot<S, A>, init: S, log: seq<RemoteChangeset<A>>, c: Client<S, A>, cs: LocalChangeset<A>) {
    HasId(log, cs.messageId) ||
    (&& c.pending.Some? && c.pending.value.messageId == cs.messageId
     && cs.baseRevision <= c.revision <= |log|
     && Flat(c.pending.value.operations) ==
        Ot.TransformX(ot, Flat(cs.operations), LogActions(log[cs.baseRevision..c.revision])).0
     && var base := StateAt(ot, init, log, cs.baseRevision);
        base.Some? && Ot.Apply(ot, base.value, Flat(cs.operations)).Some?)
  }

  ghost predicate Inv<S(!new), A>(ot: Ot.Ot<S, A>, sys: System<S, A>) {
    && LogOk(ot, sys.init, sys.log)
    && IdsOk(sys)
    && (forall i :: 0 <= i < |sys.clients| ==> ClientOk(ot, sys.init, sys.log, sys.clients[i]))
    && (forall k :: 0 <= k < |sys.net| ==>
          sys.net[k].sender < |sys.clients| &&
          PacketOk(ot, sys.init, sys.log, sys.clients[sys.net[k].sender], sys.net[k].changeset))
  }
  
  // ---------------------------------------------------------------- one client moves

  /** A packet stays good while its sender moves on with the same pending changeset. */
  ghost predicate CarriesPackets<S(!new), A(!new)>(
    ot: Ot.Ot<S, A>, init: S, log: seq<RemoteChangeset<A>>, c: Client<S, A>, c': Client<S, A>) {
    forall cs :: PacketOk(ot, init, log, c, cs) ==> PacketOk(ot, init, log, c', cs)
  }

  ghost predicate SamePending<S(!new), A>(c: Client<S, A>, c': Client<S, A>) {
    && c'.pending.Some? == c.pending.Some?
    && (c.pending.Some? ==> c'.pending.value.messageId == c.pending.value.messageId)
  }

  lemma SetClientInv<S(!new), A(!new)>(ot: Ot.Ot<S, A>, sys: System<S, A>, i: nat, c': Client<S, A>)
    requires Inv(ot, sys) && i < |sys.clients|
    requires ClientOk(ot, sys.init, sys.log, c') && CarriesPackets(ot, sys.init, sys.log, sys.clients[i], c')
    requires SamePending(sys.clients[i], c') || c'.pending.None?
    ensures Inv(ot, SetClient(sys, i, c'))
  {
  }

  lemma EditInv<S(!new), A(!new)>(ot: Ot.Ot<S, A>, sys: System<S, A>, i: nat, op: Operation<A>)
    requires Inv(ot, sys) && i < |sys.clients|
    ensures Inv(ot, SetClient(sys, i, Edit(ot, sys.clients[i], op)))
  {
    var c := sys.clients[i];
    var c' := Edit(ot, c, op);
    var base := StateAt(ot, sys.init, sys.log, c.revision);
    assert Acked(sys.log, c') <==> Acked(sys.log, c);
    if Acked(sys.log, c) {
      EditSynced(ot, base, c.(pending := None), op);
      assert Edit(ot, c.(pending := None), op) == c'.(pending := None);
    } else {
      EditSynced(ot, base, c, op);
    }
    SetClientInv(ot, sys, i, c');
  }

  /** c' is c with the next entry taken in, as far as its pending actions go. */
  ghost predicate TookIn<S(!new), A>(ot: Ot.Ot<S, A>, log: seq<RemoteChangeset<A>>, c: Client<S, A>, c': Client<S, A>) {
    && c.revision < |log| && c'.revision == c.revision + 1 && SamePending(c, c')
    && (c.pending.Some? ==>
          Flat(c'.pending.value.operations) ==
          Ot.TransformX(ot, Flat(c.pending.value.operations), Flat(log[c.revision].operations)).0)
  }

  lemma TakeInTookIn<S(!new), A>(ot: Ot.Ot<S, A>, log: seq<RemoteChangeset<A>>, c: Client<S, A>)
    requires c.revision < |log|
    ensures TookIn(ot, log, c, TakeIn(ot, c, log[c.revision]))
  {
    DoTransformIsTransformX(ot, c, log[c.revision]);
  }

  /** Rebasing past the next entry and then to j is rebasing to j. */
  lemma RebasedOneOn<S(!new), A>(ot: Ot.Ot<S, A>, log: seq<RemoteChangeset<A>>, r: nat, j: nat, actions: seq<A>)
    requires r < j <= |log|
    ensures RebasedTo(ot, log, r + 1, j, Ot.TransformX(ot, actions, Flat(log[r].operations)).0) ==
            RebasedTo(ot, log, r, j, actions)
  {
    LogActionsSplit(log, r, r + 1, j);
    assert log[r..r + 1] == [log[r]];
    LogActionsSingle(log[r]);
    Ot.RebaseTwice(ot, actions, Flat(log[r].operations), LogActions(log[r + 1..j]));
  }

  lemma TookInForeseen<S(!new), A>(
    ot: Ot.Ot<S, A>, init: S, log: seq<RemoteChangeset<A>>, c: Client<S, A>, c': Client<S, A>)
    requires TookIn(ot, log, c, c') && c.pending.Some? && log[c.revision].messageId != c.pending.value.messageId
    requires Foreseen(ot, init, log, c.revision, c.pending.value)
    ensures Foreseen(ot, init, log, c.revision + 1, c'.pending.value)
  {
    var r := c.revision;
    var p, p' := c.pending.value, c'.pending.value;
    forall j | r + 1 <= j < |log| && log[j].messageId == p'.messageId
      ensures StateAt(ot, init, log, j).Some?
      ensures SameEffect(ot, StateAt(ot, init, log, j).value, Flat(log[j].operations),
                         RebasedTo(ot, log, r + 1, j, Flat(p'.operations)))
    {
      RebasedOneOn(ot, log, r, j, Flat(p.operations));
    }
  }

  lemma TookInPacket<S(!new), A(!new)>(
    ot: Ot.Ot<S, A>, init: S, log: seq<RemoteChangeset<A>>, c: Client<S, A>, c': Client<S, A>, cs: LocalChangeset<A>)
    requires TookIn(ot, log, c, c') && PacketOk(ot, init, log, c, cs)
    ensures PacketOk(ot, init, log, c', cs)
  {
    if !HasId(log, cs.messageId) {
      var r := c.revision;
      LogActionsNext(log, cs.baseRevision, r);
      Ot.RebaseTwice(ot, Flat(cs.operations), LogActions(log[cs.baseRevision..r]), Flat(log[r].operations));
    }
  }

  lemma TookInCarries<S(!new), A(!new)>(
    ot: Ot.Ot<S, A>, init: S, log: seq<RemoteChangeset<A>>, c: Client<S, A>, c': Client<S, A>)
    requires TookIn(ot, log, c, c')
    ensures CarriesPackets(ot, init, log, c, c')
  {
    forall cs | PacketOk(ot, init, log, c, cs) ensures PacketOk(ot, init, log, c', cs) {
      TookInPacket(ot, init, log, c, c', cs);
    }
  }

  lemma NextState<S(!new), A>(ot: Ot.Ot<S, A>, init: S, log: seq<RemoteChangeset<A>>, r: nat)
    requires LogOk(ot, init, log) && r < |log|
    ensures StateAt(ot, init, log, r).Some?
    ensures StateAt(ot, init, log, r + 1).Some?
    ensures Ot.Apply(ot, StateAt(ot, init, log, r).value, Flat(log[r].operations)) == StateAt(ot, init, log, r + 1)
  {
    StateAtSplit(ot, init, log, r, |log|);
    StateAtSplit(ot, init, log, r + 1, |log|);
    StateAtSplit(ot, init, log, r, r + 1);
    assert log[r..r + 1] == [log[r]];
    LogActionsSingle(log[r]);
  }

  /** A client that takes the next entry in. */
  lemma TakenInClient<S(!new), A(!new)>(ot: Ot.Ot<S, A>, init: S, log: seq<RemoteChangeset<A>>, c: Client<S, A>)
    requires Ot.Laws(ot) && LogOk(ot, init, log) && ClientOk(ot, init, log, c)
    requires c.revision < |log| && !IsOwn(c, log[c.revision])
    requires Acked(log, c) ==> Harmless(ot, init, log, c)
    ensures ClientOk(ot, init, log, TakeIn(ot, c, log[c.revision]))
    ensures SamePending(c, TakeIn(ot, c, log[c.revision]))
    ensures CarriesPackets(ot, init, log, c, TakeIn(ot, c, log[c.revision]))
  {
    var k := c.revision;
    var c' := TakeIn(ot, c, log[k]);
    NextState(ot, init, log, k);
    TakeInTookIn(ot, log, c);
    TookInCarries(ot, init, log, c, c');
    if c.pending.Some? {
      HasIdNext(log, k, c.pending.value.messageId);
    }
    if Acked(log, c) {
      CountedTakeInIff(ot, StateAt(ot, init, log, k), c, log[k]);
    } else {
      TakeInSynced(ot, StateAt(ot, init, log, k), c, log[k]);
      if c.pending.Some? {
        TookInForeseen(ot, init, log, c, c');
      }
    }
  }

  lemma AckedStays<S(!new), A>(ot: Ot.Ot<S, A>, log: seq<RemoteChangeset<A>>, c: Client<S, A>, c': Client<S, A>)
    requires TookIn(ot, log, c, c') && Acked(log, c)
    ensures Acked(log, c')
  {
    HasIdNext(log, c.revision, c.pending.value.messageId);
  }

  /** In the window an entry whose passed-on form fits keeps the client in step exactly
      when it is harmless. */
  lemma WindowTakeIn<S(!new), A(!new)>(ot: Ot.Ot<S, A>, init: S, log: seq<RemoteChangeset<A>>, c: Client<S, A>)
    requires Ot.Laws(ot) && LogOk(ot, init, log) && c.revision < |log| && c.pending.Some?
    requires Synced(ot, StateAt(ot, init, log, c.revision), c.(pending := None))
    requires Ot.Apply(ot, StateAt(ot, init, log, c.revision).value, PassedOn(ot, c, log[c.revision])).Some?
    ensures Synced(ot, StateAt(ot, init, log, c.revision + 1), TakeIn(ot, c, log[c.revision]).(pending := None)) <==>
            Harmless(ot, init, log, c)
  {
    NextState(ot, init, log, c.revision);
    CountedTakeInIff(ot, StateAt(ot, init, log, c.revision), c, log[c.revision]);
  }

  lemma AckedOk<S(!new), A>(ot: Ot.Ot<S, A>, init: S, log: seq<RemoteChangeset<A>>, c: Client<S, A>)
    requires Acked(log, c)
    ensures ClientOk(ot, init, log, c) <==> Synced(ot, StateAt(ot, init, log, c.revision), c.(pending := None))
  {
  }

  /** In the window an entry that is not harmless puts the client out of step at once,
      unless what is passed on does not even fit. */
  lemma HarmfulBreaks<S(!new), A(!new)>(ot: Ot.Ot<S, A>, init: S, log: seq<RemoteChangeset<A>>, c: Client<S, A>)
    requires Ot.Laws(ot) && LogOk(ot, init, log) && ClientOk(ot, init, log, c)
    requires c.revision < |log| && !IsOwn(c, log[c.revision]) && Acked(log, c)
    ensures Ot.Apply(ot, StateAt(ot, init, log, c.revision).value, PassedOn(ot, c, log[c.revision])).Some? ==>
              (ClientOk(ot, init, log, TakeIn(ot, c, log[c.revision])) <==> Harmless(ot, init, log, c))
  {
    if Ot.Apply(ot, StateAt(ot, init, log, c.revision).value, PassedOn(ot, c, log[c.revision])).Some? {
      var c' := TakeIn(ot, c, log[c.revision]);
      AckedOk(ot, init, log, c);
      WindowTakeIn(ot, init, log, c);
      TakeInTookIn(ot, log, c);
      AckedStays(ot, log, c, c');
      AckedOk(ot, init, log, c');
    }
  }

  lemma DeliverInv<S(!new), A(!new)>(ot: Ot.Ot<S, A>, sys: System<S, A>, i: nat, k: nat)
    requires Ot.Laws(ot) && Inv(ot, sys) && Disciplined(ot, sys, Deliver(i, k))
    requires i < |sys.clients| && k < |sys.log|
    ensures Inv(ot, SetClient(sys, i, ApplyNewChanges(ot, sys.clients[i], sys.log[k]).0))
  {
    var c := sys.clients[i];
    if ApplyNewChanges(ot, c, sys.log[k]).1 == Applied {
      assert k == c.revision;
      TakenInClient(ot, sys.init, sys.log, c);
      SetClientInv(ot, sys, i, TakeIn(ot, c, sys.log[k]));
    } else {
      assert sys.clients[i := c] == sys.clients;
    }
  }

  /** A client that counts its own entry. */
  lemma AckedClient<S(!new), A(!new)>(ot: Ot.Ot<S, A>, init: S, log: seq<RemoteChangeset<A>>, c: Client<S, A>)
    requires Ot.Laws(ot) && LogOk(ot, init, log) && ClientOk(ot, init, log, c)
    requires c.revision < |log| && IsOwn(c, log[c.revision])
    ensures ClientOk(ot, init, log, c.(revision := c.revision + 1))
    ensures CarriesPackets(ot, init, log, c, c.(revision := c.revision + 1))
  {
    var k, p := c.revision, c.pending.value;
    OwnNotYetCounted(log, k, p.messageId);
    HasIdNext(log, k, p.messageId);
    NextState(ot, init, log, k);
    assert log[k..k] == [];
    assert SameEffect(ot, StateAt(ot, init, log, k).value, Flat(log[k].operations),
                      RebasedTo(ot, log, k, k, Flat(p.operations)));
    AckedIff(ot, StateAt(ot, init, log, k), c, log[k]);
    assert HasId(log, p.messageId);
  }

  lemma AckInv<S(!new), A(!new)>(ot: Ot.Ot<S, A>, sys: System<S, A>, i: nat, k: nat)
    requires Ot.Laws(ot) && Inv(ot, sys)
    requires i < |sys.clients| && k < |sys.log|
    ensures Inv(ot, SetClient(sys, i, AcceptCommit(sys.clients[i], sys.log[k]).0))
  {
    var c := sys.clients[i];
    var (c', outcome) := AcceptCommit(c, sys.log[k]);
    if outcome == Accepted {
      assert k == c.revision;
      AckedClient(ot, sys.init, sys.log, c);
      SetClientInv(ot, sys, i, c');
    } else {
      assert sys.clients[i := c] == sys.clients;
    }
  }

  /** A client in step that handles the rest of the log entry by entry, its own changeset not in
      front of others' entries there, ends in step at the end of the log. */
  lemma {:induction false} HandedLogOk<S(!new), A(!new)>(
    ot: Ot.Ot<S, A>, init: S, log: seq<RemoteChangeset<A>>, c: Client<S, A>)
    requires Ot.Laws(ot) && LogOk(ot, init, log) && ClientOk(ot, init, log, c) && !Acked(log, c)
    requires forall k :: c.revision <= k < |log| - 1 ==> !IsOwn(c, log[k])
    ensures ClientOk(ot, init, log, HandledAll(ot, c, log[c.revision..]))
    ensures HandledAll(ot, c, log[c.revision..]).revision == |log|
    decreases |log| - c.revision
  {
    var k := c.revision;
    if k < |log| {
      assert log[k..][0] == log[k] && log[k..][1..] == log[k + 1..];
      if IsOwn(c, log[k]) {
        AckedClient(ot, init, log, c);
        assert log[k + 1..] == [];
      } else {
        TakenInClient(ot, init, log, c);
        if c.pending.Some? {
          HasIdNext(log, k, c.pending.value.messageId);
        }
        HandedLogOk(ot, init, log, TakeIn(ot, c, log[k]));
      }
    }
  }

  // ---------------------------------------------------------------- sending

  /** A client that starts a new changeset under a fresh id. */
  lemma SentClient<S(!new), A(!new)>(
    ot: Ot.Ot<S, A>, init: S, log: seq<RemoteChangeset<A>>, c: Client<S, A>, id: MessageId)
    requires Ot.Laws(ot) && ClientOk(ot, init, log, c) && (c.pending.None? || Acked(log, c))
    requires !HasId(log, id)
    ensures var c' := DeOpBuffer(ot, c, id);
            && ClientOk(ot, init, log, c') && CarriesPackets(ot, init, log, c, c')
            && (c'.pending.Some? ==> PacketOk(ot, init, log, c', c'.pending.value))
  {
    var c' := DeOpBuffer(ot, c, id);
    var base := StateAt(ot, init, log, c.revision);
    assert Synced(ot, base, c.(pending := None)) by {
      if c.pending.None? {
        assert c.(pending := None) == c;
      }
    }
    DeOpBufferSynced(ot, base, c, id);
    IdleCarries(ot, init, log, c, c');
    if c'.pending.Some? {
      FreshPacket(ot, init, log, c');
      assert !HasId(log[..c.revision], id);
    }
  }

  /** The system after a client has put c'.pending in flight under a fresh id. */
  lemma SentSystem<S(!new), A(!new)>(ot: Ot.Ot<S, A>, sys: System<S, A>, sys': System<S, A>, i: nat, c': Client<S, A>)
    requires Inv(ot, sys) && i < |sys.clients|
    requires ClientOk(ot, sys.init, sys.log, c') && CarriesPackets(ot, sys.init, sys.log, sys.clients[i], c')
    requires c'.pending.Some? && c'.pending.value.messageId !in sys.usedIds
    requires PacketOk(ot, sys.init, sys.log, c', c'.pending.value)
    requires sys'.init == sys.init && sys'.log == sys.log && sys'.clients == sys.clients[i := c']
    requires sys'.net == sys.net + [Packet(i, c'.pending.value)]
    requires sys'.usedIds == sys.usedIds + {c'.pending.value.messageId}
    ensures Inv(ot, sys')
  {
    forall k | 0 <= k < |sys'.net|
      ensures sys'.net[k].sender < |sys'.clients|
      ensures PacketOk(ot, sys'.init, sys'.log, sys'.clients[sys'.net[k].sender], sys'.net[k].changeset)
    {
      if k < |sys.net| {
        assert sys'.net[k] == sys.net[k];
      }
    }
  }

  lemma SendInv<S(!new), A(!new)>(ot: Ot.Ot<S, A>, sys: System<S, A>, i: nat, id: MessageId)
    requires Ot.Laws(ot) && Inv(ot, sys) && i < |sys.clients| && Disciplined(ot, sys, Send(i, id))
    ensures Inv(ot, SendStep(ot, sys, i, id))
  {
    assert !HasId(sys.log, id);
    SentClient(ot, sys.init, sys.log, sys.clients[i], id);
    var c' := DeOpBuffer(ot, sys.clients[i], id);
    if c'.pending.Some? {
      SentSystem(ot, sys, SendStep(ot, sys, i, id), i, c');
    } else {
      SetClientInv(ot, sys, i, c');
    }
  }

  /** With nothing waiting, every packet of a client has already been used. */
  lemma IdleCarries<S(!new), A(!new)>(
    ot: Ot.Ot<S, A>, init: S, log: seq<RemoteChangeset<A>>, c: Client<S, A>, c': Client<S, A>)
    requires ClientOk(ot, init, log, c) && (c.pending.None? || Acked(log, c))
    ensures CarriesPackets(ot, init, log, c, c')
  {
    if Acked(log, c) {
      var j :| 0 <= j < c.revision && log[..c.revision][j].messageId == c.pending.value.messageId;
      assert log[j].messageId == c.pending.value.messageId;
    }
  }

  lemma FreshPacket<S(!new), A(!new)>(ot: Ot.Ot<S, A>, init: S, log: seq<RemoteChangeset<A>>, c: Client<S, A>)
    requires c.pending.Some? && c.revision <= |log| && c.pending.value.baseRevision == c.revision
    requires Synced(ot, StateAt(ot, init, log, c.revision), c)
    ensures PacketOk(ot, init, log, c, c.pending.value)
  {
    var ops := Flat(c.pending.value.operations);
    assert log[c.revision..c.revision] == [];
    Ot.ApplyConcat(ot, StateAt(ot, init, log, c.revision).value, ops, Flat(c.opBuffer));
  }

  /** The changeset in flight can be sent again at any time. */
  lemma OwnPacket<S(!new), A(!new)>(ot: Ot.Ot<S, A>, init: S, log: seq<RemoteChangeset<A>>, c: Client<S, A>)
    requires ClientOk(ot, init, log, c) && c.pending.Some?
    ensures PacketOk(ot, init, log, c, c.pending.value)
  {
    if Acked(log, c) {
      var j :| 0 <= j < c.revision && log[..c.revision][j].messageId == c.pending.value.messageId;
      assert log[j].messageId == c.pending.value.messageId;
    } else {
      FreshPacket(ot, init, log, c);
    }
  }

  lemma OneMorePacket<S(!new), A>(ot: Ot.Ot<S, A>, sys: System<S, A>, p: Packet<A>)
    requires Inv(ot, sys) && p.sender < |sys.clients| && p.changeset.messageId in sys.usedIds
    requires PacketOk(ot, sys.init, sys.log, sys.clients[p.sender], p.changeset)
    ensures Inv(ot, sys.(net := sys.net + [p]))
  {
    var net := sys.net + [p];
    forall k | 0 <= k < |net|
      ensures net[k].sender < |sys.clients| && net[k].changeset.messageId in sys.usedIds
      ensures PacketOk(ot, sys.init, sys.log, sys.clients[net[k].sender], net[k].changeset)
    {
      if k < |sys.net| {
        assert net[k] == sys.net[k];
      }
    }
  }

  lemma ResendInv<S(!new), A(!new)>(ot: Ot.Ot<S, A>, sys: System<S, A>, i: nat)
    requires Inv(ot, sys) && i < |sys.clients| && sys.clients[i].pending.Some?
    ensures Inv(ot, sys.(net := sys.net + [Packet(i, sys.clients[i].pending.value)]))
  {
    OwnPacket(ot, sys.init, sys.log, sys.clients[i]);
    OneMorePacket(ot, sys, Packet(i, sys.clients[i].pending.value));
  }

  // ---------------------------------------------------------------- committing

  /** A packet that is not used yet, rebased to the end of the log, is its sender's changeset in
      flight rebased there. */
  lemma PacketForeseen<S(!new), A(!new)>(
    ot: Ot.Ot<S, A>, init: S, log: seq<RemoteChangeset<A>>, c: Client<S, A>, cs: LocalChangeset<A>)
    requires PacketOk(ot, init, log, c, cs) && !HasId(log, cs.messageId)
    ensures Rebased(ot, log, cs) == RebasedTo(ot, log, c.revision, |log|, PendingActions(c.pending))
  {
    var b, r := cs.baseRevision, c.revision;
    LogActionsSplit(log, b, r, |log|);
    assert log[b..|log|] == log[b..];
    Ot.RebaseTwice(ot, Flat(cs.operations), LogActions(log[b..r]), LogActions(log[r..|log|]));
  }

  /** The server's document stays defined when such a packet is rebased onto it. */
  lemma RebasedFits<S(!new), A(!new)>(
    ot: Ot.Ot<S, A>, init: S, log: seq<RemoteChangeset<A>>, c: Client<S, A>, cs: LocalChangeset<A>)
    requires Ot.Laws(ot) && LogOk(ot, init, log) && PacketOk(ot, init, log, c, cs) && !HasId(log, cs.messageId)
    ensures Ot.Apply(ot, StateAt(ot, init, log, |log|).value, Rebased(ot, log, cs)).Some?
  {
    var b, n := cs.baseRevision, |log|;
    assert log[b..n] == log[b..];
    StateAtSplit(ot, init, log, b, n);
    Ot.TransformXDiamond(ot, StateAt(ot, init, log, b).value, Flat(cs.operations), LogActions(log[b..n]));
  }

  lemma GrownLast<S(!new), A>(
    ot: Ot.Ot<S, A>, init: S, log: seq<RemoteChangeset<A>>, entry: RemoteChangeset<A>)
    ensures StateAt(ot, init, log + [entry], |log| + 1) ==
            if StateAt(ot, init, log, |log|).None? then None
            else Ot.Apply(ot, StateAt(ot, init, log, |log|).value, Flat(entry.operations))
  {
    var log', n := log + [entry], |log|;
    GrownState(ot, init, log, entry, n);
    StateAtSplit(ot, init, log', n, n + 1);
    assert log'[n..n + 1] == [entry];
    LogActionsSingle(entry);
  }

  lemma GrownLog<S(!new), A>(ot: Ot.Ot<S, A>, init: S, log: seq<RemoteChangeset<A>>, entry: RemoteChangeset<A>)
    requires LogOk(ot, init, log) && entry.revision == |log| + 1 && !HasId(log, entry.messageId)
    requires Ot.Apply(ot, StateAt(ot, init, log, |log|).value, Flat(entry.operations)).Some?
    ensures LogOk(ot, init, log + [entry])
  {
    GrownLast(ot, init, log, entry);
    assert |log + [entry]| == |log| + 1;
  }

  lemma GrownState<S(!new), A>(
    ot: Ot.Ot<S, A>, init: S, log: seq<RemoteChangeset<A>>, entry: RemoteChangeset<A>, r: nat)
    requires r <= |log|
    ensures StateAt(ot, init, log + [entry], r) == StateAt(ot, init, log, r)
    ensures (log + [entry])[..r] == log[..r]
  {
    assert (log + [entry])[..r] == log[..r];
  }

  /** The entry has the effect of the changeset in flight rebased to the end of the log. */
  ghost predicate EntryOf<S(!new), A>(
    ot: Ot.Ot<S, A>, init: S, log: seq<RemoteChangeset<A>>, r: nat, actions: seq<A>, entry: RemoteChangeset<A>)
  {
    && r <= |log| && StateAt(ot, init, log, |log|).Some?
    && SameEffect(ot, StateAt(ot, init, log, |log|).value, Flat(entry.operations),
                  RebasedTo(ot, log, r, |log|, actions))
  }

  lemma GrownForeseen<S(!new), A>(
    ot: Ot.Ot<S, A>, init: S, log: seq<RemoteChangeset<A>>, entry: RemoteChangeset<A>, r: nat, p: LocalChangeset<A>)
    requires Foreseen(ot, init, log, r, p)
    requires entry.messageId == p.messageId ==> EntryOf(ot, init, log, r, Flat(p.operations), entry)
    ensures Foreseen(ot, init, log + [entry], r, p)
  {
    var log' := log + [entry];
    forall j | r <= j < |log'| && log'[j].messageId == p.messageId
      ensures StateAt(ot, init, log', j).Some?
      ensures SameEffect(ot, StateAt(ot, init, log', j).value, Flat(log'[j].operations),
                         RebasedTo(ot, log', r, j, Flat(p.operations)))
    {
      GrownState(ot, init, log, entry, j);
      assert log'[r..j] == log[r..j];
    }
  }

  lemma GrownPacket<S(!new), A>(
    ot: Ot.Ot<S, A>, init: S, log: seq<RemoteChangeset<A>>, entry: RemoteChangeset<A>,
    c: Client<S, A>, cs: LocalChangeset<A>)
    requires PacketOk(ot, init, log, c, cs)
    ensures PacketOk(ot, init, log + [entry], c, cs)
  {
    var log' := log + [entry];
    if HasId(log, cs.messageId) {
      var i :| 0 <= i < |log| && log[i].messageId == cs.messageId;
      assert log'[i].messageId == cs.messageId;
    } else {
      assert log'[cs.baseRevision..c.revision] == log[cs.baseRevision..c.revision];
      GrownState(ot, init, log, entry, cs.baseRevision);
    }
  }

  lemma GrownClient<S(!new), A>(
    ot: Ot.Ot<S, A>, init: S, log: seq<RemoteChangeset<A>>, entry: RemoteChangeset<A>, c: Client<S, A>)
    requires ClientOk(ot, init, log, c)
    requires c.pending.Some? && !Acked(log, c) && entry.messageId == c.pending.value.messageId ==>
               EntryOf(ot, init, log, c.revision, PendingActions(c.pending), entry)
    ensures ClientOk(ot, init, log + [entry], c)
  {
    GrownState(ot, init, log, entry, c.revision);
    if c.pending.Some? && !Acked(log, c) {
      GrownForeseen(ot, init, log, entry, c.revision, c.pending.value);
    }
  }

  /** The entry is new and comes from the author's changeset in flight. */
  ghost predicate NextEntry<S(!new), A>(ot: Ot.Ot<S, A>, sys: System<S, A>, author: nat, entry: RemoteChangeset<A>) {
    && author < |sys.clients|
    && entry.revision == |sys.log| + 1
    && !HasId(sys.log, entry.messageId)
    && var c := sys.clients[author];
    && c.pending.Some? && c.pending.value.messageId == entry.messageId
    && EntryOf(ot, sys.init, sys.log, c.revision, PendingActions(c.pending), entry)
  }

  lemma GrownClientAt<S(!new), A>(ot: Ot.Ot<S, A>, sys: System<S, A>, author: nat, entry: RemoteChangeset<A>, i: nat)
    requires IdsOk(sys) && NextEntry(ot, sys, author, entry) && i < |sys.clients|
    requires ClientOk(ot, sys.init, sys.log, sys.clients[i])
    ensures ClientOk(ot, sys.init, sys.log + [entry], sys.clients[i])
  {
    var c := sys.clients[i];
    if i != author {
      assert c.pending.Some? ==> c.pending.value.messageId != entry.messageId;
    }
    GrownClient(ot, sys.init, sys.log, entry, c);
  }

  lemma GrownIds<S(!new), A>(ot: Ot.Ot<S, A>, sys: System<S, A>, author: nat, entry: RemoteChangeset<A>)
    requires IdsOk(sys) && NextEntry(ot, sys, author, entry)
    ensures IdsOk(sys.(log := sys.log + [entry], authors := sys.authors + [author]))
  {
  }

  lemma GrownSystem<S(!new), A(!new)>(ot: Ot.Ot<S, A>, sys: System<S, A>, author: nat, entry: RemoteChangeset<A>)
    requires Inv(ot, sys) && NextEntry(ot, sys, author, entry)
    requires LogOk(ot, sys.init, sys.log + [entry])
    ensures Inv(ot, sys.(log := sys.log + [entry], authors := sys.authors + [author]))
  {
    GrownIds(ot, sys, author, entry);
    forall i | 0 <= i < |sys.clients| ensures ClientOk(ot, sys.init, sys.log + [entry], sys.clients[i]) {
      GrownClientAt(ot, sys, author, entry, i);
    }
    forall j | 0 <= j < |sys.net|
      ensures PacketOk(ot, sys.init, sys.log + [entry], sys.clients[sys.net[j].sender], sys.net[j].changeset)
    {
      GrownPacket(ot, sys.init, sys.log, entry, sys.clients[sys.net[j].sender], sys.net[j].changeset);
    }
  }

  lemma CommittedEntry<S(!new), A(!new)>(ot: Ot.Ot<S, A>, sys: System<S, A>, k: nat)
    requires Ot.Laws(ot) && Inv(ot, sys) && Disciplined(ot, sys, Receive(k)) && k < |sys.net|
    requires Commit(ot, sys.log, sys.server, sys.net[k].changeset).Some?
    ensures var entry := Commit(ot, sys.log, sys.server, sys.net[k].changeset).value;
            NextEntry(ot, sys, sys.net[k].sender, entry) && LogOk(ot, sys.init, sys.log + [entry])
  {
    var cs := sys.net[k].changeset;
    var sender := sys.clients[sys.net[k].sender];
    CommitShape(ot, sys.log, sys.server, cs);
    PacketForeseen(ot, sys.init, sys.log, sender, cs);
    RebasedFits(ot, sys.init, sys.log, sender, cs);
    GrownLog(ot, sys.init, sys.log, Commit(ot, sys.log, sys.server, cs).value);
  }

  lemma ReceiveInv<S(!new), A(!new)>(ot: Ot.Ot<S, A>, sys: System<S, A>, k: nat)
    requires Ot.Laws(ot) && Inv(ot, sys) && Disciplined(ot, sys, Receive(k)) && k < |sys.net|
    ensures Inv(ot, ReceiveStep(ot, sys, sys.net[k]))
  {
    var p := sys.net[k];
    var committed := Commit(ot, sys.log, sys.server, p.changeset);
    if committed.Some? {
      CommittedEntry(ot, sys, k);
      GrownSystem(ot, sys, p.sender, committed.value);
    }
  }

  /** At the end of the log a packet rebased is the changeset in flight itself. */
  lemma RebasedAtEnd<S(!new), A(!new)>(
    ot: Ot.Ot<S, A>, init: S, log: seq<RemoteChangeset<A>>, c: Client<S, A>, cs: LocalChangeset<A>)
    requires PacketOk(ot, init, log, c, cs) && !HasId(log, cs.messageId) && c.revision == |log|
    ensures Rebased(ot, log, cs) == PendingActions(c.pending)
  {
    PacketForeseen(ot, init, log, c, cs);
    assert log[|log|..|log|] == [];
  }

  /** For an author at the end of the log, counting the entry the server makes of its
      changeset keeps it in step if and only if the server was faithful. */
  lemma AmendedIff<S(!new), A(!new)>(
    ot: Ot.Ot<S, A>, init: S, log: seq<RemoteChangeset<A>>, server: Server<A>, c: Client<S, A>, cs: LocalChangeset<A>)
    requires Ot.Laws(ot) && LogOk(ot, init, log) && ClientOk(ot, init, log, c) && PacketOk(ot, init, log, c, cs)
    requires c.revision == |log| && Commit(ot, log, server, cs).Some?
    ensures var entry := Commit(ot, log, server, cs).value;
            Ot.Apply(ot, StateAt(ot, init, log, |log|).value, Flat(entry.operations)).Some? ==>
              (ClientOk(ot, init, log + [entry], AcceptCommit(c, entry).0) <==> Faithful(ot, init, log, server, cs))
  {
    CommitShape(ot, log, server, cs);
    NotAcked(log, c, cs.messageId);
    RebasedAtEnd(ot, init, log, c, cs);
    var entry := Commit(ot, log, server, cs).value;
    if Ot.Apply(ot, StateAt(ot, init, log, |log|).value, Flat(entry.operations)).Some? {
      CountsAmended(ot, init, log, c, entry);
    }
  }

  /** An author at the end of the log that counts its entry. */
  lemma CountsAmended<S(!new), A(!new)>(
    ot: Ot.Ot<S, A>, init: S, log: seq<RemoteChangeset<A>>, c: Client<S, A>, entry: RemoteChangeset<A>)
    requires Ot.Laws(ot) && Synced(ot, StateAt(ot, init, log, |log|), c)
    requires c.revision == |log| && IsOwn(c, entry) && entry.revision == |log| + 1
    requires Ot.Apply(ot, StateAt(ot, init, log, |log|).value, Flat(entry.operations)).Some?
    ensures ClientOk(ot, init, log + [entry], AcceptCommit(c, entry).0) <==>
            SameEffect(ot, StateAt(ot, init, log, |log|).value, Flat(entry.operations), PendingActions(c.pending))
  {
    AckedIff(ot, StateAt(ot, init, log, |log|), c, entry);
    GrownLast(ot, init, log, entry);
    HasIdGrows(log, entry, c.pending.value.messageId);
    assert (log + [entry])[..|log| + 1] == log + [entry];
  }

  lemma NotAcked<S(!new), A>(log: seq<RemoteChangeset<A>>, c: Client<S, A>, id: MessageId)
    requires !HasId(log, id) && c.pending.Some? && c.pending.value.messageId == id
    ensures !Acked(log, c)
  {
    if Acked(log, c) {
      HasIdBefore(log, c.revision, id);
    }
  }

  /** A client that has loaded the document of some revision. */
  lemma JoinInv<S(!new), A(!new)>(ot: Ot.Ot<S, A>, sys: System<S, A>, r: nat)
    requires Inv(ot, sys) && r <= |sys.log|
    ensures Inv(ot, JoinStep(ot, sys, r))
  {
    var doc := StateAt(ot, sys.init, sys.log, r);
    if doc.Some? {
      var c := Client(doc.value, r, None, []);
      assert Local(c) == [];
      assert ClientOk(ot, sys.init, sys.log, c);
    }
  }

  // ---------------------------------------------------------------- all runs

  lemma InitialInv<S(!new), A(!new)>(ot: Ot.Ot<S, A>, init: S, server: Server<A>, n: nat)
    ensures Inv(ot, Initial<S, A>(init, server, n))
  {
  }

  lemma StepInv<S(!new), A(!new)>(ot: Ot.Ot<S, A>, sys: System<S, A>, ev: Event<A>)
    requires Ot.Laws(ot) && Inv(ot, sys) && Disciplined(ot, sys, ev)
    ensures Inv(ot, Step(ot, sys, ev))
  {
    match ev {
      case LocalEdit(i, op) => if i < |sys.clients| { EditInv(ot, sys, i, op); }
      case Send(i, id) => if i < |sys.clients| { SendInv(ot, sys, i, id); }
      case Resend(i) => if i < |sys.clients| && sys.clients[i].pending.Some? { ResendInv(ot, sys, i); }
      case Receive(k) => if k < |sys.net| { ReceiveInv(ot, sys, k); }
      case Deliver(i, k) => if i < |sys.clients| && k < |sys.log| { DeliverInv(ot, sys, i, k); }
      case Ack(i, k) => if i < |sys.clients| && k < |sys.log| { AckInv(ot, sys, i, k); }
      case Join(r) => if r <= |sys.log| { JoinInv(ot, sys, r); }
    }
  }

  lemma {:induction false} RunInv<S(!new), A(!new)>(ot: Ot.Ot<S, A>, sys: System<S, A>, events: seq<Event<A>>)
    requires Ot.Laws(ot) && Inv(ot, sys) && DisciplinedRun(ot, sys, events)
    ensures Inv(ot, Run(ot, sys, events))
    decreases |events|
  {
    if events != [] {
      StepInv(ot, sys, events[0]);
      RunInv(ot, Step(ot, sys, events[0]), events[1..]);
    }
  }

  /** After any disciplined run from freshly loaded clients, every client shows the
      server's document at its own revision plus its unacknowledged actions; with
      nothing unacknowledged it shows exactly the server's document, so two such
      clients at one revision agree. */
  lemma Converges<S(!new), A(!new)>(ot: Ot.Ot<S, A>, init: S, server: Server<A>, n: nat, events: seq<Event<A>>)
    requires Ot.Laws(ot) && DisciplinedRun(ot, Initial<S, A>(init, server, n), events)
    ensures var sys := Run(ot, Initial<S, A>(init, server, n), events);
            && (forall i :: 0 <= i < |sys.clients| ==>
                  sys.clients[i].revision <= |sys.log| &&
                  var base := StateAt(ot, init, sys.log, sys.clients[i].revision);
                  var c := sys.clients[i];
                  Synced(ot, base, if Acked(sys.log, c) then c.(pending := None) else c) &&
                  (c.StorageClear() ==> base == Some(c.snapshot)))
            && (forall i, j :: (&& 0 <= i < j < |sys.clients|
                                && sys.clients[i].StorageClear() && sys.clients[j].StorageClear()
                                && sys.clients[i].revision == sys.clients[j].revision) ==>
                  sys.clients[i].snapshot == sys.clients[j].snapshot)
  {
    var start := Initial<S, A>(init, server, n);
    InitialInv(ot, init, server, n);
    RunInv(ot, start, events);
    RunKeepsInit(ot, start, events);
    var sys := Run(ot, start, events);
    forall i | 0 <= i < |sys.clients| && sys.clients[i].StorageClear()
      ensures sys.clients[i].revision <= |sys.log|
      ensures StateAt(ot, init, sys.log, sys.clients[i].revision) == Some(sys.clients[i].snapshot)
    {
      assert Local(sys.clients[i]) == [];
    }
  }

  // ---------------------------------------------------------------- when a run is disciplined

  /** Clients that never take an entry in between an acknowledgement and the clearing, and a
      server that amends nothing, keep the discipline. */
  lemma {:induction false} StrictRunDisciplined<S(!new), A(!new)>(
    ot: Ot.Ot<S, A>, sys: System<S, A>, events: seq<Event<A>>)
    requires StrictInv(sys) && StrictRun(ot, sys, events) && AmendsNothing(sys.server)
    ensures DisciplinedRun(ot, sys, events)
    decreases |events|
  {
    if events != [] {
      StrictIsDisciplined(ot, sys, events[0]);
      StrictStep(ot, sys, events[0]);
      StrictRunDisciplined(ot, Step(ot, sys, events[0]), events[1..]);
    }
  }

  lemma StrictIsDisciplined<S(!new), A(!new)>(ot: Ot.Ot<S, A>, sys: System<S, A>, ev: Event<A>)
    requires StrictInv(sys) && Strict(sys, ev) && AmendsNothing(sys.server)
    ensures Disciplined(ot, sys, ev)
  {
    if ev.Receive? && ev.packet < |sys.net| {
      PlainIsFaithful(ot, sys.init, sys.log, sys.server, sys.net[ev.packet].changeset);
    }
  }

  lemma {:induction false} RunKeepsInit<S(!new), A>(ot: Ot.Ot<S, A>, sys: System<S, A>, events: seq<Event<A>>)
    ensures Run(ot, sys, events).init == sys.init
    decreases |events|
  {
    if events != [] {
      RunKeepsInit(ot, Step(ot, sys, events[0]), events[1..]);
    }
  }
}
