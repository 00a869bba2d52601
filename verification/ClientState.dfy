/** What one client knows about one resource, and the atomic transitions the engine
    makes on it between two awaits.  The classes in Engines.dfy and
    Storage.dfy implement these functions. */
module ClientState {
  import opened Options
  import opened Changesets
  import Ot

  datatype Client<S(!new), A> = Client(
    snapshot: S,
    revision: nat,
    pending: Option<LocalChangeset<A>>,
    opBuffer: seq<Operation<A>>
  ) {
    /** Nothing left to send or to have acknowledged. */
    predicate StorageClear() {
      opBuffer == [] && pending.None?
    }
  }

  /** Local actions the server does not know yet: pending first, then the buffer. */
  function PendingActions<A>(pending: Option<LocalChangeset<A>>): seq<A> {
    if pending.None? then [] else Flat(pending.value.operations)
  }

  function Local<S(!new), A>(c: Client<S, A>): seq<A> {
    PendingActions(c.pending) + Flat(c.opBuffer)
  }

  /** Queues an operation; one without actions is dropped. */
  function PushOp<S(!new), A>(c: Client<S, A>, op: Operation<A>): Client<S, A> {
    if op.actions == [] then c else c.(opBuffer := c.opBuffer + [op])
  }

  /** A command executed locally: its actions reach the snapshot and the queue. */
  function Edit<S(!new), A>(ot: Ot.Ot<S, A>, c: Client<S, A>, op: Operation<A>): Client<S, A> {
    var next := Ot.Apply(ot, c.snapshot, op.actions);
    if next.None? then c else PushOp(c, op).(snapshot := next.value)
  }

  /** The whole buffer becomes the changeset in flight, whatever was there before. */
  function DeOpBuffer<S(!new), A>(ot: Ot.Ot<S, A>, c: Client<S, A>, id: MessageId): Client<S, A> {
    c.(opBuffer := [],
       pending := if c.opBuffer == [] then None
                  else Some(LocalChangeset(id, c.revision, ComposeFrom(ot, [], c.opBuffer))))
  }

  /** Rebases pending and then the buffer past a remote changeset; also returns the
      remote actions as they now apply to the local snapshot. */
  function DoTransform<S(!new), A>(ot: Ot.Ot<S, A>, c: Client<S, A>, cs: RemoteChangeset<A>)
    : (Client<S, A>, seq<A>)
  {
    var remote := Flat(cs.operations);
    if c.pending.None? then
      var (buffer', out) := TransformOps(ot, c.opBuffer, remote);
      (c.(opBuffer := buffer'), out)
    else
      var (pending', mid) := TransformOps(ot, c.pending.value.operations, remote);
      var (buffer', out) := TransformOps(ot, c.opBuffer, mid);
      (c.(pending := Some(c.pending.value.(operations := pending', baseRevision := cs.revision)),
          opBuffer := buffer'), out)
  }

  /** Takes a remote changeset in: rebase, count the revision up, apply.  Actions that
      do not fit make the OT library throw, which leaves the snapshot as it was. */
  function TakeIn<S(!new), A>(ot: Ot.Ot<S, A>, c: Client<S, A>, cs: RemoteChangeset<A>): Client<S, A> {
    var (c', remote) := DoTransform(ot, c, cs);
    var next := Ot.Apply(ot, c.snapshot, remote);
    c'.(revision := c.revision + 1, snapshot := if next.Some? then next.value else c.snapshot)
  }

  datatype Outcome = Applied | Ignored | AckDeferred | MissChanges

  predicate IsOwn<S(!new), A>(c: Client<S, A>, cs: RemoteChangeset<A>) {
    c.pending.Some? && c.pending.value.messageId == cs.messageId
  }

  /** The synchronous handling of one remote changeset.  AckDeferred hands it to the
      acknowledgement handler, which runs later; MissChanges is the throw. */
  function ApplyNewChanges<S(!new), A>(ot: Ot.Ot<S, A>, c: Client<S, A>, cs: RemoteChangeset<A>)
    : (Client<S, A>, Outcome)
  {
    if IsOwn(c, cs) then (c, AckDeferred)
    else if cs.revision > c.revision + 1 then (c, MissChanges)
    else if cs.revision <= c.revision then (c, Ignored)
    else (TakeIn(ot, c, cs), Applied)
  }

  /** The changeset in flight has been acknowledged, so the revision has passed its
      base; all that is left is to clear it. */
  predicate Counted<S(!new), A>(c: Client<S, A>) {
    c.pending.Some? && c.pending.value.baseRevision < c.revision
  }

  datatype AckOutcome = Accepted | NoPending | BadAck

  /** The acknowledgement handler once no revision is missing.  It counts the
      revision up and leaves the changeset in flight where it is. */
  function AcceptCommit<S(!new), A>(c: Client<S, A>, cs: RemoteChangeset<A>): (Client<S, A>, AckOutcome) {
    if c.pending.None? then (c, NoPending)
    else if IsOwn(c, cs) && cs.revision == c.revision + 1 then (c.(revision := c.revision + 1), Accepted)
    else (c, BadAck)
  }

  // ---------------------------------------------------------------- the diamond

  /** The snapshot is the server's document at some revision plus the local actions. */
  ghost predicate Synced<S(!new), A>(ot: Ot.Ot<S, A>, base: Option<S>, c: Client<S, A>) {
    base.Some? && Ot.Apply(ot, base.value, Local(c)) == Some(c.snapshot)
  }

  /** Rebasing pending and buffer in turn is one transformation of all local actions. */
  lemma DoTransformIsTransformX<S(!new), A>(ot: Ot.Ot<S, A>, c: Client<S, A>, cs: RemoteChangeset<A>)
    ensures var (c', remote) := DoTransform(ot, c, cs);
            && Ot.TransformX(ot, Local(c), Flat(cs.operations)) == (Local(c'), remote)
            && Ot.TransformX(ot, PendingActions(c.pending), Flat(cs.operations)).0 == PendingActions(c'.pending)
  {
    var remote := Flat(cs.operations);
    if c.pending.None? {
      TransformOpsIsTransformX(ot, c.opBuffer, remote);
      Ot.TransformXNil(ot, remote);
      assert Local(c) == Flat(c.opBuffer);
      assert Local(DoTransform(ot, c, cs).0) == Flat(DoTransform(ot, c, cs).0.opBuffer);
    } else {
      var ops := c.pending.value.operations;
      var (pending', mid) := TransformOps(ot, ops, remote);
      TransformOpsIsTransformX(ot, ops, remote);
      TransformOpsIsTransformX(ot, c.opBuffer, mid);
      Ot.TransformXSplitLeft(ot, Flat(ops), Flat(c.opBuffer), remote);
    }
  }

  /** For any pending changeset, buffer and remote changeset: the local actions and
      then the returned remote actions reach the document that the remote changeset
      and then the rewritten local actions reach.  No operation is lost or reordered
      and every command name survives. */
  lemma DoTransformDiamond<S(!new), A(!new)>(ot: Ot.Ot<S, A>, base: S, c: Client<S, A>, cs: RemoteChangeset<A>)
    requires Ot.Laws(ot)
    requires Ot.Apply(ot, base, Local(c)).Some? && Ot.Apply(ot, base, Flat(cs.operations)).Some?
    ensures var (c', remote) := DoTransform(ot, c, cs);
            && Ot.Meet(Ot.Apply(ot, Ot.Apply(ot, base, Local(c)).value, remote),
                       Ot.Apply(ot, Ot.Apply(ot, base, Flat(cs.operations)).value, Local(c')))
            && Cmds(c'.opBuffer) == Cmds(c.opBuffer)
            && c'.pending.Some? == c.pending.Some?
            && (c.pending.Some? ==> Cmds(c'.pending.value.operations) == Cmds(c.pending.value.operations))
  {
    DoTransformIsTransformX(ot, c, cs);
    Ot.TransformXDiamond(ot, base, Local(c), Flat(cs.operations));
  }

  /** Taking in the next server entry keeps a client in step with the server. */
  lemma TakeInSynced<S(!new), A(!new)>(ot: Ot.Ot<S, A>, base: Option<S>, c: Client<S, A>, cs: RemoteChangeset<A>)
    requires Ot.Laws(ot) && Synced(ot, base, c)
    requires Ot.Apply(ot, base.value, Flat(cs.operations)).Some?
    ensures Synced(ot, Ot.Apply(ot, base.value, Flat(cs.operations)), TakeIn(ot, c, cs))
  {
    DoTransformDiamond(ot, base.value, c, cs);
    assert Local(TakeIn(ot, c, cs)) == Local(DoTransform(ot, c, cs).0);
  }

  /** The remote actions as an acknowledged but uncleared changeset passes them on. */
  function PassedOn<S(!new), A>(ot: Ot.Ot<S, A>, c: Client<S, A>, cs: RemoteChangeset<A>): seq<A> {
    Ot.TransformX(ot, PendingActions(c.pending), Flat(cs.operations)).1
  }

  /** Taking a changeset in before the acknowledged one is cleared is harmless when the
      acknowledged one passes it on unchanged. */
  lemma CountedTakeIn<S(!new), A(!new)>(ot: Ot.Ot<S, A>, base: Option<S>, c: Client<S, A>, cs: RemoteChangeset<A>)
    requires Ot.Laws(ot) && Synced(ot, base, c.(pending := None))
    requires Ot.Apply(ot, base.value, Flat(cs.operations)).Some?
    requires PassedOn(ot, c, cs) == Flat(cs.operations)
    ensures Synced(ot, Ot.Apply(ot, base.value, Flat(cs.operations)), TakeIn(ot, c, cs).(pending := None))
  {
    var cleared := c.(pending := None);
    TakeInSynced(ot, base, cleared, cs);
    if c.pending.Some? {
      TransformOpsIsTransformX(ot, c.pending.value.operations, Flat(cs.operations));
    }
    assert TakeIn(ot, c, cs).(pending := None) == TakeIn(ot, cleared, cs);
  }

  /** Whatever is buffered, taking it in is harmless exactly when the acknowledged
      changeset passes it on with the effect it has on the acknowledged document. */
  lemma CountedTakeInIff<S(!new), A(!new)>(ot: Ot.Ot<S, A>, base: Option<S>, c: Client<S, A>, cs: RemoteChangeset<A>)
    requires Ot.Laws(ot) && Synced(ot, base, c.(pending := None)) && c.pending.Some?
    requires Ot.Apply(ot, base.value, Flat(cs.operations)).Some? && Ot.Apply(ot, base.value, PassedOn(ot, c, cs)).Some?
    ensures Synced(ot, Ot.Apply(ot, base.value, Flat(cs.operations)), TakeIn(ot, c, cs).(pending := None)) <==>
            Ot.Apply(ot, base.value, PassedOn(ot, c, cs)) == Ot.Apply(ot, base.value, Flat(cs.operations))
  {
    var passed := PassedOn(ot, c, cs);
    var (buffer', out) := TransformOps(ot, c.opBuffer, passed);
    TransformOpsIsTransformX(ot, c.pending.value.operations, Flat(cs.operations));
    TransformOpsIsTransformX(ot, c.opBuffer, passed);
    assert Local(c.(pending := None)) == Flat(c.opBuffer);
    Ot.TransformXDiamond(ot, base.value, Flat(c.opBuffer), passed);
    var after := TakeIn(ot, c, cs).(pending := None);
    assert Local(after) == Flat(buffer');
    var mid, next := Ot.Apply(ot, base.value, passed).value, Ot.Apply(ot, base.value, Flat(cs.operations)).value;
    assert Ot.Apply(ot, mid, Flat(buffer')) == Some(after.snapshot);
    if Ot.Apply(ot, next, Flat(buffer')) == Some(after.snapshot) {
      Ot.SameStart(ot, mid, next, Flat(buffer'));
    }
  }

  /** The same with nothing buffered, also when what is passed on does not fit at all and
      leaves the snapshot as it was. */
  lemma CountedUnbufferedIff<S(!new), A(!new)>(
    ot: Ot.Ot<S, A>, base: Option<S>, c: Client<S, A>, cs: RemoteChangeset<A>)
    requires Synced(ot, base, c.(pending := None)) && c.opBuffer == []
    requires Ot.Apply(ot, base.value, Flat(cs.operations)).Some?
    ensures Synced(ot, Ot.Apply(ot, base.value, Flat(cs.operations)), TakeIn(ot, c, cs).(pending := None)) <==>
            Ot.Apply(ot, base.value, Flat(cs.operations)).value ==
            (var passed := Ot.Apply(ot, base.value, PassedOn(ot, c, cs));
             if passed.Some? then passed.value else base.value)
  {
    var cleared := c.(pending := None);
    assert Local(cleared) == [];
    assert c.snapshot == base.value;
    if c.pending.Some? {
      TransformOpsIsTransformX(ot, c.pending.value.operations, Flat(cs.operations));
    } else {
      Ot.TransformXNil(ot, Flat(cs.operations));
    }
    assert Local(TakeIn(ot, c, cs).(pending := None)) == [];
  }

  /** Starting a new changeset keeps a client in step, provided no changeset was
      still waiting. */
  lemma DeOpBufferSynced<S(!new), A(!new)>(ot: Ot.Ot<S, A>, base: Option<S>, c: Client<S, A>, id: MessageId)
    requires Ot.Laws(ot) && Synced(ot, base, c.(pending := None))
    ensures Synced(ot, base, DeOpBuffer(ot, c, id))
  {
    assert Local(c.(pending := None)) == Flat(c.opBuffer);
    var empty: seq<Operation<A>> := [];
    assert Flat(empty) + Flat(c.opBuffer) == Flat(c.opBuffer);
    ComposeSound(ot, base.value, empty, c.opBuffer);
    var c' := DeOpBuffer(ot, c, id);
    if c.opBuffer != [] {
      assert Local(c') == Flat(ComposeFrom(ot, empty, c.opBuffer)) + Flat(empty);
      assert Local(c') == Flat(ComposeFrom(ot, empty, c.opBuffer));
    } else {
      assert Local(c') == [];
    }
  }

  /** Starting a new changeset while one still waits keeps a client in step exactly when
      the overwritten one had no effect. */
  lemma OverwriteIff<S(!new), A(!new)>(ot: Ot.Ot<S, A>, base: Option<S>, c: Client<S, A>, id: MessageId)
    requires Ot.Laws(ot) && Synced(ot, base, c) && c.pending.Some?
    ensures Synced(ot, base, DeOpBuffer(ot, c, id)) <==> Ot.Apply(ot, base.value, PendingActions(c.pending)) == base
  {
    Ot.ApplyConcat(ot, base.value, PendingActions(c.pending), Flat(c.opBuffer));
    var mid := Ot.Apply(ot, base.value, PendingActions(c.pending)).value;
    var alone := Client(c.snapshot, c.revision, None, c.opBuffer);
    assert Local(alone) == Flat(c.opBuffer);
    DeOpBufferSynced(ot, Some(mid), alone, id);
    var sent := Local(DeOpBuffer(ot, c, id));
    assert sent == Local(DeOpBuffer(ot, alone, id));
    if Ot.Apply(ot, base.value, sent) == Some(c.snapshot) {
      Ot.SameStart(ot, base.value, mid, sent);
    }
  }

  /** Counting the own entry keeps a client in step exactly when that entry has the effect
      of the changeset in flight. */
  lemma AckedIff<S(!new), A(!new)>(ot: Ot.Ot<S, A>, base: Option<S>, c: Client<S, A>, cs: RemoteChangeset<A>)
    requires Ot.Laws(ot) && Synced(ot, base, c) && c.pending.Some?
    requires Ot.Apply(ot, base.value, Flat(cs.operations)).Some?
    ensures Synced(ot, Ot.Apply(ot, base.value, Flat(cs.operations)),
                   c.(revision := c.revision + 1, pending := None)) <==>
            Ot.Apply(ot, base.value, Flat(cs.operations)) == Ot.Apply(ot, base.value, PendingActions(c.pending))
  {
    Ot.ApplyConcat(ot, base.value, PendingActions(c.pending), Flat(c.opBuffer));
    var mid, next := Ot.Apply(ot, base.value, PendingActions(c.pending)), Ot.Apply(ot, base.value, Flat(cs.operations));
    assert Local(c.(revision := c.revision + 1, pending := None)) == Flat(c.opBuffer);
    if Ot.Apply(ot, next.value, Flat(c.opBuffer)) == Some(c.snapshot) {
      Ot.SameStart(ot, next.value, mid.value, Flat(c.opBuffer));
    }
  }

  lemma PushedLocal<S(!new), A>(c: Client<S, A>, op: Operation<A>)
    ensures Local(PushOp(c, op)) == Local(c) + op.actions
  {
    FlatConcat(c.opBuffer, [op]);
    FlatSingle(op);
  }

  /** A command with actions that fit is queued last, one without actions is not. */
  lemma EditQueues<S(!new), A>(ot: Ot.Ot<S, A>, c: Client<S, A>, op: Operation<A>)
    ensures Edit(ot, c, op).opBuffer == c.opBuffer <==> |op.actions| == 0 || Ot.Apply(ot, c.snapshot, op.actions).None?
    ensures Edit(ot, c, op).opBuffer != c.opBuffer ==> Edit(ot, c, op).opBuffer == c.opBuffer + [op]
    ensures Edit(ot, c, op).pending == c.pending && Edit(ot, c, op).revision == c.revision
  {
  }

  lemma EditSynced<S(!new), A(!new)>(ot: Ot.Ot<S, A>, base: Option<S>, c: Client<S, A>, op: Operation<A>)
    requires Synced(ot, base, c)
    ensures Synced(ot, base, Edit(ot, c, op))
  {
    if Ot.Apply(ot, c.snapshot, op.actions).Some? {
      PushedLocal(c, op);
      Ot.ApplyConcat(ot, base.value, Local(c), op.actions);
      assert Local(Edit(ot, c, op)) == Local(PushOp(c, op));
    }
  }

  // ---------------------------------------------------------------- one changeset after the other

  /** What becomes of a remote changeset: the own one is left to the acknowledgement handler
      whatever its revision, of the others the next is taken in, an old one ignored, and one
      too far ahead refused.  Only taking in changes anything. */
  lemma OutcomeIff<S(!new), A>(ot: Ot.Ot<S, A>, c: Client<S, A>, cs: RemoteChangeset<A>)
    ensures var (c', outcome) := ApplyNewChanges(ot, c, cs);
            var own := c.pending.Some? && c.pending.value.messageId == cs.messageId;
            && (outcome == AckDeferred <==> own)
            && (outcome == Applied <==> !own && cs.revision == c.revision + 1)
            && (outcome == Ignored <==> !own && cs.revision <= c.revision)
            && (outcome == MissChanges <==> !own && cs.revision >= c.revision + 2)
            && (outcome != Applied ==> c' == c)
            && (outcome == Applied ==> c'.revision == cs.revision)
  {
  }

  /** The acknowledgement handler counts exactly the next entry, if it is the own one, and otherwise
      fails; with nothing in flight it only reports that. */
  lemma AckIff<S(!new), A>(c: Client<S, A>, cs: RemoteChangeset<A>)
    ensures var (c', outcome) := AcceptCommit(c, cs);
            && (outcome == NoPending <==> c.pending.None?)
            && (outcome == Accepted <==>
                  && c.pending.Some? && c.pending.value.messageId == cs.messageId
                  && cs.revision == c.revision + 1)
            && c' == if outcome == Accepted then c.(revision := cs.revision) else c
  {
  }

  /** A remote changeset handled to its end: where that is left to the acknowledgement
      handler, this one has completed. */
  function Handled<S(!new), A>(ot: Ot.Ot<S, A>, c: Client<S, A>, cs: RemoteChangeset<A>): Client<S, A> {
    var (c', outcome) := ApplyNewChanges(ot, c, cs);
    if outcome == AckDeferred then AcceptCommit(c', cs).0 else c'
  }

  /** The next entry of the log is counted, whoever wrote it; an older one changes nothing. */
  lemma NextEntryCounts<S(!new), A>(ot: Ot.Ot<S, A>, c: Client<S, A>, cs: RemoteChangeset<A>)
    ensures cs.revision == c.revision + 1 ==> Handled(ot, c, cs).revision == cs.revision
    ensures cs.revision <= c.revision ==> Handled(ot, c, cs) == c
  {
  }

  function HandledAll<S(!new), A>(ot: Ot.Ot<S, A>, c: Client<S, A>, list: seq<RemoteChangeset<A>>): Client<S, A>
    decreases |list|
  {
    if list == [] then c else HandledAll(ot, Handled(ot, c, list[0]), list[1..])
  }

  /** A client that is handed a stretch of the log in order, one entry handled after the
      other, from no later than its next revision on, ends at the last entry's revision,
      whichever of them are its own. */
  lemma {:induction false} HandedInOrder<S(!new), A>(
    ot: Ot.Ot<S, A>, c: Client<S, A>, list: seq<RemoteChangeset<A>>, start: nat)
    requires Contiguous(list, start) && start <= c.revision + 1
    ensures HandledAll(ot, c, list).revision ==
            if start + |list| > c.revision + 1 then start + |list| - 1 else c.revision
    decreases |list|
  {
    if list != [] {
      NextEntryCounts(ot, c, list[0]);
      assert Contiguous(list[1..], start + 1) by {
        assert forall i :: 0 <= i < |list[1..]| ==> list[1..][i] == list[i + 1];
      }
      HandedInOrder(ot, Handled(ot, c, list[0]), list[1..], start + 1);
    }
  }

  // ---------------------------------------------------------------- fetched lists

  /** Handles a fetched list in one go; a throw abandons the rest. */
  function ApplyAll<S(!new), A>(ot: Ot.Ot<S, A>, c: Client<S, A>, list: seq<RemoteChangeset<A>>)
    : (Client<S, A>, bool)
    decreases |list|
  {
    if list == [] then (c, true)
    else
      var (c', outcome) := ApplyNewChanges(ot, c, list[0]);
      if outcome == MissChanges then (c', false) else ApplyAll(ot, c', list[1..])
  }

  predicate Contiguous<A>(list: seq<RemoteChangeset<A>>, start: nat) {
    forall i :: 0 <= i < |list| ==> list[i].revision == start + i
  }

  /** An own changeset that is not yet counted, with more of the list behind it. */
  predicate BlockedAt<S(!new), A>(c: Client<S, A>, list: seq<RemoteChangeset<A>>, i: nat) {
    i + 1 < |list| && IsOwn(c, list[i]) && list[i].revision > c.revision
  }

  lemma TakeInKeepsOwn<S(!new), A>(ot: Ot.Ot<S, A>, c: Client<S, A>, cs: RemoteChangeset<A>, other: RemoteChangeset<A>)
    ensures IsOwn(TakeIn(ot, c, cs), other) == IsOwn(c, other)
  {
  }

  predicate DistinctIds<A>(list: seq<RemoteChangeset<A>>) {
    forall i, j :: 0 <= i < j < |list| ==> list[i].messageId != list[j].messageId
  }

  /** Handling a contiguous list that starts no later than the next revision throws
      "miss changes" exactly when the client's own changeset is in it, still
      uncounted, with another entry behind it.  Otherwise every entry is used once and
      the revision ends at the last one. */
  lemma {:induction false} FetchedListThrowsIff<S(!new), A>(
    ot: Ot.Ot<S, A>, c: Client<S, A>, list: seq<RemoteChangeset<A>>, start: nat)
    requires Contiguous(list, start) && start <= c.revision + 1 && DistinctIds(list)
    ensures ApplyAll(ot, c, list).1 <==> !exists i: nat :: BlockedAt(c, list, i)
    ensures (forall i :: 0 <= i < |list| ==> !IsOwn(c, list[i])) ==>
              && ApplyAll(ot, c, list).1
              && ApplyAll(ot, c, list).0.revision ==
                 if start + |list| > c.revision + 1 then start + |list| - 1 else c.revision
    decreases |list|
  {
    if list != [] {
      var head, rest := list[0], list[1..];
      var (c', outcome) := ApplyNewChanges(ot, c, head);
      assert forall i :: 0 <= i < |rest| ==> rest[i] == list[i + 1];
      if outcome == AckDeferred && head.revision > c.revision {
        assert BlockedAt(c, list, 0) <==> rest != [];
        if rest != [] {
          assert list[0].messageId != list[1].messageId;
          assert ApplyNewChanges(ot, c, rest[0]).1 == MissChanges;
        } else {
          assert forall i: nat :: !BlockedAt(c, list, i);
        }
      } else {
        FetchedListThrowsIff(ot, c', rest, start + 1);
        assert forall i :: 0 <= i < |list| ==> IsOwn(c', list[i]) == IsOwn(c, list[i]);
        assert !BlockedAt(c, list, 0);
        forall i: nat | BlockedAt(c, list, i) ensures BlockedAt(c', rest, i - 1) {
          assert i != 0 && rest[i - 1] == list[i];
        }
        forall i: nat | BlockedAt(c', rest, i) ensures BlockedAt(c, list, i + 1) {
        }
      }
    }
  }

  lemma {:induction false} ApplyAllKeepsOwn<S(!new), A>(
    ot: Ot.Ot<S, A>, c: Client<S, A>, list: seq<RemoteChangeset<A>>, other: RemoteChangeset<A>)
    ensures IsOwn(ApplyAll(ot, c, list).0, other) == IsOwn(c, other)
    decreases |list|
  {
    if list != [] {
      TakeInKeepsOwn(ot, c, list[0], other);
      ApplyAllKeepsOwn(ot, ApplyNewChanges(ot, c, list[0]).0, list[1..], other);
    }
  }

  /** The handler of a pushed changeset fetches what was missing when it started, from
      revision r0 on.  Even if other handlers have moved the client on during the fetch,
      the fetched list and then the pushed changeset go through without a throw and leave
      the client at the pushed revision, or beyond where it was already. */
  lemma CatchesUp<S(!new), A>(
    ot: Ot.Ot<S, A>, c: Client<S, A>, r0: nat, list: seq<RemoteChangeset<A>>, data: RemoteChangeset<A>)
    requires r0 <= c.revision && Contiguous(list, r0 + 1) && DistinctIds(list)
    requires data.revision == r0 + 1 + |list| && !IsOwn(c, data)
    requires forall i :: 0 <= i < |list| ==> !IsOwn(c, list[i])
    ensures ApplyAll(ot, c, list).1
    ensures var (c', outcome) := ApplyNewChanges(ot, ApplyAll(ot, c, list).0, data);
            && outcome == (if c.revision < data.revision then Applied else Ignored)
            && c'.revision == if c.revision < data.revision then data.revision else c.revision
  {
    FetchedListThrowsIff(ot, c, list, r0 + 1);
    ApplyAllKeepsOwn(ot, c, list, data);
  }
}
