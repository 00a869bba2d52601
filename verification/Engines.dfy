/** The collaboration engine of one resource. */
module Engines {
  import opened Options
  import opened Changesets
  import opened ClientState
  import opened Storage
  import opened Commands
  import H = History
  import Sessions
  import Ot

  class Engine<S(!new), A> {
    const ot: Ot.Ot<S, A>
    const bufferStorage: BufferStorage<A>
    const undoManager: UndoManager<S, A>
    // the parts of the store that the engine reads and dispatches to
    var revision: nat
    var snapshot: S

    constructor (
      ot: Ot.Ot<S, A>, bufferStorage: BufferStorage<A>, undoManager: UndoManager<S, A>, revision: nat, snapshot: S)
      ensures this.ot == ot && this.bufferStorage == bufferStorage && this.undoManager == undoManager
      ensures this.revision == revision && this.snapshot == snapshot
    {
      this.ot, this.bufferStorage, this.undoManager := ot, bufferStorage, undoManager;
      this.revision, this.snapshot := revision, snapshot;
    }

    ghost function View(): Client<S, A>
      reads this, bufferStorage
    {
      Client(snapshot, revision, bufferStorage.localPendingChangeset, bufferStorage.opBuffer)
    }

    ghost function Session(): Sessions.Session<S, A>
      reads this, bufferStorage, undoManager
    {
      Sessions.Session(View(), undoManager.undoStack, undoManager.redoStack)
    }

    ghost predicate Valid()
      reads this, bufferStorage
    {
      undoManager.ot == ot && bufferStorage.Mirrored()
    }

    method PushOpBuffer(operation: Operation<A>)
      requires Valid()
      modifies bufferStorage
      ensures Valid() && View() == PushOp(old(View()), operation)
    {
      if |operation.actions| > 0 {
        bufferStorage.PushOpBuffer(operation);
      }
    }

    /** What executing a command does to the store and to the queue. */
    method OperationExecuted(operation: Operation<A>)
      requires Valid()
      modifies this`snapshot, bufferStorage
      ensures Valid() && View() == ClientState.Edit(ot, old(View()), operation)
    {
      var next := Ot.Apply(ot, snapshot, operation.actions);
      if next.Some? {
        snapshot := next.value;
        PushOpBuffer(operation);
      }
    }

    method IsStorageClear() returns (clear: bool)
      ensures clear == View().StorageClear()
    {
      if |bufferStorage.opBuffer| > 0 || bufferStorage.localPendingChangeset.Some? {
        return false;
      }
      return true;
    }

    method GetNextChangeset(id: MessageId) returns (next: Option<LocalChangeset<A>>)
      requires Valid()
      modifies bufferStorage
      ensures Valid() && View() == DeOpBuffer(ot, old(View()), id)
      ensures next == View().pending
    {
      bufferStorage.DeOpBuffer(ot, revision, id);
      if bufferStorage.localPendingChangeset.None? {
        return None;
      }
      return bufferStorage.localPendingChangeset;
    }

    /** Collects the actions of all operations of a changeset. */
    method FlatActions(operations: seq<Operation<A>>) returns (actions: seq<A>)
      ensures actions == Flat(operations)
    {
      actions := [];
      for i := 0 to |operations|
        invariant Flat(operations) == actions + Flat(operations[i..])
      {
        assert operations[i..][1..] == operations[i + 1..];
        actions := actions + operations[i].actions;
      }
      assert operations[|operations|..] == [];
    }

    /** Threads remote actions through a list of operations. */
    method Rebase(operations: seq<Operation<A>>, remote: seq<A>)
      returns (newOperations: seq<Operation<A>>, remoteActions: seq<A>)
      ensures (newOperations, remoteActions) == TransformOps(ot, operations, remote)
    {
      newOperations, remoteActions := [], remote;
      for i := 0 to |operations|
        invariant (newOperations, remoteActions) == TransformOps(ot, operations[..i], remote)
      {
        var op := operations[i];
        var (leftOp, rightOp) := Ot.TransformX(ot, op.actions, remoteActions);
        RebaseNext(operations, i, remote);
        newOperations, remoteActions := newOperations + [Operation(op.cmd, leftOp, None)], rightOp;
      }
      assert operations[..|operations|] == operations;
    }

    /** One round of the loop above. */
    lemma RebaseNext(operations: seq<Operation<A>>, i: nat, remote: seq<A>)
      requires i < |operations|
      ensures var (done, rest) := TransformOps(ot, operations[..i], remote);
              var (left, right) := Ot.TransformX(ot, operations[i].actions, rest);
              TransformOps(ot, operations[..i + 1], remote) ==
              (done + [Operation(operations[i].cmd, left, None)], right)
    {
      RebaseOne(operations[i], TransformOps(ot, operations[..i], remote).1);
      TransformOpsConcat(ot, operations[..i], [operations[i]], remote);
      assert operations[..i] + [operations[i]] == operations[..i + 1];
    }

    lemma RebaseOne(op: Operation<A>, remote: seq<A>)
      ensures TransformOps(ot, [op], remote) ==
              ([Operation(op.cmd, Ot.TransformX(ot, op.actions, remote).0, None)],
               Ot.TransformX(ot, op.actions, remote).1)
    {
      var (left, right) := Ot.TransformX(ot, op.actions, remote);
      assert [op][1..] == [];
      assert TransformOps(ot, [op][1..], right) == ([], right);
      assert [Operation(op.cmd, left, None)] + [] == [Operation(op.cmd, left, None)];
    }

    /** Rebases the undo stacks on the remote actions as they come, then pending and
        buffer; returns the remote actions as they apply to the snapshot. */
    method Transform(cs: RemoteChangeset<A>) returns (remoteActions: seq<A>)
      requires Valid()
      modifies bufferStorage, undoManager
      ensures Valid() && (View(), remoteActions) == DoTransform(ot, old(View()), cs)
      ensures undoManager.View(snapshot) == H.TransformStacks(ot, old(undoManager.View(snapshot)), Flat(cs.operations))
    {
      remoteActions := FlatActions(cs.operations);
      undoManager.DoTransform(remoteActions, snapshot);
      if bufferStorage.localPendingChangeset.Some? {
        var pending := bufferStorage.localPendingChangeset.value;
        var newOperations;
        newOperations, remoteActions := Rebase(pending.operations, remoteActions);
        bufferStorage.SetLocalPendingChangeset(
          Some(pending.(operations := newOperations, baseRevision := cs.revision)));
      }
      if |bufferStorage.opBuffer| > 0 {
        var newOperations;
        newOperations, remoteActions := Rebase(bufferStorage.opBuffer, remoteActions);
        bufferStorage.SetOpBuffer(newOperations);
      }
    }

    method ApplyChanges(cs: RemoteChangeset<A>) returns (outcome: Outcome)
      requires Valid()
      modifies this, bufferStorage, undoManager
      ensures Valid() && (Session(), outcome) == Sessions.ApplyChanges(ot, old(Session()), cs)
    {
      var pending := bufferStorage.localPendingChangeset;
      if pending.Some? && cs.messageId == pending.value.messageId {
        return AckDeferred;
      }
      if cs.revision > revision + 1 {
        return MissChanges;
      }
      if cs.revision <= revision {
        return Ignored;
      }
      var nextRevision := revision + 1;
      var remoteActions := Transform(cs);
      revision := nextRevision;
      var next := Ot.Apply(ot, snapshot, remoteActions);
      if next.Some? {
        snapshot := next.value;
      }
      return Applied;
    }

    /** Handles a fetched list of missed changesets; false is the throw. */
    method ApplyMissed(changesetList: seq<RemoteChangeset<A>>) returns (ok: bool)
      requires Valid()
      modifies this, bufferStorage, undoManager
      ensures Valid() && (Session(), ok) == Sessions.ApplyMissed(ot, old(Session()), changesetList)
    {
      for i := 0 to |changesetList|
        invariant Valid()
        invariant Sessions.ApplyMissed(ot, old(Session()), changesetList) ==
                  Sessions.ApplyMissed(ot, Session(), changesetList[i..])
      {
        assert changesetList[i..][0] == changesetList[i] && changesetList[i..][1..] == changesetList[i + 1..];
        var outcome := ApplyChanges(changesetList[i]);
        if outcome == MissChanges {
          return false;
        }
      }
      assert changesetList[|changesetList|..] == [];
      return true;
    }

    /** The acknowledgement handler after its fetch. */
    method HandleAcceptCommit(cs: RemoteChangeset<A>) returns (outcome: AckOutcome)
      requires Valid()
      modifies this`revision
      ensures Valid() && (View(), outcome) == AcceptCommit(old(View()), cs)
    {
      if bufferStorage.localPendingChangeset.None? {
        return NoPending;
      }
      if cs.messageId == bufferStorage.localPendingChangeset.value.messageId && cs.revision == revision + 1 {
        revision := revision + 1;
        return Accepted;
      }
      return BadAck;
    }

    /** Handles a pushed changeset to its end, the acknowledgement handler included. */
    method HandleNewChanges(cs: RemoteChangeset<A>)
      requires Valid()
      modifies this, bufferStorage, undoManager
      ensures Valid() && View() == Handled(ot, old(View()), cs)
      ensures Session() == Sessions.ApplyChanges(ot, old(Session()), cs).0.(client := View())
    {
      var outcome := ApplyChanges(cs);
      if outcome == AckDeferred {
        var _ := HandleAcceptCommit(cs);
      }
    }

    // ---------------------------------------------------------------- commands and keys

    /** The command manager works on the same store. */
    ghost predicate Shares(commandManager: CollaCommandManager<S, A>)
      reads this, commandManager
    {
      && commandManager.undoManager == undoManager && commandManager.ot == ot
      && commandManager.snapshot == snapshot
    }

    method Execute(commandManager: CollaCommandManager<S, A>, command: H.UndoCommand<A>)
      requires Valid() && Shares(commandManager)
      modifies this`snapshot, bufferStorage, undoManager, commandManager`snapshot
      ensures Valid() && Shares(commandManager)
      ensures Session() == Sessions.Step(ot, commandManager.registry, old(Session()), Sessions.Execute(command))
    {
      var result := commandManager.ExecuteActions(command, H.Execute);
      if result.Some? {
        OperationExecuted(result.value);
      }
    }

    method Undo(commandManager: CollaCommandManager<S, A>)
      requires Valid() && Shares(commandManager)
      modifies this`snapshot, bufferStorage, undoManager, commandManager`snapshot
      ensures Valid() && Shares(commandManager)
      ensures Session() == Sessions.Step(ot, commandManager.registry, old(Session()), Sessions.UndoKey)
    {
      var result := undoManager.Undo(commandManager);
      if result.Some? {
        OperationExecuted(result.value);
      }
    }

    method Redo(commandManager: CollaCommandManager<S, A>)
      requires Valid() && Shares(commandManager)
      modifies this`snapshot, bufferStorage, undoManager, commandManager`snapshot
      ensures Valid() && Shares(commandManager)
      ensures Session() == Sessions.Step(ot, commandManager.registry, old(Session()), Sessions.RedoKey)
    {
      var result := undoManager.Redo(commandManager);
      if result.Some? {
        OperationExecuted(result.value);
      }
    }
  }
}
