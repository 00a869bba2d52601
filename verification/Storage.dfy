/** The send queue and the changeset in flight, each mirrored in a persistent store. */
module Storage {
  import opened Options
  import opened Changesets
  import Ot

  /** Folds operations into each other where possible, from left to right. */
  method ComposeOperations<S(!new), A>(ot: Ot.Ot<S, A>, ops: seq<Operation<A>>) returns (pre: seq<Operation<A>>)
    ensures pre == ComposeFrom(ot, [], ops)
  {
    pre := [];
    for i := 0 to |ops|
      invariant ComposeFrom(ot, [], ops) == ComposeFrom(ot, pre, ops[i..])
    {
      var cur := ops[i];
      assert ops[i..][0] == cur && ops[i..][1..] == ops[i + 1..];
      if |pre| > 0 {
        var preOp := pre[|pre| - 1];
        var popped := pre[..|pre| - 1];
        var (operation, isComposed) := ComposeOperation(ot, cur, preOp);
        if operation.Some? {
          if isComposed {
            pre := popped + [operation.value];
          } else {
            pre := popped + [operation.value, cur];
          }
        } else {
          pre := popped;
        }
      } else {
        pre := [cur];
      }
    }
    assert ops[|ops|..] == [];
  }

  class BufferStorage<A> {
    var opBuffer: seq<Operation<A>>
    var localPendingChangeset: Option<LocalChangeset<A>>

    // what the persistent store holds for this resource
    var opBufferStorage: Option<seq<Operation<A>>>
    var localPendingChangesetStorage: Option<LocalChangeset<A>>

    /** The store holds what memory holds; an empty buffer has no entry. */
    ghost predicate Mirrored()
      reads this
    {
      && opBufferStorage == (if opBuffer == [] then None else Some(opBuffer))
      && localPendingChangesetStorage == localPendingChangeset
    }

    /** Resumes from the store of an earlier session. */
    constructor (storedOps: Option<seq<Operation<A>>>, storedPending: Option<LocalChangeset<A>>)
      ensures Mirrored()
      ensures localPendingChangeset == storedPending
      ensures opBuffer == if storedOps.Some? then storedOps.value else []
    {
      opBufferStorage, localPendingChangesetStorage := storedOps, storedPending;
      opBuffer, localPendingChangeset := [], None;
      new;
      SetLocalPendingChangeset(localPendingChangesetStorage);
      SetOpBuffer(if opBufferStorage.Some? then opBufferStorage.value else []);
    }

    method SetOpBuffer(value: seq<Operation<A>>)
      modifies this`opBuffer, this`opBufferStorage
      ensures opBuffer == value
      ensures opBufferStorage == (if value == [] then None else Some(value))
    {
      opBuffer := value;
      if |value| == 0 {
        opBufferStorage := None;
        return;
      }
      opBufferStorage := Some(value);
    }

    method SetLocalPendingChangeset(value: Option<LocalChangeset<A>>)
      modifies this`localPendingChangeset, this`localPendingChangesetStorage
      ensures localPendingChangeset == value
      ensures localPendingChangesetStorage == value
    {
      localPendingChangeset := value;
      if value.None? {
        localPendingChangesetStorage := None;
        return;
      }
      localPendingChangesetStorage := value;
    }

    /** Moves the buffer into flight. */
    method DeOpBuffer<S(!new)>(ot: Ot.Ot<S, A>, revision: nat, id: MessageId)
      modifies this
      ensures opBuffer == []
      ensures localPendingChangeset ==
              if old(opBuffer) == [] then None
              else Some(LocalChangeset(id, revision, ComposeFrom(ot, [], old(opBuffer))))
      ensures Mirrored()
    {
      var ops := opBuffer;
      SetOpBuffer([]);
      if |ops| == 0 {
        SetLocalPendingChangeset(None);
        return;
      }
      var operations := ComposeOperations(ot, ops);
      SetLocalPendingChangeset(Some(LocalChangeset(id, revision, operations)));
    }

    method PushOpBuffer(operation: Operation<A>)
      modifies this`opBuffer, this`opBufferStorage
      ensures opBuffer == old(opBuffer) + [operation]
      ensures old(Mirrored()) ==> Mirrored()
    {
      SetOpBuffer(opBuffer + [operation]);
    }

    method ClearOpBuffer()
      modifies this`opBuffer, this`opBufferStorage
      ensures opBuffer == []
      ensures old(Mirrored()) ==> Mirrored()
    {
      SetOpBuffer([]);
    }

    method ClearLocalPendingChangeset()
      modifies this`localPendingChangeset, this`localPendingChangesetStorage
      ensures localPendingChangeset == None
      ensures old(Mirrored()) ==> Mirrored()
    {
      SetLocalPendingChangeset(None);
    }
  }
}
