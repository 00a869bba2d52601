/** The undo manager and the command manager that feeds it. */
module Commands {
  import opened Options
  import opened Changesets
  import opened Sequences
  import H = History
  import Sessions
  import Ot

  function Reverse<T>(s: seq<T>): seq<T> {
    if s == [] then [] else Reverse(s[1..]) + [s[0]]
  }

  lemma {:induction false} ReverseSnoc<T>(s: seq<T>, x: T)
    ensures Reverse(s + [x]) == [x] + Reverse(s)
  {
    if s == [] {
      assert [x][1..] == [];
    } else {
      assert (s + [x])[1..] == s[1..] + [x];
      ReverseSnoc(s[1..], x);
    }
  }

  method ReverseSeq<T>(s: seq<T>) returns (r: seq<T>)
    ensures r == Reverse(s)
  {
    r := [];
    for i := 0 to |s|
      invariant Reverse(s) == Reverse(s[i..]) + r
    {
      assert s[i..][1..] == s[i + 1..];
      r := [s[i]] + r;
    }
  }

  class UndoManager<S(!new), A> {
    const ot: Ot.Ot<S, A>
    var undoStack: seq<H.UndoCommand<A>>
    var redoStack: seq<H.UndoCommand<A>>

    constructor (ot: Ot.Ot<S, A>)
      ensures this.ot == ot && undoStack == [] && redoStack == []
    {
      this.ot := ot;
      undoStack, redoStack := [], [];
    }

    /** The stacks next to a given snapshot. */
    ghost function View(snapshot: S): H.History<S, A>
      reads this
    {
      H.History(snapshot, undoStack, redoStack)
    }

    method AddUndoStack(command: H.UndoCommand<A>, executeType: H.ExecuteType, ghost snapshot: S)
      modifies this
      ensures View(snapshot) == H.AddUndoStack(ot, old(View(snapshot)), command, executeType)
    {
      if command.cmd == "" {
        return;
      }
      var inverted := H.UndoCommand(command.cmd, Ot.Invert(ot, command.actions));
      if executeType == H.Undo {
        redoStack := redoStack + [inverted];
      } else {
        var deleteCount := |undoStack| - H.MAX_LENGTH + 1;
        if deleteCount > 0 {
          undoStack := undoStack[deleteCount..];
        }
        undoStack := undoStack + [inverted];
        if executeType == H.Execute {
          redoStack := [];
        }
      }
    }

    /** One round of the loop below: the top entry moves to the new stack, rebased. */
    lemma MoveTop(stack: seq<H.UndoCommand<A>>, remote: seq<A>, newStack: seq<H.UndoCommand<A>>)
      requires stack != [] && !H.OverLimit(|H.Last(stack).actions|, |remote|)
      ensures var (left, right) := Ot.TransformX(ot, H.Last(stack).actions, remote);
              H.TransformStack(ot, stack, remote) + Reverse(newStack) ==
              H.TransformStack(ot, H.Front(stack), right) + Reverse(newStack + [H.UndoCommand(H.Last(stack).cmd, left)])
    {
      var (left, right) := Ot.TransformX(ot, H.Last(stack).actions, remote);
      var rebased := H.UndoCommand(H.Last(stack).cmd, left);
      ReverseSnoc(newStack, rebased);
      Associates(H.TransformStack(ot, H.Front(stack), right), [rebased], Reverse(newStack));
    }

    /** Rebases a stack from the top down, stopping where it gets too expensive. */
    method TransformStack(stack: seq<H.UndoCommand<A>>, remote: seq<A>) returns (result: seq<H.UndoCommand<A>>)
      ensures result == H.TransformStack(ot, stack, remote)
    {
      var newStack: seq<H.UndoCommand<A>> := [];
      var remoteActions := remote;
      var i := |stack|;
      assert stack[..i] == stack;
      assert H.TransformStack(ot, stack, remote) + Reverse(newStack) == H.TransformStack(ot, stack, remote);
      while i > 0
        invariant 0 <= i <= |stack|
        invariant H.TransformStack(ot, stack, remote) ==
                  H.TransformStack(ot, stack[..i], remoteActions) + Reverse(newStack)
      {
        var entry := stack[i - 1];
        assert H.Last(stack[..i]) == entry && H.Front(stack[..i]) == stack[..i - 1];
        if H.OverLimit(|entry.actions|, |remoteActions|) {
          break;
        }
        MoveTop(stack[..i], remoteActions, newStack);
        var (left, right) := Ot.TransformX(ot, entry.actions, remoteActions);
        newStack := newStack + [H.UndoCommand(entry.cmd, left)];
        remoteActions := right;
        i := i - 1;
      }
      result := ReverseSeq(newStack);
    }

    method DoTransform(remoteActions: seq<A>, ghost snapshot: S)
      modifies this
      ensures View(snapshot) == H.TransformStacks(ot, old(View(snapshot)), remoteActions)
    {
      if |remoteActions| == 0 {
        return;
      }
      if |redoStack| > 0 {
        var stack := TransformStack(redoStack, remoteActions);
        redoStack := stack;
      }
      if |undoStack| > 0 {
        var stack := TransformStack(undoStack, remoteActions);
        undoStack := stack;
      }
    }

    method Undo(commandManager: CollaCommandManager<S, A>) returns (result: Option<Operation<A>>)
      requires commandManager.undoManager == this && commandManager.ot == ot
      modifies this, commandManager`snapshot
      ensures (commandManager.View(), result) ==
              Sessions.Undone(ot, commandManager.registry, old(commandManager.View()))
    {
      if |undoStack| == 0 {
        return None;
      }
      var undoAction := undoStack[|undoStack| - 1];
      undoStack := undoStack[..|undoStack| - 1];
      if undoAction.cmd in commandManager.registry {
        result := commandManager.ExecuteActions(undoAction, H.Undo);
        return;
      }
      return None;
    }

    method Redo(commandManager: CollaCommandManager<S, A>) returns (result: Option<Operation<A>>)
      requires commandManager.undoManager == this && commandManager.ot == ot
      modifies this, commandManager`snapshot
      ensures (commandManager.View(), result) ==
              Sessions.Redone(ot, commandManager.registry, old(commandManager.View()))
    {
      if |redoStack| == 0 {
        return None;
      }
      var redoAction := redoStack[|redoStack| - 1];
      redoStack := redoStack[..|redoStack| - 1];
      if redoAction.cmd in commandManager.registry {
        result := commandManager.ExecuteActions(redoAction, H.Redo);
        return;
      }
      return None;
    }
  }

  class CollaCommandManager<S(!new), A> {
    const ot: Ot.Ot<S, A>
    const registry: H.Registry
    const undoManager: UndoManager<S, A>
    var snapshot: S

    constructor (ot: Ot.Ot<S, A>, registry: H.Registry, undoManager: UndoManager<S, A>, snapshot: S)
      ensures this.ot == ot && this.registry == registry && this.undoManager == undoManager && this.snapshot == snapshot
    {
      this.ot, this.registry, this.undoManager, this.snapshot := ot, registry, undoManager, snapshot;
    }

    ghost function View(): H.History<S, A>
      reads this, undoManager
    {
      undoManager.View(snapshot)
    }

    /** Executes, undoes or redoes: records the inverse, applies the actions and
        returns the operation to be sent. */
    method ExecuteActions(command: H.UndoCommand<A>, executeType: H.ExecuteType) returns (result: Option<Operation<A>>)
      requires undoManager.ot == ot
      modifies this`snapshot, undoManager
      ensures (View(), result) == Sessions.Executed(ot, registry, old(View()), command, executeType)
    {
      if command.cmd !in registry {
        return None;
      }
      if executeType == H.Redo && !registry[command.cmd] {
        return None;
      }
      if executeType == H.Undo && !registry[command.cmd] {
        return None;
      }
      if |command.actions| == 0 {
        return None;
      }
      if registry[command.cmd] {
        undoManager.AddUndoStack(command, executeType, snapshot);
      }
      var next := Ot.Apply(ot, snapshot, command.actions);
      if next.Some? {
        snapshot := next.value;
      }
      var cmd := if executeType == H.Undo then "UNDO:" + command.cmd else command.cmd;
      return Some(Operation(cmd, command.actions, None));
    }
  }
}
