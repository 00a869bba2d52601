/** Undo and redo as functions on a history: the snapshot and two stacks of inverted
    commands (top last).  Commands.dfy implements them. */
module History {
  import opened Options
  import Ot

  datatype UndoCommand<A> = UndoCommand(cmd: string, actions: seq<A>)

  datatype ExecuteType = Execute | Undo | Redo

  datatype History<S(!new), A> = History(snapshot: S, undo: seq<UndoCommand<A>>, redo: seq<UndoCommand<A>>)

  const MAX_LENGTH := 50
  const TRANSFORM_SQUARE := 100000

  /** Registered commands, and whether each can be undone. */
  type Registry = map<string, bool>

  function Inverted<S(!new), A>(ot: Ot.Ot<S, A>, c: UndoCommand<A>): UndoCommand<A> {
    UndoCommand(c.cmd, Ot.Invert(ot, c.actions))
  }

  /** Drops the oldest entries so that one more fits. */
  function Trimmed<A>(stack: seq<UndoCommand<A>>): seq<UndoCommand<A>> {
    if |stack| >= MAX_LENGTH then stack[|stack| - MAX_LENGTH + 1..] else stack
  }

  function AddUndoStack<S(!new), A>(
    ot: Ot.Ot<S, A>, h: History<S, A>, c: UndoCommand<A>, t: ExecuteType): History<S, A>
  {
    if c.cmd == "" then h
    else if t == Undo then h.(redo := h.redo + [Inverted(ot, c)])
    else h.(undo := Trimmed(h.undo) + [Inverted(ot, c)], redo := if t == Execute then [] else h.redo)
  }

  /** Runs the actions of a command, an undo or a redo.  The flag is false for the
      early exits, which change nothing. */
  function ExecuteActions<S(!new), A>(
    ot: Ot.Ot<S, A>, reg: Registry, h: History<S, A>, c: UndoCommand<A>, t: ExecuteType)
    : (History<S, A>, bool)
  {
    if c.cmd !in reg then (h, false)
    else if t != Execute && !reg[c.cmd] then (h, false)
    else if c.actions == [] then (h, false)
    else
      var pushed := if reg[c.cmd] then AddUndoStack(ot, h, c, t) else h;
      var next := Ot.Apply(ot, h.snapshot, c.actions);
      (pushed.(snapshot := if next.Some? then next.value else h.snapshot), true)
  }

  function Last<T>(s: seq<T>): T requires s != [] { s[|s| - 1] }
  function Front<T>(s: seq<T>): seq<T> requires s != [] { s[..|s| - 1] }

  /** The popped entry is gone even when executing it comes to nothing. */
  function UndoStep<S(!new), A>(ot: Ot.Ot<S, A>, reg: Registry, h: History<S, A>): History<S, A> {
    if h.undo == [] then h
    else ExecuteActions(ot, reg, h.(undo := Front(h.undo)), Last(h.undo), Undo).0
  }

  function RedoStep<S(!new), A>(ot: Ot.Ot<S, A>, reg: Registry, h: History<S, A>): History<S, A> {
    if h.redo == [] then h
    else ExecuteActions(ot, reg, h.(redo := Front(h.redo)), Last(h.redo), Redo).0
  }

  predicate OverLimit(stackActionLen: nat, remoteActionLen: nat) {
    stackActionLen * remoteActionLen > TRANSFORM_SQUARE
  }

  /** Rebases a stack past remote actions from the top down; from the first entry on
      that would cost too much, everything below is given up. */
  function TransformStack<S(!new), A>(ot: Ot.Ot<S, A>, stack: seq<UndoCommand<A>>, remote: seq<A>)
    : (r: seq<UndoCommand<A>>)
    ensures |r| <= |stack|
  {
    if stack == [] || OverLimit(|Last(stack).actions|, |remote|) then []
    else
      var (left, right) := Ot.TransformX(ot, Last(stack).actions, remote);
      TransformStack(ot, Front(stack), right) + [UndoCommand(Last(stack).cmd, left)]
  }

  function TransformStacks<S(!new), A>(ot: Ot.Ot<S, A>, h: History<S, A>, remote: seq<A>): History<S, A> {
    if remote == [] then h
    else h.(redo := TransformStack(ot, h.redo, remote), undo := TransformStack(ot, h.undo, remote))
  }

  /** A remote edit with nothing pending: stacks rebased, snapshot changed. */
  function RemoteStep<S(!new), A>(ot: Ot.Ot<S, A>, h: History<S, A>, remote: seq<A>): History<S, A> {
    var next := Ot.Apply(ot, h.snapshot, remote);
    TransformStacks(ot, h, remote).(snapshot := if next.Some? then next.value else h.snapshot)
  }

  // ---------------------------------------------------------------- the limit

  function Total<S(!new), A>(h: History<S, A>): nat {
    |h.undo| + |h.redo|
  }

  /** The command is put on the undo stack. */
  predicate Recorded<A>(reg: Registry, c: UndoCommand<A>) {
    c.cmd in reg && reg[c.cmd] && c.cmd != "" && c.actions != []
  }

  /** Only a fresh command evicts an entry, and then the oldest one, exactly when the undo
      stack is full. */
  lemma ExecuteEvictsIff<S(!new), A>(ot: Ot.Ot<S, A>, reg: Registry, h: History<S, A>, c: UndoCommand<A>)
    requires Total(h) <= 50
    ensures var h' := ExecuteActions(ot, reg, h, c, Execute).0;
            && Total(h') <= 50
            && (!Recorded(reg, c) ==> h'.undo == h.undo && h'.redo == h.redo)
            && (Recorded(reg, c) ==>
                  && h'.redo == []
                  && h'.undo == (if |h.undo| == 50 then h.undo[1..] else h.undo) + [Inverted(ot, c)])
  {
  }

  /** An undo or a redo takes its entry from the top of one stack and adds at most one to the
      other; all other entries stay. */
  lemma KeysEvictNothing<S(!new), A>(ot: Ot.Ot<S, A>, reg: Registry, h: History<S, A>)
    requires Total(h) <= 50
    ensures var u := UndoStep(ot, reg, h);
            && Total(u) <= Total(h) && h.redo <= u.redo
            && u.undo == if h.undo == [] then [] else Front(h.undo)
    ensures var r := RedoStep(ot, reg, h);
            && Total(r) <= Total(h) && h.undo <= r.undo
            && r.redo == if h.redo == [] then [] else Front(h.redo)
  {
  }

  // ---------------------------------------------------------------- replaying a stack

  /** The document after the top k entries of a stack have been run in turn. */
  function After<S(!new), A>(ot: Ot.Ot<S, A>, s: S, stack: seq<UndoCommand<A>>, k: nat): Option<S>
    requires k <= |stack|
    decreases k
  {
    if k == 0 then Some(s)
    else
      var next := Ot.Apply(ot, s, Last(stack).actions);
      if next.None? then None else After(ot, next.value, Front(stack), k - 1)
  }

  /** Every entry fits the document at which it would be run. */
  ghost predicate Replays<S(!new), A>(ot: Ot.Ot<S, A>, s: S, stack: seq<UndoCommand<A>>) {
    After(ot, s, stack, |stack|).Some?
  }

  /** What is left of remote actions after passing the top k entries of a stack. */
  function Residual<S(!new), A>(ot: Ot.Ot<S, A>, stack: seq<UndoCommand<A>>, remote: seq<A>, k: nat): seq<A>
    requires k <= |stack|
    decreases k
  {
    if k == 0 then remote
    else Residual(ot, Front(stack), Ot.TransformX(ot, Last(stack).actions, remote).1, k - 1)
  }

  lemma {:induction false} ReplaysTop<S(!new), A>(ot: Ot.Ot<S, A>, s: S, stack: seq<UndoCommand<A>>, k: nat)
    requires k <= |stack| && Replays(ot, s, stack)
    ensures After(ot, s, stack, k).Some?
    decreases k
  {
    if k > 0 {
      ReplaysTop(ot, Ot.Apply(ot, s, Last(stack).actions).value, Front(stack), k - 1);
    }
  }

  /** Replaying looks at the top entries only, so dropping the oldest does not matter. */
  lemma {:induction false} AfterSuffix<S(!new), A>(ot: Ot.Ot<S, A>, s: S, stack: seq<UndoCommand<A>>, d: nat, k: nat)
    requires d + k <= |stack|
    ensures After(ot, s, stack[d..], k) == After(ot, s, stack, k)
    decreases k
  {
    if k > 0 {
      var next := Ot.Apply(ot, s, Last(stack).actions);
      assert Last(stack[d..]) == Last(stack) && Front(stack[d..]) == Front(stack)[d..];
      if next.Some? {
        AfterSuffix(ot, next.value, Front(stack), d, k - 1);
      }
    }
  }

  /** The top entry of a rebased stack, and what is below it. */
  lemma RebasedTop<S(!new), A>(ot: Ot.Ot<S, A>, stack: seq<UndoCommand<A>>, remote: seq<A>)
    requires stack != [] && !OverLimit(|Last(stack).actions|, |remote|)
    ensures var (left, right) := Ot.TransformX(ot, Last(stack).actions, remote);
            var rebased := TransformStack(ot, stack, remote);
            && rebased != []
            && Last(rebased) == UndoCommand(Last(stack).cmd, left)
            && Front(rebased) == TransformStack(ot, Front(stack), right)
  {
  }

  /** Undoing k rebased entries starts with the rebased top one. */
  lemma AfterRebased<S(!new), A>(ot: Ot.Ot<S, A>, t: S, stack: seq<UndoCommand<A>>, remote: seq<A>, k: nat)
    requires 0 < k <= |TransformStack(ot, stack, remote)|
    ensures var (left, right) := Ot.TransformX(ot, Last(stack).actions, remote);
            var next := Ot.Apply(ot, t, left);
            && k - 1 <= |TransformStack(ot, Front(stack), right)|
            && After(ot, t, TransformStack(ot, stack, remote), k) ==
               if next.None? then None else After(ot, next.value, TransformStack(ot, Front(stack), right), k - 1)
  {
    RebasedTop(ot, stack, remote);
  }

  /** Undoing k rebased entries after the remote actions reaches the document that
      undoing the k original entries and then applying what is left of the remote
      actions reaches; for every k up to the number of kept entries. */
  lemma {:induction false} TransformStackCommutes<S(!new), A(!new)>(
    ot: Ot.Ot<S, A>, s: S, stack: seq<UndoCommand<A>>, remote: seq<A>, k: nat)
    requires Ot.Laws(ot) && Replays(ot, s, stack) && Ot.Apply(ot, s, remote).Some?
    requires k <= |TransformStack(ot, stack, remote)|
    ensures After(ot, s, stack, k).Some?
    ensures Ot.Meet(After(ot, Ot.Apply(ot, s, remote).value, TransformStack(ot, stack, remote), k),
                    Ot.Apply(ot, After(ot, s, stack, k).value, Residual(ot, stack, remote, k)))
    decreases k
  {
    if k > 0 {
      var top, right := Last(stack).actions, Ot.TransformX(ot, Last(stack).actions, remote).1;
      AfterRebased(ot, Ot.Apply(ot, s, remote).value, stack, remote, k);
      Ot.TransformXDiamond(ot, s, top, remote);
      TransformStackCommutes(ot, Ot.Apply(ot, s, top).value, Front(stack), right, k - 1);
    }
  }

  /** Two documents that a stack leads to the same one are the same. */
  lemma {:induction false} AfterInjective<S(!new), A(!new)>(
    ot: Ot.Ot<S, A>, s: S, t: S, stack: seq<UndoCommand<A>>, k: nat)
    requires Ot.Laws(ot) && k <= |stack|
    requires After(ot, s, stack, k).Some? && After(ot, s, stack, k) == After(ot, t, stack, k)
    ensures s == t
    decreases k
  {
    if k > 0 {
      var actions := Last(stack).actions;
      AfterInjective(ot, Ot.Apply(ot, s, actions).value, Ot.Apply(ot, t, actions).value, Front(stack), k - 1);
      Ot.SameStart(ot, s, t, actions);
    }
  }

  /** A stack is rebased on remote actions while the snapshot changes to s1 in some other
      way.  Undoing k rebased entries from s1 agrees with undoing k original ones and
      then applying the residual exactly when s1 is what the remote actions make of s. */
  lemma RebaseCommutesIff<S(!new), A(!new)>(
    ot: Ot.Ot<S, A>, s: S, s1: S, stack: seq<UndoCommand<A>>, remote: seq<A>, k: nat)
    requires Ot.Laws(ot) && Replays(ot, s, stack) && Ot.Apply(ot, s, remote).Some?
    requires k <= |TransformStack(ot, stack, remote)|
    ensures After(ot, s, stack, k).Some?
    ensures Ot.Meet(After(ot, s1, TransformStack(ot, stack, remote), k),
                    Ot.Apply(ot, After(ot, s, stack, k).value, Residual(ot, stack, remote, k)))
            <==> Ot.Apply(ot, s, remote) == Some(s1)
  {
    TransformStackCommutes(ot, s, stack, remote, k);
    var kept, t := TransformStack(ot, stack, remote), Ot.Apply(ot, s, remote).value;
    if After(ot, s1, kept, k) == After(ot, t, kept, k) {
      AfterInjective(ot, t, s1, kept, k);
    }
  }

  lemma {:induction false} RebaseOnNothing<S(!new), A>(ot: Ot.Ot<S, A>, stack: seq<UndoCommand<A>>)
    ensures TransformStack(ot, stack, []) == stack
  {
    if stack != [] {
      RebaseOnNothing(ot, Front(stack));
      var nothing: seq<A> := [];
      assert Ot.TransformX(ot, Last(stack).actions, nothing) == (Last(stack).actions, nothing);
      assert !OverLimit(|Last(stack).actions|, 0);
      RebasedTop(ot, stack, nothing);
      var rebased := TransformStack(ot, stack, nothing);
      assert rebased == Front(rebased) + [Last(rebased)] && stack == Front(stack) + [Last(stack)];
    }
  }

  /** Replaying k entries after a command that cannot be undone leads where it led before,
      from either stack, exactly when the command did not change the snapshot. */
  lemma NonUndoableIff<S(!new), A(!new)>(
    ot: Ot.Ot<S, A>, reg: Registry, h: History<S, A>, c: UndoCommand<A>, k: nat, j: nat)
    requires Ot.Laws(ot) && Replays(ot, h.snapshot, h.undo) && Replays(ot, h.snapshot, h.redo)
    requires c.cmd in reg && !reg[c.cmd] && k <= |h.undo| && j <= |h.redo|
    ensures var h' := ExecuteActions(ot, reg, h, c, Execute).0;
            var next := Ot.Apply(ot, h.snapshot, c.actions);
            var noEffect := next.Some? ==> next.value == h.snapshot;
            && h'.undo == h.undo && h'.redo == h.redo
            && (After(ot, h'.snapshot, h'.undo, k) == After(ot, h.snapshot, h.undo, k) <==> noEffect)
            && (After(ot, h'.snapshot, h'.redo, j) == After(ot, h.snapshot, h.redo, j) <==> noEffect)
  {
    var h' := ExecuteActions(ot, reg, h, c, Execute).0;
    ReplaysTop(ot, h.snapshot, h.undo, k);
    ReplaysTop(ot, h.snapshot, h.redo, j);
    if After(ot, h'.snapshot, h.undo, k) == After(ot, h.snapshot, h.undo, k) {
      AfterInjective(ot, h.snapshot, h'.snapshot, h.undo, k);
    }
    if After(ot, h'.snapshot, h.redo, j) == After(ot, h.snapshot, h.redo, j) {
      AfterInjective(ot, h.snapshot, h'.snapshot, h.redo, j);
    }
  }

  /** The stacks keep the inverse of a command's own actions, but what is applied are those
      actions after the format and integrity checks.  The entry takes the snapshot back
      exactly when the checked actions have the effect of the original ones. */
  lemma CheckedUndoneIff<S(!new), A(!new)>(ot: Ot.Ot<S, A>, s: S, actions: seq<A>, checkedActions: seq<A>)
    requires Ot.Laws(ot) && Ot.Apply(ot, s, actions).Some? && Ot.Apply(ot, s, checkedActions).Some?
    ensures Ot.Apply(ot, Ot.Apply(ot, s, checkedActions).value, Ot.Invert(ot, actions)) == Some(s) <==>
            Ot.Apply(ot, s, checkedActions) == Ot.Apply(ot, s, actions)
  {
    var done, meant := Ot.Apply(ot, s, checkedActions).value, Ot.Apply(ot, s, actions).value;
    Ot.InvertUndoes(ot, s, actions);
    if Ot.Apply(ot, done, Ot.Invert(ot, actions)) == Some(s) {
      Ot.SameStart(ot, done, meant, Ot.Invert(ot, actions));
    }
  }

  // ---------------------------------------------------------------- the invariant

  ghost predicate Known<A>(reg: Registry, stack: seq<UndoCommand<A>>) {
    forall i :: 0 <= i < |stack| ==> stack[i].cmd in reg && reg[stack[i].cmd] && stack[i].cmd != ""
  }

  /** Both stacks replay from the snapshot and together stay within the limit. */
  ghost predicate Ok<S(!new), A>(ot: Ot.Ot<S, A>, reg: Registry, h: History<S, A>) {
    && Replays(ot, h.snapshot, h.undo) && Replays(ot, h.snapshot, h.redo)
    && Known(reg, h.undo) && Known(reg, h.redo)
    && |h.undo| + |h.redo| <= MAX_LENGTH
  }

  lemma PushReplays<S(!new), A(!new)>(ot: Ot.Ot<S, A>, s: S, stack: seq<UndoCommand<A>>, c: UndoCommand<A>)
    requires Ot.Laws(ot) && Replays(ot, s, stack) && Ot.Apply(ot, s, c.actions).Some?
    ensures Replays(ot, Ot.Apply(ot, s, c.actions).value, stack + [Inverted(ot, c)])
  {
    Ot.InvertUndoes(ot, s, c.actions);
    assert Front(stack + [Inverted(ot, c)]) == stack;
  }

  lemma TrimReplays<S(!new), A>(ot: Ot.Ot<S, A>, s: S, stack: seq<UndoCommand<A>>)
    requires Replays(ot, s, stack)
    ensures Replays(ot, s, Trimmed(stack))
  {
    if |stack| >= MAX_LENGTH {
      var d := |stack| - MAX_LENGTH + 1;
      AfterSuffix(ot, s, stack, d, |stack| - d);
      ReplaysTop(ot, s, stack, |stack| - d);
    }
  }

  lemma PopReplays<S(!new), A>(ot: Ot.Ot<S, A>, s: S, stack: seq<UndoCommand<A>>)
    requires stack != [] && Replays(ot, s, stack)
    ensures Ot.Apply(ot, s, Last(stack).actions).Some?
    ensures Replays(ot, Ot.Apply(ot, s, Last(stack).actions).value, Front(stack))
  {
  }

  /** A fresh undoable command keeps the history sound and forgets the redo stack. */
  lemma ExecuteOk<S(!new), A(!new)>(ot: Ot.Ot<S, A>, reg: Registry, h: History<S, A>, c: UndoCommand<A>)
    requires Ot.Laws(ot) && Ok(ot, reg, h)
    requires c.cmd in reg && reg[c.cmd] && c.cmd != "" && Ot.Apply(ot, h.snapshot, c.actions).Some?
    ensures Ok(ot, reg, ExecuteActions(ot, reg, h, c, Execute).0)
  {
    TrimReplays(ot, h.snapshot, h.undo);
    PushReplays(ot, h.snapshot, Trimmed(h.undo), c);
  }

  lemma UndoOk<S(!new), A(!new)>(ot: Ot.Ot<S, A>, reg: Registry, h: History<S, A>)
    requires Ot.Laws(ot) && Ok(ot, reg, h)
    ensures Ok(ot, reg, UndoStep(ot, reg, h))
    ensures h.undo != [] ==>
              Some(UndoStep(ot, reg, h).snapshot) == Ot.Apply(ot, h.snapshot, Last(h.undo).actions)
  {
    if h.undo != [] {
      PopReplays(ot, h.snapshot, h.undo);
      PushReplays(ot, h.snapshot, h.redo, Last(h.undo));
    }
  }

  /** Redoing never evicts: the undo stack grows by the redone entry and keeps all
      others. */
  lemma RedoOk<S(!new), A(!new)>(ot: Ot.Ot<S, A>, reg: Registry, h: History<S, A>)
    requires Ot.Laws(ot) && Ok(ot, reg, h)
    ensures Ok(ot, reg, RedoStep(ot, reg, h))
    ensures h.redo != [] && Last(h.redo).actions != [] ==>
              RedoStep(ot, reg, h).undo == h.undo + [Inverted(ot, Last(h.redo))]
  {
    if h.redo != [] {
      PopReplays(ot, h.snapshot, h.redo);
      PushReplays(ot, h.snapshot, h.undo, Last(h.redo));
    }
  }

  /** The kept entries are the commands from the top of the stack. */
  lemma {:induction false} KeptFromTop<S(!new), A>(ot: Ot.Ot<S, A>, stack: seq<UndoCommand<A>>, remote: seq<A>, i: nat)
    requires i < |TransformStack(ot, stack, remote)|
    ensures TransformStack(ot, stack, remote)[i].cmd ==
            stack[|stack| - |TransformStack(ot, stack, remote)| + i].cmd
  {
    var below, right := Front(stack), Ot.TransformX(ot, Last(stack).actions, remote).1;
    if i < |TransformStack(ot, below, right)| {
      KeptFromTop(ot, below, right, i);
    }
  }

  /** Entry j from the top can be rebased within the limit. */
  predicate Affordable<S(!new), A>(ot: Ot.Ot<S, A>, stack: seq<UndoCommand<A>>, remote: seq<A>, j: nat)
    requires j < |stack|
  {
    |stack[|stack| - 1 - j].actions| * |Residual(ot, stack, remote, j)| <= 100000
  }

  /** At least the top k entries are kept exactly when each of them is affordable: nothing
      else is dropped. */
  lemma {:induction false} KeptIff<S(!new), A>(ot: Ot.Ot<S, A>, stack: seq<UndoCommand<A>>, remote: seq<A>, k: nat)
    requires k <= |stack|
    ensures k <= |TransformStack(ot, stack, remote)| <==>
            forall j :: 0 <= j < k ==> Affordable(ot, stack, remote, j)
    decreases k
  {
    if k > 0 {
      var below, right := Front(stack), Ot.TransformX(ot, Last(stack).actions, remote).1;
      KeptIff(ot, below, right, k - 1);
      assert Residual(ot, stack, remote, 0) == remote;
      assert Affordable(ot, stack, remote, 0) <==> !OverLimit(|Last(stack).actions|, |remote|);
      forall j | 0 <= j < k - 1
        ensures Affordable(ot, stack, remote, j + 1) <==> Affordable(ot, below, right, j)
      {
        assert Residual(ot, stack, remote, j + 1) == Residual(ot, below, right, j);
        assert stack[|stack| - 1 - (j + 1)] == below[|below| - 1 - j];
      }
      if forall j :: 0 <= j < k ==> Affordable(ot, stack, remote, j) {
        forall j | 0 <= j < k - 1 ensures Affordable(ot, below, right, j) {
          assert Affordable(ot, stack, remote, j + 1);
        }
      }
      if Affordable(ot, stack, remote, 0) && forall j :: 0 <= j < k - 1 ==> Affordable(ot, below, right, j) {
        forall j | 0 <= j < k ensures Affordable(ot, stack, remote, j) {
          if j > 0 {
            assert Affordable(ot, below, right, j - 1);
          }
        }
      }
    }
  }

  lemma KeptKnown<S(!new), A>(ot: Ot.Ot<S, A>, reg: Registry, stack: seq<UndoCommand<A>>, remote: seq<A>)
    requires Known(reg, stack)
    ensures Known(reg, TransformStack(ot, stack, remote))
  {
    forall i | 0 <= i < |TransformStack(ot, stack, remote)|
      ensures TransformStack(ot, stack, remote)[i].cmd in reg
      ensures reg[TransformStack(ot, stack, remote)[i].cmd] && TransformStack(ot, stack, remote)[i].cmd != ""
    {
      KeptFromTop(ot, stack, remote, i);
    }
  }

  lemma RemoteOk<S(!new), A(!new)>(ot: Ot.Ot<S, A>, reg: Registry, h: History<S, A>, remote: seq<A>)
    requires Ot.Laws(ot) && Ok(ot, reg, h) && Ot.Apply(ot, h.snapshot, remote).Some?
    ensures Ok(ot, reg, RemoteStep(ot, h, remote))
  {
    TransformStackCommutes(ot, h.snapshot, h.undo, remote, |TransformStack(ot, h.undo, remote)|);
    TransformStackCommutes(ot, h.snapshot, h.redo, remote, |TransformStack(ot, h.redo, remote)|);
    KeptKnown(ot, reg, h.undo, remote);
    KeptKnown(ot, reg, h.redo, remote);
  }

  // ---------------------------------------------------------------- all runs

  datatype Event<A> = Command(c: UndoCommand<A>) | UndoKey | RedoKey | RemoteEdit(actions: seq<A>)

  function Step<S(!new), A>(ot: Ot.Ot<S, A>, reg: Registry, h: History<S, A>, ev: Event<A>): History<S, A> {
    match ev
    case Command(c) => ExecuteActions(ot, reg, h, c, Execute).0
    case UndoKey => UndoStep(ot, reg, h)
    case RedoKey => RedoStep(ot, reg, h)
    case RemoteEdit(actions) => RemoteStep(ot, h, actions)
  }

  function Run<S(!new), A>(ot: Ot.Ot<S, A>, reg: Registry, h: History<S, A>, events: seq<Event<A>>): History<S, A>
    decreases |events|
  {
    if events == [] then h else Run(ot, reg, Step(ot, reg, h, events[0]), events[1..])
  }

  /** In every run, whatever fits or can be undone, the two stacks hold at most 50 entries
      together. */
  lemma {:induction false} RunWithinLimit<S(!new), A>(
    ot: Ot.Ot<S, A>, reg: Registry, h: History<S, A>, events: seq<Event<A>>)
    requires Total(h) <= 50
    ensures Total(Run(ot, reg, h, events)) <= 50
    decreases |events|
  {
    if events != [] {
      match events[0] {
        case Command(c) => ExecuteEvictsIff(ot, reg, h, c);
        case UndoKey => KeysEvictNothing(ot, reg, h);
        case RedoKey => KeysEvictNothing(ot, reg, h);
        case RemoteEdit(actions) =>
      }
      RunWithinLimit(ot, reg, Step(ot, reg, h, events[0]), events[1..]);
    }
  }

  /** Commands and remote edits fit the snapshot, and commands that change it can be
      undone. */
  ghost predicate Fits<S(!new), A>(ot: Ot.Ot<S, A>, reg: Registry, h: History<S, A>, ev: Event<A>) {
    match ev
    case Command(c) =>
      c.cmd in reg ==>
        && c.cmd != "" && Ot.Apply(ot, h.snapshot, c.actions).Some?
        && (reg[c.cmd] || Ot.Apply(ot, h.snapshot, c.actions) == Some(h.snapshot))
    case RemoteEdit(actions) => Ot.Apply(ot, h.snapshot, actions).Some?
    case _ => true
  }

  ghost predicate FittingRun<S(!new), A>(ot: Ot.Ot<S, A>, reg: Registry, h: History<S, A>, events: seq<Event<A>>)
    decreases |events|
  {
    events == [] || (Fits(ot, reg, h, events[0]) && FittingRun(ot, reg, Step(ot, reg, h, events[0]), events[1..]))
  }

  lemma StepOk<S(!new), A(!new)>(ot: Ot.Ot<S, A>, reg: Registry, h: History<S, A>, ev: Event<A>)
    requires Ot.Laws(ot) && Ok(ot, reg, h) && Fits(ot, reg, h, ev)
    ensures Ok(ot, reg, Step(ot, reg, h, ev))
  {
    match ev {
      case Command(c) => if c.cmd in reg && reg[c.cmd] { ExecuteOk(ot, reg, h, c); }
      case UndoKey => UndoOk(ot, reg, h);
      case RedoKey => RedoOk(ot, reg, h);
      case RemoteEdit(actions) => RemoteOk(ot, reg, h, actions);
    }
  }

  /** In every fitting run both stacks replay from the current snapshot, so each entry is valid
      where it would be applied. */
  lemma {:induction false} RunOk<S(!new), A(!new)>(
    ot: Ot.Ot<S, A>, reg: Registry, h: History<S, A>, events: seq<Event<A>>)
    requires Ot.Laws(ot) && Ok(ot, reg, h) && FittingRun(ot, reg, h, events)
    ensures Ok(ot, reg, Run(ot, reg, h, events))
    decreases |events|
  {
    if events != [] {
      StepOk(ot, reg, h, events[0]);
      RunOk(ot, reg, Step(ot, reg, h, events[0]), events[1..]);
    }
  }

  lemma EmptyOk<S(!new), A>(ot: Ot.Ot<S, A>, reg: Registry, s: S)
    ensures Ok(ot, reg, History(s, [], []))
  {
  }

  // ---------------------------------------------------------------- undo k, redo k

  function UndoN<S(!new), A>(ot: Ot.Ot<S, A>, reg: Registry, h: History<S, A>, k: nat): History<S, A>
    decreases k
  {
    if k == 0 then h else UndoN(ot, reg, UndoStep(ot, reg, h), k - 1)
  }

  function RedoN<S(!new), A>(ot: Ot.Ot<S, A>, reg: Registry, h: History<S, A>, k: nat): History<S, A>
    decreases k
  {
    if k == 0 then h else RedoN(ot, reg, RedoStep(ot, reg, h), k - 1)
  }

  /** k undos walk down the undo stack. */
  lemma {:induction false} UndoNIsAfter<S(!new), A(!new)>(ot: Ot.Ot<S, A>, reg: Registry, h: History<S, A>, k: nat)
    requires Ot.Laws(ot) && Ok(ot, reg, h) && k <= |h.undo|
    ensures Ok(ot, reg, UndoN(ot, reg, h, k))
    ensures Some(UndoN(ot, reg, h, k).snapshot) == After(ot, h.snapshot, h.undo, k)
    ensures UndoN(ot, reg, h, k).undo == h.undo[..|h.undo| - k]
    decreases k
  {
    if k > 0 {
      UndoOk(ot, reg, h);
      var h1 := UndoStep(ot, reg, h);
      assert h1.undo == Front(h.undo);
      UndoNIsAfter(ot, reg, h1, k - 1);
      assert Front(h.undo)[..|h.undo| - k] == h.undo[..|h.undo| - k];
    }
  }

  lemma {:induction false} UndoNSplit<S(!new), A>(ot: Ot.Ot<S, A>, reg: Registry, h: History<S, A>, k: nat)
    ensures UndoN(ot, reg, h, k + 1) == UndoStep(ot, reg, UndoN(ot, reg, h, k))
    decreases k
  {
    if k > 0 {
      UndoNSplit(ot, reg, UndoStep(ot, reg, h), k - 1);
    }
  }

  /** An undo followed by a redo is no change at all, stacks included. */
  lemma RedoUndoesUndo<S(!new), A(!new)>(ot: Ot.Ot<S, A>, reg: Registry, h: History<S, A>)
    requires Ot.Laws(ot) && Ok(ot, reg, h) && h.undo != [] && Last(h.undo).actions != []
    ensures RedoStep(ot, reg, UndoStep(ot, reg, h)) == h
  {
    var c := Last(h.undo);
    var h1 := UndoStep(ot, reg, h);
    UndoOk(ot, reg, h);
    assert h1.redo == h.redo + [Inverted(ot, c)];
    assert Front(h1.redo) == h.redo && Last(h1.redo) == Inverted(ot, c);
    Ot.InvertUndoes(ot, h.snapshot, c.actions);
    Ot.InvertInvolution(ot, c.actions);
    Ot.InvertLength(ot, c.actions);
    assert Inverted(ot, Inverted(ot, c)) == c;
    assert h.undo == Front(h.undo) + [c];
  }

  /** Entries that a key press would run, among the top k. */
  predicate AllRun<A>(stack: seq<UndoCommand<A>>, k: nat)
    requires k <= |stack|
  {
    forall i :: |stack| - k <= i < |stack| ==> stack[i].actions != []
  }

  lemma {:induction false} RedoNBack<S(!new), A(!new)>(ot: Ot.Ot<S, A>, reg: Registry, h: History<S, A>, k: nat)
    requires Ot.Laws(ot) && Ok(ot, reg, h) && k <= |h.undo| && AllRun(h.undo, k)
    ensures RedoN(ot, reg, UndoN(ot, reg, h, k), k) == h
    decreases k
  {
    if k > 0 {
      UndoNIsAfter(ot, reg, h, k - 1);
      var h1 := UndoN(ot, reg, h, k - 1);
      assert Last(h1.undo) == h.undo[|h.undo| - k];
      UndoNSplit(ot, reg, h, k - 1);
      RedoUndoesUndo(ot, reg, h1);
      RedoNBack(ot, reg, h, k - 1);
    }
  }

  lemma {:induction false} RedoNShrinks<S(!new), A>(ot: Ot.Ot<S, A>, reg: Registry, h: History<S, A>, k: nat)
    ensures Total(RedoN(ot, reg, h, k)) <= Total(h)
    decreases k
  {
    if k > 0 {
      RedoNShrinks(ot, reg, RedoStep(ot, reg, h), k - 1);
    }
  }

  /** An undo moves its entry to the other stack, or loses it when it has become empty. */
  lemma UndoTotal<S(!new), A(!new)>(ot: Ot.Ot<S, A>, reg: Registry, h: History<S, A>)
    requires Ok(ot, reg, h) && h.undo != []
    ensures Total(UndoStep(ot, reg, h)) == Total(h) - (if Last(h.undo).actions == [] then 1 else 0)
  {
  }

  /** Undoing loses an entry for good exactly where its actions have become empty. */
  lemma {:induction false} UndoNShrinks<S(!new), A(!new)>(ot: Ot.Ot<S, A>, reg: Registry, h: History<S, A>, k: nat)
    requires Ot.Laws(ot) && Ok(ot, reg, h) && k <= |h.undo|
    ensures Total(UndoN(ot, reg, h, k)) <= Total(h)
    ensures !AllRun(h.undo, k) ==> Total(UndoN(ot, reg, h, k)) < Total(h)
    decreases k
  {
    if k > 0 {
      UndoNIsAfter(ot, reg, h, k - 1);
      UndoNShrinks(ot, reg, h, k - 1);
      UndoNSplit(ot, reg, h, k - 1);
      var h1 := UndoN(ot, reg, h, k - 1);
      assert Last(h1.undo) == h.undo[|h.undo| - k];
      UndoTotal(ot, reg, h1);
    }
  }

  /** k undos and then k redos restore the history, snapshot and both stacks, exactly
      when none of the k entries has been rebased to nothing. */
  lemma UndoRedoRoundTrip<S(!new), A(!new)>(ot: Ot.Ot<S, A>, reg: Registry, h: History<S, A>, k: nat)
    requires Ot.Laws(ot) && Ok(ot, reg, h) && k <= |h.undo|
    ensures RedoN(ot, reg, UndoN(ot, reg, h, k), k) == h <==> AllRun(h.undo, k)
  {
    if AllRun(h.undo, k) {
      RedoNBack(ot, reg, h, k);
    } else {
      UndoNShrinks(ot, reg, h, k);
      RedoNShrinks(ot, reg, UndoN(ot, reg, h, k), k);
    }
  }

  // ---------------------------------------------------------------- undoing commands

  function ExecuteAll<S(!new), A>(
    ot: Ot.Ot<S, A>, reg: Registry, h: History<S, A>, cs: seq<UndoCommand<A>>): History<S, A>
    decreases |cs|
  {
    if cs == [] then h else ExecuteAll(ot, reg, ExecuteActions(ot, reg, h, cs[0], Execute).0, cs[1..])
  }

  /** Undoable, non-empty commands that fit one after the other. */
  predicate AllFit<S(!new), A>(ot: Ot.Ot<S, A>, reg: Registry, s: S, cs: seq<UndoCommand<A>>)
    decreases |cs|
  {
    cs == [] ||
    (&& cs[0].cmd in reg && reg[cs[0].cmd] && cs[0].cmd != "" && cs[0].actions != []
     && Ot.Apply(ot, s, cs[0].actions).Some?
     && AllFit(ot, reg, Ot.Apply(ot, s, cs[0].actions).value, cs[1..]))
  }

  lemma ExecutedHistory<S(!new), A>(ot: Ot.Ot<S, A>, reg: Registry, h: History<S, A>, c: UndoCommand<A>)
    requires c.cmd in reg && reg[c.cmd] && c.cmd != "" && c.actions != [] && Ot.Apply(ot, h.snapshot, c.actions).Some?
    ensures ExecuteActions(ot, reg, h, c, Execute).0 ==
            History(Ot.Apply(ot, h.snapshot, c.actions).value, Trimmed(h.undo) + [Inverted(ot, c)], [])
  {
  }

  /** A new entry pushes down the one d below the top, unless the limit drops that. */
  lemma PushedDown<A>(stack: seq<UndoCommand<A>>, entry: UndoCommand<A>, d: nat)
    requires 1 <= d <= |stack| && d < MAX_LENGTH
    ensures var pushed := Trimmed(stack) + [entry];
            |pushed| >= d + 1 && pushed[|pushed| - (d + 1)] == stack[|stack| - d]
  {
  }

  /** The undo stack below a run of commands is what it was, but for what the limit
      drops from the bottom, and replaying the commands' entries leads back. */
  lemma {:induction false} ExecuteAllStacks<S(!new), A(!new)>(
    ot: Ot.Ot<S, A>, reg: Registry, h: History<S, A>, cs: seq<UndoCommand<A>>)
    requires Ot.Laws(ot) && Ok(ot, reg, h) && AllFit(ot, reg, h.snapshot, cs) && |cs| <= MAX_LENGTH
    ensures var h' := ExecuteAll(ot, reg, h, cs);
            && Ok(ot, reg, h')
            && |h'.undo| >= |cs|
            && After(ot, h'.snapshot, h'.undo, |cs|) == Some(h.snapshot)
    decreases |cs|
  {
    if cs != [] {
      var h1 := ExecuteActions(ot, reg, h, cs[0], Execute).0;
      ExecuteOk(ot, reg, h, cs[0]);
      ExecutedHistory(ot, reg, h, cs[0]);
      ExecuteAllStacks(ot, reg, h1, cs[1..]);
      ExecuteAllTop(ot, reg, h1, cs[1..], 1);
      BackOverOne(ot, h.snapshot, h1.snapshot, cs[0], ExecuteAll(ot, reg, h1, cs[1..]), |cs| - 1);
    }
  }

  /** Where k entries lead back to s1, the entry below them leads on to s. */
  lemma BackOverOne<S(!new), A(!new)>(
    ot: Ot.Ot<S, A>, s: S, s1: S, c: UndoCommand<A>, h: History<S, A>, k: nat)
    requires Ot.Laws(ot) && Ot.Apply(ot, s, c.actions) == Some(s1)
    requires k < |h.undo| && h.undo[|h.undo| - k - 1] == Inverted(ot, c)
    requires After(ot, h.snapshot, h.undo, k) == Some(s1)
    ensures After(ot, h.snapshot, h.undo, k + 1) == Some(s)
  {
    AfterSplit(ot, h.snapshot, h.undo, k);
    Ot.InvertUndoes(ot, s, c.actions);
  }

  lemma {:induction false} AfterSplit<S(!new), A>(ot: Ot.Ot<S, A>, s: S, stack: seq<UndoCommand<A>>, k: nat)
    requires k < |stack|
    ensures After(ot, s, stack, k + 1) ==
            if After(ot, s, stack, k).None? then None
            else Ot.Apply(ot, After(ot, s, stack, k).value, stack[|stack| - k - 1].actions)
    decreases k
  {
    if k > 0 {
      var next := Ot.Apply(ot, s, Last(stack).actions);
      if next.Some? {
        AfterSplit(ot, next.value, Front(stack), k - 1);
      }
    } else {
      var next := Ot.Apply(ot, s, Last(stack).actions);
      if next.Some? {
        assert After(ot, next.value, Front(stack), 0) == next;
      }
    }
  }

  /** An entry d below the top is pushed down by every command, and no further, while
      the limit leaves room for it. */
  lemma {:induction false} ExecuteAllTop<S(!new), A(!new)>(
    ot: Ot.Ot<S, A>, reg: Registry, h: History<S, A>, cs: seq<UndoCommand<A>>, d: nat)
    requires AllFit(ot, reg, h.snapshot, cs)
    requires 1 <= d <= |h.undo| && |cs| + d <= MAX_LENGTH
    ensures var h' := ExecuteAll(ot, reg, h, cs);
            |h'.undo| >= |cs| + d && h'.undo[|h'.undo| - |cs| - d] == h.undo[|h.undo| - d]
    decreases |cs|
  {
    if cs != [] {
      var h1 := ExecuteActions(ot, reg, h, cs[0], Execute).0;
      ExecutedHistory(ot, reg, h, cs[0]);
      PushedDown(h.undo, Inverted(ot, cs[0]), d);
      ExecuteAllTop(ot, reg, h1, cs[1..], d + 1);
    }
  }

  /** Executing up to 50 undoable commands and undoing as many restores the snapshot. */
  lemma UndoRestores<S(!new), A(!new)>(ot: Ot.Ot<S, A>, reg: Registry, h: History<S, A>, cs: seq<UndoCommand<A>>)
    requires Ot.Laws(ot) && Ok(ot, reg, h) && AllFit(ot, reg, h.snapshot, cs) && |cs| <= MAX_LENGTH
    ensures UndoN(ot, reg, ExecuteAll(ot, reg, h, cs), |cs|).snapshot == h.snapshot
  {
    ExecuteAllStacks(ot, reg, h, cs);
    UndoNIsAfter(ot, reg, ExecuteAll(ot, reg, h, cs), |cs|);
  }
}
