/** Operations and changesets, and the two things done to lists of operations:
    rebasing them past remote actions and composing them before they are sent. */
module Changesets {
  import opened Options
  import Ot

  /** One user operation.  Random message ids are modelled as naturals. */
  datatype Operation<A> = Operation(cmd: string, actions: seq<A>, mainLinkDstId: Option<string>)

  type MessageId = nat

  datatype LocalChangeset<A> =
    LocalChangeset(messageId: MessageId, baseRevision: nat, operations: seq<Operation<A>>)

  datatype RemoteChangeset<A> =
    RemoteChangeset(messageId: MessageId, revision: nat, operations: seq<Operation<A>>)

  /** All actions of a list of operations, in order. */
  function Flat<A>(ops: seq<Operation<A>>): seq<A> {
    if ops == [] then [] else ops[0].actions + Flat(ops[1..])
  }

  function Cmds<A>(ops: seq<Operation<A>>): (r: seq<string>)
    ensures |r| == |ops| && forall i :: 0 <= i < |ops| ==> r[i] == ops[i].cmd
  {
    seq(|ops|, i requires 0 <= i < |ops| => ops[i].cmd)
  }

  lemma {:induction false} FlatConcat<A>(xs: seq<Operation<A>>, ys: seq<Operation<A>>)
    ensures Flat(xs + ys) == Flat(xs) + Flat(ys)
  {
    if xs == [] {
      assert xs + ys == ys;
    } else {
      assert (xs + ys)[1..] == xs[1..] + ys;
      FlatConcat(xs[1..], ys);
      assert xs[0].actions + (Flat(xs[1..]) + Flat(ys)) == (xs[0].actions + Flat(xs[1..])) + Flat(ys);
    }
  }

  lemma FlatSingle<A>(op: Operation<A>)
    ensures Flat([op]) == op.actions
  {
    assert [op][1..] == [];
    assert op.actions + [] == op.actions;
  }

  // ---------------------------------------------------------------- rebasing

  /** Threads remote actions through a list of local operations; the result is the
      rewritten operations and what is left of the remote actions. */
  function TransformOps<S(!new), A>(ot: Ot.Ot<S, A>, ops: seq<Operation<A>>, remote: seq<A>)
    : (r: (seq<Operation<A>>, seq<A>))
    ensures |r.0| == |ops|
    ensures forall i :: 0 <= i < |ops| ==> r.0[i].cmd == ops[i].cmd && r.0[i].mainLinkDstId == None
    ensures |r.1| <= |remote|
  {
    if ops == [] then ([], remote)
    else
      var (left, right) := Ot.TransformX(ot, ops[0].actions, remote);
      var (rest, out) := TransformOps(ot, ops[1..], right);
      ([Operation(ops[0].cmd, left, None)] + rest, out)
  }

  /** Rebasing operation by operation is one transformation of all their actions. */
  lemma {:induction false} TransformOpsIsTransformX<S(!new), A>(ot: Ot.Ot<S, A>, ops: seq<Operation<A>>, remote: seq<A>)
    ensures var (ops', remote') := TransformOps(ot, ops, remote);
            Ot.TransformX(ot, Flat(ops), remote) == (Flat(ops'), remote')
  {
    if ops == [] {
      Ot.TransformXNil(ot, remote);
    } else {
      var (left, right) := Ot.TransformX(ot, ops[0].actions, remote);
      var (rest, out) := TransformOps(ot, ops[1..], right);
      TransformOpsIsTransformX(ot, ops[1..], right);
      Ot.TransformXSplitLeft(ot, ops[0].actions, Flat(ops[1..]), remote);
      FlatConcat([Operation(ops[0].cmd, left, None)], rest);
      FlatSingle(Operation(ops[0].cmd, left, None));
    }
  }

  /** TransformOps on operations that follow each other, as one call on the whole. */
  lemma {:induction false} TransformOpsConcat<S(!new), A>(
    ot: Ot.Ot<S, A>, xs: seq<Operation<A>>, ys: seq<Operation<A>>, remote: seq<A>)
    ensures var (xs', mid) := TransformOps(ot, xs, remote);
            var (ys', out) := TransformOps(ot, ys, mid);
            TransformOps(ot, xs + ys, remote) == (xs' + ys', out)
  {
    if xs == [] {
      assert xs + ys == ys;
      assert [] + TransformOps(ot, ys, remote).0 == TransformOps(ot, ys, remote).0;
    } else {
      assert (xs + ys)[0] == xs[0] && (xs + ys)[1..] == xs[1..] + ys;
      var (left, right) := Ot.TransformX(ot, xs[0].actions, remote);
      TransformOpsConcat(ot, xs[1..], ys, right);
      var (rest, mid) := TransformOps(ot, xs[1..], right);
      var (ys', out) := TransformOps(ot, ys, mid);
      var head := Operation(xs[0].cmd, left, None);
      assert [head] + (rest + ys') == ([head] + rest) + ys';
    }
  }

  // ---------------------------------------------------------------- composing

  function NonRedundant<S(!new), A>(ot: Ot.Ot<S, A>, actions: seq<A>): (r: seq<A>)
    ensures |r| <= |actions|
  {
    if actions == [] then []
    else (if ot.redundant(actions[0]) then [] else [actions[0]]) + NonRedundant(ot, actions[1..])
  }

  lemma {:induction false} NonRedundantSound<S(!new), A(!new)>(ot: Ot.Ot<S, A>, s: S, actions: seq<A>)
    requires Ot.Laws(ot) && Ot.Apply(ot, s, actions).Some?
    ensures Ot.Apply(ot, s, NonRedundant(ot, actions)) == Ot.Apply(ot, s, actions)
  {
    if actions != [] {
      assert Ot.RedundantAt(ot, s, actions[0]);
      NonRedundantSound(ot, ot.apply(s, actions[0]).value, actions[1..]);
      if ot.redundant(actions[0]) {
        assert [] + NonRedundant(ot, actions[1..]) == NonRedundant(ot, actions[1..]);
      } else {
        assert ([actions[0]] + NonRedundant(ot, actions[1..]))[1..] == NonRedundant(ot, actions[1..]);
      }
    }
  }

  /** Tries to fold a newer operation into the one before it.  The flag says whether
      that worked; a composed operation may vanish altogether. */
  function ComposeOperation<S(!new), A>(ot: Ot.Ot<S, A>, newer: Operation<A>, older: Operation<A>)
    : (Option<Operation<A>>, bool)
  {
    if |older.actions| == 1 && |newer.actions| == 1 && ot.depth(newer.actions[0]) == ot.depth(older.actions[0]) then
      var actions := NonRedundant(ot, ot.compose(older.actions, newer.actions));
      if |actions| <= 1 then
        (if actions == [] then None else Some(older.(actions := actions)), true)
      else (Some(older), false)
    else (Some(older), false)
  }

  /** One round of the fold: `pre` holds what has been composed so far. */
  function ComposeNext<S(!new), A>(ot: Ot.Ot<S, A>, pre: seq<Operation<A>>, cur: Operation<A>): (r: seq<Operation<A>>)
    ensures |r| <= |pre| + 1
  {
    if pre == [] then [cur]
    else
      var front := pre[..|pre| - 1];
      var (operation, isComposed) := ComposeOperation(ot, cur, pre[|pre| - 1]);
      if operation.None? then front
      else if isComposed then front + [operation.value]
      else front + [operation.value, cur]
  }

  function ComposeFrom<S(!new), A>(
    ot: Ot.Ot<S, A>, pre: seq<Operation<A>>, ops: seq<Operation<A>>): (r: seq<Operation<A>>)
    ensures |r| <= |pre| + |ops|
    decreases |ops|
  {
    if ops == [] then pre else ComposeFrom(ot, ComposeNext(ot, pre, ops[0]), ops[1..])
  }

  /** A composed operation, or nothing where the two have cancelled out, has their effect. */
  lemma ComposedSound<S(!new), A(!new)>(ot: Ot.Ot<S, A>, s: S, older: Operation<A>, newer: Operation<A>)
    requires Ot.Laws(ot) && Ot.Apply(ot, s, older.actions + newer.actions).Some?
    requires ComposeOperation(ot, newer, older).1
    ensures var operation := ComposeOperation(ot, newer, older).0;
            Ot.Apply(ot, s, Flat(if operation.None? then [] else [operation.value])) ==
            Ot.Apply(ot, s, older.actions + newer.actions)
  {
    var operation := ComposeOperation(ot, newer, older).0;
    assert Ot.ComposeAt(ot, s, older.actions, newer.actions);
    NonRedundantSound(ot, s, ot.compose(older.actions, newer.actions));
    if operation.Some? {
      FlatSingle(operation.value);
    }
  }

  lemma FlatPair<A>(older: Operation<A>, newer: Operation<A>)
    ensures Flat([older, newer]) == older.actions + newer.actions
  {
    assert [older, newer] == [older] + [newer];
    FlatConcat([older], [newer]);
    FlatSingle(older);
    FlatSingle(newer);
  }

  lemma ComposeNextSound<S(!new), A(!new)>(ot: Ot.Ot<S, A>, s: S, pre: seq<Operation<A>>, cur: Operation<A>)
    requires Ot.Laws(ot) && Ot.Apply(ot, s, Flat(pre) + cur.actions).Some?
    ensures Ot.Apply(ot, s, Flat(ComposeNext(ot, pre, cur))) == Ot.Apply(ot, s, Flat(pre) + cur.actions)
  {
    FlatSingle(cur);
    if pre == [] {
      assert Flat(pre) + cur.actions == cur.actions;
    } else {
      var front, older := pre[..|pre| - 1], pre[|pre| - 1];
      var (operation, isComposed) := ComposeOperation(ot, cur, older);
      assert pre == front + [older];
      FlatConcat(front, [older]);
      FlatSingle(older);
      assert Flat(pre) + cur.actions == Flat(front) + (older.actions + cur.actions);
      Ot.ApplyConcat(ot, s, Flat(front), older.actions + cur.actions);
      var tail := if !isComposed then [older, cur] else if operation.None? then [] else [operation.value];
      if isComposed {
        ComposedSound(ot, Ot.Apply(ot, s, Flat(front)).value, older, cur);
      } else {
        FlatPair(older, cur);
      }
      assert ComposeNext(ot, pre, cur) == front + tail;
      FlatConcat(front, tail);
      Ot.ApplyConcat(ot, s, Flat(front), Flat(tail));
    }
  }

  /** Composing operations before sending them keeps their combined effect. */
  lemma {:induction false} ComposeSound<S(!new), A(!new)>(
    ot: Ot.Ot<S, A>, s: S, pre: seq<Operation<A>>, ops: seq<Operation<A>>)
    requires Ot.Laws(ot) && Ot.Apply(ot, s, Flat(pre) + Flat(ops)).Some?
    ensures Ot.Apply(ot, s, Flat(ComposeFrom(ot, pre, ops))) == Ot.Apply(ot, s, Flat(pre) + Flat(ops))
    decreases |ops|
  {
    if ops == [] {
      assert Flat(pre) + Flat(ops) == Flat(pre);
    } else {
      var next := ComposeNext(ot, pre, ops[0]);
      assert Flat(pre) + Flat(ops) == (Flat(pre) + ops[0].actions) + Flat(ops[1..]);
      Ot.ApplyConcat(ot, s, Flat(pre) + ops[0].actions, Flat(ops[1..]));
      ComposeNextSound(ot, s, pre, ops[0]);
      Ot.ApplyConcat(ot, s, Flat(next), Flat(ops[1..]));
      ComposeSound(ot, s, next, ops[1..]);
    }
  }
}
