/** What composing leaves of a list of operations. */
module Composing {
  import opened Options
  import opened Changesets
  import opened ClientState
  import J = JsonOt
  import Ot

  predicate AtMostOneMatters<S(!new), A>(ot: Ot.Ot<S, A>, actions: seq<A>) {
    forall i, j :: 0 <= i < j < |actions| ==> ot.redundant(actions[i]) || ot.redundant(actions[j])
  }

  /** Single actions at equally deep places, of which together at most one action is needed. */
  predicate Folds<S(!new), A>(ot: Ot.Ot<S, A>, older: Operation<A>, newer: Operation<A>) {
    && |older.actions| == 1 && |newer.actions| == 1
    && ot.depth(older.actions[0]) == ot.depth(newer.actions[0])
    && AtMostOneMatters(ot, ot.compose(older.actions, newer.actions))
  }

  lemma {:induction false} NonRedundantIs<S(!new), A>(ot: Ot.Ot<S, A>, actions: seq<A>)
    ensures |NonRedundant(ot, actions)| <= 1 <==> AtMostOneMatters(ot, actions)
    ensures NonRedundant(ot, actions) == [] <==> forall i :: 0 <= i < |actions| ==> ot.redundant(actions[i])
    ensures NonRedundant(ot, actions) != [] ==>
              exists i :: 0 <= i < |actions| && !ot.redundant(actions[i]) && NonRedundant(ot, actions)[0] == actions[i]
  {
    if actions != [] {
      var rest := actions[1..];
      NonRedundantIs(ot, rest);
      assert forall i :: 0 <= i < |rest| ==> rest[i] == actions[i + 1];
      assert forall i :: 0 < i < |actions| ==> actions[i] == rest[i - 1];
      if ot.redundant(actions[0]) {
        assert NonRedundant(ot, actions) == NonRedundant(ot, rest);
      } else {
        assert |NonRedundant(ot, actions)| == 1 + |NonRedundant(ot, rest)|;
      }
    }
  }

  lemma FoldedIs<S(!new), A>(ot: Ot.Ot<S, A>, older: Operation<A>, newer: Operation<A>)
    requires Folds(ot, older, newer)
    ensures var both := ot.compose(older.actions, newer.actions);
            if forall i :: 0 <= i < |both| ==> ot.redundant(both[i])
            then ComposeOperation(ot, newer, older) == (None, true)
            else exists i :: && 0 <= i < |both| && !ot.redundant(both[i])
                             && ComposeOperation(ot, newer, older) ==
                                (Some(Operation(older.cmd, [both[i]], older.mainLinkDstId)), true)
  {
    var both := ot.compose(older.actions, newer.actions);
    NonRedundantIs(ot, both);
    var kept := NonRedundant(ot, both);
    if kept != [] {
      assert kept == [kept[0]];
    }
  }

  /** One more operation folds into the last one or is put after it.  Folding keeps the name and
      the link of the older operation with the one action that matters, or drops both. */
  lemma ComposeNextIs<S(!new), A>(ot: Ot.Ot<S, A>, pre: seq<Operation<A>>, cur: Operation<A>)
    ensures var r := ComposeNext(ot, pre, cur);
            if pre == [] || !Folds(ot, pre[|pre| - 1], cur) then r == pre + [cur]
            else
              var front, last := pre[..|pre| - 1], pre[|pre| - 1];
              var both := ot.compose(last.actions, cur.actions);
              if forall i :: 0 <= i < |both| ==> ot.redundant(both[i]) then r == front
              else exists i :: && 0 <= i < |both| && !ot.redundant(both[i])
                               && r == front + [Operation(last.cmd, [both[i]], last.mainLinkDstId)]
  {
    if pre != [] {
      var last := pre[|pre| - 1];
      NonRedundantIs(ot, ot.compose(last.actions, cur.actions));
      assert pre + [cur] == pre[..|pre| - 1] + [last, cur];
      if Folds(ot, last, cur) {
        FoldedIs(ot, last, cur);
      }
    }
  }

  // ---------------------------------------------------------------- whole lists

  /** The operations of xs have the names and links of those of ys at the increasing
      positions. */
  predicate TakenAt<A>(xs: seq<Operation<A>>, ys: seq<Operation<A>>, at: seq<nat>) {
    && |at| == |xs|
    && (forall i, j :: 0 <= i < j < |at| ==> at[i] < at[j])
    && forall i :: 0 <= i < |at| ==>
         && at[i] < |ys|
         && xs[i].cmd == ys[at[i]].cmd && xs[i].mainLinkDstId == ys[at[i]].mainLinkDstId
  }

  ghost predicate TakenFrom<A>(xs: seq<Operation<A>>, ys: seq<Operation<A>>) {
    exists at: seq<nat> :: TakenAt(xs, ys, at)
  }

  function UpTo(n: nat): (r: seq<nat>)
    ensures |r| == n && forall i :: 0 <= i < n ==> r[i] == i
  {
    seq(n, i requires 0 <= i < n => i)
  }

  lemma TakenThrough<A>(xs: seq<Operation<A>>, ys: seq<Operation<A>>, zs: seq<Operation<A>>)
    requires TakenFrom(xs, ys) && TakenFrom(ys, zs)
    ensures TakenFrom(xs, zs)
  {
    var a: seq<nat> :| TakenAt(xs, ys, a);
    var b: seq<nat> :| TakenAt(ys, zs, b);
    var at: seq<nat> := seq(|a|, i requires 0 <= i < |a| => b[a[i]]);
    assert TakenAt(xs, zs, at);
  }

  lemma TakenMore<A>(xs: seq<Operation<A>>, ys: seq<Operation<A>>, tail: seq<Operation<A>>)
    requires TakenFrom(xs, ys)
    ensures TakenFrom(xs + tail, ys + tail)
  {
    var a: seq<nat> :| TakenAt(xs, ys, a);
    var at: seq<nat> := a + seq(|tail|, i requires 0 <= i < |tail| => |ys| + i);
    assert TakenAt(xs + tail, ys + tail, at);
  }

  lemma NextTaken<S(!new), A>(ot: Ot.Ot<S, A>, pre: seq<Operation<A>>, cur: Operation<A>)
    ensures TakenFrom(ComposeNext(ot, pre, cur), pre + [cur])
  {
    ComposeNextIs(ot, pre, cur);
    var next := ComposeNext(ot, pre, cur);
    assert TakenAt(next, pre + [cur], UpTo(|next|));
  }

  /** What is sent are the given operations, some of them dropped, in order and under their own
      names and links. */
  lemma {:induction false} ComposedTaken<S(!new), A>(
    ot: Ot.Ot<S, A>, pre: seq<Operation<A>>, ops: seq<Operation<A>>)
    ensures TakenFrom(ComposeFrom(ot, pre, ops), pre + ops)
    decreases |ops|
  {
    if ops == [] {
      assert TakenAt(pre, pre + ops, UpTo(|pre|));
    } else {
      var next := ComposeNext(ot, pre, ops[0]);
      NextTaken(ot, pre, ops[0]);
      TakenMore(next, pre + [ops[0]], ops[1..]);
      assert (pre + [ops[0]]) + ops[1..] == pre + ops;
      ComposedTaken(ot, next, ops[1..]);
      TakenThrough(ComposeFrom(ot, pre, ops), next + ops[1..], pre + ops);
    }
  }

  /** Operations that are not single actions are sent as they are. */
  lemma {:induction false} OthersSentAsTheyAre<S(!new), A>(
    ot: Ot.Ot<S, A>, pre: seq<Operation<A>>, ops: seq<Operation<A>>, op: Operation<A>)
    requires op in pre + ops && |op.actions| != 1
    ensures op in ComposeFrom(ot, pre, ops)
    decreases |ops|
  {
    if ops != [] {
      ComposeNextIs(ot, pre, ops[0]);
      var next := ComposeNext(ot, pre, ops[0]);
      if op in pre || op == ops[0] {
        assert op in next;
      }
      OthersSentAsTheyAre(ot, next, ops[1..], op);
    }
  }

  /** What goes into flight is the buffer composed, under the new id, on the client's revision. */
  lemma SentIs<S(!new), A>(ot: Ot.Ot<S, A>, c: Client<S, A>, id: MessageId)
    ensures var pending := DeOpBuffer(ot, c, id).pending;
            && (pending.Some? <==> c.opBuffer != [])
            && (pending.Some? ==>
                  && pending.value.messageId == id && pending.value.baseRevision == c.revision
                  && TakenFrom(pending.value.operations, c.opBuffer)
                  && forall op :: op in c.opBuffer && |op.actions| != 1 ==> op in pending.value.operations)
  {
    var none: seq<Operation<A>> := [];
    assert none + c.opBuffer == c.opBuffer;
    ComposedTaken(ot, none, c.opBuffer);
    forall op | op in c.opBuffer && |op.actions| != 1 ensures op in ComposeFrom(ot, none, c.opBuffer) {
      OthersSentAsTheyAre(ot, none, c.opBuffer, op);
    }
  }

  // ---------------------------------------------------------------- edits of a JSON document

  datatype Part = Key(key: string) | Index(index: nat)

  /** The action that makes an edit at a path. */
  function OnPath(path: seq<Part>, e: J.Edit): J.Action
    requires path != []
    decreases |path|
  {
    var below := if |path| == 1 then e else J.Within(OnPath(path[1..], e));
    match path[0]
    case Key(key) => J.Object(key, below)
    case Index(index) => J.List(index, below)
  }

  lemma {:induction false} PathDepth(path: seq<Part>, e: J.Edit)
    requires path != [] && !e.Within?
    ensures J.Depth(OnPath(path, e)) == |path|
    ensures J.Redundant(OnPath(path, e)) <==> e.Replace? && e.old_ == e.new_
    decreases |path|
  {
    if |path| > 1 {
      PathDepth(path[1..], e);
    }
  }

  /** Two replacements at one place are one, two at equally deep places are two. */
  lemma {:induction false} MergedOnPath(p: seq<Part>, q: seq<Part>, v: J.Json, w: J.Json, x: J.Json, y: J.Json)
    requires p != [] && |p| == |q|
    ensures J.MergeAction(OnPath(p, J.Replace(v, w)), OnPath(q, J.Replace(x, y))) ==
            if p == q then J.Merged(Some(OnPath(p, J.Replace(v, y)))) else J.Apart
    decreases |p|
  {
    assert p == [p[0]] + p[1..] && q == [q[0]] + q[1..];
    if |p| > 1 {
      MergedOnPath(p[1..], q[1..], v, w, x, y);
    } else {
      assert p == [p[0]] && q == [q[0]];
    }
  }

  /** Of two operations that replace a value each, the second folds into the first exactly when
      they replace at one place; the two vanish exactly when the last value is the first. */
  lemma ReplacesFoldIff(
    older: Operation<J.Action>, newer: Operation<J.Action>,
    p: seq<Part>, q: seq<Part>, v: J.Json, w: J.Json, x: J.Json, y: J.Json)
    requires p != [] && q != [] && v != w && x != y
    requires older.actions == [OnPath(p, J.Replace(v, w))] && newer.actions == [OnPath(q, J.Replace(x, y))]
    ensures ComposeFrom(J.Transform(), [], [older, newer]) ==
            if p != q then [older, newer]
            else if v == y then []
            else [older.(actions := [OnPath(p, J.Replace(v, y))])]
  {
    var ot, a, b := J.Transform(), OnPath(p, J.Replace(v, w)), OnPath(q, J.Replace(x, y));
    PathDepth(p, J.Replace(v, w));
    PathDepth(q, J.Replace(x, y));
    TwoComposed(ot, older, newer);
    if |p| == |q| {
      MergedOnPath(p, q, v, w, x, y);
      PathDepth(p, J.Replace(v, y));
      assert [b][1..] == [];
      assert J.Compose([a], [b]) == J.Append([a], b);
      var both := J.Append([a], b);
      assert both == if p == q then [OnPath(p, J.Replace(v, y))] else [a, b];
    }
    ComposeNextIs(ot, [older], newer);
  }

  /** So of a value replaced twice only the last is sent; taken back, a changeset without operations
      goes out. */
  lemma ReplacedTwiceSentOnce(
    c: Client<J.Json, J.Action>, id: MessageId, older: Operation<J.Action>, newer: Operation<J.Action>,
    p: seq<Part>, v: J.Json, w: J.Json, y: J.Json)
    requires p != [] && v != w && w != y && c.opBuffer == [older, newer]
    requires older.actions == [OnPath(p, J.Replace(v, w))] && newer.actions == [OnPath(p, J.Replace(w, y))]
    ensures DeOpBuffer(J.Transform(), c, id).pending ==
            Some(LocalChangeset(id, c.revision,
                                if v == y then [] else [older.(actions := [OnPath(p, J.Replace(v, y))])]))
  {
    ReplacesFoldIff(older, newer, p, p, v, w, w, y);
  }

  lemma TwoComposed<S(!new), A>(ot: Ot.Ot<S, A>, older: Operation<A>, newer: Operation<A>)
    ensures ComposeFrom(ot, [], [older, newer]) == ComposeNext(ot, [older], newer)
  {
    assert [older, newer][1..] == [newer] && [newer][1..] == [];
    assert ComposeFrom(ot, [older], [newer]) == ComposeFrom(ot, ComposeNext(ot, [older], newer), []);
  }
}
