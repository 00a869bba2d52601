/** The operational-transform interface the collaboration engine is written
    against: single actions come from an `Ot` record, action lists are built here
    the way the engine uses them.  Everything below is proved for every record
    that meets `Laws`; module `JsonOt` supplies one. */
module Ot {
  import opened Options

  /** Per-action primitives.
      `apply` is undefined where the action does not fit the document; `cross(l, r)`
      rewrites two concurrent actions past each other (`None` means absorbed) and
      prefers `l` on a tie; `compose` may shorten two action lists run in sequence;
      `redundant` marks replace actions whose old and new value coincide; `depth` is
      the length of an action's path. */
  datatype Ot<!S(!new), !A> = Ot(
    apply: (S, A) -> Option<S>,
    invert: A -> A,
    cross: (A, A) -> (Option<A>, Option<A>),
    compose: (seq<A>, seq<A>) -> seq<A>,
    redundant: A -> bool,
    depth: A -> nat
  )

  function ToSeq<A>(a: Option<A>): seq<A> {
    if a.Some? then [a.value] else []
  }

  /** Runs a list of actions from left to right. */
  function Apply<S(!new), A>(ot: Ot<S, A>, s: S, actions: seq<A>): Option<S> {
    if actions == [] then Some(s)
    else
      var next := ot.apply(s, actions[0]);
      if next.None? then None else Apply(ot, next.value, actions[1..])
  }

  /** Inverts a list: every action inverted, in reverse order. */
  function Invert<S(!new), A>(ot: Ot<S, A>, actions: seq<A>): seq<A> {
    if actions == [] then [] else Invert(ot, actions[1..]) + [ot.invert(actions[0])]
  }

  /** Moves one right-hand action past a list of left-hand actions. */
  function CrossOne<S(!new), A>(ot: Ot<S, A>, left: seq<A>, right: Option<A>): (r: (seq<A>, Option<A>))
    ensures |r.0| <= |left|
  {
    if left == [] || right.None? then (left, right)
    else
      var (l', r') := ot.cross(left[0], right.value);
      var (rest, r'') := CrossOne(ot, left[1..], r');
      (ToSeq(l') + rest, r'')
  }

  /** Rewrites two concurrent action lists past each other. */
  function TransformX<S(!new), A>(ot: Ot<S, A>, left: seq<A>, right: seq<A>): (r: (seq<A>, seq<A>))
    ensures |r.0| <= |left| && |r.1| <= |right|
    decreases |right|
  {
    if right == [] then (left, [])
    else
      var (left1, r1) := CrossOne(ot, left, Some(right[0]));
      var (left2, right2) := TransformX(ot, left1, right[1..]);
      (left2, ToSeq(r1) + right2)
  }

  // ---------------------------------------------------------------- laws

  /** Two actions that both fit s meet again after crossing. */
  ghost predicate DiamondAt<S(!new), A>(ot: Ot<S, A>, s: S, l: A, r: A) {
    ot.apply(s, l).Some? && ot.apply(s, r).Some? ==>
      var (l', r') := ot.cross(l, r);
      var left := Apply(ot, ot.apply(s, l).value, ToSeq(r'));
      left.Some? && left == Apply(ot, ot.apply(s, r).value, ToSeq(l'))
  }

  ghost predicate UndoAt<S(!new), A>(ot: Ot<S, A>, s: S, a: A) {
    ot.apply(s, a).Some? ==> ot.apply(ot.apply(s, a).value, ot.invert(a)) == Some(s)
  }

  ghost predicate InvolutionAt<S(!new), A>(ot: Ot<S, A>, a: A) {
    ot.invert(ot.invert(a)) == a
  }

  ghost predicate ComposeAt<S(!new), A>(ot: Ot<S, A>, s: S, first: seq<A>, second: seq<A>) {
    Apply(ot, s, first + second).Some? ==>
      Apply(ot, s, ot.compose(first, second)) == Apply(ot, s, first + second)
  }

  ghost predicate RedundantAt<S(!new), A>(ot: Ot<S, A>, s: S, a: A) {
    ot.redundant(a) && ot.apply(s, a).Some? ==> ot.apply(s, a) == Some(s)
  }

  ghost predicate Laws<S(!new), A(!new)>(ot: Ot<S, A>) {
    && (forall s, l, r :: DiamondAt(ot, s, l, r))
    && (forall s, a :: UndoAt(ot, s, a))
    && (forall a :: InvolutionAt(ot, a))
    && (forall s, first, second :: ComposeAt(ot, s, first, second))
    && (forall s, a :: RedundantAt(ot, s, a))
  }

  // ---------------------------------------------------------------- lists

  lemma {:induction false} ApplyConcat<S(!new), A>(ot: Ot<S, A>, s: S, xs: seq<A>, ys: seq<A>)
    ensures Apply(ot, s, xs + ys) ==
            if Apply(ot, s, xs).None? then None else Apply(ot, Apply(ot, s, xs).value, ys)
  {
    if xs == [] {
      assert xs + ys == ys;
    } else {
      assert (xs + ys)[1..] == xs[1..] + ys;
      var next := ot.apply(s, xs[0]);
      if next.Some? {
        ApplyConcat(ot, next.value, xs[1..], ys);
      }
    }
  }

  /** Two routes that are both defined and end in the same document. */
  ghost predicate Meet<S>(x: Option<S>, y: Option<S>) {
    x.Some? && x == y
  }

  lemma {:induction false} CrossOneDiamond<S(!new), A(!new)>(ot: Ot<S, A>, s: S, left: seq<A>, right: Option<A>)
    requires Laws(ot)
    requires Apply(ot, s, left).Some? && Apply(ot, s, ToSeq(right)).Some?
    ensures var (left', right') := CrossOne(ot, left, right);
            Meet(Apply(ot, Apply(ot, s, left).value, ToSeq(right')),
                 Apply(ot, Apply(ot, s, ToSeq(right)).value, left'))
  {
    if left == [] || right.None? {
    } else {
      var (l', r') := ot.cross(left[0], right.value);
      var (rest, r'') := CrossOne(ot, left[1..], r');
      assert DiamondAt(ot, s, left[0], right.value);
      var t := ot.apply(s, left[0]).value;
      CrossOneDiamond(ot, t, left[1..], r');
      ApplyConcat(ot, ot.apply(s, right.value).value, ToSeq(l'), rest);
    }
  }

  /** Concurrent action lists that both fit s meet again after transformation:
      the left list then the rewritten right list ends where the right list then
      the rewritten left list ends. */
  lemma {:induction false} TransformXDiamond<S(!new), A(!new)>(ot: Ot<S, A>, s: S, left: seq<A>, right: seq<A>)
    requires Laws(ot)
    requires Apply(ot, s, left).Some? && Apply(ot, s, right).Some?
    ensures var (left', right') := TransformX(ot, left, right);
            Meet(Apply(ot, Apply(ot, s, left).value, right'),
                 Apply(ot, Apply(ot, s, right).value, left'))
    decreases |right|
  {
    if right != [] {
      var (left1, r1) := CrossOne(ot, left, Some(right[0]));
      var (left2, right2) := TransformX(ot, left1, right[1..]);
      CrossOneDiamond(ot, s, left, Some(right[0]));
      TransformXDiamond(ot, ot.apply(s, right[0]).value, left1, right[1..]);
      ApplyConcat(ot, Apply(ot, s, left).value, ToSeq(r1), right2);
    }
  }

  lemma {:induction false} TransformXNil<S(!new), A>(ot: Ot<S, A>, right: seq<A>)
    ensures TransformX(ot, [], right) == ([], right)
    decreases |right|
  {
    if right != [] {
      TransformXNil(ot, right[1..]);
      assert [right[0]] + right[1..] == right;
    }
  }

  /** Transforming past two right-hand lists in turn is transforming past their
      concatenation. */
  lemma {:induction false} TransformXSplitRight<S(!new), A>(ot: Ot<S, A>, left: seq<A>, r1: seq<A>, r2: seq<A>)
    ensures var (left1, r1') := TransformX(ot, left, r1);
            var (left2, r2') := TransformX(ot, left1, r2);
            TransformX(ot, left, r1 + r2) == (left2, r1' + r2')
    decreases |r1|
  {
    if r1 == [] {
      assert r1 + r2 == r2;
      var (left2, r2') := TransformX(ot, left, r2);
      assert [] + r2' == r2';
    } else {
      assert (r1 + r2)[0] == r1[0] && (r1 + r2)[1..] == r1[1..] + r2;
      var (left1, x) := CrossOne(ot, left, Some(r1[0]));
      var (left1', rest) := TransformX(ot, left1, r1[1..]);
      var (left2, r2') := TransformX(ot, left1', r2);
      TransformXSplitRight(ot, left1, r1[1..], r2);
      assert (ToSeq(x) + rest) + r2' == ToSeq(x) + (rest + r2');
    }
  }

  lemma {:induction false} CrossOneSplitLeft<S(!new), A>(ot: Ot<S, A>, l1: seq<A>, l2: seq<A>, right: Option<A>)
    ensures var (l1', r') := CrossOne(ot, l1, right);
            var (l2', r'') := CrossOne(ot, l2, r');
            CrossOne(ot, l1 + l2, right) == (l1' + l2', r'')
  {
    if l1 == [] {
      assert l1 + l2 == l2;
      assert [] + CrossOne(ot, l2, right).0 == CrossOne(ot, l2, right).0;
    } else if right.None? {
    } else {
      assert (l1 + l2)[0] == l1[0] && (l1 + l2)[1..] == l1[1..] + l2;
      var (x, r') := ot.cross(l1[0], right.value);
      CrossOneSplitLeft(ot, l1[1..], l2, r');
      var (rest1, r1) := CrossOne(ot, l1[1..], r');
      var (rest2, r2) := CrossOne(ot, l2, r1);
      assert (ToSeq(x) + rest1) + rest2 == ToSeq(x) + (rest1 + rest2);
    }
  }

  /** A left-hand list may be transformed piece by piece, the right-hand list
      being threaded through the pieces. */
  lemma {:induction false} TransformXSplitLeft<S(!new), A>(ot: Ot<S, A>, l1: seq<A>, l2: seq<A>, right: seq<A>)
    ensures var (l1', right') := TransformX(ot, l1, right);
            var (l2', right'') := TransformX(ot, l2, right');
            TransformX(ot, l1 + l2, right) == (l1' + l2', right'')
    decreases |right|
  {
    if right != [] {
      CrossOneSplitLeft(ot, l1, l2, Some(right[0]));
      var (a1, r1) := CrossOne(ot, l1, Some(right[0]));
      var (a2, r2) := CrossOne(ot, l2, r1);
      TransformXSplitLeft(ot, a1, a2, right[1..]);
      var (l1', rest) := TransformX(ot, a1, right[1..]);
      TransformXSplitRight(ot, l2, ToSeq(r1), rest);
      assert TransformX(ot, l2, ToSeq(r1)) == (a2, ToSeq(r2)) by {
        if r1.Some? {
          assert TransformX(ot, a2, []) == (a2, []);
          assert ToSeq(r1)[1..] == [];
          assert ToSeq(r2) + [] == ToSeq(r2);
        }
      }
      var (l2', rest') := TransformX(ot, a2, rest);
    }
  }

  // ---------------------------------------------------------------- inversion

  lemma {:induction false} InvertConcat<S(!new), A>(ot: Ot<S, A>, xs: seq<A>, ys: seq<A>)
    ensures Invert(ot, xs + ys) == Invert(ot, ys) + Invert(ot, xs)
  {
    if xs == [] {
      assert xs + ys == ys;
    } else {
      assert (xs + ys)[1..] == xs[1..] + ys;
      InvertConcat(ot, xs[1..], ys);
    }
  }

  /** An inverted list takes the document back to where it was. */
  lemma {:induction false} InvertUndoes<S(!new), A(!new)>(ot: Ot<S, A>, s: S, actions: seq<A>)
    requires Laws(ot)
    requires Apply(ot, s, actions).Some?
    ensures Apply(ot, Apply(ot, s, actions).value, Invert(ot, actions)) == Some(s)
  {
    if actions != [] {
      var t := ot.apply(s, actions[0]).value;
      InvertUndoes(ot, t, actions[1..]);
      ApplyConcat(ot, Apply(ot, s, actions).value, Invert(ot, actions[1..]), [ot.invert(actions[0])]);
      assert UndoAt(ot, s, actions[0]);
    }
  }

  lemma {:induction false} InvertInvolution<S(!new), A(!new)>(ot: Ot<S, A>, actions: seq<A>)
    requires Laws(ot)
    ensures Invert(ot, Invert(ot, actions)) == actions
  {
    if actions != [] {
      InvertConcat(ot, Invert(ot, actions[1..]), [ot.invert(actions[0])]);
      InvertInvolution(ot, actions[1..]);
      assert InvolutionAt(ot, actions[0]);
      assert [ot.invert(actions[0])][1..] == [];
    }
  }

  lemma {:induction false} InvertLength<S(!new), A>(ot: Ot<S, A>, actions: seq<A>)
    ensures |Invert(ot, actions)| == |actions|
  {
    if actions != [] {
      InvertLength(ot, actions[1..]);
    }
  }

  /** Rebasing on two lists in turn is rebasing on both together. */
  lemma RebaseTwice<S(!new), A>(ot: Ot<S, A>, left: seq<A>, r1: seq<A>, r2: seq<A>)
    ensures TransformX(ot, left, r1 + r2).0 == TransformX(ot, TransformX(ot, left, r1).0, r2).0
  {
    TransformXSplitRight(ot, left, r1, r2);
  }

  /** Actions that lead from two documents to the same one start from the same one. */
  lemma SameStart<S(!new), A(!new)>(ot: Ot<S, A>, s: S, t: S, actions: seq<A>)
    requires Laws(ot) && Apply(ot, s, actions).Some? && Apply(ot, s, actions) == Apply(ot, t, actions)
    ensures s == t
  {
    InvertUndoes(ot, s, actions);
    InvertUndoes(ot, t, actions);
  }
}
