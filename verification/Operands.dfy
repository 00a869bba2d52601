/** Operand trees of automation forms and the merge of object operands, as functions. */
module Operands {
  datatype Prim = Null | Bool(b: bool) | Number(n: int) | Text(s: string)

  /** What an operand list may hold: plain keys, operands, and the undefined value read
      past the end of a list. */
  datatype Value =
    | Undefined
    | Key(name: string)
    | Literal(value: Prim)
    | Expression(operator: string, operands: seq<Value>)

  predicate IsObjectOperand(v: Value) {
    v.Expression? && v.operator == "newObject"
  }

  // ---------------------------------------------------------------- sizes

  function Size(v: Value): nat {
    match v
    case Undefined => 0
    case Expression(_, operands) => 1 + SizeAll(operands)
    case _ => 1
  }

  function SizeAll(vs: seq<Value>): nat {
    if vs == [] then 0 else Size(vs[0]) + SizeAll(vs[1..])
  }

  lemma {:induction false} SizeAllConcat(xs: seq<Value>, ys: seq<Value>)
    ensures SizeAll(xs + ys) == SizeAll(xs) + SizeAll(ys)
  {
    if xs == [] {
      assert xs + ys == ys;
    } else {
      assert (xs + ys)[1..] == xs[1..] + ys;
      SizeAllConcat(xs[1..], ys);
    }
  }

  // ---------------------------------------------------------------- key/value pairs

  datatype Pair = Pair(key: Value, val: Value)

  /** Even positions are keys, odd ones values; a missing last value is undefined. */
  function ToPairs(vs: seq<Value>): seq<Pair> {
    if vs == [] then []
    else if |vs| == 1 then [Pair(vs[0], Undefined)]
    else [Pair(vs[0], vs[1])] + ToPairs(vs[2..])
  }

  function FromPairs(ps: seq<Pair>): (r: seq<Value>)
    ensures |r| == 2 * |ps|
    ensures forall i :: 0 <= i < |ps| ==> r[2 * i] == ps[i].key && r[2 * i + 1] == ps[i].val
  {
    if ps == [] then [] else [ps[0].key, ps[0].val] + FromPairs(ps[1..])
  }

  function PairsSize(ps: seq<Pair>): nat {
    if ps == [] then 0 else Size(ps[0].key) + Size(ps[0].val) + PairsSize(ps[1..])
  }

  lemma {:induction false} ToPairsSize(vs: seq<Value>)
    ensures PairsSize(ToPairs(vs)) == SizeAll(vs)
  {
    if |vs| >= 2 {
      ToPairsSize(vs[2..]);
      assert vs[1..][1..] == vs[2..];
    } else if |vs| == 1 {
      assert vs[1..] == [];
      assert ToPairs(vs)[1..] == [];
    }
  }

  lemma {:induction false} FromPairsSize(ps: seq<Pair>)
    ensures SizeAll(FromPairs(ps)) == PairsSize(ps)
  {
    if ps != [] {
      FromPairsSize(ps[1..]);
      var rest := FromPairs(ps[1..]);
      assert ([ps[0].key, ps[0].val] + rest)[1..] == [ps[0].val] + rest;
      assert ([ps[0].val] + rest)[1..] == rest;
    }
  }

  lemma {:induction false} PairsSizeSnoc(ps: seq<Pair>, p: Pair)
    ensures PairsSize(ps + [p]) == PairsSize(ps) + Size(p.key) + Size(p.val)
  {
    if ps == [] {
      assert ps + [p] == [p];
    } else {
      assert (ps + [p])[1..] == ps[1..] + [p];
      PairsSizeSnoc(ps[1..], p);
    }
  }

  lemma {:induction false} PairsSizeUpdate(ps: seq<Pair>, i: nat, v: Value)
    requires i < |ps|
    ensures PairsSize(ps[i := ps[i].(val := v)]) + Size(ps[i].val) == PairsSize(ps) + Size(v)
    ensures Size(ps[i].val) <= PairsSize(ps)
  {
    var ps' := ps[i := ps[i].(val := v)];
    if i == 0 {
      assert ps'[1..] == ps[1..];
    } else {
      assert ps'[1..] == ps[1..][i - 1 := ps[1..][i - 1].(val := v)];
      PairsSizeUpdate(ps[1..], i - 1, v);
    }
  }

  /** The position of a key, or the number of pairs when it is not there. */
  function Find(ps: seq<Pair>, key: Value): (i: nat)
    ensures i <= |ps|
    ensures i < |ps| ==> ps[i].key == key
    ensures forall j :: 0 <= j < i ==> ps[j].key != key
  {
    if ps == [] || ps[0].key == key then 0 else 1 + Find(ps[1..], key)
  }

  // ---------------------------------------------------------------- the merge

  /** Merging two object operands; anything else keeps the first. */
  function MergeOperand(o1: Value, o2: Value): (r: Value)
    ensures Size(r) <= Size(o1) + Size(o2)
    ensures IsObjectOperand(o1) && IsObjectOperand(o2) ==> Size(r) < Size(o1) + Size(o2)
    decreases Size(o1) + Size(o2), 0
  {
    if IsObjectOperand(o1) && IsObjectOperand(o2) then
      SizeAllConcat(o1.operands, o2.operands);
      Expression("newObject", ObjectComb(o1.operands + o2.operands))
    else o1
  }

  /** The value that a later pair leaves under its key. */
  function Combined(before: Value, after: Value): (r: Value)
    ensures Size(r) <= Size(before) + Size(after)
    decreases Size(before) + Size(after), 1
  {
    if IsObjectOperand(before) && IsObjectOperand(after) then MergeOperand(before, after) else after
  }

  function CombNext(acc: seq<Pair>, p: Pair): (r: seq<Pair>)
    ensures PairsSize(r) <= PairsSize(acc) + Size(p.key) + Size(p.val)
    decreases PairsSize(acc) + Size(p.key) + Size(p.val), 2
  {
    var i := Find(acc, p.key);
    if i < |acc| then
      PairsSizeUpdate(acc, i, Undefined);
      var v := Combined(acc[i].val, p.val);
      PairsSizeUpdate(acc, i, v);
      acc[i := acc[i].(val := v)]
    else
      PairsSizeSnoc(acc, p);
      acc + [p]
  }

  function CombPairs(acc: seq<Pair>, rest: seq<Pair>): (r: seq<Pair>)
    ensures PairsSize(r) <= PairsSize(acc) + PairsSize(rest)
    decreases PairsSize(acc) + PairsSize(rest), 3, |rest|
  {
    if rest == [] then acc else CombPairs(CombNext(acc, rest[0]), rest[1..])
  }

  /** Folds a key/value list so that every key occurs once.  The result is never larger
      than the input, which is what makes merging merged values again terminate. */
  function ObjectComb(operands: seq<Value>): (r: seq<Value>)
    ensures SizeAll(r) <= SizeAll(operands)
    decreases SizeAll(operands), 4
  {
    ToPairsSize(operands);
    FromPairsSize(CombPairs([], ToPairs(operands)));
    FromPairs(CombPairs([], ToPairs(operands)))
  }

  // ---------------------------------------------------------------- keys

  function Keys(ps: seq<Pair>): (r: seq<Value>)
    ensures |r| == |ps| && forall i :: 0 <= i < |ps| ==> r[i] == ps[i].key
  {
    seq(|ps|, i requires 0 <= i < |ps| => ps[i].key)
  }

  /** ks extended by the new ones among more, in order of first occurrence. */
  function FirstOccurrences(ks: seq<Value>, more: seq<Value>): seq<Value>
    decreases |more|
  {
    if more == [] then ks
    else FirstOccurrences(if more[0] in ks then ks else ks + [more[0]], more[1..])
  }

  predicate Distinct<T(==)>(xs: seq<T>) {
    forall i, j :: 0 <= i < j < |xs| ==> xs[i] != xs[j]
  }

  lemma {:induction false} CombPairsKeys(acc: seq<Pair>, rest: seq<Pair>)
    ensures Keys(CombPairs(acc, rest)) == FirstOccurrences(Keys(acc), Keys(rest))
    decreases |rest|
  {
    if rest != [] {
      var next := CombNext(acc, rest[0]);
      var i := Find(acc, rest[0].key);
      if i < |acc| {
        assert Keys(acc)[i] == rest[0].key;
        assert Keys(next) == Keys(acc);
      } else {
        assert rest[0].key !in Keys(acc);
        assert Keys(next) == Keys(acc) + [rest[0].key];
      }
      assert Keys(rest)[1..] == Keys(rest[1..]);
      CombPairsKeys(next, rest[1..]);
    }
  }

  lemma {:induction false} FirstOccurrencesDistinct(ks: seq<Value>, more: seq<Value>)
    requires Distinct(ks)
    ensures Distinct(FirstOccurrences(ks, more))
    ensures forall k :: k in FirstOccurrences(ks, more) <==> k in ks || k in more
    decreases |more|
  {
    if more != [] {
      FirstOccurrencesDistinct(if more[0] in ks then ks else ks + [more[0]], more[1..]);
      assert forall k :: k in more <==> k == more[0] || k in more[1..];
    }
  }

  lemma {:induction false} FromToPairs(ps: seq<Pair>)
    ensures ToPairs(FromPairs(ps)) == ps
  {
    if ps != [] {
      FromToPairs(ps[1..]);
      assert ([ps[0].key, ps[0].val] + FromPairs(ps[1..]))[2..] == FromPairs(ps[1..]);
    }
  }

  /** The keys of a folded list are the keys of the input, each once, in order of first
      occurrence. */
  lemma ObjectCombKeys(operands: seq<Value>)
    ensures Keys(ToPairs(ObjectComb(operands))) == FirstOccurrences([], Keys(ToPairs(operands)))
    ensures Distinct(Keys(ToPairs(ObjectComb(operands))))
  {
    var ps := ToPairs(operands);
    FromToPairs(CombPairs([], ps));
    CombPairsKeys([], ps);
    assert Keys([]) == [];
    FirstOccurrencesDistinct([], Keys(ps));
  }
}
