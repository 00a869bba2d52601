/** Merging operands built from plain data is a deep merge of the data in which the
    later value wins. */
module DeepMerge {
  import opened Operands

  datatype Entry = Entry(key: string, val: Data)

  /** JSON data; an object is its entries in enumeration order. */
  datatype Data = Scalar(p: Prim) | Array(items: seq<Data>) | Object(entries: seq<Entry>)

  /** Object keys occur once, at every level. */
  predicate WellFormed(d: Data) {
    match d
    case Scalar(_) => true
    case Array(items) => forall i :: 0 <= i < |items| ==> WellFormed(items[i])
    case Object(es) =>
      && DistinctKeys(es)
      && (forall i :: 0 <= i < |es| ==> WellFormed(es[i].val))
  }

  function Data2Operand(d: Data): Value {
    match d
    case Scalar(p) => Literal(p)
    case Array(items) => Expression("newArray", seq(|items|, i requires 0 <= i < |items| => Data2Operand(items[i])))
    case Object(es) => Expression("newObject", FromPairs(EntryPairs(es)))
  }

  function EntryPairs(es: seq<Entry>): (r: seq<Pair>)
    ensures |r| == |es|
    ensures forall i :: 0 <= i < |es| ==> r[i] == Pair(Key(es[i].key), Data2Operand(es[i].val))
  {
    seq(|es|, i requires 0 <= i < |es| => Pair(Key(es[i].key), Data2Operand(es[i].val)))
  }

  // ---------------------------------------------------------------- the reference merge

  /** The position of a key, or the number of entries when it is not there. */
  function FindKey(es: seq<Entry>, k: string): (i: nat)
    ensures i <= |es|
    ensures i < |es| ==> es[i].key == k
    ensures forall j :: 0 <= j < i ==> es[j].key != k
  {
    if es == [] || es[0].key == k then 0 else 1 + FindKey(es[1..], k)
  }

  predicate HasKey(es: seq<Entry>, k: string) {
    FindKey(es, k) < |es|
  }

  /** Two values of the same key: objects merge, anything else is overwritten. */
  function Merge(a: Data, b: Data): Data
    decreases a, 0
  {
    if a.Object? && b.Object? then Object(MergeEntries(a.entries, b.entries)) else b
  }

  function UpdatedEntry(x: Entry, ys: seq<Entry>): (r: Entry)
    ensures r.key == x.key
    decreases x, 0
  {
    if HasKey(ys, x.key) then Entry(x.key, Merge(x.val, ys[FindKey(ys, x.key)].val)) else x
  }

  function Updated(xs: seq<Entry>, ys: seq<Entry>): (r: seq<Entry>)
    ensures |r| == |xs|
    decreases xs, 0
  {
    seq(|xs|, i requires 0 <= i < |xs| => UpdatedEntry(xs[i], ys))
  }

  function OnlyIn(ys: seq<Entry>, xs: seq<Entry>): seq<Entry> {
    if ys == [] then []
    else (if HasKey(xs, ys[0].key) then [] else [ys[0]]) + OnlyIn(ys[1..], xs)
  }

  /** The entries of xs, each updated from ys, and then the entries only ys has. */
  function MergeEntries(xs: seq<Entry>, ys: seq<Entry>): seq<Entry>
    decreases xs, 1
  {
    Updated(xs, ys) + OnlyIn(ys, xs)
  }

  lemma UpdatedAt(xs: seq<Entry>, ys: seq<Entry>, i: nat)
    requires i < |xs|
    ensures Updated(xs, ys)[i] == UpdatedEntry(xs[i], ys)
  {
  }

  predicate DistinctKeys(es: seq<Entry>) {
    forall i, j :: 0 <= i < j < |es| ==> es[i].key != es[j].key
  }

  lemma HasKeyIff(es: seq<Entry>, k: string)
    ensures HasKey(es, k) <==> exists i :: 0 <= i < |es| && es[i].key == k
  {
  }

  // ---------------------------------------------------------------- one entry at a time

  function Put(cur: seq<Entry>, e: Entry): seq<Entry> {
    var i := FindKey(cur, e.key);
    if i < |cur| then cur[i := Entry(e.key, Merge(cur[i].val, e.val))] else cur + [e]
  }

  lemma FindInTail(ys: seq<Entry>, k: string)
    requires ys != [] && ys[0].key != k
    ensures FindKey(ys, k) == 1 + FindKey(ys[1..], k)
  {
  }

  lemma {:induction false} OnlyInSameKeys(ys: seq<Entry>, xs: seq<Entry>, xs': seq<Entry>)
    requires forall j :: 0 <= j < |ys| ==> (HasKey(xs, ys[j].key) <==> HasKey(xs', ys[j].key))
    ensures OnlyIn(ys, xs) == OnlyIn(ys, xs')
  {
    if ys != [] {
      forall j | 0 <= j < |ys[1..]| ensures HasKey(xs, ys[1..][j].key) <==> HasKey(xs', ys[1..][j].key) {
        assert ys[1..][j] == ys[j + 1];
      }
      OnlyInSameKeys(ys[1..], xs, xs');
    }
  }

  lemma PutKeys(xs: seq<Entry>, y: Entry, k: string)
    ensures HasKey(Put(xs, y), k) <==> HasKey(xs, k) || k == y.key
  {
    var put := Put(xs, y);
    HasKeyIff(xs, k);
    HasKeyIff(put, k);
    if HasKey(xs, k) {
      assert put[FindKey(xs, k)].key == k;
    }
    if k == y.key && !HasKey(xs, k) {
      assert put[|xs|].key == k;
    }
    if HasKey(put, k) && k != y.key {
      assert xs[FindKey(put, k)].key == k;
    }
  }

  lemma PutDistinct(xs: seq<Entry>, y: Entry)
    requires DistinctKeys(xs)
    ensures DistinctKeys(Put(xs, y))
  {
  }

  lemma OnlyInPut(xs: seq<Entry>, ys: seq<Entry>)
    requires ys != [] && DistinctKeys(ys)
    ensures OnlyIn(ys[1..], Put(xs, ys[0])) == OnlyIn(ys[1..], xs)
  {
    forall j | 0 <= j < |ys[1..]| ensures HasKey(xs, ys[1..][j].key) <==> HasKey(Put(xs, ys[0]), ys[1..][j].key) {
      assert ys[1..][j] == ys[j + 1];
      PutKeys(xs, ys[0], ys[j + 1].key);
    }
    OnlyInSameKeys(ys[1..], xs, Put(xs, ys[0]));
  }

  lemma UpdatedOther(x: Entry, ys: seq<Entry>)
    requires ys != [] && ys[0].key != x.key
    ensures UpdatedEntry(x, ys[1..]) == UpdatedEntry(x, ys)
  {
    FindInTail(ys, x.key);
  }

  lemma UpdatedSelf(x: Entry, ys: seq<Entry>)
    requires ys != [] && DistinctKeys(ys) && ys[0].key == x.key
    ensures UpdatedEntry(x, ys) == Entry(x.key, Merge(x.val, ys[0].val))
    ensures forall e: Entry :: e.key == x.key ==> UpdatedEntry(e, ys[1..]) == e
  {
    HasKeyIff(ys[1..], x.key);
  }

  lemma UpdatedPut(xs: seq<Entry>, ys: seq<Entry>, j: nat)
    requires ys != [] && DistinctKeys(xs) && DistinctKeys(ys) && j < |xs|
    ensures j < |Put(xs, ys[0])| && UpdatedEntry(Put(xs, ys[0])[j], ys[1..]) == UpdatedEntry(xs[j], ys)
  {
    var i := FindKey(xs, ys[0].key);
    if j == i {
      UpdatedSelf(xs[j], ys);
    } else {
      assert xs[j].key != ys[0].key;
      UpdatedOther(xs[j], ys);
    }
  }

  /** Merging entry by entry, for one entry. */
  lemma MergePut(xs: seq<Entry>, ys: seq<Entry>)
    requires ys != [] && DistinctKeys(xs) && DistinctKeys(ys)
    ensures MergeEntries(Put(xs, ys[0]), ys[1..]) == MergeEntries(xs, ys)
  {
    var put := Put(xs, ys[0]);
    var left, right := Updated(put, ys[1..]), Updated(xs, ys);
    forall j | 0 <= j < |xs| ensures left[j] == right[j] {
      UpdatedPut(xs, ys, j);
      UpdatedAt(put, ys[1..], j);
      UpdatedAt(xs, ys, j);
    }
    OnlyInPut(xs, ys);
    if |put| > |xs| {
      UpdatedSelf(ys[0], ys);
      UpdatedAt(put, ys[1..], |xs|);
    }
    Glue(left, right, ys[0], OnlyIn(ys[1..], xs));
  }

  lemma Glue(left: seq<Entry>, right: seq<Entry>, y: Entry, tail: seq<Entry>)
    requires |right| <= |left| <= |right| + 1
    requires forall j :: 0 <= j < |right| ==> left[j] == right[j]
    requires |left| > |right| ==> left[|right|] == y
    ensures left + tail == right + ((if |left| == |right| then [] else [y]) + tail)
  {
  }

  function PutAll(cur: seq<Entry>, es: seq<Entry>): seq<Entry>
    decreases |es|
  {
    if es == [] then cur else PutAll(Put(cur, es[0]), es[1..])
  }

  lemma {:induction false} PutAllIsMerge(xs: seq<Entry>, ys: seq<Entry>)
    requires DistinctKeys(xs) && DistinctKeys(ys)
    ensures PutAll(xs, ys) == MergeEntries(xs, ys)
    decreases |ys|
  {
    if ys == [] {
      forall i | 0 <= i < |xs| ensures Updated(xs, ys)[i] == xs[i] {
        UpdatedAt(xs, ys, i);
      }
    } else {
      MergePut(xs, ys);
      PutDistinct(xs, ys[0]);
      PutAllIsMerge(Put(xs, ys[0]), ys[1..]);
    }
  }

  // ---------------------------------------------------------------- well-formedness

  lemma {:induction false} OnlyInFrom(ys: seq<Entry>, xs: seq<Entry>, i: nat)
    requires i < |OnlyIn(ys, xs)|
    ensures OnlyIn(ys, xs)[i] in ys && !HasKey(xs, OnlyIn(ys, xs)[i].key)
  {
    if !HasKey(xs, ys[0].key) {
      if i > 0 {
        OnlyInFrom(ys[1..], xs, i - 1);
      }
    } else {
      OnlyInFrom(ys[1..], xs, i);
    }
  }

  lemma {:induction false} OnlyInDistinct(ys: seq<Entry>, xs: seq<Entry>)
    requires DistinctKeys(ys)
    ensures DistinctKeys(OnlyIn(ys, xs))
  {
    if ys != [] {
      var rest := OnlyIn(ys[1..], xs);
      OnlyInDistinct(ys[1..], xs);
      forall i | 0 <= i < |rest| ensures rest[i].key != ys[0].key {
        OnlyInFrom(ys[1..], xs, i);
        var j :| 0 <= j < |ys[1..]| && ys[1..][j] == rest[i];
        assert ys[j + 1] == rest[i];
      }
    }
  }

  lemma MergeEntriesDistinct(xs: seq<Entry>, ys: seq<Entry>)
    requires DistinctKeys(xs) && DistinctKeys(ys)
    ensures DistinctKeys(MergeEntries(xs, ys))
  {
    var left, right := Updated(xs, ys), OnlyIn(ys, xs);
    OnlyInDistinct(ys, xs);
    forall i | 0 <= i < |left| ensures left[i].key == xs[i].key {
      UpdatedAt(xs, ys, i);
    }
    forall j | 0 <= j < |right| ensures forall i :: 0 <= i < |left| ==> left[i].key != right[j].key {
      OnlyInFrom(ys, xs, j);
      HasKeyIff(xs, right[j].key);
    }
  }

  lemma {:induction false} MergeWellFormed(a: Data, b: Data)
    requires WellFormed(a) && WellFormed(b)
    ensures WellFormed(Merge(a, b))
    decreases a
  {
    if a.Object? && b.Object? {
      var xs, ys := a.entries, b.entries;
      var es := MergeEntries(xs, ys);
      MergeEntriesDistinct(xs, ys);
      forall i | 0 <= i < |es| ensures WellFormed(es[i].val) {
        if i < |xs| {
          UpdatedAt(xs, ys, i);
          if HasKey(ys, xs[i].key) {
            MergeWellFormed(xs[i].val, ys[FindKey(ys, xs[i].key)].val);
          }
        } else {
          OnlyInFrom(ys, xs, i - |xs|);
          var j :| 0 <= j < |ys| && ys[j] == es[i];
        }
      }
    }
  }

  // ---------------------------------------------------------------- operands

  lemma {:induction false} FromPairsConcat(xs: seq<Pair>, ys: seq<Pair>)
    ensures FromPairs(xs + ys) == FromPairs(xs) + FromPairs(ys)
  {
    if xs == [] {
      assert xs + ys == ys;
    } else {
      assert (xs + ys)[1..] == xs[1..] + ys;
      FromPairsConcat(xs[1..], ys);
    }
  }

  lemma {:induction false} CombPairsConcat(acc: seq<Pair>, xs: seq<Pair>, ys: seq<Pair>)
    ensures CombPairs(acc, xs + ys) == CombPairs(CombPairs(acc, xs), ys)
    decreases |xs|
  {
    if xs == [] {
      assert xs + ys == ys;
    } else {
      assert (xs + ys)[1..] == xs[1..] + ys;
      CombPairsConcat(CombNext(acc, xs[0]), xs[1..], ys);
    }
  }

  /** Pairs with distinct keys are folded to themselves. */
  lemma {:induction false} CombPairsDistinct(acc: seq<Pair>, rest: seq<Pair>)
    requires forall i, j :: 0 <= i < j < |acc + rest| ==> (acc + rest)[i].key != (acc + rest)[j].key
    ensures CombPairs(acc, rest) == acc + rest
    decreases |rest|
  {
    if rest != [] {
      assert (acc + [rest[0]]) + rest[1..] == acc + rest;
      assert forall i :: 0 <= i < |acc| ==> acc[i] == (acc + rest)[i];
      assert (acc + rest)[|acc|] == rest[0];
      assert Find(acc, rest[0].key) == |acc|;
      CombPairsDistinct(acc + [rest[0]], rest[1..]);
    }
  }

  lemma FindPairs(es: seq<Entry>, k: string)
    ensures Find(EntryPairs(es), Key(k)) == FindKey(es, k)
  {
    assert forall i :: 0 <= i < |es| ==> EntryPairs(es)[i].key == Key(es[i].key);
  }

  ghost predicate AllWellFormed(es: seq<Entry>) {
    forall i :: 0 <= i < |es| ==> WellFormed(es[i].val)
  }

  /** Folding one pair of an object's operand is putting one entry. */
  lemma {:induction false} CombNextIsPut(cur: seq<Entry>, e: Entry)
    requires AllWellFormed(cur) && WellFormed(e.val)
    ensures CombNext(EntryPairs(cur), Pair(Key(e.key), Data2Operand(e.val))) == EntryPairs(Put(cur, e))
    ensures AllWellFormed(Put(cur, e))
    decreases e.val, 3
  {
    var p := Pair(Key(e.key), Data2Operand(e.val));
    var i := FindKey(cur, e.key);
    FindPairs(cur, e.key);
    if i < |cur| {
      CombinedIsMerge(cur[i].val, e.val);
      MergeWellFormed(cur[i].val, e.val);
      assert CombNext(EntryPairs(cur), p) == EntryPairs(Put(cur, e));
    } else {
      assert CombNext(EntryPairs(cur), p) == EntryPairs(Put(cur, e));
    }
  }

  lemma {:induction false} CombPairsIsPutAll(cur: seq<Entry>, es: seq<Entry>, whole: Data)
    requires AllWellFormed(cur) && AllWellFormed(es)
    requires forall i :: 0 <= i < |es| ==> es[i].val < whole
    ensures CombPairs(EntryPairs(cur), EntryPairs(es)) == EntryPairs(PutAll(cur, es))
    decreases whole, 0, |es|
  {
    if es != [] {
      CombNextIsPut(cur, es[0]);
      assert EntryPairs(es)[1..] == EntryPairs(es[1..]);
      CombPairsIsPutAll(Put(cur, es[0]), es[1..], whole);
    }
  }

  lemma {:induction false} CombinedIsMerge(a: Data, b: Data)
    requires WellFormed(a) && WellFormed(b)
    ensures Combined(Data2Operand(a), Data2Operand(b)) == Data2Operand(Merge(a, b))
    decreases b, 2
  {
    if a.Object? && b.Object? {
      MergeOperandIsMerge(a, b);
    }
  }

  /** Merging two objects folds the second one's pairs into those of the first. */
  lemma MergeFolds(ps: seq<Pair>, qs: seq<Pair>)
    requires forall i, j :: 0 <= i < j < |ps| ==> ps[i].key != ps[j].key
    ensures ObjectComb(FromPairs(ps) + FromPairs(qs)) == FromPairs(CombPairs(ps, qs))
  {
    FromPairsConcat(ps, qs);
    FromToPairs(ps + qs);
    CombPairsConcat([], ps, qs);
    assert [] + ps == ps;
    CombPairsDistinct([], ps);
  }

  lemma DistinctPairs(es: seq<Entry>)
    requires DistinctKeys(es)
    ensures forall i, j :: 0 <= i < j < |es| ==> EntryPairs(es)[i].key != EntryPairs(es)[j].key
  {
  }

  lemma ObjectOperand(es: seq<Entry>)
    ensures Data2Operand(Object(es)) == Expression("newObject", FromPairs(EntryPairs(es)))
  {
  }

  /** Merging the operands of two objects is the operand of their deep merge. */
  lemma {:induction false} MergeOperandIsMerge(a: Data, b: Data)
    requires WellFormed(a) && WellFormed(b) && a.Object? && b.Object?
    ensures MergeOperand(Data2Operand(a), Data2Operand(b)) == Data2Operand(Merge(a, b))
    decreases b, 1
  {
    var xs, ys := a.entries, b.entries;
    DistinctPairs(xs);
    ObjectOperand(xs);
    ObjectOperand(ys);
    ObjectOperand(MergeEntries(xs, ys));
    calc {
      MergeOperand(Data2Operand(a), Data2Operand(b)).operands;
      ObjectComb(FromPairs(EntryPairs(xs)) + FromPairs(EntryPairs(ys)));
      { MergeFolds(EntryPairs(xs), EntryPairs(ys)); }
      FromPairs(CombPairs(EntryPairs(xs), EntryPairs(ys)));
      { CombPairsIsPutAll(xs, ys, b); }
      FromPairs(EntryPairs(PutAll(xs, ys)));
      { PutAllIsMerge(xs, ys); }
      FromPairs(EntryPairs(MergeEntries(xs, ys)));
    }
  }
}
