/** What an operand stands for, and what executing it yields. */
module OperandExec {
  import opened Options
  import opened Operands
  import opened DeepMerge

  // ---------------------------------------------------------------- the data an operand stands for

  /** An object operand lists keys and values in turn, an array operand its items. */
  function Denotes(v: Value): Option<Data>
    decreases Size(v), 1
  {
    match v
    case Literal(p) => Some(Scalar(p))
    case Expression("newArray", items) =>
      var r := DenotesAll(items);
      if r.None? then None else Some(Array(r.value))
    case Expression("newObject", operands) =>
      var r := DenotesPairs(operands);
      if r.None? then None else Some(Object(r.value))
    case _ => None
  }

  function DenotesAll(vs: seq<Value>): (r: Option<seq<Data>>)
    ensures r.Some? ==> |r.value| == |vs|
    decreases SizeAll(vs), 2, |vs|
  {
    if vs == [] then Some([])
    else
      var head, rest := Denotes(vs[0]), DenotesAll(vs[1..]);
      if head.None? || rest.None? then None else Some([head.value] + rest.value)
  }

  function DenotesPairs(vs: seq<Value>): Option<seq<Entry>>
    decreases SizeAll(vs), 2, |vs|
  {
    if vs == [] then Some([])
    else if |vs| == 1 || !vs[0].Key? then None
    else
      assert vs[1..][0] == vs[1] && vs[1..][1..] == vs[2..];
      assert SizeAll(vs) == Size(vs[0]) + (Size(vs[1]) + SizeAll(vs[2..]));
      var head, rest := Denotes(vs[1]), DenotesPairs(vs[2..]);
      if head.None? || rest.None? then None else Some([Entry(vs[0].name, head.value)] + rest.value)
  }

  /** The operand made of data stands for exactly that data. */
  lemma {:induction false} DenotesData(d: Data)
    ensures Denotes(Data2Operand(d)) == Some(d)
    decreases d, 1
  {
    match d {
      case Scalar(_) =>
      case Array(items) =>
        DenotesItems(items);
        assert Data2Operand(d).operands == ItemOperands(items);
      case Object(es) => DenotesEntries(es);
    }
  }

  function ItemOperands(items: seq<Data>): seq<Value> {
    seq(|items|, i requires 0 <= i < |items| => Data2Operand(items[i]))
  }

  lemma {:induction false} DenotesItems(items: seq<Data>)
    ensures DenotesAll(ItemOperands(items)) == Some(items)
    decreases items, 0
  {
    if items != [] {
      assert ItemOperands(items)[1..] == ItemOperands(items[1..]);
      DenotesData(items[0]);
      DenotesItems(items[1..]);
      assert [items[0]] + items[1..] == items;
    }
  }

  lemma {:induction false} DenotesEntries(es: seq<Entry>)
    ensures DenotesPairs(FromPairs(EntryPairs(es))) == Some(es)
    decreases es, 0
  {
    if es != [] {
      var ps := EntryPairs(es);
      assert ps[1..] == EntryPairs(es[1..]);
      assert FromPairs(ps)[2..] == FromPairs(ps[1..]);
      DenotesData(es[0].val);
      DenotesEntries(es[1..]);
      assert [Entry(es[0].key, es[0].val)] + es[1..] == es;
    }
  }

  /** So different data have different operands. */
  lemma Data2OperandInjective(a: Data, b: Data)
    requires Data2Operand(a) == Data2Operand(b)
    ensures a == b
  {
    DenotesData(a);
    DenotesData(b);
  }

  /** Merging the operands of two objects stands for their deep merge. */
  lemma MergedDenotes(a: Data, b: Data)
    requires WellFormed(a) && WellFormed(b) && a.Object? && b.Object?
    ensures Denotes(MergeOperand(Data2Operand(a), Data2Operand(b))) == Some(Merge(a, b))
  {
    MergeOperandIsMerge(a, b);
    DenotesData(Merge(a, b));
  }

  // ---------------------------------------------------------------- executing

  /** What calling the Array constructor makes of its arguments: a single number is a length,
      which throws unless it fits 32 bits.  The holes of such an array read as null here. */
  function NewArray(args: seq<Data>): Option<Data> {
    if |args| == 1 && args[0].Scalar? && args[0].p.Number? then
      var n := args[0].p.n;
      if 0 <= n < 0x1_0000_0000 then Some(Array(seq(n, _ => Scalar(Null)))) else None
    else Some(Array(args))
  }

  /** The object of a list of entries: of two with one key the later one counts. */
  function FromEntries(es: seq<Entry>): seq<Entry> {
    if es == [] then []
    else
      var n := |es| - 1;
      var before := FromEntries(es[..n]);
      var at := FindKey(before, es[n].key);
      if at < |before| then before[at := es[n]] else before + [es[n]]
  }

  /** Executing an operand whose expressions build objects and arrays.  None stands for a throw
      and for operators and forms that are not modelled. */
  function Exec(v: Value): Option<Data>
    decreases Size(v), 1
  {
    match v
    case Key(name) => Some(Scalar(Text(name)))
    case Literal(p) => Some(Scalar(p))
    case Expression("newArray", items) =>
      var args := ExecAll(items);
      if args.None? then None else NewArray(args.value)
    case Expression("newObject", operands) =>
      var r := ExecPairs(operands);
      if r.None? then None else Some(Object(FromEntries(r.value)))
    case _ => None
  }

  function ExecAll(vs: seq<Value>): (r: Option<seq<Data>>)
    ensures r.Some? ==> |r.value| == |vs|
    decreases SizeAll(vs), 2, |vs|
  {
    if vs == [] then Some([])
    else
      var head, rest := Exec(vs[0]), ExecAll(vs[1..]);
      if head.None? || rest.None? then None else Some([head.value] + rest.value)
  }

  function ExecPairs(vs: seq<Value>): Option<seq<Entry>>
    decreases SizeAll(vs), 2, |vs|
  {
    if vs == [] then Some([])
    else if |vs| == 1 || !vs[0].Key? then None
    else
      assert vs[1..][0] == vs[1] && vs[1..][1..] == vs[2..];
      assert SizeAll(vs) == Size(vs[0]) + (Size(vs[1]) + SizeAll(vs[2..]));
      var head, rest := Exec(vs[1]), ExecPairs(vs[2..]);
      if head.None? || rest.None? then None else Some([Entry(vs[0].name, head.value)] + rest.value)
  }

  /** An array whose only item is a number. */
  predicate LoneNumber(items: seq<Data>) {
    |items| == 1 && items[0].Scalar? && items[0].p.Number?
  }

  /** No array in the data holds a number and nothing else. */
  predicate NoLoneNumber(d: Data) {
    match d
    case Scalar(_) => true
    case Array(items) => !LoneNumber(items) && forall i :: 0 <= i < |items| ==> NoLoneNumber(items[i])
    case Object(es) => forall i :: 0 <= i < |es| ==> NoLoneNumber(es[i].val)
  }

  lemma {:induction false} FromEntriesDistinct(es: seq<Entry>)
    requires DistinctKeys(es)
    ensures FromEntries(es) == es
  {
    if es != [] {
      var n := |es| - 1;
      FromEntriesDistinct(es[..n]);
      assert FindKey(es[..n], es[n].key) == n;
      assert es[..n] + [es[n]] == es;
    }
  }

  lemma {:induction false} FromEntriesWellFormed(es: seq<Entry>)
    requires AllWellFormed(es)
    ensures WellFormed(Object(FromEntries(es)))
  {
    if es != [] {
      FromEntriesWellFormed(es[..|es| - 1]);
    }
  }

  lemma {:induction false} FromEntriesKeys(es: seq<Entry>, i: nat)
    requires i < |FromEntries(es)|
    ensures FromEntries(es)[i] in es
  {
    var n := |es| - 1;
    if FromEntries(es)[i] != es[n] {
      FromEntriesKeys(es[..n], i);
      assert forall e :: e in es[..n] ==> e in es;
    }
  }

  lemma {:induction false} FromEntriesOnce(es: seq<Entry>)
    ensures DistinctKeys(FromEntries(es))
  {
    if es != [] {
      FromEntriesOnce(es[..|es| - 1]);
    }
  }

  lemma FindOnly(es: seq<Entry>, i: nat)
    requires DistinctKeys(es) && i < |es|
    ensures FindKey(es, es[i].key) == i
  {
  }

  /** Each key holds the value of its last entry. */
  lemma {:induction false} FromEntriesLast(es: seq<Entry>, i: nat)
    requires i < |es| && forall j :: i < j < |es| ==> es[j].key != es[i].key
    ensures var r := FromEntries(es);
            HasKey(r, es[i].key) && r[FindKey(r, es[i].key)].val == es[i].val
  {
    var n, r := |es| - 1, FromEntries(es);
    var before := FromEntries(es[..n]);
    var at := FindKey(before, es[n].key);
    FromEntriesOnce(es);
    if i == n {
      assert r[at] == es[n];
      FindOnly(r, at);
    } else {
      assert es[..n][i] == es[i];
      FromEntriesLast(es[..n], i);
      var p := FindKey(before, es[i].key);
      assert r[p] == before[p];
      FindOnly(r, p);
    }
  }

  /** Whatever execution yields has no key twice in an object, at any level. */
  lemma {:induction false} ExecWellFormed(v: Value)
    ensures Exec(v).Some? ==> WellFormed(Exec(v).value)
    decreases Size(v), 1
  {
    if v.Expression? && Exec(v).Some? {
      if v.operator == "newArray" {
        ExecAllWellFormed(v.operands);
      } else {
        ExecPairsWellFormed(v.operands);
        FromEntriesWellFormed(ExecPairs(v.operands).value);
      }
    }
  }

  lemma {:induction false} ExecAllWellFormed(vs: seq<Value>)
    ensures ExecAll(vs).Some? ==> WellFormed(Array(ExecAll(vs).value))
    decreases SizeAll(vs), 2, |vs|
  {
    if vs != [] {
      ExecWellFormed(vs[0]);
      ExecAllWellFormed(vs[1..]);
    }
  }

  lemma {:induction false} ExecPairsWellFormed(vs: seq<Value>)
    ensures ExecPairs(vs).Some? ==> AllWellFormed(ExecPairs(vs).value)
    decreases SizeAll(vs), 2, |vs|
  {
    if |vs| >= 2 {
      assert vs[1..][0] == vs[1] && vs[1..][1..] == vs[2..];
      assert SizeAll(vs) == Size(vs[0]) + (Size(vs[1]) + SizeAll(vs[2..]));
      ExecWellFormed(vs[1]);
      ExecPairsWellFormed(vs[2..]);
    }
  }

  lemma {:induction false} ExecAllAt(vs: seq<Value>)
    ensures ExecAll(vs).Some? <==> forall i :: 0 <= i < |vs| ==> Exec(vs[i]).Some?
    ensures ExecAll(vs).Some? ==> forall i :: 0 <= i < |vs| ==> Exec(vs[i]) == Some(ExecAll(vs).value[i])
  {
    if vs != [] {
      ExecAllAt(vs[1..]);
      assert forall i :: 0 < i < |vs| ==> vs[i] == vs[1..][i - 1];
      assert forall i :: 0 <= i < |vs[1..]| ==> vs[1..][i] == vs[i + 1];
    }
  }

  lemma {:induction false} ExecPairsAt(ps: seq<Pair>)
    requires forall i :: 0 <= i < |ps| ==> ps[i].key.Key?
    ensures var r := ExecPairs(FromPairs(ps));
            && (r.Some? <==> forall i :: 0 <= i < |ps| ==> Exec(ps[i].val).Some?)
            && (r.Some? ==>
                  && |r.value| == |ps|
                  && forall i :: 0 <= i < |ps| ==>
                       r.value[i].key == ps[i].key.name && Exec(ps[i].val) == Some(r.value[i].val))
  {
    if ps != [] {
      ExecPairsAt(ps[1..]);
      assert FromPairs(ps)[2..] == FromPairs(ps[1..]);
      assert forall i :: 0 < i < |ps| ==> ps[i] == ps[1..][i - 1];
      assert forall i :: 0 <= i < |ps[1..]| ==> ps[1..][i] == ps[i + 1];
    }
  }

  /** Only a scalar's operand yields a scalar. */
  lemma ExecKind(d: Data)
    ensures d.Scalar? ==> Exec(Data2Operand(d)) == Some(d)
    ensures !d.Scalar? ==> Exec(Data2Operand(d)).None? || !Exec(Data2Operand(d)).value.Scalar?
  {
  }

  /** Executing the operand of an array gives it back exactly when that holds of every item and
      the array is not a number alone. */
  lemma ExecArrayIff(items: seq<Data>)
    ensures Exec(Data2Operand(Array(items))) == Some(Array(items)) <==>
            !LoneNumber(items) && forall i :: 0 <= i < |items| ==> Exec(Data2Operand(items[i])) == Some(items[i])
  {
    var vs := ItemOperands(items);
    assert Data2Operand(Array(items)) == Expression("newArray", vs);
    ExecAllAt(vs);
    var args := ExecAll(vs);
    if LoneNumber(items) {
      ExecKind(items[0]);
      assert args.value == items;
      var nulls := seq(if items[0].p.n < 0 then 0 else items[0].p.n, _ => Scalar(Null));
      assert |nulls| == 1 ==> nulls[0] != items[0];
    } else if forall i :: 0 <= i < |items| ==> Exec(Data2Operand(items[i])) == Some(items[i]) {
      assert args.value == items;
    } else if args.Some? {
      var i :| 0 <= i < |items| && Exec(Data2Operand(items[i])) != Some(items[i]);
      assert Exec(vs[i]) == Some(args.value[i]);
      assert args.value != items;
      if LoneNumber(args.value) {
        ExecKind(items[0]);
      }
    }
  }

  lemma SameEntries(xs: seq<Entry>, ys: seq<Entry>)
    requires |xs| == |ys| && forall i :: 0 <= i < |xs| ==> xs[i].key == ys[i].key
    ensures xs == ys <==> forall i :: 0 <= i < |xs| ==> xs[i].val == ys[i].val
  {
  }

  /** Objects with distinct keys are built entry by entry. */
  lemma {:induction false} ExecObject(es: seq<Entry>, r: Option<seq<Entry>>)
    requires DistinctKeys(es) && r == ExecPairs(FromPairs(EntryPairs(es)))
    ensures r.Some? ==> |r.value| == |es| && forall i :: 0 <= i < |es| ==> r.value[i].key == es[i].key
    ensures Exec(Data2Operand(Object(es))) == if r.None? then None else Some(Object(r.value))
  {
    ExecPairsAt(EntryPairs(es));
    if r.Some? {
      FromEntriesDistinct(r.value);
    }
  }

  lemma ExecObjectIff(es: seq<Entry>)
    requires DistinctKeys(es)
    ensures Exec(Data2Operand(Object(es))) == Some(Object(es)) <==>
            forall i :: 0 <= i < |es| ==> Exec(Data2Operand(es[i].val)) == Some(es[i].val)
  {
    var r := ExecPairs(FromPairs(EntryPairs(es)));
    ExecPairsAt(EntryPairs(es));
    ExecObject(es, r);
    if r.Some? {
      SameEntries(r.value, es);
    }
  }

  /** Executing the operand made of data yields the data exactly when no array in it is a number
      alone, which the Array constructor takes for a length. */
  lemma {:induction false} ExecDataIff(d: Data)
    requires WellFormed(d)
    ensures Exec(Data2Operand(d)) == Some(d) <==> NoLoneNumber(d)
    decreases d
  {
    match d {
      case Scalar(_) =>
      case Array(items) =>
        ExecArrayIff(items);
        forall i | 0 <= i < |items| ensures Exec(Data2Operand(items[i])) == Some(items[i]) <==> NoLoneNumber(items[i]) {
          ExecDataIff(items[i]);
        }
      case Object(es) =>
        ExecObjectIff(es);
        forall i | 0 <= i < |es| ensures Exec(Data2Operand(es[i].val)) == Some(es[i].val) <==> NoLoneNumber(es[i].val) {
          ExecDataIff(es[i].val);
        }
    }
  }

  /** The list of a number alone comes out as a list of that many holes, or not at all. */
  lemma LoneNumberIsLength(n: int)
    ensures var r := Exec(Data2Operand(Array([Scalar(Number(n))])));
            && (r.Some? <==> 0 <= n < 0x1_0000_0000)
            && (r.Some? ==>
                  && r.value.Array? && |r.value.items| == n
                  && forall i :: 0 <= i < n ==> r.value.items[i] == Scalar(Null))
  {
    var items := [Scalar(Number(n))];
    ExecAllAt(ItemOperands(items));
    assert ExecAll(ItemOperands(items)).value == items;
  }
}
