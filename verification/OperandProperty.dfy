/** Reading a property back from an object operand. */
module OperandProperty {
  import opened Operands
  import opened DeepMerge
  import opened Sequences

  datatype Schema = ObjectSchema | ArraySchema | OtherSchema

  const EMPTY_NULL: Value := Literal(Null)

  function GetObjectOperandProperty(v: Value, key: string, schema: Schema): Value {
    if IsObjectOperand(v) then
      var i := IndexOf(v.operands, Key(key));
      if i < 0 then EMPTY_NULL else if i + 1 < |v.operands| then v.operands[i + 1] else Undefined
    else if v == Undefined || v == Key("") then EMPTY_NULL
    else
      match schema
      case ObjectSchema => Expression("newObject", [])
      case ArraySchema => Expression("newArray", [])
      case OtherSchema => EMPTY_NULL
  }

  /** Where the key stands in a flat list; -1 when it is not a key of any pair. */
  function KeyPosition(ps: seq<Pair>, key: string): int {
    var at := Find(ps, Key(key));
    if at < |ps| then 2 * at else -1
  }

  /** No value in front of the key's own pair is the bare string of the key. */
  predicate NotShadowed(ps: seq<Pair>, key: string) {
    forall i :: 0 <= i < Find(ps, Key(key)) ==> ps[i].val != Key(key)
  }

  /** The search, which looks at values too, finds the key's position exactly when no value
      shadows it. */
  lemma PositionInPairsIff(ps: seq<Pair>, key: string)
    ensures IndexOf(FromPairs(ps), Key(key)) == KeyPosition(ps, key) <==> NotShadowed(ps, key)
  {
    if NotShadowed(ps, key) {
      PositionInPairs(ps, key);
    } else {
      var i :| 0 <= i < Find(ps, Key(key)) && ps[i].val == Key(key);
      assert FromPairs(ps)[2 * i + 1] == Key(key);
    }
  }

  lemma {:induction false} PositionInPairs(ps: seq<Pair>, key: string)
    requires NotShadowed(ps, key)
    ensures IndexOf(FromPairs(ps), Key(key)) == KeyPosition(ps, key)
  {
    var at, vs := Find(ps, Key(key)), FromPairs(ps);
    forall j | 0 <= j < 2 * at && j < |vs| ensures vs[j] != Key(key) {
      var m := j / 2;
      assert j == 2 * m || j == 2 * m + 1;
      assert vs[2 * m] == ps[m].key && vs[2 * m + 1] == ps[m].val;
    }
    if at < |ps| {
      assert vs[2 * at] == Key(key);
    }
  }

  lemma PositionInData(es: seq<Entry>, key: string)
    ensures IndexOf(FromPairs(EntryPairs(es)), Key(key)) == if HasKey(es, key) then 2 * FindKey(es, key) else -1
  {
    var ps := EntryPairs(es);
    forall i | 0 <= i < |ps| ensures !ps[i].val.Key? {
      assert ps[i].val == Data2Operand(es[i].val);
    }
    FindPairs(es, key);
    PositionInPairsIff(ps, key);
  }

  /** A property of an object's operand is the operand of the object's property, or null. */
  lemma PropertyOfData(es: seq<Entry>, key: string, schema: Schema)
    ensures GetObjectOperandProperty(Data2Operand(Object(es)), key, schema) ==
            Data2Operand(if HasKey(es, key) then es[FindKey(es, key)].val else Scalar(Null))
  {
    var ps := EntryPairs(es);
    PositionInData(es, key);
    assert Data2Operand(Object(es)).operands == FromPairs(ps);
    if HasKey(es, key) {
      var at := FindKey(es, key);
      assert FromPairs(ps)[2 * at + 1] == ps[at].val;
    }
  }

  /** What the later object, the earlier one, or both together say about a key. */
  function MergedProperty(xs: seq<Entry>, ys: seq<Entry>, key: string): Value {
    if HasKey(xs, key) && HasKey(ys, key) then Data2Operand(Merge(xs[FindKey(xs, key)].val, ys[FindKey(ys, key)].val))
    else if HasKey(xs, key) then Data2Operand(xs[FindKey(xs, key)].val)
    else if HasKey(ys, key) then Data2Operand(ys[FindKey(ys, key)].val)
    else Data2Operand(Scalar(Null))
  }

  /** The entry under a key, if there is one. */
  function EntryOf(es: seq<Entry>, key: string): seq<Entry> {
    if HasKey(es, key) then [es[FindKey(es, key)]] else []
  }

  lemma EntryOfCons(e: Entry, es: seq<Entry>, key: string)
    ensures EntryOf([e] + es, key) == if e.key == key then [e] else EntryOf(es, key)
  {
    assert ([e] + es)[1..] == es;
  }

  lemma {:induction false} FindOnlyIn(ys: seq<Entry>, xs: seq<Entry>, key: string)
    requires !HasKey(xs, key)
    ensures EntryOf(OnlyIn(ys, xs), key) == EntryOf(ys, key)
  {
    if ys != [] {
      FindOnlyIn(ys[1..], xs, key);
      var rest := OnlyIn(ys[1..], xs);
      EntryOfCons(ys[0], ys[1..], key);
      EntryOfCons(ys[0], rest, key);
      assert ys == [ys[0]] + ys[1..];
      assert [] + rest == rest;
    }
  }

  lemma {:induction false} FindConcat(xs: seq<Entry>, ys: seq<Entry>, key: string)
    ensures FindKey(xs + ys, key) == if HasKey(xs, key) then FindKey(xs, key) else |xs| + FindKey(ys, key)
  {
    if xs == [] {
      assert xs + ys == ys;
    } else {
      assert (xs + ys)[1..] == xs[1..] + ys;
      FindConcat(xs[1..], ys, key);
    }
  }

  lemma FindUpdated(xs: seq<Entry>, ys: seq<Entry>, key: string)
    ensures FindKey(Updated(xs, ys), key) == FindKey(xs, key)
  {
    var at, at' := FindKey(xs, key), FindKey(Updated(xs, ys), key);
    forall i | 0 <= i < |xs| ensures Updated(xs, ys)[i].key == xs[i].key {
      UpdatedAt(xs, ys, i);
    }
  }

  lemma MergedHas(xs: seq<Entry>, ys: seq<Entry>, key: string)
    requires HasKey(xs, key)
    ensures var es := MergeEntries(xs, ys);
            HasKey(es, key) && es[FindKey(es, key)] == UpdatedEntry(xs[FindKey(xs, key)], ys)
  {
    FindConcat(Updated(xs, ys), OnlyIn(ys, xs), key);
    FindUpdated(xs, ys, key);
    UpdatedAt(xs, ys, FindKey(xs, key));
  }

  lemma MergedLacks(xs: seq<Entry>, ys: seq<Entry>, key: string)
    requires !HasKey(xs, key)
    ensures EntryOf(MergeEntries(xs, ys), key) == EntryOf(ys, key)
  {
    FindConcat(Updated(xs, ys), OnlyIn(ys, xs), key);
    FindUpdated(xs, ys, key);
    FindOnlyIn(ys, xs, key);
  }

  /** Reading a property after merging two objects gives the merge of the property. */
  lemma PropertyOfMerge(a: Data, b: Data, key: string, schema: Schema)
    requires WellFormed(a) && WellFormed(b) && a.Object? && b.Object?
    ensures GetObjectOperandProperty(MergeOperand(Data2Operand(a), Data2Operand(b)), key, schema) ==
            MergedProperty(a.entries, b.entries, key)
  {
    var xs, ys := a.entries, b.entries;
    MergeOperandIsMerge(a, b);
    assert Merge(a, b) == Object(MergeEntries(xs, ys));
    PropertyOfData(MergeEntries(xs, ys), key, schema);
    if HasKey(xs, key) {
      MergedHas(xs, ys, key);
    } else {
      MergedLacks(xs, ys, key);
    }
  }

  /** What has no properties gives an empty value of the property's kind, but null where there is
      nothing at all. */
  lemma PropertyOfNoObject(v: Value, key: string, schema: Schema)
    requires forall operands :: v != Expression("newObject", operands)
    ensures GetObjectOperandProperty(v, key, schema) ==
            Data2Operand(if v == Undefined || v == Key("") then Scalar(Null)
                         else match schema
                              case ObjectSchema => Object([])
                              case ArraySchema => Array([])
                              case OtherSchema => Scalar(Null))
  {
    assert EntryPairs([]) == [];
  }

  /** A bare string in a value position that equals the key is taken for the key. */
  lemma ValueTakenForKey()
    ensures var v := Expression("newObject", [Key("a"), Key("b"), Key("b"), Literal(Number(1))]);
            GetObjectOperandProperty(v, "b", OtherSchema) == Key("b")
  {
    var vs := [Key("a"), Key("b"), Key("b"), Literal(Number(1))];
    var i := IndexOf(vs, Key("b"));
    assert vs[1] == Key("b") && vs[0] != Key("b");
    assert i == 1;
  }
}
