/** The merge of operands with its loop over a flat, growing list. */
module OperandUtils {
  import opened Operands
  import opened Sequences

  function From(items: seq<Value>, index: nat): seq<Value> {
    if index <= |items| then items[index..] else []
  }

  lemma KeysFrom(items: seq<Value>, index: nat)
    requires index < |items|
    ensures Keys(ToPairs(From(items, index))) == [items[index]] + Keys(ToPairs(From(items, index + 2)))
  {
    var rest := From(items, index);
    if |rest| == 1 {
      assert From(items, index + 2) == [];
    } else {
      assert rest[2..] == From(items, index + 2);
    }
  }

  /** The keys of a flat list: its even positions. */
  method EvenItems(items: seq<Value>) returns (keys: seq<Value>)
    ensures keys == Keys(ToPairs(items))
  {
    keys := [];
    var index := 0;
    assert From(items, 0) == items;
    while index < |items|
      invariant Keys(ToPairs(items)) == keys + Keys(ToPairs(From(items, index)))
    {
      KeysFrom(items, index);
      Associates(keys, [items[index]], Keys(ToPairs(From(items, index + 2))));
      keys := keys + [items[index]];
      index := index + 2;
    }
    assert From(items, index) == [] && keys + [] == keys;
  }

  method FindIndex(keys: seq<Value>, key: Value) returns (index: int)
    ensures -1 <= index < |keys|
    ensures index >= 0 ==> keys[index] == key
    ensures forall j :: 0 <= j < (if index < 0 then |keys| else index) ==> keys[j] != key
  {
    index := 0;
    while index < |keys|
      invariant 0 <= index <= |keys|
      invariant forall j :: 0 <= j < index ==> keys[j] != key
    {
      if keys[index] == key {
        return;
      }
      index := index + 1;
    }
    index := -1;
  }

  /** The pairs from position idx on. */
  ghost function PairsFrom(operands: seq<Value>, idx: nat): seq<Pair> {
    ToPairs(From(operands, idx))
  }

  /** Folding one more pair, on the flat list: the value behind a known key is updated, a new
      key and its value are appended. */
  lemma OneMorePair(acc: seq<Pair>, p: Pair, index: int)
    requires Find(acc, p.key) == if index < 0 then |acc| else index
    requires -1 <= index < |acc|
    ensures index >= 0 ==> FromPairs(acc)[2 * index + 1] == acc[index].val
    ensures index >= 0 ==>
              FromPairs(CombNext(acc, p)) == FromPairs(acc)[2 * index + 1 := Combined(acc[index].val, p.val)]
    ensures index < 0 ==> FromPairs(CombNext(acc, p)) == FromPairs(acc) + [p.key] + [p.val]
  {
    if index >= 0 {
      FromPairsUpdate(acc, index, Combined(acc[index].val, p.val));
    } else {
      FromPairsSnoc(acc, p);
    }
  }

  /** A value already folded is no larger than all the folded pairs. */
  lemma OneValue(acc: seq<Pair>, index: nat)
    requires index < |acc|
    ensures Size(acc[index].val) <= PairsSize(acc)
  {
    PairsSizeUpdate(acc, index, Undefined);
  }

  /** What a search among the keys of a flat list says about its pairs. */
  lemma LookedUp(acc: seq<Pair>, keys: seq<Value>, key: Value, index: int)
    requires keys == Keys(ToPairs(FromPairs(acc))) && -1 <= index < |keys|
    requires index >= 0 ==> keys[index] == key
    requires forall j :: 0 <= j < (if index < 0 then |keys| else index) ==> keys[j] != key
    ensures index < |acc| && Find(acc, key) == if index < 0 then |acc| else index
  {
    FromToPairs(acc);
    FindIs(acc, key, index);
  }

  /** The value that replaces the old one of a known key. */
  method CombinedValue(oldItemValue: Value, itemValue: Value) returns (value: Value)
    ensures value == Combined(oldItemValue, itemValue)
    decreases Size(oldItemValue) + Size(itemValue), 1
  {
    if IsObjectOperand(oldItemValue) && IsObjectOperand(itemValue) {
      value := MergeOperands(oldItemValue, itemValue);
    } else {
      value := itemValue;
    }
  }

  /** One round of the loop below. */
  method CombineInto(newItems: seq<Value>, itemKey: Value, itemValue: Value, ghost acc: seq<Pair>)
    returns (items: seq<Value>)
    requires newItems == FromPairs(acc)
    ensures items == FromPairs(CombNext(acc, Pair(itemKey, itemValue)))
    decreases PairsSize(acc) + Size(itemKey) + Size(itemValue), 2
  {
    var newItemKeys := EvenItems(newItems);
    var itemKeyIndex := FindIndex(newItemKeys, itemKey);
    LookedUp(acc, newItemKeys, itemKey, itemKeyIndex);
    OneMorePair(acc, Pair(itemKey, itemValue), itemKeyIndex);
    if itemKeyIndex > -1 {
      var itemValueIndex := itemKeyIndex * 2 + 1;
      OneValue(acc, itemKeyIndex);
      var value := CombinedValue(newItems[itemValueIndex], itemValue);
      items := newItems[itemValueIndex := value];
    } else {
      items := newItems + [itemKey];
      items := items + [itemValue];
    }
  }

  /** ObjectComb with its loop: keys and values alternate, a known key updates the value
      behind it, a new one is appended. */
  method ObjectCombOperand(operands: seq<Value>) returns (newItems: seq<Value>)
    ensures newItems == ObjectComb(operands)
    decreases SizeAll(operands), 3
  {
    newItems := [];
    ghost var acc: seq<Pair> := [];
    ToPairsSize(operands);
    assert From(operands, 0) == operands;
    var idx := 0;
    while idx < |operands|
      invariant newItems == FromPairs(acc)
      invariant CombPairs([], ToPairs(operands)) == CombPairs(acc, PairsFrom(operands, idx))
      invariant PairsSize(acc) + PairsSize(PairsFrom(operands, idx)) <= SizeAll(operands)
      decreases |operands| - idx
    {
      var itemKey := operands[idx];
      var itemValue := if idx + 1 < |operands| then operands[idx + 1] else Undefined;
      RestPairs(operands, idx);
      newItems := CombineInto(newItems, itemKey, itemValue, acc);
      acc := CombNext(acc, Pair(itemKey, itemValue));
      idx := idx + 2;
    }
    assert From(operands, idx) == [];
  }

  method MergeOperands(operand1: Value, operand2: Value) returns (r: Value)
    ensures r == MergeOperand(operand1, operand2)
    decreases Size(operand1) + Size(operand2), 0
  {
    if IsObjectOperand(operand1) && IsObjectOperand(operand2) {
      SizeAllConcat(operand1.operands, operand2.operands);
      var operands := ObjectCombOperand(operand1.operands + operand2.operands);
      return Expression("newObject", operands);
    }
    return operand1;
  }

  /** The pairs from position idx on start with the pair at idx. */
  lemma RestPairs(operands: seq<Value>, idx: nat)
    requires idx < |operands|
    ensures var rest := PairsFrom(operands, idx);
            && rest != []
            && rest[0] == Pair(operands[idx], if idx + 1 < |operands| then operands[idx + 1] else Undefined)
            && rest[1..] == PairsFrom(operands, idx + 2)
  {
    var tail := From(operands, idx);
    if |tail| >= 2 {
      assert tail[2..] == From(operands, idx + 2);
    } else {
      assert From(operands, idx + 2) == [];
    }
  }

  lemma FindIs(acc: seq<Pair>, key: Value, index: int)
    requires -1 <= index < |acc|
    requires index >= 0 ==> Keys(acc)[index] == key
    requires forall j :: 0 <= j < (if index < 0 then |acc| else index) ==> Keys(acc)[j] != key
    ensures Find(acc, key) == if index < 0 then |acc| else index
  {
    var i := Find(acc, key);
    if i < |acc| {
      assert Keys(acc)[i] == key;
    }
  }

  lemma FromPairsUpdate(ps: seq<Pair>, i: nat, v: Value)
    requires i < |ps|
    ensures FromPairs(ps[i := ps[i].(val := v)]) == FromPairs(ps)[2 * i + 1 := v]
    decreases ps
  {
    var ps' := ps[i := ps[i].(val := v)];
    if i == 0 {
      assert ps'[1..] == ps[1..];
    } else {
      assert ps'[1..] == ps[1..][i - 1 := ps[1..][i - 1].(val := v)];
      FromPairsUpdate(ps[1..], i - 1, v);
    }
  }

  lemma {:induction false} FromPairsSnoc(ps: seq<Pair>, p: Pair)
    ensures FromPairs(ps + [p]) == FromPairs(ps) + [p.key] + [p.val]
  {
    if ps == [] {
      assert ps + [p] == [p];
      assert [p][1..] == [];
    } else {
      assert (ps + [p])[1..] == ps[1..] + [p];
      FromPairsSnoc(ps[1..], p);
    }
  }
}
