/** The manager of references between computed fields. */
module Compute {
  import opened References

  class ComputeRefManager {
    var refMap: RefMap
    var reRefMap: RefMap

    constructor (refMap: RefMap, reRefMap: RefMap)
      ensures View() == Refs(refMap, reRefMap)
    {
      this.refMap, this.reRefMap := refMap, reRefMap;
    }

    ghost function View(): Refs
      reads this
    {
      Refs(refMap, reRefMap)
    }

    method AddReRef(key: Key, value: set<Key>)
      modifies this`reRefMap
      ensures reRefMap == old(reRefMap)[key := value]
    {
      reRefMap := reRefMap[key := value];
    }

    method AddRef(key: Key, value: Key)
      modifies this`refMap
      ensures refMap == old(refMap)[key := Succ(old(refMap), key) + {value}]
    {
      if key in refMap {
        refMap := refMap[key := refMap[key] + {value}];
      } else {
        refMap := refMap[key := {value}];
        assert {} + {value} == {value};
      }
    }

    /** What computing the references of one field does: the forward entry is replaced,
        the backward entries are added one by one. */
    method RecordField(key: Key, deps: set<Key>)
      modifies this
      ensures View() == Recorded(old(View()), key, deps)
    {
      RecordedNothing(View(), key);
      AddReRef(key, deps);
      var todo := deps;
      assert deps - todo == {};
      while todo != {}
        invariant todo <= deps
        invariant reRefMap == old(reRefMap)[key := deps]
        invariant refMap == Recorded(old(View()), key, deps - todo).refMap
      {
        var d :| d in todo;
        RecordedOneMore(old(View()), key, deps - todo, d);
        AddRef(d, key);
        assert deps - (todo - {d}) == (deps - todo) + {d};
        todo := todo - {d};
      }
      assert deps - {} == deps;
    }

    method CleanFieldRef(key: Key)
      modifies this
      ensures View() == Cleaned(old(View()), key)
    {
      if key in reRefMap {
        var thisFieldDeps := reRefMap[key];
        var todo := thisFieldDeps;
        ghost var g := View();
        while todo != {}
          invariant todo <= thisFieldDeps
          invariant reRefMap == g.reRefMap
          invariant refMap == WithoutEdges(g.refMap, key, thisFieldDeps - todo)
        {
          var item :| item in todo;
          CleanedOneMore(g.refMap, key, thisFieldDeps - todo, item);
          if item in refMap {
            var thisFieldDep := refMap[item] - {key};
            refMap := refMap[item := thisFieldDep];
            if thisFieldDep == {} {
              refMap := refMap - {item};
            }
          }
          assert thisFieldDeps - (todo - {item}) == (thisFieldDeps - todo) + {item};
          todo := todo - {item};
        }
        assert thisFieldDeps - {} == thisFieldDeps;
        reRefMap := reRefMap - {key};
      }
    }

    method Clear()
      modifies this
      ensures View() == Refs(map[], map[])
    {
      refMap, reRefMap := map[], map[];
    }

    /** Exactly the keys that can be reached by one or more references, also when the
        references are circular. */
    method GetAllEffectKeysByKey(key: Key) returns (effectedKeys: set<Key>)
      ensures forall k :: k in effectedKeys <==> ReachesPlus(refMap, key, k)
    {
      effectedKeys := Collect(refMap, key, {});
      forall k | ReachesPlus(refMap, key, k) ensures k in effectedKeys {
        ClosedReaches(refMap, effectedKeys, key, k);
      }
    }

    /** False when a circular reference is found on some way from key. */
    method CheckRef(key: Key, visitedNode: set<Key> := {}) returns (ok: bool)
      ensures ok == CheckRefFrom(reRefMap, key, visitedNode)
      ensures visitedNode == {} ==> (ok <==> !CycleReachable(reRefMap, key))
      decreases reRefMap.Keys - visitedNode
    {
      CheckRefIff(reRefMap, key);
      if key in visitedNode {
        return false;
      }
      var visited := visitedNode + {key};
      if key in reRefMap {
        var todo := reRefMap[key];
        while todo != {}
          invariant todo <= reRefMap[key]
          invariant forall child | child in reRefMap[key] - todo :: CheckRefFrom(reRefMap, child, visited)
        {
          var child :| child in todo;
          var good := CheckRef(child, visited);
          if !good {
            return false;
          }
          todo := todo - {child};
        }
      }
      return true;
    }
  }

  /** Adds everything reachable from refKey to what has been collected so far, not
      entering keys collected before. */
  method Collect(refMap: RefMap, refKey: Key, collected: set<Key>) returns (result: set<Key>)
    ensures collected <= result && Succ(refMap, refKey) <= result
    ensures forall v :: v in result - collected ==> Succ(refMap, v) <= result && ReachesPlus(refMap, refKey, v)
    decreases Targets(refMap) - collected
  {
    result := collected;
    if refKey in refMap {
      var todo := refMap[refKey];
      while todo != {}
        invariant todo <= refMap[refKey] && collected <= result
        invariant refMap[refKey] - todo <= result
        invariant forall v :: v in result - collected ==> Succ(refMap, v) <= result && ReachesPlus(refMap, refKey, v)
      {
        var key :| key in todo;
        if key !in result {
          assert key in Targets(refMap);
          ghost var before := result;
          result := Collect(refMap, key, result + {key});
          EdgeReaches(refMap, refKey, key);
          forall v | v in result - collected ensures Succ(refMap, v) <= result && ReachesPlus(refMap, refKey, v) {
            if v !in before && v != key {
              ReachesThrough(refMap, refKey, key, v);
            }
          }
        }
        todo := todo - {key};
      }
    }
  }

  lemma RecordedNothing(g: Refs, key: Key)
    ensures Recorded(g, key, {}).refMap == g.refMap
  {
    forall a | a in g.refMap ensures Succ(g.refMap, a) + {} == g.refMap[a] {
    }
  }

  lemma CleanedOneMore(m: RefMap, key: Key, done: set<Key>, item: Key)
    requires item !in done
    ensures var r := WithoutEdges(m, key, done);
            WithoutEdges(m, key, done + {item}) ==
            if item !in r then r
            else if r[item] - {key} == {} then r - {item}
            else r[item := r[item] - {key}]
  {
  }

  lemma RecordedAt(g: Refs, key: Key, deps: set<Key>, a: Key)
    ensures Succ(Recorded(g, key, deps).refMap, a) == Succ(g.refMap, a) + (if a in deps then {key} else {})
  {
  }

  lemma RecordedOneMore(g: Refs, key: Key, done: set<Key>, d: Key)
    ensures var r := Recorded(g, key, done).refMap;
            Recorded(g, key, done + {d}).refMap == r[d := Succ(r, d) + {key}]
  {
    var r, r' := Recorded(g, key, done).refMap, Recorded(g, key, done + {d}).refMap;
    assert r'.Keys == r.Keys + {d};
    forall a | a in r' ensures r'[a] == r[d := Succ(r, d) + {key}][a] {
      RecordedAt(g, key, done, a);
      RecordedAt(g, key, done + {d}, a);
      assert r'[a] == Succ(r', a);
    }
  }

  lemma ReachesThrough(m: RefMap, a: Key, b: Key, c: Key)
    requires Edge(m, a, b) && ReachesPlus(m, b, c)
    ensures ReachesPlus(m, a, c)
  {
    var p :| WalkFromTo(m, p, b, c) && |p| >= 2;
    WalkCons(m, a, p);
    assert WalkFromTo(m, [a] + p, a, c);
  }

  // ---------------------------------------------------------------- datasheets

  function KeyOf(dstId: string, fieldId: string): Key {
    dstId + "-" + fieldId
  }

  /** The part of a key before its first dash. */
  function DstOf(key: Key): string {
    if key == "" || key[0] == '-' then "" else [key[0]] + DstOf(key[1..])
  }

  /** The datasheet id can be read back from a key exactly when it has no dash. */
  lemma {:induction false} DstOfKeyOf(dstId: string, fieldId: string)
    ensures DstOf(KeyOf(dstId, fieldId)) == dstId <==> '-' !in dstId
    ensures |DstOf(KeyOf(dstId, fieldId))| <= |dstId|
  {
    if dstId != "" {
      assert KeyOf(dstId, fieldId)[1..] == KeyOf(dstId[1..], fieldId);
      DstOfKeyOf(dstId[1..], fieldId);
      assert dstId == [dstId[0]] + dstId[1..];
      assert '-' in dstId <==> dstId[0] == '-' || '-' in dstId[1..];
    }
  }

  /** It is the longest start of the key without a dash. */
  lemma {:induction false} DstOfIs(key: Key)
    ensures var d := DstOf(key);
            d <= key && '-' !in d && (|d| < |key| ==> key[|d|] == '-')
  {
    if key != "" && key[0] != '-' {
      DstOfIs(key[1..]);
      assert key == [key[0]] + key[1..];
    }
  }

  function AllKeys(dstId: string, fieldIds: seq<string>): seq<Key> {
    seq(|fieldIds|, i requires 0 <= i < |fieldIds| => KeyOf(dstId, fieldIds[i]))
  }

  /** Some field of the datasheet reaches the key. */
  ghost predicate FromSome(m: RefMap, dstId: string, fieldIds: seq<string>, k: Key) {
    exists i :: 0 <= i < |fieldIds| && ReachesPlus(m, dstId + "-" + fieldIds[i], k)
  }

  /** The datasheets of all keys reachable from any field of a datasheet. */
  method GetRefDstIds(dstId: string, fieldIds: seq<string>, refMap: RefMap) returns (dstIds: set<string>)
    ensures forall d :: d in dstIds <==> exists k :: DstOf(k) == d && FromSome(refMap, dstId, fieldIds, k)
  {
    var allKeys := AllKeys(dstId, fieldIds);
    var allDependenceKeys: set<Key> := {};
    for n := 0 to |allKeys|
      invariant Closed(refMap, allDependenceKeys)
      invariant forall i :: 0 <= i < n ==> Succ(refMap, allKeys[i]) <= allDependenceKeys
      invariant forall k :: k in allDependenceKeys ==> FromSome(refMap, dstId, fieldIds, k)
    {
      ghost var before := allDependenceKeys;
      allDependenceKeys := Collect(refMap, allKeys[n], allDependenceKeys);
      forall k | k in allDependenceKeys ensures FromSome(refMap, dstId, fieldIds, k) {
        if k !in before {
          assert ReachesPlus(refMap, dstId + "-" + fieldIds[n], k);
        }
      }
    }
    forall k | FromSome(refMap, dstId, fieldIds, k) ensures k in allDependenceKeys {
      var i :| 0 <= i < |fieldIds| && ReachesPlus(refMap, dstId + "-" + fieldIds[i], k);
      ClosedReaches(refMap, allDependenceKeys, allKeys[i], k);
    }
    dstIds := set k | k in allDependenceKeys :: DstOf(k);
  }
}
