/** Reference graphs of computed fields: walks, reachability, cycles, and the two
    maps as values. */
module References {
  type Key = string
  type RefMap = map<Key, set<Key>>

  function Succ(m: RefMap, k: Key): set<Key> {
    if k in m then m[k] else {}
  }

  predicate Edge(m: RefMap, a: Key, b: Key) {
    a in m && b in m[a]
  }

  ghost predicate Walk(m: RefMap, p: seq<Key>) {
    p != [] && forall i :: 0 <= i < |p| - 1 ==> Edge(m, p[i], p[i + 1])
  }

  ghost predicate WalkFromTo(m: RefMap, p: seq<Key>, a: Key, b: Key) {
    Walk(m, p) && p[0] == a && p[|p| - 1] == b
  }

  /** b can be reached from a by any number of edges. */
  ghost predicate Reaches(m: RefMap, a: Key, b: Key) {
    exists p :: WalkFromTo(m, p, a, b)
  }

  /** b can be reached from a by at least one edge. */
  ghost predicate ReachesPlus(m: RefMap, a: Key, b: Key) {
    exists p :: WalkFromTo(m, p, a, b) && |p| >= 2
  }

  ghost predicate CycleReachable(m: RefMap, a: Key) {
    exists v :: Reaches(m, a, v) && ReachesPlus(m, v, v)
  }

  lemma WalkTail(m: RefMap, p: seq<Key>)
    requires Walk(m, p) && |p| >= 2
    ensures Edge(m, p[0], p[1]) && Walk(m, p[1..])
  {
    forall i | 0 <= i < |p[1..]| - 1 ensures Edge(m, p[1..][i], p[1..][i + 1]) {
      assert Edge(m, p[i + 1], p[i + 2]);
    }
  }

  lemma WalkSnoc(m: RefMap, p: seq<Key>, b: Key)
    requires Walk(m, p) && Edge(m, p[|p| - 1], b)
    ensures Walk(m, p + [b])
  {
  }

  lemma WalkCons(m: RefMap, a: Key, p: seq<Key>)
    requires Walk(m, p) && Edge(m, a, p[0])
    ensures Walk(m, [a] + p)
  {
  }

  lemma WalkSlice(m: RefMap, p: seq<Key>, i: nat, j: nat)
    requires Walk(m, p) && i < j <= |p|
    ensures Walk(m, p[i..j])
  {
    forall k | 0 <= k < j - i - 1 ensures Edge(m, p[i..j][k], p[i..j][k + 1]) {
      assert Edge(m, p[i + k], p[i + k + 1]);
    }
  }

  lemma ReachesPlusSnoc(m: RefMap, a: Key, b: Key, c: Key)
    requires ReachesPlus(m, a, b) && Edge(m, b, c)
    ensures ReachesPlus(m, a, c)
  {
    var p :| WalkFromTo(m, p, a, b) && |p| >= 2;
    WalkSnoc(m, p, c);
    assert WalkFromTo(m, p + [c], a, c);
  }

  lemma EdgeReaches(m: RefMap, a: Key, b: Key)
    requires Edge(m, a, b)
    ensures ReachesPlus(m, a, b)
  {
    assert WalkFromTo(m, [a, b], a, b);
  }

  // ---------------------------------------------------------------- the cycle check

  /** The cycle check with the set of nodes on the way here; every branch works on its
      own copy of it. */
  predicate CheckRefFrom(m: RefMap, key: Key, visited: set<Key>)
    decreases m.Keys - visited
  {
    key !in visited &&
    (key in m ==> forall child | child in m[key] :: CheckRefFrom(m, child, visited + {key}))
  }

  predicate CheckRef(m: RefMap, key: Key) {
    CheckRefFrom(m, key, {})
  }

  function Nodes(p: seq<Key>): set<Key> {
    set x | x in p
  }

  /** A failed check exhibits a walk that comes back to a node it has passed. */
  lemma {:induction false} FailureIsLasso(m: RefMap, path: seq<Key>, key: Key) returns (p: seq<Key>, i: nat)
    requires Walk(m, path + [key]) && !CheckRefFrom(m, key, Nodes(path))
    ensures path + [key] <= p && Walk(m, p) && i < |p| - 1 && p[i] == p[|p| - 1]
    decreases m.Keys - Nodes(path)
  {
    if key in Nodes(path) {
      i :| 0 <= i < |path| && path[i] == key;
      p := path + [key];
    } else {
      var child :| child in m[key] && !CheckRefFrom(m, child, Nodes(path) + {key});
      assert Nodes(path + [key]) == Nodes(path) + {key};
      WalkSnoc(m, path + [key], child);
      p, i := FailureIsLasso(m, path + [key], child);
      assert path + [key] <= path + [key] + [child];
    }
  }

  /** After a successful check no walk from key leads back to a node on the way here,
      nor to key itself. */
  lemma {:induction false} SuccessAvoids(m: RefMap, key: Key, visited: set<Key>, p: seq<Key>)
    requires CheckRefFrom(m, key, visited) && Walk(m, p) && p[0] == key
    ensures p[|p| - 1] !in visited
    ensures |p| >= 2 ==> p[|p| - 1] != key
    decreases |p|
  {
    if |p| >= 2 {
      WalkTail(m, p);
      SuccessAvoids(m, p[1], visited + {key}, p[1..]);
    }
  }

  lemma {:induction false} SuccessSpreads(m: RefMap, key: Key, visited: set<Key>, p: seq<Key>) returns (later: set<Key>)
    requires CheckRefFrom(m, key, visited) && Walk(m, p) && p[0] == key
    ensures CheckRefFrom(m, p[|p| - 1], later)
    decreases |p|
  {
    if |p| == 1 {
      later := visited;
    } else {
      WalkTail(m, p);
      later := SuccessSpreads(m, p[1], visited + {key}, p[1..]);
    }
  }

  /** The check succeeds exactly when no cycle can be reached from the key. */
  lemma CheckRefIff(m: RefMap, key: Key)
    ensures CheckRef(m, key) <==> !CycleReachable(m, key)
  {
    if !CheckRef(m, key) {
      assert [] + [key] == [key];
      assert Nodes([]) == {};
      var p, i := FailureIsLasso(m, [], key);
      WalkSlice(m, p, 0, i + 1);
      WalkSlice(m, p, i, |p|);
      assert WalkFromTo(m, p[0..i + 1], key, p[i]);
      assert WalkFromTo(m, p[i..|p|], p[i], p[i]);
      assert Reaches(m, key, p[i]) && ReachesPlus(m, p[i], p[i]);
    }
    if CycleReachable(m, key) && CheckRef(m, key) {
      var v :| Reaches(m, key, v) && ReachesPlus(m, v, v);
      var p :| WalkFromTo(m, p, key, v);
      var q :| WalkFromTo(m, q, v, v) && |q| >= 2;
      var later := SuccessSpreads(m, key, {}, p);
      SuccessAvoids(m, v, later, q);
      assert false;
    }
  }

  // ---------------------------------------------------------------- closure

  /** Every key that occurs as a value. */
  function Targets(m: RefMap): set<Key> {
    set k, v | k in m.Keys && v in m[k] :: v
  }

  ghost predicate Closed(m: RefMap, s: set<Key>) {
    forall v :: v in s ==> Succ(m, v) <= s
  }

  lemma {:induction false} ClosedContains(m: RefMap, s: set<Key>, p: seq<Key>)
    requires Closed(m, s) && Walk(m, p) && |p| >= 2 && Succ(m, p[0]) <= s
    ensures p[|p| - 1] in s
    decreases |p|
  {
    WalkTail(m, p);
    if |p| > 2 {
      ClosedContains(m, s, p[1..]);
    }
  }

  lemma ClosedReaches(m: RefMap, s: set<Key>, a: Key, b: Key)
    requires Closed(m, s) && Succ(m, a) <= s && ReachesPlus(m, a, b)
    ensures b in s
  {
    var p :| WalkFromTo(m, p, a, b) && |p| >= 2;
    ClosedContains(m, s, p);
  }

  // ---------------------------------------------------------------- both maps

  /** refMap: who is computed from a key.  reRefMap: what a computed key depends on. */
  datatype Refs = Refs(refMap: RefMap, reRefMap: RefMap)

  /** A computed key is (re)computed from its dependencies. */
  function Recorded(g: Refs, key: Key, deps: set<Key>): Refs {
    Refs(map a | a in g.refMap.Keys + deps :: Succ(g.refMap, a) + (if a in deps then {key} else {}),
         g.reRefMap[key := deps])
  }

  /** A computed key and the edges recorded for it are dropped. */
  function Cleaned(g: Refs, key: Key): Refs {
    if key !in g.reRefMap then g
    else
      var deps := g.reRefMap[key];
      Refs(WithoutEdges(g.refMap, key, deps), g.reRefMap - {key})
  }

  /** Drops the edges from `deps` to key, and entries that become empty. */
  function WithoutEdges(m: RefMap, key: Key, deps: set<Key>): RefMap {
    map a | a in m.Keys && (a in deps ==> m[a] - {key} != {}) :: if a in deps then m[a] - {key} else m[a]
  }

  /** Every dependency can be found from the other end. */
  ghost predicate Covers(g: Refs) {
    forall k, d :: Edge(g.reRefMap, k, d) ==> Edge(g.refMap, d, k)
  }

  /** The two maps are converses of each other, with no empty entries left over. */
  ghost predicate Exact(g: Refs) {
    && (forall k, d :: Edge(g.reRefMap, k, d) <==> Edge(g.refMap, d, k))
    && (forall a :: a in g.refMap ==> g.refMap[a] != {})
  }

  lemma RecordedEdges(g: Refs, key: Key, deps: set<Key>)
    ensures var g' := Recorded(g, key, deps);
            && (forall a, b :: Edge(g'.refMap, a, b) <==> Edge(g.refMap, a, b) || (a in deps && b == key))
            && (forall k, d :: Edge(g'.reRefMap, k, d) <==> if k == key then d in deps else Edge(g.reRefMap, k, d))
  {
  }

  /** Cleaning removes exactly the edges recorded for the key. */
  lemma CleanedEdges(g: Refs, key: Key)
    ensures var g' := Cleaned(g, key);
            && (forall a, b :: Edge(g'.refMap, a, b) <==>
                  Edge(g.refMap, a, b) && !(b == key && Edge(g.reRefMap, key, a)))
            && (forall k, d :: Edge(g'.reRefMap, k, d) <==> k != key && Edge(g.reRefMap, k, d))
            && (forall a :: Edge(g.reRefMap, key, a) && a in g'.refMap ==> g'.refMap[a] != {})
  {
    var g' := Cleaned(g, key);
    forall a, b
      ensures Edge(g'.refMap, a, b) <==> Edge(g.refMap, a, b) && !(b == key && Edge(g.reRefMap, key, a))
    {
      if a in g.refMap && Edge(g.reRefMap, key, a) {
        assert b in g.refMap[a] - {key} <==> b in g.refMap[a] && b != key;
      }
    }
  }

  datatype Event = Record(key: Key, deps: set<Key>) | Clean(key: Key)

  function Step(g: Refs, ev: Event): Refs {
    match ev
    case Record(key, deps) => Recorded(g, key, deps)
    case Clean(key) => Cleaned(g, key)
  }

  function Run(g: Refs, events: seq<Event>): Refs
    decreases |events|
  {
    if events == [] then g else Run(Step(g, events[0]), events[1..])
  }

  lemma {:induction false} RunElsewhere(g: Refs, events: seq<Event>, key: Key)
    requires forall i :: 0 <= i < |events| ==> events[i].key != key
    ensures key in Run(g, events).reRefMap <==> key in g.reRefMap
    ensures Succ(Run(g, events).reRefMap, key) == Succ(g.reRefMap, key)
    decreases |events|
  {
    if events != [] {
      assert forall i :: 0 <= i < |events[1..]| ==> events[1..][i] == events[i + 1];
      RunElsewhere(Step(g, events[0]), events[1..], key);
    }
  }

  /** After every run a key has the dependencies that were recorded for it last, and none if it
      was cleaned since. */
  lemma {:induction false} LastEventDecides(g: Refs, events: seq<Event>, i: nat)
    requires i < |events| && forall j :: i < j < |events| ==> events[j].key != events[i].key
    ensures var m := Run(g, events).reRefMap;
            match events[i]
            case Record(key, deps) => key in m && m[key] == deps
            case Clean(key) => key !in m
    decreases |events|
  {
    assert forall j :: 0 <= j < |events[1..]| ==> events[1..][j] == events[j + 1];
    if i == 0 {
      RunElsewhere(Step(g, events[0]), events[1..], events[0].key);
    } else {
      LastEventDecides(Step(g, events[0]), events[1..], i - 1);
    }
  }

  /** The reverse map covers the forward map after every run of recomputations and
      cleanings, in any order. */
  lemma {:induction false} RunCovers(g: Refs, events: seq<Event>)
    requires Covers(g)
    ensures Covers(Run(g, events))
    decreases |events|
  {
    if events != [] {
      match events[0] {
        case Record(key, deps) => RecordedEdges(g, key, deps);
        case Clean(key) => CleanedEdges(g, key);
      }
      RunCovers(Step(g, events[0]), events[1..]);
    }
  }

  /** A recomputation leaves the maps exact if and only if the key's new dependencies
      include all its old ones; otherwise edges from the lost ones stay behind. */
  lemma RecordedExactIff(g: Refs, key: Key, deps: set<Key>)
    requires Exact(g)
    ensures Exact(Recorded(g, key, deps)) <==> Succ(g.reRefMap, key) <= deps
  {
    RecordedEdges(g, key, deps);
    var g' := Recorded(g, key, deps);
    if !(Succ(g.reRefMap, key) <= deps) {
      var d :| d in Succ(g.reRefMap, key) && d !in deps;
      assert Edge(g.reRefMap, key, d) && Edge(g'.refMap, d, key) && !Edge(g'.reRefMap, key, d);
    } else {
      forall a | a in g'.refMap ensures g'.refMap[a] != {} {
        if a in deps {
          assert key in g'.refMap[a];
        } else {
          assert g'.refMap[a] == g.refMap[a];
        }
      }
    }
  }

  /** Every recomputation follows a cleaning of its key. */
  predicate CleansFirst(g: Refs, events: seq<Event>)
    decreases |events|
  {
    events == [] ||
    ((events[0].Record? ==> events[0].key !in g.reRefMap) && CleansFirst(Step(g, events[0]), events[1..]))
  }

  lemma {:induction false} RunExact(g: Refs, events: seq<Event>)
    requires Exact(g) && CleansFirst(g, events)
    ensures Exact(Run(g, events))
    decreases |events|
  {
    if events != [] {
      match events[0] {
        case Record(key, deps) => RecordedExactIff(g, key, deps);
        case Clean(key) => CleanedExact(g, key);
      }
      RunExact(Step(g, events[0]), events[1..]);
    }
  }

  /** Every recomputation keeps all dependencies its key has at that point. */
  predicate KeepsOld(g: Refs, events: seq<Event>)
    decreases |events|
  {
    events == [] ||
    (&& (events[0].Record? ==> Succ(g.reRefMap, events[0].key) <= events[0].deps)
     && KeepsOld(Step(g, events[0]), events[1..]))
  }

  /** The maps are exact now and after every event. */
  ghost predicate ExactThroughout(g: Refs, events: seq<Event>)
    decreases |events|
  {
    Exact(g) && (events == [] || ExactThroughout(Step(g, events[0]), events[1..]))
  }

  /** The maps stay converses of each other through a run exactly when no recomputation in it
      loses a dependency. */
  lemma {:induction false} ExactThroughoutIff(g: Refs, events: seq<Event>)
    requires Exact(g)
    ensures ExactThroughout(g, events) <==> KeepsOld(g, events)
    decreases |events|
  {
    if events != [] {
      match events[0] {
        case Record(key, deps) => RecordedExactIff(g, key, deps);
        case Clean(key) => CleanedExact(g, key);
      }
      if Exact(Step(g, events[0])) {
        ExactThroughoutIff(Step(g, events[0]), events[1..]);
      }
    }
  }

  lemma CleanedExact(g: Refs, key: Key)
    requires Exact(g)
    ensures Exact(Cleaned(g, key))
  {
    CleanedEdges(g, key);
  }

  /** Whatever a key depends on, directly or not, has that key among the keys it
      affects; stale edges can only add to them. */
  lemma {:induction false} DependentsAreAffected(g: Refs, p: seq<Key>)
    requires Covers(g) && Walk(g.reRefMap, p) && |p| >= 2
    ensures ReachesPlus(g.refMap, p[|p| - 1], p[0])
    decreases |p|
  {
    WalkTail(g.reRefMap, p);
    if |p| == 2 {
      EdgeReaches(g.refMap, p[1], p[0]);
    } else {
      DependentsAreAffected(g, p[1..]);
      ReachesPlusSnoc(g.refMap, p[|p| - 1], p[1], p[0]);
    }
  }
}
