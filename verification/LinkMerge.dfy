/** How the server merges two concurrent changes of one link cell, and when the client that
    made the later one still shows the same links. */
module LinkMerge {
  import opened Options
  import opened LinkedData
  import opened Sequences

  // ---------------------------------------------------------------- lists without duplicates

  function Difference<T(==,!new)>(xs: seq<T>, ys: seq<T>): seq<T> {
    Without(xs, ToSet(ys))
  }

  /** The elements of xs that are in ys and in zs. */
  function Intersection<T(==,!new)>(xs: seq<T>, ys: seq<T>, zs: seq<T>): seq<T> {
    Without(xs, ToSet(xs) - ToSet(ys) * ToSet(zs))
  }

  /** The first occurrences in xs. */
  function Unique<T(==,!new)>(xs: seq<T>): (r: seq<T>)
    ensures forall x :: x in r <==> x in xs
    ensures forall i, j :: 0 <= i < j < |r| ==> r[i] != r[j]
  {
    if xs == [] then []
    else
      var n := |xs| - 1;
      var rest := Unique(xs[..n]);
      assert xs == xs[..n] + [xs[n]];
      if xs[n] in xs[..n] then rest else rest + [xs[n]]
  }

  function Union<T(==,!new)>(xs: seq<T>, ys: seq<T>): seq<T> {
    Unique(xs + ys)
  }

  // ---------------------------------------------------------------- the merge

  /** The cell held od; one side has made it oiServer, the other oiClient. */
  function Merged<T(==,!new)>(od: seq<T>, oiServer: seq<T>, oiClient: seq<T>): seq<T> {
    var kept := Unique(Intersection(od, oiServer, oiClient));
    var added := Union(Difference(oiServer, od), Difference(oiClient, od));
    Union(kept, added)
  }

  /** A three-way merge: an old link stays if neither side has removed it, a new one comes if
      either side has added it, and nothing is there twice. */
  lemma MergedIs<T(!new)>(od: seq<T>, oiServer: seq<T>, oiClient: seq<T>, x: T)
    ensures x in Merged(od, oiServer, oiClient) <==>
            if x in od then x in oiServer && x in oiClient else x in oiServer || x in oiClient
    ensures var m := Merged(od, oiServer, oiClient);
            forall i, j :: 0 <= i < j < |m| ==> m[i] != m[j]
  {
  }

  // ---------------------------------------------------------------- the order

  predicate Precedes<T(==)>(xs: seq<T>, x: T, y: T) {
    x in xs && y in xs && IndexOf(xs, x) < IndexOf(xs, y)
  }

  ghost predicate KeepsOrder<T(!new)>(r: seq<T>, xs: seq<T>) {
    forall x, y :: Precedes(r, x, y) ==> Precedes(xs, x, y)
  }

  lemma {:induction false} IndexInFront<T>(xs: seq<T>, ys: seq<T>, x: T)
    ensures x in xs ==> IndexOf(xs + ys, x) == IndexOf(xs, x)
    ensures x !in xs && x in ys ==> IndexOf(xs + ys, x) == |xs| + IndexOf(ys, x)
  {
    if xs == [] {
      assert xs + ys == ys;
    } else {
      assert (xs + ys)[1..] == xs[1..] + ys;
      assert x in xs <==> x == xs[0] || x in xs[1..];
      IndexInFront(xs[1..], ys, x);
    }
  }

  lemma {:induction false} UniqueKeepsOrder<T(!new)>(xs: seq<T>)
    ensures KeepsOrder(Unique(xs), xs)
  {
    if xs != [] {
      var n := |xs| - 1;
      var rest := Unique(xs[..n]);
      assert xs == xs[..n] + [xs[n]];
      UniqueKeepsOrder(xs[..n]);
      forall x, y | Precedes(Unique(xs), x, y) ensures Precedes(xs, x, y) {
        IndexInFront(rest, [xs[n]], x);
        IndexInFront(rest, [xs[n]], y);
        IndexInFront(xs[..n], [xs[n]], x);
        IndexInFront(xs[..n], [xs[n]], y);
        assert y in rest ==> x in rest && Precedes(rest, x, y);
      }
    }
  }

  lemma {:induction false} WithoutKeepsOrder<T(!new)>(xs: seq<T>, ys: set<T>)
    ensures KeepsOrder(Without(xs, ys), xs)
  {
    if xs != [] {
      var rest := Without(xs[1..], ys);
      WithoutKeepsOrder(xs[1..], ys);
      assert xs == [xs[0]] + xs[1..];
      forall x, y | Precedes(Without(xs, ys), x, y) ensures Precedes(xs, x, y) {
        var front := if xs[0] in ys then [] else [xs[0]];
        IndexInFront(front, rest, x);
        IndexInFront(front, rest, y);
        IndexInFront([xs[0]], xs[1..], x);
        IndexInFront([xs[0]], xs[1..], y);
        assert x != xs[0] ==> Precedes(rest, x, y);
      }
    }
  }

  lemma UnionOrder<T(!new)>(xs: seq<T>, ys: seq<T>, x: T, y: T)
    requires Precedes(Union(xs, ys), x, y)
    ensures y in xs ==> Precedes(xs, x, y)
    ensures x !in xs ==> Precedes(ys, x, y)
  {
    UniqueKeepsOrder(xs + ys);
    IndexInFront(xs, ys, x);
    IndexInFront(xs, ys, y);
  }

  /** Old links come first, in the order of the old value, then those the server's side has
      added, in its order, and then those only the client's side has added, in its order. */
  lemma MergedInOrder<T(!new)>(od: seq<T>, oiServer: seq<T>, oiClient: seq<T>, x: T, y: T)
    requires Precedes(Merged(od, oiServer, oiClient), x, y)
    ensures if y in od then Precedes(od, x, y)
            else x in od || (if y in oiServer then Precedes(oiServer, x, y)
                             else x in oiServer || Precedes(oiClient, x, y))
  {
    var both := Intersection(od, oiServer, oiClient);
    var theirs, mine := Difference(oiServer, od), Difference(oiClient, od);
    MergedIs(od, oiServer, oiClient, x);
    MergedIs(od, oiServer, oiClient, y);
    UnionOrder(Unique(both), Union(theirs, mine), x, y);
    UniqueKeepsOrder(both);
    WithoutKeepsOrder(od, ToSet(od) - ToSet(oiServer) * ToSet(oiClient));
    if x !in od {
      UnionOrder(theirs, mine, x, y);
      WithoutKeepsOrder(oiServer, ToSet(od));
      WithoutKeepsOrder(oiClient, ToSet(od));
    }
  }

  /** Whichever side comes first, the same links result. */
  lemma MergedEitherWay<T(!new)>(od: seq<T>, oiServer: seq<T>, oiClient: seq<T>)
    ensures multiset(Merged(od, oiServer, oiClient)) == multiset(Merged(od, oiClient, oiServer))
  {
    var m, m' := Merged(od, oiServer, oiClient), Merged(od, oiClient, oiServer);
    forall x ensures x in m <==> x in m' {
      MergedIs(od, oiServer, oiClient, x);
      MergedIs(od, oiClient, oiServer, x);
    }
    SameElements(m, m');
  }

  lemma {:induction false} OnceEach<T(!new)>(xs: seq<T>)
    requires forall i, j :: 0 <= i < j < |xs| ==> xs[i] != xs[j]
    ensures forall x :: multiset(xs)[x] == if x in xs then 1 else 0
  {
    if xs != [] {
      var n := |xs| - 1;
      assert xs == xs[..n] + [xs[n]];
      OnceEach(xs[..n]);
    }
  }

  lemma SameElements<T(!new)>(xs: seq<T>, ys: seq<T>)
    requires forall i, j :: 0 <= i < j < |xs| ==> xs[i] != xs[j]
    requires forall i, j :: 0 <= i < j < |ys| ==> ys[i] != ys[j]
    requires forall x :: x in xs <==> x in ys
    ensures multiset(xs) == multiset(ys)
  {
    OnceEach(xs);
    OnceEach(ys);
  }

  /** The author, who keeps its own value, shows the merged links exactly when the other side
      has removed nothing the author kept and added nothing the author has not added too. */
  lemma AuthorAgreesIff<T(!new)>(od: seq<T>, oiServer: seq<T>, oiClient: seq<T>)
    ensures (forall x :: x in Merged(od, oiServer, oiClient) <==> x in oiClient) <==>
            (forall x :: && (x in od && x in oiClient ==> x in oiServer)
                         && (x in oiServer && x !in od ==> x in oiClient))
  {
    forall x
      ensures (x in Merged(od, oiServer, oiClient) <==> x in oiClient) <==>
              && (x in od && x in oiClient ==> x in oiServer)
              && (x in oiServer && x !in od ==> x in oiClient)
    {
      MergedIs(od, oiServer, oiClient, x);
    }
  }

  // ---------------------------------------------------------------- the action

  function Before(a: CellAction): seq<Id> {
    if a.CellInsert? then [] else a.od
  }

  function Value(a: CellAction): seq<Id> {
    if a.CellDelete? then [] else a.oi
  }

  /** For the action that sets a cell these are the links before and after. */
  lemma ActionReads(s: Snapshot, k: Key, value: Option<seq<Id>>)
    requires SetRecord2Action(s, k, value).Some? && Cell(s, k) != Some([])
    ensures var a := SetRecord2Action(s, k, value).value;
            && Before(a) == Links(s, k)
            && Value(a) == Links(ApplyCell(s, a), k) == (if value.Some? then value.value else [])
  {
  }

  /** The action that takes a cell's links from one list to the other; None where only their
      order differs. */
  function Toward(k: Key, oiServer: seq<Id>, oi: seq<Id>): Option<CellAction> {
    if multiset(oiServer) == multiset(oi) then None
    else if oiServer != [] && oi != [] then Some(CellReplace(k, oiServer, oi))
    else if oiServer != [] then Some(CellDelete(k, oiServer))
    else Some(CellInsert(k, oi))
  }

  /** The client's action as the server logs it behind an action on the same cell. */
  function TransformLinkCellAction(client: CellAction, server: CellAction): Option<CellAction> {
    Toward(client.key, Value(server), Merged(Before(client), Value(server), Value(client)))
  }

  lemma TowardYields(s: Snapshot, k: Key, oiServer: seq<Id>, oi: seq<Id>, other: Key)
    requires Cell(s, k) == ToCell(oiServer)
    ensures var a := Toward(k, oiServer, oi);
            var s' := if a.None? then s else ApplyCell(s, a.value);
            && multiset(Links(s', k)) == multiset(oi)
            && (a.Some? ==> Before(a.value) == Links(s, k))
            && (Cell(s', k).None? <==> oi == [])
            && (a.None? <==> multiset(oiServer) == multiset(oi))
            && (a.Some? ==> (a.value.CellInsert? <==> oiServer == []) && (a.value.CellDelete? <==> oi == []))
            && (other != k ==> Cell(s', other) == Cell(s, other))
  {
    assert (oi == [] <==> multiset(oi) == multiset{}) && (oiServer == [] <==> multiset(oiServer) == multiset{}) by {
      assert oi != [] ==> oi[0] in multiset(oi);
      assert oiServer != [] ==> oiServer[0] in multiset(oiServer);
    }
    if multiset(oiServer) != multiset(oi) && oiServer != [] {
      assert k in s.cells && s.cells[k] == oiServer;
    }
  }

  /** On the server's cell the action yields the merged links, records the value it finds, and
      leaves every other cell alone; no empty list is stored, and nothing is logged where only
      the order would change. */
  lemma TransformedMerges(s: Snapshot, client: CellAction, server: CellAction, k: Key)
    requires Cell(s, client.key) == ToCell(Value(server))
    ensures var a := TransformLinkCellAction(client, server);
            var s' := if a.None? then s else ApplyCell(s, a.value);
            var merged := Merged(Before(client), Value(server), Value(client));
            && multiset(Links(s', client.key)) == multiset(merged)
            && (Cell(s', client.key).None? <==> merged == [])
            && (a.None? <==> multiset(Value(server)) == multiset(merged))
            && (a.Some? ==>
                  && Before(a.value) == Links(s, client.key)
                  && (a.value.CellInsert? <==> Value(server) == []) && (a.value.CellDelete? <==> merged == []))
            && (k != client.key ==> Cell(s', k) == Cell(s, k))
  {
    TowardYields(s, client.key, Value(server), Merged(Before(client), Value(server), Value(client)), k);
  }
}
