/** The deep merge of data, path by path. */
module MergePaths {
  import opened Options
  import opened DeepMerge
  import opened OperandProperty

  /** What stands at a path of keys. */
  function At(d: Data, path: seq<string>): Option<Data>
    decreases |path|
  {
    if path == [] then Some(d)
    else if d.Object? && HasKey(d.entries, path[0]) then At(d.entries[FindKey(d.entries, path[0])].val, path[1..])
    else None
  }

  predicate IsObject(d: Option<Data>) {
    d.Some? && d.value.Object?
  }

  /** On the way to the path the second has something other than an object, or an object where
      the first has none. */
  ghost predicate ReplacedAbove(a: Data, b: Data, path: seq<string>) {
    exists n :: && 0 <= n < |path| && At(b, path[..n]).Some?
                && !(IsObject(At(a, path[..n])) && IsObject(At(b, path[..n])))
  }

  lemma AtCons(d: Data, path: seq<string>, n: nat)
    requires 0 < n <= |path| && d.Object? && HasKey(d.entries, path[0])
    ensures At(d, path[..n]) == At(d.entries[FindKey(d.entries, path[0])].val, path[1..][..n - 1])
  {
    assert path[..n][1..] == path[1..][..n - 1];
  }

  lemma NotAtCons(d: Data, path: seq<string>, n: nat)
    requires 0 < n <= |path| && !(d.Object? && HasKey(d.entries, path[0]))
    ensures At(d, path[..n]) == None
  {
  }

  /** Below a key that both have, what is above depends on the two values of the key. */
  lemma ReplacedAboveCons(a: Data, b: Data, path: seq<string>)
    requires path != [] && a.Object? && b.Object? && HasKey(a.entries, path[0]) && HasKey(b.entries, path[0])
    ensures var x := a.entries[FindKey(a.entries, path[0])].val;
            var y := b.entries[FindKey(b.entries, path[0])].val;
            ReplacedAbove(a, b, path) <==> ReplacedAbove(x, y, path[1..])
  {
    var x, y := a.entries[FindKey(a.entries, path[0])].val, b.entries[FindKey(b.entries, path[0])].val;
    forall n | 0 < n <= |path|
      ensures At(a, path[..n]) == At(x, path[1..][..n - 1]) && At(b, path[..n]) == At(y, path[1..][..n - 1])
    {
      AtCons(a, path, n);
      AtCons(b, path, n);
    }
    if n :| 0 <= n < |path| && At(b, path[..n]).Some? && !(IsObject(At(a, path[..n])) && IsObject(At(b, path[..n]))) {
      assert n != 0;
      assert At(y, path[1..][..n - 1]).Some?;
    }
    if n :| && 0 <= n < |path[1..]| && At(y, path[1..][..n]).Some?
            && !(IsObject(At(x, path[1..][..n])) && IsObject(At(y, path[1..][..n]))) {
      assert At(b, path[..n + 1]).Some?;
    }
  }

  /** The entry of a key after merging. */
  lemma MergedAt(xs: seq<Entry>, ys: seq<Entry>, k: string)
    ensures HasKey(MergeEntries(xs, ys), k) <==> HasKey(xs, k) || HasKey(ys, k)
    ensures HasKey(MergeEntries(xs, ys), k) ==>
              MergeEntries(xs, ys)[FindKey(MergeEntries(xs, ys), k)].val ==
              if !HasKey(xs, k) then ys[FindKey(ys, k)].val
              else if !HasKey(ys, k) then xs[FindKey(xs, k)].val
              else Merge(xs[FindKey(xs, k)].val, ys[FindKey(ys, k)].val)
  {
    if HasKey(xs, k) {
      MergedHas(xs, ys, k);
    } else {
      MergedLacks(xs, ys, k);
      assert EntryOf(MergeEntries(xs, ys), k) == EntryOf(ys, k);
    }
  }

  /** At every path the second has the last word: what it replaces further up is its own, two
      objects stay an object, anything else it has is taken, and what it does not mention stays
      as in the first. */
  lemma {:induction false} MergeAt(a: Data, b: Data, path: seq<string>)
    ensures var x, y, m := At(a, path), At(b, path), At(Merge(a, b), path);
            && (ReplacedAbove(a, b, path) ==> m == y)
            && (!ReplacedAbove(a, b, path) && y.None? ==> m == x)
            && (!ReplacedAbove(a, b, path) && y.Some? && !(IsObject(x) && IsObject(y)) ==> m == y)
            && (!ReplacedAbove(a, b, path) && IsObject(x) && IsObject(y) ==> IsObject(m))
    decreases |path|
  {
    if path != [] {
      assert path[..0] == [];
      if !(a.Object? && b.Object?) {
        assert At(b, path[..0]).Some?;
        assert ReplacedAbove(a, b, path);
      } else {
        var xs, ys, k := a.entries, b.entries, path[0];
        MergedAt(xs, ys, k);
        assert Merge(a, b) == Object(MergeEntries(xs, ys));
        if HasKey(xs, k) && HasKey(ys, k) {
          ReplacedAboveCons(a, b, path);
          MergeAt(xs[FindKey(xs, k)].val, ys[FindKey(ys, k)].val, path[1..]);
        } else if HasKey(ys, k) {
          OnlySecond(a, b, path);
        } else {
          forall n | 0 < n < |path| ensures At(b, path[..n]).None? {
            NotAtCons(b, path, n);
          }
        }
      }
    }
  }

  /** Below a key that only the second has, it has replaced nothing by something. */
  lemma OnlySecond(a: Data, b: Data, path: seq<string>)
    requires path != [] && a.Object? && b.Object? && !HasKey(a.entries, path[0]) && HasKey(b.entries, path[0])
    ensures ReplacedAbove(a, b, path) <==> |path| > 1
    ensures !IsObject(At(a, path))
  {
    assert path[..0] == [];
    if |path| > 1 {
      assert path[..1] == [path[0]];
      AtCons(b, path, 1);
      NotAtCons(a, path, 1);
      assert At(b, path[..1]).Some? && At(a, path[..1]).None?;
    }
  }
}
