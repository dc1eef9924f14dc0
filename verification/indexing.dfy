/** The `Index<String>` (a `HashIndex`) that numbers tags and words: items
    get the ids 0, 1, 2, ... in the order they are first added, and
    `indexOf(x, true)` adds a missing item at the end. */
module Indexing {

  datatype Index<T(==)> = Index(items: seq<T>)
  {
    /** No item is numbered twice. */
    ghost predicate Valid() {
      forall i, j :: 0 <= i < j < |items| ==> items[i] != items[j]
    }

    function Size(): nat { |items| }

    /** `indexOf(x)`: the id of `x`, or -1 when it is absent. */
    function IndexOf(x: T): (i: int)
      ensures -1 <= i < |items|
      ensures i >= 0 ==> items[i] == x
      ensures i == -1 <==> x !in items
    {
      Find(items, x)
    }

    /** `indexOf(x, true)`: the id of `x`, adding it when it is new. */
    function Add(x: T): (r: (Index<T>, nat))
      requires Valid()
      ensures r.0.Valid()
      ensures r.1 < |r.0.items| && r.0.items[r.1] == x
      ensures x in items ==> r.0 == this && r.1 == IndexOf(x)
      ensures x !in items ==> r.0.items == items + [x] && r.1 == |items|
    {
      var i := IndexOf(x);
      if i >= 0 then (this, i) else (Index(items + [x]), |items|)
    }

    /** `get(i)`. */
    function Get(i: nat): T
      requires i < |items|
    {
      items[i]
    }
  }

  function Find<T(==)>(s: seq<T>, x: T): (i: int)
    ensures -1 <= i < |s|
    ensures i >= 0 ==> s[i] == x && x !in s[..i]
    ensures i == -1 <==> x !in s
  {
    if |s| == 0 then -1
    else if s[|s| - 1] == x && Find(s[..|s| - 1], x) == -1 then |s| - 1
    else if Find(s[..|s| - 1], x) >= 0 then Find(s[..|s| - 1], x)
    else -1
  }

  /** Adding an item only ever appends: the old items are a prefix. */
  lemma AddExtends<T>(idx: Index<T>, x: T)
    requires idx.Valid()
    ensures |idx.items| <= |idx.Add(x).0.items| && idx.Add(x).0.items[..|idx.items|] == idx.items
  {
    if x !in idx.items {
      assert (idx.items + [x])[..|idx.items|] == idx.items;
    }
  }

  /** Adding an item keeps every id it had and numbers `x` with `Get`'s
      inverse: ids and items correspond one to one. */
  lemma AddKeepsIds<T>(idx: Index<T>, x: T, y: T)
    requires idx.Valid() && y in idx.items
    ensures idx.Add(x).0.IndexOf(y) == idx.IndexOf(y)
  {
    var r := idx.Add(x).0;
    if x !in idx.items {
      var i := idx.IndexOf(y);
      assert r.items[..|idx.items|] == idx.items;
      FindUnique(r.items, y, i);
    }
  }

  lemma FindUnique<T>(s: seq<T>, x: T, i: nat)
    requires i < |s| && s[i] == x
    requires forall a, b :: 0 <= a < b < |s| ==> s[a] != s[b]
    ensures Find(s, x) == i
  {
    var j := Find(s, x);
    assert j >= 0 && s[j] == x;
  }

  /** Adding the items of `xs` one after the other. */
  function AddAll<T>(idx: Index<T>, xs: seq<T>): (r: (Index<T>, seq<nat>))
    requires idx.Valid()
    ensures r.0.Valid() && |r.1| == |xs|
    ensures |idx.items| <= |r.0.items|
    ensures forall z :: 0 <= z < |idx.items| ==> r.0.items[z] == idx.items[z]
    ensures forall k :: 0 <= k < |xs| ==> r.1[k] < |r.0.items| && r.0.items[r.1[k]] == xs[k]
    decreases |xs|
  {
    if xs == [] then (idx, [])
    else
      var (idx1, i) := idx.Add(xs[0]);
      var (idx2, rest) := AddAll(idx1, xs[1..]);
      (idx2, [i] + rest)
  }
}
