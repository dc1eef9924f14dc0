/** The trie shared by `util.Trie` and the two `TrieSurprisal` classes: a
    node holds its child keys (`keyList`), the sub-tries under them
    (`trieList`), an end mark and a payload — the value list of
    `util.Trie`, the prefix and complete score maps of a `TrieSurprisal`.
    The three classes differ only in what `insert` does to the payload of
    the nodes on the path and of the last node, so `Insert` takes those two
    steps as parameters. */
module Tries {
  import opened Wrappers
  import opened Indexing

  datatype Node<K, P> = Node(keys: seq<K>, kids: seq<Node<K, P>>, isEnd: bool, data: P)

  /** A freshly constructed trie: no children, not an end. */
  function Blank<K, P>(d: P): (t: Node<K, P>)
    ensures t.keys == [] && t.kids == [] && !t.isEnd && t.data == d
  {
    Node([], [], false, d)
  }

  /** One sub-trie per key, the keys of a node distinct, all the way down. */
  ghost predicate Wf<K, P>(t: Node<K, P>)
    decreases t
  {
    |t.keys| == |t.kids| &&
    (forall a, b :: 0 <= a < b < |t.keys| ==> t.keys[a] != t.keys[b]) &&
    (forall i :: 0 <= i < |t.kids| ==> Wf(t.kids[i]))
  }

  /** `findChild(k)`: the sub-trie under the first key equal to `k`. */
  function Child<K(==), P>(t: Node<K, P>, k: K): Option<Node<K, P>>
  {
    var i := Find(t.keys, k);
    if 0 <= i < |t.kids| then Some(t.kids[i]) else None
  }

  /** The node reached by following `ks` from `t`, or `None` as soon as a
      key has no child. */
  function Lookup<K(==), P>(t: Node<K, P>, ks: seq<K>): Option<Node<K, P>>
    decreases |ks|
  {
    if ks == [] then Some(t)
    else match Child(t, ks[0])
      case None => None
      case Some(c) => Lookup(c, ks[1..])
  }

  /** `findChild(k)`, the loop over the keys. */
  method FindChild<K(==), P>(t: Node<K, P>, k: K) returns (c: Option<Node<K, P>>)
    requires |t.keys| == |t.kids|
    ensures c == Child(t, k)
  {
    var i := 0;
    while i < |t.keys|
      invariant 0 <= i <= |t.keys|
      invariant k !in t.keys[..i]
    {
      if t.keys[i] == k {
        assert Find(t.keys, k) == i;
        return Some(t.kids[i]);
      }
      i := i + 1;
    }
    assert t.keys[..i] == t.keys;
    return None;
  }

  /** `findTrie(elements)`: walk the keys, stopping at the first missing
      child. */
  method FindTrie<K(==), P>(t: Node<K, P>, ks: seq<K>) returns (r: Option<Node<K, P>>)
    requires Wf(t)
    ensures r == Lookup(t, ks)
  {
    r := Some(t);
    var i := 0;
    while i < |ks|
      invariant 0 <= i <= |ks|
      invariant r == Lookup(t, ks[..i]) && r.Some?
      invariant Wf(r.value)
    {
      LookupAppend(t, ks[..i], [ks[i]]);
      assert ks[..i] + [ks[i]] == ks[..i + 1];
      var c := FindChild(r.value, ks[i]);
      if c == None {
        LookupAppend(t, ks[..i + 1], ks[i + 1..]);
        assert ks[..i + 1] + ks[i + 1..] == ks;
        return None;
      }
      r := c;
      i := i + 1;
    }
    assert ks[..i] == ks;
  }

  /** Following `a + b` is following `a`, then `b`. */
  lemma {:induction false} LookupAppend<K, P>(t: Node<K, P>, a: seq<K>, b: seq<K>)
    ensures Lookup(t, a + b) == match Lookup(t, a) case None => None case Some(n) => Lookup(n, b)
    decreases |a|
  {
    if a == [] {
      assert a + b == b;
    } else {
      assert a + b != [] && (a + b)[0] == a[0] && (a + b)[1..] == a[1..] + b;
      match Child(t, a[0])
      case None =>
      case Some(c) => LookupAppend(c, a[1..], b);
    }
  }

  /** A node reached in a well-formed trie is well-formed. */
  lemma {:induction false} LookupWf<K, P>(t: Node<K, P>, ks: seq<K>)
    requires Wf(t)
    ensures Lookup(t, ks).Some? ==> Wf(Lookup(t, ks).value)
    decreases |ks|
  {
    if ks != [] {
      match Child(t, ks[0])
      case None =>
      case Some(c) => LookupWf(c, ks[1..]);
    }
  }

  /** `insertChild(k)`: the child under an existing equal key, or a new
      blank child appended with `k`. */
  function InsertChild<K(==), P>(t: Node<K, P>, k: K, blank: P): (r: (Node<K, P>, nat))
    requires Wf(t)
    ensures Wf(r.0) && r.0.isEnd == t.isEnd && r.0.data == t.data
    ensures r.1 < |r.0.kids| && Find(r.0.keys, k) == r.1
    ensures k in t.keys ==> r.0 == t
    ensures k !in t.keys ==> r.0.keys == t.keys + [k] && r.0.kids == t.kids + [Blank(blank)] && r.1 == |t.kids|
    ensures |t.kids| <= |r.0.kids| && forall z :: 0 <= z < |t.kids| ==> r.0.keys[z] == t.keys[z] && r.0.kids[z] == t.kids[z]
  {
    var i := Find(t.keys, k);
    if i >= 0 then (t, i)
    else
      var r := t.(keys := t.keys + [k], kids := t.kids + [Blank(blank)]);
      FindLast(t.keys, k);
      AppendChildWf(t, k, blank);
      (r, |t.kids|)
  }

  /** A blank child under a new key keeps the node well-formed. */
  lemma AppendChildWf<K, P>(t: Node<K, P>, k: K, blank: P)
    requires Wf(t) && k !in t.keys
    ensures Wf(t.(keys := t.keys + [k], kids := t.kids + [Blank(blank)]))
  {
    var r := t.(keys := t.keys + [k], kids := t.kids + [Blank(blank)]);
    assert Wf(r.kids[|t.kids|]);
    assert forall x :: 0 <= x < |t.kids| ==> r.kids[x] == t.kids[x];
  }

  /** Replacing one child by a well-formed node keeps the node well formed. */
  lemma ReplaceChildWf<K, P>(t: Node<K, P>, j: nat, c: Node<K, P>)
    requires Wf(t) && j < |t.kids| && Wf(c)
    ensures Wf(t.(kids := t.kids[j := c]))
  {
    var r := t.(kids := t.kids[j := c]);
    assert forall x :: 0 <= x < |r.kids| ==> Wf(r.kids[x]);
  }

  lemma FindLast<K>(s: seq<K>, k: K)
    requires k !in s
    ensures Find(s + [k], k) == |s|
  {
    assert (s + [k])[..|s|] == s;
  }

  /** A key other than the appended one keeps its id. */
  lemma FindAppendOther<K>(s: seq<K>, k: K, x: K)
    requires x != k
    ensures Find(s + [k], x) == Find(s, x)
  {
    var j := Find(s + [k], x);
    if j >= 0 {
      assert (s + [k])[..j] == s[..j];
      assert s[j] == x;
    } else {
      assert x !in s;
    }
  }

  /** `insert(elements, values, i)`: the nodes below the root on the path
      get `pass`, the last node becomes an end and gets `stop`, missing
      nodes are created blank. */
  function Insert<K(==), P>(t: Node<K, P>, ks: seq<K>, i: nat, blank: P, pass: P -> P, stop: P -> P): (r: Node<K, P>)
    requires Wf(t)
    ensures Wf(r)
    decreases |ks| - i
  {
    var t1 := if i > 0 then t.(data := pass(t.data)) else t;
    if i >= |ks| then t1.(isEnd := true, data := stop(t1.data))
    else
      var (t2, j) := InsertChild(t1, ks[i], blank);
      var c := Insert(t2.kids[j], ks, i + 1, blank, pass, stop);
      ReplaceChildWf(t2, j, c);
      t2.(kids := t2.kids[j := c])
  }

  /** The payload a path had before: the node's, or `blank` when the node
      is missing. */
  function DataAt<K(==), P>(t: Node<K, P>, p: seq<K>, blank: P): P
  {
    match Lookup(t, p)
    case Some(n) => n.data
    case None => blank
  }

  function EndAt<K(==), P>(t: Node<K, P>, p: seq<K>): bool
  {
    match Lookup(t, p)
    case Some(n) => n.isEnd
    case None => false
  }

  /** The payload `insert` leaves at depth `j` of the path, from the one
      that was there. */
  function OnPath<P>(d: P, j: nat, n: nat, pass: P -> P, stop: P -> P): P
  {
    var d1 := if j > 0 then pass(d) else d;
    if j == n then stop(d1) else d1
  }

  /** The child under `k`, or the blank node `insert` would create there. */
  function ChildOrBlank<K(==), P>(t: Node<K, P>, k: K, blank: P): Node<K, P>
  {
    match Child(t, k)
    case Some(n) => n
    case None => Blank(blank)
  }

  lemma LookupBlank<K, P>(blank: P, p: seq<K>)
    ensures p != [] ==> Lookup(Blank<K, P>(blank), p) == None
    ensures DataAt(Blank<K, P>(blank), p, blank) == blank && !EndAt(Blank<K, P>(blank), p)
  {
  }

  /** Every node on the inserted path exists afterwards, carries the
      payload `pass`/`stop` make of its old one, and is an end exactly
      when it is the last node or was one before. */
  lemma {:induction false} InsertPath<K, P>(t: Node<K, P>, ks: seq<K>, i: nat, blank: P, pass: P -> P, stop: P -> P, j: nat)
    requires Wf(t) && i <= j <= |ks|
    ensures var r := Insert(t, ks, i, blank, pass, stop);
      Lookup(r, ks[i..j]).Some? &&
      Lookup(r, ks[i..j]).value.data == OnPath(DataAt(t, ks[i..j], blank), j, |ks|, pass, stop) &&
      Lookup(r, ks[i..j]).value.isEnd == (j == |ks| || EndAt(t, ks[i..j]))
    decreases |ks| - i
  {
    if i < j {
      InsertStep(t, ks, i, blank, pass, stop);
      var c := ChildOrBlank(t, ks[i], blank);
      var p := ks[i..j];
      assert p[0] == ks[i] && p[1..] == ks[i + 1..j];
      InsertPath(c, ks, i + 1, blank, pass, stop, j);
      if Child(t, ks[i]) == None {
        LookupBlank<K, P>(blank, p[1..]);
      }
    }
  }

  /** The child under the inserted key gets the rest of the path. */
  lemma InsertStep<K, P>(t: Node<K, P>, ks: seq<K>, i: nat, blank: P, pass: P -> P, stop: P -> P)
    requires Wf(t) && i < |ks|
    ensures var c := ChildOrBlank(t, ks[i], blank);
      Wf(c) &&
      Child(Insert(t, ks, i, blank, pass, stop), ks[i]) == Some(Insert(c, ks, i + 1, blank, pass, stop))
  {
    var t1 := if i > 0 then t.(data := pass(t.data)) else t;
    var (t2, x) := InsertChild(t1, ks[i], blank);
    var r := Insert(t, ks, i, blank, pass, stop);
    assert r.keys == t2.keys && r.kids == t2.kids[x := Insert(t2.kids[x], ks, i + 1, blank, pass, stop)];
  }

  /** The children under the other keys stay. */
  lemma InsertStepOff<K, P>(t: Node<K, P>, ks: seq<K>, i: nat, blank: P, pass: P -> P, stop: P -> P, y: K)
    requires Wf(t) && i < |ks| && y != ks[i]
    ensures Child(Insert(t, ks, i, blank, pass, stop), y) == Child(t, y)
  {
    var r := Insert(t, ks, i, blank, pass, stop);
    InsertShape(t, ks, i, blank, pass, stop);
    var iy := Find(t.keys, y);
    if ks[i] !in t.keys {
      FindAppendOther(t.keys, ks[i], y);
    }
    assert Find(r.keys, y) == iy;
    if iy >= 0 {
      assert r.keys[iy] == y;
      assert r.kids[iy] == t.kids[iy];
    }
  }

  /** The keys after `insert` at a node on the path, and the children it
      leaves alone. */
  lemma InsertShape<K, P>(t: Node<K, P>, ks: seq<K>, i: nat, blank: P, pass: P -> P, stop: P -> P)
    requires Wf(t) && i < |ks|
    ensures var r := Insert(t, ks, i, blank, pass, stop);
      r.keys == (if ks[i] in t.keys then t.keys else t.keys + [ks[i]]) && |r.kids| == |r.keys| &&
      forall z :: 0 <= z < |t.kids| && r.keys[z] != ks[i] ==> r.kids[z] == t.kids[z]
  {
    InsertUnfold(t, ks, i, blank, pass, stop);
    InsertKidsOff(t, ks, i, blank, pass, stop);
  }

  lemma InsertKidsOff<K, P>(t: Node<K, P>, ks: seq<K>, i: nat, blank: P, pass: P -> P, stop: P -> P)
    requires Wf(t) && i < |ks|
    ensures var r := Insert(t, ks, i, blank, pass, stop);
      forall z :: 0 <= z < |t.kids| && r.keys[z] != ks[i] ==> r.kids[z] == t.kids[z]
  {
    var t1 := if i > 0 then t.(data := pass(t.data)) else t;
    var (t2, x) := InsertChild(t1, ks[i], blank);
    var c := Insert(t2.kids[x], ks, i + 1, blank, pass, stop);
    KidsOff(t1.keys, t1.kids, t2.keys, t2.kids, x, c, ks[i]);
    InsertUnfold(t, ks, i, blank, pass, stop);
  }

  /** One step of `Insert` below the root of the step. */
  lemma InsertUnfold<K, P>(t: Node<K, P>, ks: seq<K>, i: nat, blank: P, pass: P -> P, stop: P -> P)
    requires Wf(t) && i < |ks|
    ensures var t1 := if i > 0 then t.(data := pass(t.data)) else t;
      var (t2, x) := InsertChild(t1, ks[i], blank);
      var r := Insert(t, ks, i, blank, pass, stop);
      r.keys == t2.keys && r.kids == t2.kids[x := Insert(t2.kids[x], ks, i + 1, blank, pass, stop)] &&
      r.isEnd == t.isEnd && r.data == t1.data
  {
  }

  lemma KidsOff<K, N>(keys: seq<K>, kids: seq<N>, keys2: seq<K>, kids2: seq<N>, x: nat, c: N, k: K)
    requires |keys| == |kids| && |keys2| == |kids2| && x < |keys2| && keys2[x] == k
    requires |keys| <= |keys2| && forall z :: 0 <= z < |keys| ==> keys2[z] == keys[z] && kids2[z] == kids[z]
    ensures forall z :: 0 <= z < |kids| && keys2[z] != k ==> kids2[x := c][z] == kids[z]
  {
  }

  /** At the end of the path only the node itself changes. */
  lemma InsertStop<K, P>(t: Node<K, P>, ks: seq<K>, i: nat, blank: P, pass: P -> P, stop: P -> P, y: K)
    requires Wf(t) && i >= |ks|
    ensures Child(Insert(t, ks, i, blank, pass, stop), y) == Child(t, y)
  {
  }

  /** `p` is a prefix of `ks[i..]`. */
  predicate PrefixAt<K(==)>(ks: seq<K>, i: nat, p: seq<K>) {
    |p| <= |ks| - i && p == ks[i..i + |p|]
  }

  /** A key that is not a prefix of the inserted one looks up exactly as
      before. */
  lemma {:induction false} InsertElsewhere<K, P>(t: Node<K, P>, ks: seq<K>, i: nat, blank: P, pass: P -> P, stop: P -> P, p: seq<K>)
    requires Wf(t) && i <= |ks|
    requires !PrefixAt(ks, i, p)
    ensures Lookup(Insert(t, ks, i, blank, pass, stop), p) == Lookup(t, p)
    decreases |ks| - i
  {
    assert p != [];
    if i >= |ks| {
      InsertStop(t, ks, i, blank, pass, stop, p[0]);
    } else {
      if p[0] == ks[i] {
        InsertStep(t, ks, i, blank, pass, stop);
        var c := ChildOrBlank(t, ks[i], blank);
        NotPrefixTail(ks, i, p);
        InsertElsewhere(c, ks, i + 1, blank, pass, stop, p[1..]);
        if Child(t, ks[i]) == None {
          LookupBlank<K, P>(blank, p[1..]);
        }
      } else {
        InsertStepOff(t, ks, i, blank, pass, stop, p[0]);
      }
    }
  }

  /** A key sequence that starts with `ks[i]` but is not a prefix of
      `ks[i..]` has a non-empty tail that is not a prefix of `ks[i + 1..]`. */
  lemma NotPrefixTail<K>(ks: seq<K>, i: nat, p: seq<K>)
    requires i < |ks| && p != [] && p[0] == ks[i]
    requires !PrefixAt(ks, i, p)
    ensures p[1..] != [] && !PrefixAt(ks, i + 1, p[1..])
  {
  }

  /** `findSuffixes(depth)`: the key sequences of the end nodes strictly
      below `t`, at most `depth` long (any length when `depth` is
      negative), child by child in insertion order, each child's own end
      before the ends below it. */
  function FindSuffixes<K(==), P>(t: Node<K, P>, depth: int): seq<seq<K>>
    decreases t, 1
  {
    if depth == 0 then [] else SuffixesFrom(t, depth, 0)
  }

  /** The part of `findSuffixes` contributed by the children `i..`. */
  function SuffixesFrom<K(==), P>(t: Node<K, P>, depth: int, i: nat): seq<seq<K>>
    decreases t, 0, |t.kids| - i
  {
    if i >= |t.kids| || i >= |t.keys| then []
    else
      var k := t.keys[i];
      var c := t.kids[i];
      (if c.isEnd then [[k]] else []) + Prepend(k, FindSuffixes(c, depth - 1)) + SuffixesFrom(t, depth, i + 1)
  }

  function Prepend<K>(k: K, ss: seq<seq<K>>): (r: seq<seq<K>>)
    ensures |r| == |ss| && forall j :: 0 <= j < |ss| ==> r[j] == [k] + ss[j]
  {
    seq(|ss|, j requires 0 <= j < |ss| => [k] + ss[j])
  }

  /** Within the depth bound. */
  predicate Fits<K>(s: seq<K>, depth: int) {
    1 <= |s| && (depth < 0 || |s| <= depth)
  }

  /** Every listed suffix leads from `t` to an end node and fits the depth
      bound. */
  lemma {:induction false} SuffixesSound<K, P>(t: Node<K, P>, depth: int, s: seq<K>)
    requires Wf(t) && s in FindSuffixes(t, depth)
    ensures Fits(s, depth) && EndAt(t, s)
    decreases t, 1
  {
    SuffixesFromSound(t, depth, 0, s);
  }

  lemma {:induction false} SuffixesFromSound<K, P>(t: Node<K, P>, depth: int, i: nat, s: seq<K>)
    requires Wf(t) && depth != 0 && s in SuffixesFrom(t, depth, i)
    ensures Fits(s, depth) && EndAt(t, s)
    decreases t, 0, |t.kids| - i
  {
    var k := t.keys[i];
    var c := t.kids[i];
    assert Child(t, k) == Some(c) by {
      FindFirst(t.keys, i);
    }
    var own := if c.isEnd then [[k]] else [];
    var below := Prepend(k, FindSuffixes(c, depth - 1));
    if s in own {
      assert s == [k] && s[1..] == [];
      assert Lookup(t, s) == Lookup(c, []);
    } else if s in below {
      var j :| 0 <= j < |below| && below[j] == s;
      SuffixesSound(c, depth - 1, FindSuffixes(c, depth - 1)[j]);
      assert s[0] == k && s[1..] == FindSuffixes(c, depth - 1)[j];
    } else {
      SuffixesFromSound(t, depth, i + 1, s);
    }
  }

  /** In a node with distinct keys, `Find` gives each key its own place. */
  lemma FindFirst<K>(keys: seq<K>, i: nat)
    requires i < |keys| && forall a, b :: 0 <= a < b < |keys| ==> keys[a] != keys[b]
    ensures Find(keys, keys[i]) == i
  {
    FindUnique(keys, keys[i], i);
  }

  /** Every end node below `t` within the depth bound is listed. */
  lemma {:induction false} SuffixesComplete<K, P>(t: Node<K, P>, depth: int, s: seq<K>)
    requires Wf(t) && Fits(s, depth) && EndAt(t, s)
    ensures s in FindSuffixes(t, depth)
    decreases t, 1
  {
    var i := Find(t.keys, s[0]);
    assert Child(t, s[0]).Some?;
    SuffixesFromComplete(t, depth, 0, i, s);
  }

  lemma {:induction false} SuffixesFromComplete<K, P>(t: Node<K, P>, depth: int, i: nat, x: int, s: seq<K>)
    requires Wf(t) && Fits(s, depth) && EndAt(t, s) && depth != 0
    requires x == Find(t.keys, s[0]) && i <= x < |t.kids|
    ensures s in SuffixesFrom(t, depth, i)
    decreases t, 0, |t.kids| - i
  {
    if i < x {
      SuffixesFromComplete(t, depth, i + 1, x, s);
    } else {
      var k := t.keys[i];
      var c := t.kids[i];
      assert Lookup(t, s) == Lookup(c, s[1..]);
      if s[1..] == [] {
        assert s == [k];
      } else {
        SuffixesComplete(c, depth - 1, s[1..]);
        var below := FindSuffixes(c, depth - 1);
        var j :| 0 <= j < |below| && below[j] == s[1..];
        assert Prepend(k, below)[j] == s;
      }
    }
  }
}
