/** `util.Trie<K, V>`: a trie whose end nodes carry a list of values.
    `insert` appends the given values to the list of the last node of the
    path; nodes on the way keep theirs. */
module ValueTries {
  import opened Wrappers
  import Tries

  type Trie<K, V> = Tries.Node<K, seq<V>>

  /** `new Trie()`. */
  function Empty<K(==, !new), V>(): (t: Trie<K, V>)
    ensures Tries.Wf(t) && EndsOnly(t)
  {
    Tries.Blank([])
  }

  /** `insert(elements, values)`. */
  function InsertValues<K(==), V>(t: Trie<K, V>, ks: seq<K>, vs: seq<V>): (r: Trie<K, V>)
    requires Tries.Wf(t)
    ensures Tries.Wf(r)
  {
    Tries.Insert(t, ks, 0, [], (d: seq<V>) => d, (d: seq<V>) => d + vs)
  }

  /** `append(elements, value)`: `insert` with a one-element list. */
  function Append<K(==, !new), V>(t: Trie<K, V>, ks: seq<K>, v: V): (r: Trie<K, V>)
    requires Tries.Wf(t)
    ensures Tries.Wf(r)
    ensures EndsOnly(t) ==> GetAllValues(r, ks) == Some(Before(t, ks) + [v])
  {
    InsertFound(t, ks, [v]);
    InsertValues(t, ks, [v])
  }

  /** `getAllValues(elements)`: the list of the node reached, when that
      node is an end; `None` otherwise. */
  function GetAllValues<K(==), V>(t: Trie<K, V>, ks: seq<K>): Option<seq<V>>
  {
    match Tries.Lookup(t, ks)
    case None => None
    case Some(n) => if n.isEnd then Some(n.data) else None
  }

  /** `getFirstValue(elements)`: the head of that list; an end node with an
      empty list throws. */
  function GetFirstValue<K(==), V>(t: Trie<K, V>, ks: seq<K>): (r: Result<Option<V>>)
    ensures r.Ok? && r.value.Some? <==> GetAllValues(t, ks).Some? && GetAllValues(t, ks).value != []
    ensures r.Ok? && r.value.Some? ==> r.value.value == GetAllValues(t, ks).value[0]
    ensures r.Ok? && r.value.None? <==> GetAllValues(t, ks).None?
  {
    match GetAllValues(t, ks)
    case None => Ok(None)
    case Some(vs) => if vs == [] then Fail("IndexOutOfBoundsException") else Ok(Some(vs[0]))
  }

  /** Only end nodes hold values. */
  ghost predicate EndsOnly<K(!new), V>(t: Trie<K, V>) {
    forall p :: Tries.Lookup(t, p).Some? && !Tries.Lookup(t, p).value.isEnd ==> Tries.Lookup(t, p).value.data == []
  }

  /** The values a key had: its list, or none. */
  function Before<K(==), V>(t: Trie<K, V>, ks: seq<K>): seq<V> {
    match GetAllValues(t, ks)
    case Some(vs) => vs
    case None => []
  }

  /** After `insert(ks, vs)` the key `ks` is an end whose list is the old
      one followed by `vs`, in order. */
  lemma InsertFound<K(!new), V>(t: Trie<K, V>, ks: seq<K>, vs: seq<V>)
    requires Tries.Wf(t)
    ensures EndsOnly(t) ==> GetAllValues(InsertValues(t, ks, vs), ks) == Some(Before(t, ks) + vs)
  {
    Tries.InsertPath(t, ks, 0, [], (d: seq<V>) => d, (d: seq<V>) => d + vs, |ks|);
    assert ks[0..|ks|] == ks;
  }

  /** Every other key, prefixes of `ks` included, looks up as before. */
  lemma InsertElsewhere<K, V>(t: Trie<K, V>, ks: seq<K>, vs: seq<V>, p: seq<K>)
    requires Tries.Wf(t) && p != ks
    ensures GetAllValues(InsertValues(t, ks, vs), p) == GetAllValues(t, p)
  {
    var pass := (d: seq<V>) => d;
    var stop := (d: seq<V>) => d + vs;
    if |p| <= |ks| && p == ks[0..|p|] {
      Tries.InsertPath(t, ks, 0, [], pass, stop, |p|);
    } else {
      Tries.InsertElsewhere(t, ks, 0, [], pass, stop, p);
    }
  }

  /** `insert` keeps values at end nodes only. */
  lemma InsertEndsOnly<K(!new), V>(t: Trie<K, V>, ks: seq<K>, vs: seq<V>)
    requires Tries.Wf(t) && EndsOnly(t)
    ensures EndsOnly(InsertValues(t, ks, vs))
  {
    var pass := (d: seq<V>) => d;
    var stop := (d: seq<V>) => d + vs;
    var r := InsertValues(t, ks, vs);
    forall p | Tries.Lookup(r, p).Some? && !Tries.Lookup(r, p).value.isEnd
      ensures Tries.Lookup(r, p).value.data == []
    {
      if |p| <= |ks| && p == ks[0..|p|] {
        Tries.InsertPath(t, ks, 0, [], pass, stop, |p|);
      } else {
        Tries.InsertElsewhere(t, ks, 0, [], pass, stop, p);
      }
    }
  }

  /** The empty-trie test: nothing is found before an append, the appended
      key afterwards, and another key still not. */
  lemma EmptyTrieExample()
    ensures GetFirstValue(Empty<string, bool>(), ["o", "n", "e"]) == Ok(None)
    ensures GetFirstValue(Empty<string, bool>(), [""]) == Ok(None)
    ensures GetFirstValue(Append(Empty<string, bool>(), ["o", "n", "e"], true), ["o", "n", "e"]) == Ok(Some(true))
    ensures GetFirstValue(Append(Empty<string, bool>(), ["o", "n", "e"], true), ["t"]) == Ok(None)
  {
    var e := Empty<string, bool>();
    Tries.LookupBlank<string, seq<bool>>([], ["o", "n", "e"]);
    Tries.LookupBlank<string, seq<bool>>([], [""]);
    Tries.LookupBlank<string, seq<bool>>([], ["t"]);
    InsertElsewhere(e, ["o", "n", "e"], [true], ["t"]);
  }

  /** A key that is only a prefix of stored keys looks up to nothing. */
  lemma PrefixOnlyExample()
    ensures var t := Append(Append(Empty<string, bool>(), ["o", "n", "e"], true), ["t", "w", "o"], true);
      GetFirstValue(t, ["t", "w"]) == Ok(None) && GetFirstValue(t, ["t", "w", "o"]) == Ok(Some(true)) &&
      GetFirstValue(t, ["o", "n", "e"]) == Ok(Some(true))
  {
    var e := Empty<string, bool>();
    var t1 := Append(e, ["o", "n", "e"], true);
    InsertEndsOnly(e, ["o", "n", "e"], [true]);
    Tries.LookupBlank<string, seq<bool>>([], ["t", "w"]);
    Tries.LookupBlank<string, seq<bool>>([], ["t", "w", "o"]);
    InsertElsewhere(e, ["o", "n", "e"], [true], ["t", "w"]);
    InsertElsewhere(e, ["o", "n", "e"], [true], ["t", "w", "o"]);
    InsertElsewhere(t1, ["t", "w", "o"], [true], ["t", "w"]);
    InsertElsewhere(t1, ["t", "w", "o"], [true], ["o", "n", "e"]);
  }
}
