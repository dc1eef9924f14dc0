/** The two `TrieSurprisal` classes (`utility` keyed by word ids, `parser`
    keyed by tagged words) in raw-score mode: every node below the root on
    an inserted path adds the (tag, score) pairs into its prefix map, and
    the last node adds them into its complete map. */
module SurprisalTries {
  import opened Wrappers
  import Tries

  /** `prefixValueMap` and `completeValueMap` (`valueMap` in the `parser`
      class). */
  datatype Scores = Scores(prefix: map<int, real>, complete: map<int, real>)

  type STrie<K> = Tries.Node<K, Scores>

  function NoScores(): Scores { Scores(map[], map[]) }

  /** `new TrieSurprisal(false)`. */
  function Empty<K>(): (t: STrie<K>)
    ensures Tries.Wf(t) && t.data == NoScores() && t.keys == []
  {
    Tries.Blank(NoScores())
  }

  /** `updateValue(pair, map)` / `addValuePair(pair, map)` with raw scores:
      an existing tag's score is summed, a new tag is inserted. */
  function AddPair(m: map<int, real>, tag: int, score: real): (r: map<int, real>)
    ensures r.Keys == m.Keys + {tag}
    ensures r[tag] == (if tag in m then m[tag] + score else score)
    ensures forall x :: x in m && x != tag ==> r[x] == m[x]
  {
    if tag in m then m[tag := m[tag] + score] else m[tag := score]
  }

  /** The pairs of `values`, one after the other. */
  function AddPairs(m: map<int, real>, ps: seq<(int, real)>): (r: map<int, real>)
    ensures r.Keys == m.Keys + set i | 0 <= i < |ps| :: ps[i].0
    decreases |ps|
  {
    if ps == [] then m else AddPairs(AddPair(m, ps[0].0, ps[0].1), ps[1..])
  }

  function OnPath(ps: seq<(int, real)>): Scores -> Scores {
    (d: Scores) => d.(prefix := AddPairs(d.prefix, ps))
  }

  function AtEnd(ps: seq<(int, real)>): Scores -> Scores {
    (d: Scores) => d.(complete := AddPairs(d.complete, ps))
  }

  /** `insert(elements, values)`. */
  function InsertScores<K(==)>(t: STrie<K>, ks: seq<K>, ps: seq<(int, real)>): (r: STrie<K>)
    requires Tries.Wf(t)
    ensures Tries.Wf(r)
  {
    Tries.Insert(t, ks, 0, NoScores(), OnPath(ps), AtEnd(ps))
  }

  /** `append(elements, pair)`. */
  function Append<K(==)>(t: STrie<K>, ks: seq<K>, tag: int, score: real): (r: STrie<K>)
    requires Tries.Wf(t)
    ensures Tries.Wf(r)
    ensures FindAllMap(r, ks) == Some(AddPair(OldComplete(t, ks), tag, score))
  {
    InsertAtEnd(t, ks, [(tag, score)]);
    InsertScores(t, ks, [(tag, score)])
  }

  /** `findAllMap(elements)`: the complete map of the node reached, end or
      not; `None` for a missing path. */
  function FindAllMap<K(==)>(t: STrie<K>, ks: seq<K>): Option<map<int, real>>
  {
    match Tries.Lookup(t, ks)
    case None => None
    case Some(n) => Some(n.data.complete)
  }

  /** `findAllPrefixMap(elements)`. */
  function FindAllPrefixMap<K(==)>(t: STrie<K>, ks: seq<K>): Option<map<int, real>>
  {
    match Tries.Lookup(t, ks)
    case None => None
    case Some(n) => Some(n.data.prefix)
  }

  function OldPrefix<K(==)>(t: STrie<K>, p: seq<K>): map<int, real> {
    match FindAllPrefixMap(t, p)
    case Some(m) => m
    case None => map[]
  }

  function OldComplete<K(==)>(t: STrie<K>, p: seq<K>): map<int, real> {
    match FindAllMap(t, p)
    case Some(m) => m
    case None => map[]
  }

  /** Every node below the root on the path adds the pairs into its prefix
      map; those before the last keep their complete map. */
  lemma InsertOnPath<K>(t: STrie<K>, ks: seq<K>, ps: seq<(int, real)>, j: nat)
    requires Tries.Wf(t) && 1 <= j <= |ks|
    ensures FindAllPrefixMap(InsertScores(t, ks, ps), ks[..j]) == Some(AddPairs(OldPrefix(t, ks[..j]), ps))
    ensures j < |ks| ==> FindAllMap(InsertScores(t, ks, ps), ks[..j]) == Some(OldComplete(t, ks[..j]))
  {
    Tries.InsertPath(t, ks, 0, NoScores(), OnPath(ps), AtEnd(ps), j);
    assert ks[0..j] == ks[..j];
  }

  /** The last node is an end and adds the pairs into its complete map. */
  lemma InsertAtEnd<K>(t: STrie<K>, ks: seq<K>, ps: seq<(int, real)>)
    requires Tries.Wf(t)
    ensures Tries.Lookup(InsertScores(t, ks, ps), ks).Some?
    ensures Tries.Lookup(InsertScores(t, ks, ps), ks).value.isEnd
    ensures FindAllMap(InsertScores(t, ks, ps), ks) == Some(AddPairs(OldComplete(t, ks), ps))
  {
    Tries.InsertPath(t, ks, 0, NoScores(), OnPath(ps), AtEnd(ps), |ks|);
    assert ks[0..|ks|] == ks;
  }

  /** The root's prefix map never changes. */
  lemma RootPrefixStays<K>(t: STrie<K>, ks: seq<K>, ps: seq<(int, real)>)
    requires Tries.Wf(t)
    ensures FindAllPrefixMap(InsertScores(t, ks, ps), []) == Some(t.data.prefix)
  {
    Tries.InsertPath(t, ks, 0, NoScores(), OnPath(ps), AtEnd(ps), 0);
  }

  /** A key that is not a prefix of the inserted one keeps both maps. */
  lemma InsertElsewhere<K>(t: STrie<K>, ks: seq<K>, ps: seq<(int, real)>, p: seq<K>)
    requires Tries.Wf(t) && !(|p| <= |ks| && p == ks[..|p|])
    ensures FindAllMap(InsertScores(t, ks, ps), p) == FindAllMap(t, p)
    ensures FindAllPrefixMap(InsertScores(t, ks, ps), p) == FindAllPrefixMap(t, p)
  {
    assert ks[0..] == ks;
    Tries.InsertElsewhere(t, ks, 0, NoScores(), OnPath(ps), AtEnd(ps), p);
  }

  /** Appending the same key and pair twice adds twice the score to every
      prefix map on the path and to the complete map at its end. */
  lemma AppendTwice<K>(t: STrie<K>, ks: seq<K>, tag: int, score: real, j: nat)
    requires Tries.Wf(t) && 1 <= j <= |ks|
    ensures var r := Append(Append(t, ks, tag, score), ks, tag, score);
      var before := OldPrefix(t, ks[..j]);
      FindAllPrefixMap(r, ks[..j]).Some? && tag in FindAllPrefixMap(r, ks[..j]).value &&
      FindAllPrefixMap(r, ks[..j]).value[tag] == (if tag in before then before[tag] else 0.0) + 2.0 * score
    ensures var r := Append(Append(t, ks, tag, score), ks, tag, score);
      var before := OldComplete(t, ks);
      FindAllMap(r, ks).Some? && tag in FindAllMap(r, ks).value &&
      FindAllMap(r, ks).value[tag] == (if tag in before then before[tag] else 0.0) + 2.0 * score
  {
    var r1 := Append(t, ks, tag, score);
    InsertOnPath(t, ks, [(tag, score)], j);
    InsertOnPath(r1, ks, [(tag, score)], j);
  }

  /** The raw-score test: `o n e` with (X, 1) twice and `o n l y` with
      (Y, 2) once give the prefix map {X=2, Y=2} at `o`, {Y=2} at `o n l`
      and the complete map {X=2} at `e`, for any distinct words and tags. */
  lemma RawScoresExample<K>(o: K, n: K, e: K, l: K, y: K, x: int, yTag: int)
    requires e != l && x != yTag
    ensures var t1 := Append(Empty<K>(), [o, n, e], x, 1.0);
      var t2 := Append(t1, [o, n, l, y], yTag, 2.0);
      var t3 := Append(t2, [o, n, e], x, 1.0);
      FindAllPrefixMap(t3, [o]) == Some(map[x := 2.0, yTag := 2.0]) &&
      FindAllMap(t3, [o, n, e]) == Some(map[x := 2.0]) &&
      FindAllPrefixMap(t3, [o, n, l]) == Some(map[yTag := 2.0])
  {
    var t1 := Append(Empty<K>(), [o, n, e], x, 1.0);
    var t2 := Append(t1, [o, n, l, y], yTag, 2.0);
    RawFirstAppend(o, n, e, l, x);
    RawSecondAppend(t1, o, n, e, l, y, x, yTag);
    RawThirdAppend(t2, o, n, e, l, x, yTag);
  }

  /** After `o n e` with (X, 1): {X=1} at `o`, the complete {X=1} at `e`,
      and no node `o n l`. */
  lemma RawFirstAppend<K>(o: K, n: K, e: K, l: K, x: int)
    requires e != l
    ensures var t1 := Append(Empty<K>(), [o, n, e], x, 1.0);
      FindAllPrefixMap(t1, [o]) == Some(map[x := 1.0]) &&
      FindAllMap(t1, [o, n, e]) == Some(map[x := 1.0]) &&
      FindAllPrefixMap(t1, [o, n, l]) == None
  {
    var e0 := Empty<K>();
    var one := [o, n, e];
    assert one[..1] == [o];
    Tries.LookupBlank<K, Scores>(NoScores(), [o]);
    Tries.LookupBlank<K, Scores>(NoScores(), one);
    Tries.LookupBlank<K, Scores>(NoScores(), [o, n, l]);
    InsertOnPath(e0, one, [(x, 1.0)], 1);
    assert AddPair(map[], x, 1.0) == map[x := 1.0];
    assert one[..3] == one && one[2] != [o, n, l][2];
    InsertElsewhere(e0, one, [(x, 1.0)], [o, n, l]);
  }

  /** Then `o n l y` with (Y, 2): {X=1, Y=2} at `o`, {Y=2} at `o n l`, and
      `e` keeps its complete {X=1}. */
  lemma RawSecondAppend<K>(t1: STrie<K>, o: K, n: K, e: K, l: K, y: K, x: int, yTag: int)
    requires Tries.Wf(t1) && e != l && x != yTag
    requires FindAllPrefixMap(t1, [o]) == Some(map[x := 1.0])
    requires FindAllMap(t1, [o, n, e]) == Some(map[x := 1.0])
    requires FindAllPrefixMap(t1, [o, n, l]) == None
    ensures var t2 := Append(t1, [o, n, l, y], yTag, 2.0);
      FindAllPrefixMap(t2, [o]) == Some(map[x := 1.0, yTag := 2.0]) &&
      FindAllMap(t2, [o, n, e]) == Some(map[x := 1.0]) &&
      FindAllPrefixMap(t2, [o, n, l]) == Some(map[yTag := 2.0])
  {
    var only := [o, n, l, y];
    assert only[..1] == [o] && only[..3] == [o, n, l];
    InsertOnPath(t1, only, [(yTag, 2.0)], 1);
    InsertOnPath(t1, only, [(yTag, 2.0)], 3);
    assert AddPair(map[], yTag, 2.0) == map[yTag := 2.0];
    InsertElsewhere(t1, only, [(yTag, 2.0)], [o, n, e]);
  }

  /** Then `o n e` with (X, 1) again: {X=2, Y=2} at `o`, the complete {X=2}
      at `e`, and `o n l` untouched. */
  lemma RawThirdAppend<K>(t2: STrie<K>, o: K, n: K, e: K, l: K, x: int, yTag: int)
    requires Tries.Wf(t2) && e != l && x != yTag
    requires FindAllPrefixMap(t2, [o]) == Some(map[x := 1.0, yTag := 2.0])
    requires FindAllMap(t2, [o, n, e]) == Some(map[x := 1.0])
    requires FindAllPrefixMap(t2, [o, n, l]) == Some(map[yTag := 2.0])
    ensures var t3 := Append(t2, [o, n, e], x, 1.0);
      FindAllPrefixMap(t3, [o]) == Some(map[x := 2.0, yTag := 2.0]) &&
      FindAllMap(t3, [o, n, e]) == Some(map[x := 2.0]) &&
      FindAllPrefixMap(t3, [o, n, l]) == Some(map[yTag := 2.0])
  {
    var one := [o, n, e];
    assert one[..1] == [o];
    InsertOnPath(t2, one, [(x, 1.0)], 1);
    RawSums(x, yTag);
    assert one[..3] == one && one[2] != [o, n, l][2];
    InsertElsewhere(t2, one, [(x, 1.0)], [o, n, l]);
  }

  /** The sums the third append makes. */
  lemma RawSums(x: int, yTag: int)
    requires x != yTag
    ensures AddPairs(map[x := 1.0, yTag := 2.0], [(x, 1.0)]) == map[x := 2.0, yTag := 2.0]
    ensures AddPair(map[x := 1.0], x, 1.0) == map[x := 2.0]
  {
    assert AddPairs(map[x := 1.0, yTag := 2.0], [(x, 1.0)]) == AddPair(map[x := 1.0, yTag := 2.0], x, 1.0);
  }
}
