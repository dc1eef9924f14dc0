/** `SmoothLexicon`: per-tag word counts, the tagged words each word was
    seen with, and the unknown-word back-off through signatures.  Words are
    keyed by their text; the word index that numbers them is left out. */
module SmoothLexicons {
  import opened Wrappers
  import opened Signatures

  /** `IntTaggedWord`: a word and a tag id. */
  datatype TaggedWord = TaggedWord(word: string, tag: int)

  /** A `Counter<Integer>` over words. */
  type Counter = map<string, real>

  /** `getCount`: zero for a missing key. */
  function Count(c: Counter, w: string): real {
    if w in c then c[w] else 0.0
  }

  /** `incrementCount`. */
  function Bump(c: Counter, w: string): (r: Counter)
    ensures r.Keys == c.Keys + {w}
  {
    c[w := Count(c, w) + 1.0]
  }

  function CounterOf(tw: map<int, Counter>, t: int): Counter {
    if t in tw then tw[t] else map[]
  }

  function LinksOf(w2t: map<string, set<TaggedWord>>, w: string): set<TaggedWord> {
    if w in w2t then w2t[w] else {}
  }

  // ---------------------------------------------------------------------
  // Training counts

  /** `tag2wordsMap` after the counting loop of `train` has seen `data`. */
  function CountTable(data: seq<TaggedWord>): map<int, Counter>
    decreases |data|
  {
    if data == [] then map[]
    else
      var x := data[|data| - 1];
      var tw := CountTable(data[..|data| - 1]);
      tw[x.tag := Bump(CounterOf(tw, x.tag), x.word)]
  }

  /** `word2tagsMap` after the counting loop of `train` has seen `data`. */
  function LinkTable(data: seq<TaggedWord>): map<string, set<TaggedWord>>
    decreases |data|
  {
    if data == [] then map[]
    else
      var x := data[|data| - 1];
      var w2t := LinkTable(data[..|data| - 1]);
      w2t[x.word := LinksOf(w2t, x.word) + {x}]
  }

  /** The counting loop counts: a tag has a counter iff it was seen, and
      the count of a word is its number of occurrences with that tag. */
  lemma {:induction false} CountTableCounts(data: seq<TaggedWord>, t: int, w: string)
    ensures t in CountTable(data) <==> exists x :: x in data && x.tag == t
    ensures Count(CounterOf(CountTable(data), t), w) == multiset(data)[TaggedWord(w, t)] as real
    ensures w in CounterOf(CountTable(data), t) <==> TaggedWord(w, t) in data
    decreases |data|
  {
    if data != [] {
      var p := data[..|data| - 1];
      var x := data[|data| - 1];
      assert data == p + [x];
      CountTableCounts(p, t, w);
      if t in CountTable(data) && t !in CountTable(p) {
        assert x in data && x.tag == t;
      }
      if t !in CountTable(data) {
        forall y | y in data ensures y.tag != t {
          assert y in p || y == x;
        }
      }
    }
  }

  /** A word's links are exactly the tagged words seen with it. */
  lemma {:induction false} LinkTableLinks(data: seq<TaggedWord>, w: string)
    ensures w in LinkTable(data) <==> exists x :: x in data && x.word == w
    ensures LinksOf(LinkTable(data), w) == set x | x in data && x.word == w
    decreases |data|
  {
    if data != [] {
      var p := data[..|data| - 1];
      var x := data[|data| - 1];
      assert data == p + [x];
      LinkTableLinks(p, w);
      if w !in LinkTable(data) {
        forall y | y in data ensures y.word != w {
          assert y in p || y == x;
        }
      }
    }
  }

  // ---------------------------------------------------------------------
  // Smoothing.  The signature function is a parameter `sig` here; the
  // lexicon passes `getSignature`.

  /** The singleton words of `c` among `ws`: those counted exactly once. */
  function SinglesIn(c: Counter, ws: set<string>): set<string> {
    set w | w in ws && w in c && c[w] == 1.0
  }

  function Singles(c: Counter): set<string> {
    SinglesIn(c, c.Keys)
  }

  /** The signatures of the words `ws`. */
  function SigsOf(sig: string -> string, ws: set<string>): set<string> {
    set w | w in ws :: sig(w)
  }

  /** The words among `ws` whose signature is `s`. */
  function WithSig(sig: string -> string, ws: set<string>, s: string): set<string> {
    set w | w in ws && sig(w) == s
  }

  /** `signatureCounter` once the singleton words `ws` are seen: each
      signature counts its words. */
  function SigCounter(sig: string -> string, ws: set<string>): Counter {
    map s | s in SigsOf(sig, ws) :: |WithSig(sig, ws, s)| as real
  }

  /** `addAll`: the sum of two counters. */
  function AddAll(c: Counter, d: Counter): (r: Counter)
    ensures r.Keys == c.Keys + d.Keys
    ensures forall w :: Count(r, w) == Count(c, w) + Count(d, w)
  {
    map w | w in c.Keys + d.Keys :: Count(c, w) + Count(d, w)
  }

  /** The counter of one tag after `smooth` with raw counts. */
  function SmoothCounter(sig: string -> string, c: Counter): Counter {
    Bump(AddAll(c, SigCounter(sig, Singles(c))), Unknown)
  }

  /** `tag2wordsMap` once the tags in `done` are smoothed. */
  function SmoothTable(sig: string -> string, tw: map<int, Counter>, done: set<int>): map<int, Counter> {
    map t | t in tw :: if t in done then SmoothCounter(sig, tw[t]) else tw[t]
  }

  /** The links the word loop of tag `t` adds once it has seen the
      singleton words `ws`: `(s, t)` for each of their signatures `s`. */
  function SigLinks(sig: string -> string, w2t: map<string, set<TaggedWord>>, t: int, ws: set<string>): map<string, set<TaggedWord>> {
    map s | s in w2t.Keys + SigsOf(sig, ws) ::
      LinksOf(w2t, s) + (if s in SigsOf(sig, ws) then {TaggedWord(s, t)} else {})
  }

  /** All of one tag's links: the signature links, then `(UNK, t)`. */
  function TagLinks(sig: string -> string, w2t: map<string, set<TaggedWord>>, t: int, c: Counter): map<string, set<TaggedWord>> {
    var l := SigLinks(sig, w2t, t, Singles(c));
    l[Unknown := LinksOf(l, Unknown) + {TaggedWord(Unknown, t)}]
  }

  /** The tags of `done` whose smoothing links the word `s`. */
  function LinkedTags(sig: string -> string, tw: map<int, Counter>, done: set<int>, s: string): set<int> {
    set t | t in done && t in tw && (s == Unknown || s in SigsOf(sig, Singles(tw[t])))
  }

  /** The signatures the tags of `done` introduce. */
  function AllSigs(sig: string -> string, tw: map<int, Counter>, done: set<int>): set<string> {
    set t, s | t in done && t in tw && s in SigsOf(sig, Singles(tw[t])) :: s
  }

  /** The links of the word `s` to the tags `ts`. */
  function Tagged(s: string, ts: set<int>): set<TaggedWord> {
    set t | t in ts :: TaggedWord(s, t)
  }

  /** `word2tagsMap` once the tags in `done` are smoothed: `UNK`'s links
      are reset, then each tag links `UNK` and its singletons' signatures. */
  function SmoothLinks(sig: string -> string, tw: map<int, Counter>, w2t: map<string, set<TaggedWord>>, done: set<int>): map<string, set<TaggedWord>> {
    var base := w2t[Unknown := {}];
    map s | s in base.Keys + AllSigs(sig, tw, done) :: LinksOf(base, s) + Tagged(s, LinkedTags(sig, tw, done, s))
  }

  lemma SmoothStart(sig: string -> string, c: Counter, w2t: map<string, set<TaggedWord>>, t: int)
    ensures SinglesIn(c, {}) == {}
    ensures SigCounter(sig, {}) == map[]
    ensures SigLinks(sig, w2t, t, {}) == w2t
  {
    assert SigsOf(sig, {}) == {};
    var l := SigLinks(sig, w2t, t, {});
    assert l.Keys == w2t.Keys;
    forall s | s in l.Keys ensures l[s] == w2t[s] {
    }
  }

  lemma SmoothLinksNone(sig: string -> string, tw: map<int, Counter>, w2t: map<string, set<TaggedWord>>)
    ensures SmoothLinks(sig, tw, w2t, {}) == w2t[Unknown := {}]
  {
    var base := w2t[Unknown := {}];
    assert AllSigs(sig, tw, {}) == {};
    var l := SmoothLinks(sig, tw, w2t, {});
    assert l.Keys == base.Keys;
    forall s | s in l.Keys ensures l[s] == base[s] {
      assert LinkedTags(sig, tw, {}, s) == {};
      assert Tagged(s, {}) == {};
    }
  }

  lemma SmoothTableNone(sig: string -> string, tw: map<int, Counter>)
    ensures SmoothTable(sig, tw, {}) == tw
  {
  }

  lemma SmoothTableStep(sig: string -> string, tw: map<int, Counter>, done: set<int>, t: int)
    requires t in tw && t !in done
    ensures SmoothTable(sig, tw, done)[t] == tw[t]
    ensures SmoothTable(sig, tw, done + {t}) == SmoothTable(sig, tw, done)[t := SmoothCounter(sig, tw[t])]
  {
  }

  lemma SinglesInAdd(c: Counter, ws: set<string>, w: string)
    requires w in c
    ensures c[w] == 1.0 ==> SinglesIn(c, ws + {w}) == SinglesIn(c, ws) + {w}
    ensures c[w] != 1.0 ==> SinglesIn(c, ws + {w}) == SinglesIn(c, ws)
  {
  }

  lemma WithSigAdd(sig: string -> string, ws: set<string>, w: string, s: string)
    requires w !in ws
    ensures |WithSig(sig, ws + {w}, s)| == |WithSig(sig, ws, s)| + (if sig(w) == s then 1 else 0)
    ensures s !in SigsOf(sig, ws) ==> WithSig(sig, ws, s) == {}
  {
    if sig(w) == s {
      assert WithSig(sig, ws + {w}, s) == WithSig(sig, ws, s) + {w};
    } else {
      assert WithSig(sig, ws + {w}, s) == WithSig(sig, ws, s);
    }
    if s !in SigsOf(sig, ws) {
      forall v | v in ws ensures sig(v) != s {
        assert sig(v) in SigsOf(sig, ws);
      }
    }
  }

  lemma SigCounterAdd(sig: string -> string, ws: set<string>, w: string)
    requires w !in ws
    ensures SigCounter(sig, ws + {w}) == Bump(SigCounter(sig, ws), sig(w))
  {
    var ws' := ws + {w};
    assert SigsOf(sig, ws') == SigsOf(sig, ws) + {sig(w)};
    var r := Bump(SigCounter(sig, ws), sig(w));
    var m := SigCounter(sig, ws');
    assert m.Keys == r.Keys;
    forall s | s in m.Keys ensures m[s] == r[s] {
      WithSigAdd(sig, ws, w, s);
    }
  }

  lemma SigLinksAdd(sig: string -> string, w2t: map<string, set<TaggedWord>>, t: int, ws: set<string>, w: string)
    ensures var l := SigLinks(sig, w2t, t, ws);
      SigLinks(sig, w2t, t, ws + {w}) == l[sig(w) := LinksOf(l, sig(w)) + {TaggedWord(sig(w), t)}]
  {
    assert SigsOf(sig, ws + {w}) == SigsOf(sig, ws) + {sig(w)};
    var l := SigLinks(sig, w2t, t, ws);
    var r := SigLinks(sig, w2t, t, ws + {w});
    var m := l[sig(w) := LinksOf(l, sig(w)) + {TaggedWord(sig(w), t)}];
    assert r.Keys == m.Keys;
    forall s | s in r.Keys ensures r[s] == m[s] {
      if s == sig(w) {
        assert LinksOf(l, s) == LinksOf(w2t, s) + (if s in SigsOf(sig, ws) then {TaggedWord(s, t)} else {});
      }
    }
  }

  lemma TaggedAdd(s: string, ts: set<int>, t: int)
    ensures Tagged(s, ts + {t}) == Tagged(s, ts) + {TaggedWord(s, t)}
  {
  }

  /** The links of any word once the tags of `done` are smoothed. */
  lemma SmoothLinksAt(sig: string -> string, tw: map<int, Counter>, w2t: map<string, set<TaggedWord>>, done: set<int>, s: string)
    ensures LinksOf(SmoothLinks(sig, tw, w2t, done), s) ==
      LinksOf(w2t[Unknown := {}], s) + Tagged(s, LinkedTags(sig, tw, done, s))
  {
    var base := w2t[Unknown := {}];
    forall u | u in done && u in tw && s in SigsOf(sig, Singles(tw[u])) ensures s in AllSigs(sig, tw, done) {
    }
    if s !in base.Keys + AllSigs(sig, tw, done) {
      assert LinkedTags(sig, tw, done, s) == {};
    }
  }

  lemma LinkedTagsAdd(sig: string -> string, tw: map<int, Counter>, done: set<int>, t: int, s: string)
    requires t in tw
    ensures LinkedTags(sig, tw, done + {t}, s) == LinkedTags(sig, tw, done, s) +
      (if s == Unknown || s in SigsOf(sig, Singles(tw[t])) then {t} else {})
  {
  }

  /** One tag's smoothing adds `(s, t)` to the links of `UNK` and of its
      singletons' signatures, and nothing else. */
  lemma TagLinksAt(sig: string -> string, w2t: map<string, set<TaggedWord>>, t: int, c: Counter, s: string)
    ensures LinksOf(TagLinks(sig, w2t, t, c), s) ==
      LinksOf(w2t, s) + (if s == Unknown || s in SigsOf(sig, Singles(c)) then {TaggedWord(s, t)} else {})
  {
    var l := SigLinks(sig, w2t, t, Singles(c));
    assert LinksOf(l, s) == LinksOf(w2t, s) + (if s in SigsOf(sig, Singles(c)) then {TaggedWord(s, t)} else {});
  }

  /** Smoothing one more tag changes the links of `s` as `TagLinks` says. */
  lemma SmoothLinksStepAt(sig: string -> string, tw: map<int, Counter>, w2t: map<string, set<TaggedWord>>, done: set<int>, t: int, s: string)
    requires t in tw && t !in done
    ensures LinksOf(SmoothLinks(sig, tw, w2t, done + {t}), s) ==
      LinksOf(TagLinks(sig, SmoothLinks(sig, tw, w2t, done), t, tw[t]), s)
  {
    var l := SmoothLinks(sig, tw, w2t, done);
    var sigs := SigsOf(sig, Singles(tw[t]));
    SmoothLinksAt(sig, tw, w2t, done, s);
    SmoothLinksAt(sig, tw, w2t, done + {t}, s);
    LinkedTagsAdd(sig, tw, done, t, s);
    TagLinksAt(sig, l, t, tw[t], s);
    if s == Unknown || s in sigs {
      TaggedAdd(s, LinkedTags(sig, tw, done, s), t);
    }
  }

  lemma SmoothLinksStep(sig: string -> string, tw: map<int, Counter>, w2t: map<string, set<TaggedWord>>, done: set<int>, t: int)
    requires t in tw && t !in done
    ensures SmoothLinks(sig, tw, w2t, done + {t}) == TagLinks(sig, SmoothLinks(sig, tw, w2t, done), t, tw[t])
  {
    var r := SmoothLinks(sig, tw, w2t, done + {t});
    var m := TagLinks(sig, SmoothLinks(sig, tw, w2t, done), t, tw[t]);
    SmoothLinksStepKeys(sig, tw, w2t, done, t);
    forall s | s in r.Keys ensures r[s] == m[s] {
      SmoothLinksStepAt(sig, tw, w2t, done, t, s);
    }
    SameMaps(r, m);
  }

  lemma SmoothLinksStepKeys(sig: string -> string, tw: map<int, Counter>, w2t: map<string, set<TaggedWord>>, done: set<int>, t: int)
    requires t in tw && t !in done
    ensures SmoothLinks(sig, tw, w2t, done + {t}).Keys == TagLinks(sig, SmoothLinks(sig, tw, w2t, done), t, tw[t]).Keys
  {
    var sigs := SigsOf(sig, Singles(tw[t]));
    assert AllSigs(sig, tw, done + {t}) == AllSigs(sig, tw, done) + sigs;
    assert Unknown in SmoothLinks(sig, tw, w2t, done);
  }

  /** Maps with the same keys and the same value at each key are equal. */
  lemma SameMaps<K, V>(a: map<K, V>, b: map<K, V>)
    requires a.Keys == b.Keys
    requires forall k :: k in a ==> a[k] == b[k]
    ensures a == b
  {
  }

  // ---------------------------------------------------------------------
  // What smoothing promises

  /** A signature counts exactly the words that map to it. */
  lemma SigCounterCount(sig: string -> string, ws: set<string>, s: string)
    ensures Count(SigCounter(sig, ws), s) == |WithSig(sig, ws, s)| as real
  {
    if s !in SigsOf(sig, ws) {
      forall v | v in ws ensures sig(v) != s {
        assert sig(v) in SigsOf(sig, ws);
      }
      assert WithSig(sig, ws, s) == {};
    }
  }

  /** After smoothing, a word's count is its raw count, plus the number of
      singleton words whose signature it is, plus one for `UNK`; the keys
      are the old words, the singletons' signatures and `UNK`. */
  lemma SmoothCounterCount(sig: string -> string, c: Counter, w: string)
    ensures Count(SmoothCounter(sig, c), w) ==
      Count(c, w) + |WithSig(sig, Singles(c), w)| as real + (if w == Unknown then 1.0 else 0.0)
    ensures SmoothCounter(sig, c).Keys == c.Keys + SigsOf(sig, Singles(c)) + {Unknown}
  {
    SigCounterCount(sig, Singles(c), w);
  }

  /** Every count of the counter is at least one. */
  ghost predicate AtLeastOne(c: Counter) {
    forall w :: w in c ==> c[w] >= 1.0
  }

  /** Smoothing keeps every count at least one and gives `UNK` a count. */
  lemma SmoothCounterAtLeastOne(sig: string -> string, c: Counter)
    requires AtLeastOne(c)
    ensures AtLeastOne(SmoothCounter(sig, c)) && Unknown in SmoothCounter(sig, c)
  {
    var r := SmoothCounter(sig, c);
    forall w | w in r ensures r[w] >= 1.0 {
      SmoothCounterCount(sig, c, w);
      if w !in c && w != Unknown {
        var v :| v in Singles(c) && sig(v) == w;
        assert v in WithSig(sig, Singles(c), w);
      }
    }
    SmoothCounterCount(sig, c, Unknown);
  }

  /** Every counter the counting loop builds counts each of its words at
      least once. */
  lemma CountTableAtLeastOne(data: seq<TaggedWord>, t: int)
    requires t in CountTable(data)
    ensures AtLeastOne(CountTable(data)[t])
  {
    var c := CountTable(data)[t];
    forall w | w in c ensures c[w] >= 1.0 {
      CountTableCounts(data, t, w);
      assert TaggedWord(w, t) in multiset(data);
    }
  }

  /** Once every tag is smoothed, `UNK` is linked to exactly every tag. */
  lemma UnknownLinksEveryTag(sig: string -> string, tw: map<int, Counter>, w2t: map<string, set<TaggedWord>>)
    ensures LinksOf(SmoothLinks(sig, tw, w2t, tw.Keys), Unknown) == Tagged(Unknown, tw.Keys)
  {
    SmoothLinksAt(sig, tw, w2t, tw.Keys, Unknown);
    assert LinkedTags(sig, tw, tw.Keys, Unknown) == tw.Keys;
  }

  /** Smoothing only adds links, except to `UNK`, whose links it resets. */
  lemma SmoothLinksKeep(sig: string -> string, tw: map<int, Counter>, w2t: map<string, set<TaggedWord>>, done: set<int>, w: string)
    requires w != Unknown
    ensures LinksOf(w2t, w) <= LinksOf(SmoothLinks(sig, tw, w2t, done), w)
  {
    SmoothLinksAt(sig, tw, w2t, done, w);
  }

  // ---------------------------------------------------------------------
  // The lexicon

  class SmoothLexicon {
    /** `tag2wordsMap`. */
    var tag2words: map<int, Counter>
    /** `word2tagsMap`. */
    var word2tags: map<string, set<TaggedWord>>

    constructor ()
      ensures tag2words == map[] && word2tags == map[]
    {
      tag2words := map[];
      word2tags := map[];
    }

    /** `tagsForWord(word)`: the links of a known word, none otherwise. */
    function TagsForWord(word: string): (r: set<TaggedWord>)
      reads this
      ensures word !in word2tags ==> r == {}
    {
      LinksOf(word2tags, word)
    }

    /** `score(itw)`: the count of the word in the tag's counter, backing
        off to its signature and then to `UNK`; a tag without a counter
        fails the assertion. */
    function Score(x: TaggedWord): (r: Result<real>)
      reads this
      ensures r.Ok? <==> x.tag in tag2words
      ensures r.Ok? && x.word in tag2words[x.tag] ==> r.value == tag2words[x.tag][x.word]
      ensures r.Ok? && x.word !in tag2words[x.tag] && Signature(x.word) in tag2words[x.tag] ==>
        r.value == tag2words[x.tag][Signature(x.word)]
      ensures r.Ok? && x.word !in tag2words[x.tag] && Signature(x.word) !in tag2words[x.tag] ==>
        r.value == Count(tag2words[x.tag], Unknown)
    {
      if x.tag !in tag2words then Fail("assertion: tag has no counter")
      else
        var counter := tag2words[x.tag];
        var w :=
          if x.word in counter then x.word
          else if Signature(x.word) in counter then Signature(x.word)
          else Unknown;
        Ok(Count(counter, w))
    }

    /** Counts `x` under its tag, creating the counter when missing. */
    method CountOne(x: TaggedWord)
      modifies this
      ensures tag2words == old(tag2words)[x.tag := Bump(CounterOf(old(tag2words), x.tag), x.word)]
      ensures word2tags == old(word2tags)
    {
      if x.tag !in tag2words {
        tag2words := tag2words[x.tag := map[]];
      }
      tag2words := tag2words[x.tag := Bump(tag2words[x.tag], x.word)];
    }

    /** Adds `x` to the links of its word, creating the set when missing. */
    method Link(x: TaggedWord)
      modifies this
      ensures word2tags == old(word2tags)[x.word := LinksOf(old(word2tags), x.word) + {x}]
      ensures tag2words == old(tag2words)
    {
      if x.word !in word2tags {
        word2tags := word2tags[x.word := {}];
      }
      word2tags := word2tags[x.word := word2tags[x.word] + {x}];
    }

    /** One step of the word loop of `smooth`: a singleton word counts
        for its signature, which gets linked to the tag. */
    method CountSingleton(c: Counter, t: int, w: string, signatureCounter: Counter,
                          ghost w2t: map<string, set<TaggedWord>>, ghost done: set<string>)
      returns (counter: Counter)
      requires w in c && w !in done
      requires signatureCounter == SigCounter(Signature, SinglesIn(c, done))
      requires word2tags == SigLinks(Signature, w2t, t, SinglesIn(c, done))
      modifies this
      ensures counter == SigCounter(Signature, SinglesIn(c, done + {w}))
      ensures word2tags == SigLinks(Signature, w2t, t, SinglesIn(c, done + {w}))
      ensures tag2words == old(tag2words)
    {
      ghost var ws := SinglesIn(c, done);
      SinglesInAdd(c, done, w);
      counter := signatureCounter;
      if c[w] == 1.0 {
        var signature := GetSignature(w);
        SigCounterAdd(Signature, ws, w);
        SigLinksAdd(Signature, w2t, t, ws, w);
        counter := Bump(counter, signature);
        Link(TaggedWord(signature, t));
      } else {
        assert SinglesIn(c, done + {w}) == ws;
      }
    }

    /** The word loop of `smooth` for the counter `c` of tag `t`: the
        signature counts of its singleton words, each signature linked to
        the tag. */
    method ScanTag(t: int, c: Counter) returns (signatureCounter: Counter)
      modifies this
      ensures signatureCounter == SigCounter(Signature, Singles(c))
      ensures word2tags == SigLinks(Signature, old(word2tags), t, Singles(c))
      ensures tag2words == old(tag2words)
    {
      ghost var w2t := word2tags;
      signatureCounter := map[];
      var todo := c.Keys;
      ghost var done: set<string> := {};
      SmoothStart(Signature, c, word2tags, t);
      while todo != {}
        invariant todo + done == c.Keys && todo !! done
        invariant signatureCounter == SigCounter(Signature, SinglesIn(c, done))
        invariant word2tags == SigLinks(Signature, w2t, t, SinglesIn(c, done))
        invariant tag2words == old(tag2words)
        decreases |todo|
      {
        var w :| w in todo;
        signatureCounter := CountSingleton(c, t, w, signatureCounter, w2t, done);
        todo := todo - {w};
        done := done + {w};
      }
      assert done == c.Keys;
    }

    /** `smooth` for one tag: the word loop, then `addAll`, the `UNK`
        count and the `(UNK, t)` link. */
    method SmoothTag(t: int)
      requires t in tag2words
      modifies this
      ensures tag2words == old(tag2words)[t := SmoothCounter(Signature, old(tag2words)[t])]
      ensures word2tags == TagLinks(Signature, old(word2tags), t, old(tag2words)[t])
    {
      var wordCounter := tag2words[t];
      var signatureCounter := ScanTag(t, wordCounter);
      tag2words := tag2words[t := Bump(AddAll(wordCounter, signatureCounter), Unknown)];
      word2tags := word2tags[Unknown := LinksOf(word2tags, Unknown) + {TaggedWord(Unknown, t)}];
    }

    /** One step of the tag loop of `smooth`. */
    method SmoothNext(t: int, ghost tw: map<int, Counter>, ghost w2t: map<string, set<TaggedWord>>, ghost done: set<int>)
      requires t in tw && t !in done
      requires tag2words == SmoothTable(Signature, tw, done)
      requires word2tags == SmoothLinks(Signature, tw, w2t, done)
      modifies this
      ensures tag2words == SmoothTable(Signature, tw, done + {t})
      ensures word2tags == SmoothLinks(Signature, tw, w2t, done + {t})
    {
      SmoothLinksStep(Signature, tw, w2t, done, t);
      SmoothTableStep(Signature, tw, done, t);
      SmoothTag(t);
    }

    /** `smooth(..., keepRawCount = true)`: `UNK`'s links are reset, then
        every tag is smoothed. */
    method Smooth()
      modifies this
      ensures tag2words == SmoothTable(Signature, old(tag2words), old(tag2words).Keys)
      ensures word2tags == SmoothLinks(Signature, old(tag2words), old(word2tags), old(tag2words).Keys)
    {
      ghost var tw := tag2words;
      ghost var w2t := word2tags;
      word2tags := word2tags[Unknown := {}];
      SmoothLinksNone(Signature, tw, w2t);
      SmoothTableNone(Signature, tw);
      SmoothTags(tw, w2t);
    }

    /** The tag loop of `smooth`. */
    method SmoothTags(ghost tw: map<int, Counter>, ghost w2t: map<string, set<TaggedWord>>)
      requires tag2words == SmoothTable(Signature, tw, {})
      requires word2tags == SmoothLinks(Signature, tw, w2t, {})
      modifies this
      ensures tag2words == SmoothTable(Signature, tw, tw.Keys)
      ensures word2tags == SmoothLinks(Signature, tw, w2t, tw.Keys)
    {
      var todo := tag2words.Keys;
      assert todo == tw.Keys;
      ghost var done: set<int> := {};
      while todo != {}
        invariant todo <= tw.Keys && done == tw.Keys - todo
        invariant tag2words == SmoothTable(Signature, tw, done)
        invariant word2tags == SmoothLinks(Signature, tw, w2t, done)
        decreases |todo|
      {
        NoMember(todo);
        var t :| t in todo;
        SmoothNext(t, tw, w2t, done);
        MoveOne(todo, done, tw.Keys, t);
        todo := todo - {t};
        done := done + {t};
      }
      assert done == tw.Keys;
    }

    /** `train(data)` with the counts kept raw: count every tagged word,
        link it to its word, then smooth. */
    method Train(data: seq<TaggedWord>)
      modifies this
      ensures tag2words == SmoothTable(Signature, CountTable(data), CountTable(data).Keys)
      ensures word2tags == SmoothLinks(Signature, CountTable(data), LinkTable(data), CountTable(data).Keys)
    {
      tag2words := map[];
      word2tags := map[];
      for i := 0 to |data|
        invariant tag2words == CountTable(data[..i])
        invariant word2tags == LinkTable(data[..i])
      {
        var x := data[i];
        assert data[..i + 1][..i] == data[..i];
        CountOne(x);
        Link(x);
      }
      assert data[..|data|] == data;
      Smooth();
    }
  }

  /** After `train`, every word other than `UNK` keeps the tagged words it
      was seen with among its tags. */
  lemma TrainedWordTags(lex: SmoothLexicon, data: seq<TaggedWord>, x: TaggedWord)
    requires lex.word2tags == SmoothLinks(Signature, CountTable(data), LinkTable(data), CountTable(data).Keys)
    requires x in data && x.word != Unknown
    ensures x in lex.TagsForWord(x.word)
  {
    LinkTableLinks(data, x.word);
    SmoothLinksKeep(Signature, CountTable(data), LinkTable(data), CountTable(data).Keys, x.word);
  }

  /** After `train`, a tag scores iff it was seen, and its score is a
      count of at least one, whatever the word: the back-off ends at `UNK`,
      which every smoothed counter holds. */
  lemma TrainedScore(lex: SmoothLexicon, data: seq<TaggedWord>, x: TaggedWord)
    requires lex.tag2words == SmoothTable(Signature, CountTable(data), CountTable(data).Keys)
    ensures lex.Score(x).Ok? <==> exists y :: y in data && y.tag == x.tag
    ensures lex.Score(x).Ok? ==> lex.Score(x).value >= 1.0
  {
    var tw := CountTable(data);
    CountTableCounts(data, x.tag, x.word);
    if x.tag in tw {
      CountTableAtLeastOne(data, x.tag);
      SmoothCounterAtLeastOne(Signature, tw[x.tag]);
    }
  }
}
