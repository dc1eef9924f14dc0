/** `parser.RuleFile`, the older grammar reader: the same line pattern, but
    names stay strings, a line of words only is an "extended" rule, words
    starting with `UNK` go to a table of their own, and extended rules may
    be rewritten over pseudo tags named `PSEUDO|<tag><k>-<i>|<word>`. */
module LegacyReader {
  import opened Wrappers
  import opened Text
  import GrammarReader

  /** A legacy `Rule` over names: its children are tags when `isRHSTag`,
      words otherwise. */
  datatype LegacyRule = LegacyRule(mother: string, children: seq<string>, score: real, isRHSTag: bool)

  /** `IntTaggedWord(word, tag)` over names. */
  datatype TaggedString = TaggedString(word: string, tag: string)

  /** The collections the reader fills, and the per-call counter of
      extended rules per tag. */
  datatype State = State(
    rules: seq<LegacyRule>,
    extendedRules: seq<LegacyRule>,
    wordCounterTagMap: map<string, map<string, real>>,
    tagsForWord: map<string, set<TaggedString>>,
    preterminalSet: set<string>,
    tagHash: map<string, map<string, real>>,
    seenEnd: set<string>,
    pseudoNodeCounter: map<string, nat>)

  predicate StartsWithUnk(word: string) {
    |word| >= 3 && word[..3] == "UNK"
  }

  /** `tagsForWord[word]` gains `(word, tag)`. */
  function WithTagFor(m: map<string, set<TaggedString>>, word: string, tag: string): (r: map<string, set<TaggedString>>)
    ensures word in r && TaggedString(word, tag) in r[word]
    ensures forall w :: w in m ==> w in r && m[w] <= r[w]
    ensures forall w :: w in r && w != word ==> w in m && r[w] == m[w]
  {
    m[word := (if word in m then m[word] else {}) + {TaggedString(word, tag)}]
  }

  // ---------------------------------------------------------------------
  // addWord.

  /** `addWord(word, tag, prob)`: a word starting with `UNK` gets its
      probability in `tagHash[tag]` (a repeat aborts), joins `seenEnd`
      unless it is `UNK` itself, and makes the tag a preterminal; any other
      word gets it in `wordCounterTagMap[tag]` (a repeat is a failed
      assertion).  Either way `tagsForWord[word]` gains `(word, tag)`. */
  function AddWord(st: State, word: string, tag: string, prob: real): (r: Result<State>)
    ensures StartsWithUnk(word) ==> (r.Fail? <==> tag in st.tagHash && word in st.tagHash[tag])
    ensures !StartsWithUnk(word) ==> (r.Fail? <==> tag in st.wordCounterTagMap && word in st.wordCounterTagMap[tag])
    ensures r.Ok? && StartsWithUnk(word) ==>
      tag in r.value.tagHash && word in r.value.tagHash[tag] && r.value.tagHash[tag][word] == prob &&
      tag in r.value.preterminalSet && r.value.wordCounterTagMap == st.wordCounterTagMap &&
      (word != "UNK" ==> r.value.seenEnd == st.seenEnd + {word}) &&
      (word == "UNK" ==> r.value.seenEnd == st.seenEnd)
    ensures r.Ok? && !StartsWithUnk(word) ==>
      tag in r.value.wordCounterTagMap && word in r.value.wordCounterTagMap[tag] &&
      r.value.wordCounterTagMap[tag][word] == prob &&
      r.value.tagHash == st.tagHash && r.value.preterminalSet == st.preterminalSet && r.value.seenEnd == st.seenEnd
    ensures r.Ok? ==> word in r.value.tagsForWord && TaggedString(word, tag) in r.value.tagsForWord[word]
    ensures r.Ok? ==> (r.value.rules == st.rules && r.value.extendedRules == st.extendedRules &&
      r.value.pseudoNodeCounter == st.pseudoNodeCounter)
  {
    var tfw := WithTagFor(st.tagsForWord, word, tag);
    if StartsWithUnk(word) then
      var counter := if tag in st.tagHash then st.tagHash[tag] else map[];
      if word in counter then Fail("duplicate key")
      else
        Ok(st.(seenEnd := if word != "UNK" then st.seenEnd + {word} else st.seenEnd,
               tagHash := st.tagHash[tag := counter[word := prob]],
               preterminalSet := st.preterminalSet + {tag},
               tagsForWord := tfw))
    else
      var counter := if tag in st.wordCounterTagMap then st.wordCounterTagMap[tag] else map[];
      if word in counter then Fail("word already listed for the tag")
      else
        Ok(st.(wordCounterTagMap := st.wordCounterTagMap[tag := counter[word := prob]], tagsForWord := tfw))
  }

  // ---------------------------------------------------------------------
  // Pseudo tags.

  /** The pseudo tag of the `i`-th child of the `k`-th extended rule of
      `tag`, e.g. `PSEUDO|A1-2|c`. */
  function PseudoTagName(tag: string, k: nat, i: nat, word: string): string {
    "PSEUDO|" + tag + NameTail(k, i, word)
  }

  /** The part after the tag: `<k>-<i>|<word>`. */
  function NameTail(k: nat, i: nat, word: string): string {
    NatString(k) + "-" + (NatString(i) + "|" + word)
  }

  lemma PseudoTagNameExample()
    ensures PseudoTagName("A", 1, 1, "b") == "PSEUDO|A1-1|b"
    ensures PseudoTagName("A", 2, 2, "b") == "PSEUDO|A2-2|b"
  {
    assert NatString(1) == "1" && NatString(2) == "2";
  }

  /** Two digit strings each followed by the same non-digit separate at the
      same place. */
  lemma DigitsThenSeparator(a: nat, b: nat, c: char, x: string, y: string)
    requires !IsDigitAscii(c) && NatString(a) + [c] + x == NatString(b) + [c] + y
    ensures a == b && x == y
  {
    var s := NatString(a) + [c] + x;
    var na, nb := NatString(a), NatString(b);
    assert forall i :: 0 <= i < |na| ==> IsDigitAscii(s[i]);
    assert !IsDigitAscii(s[|na|]);
    assert forall i :: 0 <= i < |nb| ==> IsDigitAscii(s[i]);
    assert !IsDigitAscii(s[|nb|]);
    assert |na| == |nb|;
    assert na == s[..|na|] == nb;
    NatStringValue(a);
    NatStringValue(b);
    assert x == s[|na| + 1..] == y;
  }

  /** The counter, the position and the word can be read back from the
      part of a pseudo tag after its tag. */
  lemma NameTailInjective(k1: nat, i1: nat, w1: string, k2: nat, i2: nat, w2: string)
    requires NameTail(k1, i1, w1) == NameTail(k2, i2, w2)
    ensures k1 == k2 && i1 == i2 && w1 == w2
  {
    DigitsThenSeparator(k1, k2, '-', NatString(i1) + "|" + w1, NatString(i2) + "|" + w2);
    DigitsThenSeparator(i1, i2, '|', w1, w2);
  }

  /** For one tag, the pseudo tags of different rules, children or words
      differ. */
  lemma PseudoTagNamesDistinct(tag: string, k1: nat, i1: nat, w1: string, k2: nat, i2: nat, w2: string)
    requires PseudoTagName(tag, k1, i1, w1) == PseudoTagName(tag, k2, i2, w2)
    ensures k1 == k2 && i1 == i2 && w1 == w2
  {
    var pre := "PSEUDO|" + tag;
    var t1, t2 := NameTail(k1, i1, w1), NameTail(k2, i2, w2);
    assert t1 == (pre + t1)[|pre|..] == (pre + t2)[|pre|..] == t2;
    NameTailInjective(k1, i1, w1, k2, i2, w2);
  }

  /** The pseudo tags of the `k`-th extended rule of `tag`, one per word,
      counted from 1. */
  function PseudoTags(tag: string, k: nat, words: seq<string>): (names: seq<string>)
    ensures |names| == |words|
    ensures forall i :: 0 <= i < |words| ==> names[i] == PseudoTagName(tag, k, i + 1, words[i])
  {
    seq(|words|, i requires 0 <= i < |words| => PseudoTagName(tag, k, i + 1, words[i]))
  }

  /** The children of one extended rule have pairwise distinct pseudo tags. */
  lemma PseudoTagsDistinct(tag: string, k: nat, words: seq<string>, i: nat, j: nat)
    requires i < j < |words|
    ensures PseudoTags(tag, k, words)[i] != PseudoTags(tag, k, words)[j]
  {
    if PseudoTags(tag, k, words)[i] == PseudoTags(tag, k, words)[j] {
      PseudoTagNamesDistinct(tag, k, i + 1, words[i], k, j + 1, words[j]);
    }
  }

  /** `tagsForWord` after listing each word under its pseudo tag, in order. */
  function WithPseudoTags(m: map<string, set<TaggedString>>, words: seq<string>, names: seq<string>)
    : (r: map<string, set<TaggedString>>)
    requires |words| == |names|
    ensures forall i :: 0 <= i < |words| ==> words[i] in r && TaggedString(words[i], names[i]) in r[words[i]]
    ensures forall w :: w in m ==> w in r && m[w] <= r[w]
    decreases |words|
  {
    if words == [] then m
    else
      var n := |words| - 1;
      var prev := WithPseudoTags(m, words[..n], names[..n]);
      var r := WithTagFor(prev, words[n], names[n]);
      assert forall i :: 0 <= i < n ==> words[..n][i] == words[i] && names[..n][i] == names[i];
      r
  }

  lemma WithPseudoTagsNext(m: map<string, set<TaggedString>>, words: seq<string>, names: seq<string>, i: nat, name: string)
    requires i < |words| && |names| == i
    ensures WithPseudoTags(m, words[..i + 1], names + [name]) == WithTagFor(WithPseudoTags(m, words[..i], names), words[i], name)
  {
    assert words[..i + 1][..i] == words[..i];
    assert (names + [name])[..i] == names;
  }

  lemma PrefixSnoc<T>(s: seq<T>, i: nat)
    requires i < |s|
    ensures s[..i + 1] == s[..i] + [s[i]]
  {
  }

  /** `processExtendedRule(tag, words, prob)`: the tag's counter goes up to
      `k`, each word is listed under its pseudo tag, and the rule
      `tag -> PSEUDO|tag k-1|w1 ...` is added. */
  function ExtendedRule(st: State, tag: string, words: seq<string>, prob: real): (r: State)
    ensures var k := (if tag in st.pseudoNodeCounter then st.pseudoNodeCounter[tag] else 0) + 1;
      r.pseudoNodeCounter == st.pseudoNodeCounter[tag := k] &&
      r.extendedRules == st.extendedRules + [LegacyRule(tag, PseudoTags(tag, k, words), prob, true)]
    ensures forall i :: 0 <= i < |words| ==> (words[i] in r.tagsForWord &&
      TaggedString(words[i], r.extendedRules[|st.extendedRules|].children[i]) in r.tagsForWord[words[i]])
    ensures r.rules == st.rules && r.wordCounterTagMap == st.wordCounterTagMap && r.tagHash == st.tagHash
  {
    var k := (if tag in st.pseudoNodeCounter then st.pseudoNodeCounter[tag] else 0) + 1;
    var names := PseudoTags(tag, k, words);
    st.(pseudoNodeCounter := st.pseudoNodeCounter[tag := k],
        tagsForWord := WithPseudoTags(st.tagsForWord, words, names),
        extendedRules := st.extendedRules + [LegacyRule(tag, names, prob, true)])
  }

  // ---------------------------------------------------------------------
  // One line.

  /** Every child is written as a word (true of no children at all). */
  predicate AllWords(children: seq<string>) {
    forall i :: 0 <= i < |children| ==> GrammarReader.IsWordChild(children[i])
  }

  /** The words of an all-word right side, without their `_`. */
  function Stripped(children: seq<string>): (words: seq<string>)
    requires AllWords(children)
    ensures |words| == |children|
    ensures forall i :: 0 <= i < |children| ==> "_" + words[i] == children[i]
  {
    var words := seq(|children|, i requires 0 <= i < |children| => children[i][1..]);
    assert forall i :: 0 <= i < |children| ==> children[i] == [children[i][0]] + words[i];
    words
  }

  /** Where a matched line with a non-negative probability goes. */
  function Place(st: State, tag: string, children: seq<string>, prob: real, isPseudoTag: bool): Result<State> {
    if GrammarReader.IsWordLine(children) then AddWord(st, children[0][1..], tag, prob)
    else if AllWords(children) then
      if isPseudoTag then Ok(ExtendedRule(st, tag, Stripped(children), prob))
      else Ok(st.(extendedRules := st.extendedRules + [LegacyRule(tag, Stripped(children), prob, false)]))
    else Ok(st.(rules := st.rules + [LegacyRule(tag, children, prob, true)]))
  }

  /** One line of the file; `isPseudoTag` is the static field.  An
      unmatched line, an unreadable number or a negative probability
      aborts. */
  function Step(st: State, line: string, isPseudoTag: bool, parse: string -> Option<real>): (r: Result<State>)
    ensures r.Ok? ==> GrammarReader.ReadLine(line, false, parse).Ok? && GrammarReader.ReadLine(line, false, parse).value.prob >= 0.0
  {
    match GrammarReader.ReadLine(line, false, parse)
    case Fail(why) => Fail(why)
    case Ok(p) =>
      if p.prob < 0.0 then Fail("value < 0")
      else Place(st, p.tag, JavaSplitOnChar(p.rhs, ' '), p.prob, isPseudoTag)
  }

  /** Each line is exactly one of: a lexical entry (`tag -> _w`, no rule
      added), an extended rule (all children words, none of them or more
      than one, added to `extendedRules`), or an ordinary rule over the
      children as written (added to `rules`). */
  lemma PlaceClassifies(st: State, tag: string, children: seq<string>, prob: real, isPseudoTag: bool)
    ensures var r := Place(st, tag, children, prob, isPseudoTag);
      (GrammarReader.IsWordLine(children) ==>
        r == AddWord(st, children[0][1..], tag, prob) &&
        (r.Ok? ==> r.value.rules == st.rules && r.value.extendedRules == st.extendedRules)) &&
      (!GrammarReader.IsWordLine(children) ==> r.Ok?) &&
      (!GrammarReader.IsWordLine(children) && AllWords(children) ==>
        r.value.rules == st.rules && |r.value.extendedRules| == |st.extendedRules| + 1 &&
        r.value.extendedRules[..|st.extendedRules|] == st.extendedRules &&
        var e := r.value.extendedRules[|st.extendedRules|];
        e.mother == tag && e.score == prob && |e.children| == |children| &&
        (isPseudoTag <==> e.isRHSTag) &&
        (!isPseudoTag ==> forall i :: 0 <= i < |children| ==> "_" + e.children[i] == children[i])) &&
      (!AllWords(children) ==>
        r.value.rules == st.rules + [LegacyRule(tag, children, prob, true)] &&
        r.value.extendedRules == st.extendedRules)
  {
    var r := Place(st, tag, children, prob, isPseudoTag);
    if !GrammarReader.IsWordLine(children) && AllWords(children) {
      assert r.value.extendedRules[..|st.extendedRules|] == st.extendedRules;
    }
  }

  // ---------------------------------------------------------------------
  // The pseudo-tag counter.

  /** The number of rules of `tag` in `rs`. */
  function CountOf(rs: seq<LegacyRule>, tag: string): (n: nat)
    ensures n <= |rs|
  {
    if rs == [] then 0 else CountOf(rs[..|rs| - 1], tag) + (if rs[|rs| - 1].mother == tag then 1 else 0)
  }

  /** With pseudo tags on, the counter of each tag is the number of its
      extended rules so far. */
  ghost predicate CounterCounts(st: State) {
    forall tag :: (if tag in st.pseudoNodeCounter then st.pseudoNodeCounter[tag] else 0) == CountOf(st.extendedRules, tag)
  }

  /** So the `k`-th extended rule of a tag names its children with `k`:
      the names in the test, `PSEUDO|A1-1|b PSEUDO|A1-2|c` for the first
      rule of `A` and `PSEUDO|A2-1|d PSEUDO|A2-2|b` for its second. */
  lemma PlaceKeepsCounter(st: State, tag: string, children: seq<string>, prob: real)
    requires CounterCounts(st) && Place(st, tag, children, prob, true).Ok?
    ensures CounterCounts(Place(st, tag, children, prob, true).value)
    ensures var r := Place(st, tag, children, prob, true).value;
      !GrammarReader.IsWordLine(children) && AllWords(children) ==>
        r.extendedRules[|st.extendedRules|].children == PseudoTags(tag, CountOf(r.extendedRules, tag), Stripped(children))
  {
    var r := Place(st, tag, children, prob, true).value;
    if !GrammarReader.IsWordLine(children) && AllWords(children) {
      assert r.extendedRules[..|r.extendedRules| - 1] == st.extendedRules;
      forall t
        ensures (if t in r.pseudoNodeCounter then r.pseudoNodeCounter[t] else 0) == CountOf(r.extendedRules, t)
      {
        assert (if t in st.pseudoNodeCounter then st.pseudoNodeCounter[t] else 0) == CountOf(st.extendedRules, t);
      }
    }
  }

  lemma StepKeepsCounter(st: State, line: string, parse: string -> Option<real>)
    requires CounterCounts(st) && Step(st, line, true, parse).Ok?
    ensures CounterCounts(Step(st, line, true, parse).value)
  {
    var p := GrammarReader.ReadLine(line, false, parse).value;
    PlaceKeepsCounter(st, p.tag, JavaSplitOnChar(p.rhs, ' '), p.prob);
  }

  // ---------------------------------------------------------------------
  // The whole file.

  function EmptyState(): State {
    State([], [], map[], map[], {}, map[], {}, map[])
  }

  /** The lines read one after the other from `st` with a fresh counter;
      the first failure stops it. */
  function Run(st: State, lines: seq<string>, isPseudoTag: bool, parse: string -> Option<real>): (r: Result<State>)
    decreases |lines|
  {
    if lines == [] then Ok(st.(pseudoNodeCounter := map[]))
    else
      match Run(st, lines[..|lines| - 1], isPseudoTag, parse)
      case Fail(why) => Fail(why)
      case Ok(s1) => Step(s1, lines[|lines| - 1], isPseudoTag, parse)
  }

  /** With pseudo tags on, a whole file keeps the counter equal to the
      number of extended rules of each tag. */
  lemma {:induction false} RunKeepsCounter(st: State, lines: seq<string>, parse: string -> Option<real>)
    requires st.extendedRules == [] && Run(st, lines, true, parse).Ok?
    ensures CounterCounts(Run(st, lines, true, parse).value)
    decreases |lines|
  {
    if lines != [] {
      var init := lines[..|lines| - 1];
      RunKeepsCounter(st, init, parse);
      StepKeepsCounter(Run(st, init, true, parse).value, lines[|lines| - 1], parse);
    }
  }

  // ---------------------------------------------------------------------
  // The reading loop over the collections it fills.

  class Tables {
    var rules: seq<LegacyRule>
    var extendedRules: seq<LegacyRule>
    var wordCounterTagMap: map<string, map<string, real>>
    var tagsForWord: map<string, set<TaggedString>>
    var preterminalSet: set<string>
    var tagHash: map<string, map<string, real>>
    var seenEnd: set<string>
    var pseudoNodeCounter: map<string, nat>

    function Snapshot(): State
      reads this
    {
      State(rules, extendedRules, wordCounterTagMap, tagsForWord, preterminalSet, tagHash, seenEnd, pseudoNodeCounter)
    }

    constructor ()
      ensures Snapshot() == EmptyState()
    {
      rules, extendedRules := [], [];
      wordCounterTagMap, tagsForWord, preterminalSet := map[], map[], {};
      tagHash, seenEnd, pseudoNodeCounter := map[], {}, map[];
    }

    /** `addWord` on the collections. */
    method AddWordTo(word: string, tag: string, prob: real) returns (r: Result<()>)
      modifies this
      ensures var s := AddWord(old(Snapshot()), word, tag, prob);
        (r.Ok? <==> s.Ok?) && (r.Ok? ==> Snapshot() == s.value)
    {
      if StartsWithUnk(word) {
        if word != "UNK" {
          seenEnd := seenEnd + {word};
        }
        var counter := if tag in tagHash then tagHash[tag] else map[];
        if word in counter {
          return Fail("duplicate key");
        }
        tagHash := tagHash[tag := counter[word := prob]];
        preterminalSet := preterminalSet + {tag};
      } else {
        var counter := if tag in wordCounterTagMap then wordCounterTagMap[tag] else map[];
        if word in counter {
          return Fail("word already listed for the tag");
        }
        wordCounterTagMap := wordCounterTagMap[tag := counter[word := prob]];
      }
      tagsForWord := WithTagFor(tagsForWord, word, tag);
      return Ok(());
    }

    /** `processExtendedRule` on the collections. */
    method ProcessExtendedRule(tag: string, words: seq<string>, prob: real)
      modifies this
      ensures Snapshot() == ExtendedRule(old(Snapshot()), tag, words, prob)
    {
      var k := (if tag in pseudoNodeCounter then pseudoNodeCounter[tag] else 0) + 1;
      pseudoNodeCounter := pseudoNodeCounter[tag := k];
      var names := ListPseudoTags(tag, k, words);
      extendedRules := extendedRules + [LegacyRule(tag, names, prob, true)];
    }

    /** The loop of `processExtendedRule`: each word is listed under its
        pseudo tag, and the pseudo tags are returned in order. */
    method ListPseudoTags(tag: string, k: nat, words: seq<string>) returns (names: seq<string>)
      modifies this`tagsForWord
      ensures names == PseudoTags(tag, k, words)
      ensures tagsForWord == WithPseudoTags(old(tagsForWord), words, names)
    {
      ghost var all := PseudoTags(tag, k, words);
      names := [];
      var i := 0;
      while i < |words|
        invariant 0 <= i <= |words|
        invariant names == all[..i]
        invariant tagsForWord == WithPseudoTags(old(tagsForWord), words[..i], names)
      {
        var name := PseudoTagName(tag, k, i + 1, words[i]);
        WithPseudoTagsNext(old(tagsForWord), words, names, i, name);
        tagsForWord := WithTagFor(tagsForWord, words[i], name);
        assert all[i] == name;
        PrefixSnoc(all, i);
        names := names + [name];
        i := i + 1;
      }
      assert words[..|words|] == words && all[..|words|] == all;
    }

    /** The branch on the shape of the right side, for a matched line. */
    method PlaceLine(tag: string, children: seq<string>, prob: real, isPseudoTag: bool) returns (r: Result<()>)
      modifies this
      ensures var s := Place(old(Snapshot()), tag, children, prob, isPseudoTag);
        (r.Ok? <==> s.Ok?) && (r.Ok? ==> Snapshot() == s.value)
    {
      if GrammarReader.IsWordLine(children) {
        r := AddWordTo(children[0][1..], tag, prob);
        return;
      }
      var isExtended := true;
      var j := 0;
      while j < |children| && isExtended
        invariant 0 <= j <= |children|
        invariant isExtended <==> forall i :: 0 <= i < j ==> GrammarReader.IsWordChild(children[i])
        invariant !isExtended ==> !AllWords(children)
      {
        if !GrammarReader.IsWordChild(children[j]) {
          isExtended := false;
        }
        j := j + 1;
      }
      if isExtended {
        var words := Stripped(children);
        if isPseudoTag {
          ProcessExtendedRule(tag, words, prob);
        } else {
          extendedRules := extendedRules + [LegacyRule(tag, words, prob, false)];
        }
      } else {
        rules := rules + [LegacyRule(tag, children, prob, true)];
      }
      return Ok(());
    }

    /** The body of the reading loop. */
    method ReadOneLine(line: string, isPseudoTag: bool, parse: string -> Option<real>) returns (r: Result<()>)
      modifies this
      ensures var s := Step(old(Snapshot()), line, isPseudoTag, parse);
        (r.Ok? <==> s.Ok?) && (r.Ok? ==> Snapshot() == s.value)
    {
      var parts := GrammarReader.ReadLine(line, false, parse);
      if parts.Fail? {
        return Fail(parts.reason);
      }
      var p := parts.value;
      if p.prob < 0.0 {
        return Fail("value < 0");
      }
      r := PlaceLine(p.tag, JavaSplitOnChar(p.rhs, ' '), p.prob, isPseudoTag);
    }

    /** The private `parseRuleFile` loop; `isPseudoTag` is the static field
        the loop reads. */
    method ParseRuleFile(lines: seq<string>, isPseudoTag: bool, parse: string -> Option<real>) returns (r: Result<()>)
      modifies this
      ensures var s := Run(old(Snapshot()), lines, isPseudoTag, parse);
        (r.Ok? <==> s.Ok?) && (r.Ok? ==> Snapshot() == s.value)
    {
      ghost var st0 := Snapshot();
      pseudoNodeCounter := map[];
      var i := 0;
      while i < |lines|
        invariant 0 <= i <= |lines|
        invariant Run(st0, lines[..i], isPseudoTag, parse) == Ok(Snapshot())
      {
        RunNext(st0, lines, i, isPseudoTag, parse);
        var res := ReadOneLine(lines[i], isPseudoTag, parse);
        if res.Fail? {
          RunFailStays(st0, lines, i + 1, isPseudoTag, parse);
          return Fail(res.reason);
        }
        i := i + 1;
      }
      assert lines[..|lines|] == lines;
      return Ok(());
    }

    /** The `StringReader` overload: fresh lexicon collections, and the
        `isPseudoTag` argument is not looked at; the static field decides. */
    method ParseRuleString(lines: seq<string>, isPseudoTagArgument: bool, isPseudoTagField: bool,
                           parse: string -> Option<real>) returns (r: Result<()>)
      modifies this
      ensures var s := Run(old(Snapshot()).(tagsForWord := map[], preterminalSet := {}, tagHash := map[], seenEnd := {}),
                           lines, isPseudoTagField, parse);
        (r.Ok? <==> s.Ok?) && (r.Ok? ==> Snapshot() == s.value)
    {
      tagsForWord, preterminalSet, tagHash, seenEnd := map[], {}, map[], {};
      assert Snapshot() == old(Snapshot()).(tagsForWord := map[], preterminalSet := {}, tagHash := map[], seenEnd := {});
      r := ParseRuleFile(lines, isPseudoTagField, parse);
    }
  }

  lemma RunNext(st: State, lines: seq<string>, i: nat, isPseudoTag: bool, parse: string -> Option<real>)
    requires i < |lines| && Run(st, lines[..i], isPseudoTag, parse).Ok?
    ensures Run(st, lines[..i + 1], isPseudoTag, parse) == Step(Run(st, lines[..i], isPseudoTag, parse).value, lines[i], isPseudoTag, parse)
  {
    assert lines[..i + 1][..i] == lines[..i];
  }

  /** A line that fails stops the reading. */
  lemma {:induction false} RunFailStays(st: State, lines: seq<string>, j: nat, isPseudoTag: bool, parse: string -> Option<real>)
    requires j <= |lines| && Run(st, lines[..j], isPseudoTag, parse).Fail?
    ensures Run(st, lines, isPseudoTag, parse).Fail?
    decreases |lines| - j
  {
    if j == |lines| {
      assert lines[..j] == lines;
    } else {
      assert lines[..j + 1][..j] == lines[..j];
      RunFailStays(st, lines, j + 1, isPseudoTag, parse);
    }
  }
}
