/** `util.RuleFile.parseRuleFile` and `addWord`: reading a grammar file line
    by line into a rule set, the two lexicon maps, the numbering of the
    nonterminals and the tag and word indexes.  A line that does not match
    the rule pattern, a number `Double.parseDouble` refuses, a negative
    probability, a lexical entry listed twice, or a rule whose probability
    conflicts with an earlier copy stops the reading (`Fail`). */
module GrammarReader {
  import opened Wrappers
  import opened Text
  import opened Indexing
  import opened Rules
  import opened RuleTable
  import opened RuleLine

  /** `IntTaggedWord(word, tag)`. */
  datatype TaggedWord = TaggedWord(word: int, tag: int)

  /** The groups of one line; `bias` is 0 in a file without biases. */
  datatype LineParts = LineParts(bias: real, tag: string, rhs: string, prob: real)

  /** Trimming a line and matching it; `parse` stands for
      `Double.parseDouble` and is `None` where that throws.  In a biased
      file the biased pattern is tried first, and a plain line gets bias 1. */
  function ReadLine(line: string, isBias: bool, parse: string -> Option<real>): (r: Result<LineParts>)
    ensures r.Ok? ==> MatchRule(Trim(line)).Some? || (isBias && MatchBiasRule(Trim(line)).Some?)
    ensures r.Ok? && !isBias ==> r.value.bias == 0.0
    ensures r.Ok? && isBias && MatchBiasRule(Trim(line)).None? ==> r.value.bias == 1.0
  {
    var t := Trim(line);
    var bm := if isBias then MatchBiasRule(t) else None;
    if bm.Some? then
      match (parse(bm.value.bias), parse(bm.value.rule.num))
      case (Some(bias), Some(prob)) => Ok(LineParts(bias, bm.value.rule.tag, bm.value.rule.rhs, prob))
      case _ => Fail("NumberFormatException")
    else
      match MatchRule(t)
      case None => Fail("fail to match line")
      case Some(m) =>
        match parse(m.num)
        case None => Fail("NumberFormatException")
        case Some(prob) => Ok(LineParts(if isBias then 1.0 else 0.0, m.tag, m.rhs, prob))
  }

  /** A line written as `tag->[rhs] : num` in a file without biases reads
      back as its parts. */
  lemma ReadPlainLine(tag: string, rhs: string, num: string, p: real, parse: string -> Option<real>)
    requires Writable(tag, rhs, num) && !IsSpace(tag[0]) && parse(num) == Some(p)
    ensures ReadLine(tag + "->[" + rhs + "] : " + num, false, parse) == Ok(LineParts(0.0, tag, rhs, p))
  {
    var s := tag + "->[" + rhs + "] : " + num;
    assert s[0] == tag[0] && s[|s| - 1] == num[|num| - 1];
    TrimKeeps(s);
    MatchRuleRoundTrip(tag, rhs, num);
  }

  /** A line written as `bias tag->[rhs] : num` in a biased file reads back
      as its parts. */
  lemma ReadBiasedLine(bias: string, tag: string, rhs: string, num: string, b: real, p: real,
                       parse: string -> Option<real>)
    requires IsNumberText(bias) && Writable(tag, rhs, num)
    requires parse(bias) == Some(b) && parse(num) == Some(p)
    ensures ReadLine(bias + " " + tag + "->[" + rhs + "] : " + num, true, parse) == Ok(LineParts(b, tag, rhs, p))
  {
    var s := bias + " " + tag + "->[" + rhs + "] : " + num;
    assert s[0] == bias[0] && s[|s| - 1] == num[|num| - 1];
    TrimKeeps(s);
    MatchBiasRoundTrip(bias, tag, rhs, num);
  }

  /** In a biased file, a line without a bias whose tag does not start with
      a number character reads back with bias 1. */
  lemma ReadUnbiasedLineOfBiasedFile(tag: string, rhs: string, num: string, p: real,
                                     parse: string -> Option<real>)
    requires Writable(tag, rhs, num) && !IsSpace(tag[0]) && !IsNumberChar(tag[0]) && parse(num) == Some(p)
    ensures ReadLine(tag + "->[" + rhs + "] : " + num, true, parse) == Ok(LineParts(1.0, tag, rhs, p))
  {
    var s := tag + "->[" + rhs + "] : " + num;
    assert s[0] == tag[0] && s[|s| - 1] == num[|num| - 1];
    TrimKeeps(s);
    MatchRuleRoundTrip(tag, rhs, num);
    assert NumberPrefixLen(s) == 0;
  }

  /** A probability just above 1 (below 1.000001) is taken as 1. */
  function Clamp(p: real): (c: real)
    ensures c <= 1.0 || c >= 1.000001
    ensures Abs(c - p) < 0.000001
    ensures p <= 1.0 || p >= 1.000001 ==> c == p
  {
    if 1.0 < p < 1.000001 then 1.0 else p
  }

  /** A `ProbRule` for bias 0 and a `BiasProbRule` otherwise. */
  function WithBias(rule: Rule, prob: real, bias: real): (pr: ProbRule)
    ensures pr.rule == rule && pr.prob == prob && pr.GetBias() == bias
  {
    if bias == 0.0 then ProbRule(rule, prob) else BiasProbRule(rule, prob, bias)
  }

  /** A child written with a leading `_` is a word. */
  predicate IsWordChild(c: string) {
    |c| > 0 && c[0] == '_'
  }

  // ---------------------------------------------------------------------
  // The lexicon maps.

  /** `tag2wordsMap` (tag -> word -> probability) and `word2tagsMap`
      (word -> its tagged words). */
  datatype Lexicon = Lexicon(tag2words: map<int, map<int, real>>, word2tags: map<int, set<TaggedWord>>)

  /** The two maps list the same (tag, word) pairs. */
  ghost predicate Agrees(lex: Lexicon) {
    (forall t, w :: t in lex.tag2words && w in lex.tag2words[t] ==>
      w in lex.word2tags && TaggedWord(w, t) in lex.word2tags[w]) &&
    (forall w, tw :: w in lex.word2tags && tw in lex.word2tags[w] ==>
      tw.word == w && tw.tag in lex.tag2words && w in lex.tag2words[tw.tag])
  }

  /** `addWord(iW, iT, prob)`: a (tag, word) pair listed already is a failed
      assertion; otherwise the probability is set and the tagged word added. */
  function WithWord(lex: Lexicon, iW: int, iT: int, prob: real): (r: Result<Lexicon>)
    ensures r.Fail? <==> iT in lex.tag2words && iW in lex.tag2words[iT]
    ensures r.Ok? ==> iT in r.value.tag2words && iW in r.value.tag2words[iT] && r.value.tag2words[iT][iW] == prob
    ensures r.Ok? ==> iW in r.value.word2tags && TaggedWord(iW, iT) in r.value.word2tags[iW]
    ensures r.Ok? ==> forall t, w :: t in lex.tag2words && w in lex.tag2words[t] ==>
      t in r.value.tag2words && w in r.value.tag2words[t] && r.value.tag2words[t][w] == lex.tag2words[t][w]
    ensures r.Ok? ==> forall t, w :: t in r.value.tag2words && w in r.value.tag2words[t] ==>
      (t == iT && w == iW) || (t in lex.tag2words && w in lex.tag2words[t])
  {
    var counter := if iT in lex.tag2words then lex.tag2words[iT] else map[];
    if iW in counter then Fail("word already listed for the tag")
    else
      var tws := if iW in lex.word2tags then lex.word2tags[iW] else {};
      Ok(Lexicon(lex.tag2words[iT := counter[iW := prob]], lex.word2tags[iW := tws + {TaggedWord(iW, iT)}]))
  }

  lemma WithWordAgrees(lex: Lexicon, iW: int, iT: int, prob: real)
    requires Agrees(lex) && WithWord(lex, iW, iT, prob).Ok?
    ensures Agrees(WithWord(lex, iW, iT, prob).value)
  {
    var l2 := WithWord(lex, iW, iT, prob).value;
    forall w, tw | w in l2.word2tags && tw in l2.word2tags[w]
      ensures tw.word == w && tw.tag in l2.tag2words && w in l2.tag2words[tw.tag]
    {
      if !(w == iW && tw == TaggedWord(iW, iT)) {
        assert w in lex.word2tags && tw in lex.word2tags[w];
      }
    }
  }

  // ---------------------------------------------------------------------
  // One line.

  /** Everything `parseRuleFile` fills in. */
  datatype Grammar = Grammar(rules: Table, lex: Lexicon, nonterminals: map<int, int>,
                             words: Index<string>, tags: Index<string>)

  /** Nonterminal ids are `0 .. n-1` for the `n` nonterminals, one each. */
  ghost predicate Dense(m: map<int, int>) {
    (forall k :: k in m ==> 0 <= m[k] < |m|) &&
    (forall k1, k2 :: k1 in m && k2 in m && k1 != k2 ==> m[k1] != m[k2])
  }

  /** The rule set is valid, the indexes number each name once,
      the lexicon maps agree, nonterminal ids are dense, and every stored
      rule names entries of the indexes. */
  ghost predicate Consistent(g: Grammar) {
    Valid(g.rules) && g.words.Valid() && g.tags.Valid() && Agrees(g.lex) && Dense(g.nonterminals) &&
    forall i :: 0 <= i < |g.rules.allRules| ==> Named(g.rules.allRules[i].rule, g.tags, g.words)
  }

  /** `g2` only appended to the rules and the indexes of `g`. */
  predicate Extends(g: Grammar, g2: Grammar) {
    |g.rules.allRules| <= |g2.rules.allRules| && g2.rules.allRules[..|g.rules.allRules|] == g.rules.allRules &&
    |g.tags.items| <= |g2.tags.items| && g2.tags.items[..|g.tags.items|] == g.tags.items &&
    |g.words.items| <= |g2.words.items| && g2.words.items[..|g.words.items|] == g.words.items
  }

  /** The rule class chosen by the number of tag children: a fragment rule
      when there is one, a tag rule when there are no children at all, a
      terminal rule otherwise. */
  function RuleOfFlags(iT: int, ids: seq<int>, isTag: seq<bool>): (rule: Rule)
    requires |ids| == |isTag|
    ensures rule.Valid() && rule.WellCounted() && rule.mother == iT && rule.Children() == ids
    ensures rule.TagFlags() == isTag
    ensures rule.FragmentRule? <==> exists i :: 0 <= i < |isTag| && isTag[i]
    ensures rule.TagRule? <==> isTag == []
  {
    var n := CountTrue(isTag);
    CountTrueZero(isTag);
    var rule :=
      if n > 0 then FragmentRule(iT, ids, isTag, n)
      else if n == |isTag| then TagRule(iT, ids)
      else TerminalRule(iT, ids);
    assert rule.TagFlags() == isTag;
    rule
  }

  /** The rule of a line that is not a single word: each child starting
      with `_` is interned as the word after it, any other as a tag. */
  function LineRule(iT: int, children: seq<string>, tags: Index<string>, words: Index<string>)
    : (r: (Rule, Index<string>, Index<string>))
    requires tags.Valid() && words.Valid() && 0 <= iT < |tags.items|
    ensures r.0.Valid() && r.0.WellCounted() && r.1.Valid() && r.2.Valid() && r.0.mother == iT
    ensures |tags.items| <= |r.1.items| && r.1.items[..|tags.items|] == tags.items
    ensures |words.items| <= |r.2.items| && r.2.items[..|words.items|] == words.items
    ensures Named(r.0, r.1, r.2) && ChildStrs(r.0, r.1, r.2) == children
    ensures r.0.FragmentRule? <==> exists i :: 0 <= i < |children| && !IsWordChild(children[i])
    ensures r.0.TagRule? <==> children == []
  {
    var isTag := seq(|children|, i requires 0 <= i < |children| => !IsWordChild(children[i]));
    var strs := seq(|children|, i requires 0 <= i < |children| => if isTag[i] then children[i] else children[i][1..]);
    var (ids, t, w) := InternChildren(strs, isTag, tags, words);
    var rule := RuleOfFlags(iT, ids, isTag);
    assert isTag[..|strs|] == isTag;
    assert t.items[iT] == tags.items[iT];
    NamedOfInterned(rule, strs, isTag, t, w);
    DecoratedChildren(children, strs, isTag);
    assert (exists i :: 0 <= i < |isTag| && isTag[i]) <==> exists i :: 0 <= i < |children| && !IsWordChild(children[i]);
    (rule, t, w)
  }

  /** Putting the `_` back in front of each word gives the children. */
  lemma DecoratedChildren(children: seq<string>, strs: seq<string>, isTag: seq<bool>)
    requires |strs| == |children| == |isTag|
    requires forall i :: 0 <= i < |children| ==> isTag[i] == !IsWordChild(children[i])
    requires forall i :: 0 <= i < |children| ==> (isTag[i] ==> strs[i] == children[i])
    requires forall i :: 0 <= i < |children| ==> (!isTag[i] ==> IsWordChild(children[i]) && strs[i] == children[i][1..])
    ensures Decorated(strs, isTag) == children
  {
    forall i | 0 <= i < |children|
      ensures Decorated(strs, isTag)[i] == children[i]
    {
      if !isTag[i] {
        assert children[i] == [children[i][0]] + children[i][1..];
      }
    }
  }

  /** A line `tag -> _word`: one child, written as a word. */
  predicate IsWordLine(children: seq<string>) {
    |children| == 1 && IsWordChild(children[0])
  }

  /** The tables after the line `tag -> _word` (the tag already interned as
      `iT` in `tags1`): the word is interned, listed under the tag, and the
      rule `tag -> _word` added. */
  function ApplyWord(g: Grammar, tags1: Index<string>, iT: int, word: string, prob: real, bias: real)
    : (r: Result<Grammar>)
    requires Consistent(g) && tags1.Valid() && 0 <= iT < |tags1.items|
    requires |g.tags.items| <= |tags1.items| && tags1.items[..|g.tags.items|] == g.tags.items
    ensures r.Ok? ==> r.value.nonterminals == g.nonterminals && r.value.tags == tags1
  {
    var (words1, iW) := g.words.Add(word);
    match WithWord(g.lex, iW, iT, prob)
    case Fail(why) => Fail(why)
    case Ok(lex) =>
      var (t, added) := AddAsWritten(g.rules, WithBias(TerminalRule(iT, [iW]), prob, bias));
      if added.Fail? then Fail(added.reason)
      else Ok(Grammar(t, lex, g.nonterminals, words1, tags1))
  }

  /** The tables after any other line: the tag is numbered as a nonterminal
      when it is new, the children interned, and the rule added. */
  function ApplyRule(g: Grammar, tags1: Index<string>, iT: int, children: seq<string>, prob: real, bias: real)
    : (r: Result<Grammar>)
    requires Consistent(g) && tags1.Valid() && 0 <= iT < |tags1.items|
    requires |g.tags.items| <= |tags1.items| && tags1.items[..|g.tags.items|] == g.tags.items
    ensures r.Ok? ==> r.value.lex == g.lex
  {
    var nts := if iT in g.nonterminals then g.nonterminals else g.nonterminals[iT := |g.nonterminals|];
    var (rule, tags2, words2) := LineRule(iT, children, tags1, g.words);
    var (t, added) := AddAsWritten(g.rules, WithBias(rule, prob, bias));
    if added.Fail? then Fail(added.reason)
    else Ok(Grammar(t, g.lex, nts, words2, tags2))
  }

  /** The groups of one line applied to `g`: the tag is interned, a
      negative probability refused, one just above 1 clamped, and the right
      side split on single spaces. */
  function Apply(g: Grammar, p: LineParts): (r: Result<Grammar>)
    requires Consistent(g)
    ensures p.prob < 0.0 ==> r.Fail?
  {
    var (tags1, iT) := g.tags.Add(p.tag);
    if p.prob < 0.0 then Fail("value < 0")
    else
      var children := JavaSplitOnChar(p.rhs, ' ');
      if IsWordLine(children) then ApplyWord(g, tags1, iT, children[0][1..], Clamp(p.prob), p.bias)
      else ApplyRule(g, tags1, iT, children, Clamp(p.prob), p.bias)
  }

  /** One line of the file, applied to `g`. */
  function Step(g: Grammar, line: string, isBias: bool, parse: string -> Option<real>): (r: Result<Grammar>)
    requires Consistent(g)
    ensures ReadLine(line, isBias, parse).Fail? ==> r.Fail?
    ensures r.Ok? ==> ReadLine(line, isBias, parse).value.prob >= 0.0
  {
    match ReadLine(line, isBias, parse)
    case Fail(why) => Fail(why)
    case Ok(p) => Apply(g, p)
  }

  // ---------------------------------------------------------------------
  // What one line does.

  lemma DenseAdd(m: map<int, int>, k: int)
    requires Dense(m) && k !in m
    ensures Dense(m[k := |m|])
  {
    assert |m[k := |m|]| == |m| + 1;
  }

  /** Extending twice is extending. */
  lemma ExtendsTrans(g1: Grammar, g2: Grammar, g3: Grammar)
    requires Extends(g1, g2) && Extends(g2, g3)
    ensures Extends(g1, g3)
  {
    assert g3.rules.allRules[..|g1.rules.allRules|] == g3.rules.allRules[..|g2.rules.allRules|][..|g1.rules.allRules|];
    assert g3.tags.items[..|g1.tags.items|] == g3.tags.items[..|g2.tags.items|][..|g1.tags.items|];
    assert g3.words.items[..|g1.words.items|] == g3.words.items[..|g2.words.items|][..|g1.words.items|];
  }

  /** Adding `pr` to a table whose rules are all named keeps them named
      under indexes that grew, appends `pr` to `allRules`, and numbers at
      most one new rule. */
  lemma AddKeepsNamed(t: Table, pr: ProbRule, tags: Index<string>, words: Index<string>,
                      tags2: Index<string>, words2: Index<string>)
    requires Valid(t) && pr.rule.Valid() && Named(pr.rule, tags2, words2)
    requires |tags.items| <= |tags2.items| && |words.items| <= |words2.items|
    requires forall i :: 0 <= i < |t.allRules| ==> Named(t.allRules[i].rule, tags, words)
    ensures var t2 := AddAsWritten(t, pr).0;
      Valid(t2) && t2.allRules == t.allRules + [pr] &&
      t.numRules <= t2.numRules <= t.numRules + 1 &&
      forall i :: 0 <= i < |t2.allRules| ==> Named(t2.allRules[i].rule, tags2, words2)
  {
    AddAsWrittenValid(t, pr);
    AddAsWrittenKeys(t, pr);
    var t2 := AddAsWritten(t, pr).0;
    forall i | 0 <= i < |t2.allRules|
      ensures Named(t2.allRules[i].rule, tags2, words2)
    {
      if i < |t.allRules| {
        assert t2.allRules[i] == t.allRules[i];
        assert Named(t.allRules[i].rule, tags, words);
      }
    }
  }

  /** The single-word rule `tag -> _word`. */
  lemma WordRuleNamed(iT: int, iW: int, tags: Index<string>, words: Index<string>, child: string)
    requires 0 <= iT < |tags.items| && 0 <= iW < |words.items|
    requires IsWordChild(child) && words.items[iW] == child[1..]
    ensures Named(TerminalRule(iT, [iW]), tags, words)
    ensures ChildStrs(TerminalRule(iT, [iW]), tags, words) == [child]
  {
    assert child == [child[0]] + child[1..];
  }

  /** What a successful line leaves: a consistent grammar that only grew,
      with one more entry in `allRules` and at most one more rule id. */
  ghost predicate GrewByLine(g: Grammar, g2: Grammar) {
    Consistent(g2) && Extends(g, g2) && |g2.rules.allRules| == |g.rules.allRules| + 1 &&
    g.rules.numRules <= g2.rules.numRules <= g.rules.numRules + 1
  }

  lemma ApplyWordConsistent(g: Grammar, tags1: Index<string>, iT: int, word: string, prob: real, bias: real)
    requires Consistent(g) && tags1.Valid() && 0 <= iT < |tags1.items|
    requires |g.tags.items| <= |tags1.items| && tags1.items[..|g.tags.items|] == g.tags.items
    ensures var r := ApplyWord(g, tags1, iT, word, prob, bias);
      r.Ok? ==> GrewByLine(g, r.value)
  {
    var r := ApplyWord(g, tags1, iT, word, prob, bias);
    if r.Ok? {
      var (words1, iW) := g.words.Add(word);
      WordRuleNamed(iT, iW, tags1, words1, "_" + word);
      AddKeepsNamed(g.rules, WithBias(TerminalRule(iT, [iW]), prob, bias), g.tags, g.words, tags1, words1);
      WithWordAgrees(g.lex, iW, iT, prob);
    }
  }

  lemma ApplyRuleConsistent(g: Grammar, tags1: Index<string>, iT: int, children: seq<string>, prob: real, bias: real)
    requires Consistent(g) && tags1.Valid() && 0 <= iT < |tags1.items|
    requires |g.tags.items| <= |tags1.items| && tags1.items[..|g.tags.items|] == g.tags.items
    ensures var r := ApplyRule(g, tags1, iT, children, prob, bias);
      r.Ok? ==> GrewByLine(g, r.value)
  {
    var r := ApplyRule(g, tags1, iT, children, prob, bias);
    if r.Ok? {
      var (rule, tags2, words2) := LineRule(iT, children, tags1, g.words);
      PrefixTrans(g.tags.items, tags1.items, tags2.items);
      AddKeepsNamed(g.rules, WithBias(rule, prob, bias), g.tags, g.words, tags2, words2);
      if iT !in g.nonterminals {
        DenseAdd(g.nonterminals, iT);
      }
    }
  }

  /** Every line that is read keeps the grammar consistent, appends one
      entry to `allRules`, numbers one new rule at most, and only appends to
      the indexes. */
  lemma StepConsistent(g: Grammar, line: string, isBias: bool, parse: string -> Option<real>)
    requires Consistent(g)
    ensures var r := Step(g, line, isBias, parse);
      r.Ok? ==> GrewByLine(g, r.value)
  {
    var pr := ReadLine(line, isBias, parse);
    if pr.Ok? {
      assert Step(g, line, isBias, parse) == Apply(g, pr.value);
      ApplyConsistent(g, pr.value);
    }
  }

  /** The groups of a line keep the grammar consistent when applied. */
  lemma ApplyConsistent(g: Grammar, p: LineParts)
    requires Consistent(g)
    ensures var r := Apply(g, p);
      r.Ok? ==> GrewByLine(g, r.value)
  {
    var (tags1, iT) := g.tags.Add(p.tag);
    var children := JavaSplitOnChar(p.rhs, ' ');
    if p.prob >= 0.0 {
      if IsWordLine(children) {
        assert Apply(g, p) == ApplyWord(g, tags1, iT, children[0][1..], Clamp(p.prob), p.bias);
        ApplyWordConsistent(g, tags1, iT, children[0][1..], Clamp(p.prob), p.bias);
      } else {
        assert Apply(g, p) == ApplyRule(g, tags1, iT, children, Clamp(p.prob), p.bias);
        ApplyRuleConsistent(g, tags1, iT, children, Clamp(p.prob), p.bias);
      }
    }
  }

  /** Rule `i` of the table reads `lhs -> children` through the indexes. */
  predicate Renders(g: Grammar, i: int, lhs: string, children: seq<string>) {
    0 <= i < |g.rules.allRules| && Named(g.rules.allRules[i].rule, g.tags, g.words) &&
    LhsString(g.rules.allRules[i].rule, g.tags) == lhs &&
    ChildStrs(g.rules.allRules[i].rule, g.tags, g.words) == children
  }

  /** A rule read stays readable while the grammar only grows. */
  lemma RendersGrows(g: Grammar, g2: Grammar, i: int, lhs: string, children: seq<string>)
    requires Extends(g, g2) && Renders(g, i, lhs, children)
    ensures Renders(g2, i, lhs, children)
  {
    var rule := g.rules.allRules[i].rule;
    assert g2.rules.allRules[i] == g.rules.allRules[i];
    assert g2.tags.items[rule.mother] == g.tags.items[rule.mother];
    forall k | 0 <= k < rule.NumChildren()
      ensures ChildStr(rule, g2.tags, g2.words, k) == ChildStr(rule, g.tags, g.words, k)
    {
      if rule.IsTag(k) {
        assert g2.tags.items[rule.Children()[k]] == g.tags.items[rule.Children()[k]];
      } else {
        assert g2.words.items[rule.Children()[k]] == g.words.items[rule.Children()[k]];
      }
    }
  }

  /** Adding a named rule puts it at the end of `allRules`, where it reads
      as the line's mother and children, also when an earlier copy holds
      its id. */
  lemma AddRecords(g: Grammar, pr: ProbRule, lhs: string, children: seq<string>)
    requires Valid(g.rules) && pr.rule.Valid() && Named(pr.rule, g.tags, g.words)
    requires LhsString(pr.rule, g.tags) == lhs && ChildStrs(pr.rule, g.tags, g.words) == children
    ensures Renders(g.(rules := AddAsWritten(g.rules, pr).0), |g.rules.allRules|, lhs, children)
  {
    AddAsWrittenKeys(g.rules, pr);
  }

  /** After the line `tag -> _word`, the new last entry of the rule set
      reads back as the tag over `_word`, and the word is listed under the tag
      with the line's probability; the nonterminals are left alone. */
  lemma ApplyWordRecords(g: Grammar, tags1: Index<string>, iT: int, word: string, prob: real, bias: real)
    requires Consistent(g) && tags1.Valid() && 0 <= iT < |tags1.items|
    requires |g.tags.items| <= |tags1.items| && tags1.items[..|g.tags.items|] == g.tags.items
    requires ApplyWord(g, tags1, iT, word, prob, bias).Ok?
    ensures var g2 := ApplyWord(g, tags1, iT, word, prob, bias).value;
      Renders(g2, |g.rules.allRules|, tags1.items[iT], ["_" + word]) &&
      g2.nonterminals == g.nonterminals &&
      exists iW :: 0 <= iW < |g2.words.items| && g2.words.items[iW] == word &&
        iT in g2.lex.tag2words && iW in g2.lex.tag2words[iT] && g2.lex.tag2words[iT][iW] == prob
  {
    var g2 := ApplyWord(g, tags1, iT, word, prob, bias).value;
    ApplyWordConsistent(g, tags1, iT, word, prob, bias);
    var (words1, iW) := g.words.Add(word);
    assert ("_" + word)[1..] == word;
    WordRuleNamed(iT, iW, tags1, words1, "_" + word);
    AddRecords(g2.(rules := g.rules), WithBias(TerminalRule(iT, [iW]), prob, bias), tags1.items[iT], ["_" + word]);
    assert g2.(rules := g.rules).(rules := g2.rules) == g2;
    assert g2.words.items[iW] == word;
  }

  /** After any other line, the new last entry of the rule set reads back
      as the tag over the children; the tag is numbered as a nonterminal, with
      the next free id when it is new, and no nonterminal is renumbered. */
  lemma ApplyRuleRecords(g: Grammar, tags1: Index<string>, iT: int, children: seq<string>, prob: real, bias: real)
    requires Consistent(g) && tags1.Valid() && 0 <= iT < |tags1.items|
    requires |g.tags.items| <= |tags1.items| && tags1.items[..|g.tags.items|] == g.tags.items
    requires ApplyRule(g, tags1, iT, children, prob, bias).Ok?
    ensures var g2 := ApplyRule(g, tags1, iT, children, prob, bias).value;
      Renders(g2, |g.rules.allRules|, tags1.items[iT], children) &&
      iT < |g2.tags.items| && g2.tags.items[iT] == tags1.items[iT] && iT in g2.nonterminals &&
      (iT !in g.nonterminals ==> g2.nonterminals[iT] == |g.nonterminals|) &&
      (forall k :: k in g.nonterminals ==> k in g2.nonterminals && g2.nonterminals[k] == g.nonterminals[k])
  {
    var g2 := ApplyRule(g, tags1, iT, children, prob, bias).value;
    ApplyRuleConsistent(g, tags1, iT, children, prob, bias);
    var (rule, tags2, words2) := LineRule(iT, children, tags1, g.words);
    assert tags2.items[iT] == tags1.items[iT];
    AddRecords(g2.(rules := g.rules), WithBias(rule, prob, bias), tags1.items[iT], children);
    assert g2.(rules := g.rules).(rules := g2.rules) == g2;
  }

  /** What reading one line leaves behind, for the groups `tag`,
      `children` and the clamped probability: a new last entry in the rule
      set that reads back as the tag over the children; for `tag -> _word` the word listed under the
      tag with that probability; for any other line the tag numbered as a
      nonterminal, with the next free id when it is new; and no nonterminal
      renumbered. */
  ghost predicate LineRecorded(g: Grammar, g2: Grammar, tag: string, children: seq<string>, prob: real)
  {
    Renders(g2, |g.rules.allRules|, tag, children) &&
    (forall k :: k in g.nonterminals ==> k in g2.nonterminals && g2.nonterminals[k] == g.nonterminals[k]) &&
    (IsWordLine(children) ==>
      exists iT, iW :: 0 <= iT < |g2.tags.items| && g2.tags.items[iT] == tag &&
        0 <= iW < |g2.words.items| && g2.words.items[iW] == children[0][1..] &&
        iT in g2.lex.tag2words && iW in g2.lex.tag2words[iT] && g2.lex.tag2words[iT][iW] == prob) &&
    (!IsWordLine(children) ==>
      exists iT :: 0 <= iT < |g2.tags.items| && g2.tags.items[iT] == tag && iT in g2.nonterminals &&
        (iT !in g.nonterminals ==> g2.nonterminals[iT] == |g.nonterminals|))
  }

  /** The groups of a line, once applied, are recorded as above. */
  lemma ApplyRecords(g: Grammar, p: LineParts)
    requires Consistent(g) && Apply(g, p).Ok?
    ensures LineRecorded(g, Apply(g, p).value, p.tag, JavaSplitOnChar(p.rhs, ' '), Clamp(p.prob))
  {
    var g2 := Apply(g, p).value;
    var (tags1, iT) := g.tags.Add(p.tag);
    var children := JavaSplitOnChar(p.rhs, ' ');
    if IsWordLine(children) {
      var word := children[0][1..];
      assert g2 == ApplyWord(g, tags1, iT, word, Clamp(p.prob), p.bias).value;
      ApplyWordRecords(g, tags1, iT, word, Clamp(p.prob), p.bias);
      assert children == ["_" + word] by {
        assert children[0] == [children[0][0]] + word;
      }
      assert g2.tags.items[iT] == p.tag;
    } else {
      assert g2 == ApplyRule(g, tags1, iT, children, Clamp(p.prob), p.bias).value;
      ApplyRuleRecords(g, tags1, iT, children, Clamp(p.prob), p.bias);
    }
  }

  /** After a line is read, the entry it appended to the rule set reads
      back as the line's tag and its children, also when an earlier copy of
      the rule holds its id; a line `tag -> _word` also lists
      the word under the tag with the line's clamped probability, and any
      other line numbers the tag as a nonterminal.  No nonterminal is ever
      renumbered. */
  lemma StepRecordsLine(g: Grammar, line: string, isBias: bool, parse: string -> Option<real>)
    requires Consistent(g) && Step(g, line, isBias, parse).Ok?
    ensures var p := ReadLine(line, isBias, parse).value;
      LineRecorded(g, Step(g, line, isBias, parse).value, p.tag, JavaSplitOnChar(p.rhs, ' '), Clamp(p.prob))
  {
    var p := ReadLine(line, isBias, parse).value;
    assert Step(g, line, isBias, parse) == Apply(g, p);
    ApplyRecords(g, p);
  }

  // ---------------------------------------------------------------------
  // The whole file.

  /** The lines read one after the other; the first failure stops it. */
  function Run(g: Grammar, lines: seq<string>, isBias: bool, parse: string -> Option<real>): (r: Result<Grammar>)
    requires Consistent(g)
    ensures r.Ok? ==> Consistent(r.value) && Extends(g, r.value)
    ensures r.Ok? ==> |r.value.rules.allRules| == |g.rules.allRules| + |lines|
    ensures r.Ok? ==> g.rules.numRules <= r.value.rules.numRules <= g.rules.numRules + |lines|
    decreases |lines|
  {
    if lines == [] then Ok(g)
    else
      match Run(g, lines[..|lines| - 1], isBias, parse)
      case Fail(why) => Fail(why)
      case Ok(g1) =>
        var r := Step(g1, lines[|lines| - 1], isBias, parse);
        StepConsistent(g1, lines[|lines| - 1], isBias, parse);
        if r.Fail? then r
        else
          ExtendsTrans(g, g1, r.value);
          r
  }

  lemma RunNext(g: Grammar, lines: seq<string>, i: nat, g1: Grammar, isBias: bool, parse: string -> Option<real>)
    requires Consistent(g) && i < |lines| && Run(g, lines[..i], isBias, parse) == Ok(g1)
    ensures Consistent(g1) && Run(g, lines[..i + 1], isBias, parse) == Step(g1, lines[i], isBias, parse)
  {
    assert lines[..i + 1][..i] == lines[..i];
    RunLast(g, lines[..i + 1], isBias, parse);
  }

  /** `Run` on a non-empty list is the run of all lines but the last, then
      the last line. */
  lemma RunLast(g: Grammar, ls: seq<string>, isBias: bool, parse: string -> Option<real>)
    requires Consistent(g) && ls != []
    ensures Run(g, ls, isBias, parse) ==
      match Run(g, ls[..|ls| - 1], isBias, parse)
      case Fail(why) => Fail(why)
      case Ok(g1) => Step(g1, ls[|ls| - 1], isBias, parse)
  {
  }

  /** A line that fails stops the reading: no later line can make up for it. */
  lemma {:induction false} RunFailStays(g: Grammar, lines: seq<string>, j: nat, isBias: bool, parse: string -> Option<real>)
    requires Consistent(g) && j <= |lines| && Run(g, lines[..j], isBias, parse).Fail?
    ensures Run(g, lines, isBias, parse).Fail?
    decreases |lines| - j
  {
    if j == |lines| {
      assert lines[..j] == lines;
    } else {
      assert lines[..j + 1][..j] == lines[..j];
      RunFailStays(g, lines, j + 1, isBias, parse);
    }
  }

  /** What entry `i` of the rule set reads as, when it is there. */
  ghost function Rendered(g: Grammar, i: int): Option<(string, seq<string>)> {
    if 0 <= i < |g.rules.allRules| && Named(g.rules.allRules[i].rule, g.tags, g.words) then
      Some((LhsString(g.rules.allRules[i].rule, g.tags), ChildStrs(g.rules.allRules[i].rule, g.tags, g.words)))
    else None
  }

  /** The tag and the children a line reads as, when it is read. */
  function LineRead(line: string, isBias: bool, parse: string -> Option<real>): Option<(string, seq<string>)> {
    match ReadLine(line, isBias, parse)
    case Ok(p) => Some((p.tag, JavaSplitOnChar(p.rhs, ' ')))
    case Fail(_) => None
  }

  /** Line `k` of `lines` is read and reads back from entry `base + k` of `g2`. */
  ghost predicate LinesRecorded(g2: Grammar, base: int, lines: seq<string>, isBias: bool, parse: string -> Option<real>) {
    forall k :: 0 <= k < |lines| ==>
      LineRead(lines[k], isBias, parse).Some? && Rendered(g2, base + k) == LineRead(lines[k], isBias, parse)
  }

  /** After a whole file is read, line `k` of it is read and reads back
      from entry `k` of what the reading appended to the rule set. */
  lemma {:induction false} RunRecordsEveryLine(g: Grammar, lines: seq<string>, isBias: bool, parse: string -> Option<real>)
    requires Consistent(g) && Run(g, lines, isBias, parse).Ok?
    ensures LinesRecorded(Run(g, lines, isBias, parse).value, |g.rules.allRules|, lines, isBias, parse)
    decreases |lines|
  {
    if lines != [] {
      RunSnocFacts(g, lines, isBias, parse);
      SplitLast(lines);
      RunRecordsEveryLine(g, lines[..|lines| - 1], isBias, parse);
      LinesAppended(|g.rules.allRules|, Run(g, lines[..|lines| - 1], isBias, parse).value, Run(g, lines, isBias, parse).value,
                    lines[..|lines| - 1], lines[|lines| - 1], lines, isBias, parse);
    }
  }

  /** The reading of all lines but the last, and the last one. */
  lemma RunSnocFacts(g: Grammar, lines: seq<string>, isBias: bool, parse: string -> Option<real>)
    requires Consistent(g) && lines != [] && Run(g, lines, isBias, parse).Ok?
    ensures Run(g, lines[..|lines| - 1], isBias, parse).Ok?
    ensures SnocRead(|g.rules.allRules|, Run(g, lines[..|lines| - 1], isBias, parse).value, Run(g, lines, isBias, parse).value,
                     lines[..|lines| - 1], lines[|lines| - 1], isBias, parse)
  {
    RunLast(g, lines, isBias, parse);
    var g1 := Run(g, lines[..|lines| - 1], isBias, parse).value;
    StepLineAt(g1, lines[|lines| - 1], isBias, parse);
    assert Run(g, lines, isBias, parse).value == Step(g1, lines[|lines| - 1], isBias, parse).value;
  }

  /** `s` is its front followed by its last element. */
  lemma SplitLast<T>(s: seq<T>)
    requires s != []
    ensures IsSnoc(s[..|s| - 1], s[|s| - 1], s)
  {
  }

  /** `s` is `init` and then `last`. */
  ghost predicate IsSnoc<T>(init: seq<T>, last: T, s: seq<T>) {
    |s| == |init| + 1 && s[|init|] == last && forall k :: 0 <= k < |init| ==> s[k] == init[k]
  }

  /** Every entry of `g1` reads the same in `g2`. */
  ghost predicate EntriesKept(g1: Grammar, g2: Grammar) {
    forall i :: Rendered(g1, i).Some? ==> Rendered(g2, i) == Rendered(g1, i)
  }

  /** `g2` grew from `g1`, whose entries
      end at `base + |init|`, by an entry that `last` reads back from. */
  ghost predicate SnocRead(base: int, g1: Grammar, g2: Grammar, init: seq<string>, last: string,
                           isBias: bool, parse: string -> Option<real>) {
    Extends(g1, g2) && |g1.rules.allRules| == base + |init| &&
    LineRead(last, isBias, parse).Some? && Rendered(g2, base + |init|) == LineRead(last, isBias, parse)
  }

  /** The lines `init`, read back from the entries `base ..` of `g1`, and
      then `last`, read back from the next entry of the grown `g2`. */
  lemma LinesAppended(base: int, g1: Grammar, g2: Grammar, init: seq<string>, last: string,
                      lines: seq<string>, isBias: bool, parse: string -> Option<real>)
    requires IsSnoc(init, last, lines) && SnocRead(base, g1, g2, init, last, isBias, parse)
    requires LinesRecorded(g1, base, init, isBias, parse)
    ensures LinesRecorded(g2, base, lines, isBias, parse)
  {
    ExtendsKeepsEntries(g1, g2);
    forall k | 0 <= k < |lines|
      ensures LineRead(lines[k], isBias, parse).Some? && Rendered(g2, base + k) == LineRead(lines[k], isBias, parse)
    {
      if k < |init| {
        assert lines[k] == init[k];
        assert Rendered(g1, base + k) == LineRead(init[k], isBias, parse);
      } else {
        assert k == |init|;
        assert lines[k] == last;
      }
    }
  }

  /** A line read is read back from the entry it appended. */
  lemma StepLineAt(g1: Grammar, last: string, isBias: bool, parse: string -> Option<real>)
    requires Consistent(g1) && Step(g1, last, isBias, parse).Ok?
    ensures Extends(g1, Step(g1, last, isBias, parse).value)
    ensures LineRead(last, isBias, parse).Some?
    ensures Rendered(Step(g1, last, isBias, parse).value, |g1.rules.allRules|) == LineRead(last, isBias, parse)
  {
    StepConsistent(g1, last, isBias, parse);
    StepRecordsLine(g1, last, isBias, parse);
  }

  /** Growing keeps every entry. */
  lemma ExtendsKeepsEntries(g1: Grammar, g2: Grammar)
    requires Extends(g1, g2)
    ensures EntriesKept(g1, g2)
  {
    forall i | Rendered(g1, i).Some?
      ensures Rendered(g2, i) == Rendered(g1, i)
    {
      RenderedGrows(g1, g2, i);
    }
  }

  /** An entry reads the same once the grammar has grown. */
  lemma RenderedGrows(g: Grammar, g2: Grammar, i: int)
    requires Extends(g, g2) && Rendered(g, i).Some?
    ensures Rendered(g2, i) == Rendered(g, i)
  {
    RendersGrows(g, g2, i, Rendered(g, i).value.0, Rendered(g, i).value.1);
  }

  // ---------------------------------------------------------------------
  // The reading loop, over the objects it fills in.

  /** The maps and indexes `parseRuleFile` is handed to fill. */
  class Tables {
    var tag2words: map<int, map<int, real>>
    var word2tags: map<int, set<TaggedWord>>
    var nonterminals: map<int, int>
    var words: Index<string>
    var tags: Index<string>

    constructor ()
      ensures tag2words == map[] && word2tags == map[] && nonterminals == map[]
      ensures words == Index([]) && tags == Index([])
    {
      tag2words := map[];
      word2tags := map[];
      nonterminals := map[];
      words := Index([]);
      tags := Index([]);
    }

    /** `addWord(iW, iT, prob)` on the two maps. */
    method AddWord(iW: int, iT: int, prob: real) returns (r: Result<()>)
      modifies this
      ensures var w := WithWord(old(Lexicon(tag2words, word2tags)), iW, iT, prob);
        (r.Ok? <==> w.Ok?) && (r.Ok? ==> Lexicon(tag2words, word2tags) == w.value)
      ensures nonterminals == old(nonterminals) && words == old(words) && tags == old(tags)
    {
      var counter := if iT in tag2words then tag2words[iT] else map[];
      if iW in counter {
        return Fail("word already listed for the tag");
      }
      tag2words := tag2words[iT := counter[iW := prob]];
      var tws := if iW in word2tags then word2tags[iW] else {};
      word2tags := word2tags[iW := tws + {TaggedWord(iW, iT)}];
      return Ok(());
    }
  }

  /** The grammar the rule set and the tables hold. */
  function Current(rs: RuleSet, tb: Tables): Grammar
    reads rs, tb
  {
    Grammar(rs.Snapshot(), Lexicon(tb.tag2words, tb.word2tags), tb.nonterminals, tb.words, tb.tags)
  }

  /** The line `tag -> _word` on the objects. */
  method AddWordLine(tags1: Index<string>, iT: int, word: string, prob: real, bias: real, rs: RuleSet, tb: Tables)
    returns (r: Result<()>)
    requires Consistent(Current(rs, tb)) && tags1.Valid() && 0 <= iT < |tags1.items|
    requires |tb.tags.items| <= |tags1.items| && tags1.items[..|tb.tags.items|] == tb.tags.items
    modifies rs, tb
    ensures var s := ApplyWord(old(Current(rs, tb)), tags1, iT, word, prob, bias);
      (r.Ok? <==> s.Ok?) && (r.Ok? ==> Current(rs, tb) == s.value)
  {
    var (words1, iW) := tb.words.Add(word);
    var added := tb.AddWord(iW, iT, prob);
    if added.Fail? {
      return Fail(added.reason);
    }
    tb.tags, tb.words := tags1, words1;
    var res := rs.Add(WithBias(TerminalRule(iT, [iW]), prob, bias));
    if res.Fail? {
      return Fail(res.reason);
    }
    return Ok(());
  }

  /** Any other line on the objects. */
  method AddRuleLine(tags1: Index<string>, iT: int, children: seq<string>, prob: real, bias: real, rs: RuleSet, tb: Tables)
    returns (r: Result<()>)
    requires Consistent(Current(rs, tb)) && tags1.Valid() && 0 <= iT < |tags1.items|
    requires |tb.tags.items| <= |tags1.items| && tags1.items[..|tb.tags.items|] == tb.tags.items
    modifies rs, tb
    ensures var s := ApplyRule(old(Current(rs, tb)), tags1, iT, children, prob, bias);
      (r.Ok? <==> s.Ok?) && (r.Ok? ==> Current(rs, tb) == s.value)
  {
    ghost var g := Current(rs, tb);
    var nts := tb.nonterminals;
    if iT !in nts {
      nts := nts[iT := |nts|];
    }
    var (rule, tags2, words2) := LineRule(iT, children, tags1, tb.words);
    tb.nonterminals, tb.tags, tb.words := nts, tags2, words2;
    assert Current(rs, tb) == g.(nonterminals := nts, words := words2, tags := tags2);
    var res := rs.Add(WithBias(rule, prob, bias));
    if res.Fail? {
      return Fail(res.reason);
    }
    return Ok(());
  }

  /** The body of the reading loop for one line. */
  method ReadOneLine(line: string, isBias: bool, parse: string -> Option<real>, rs: RuleSet, tb: Tables)
    returns (r: Result<()>)
    requires Consistent(Current(rs, tb))
    modifies rs, tb
    ensures var s := Step(old(Current(rs, tb)), line, isBias, parse);
      (r.Ok? <==> s.Ok?) && (r.Ok? ==> Current(rs, tb) == s.value)
  {
    ghost var g := Current(rs, tb);
    var parts := ReadLine(line, isBias, parse);
    if parts.Fail? {
      return Fail(parts.reason);
    }
    var p := parts.value;
    assert Step(g, line, isBias, parse) == Apply(g, p);
    var (tags1, iT) := tb.tags.Add(p.tag);
    AddExtends(g.tags, p.tag);
    if p.prob < 0.0 {
      return Fail("value < 0");
    }
    var children := JavaSplitOnChar(p.rhs, ' ');
    if IsWordLine(children) {
      assert Apply(g, p) == ApplyWord(g, tags1, iT, children[0][1..], Clamp(p.prob), p.bias);
      r := AddWordLine(tags1, iT, children[0][1..], Clamp(p.prob), p.bias, rs, tb);
    } else {
      assert Apply(g, p) == ApplyRule(g, tags1, iT, children, Clamp(p.prob), p.bias);
      r := AddRuleLine(tags1, iT, children, Clamp(p.prob), p.bias, rs, tb);
    }
  }

  /** `parseRuleFile`: reads every line into the rule set and the tables,
      and stops at the first line that fails. */
  method ParseRuleFile(lines: seq<string>, rs: RuleSet, tb: Tables, isBias: bool, parse: string -> Option<real>)
    returns (r: Result<()>)
    requires Consistent(Current(rs, tb))
    modifies rs, tb
    ensures var s := Run(old(Current(rs, tb)), lines, isBias, parse);
      (r.Ok? <==> s.Ok?) && (r.Ok? ==> Current(rs, tb) == s.value)
  {
    ghost var g0 := Current(rs, tb);
    var i := 0;
    while i < |lines|
      invariant 0 <= i <= |lines|
      invariant Run(g0, lines[..i], isBias, parse) == Ok(Current(rs, tb))
      invariant Consistent(Current(rs, tb))
    {
      ghost var gi := Current(rs, tb);
      RunNext(g0, lines, i, gi, isBias, parse);
      StepConsistent(gi, lines[i], isBias, parse);
      var res := ReadOneLine(lines[i], isBias, parse, rs, tb);
      if res.Fail? {
        RunFailStays(g0, lines, i + 1, isBias, parse);
        return Fail(res.reason);
      }
      i := i + 1;
    }
    assert lines[..|lines|] == lines;
    return Ok(());
  }
}
