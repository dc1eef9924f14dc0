/** `parser.Main.processPOSFile`: a file of `word_tag` tokens becomes the
    plain sentences (one per line, words separated by single spaces) and a
    lexicon from each word to the tags it was seen with.  The lines of the
    file are given; the returned text is what the reader over the string
    buffer would deliver. */
module PosFiles {
  import opened Wrappers
  import opened Text

  /** The regular expression `(.+)_(.+)` on a whole token: both groups
      non-empty, and the greedy first group ends at the last `_` that still
      leaves a character after it. */
  function SplitTagged(tok: string): (r: Option<(string, string)>)
    ensures r.Some? ==> r.value.0 != "" && r.value.1 != "" && r.value.0 + "_" + r.value.1 == tok
  {
    var p := LastUnderscore(tok, |tok| - 1);
    if p < 1 then None
    else
      assert tok == tok[..p] + "_" + tok[p + 1..];
      Some((tok[..p], tok[p + 1..]))
  }

  /** The last `_` of `tok` before position `end`, or 0 when there is none
      after position 0. */
  function LastUnderscore(tok: string, end: int): (p: int)
    requires end <= |tok|
    ensures p <= 0 || (p < end && tok[p] == '_')
    ensures p <= 0 ==> forall q :: 1 <= q < end ==> tok[q] != '_'
    ensures p > 0 ==> forall q :: p < q < end ==> tok[q] != '_'
    decreases end
  {
    if end <= 1 then 0
    else if tok[end - 1] == '_' then end - 1
    else LastUnderscore(tok, end - 1)
  }

  /** The split is at the last `_` that has a character on each side, and
      there is none exactly when no such `_` exists. */
  lemma SplitTaggedAtLast(tok: string)
    ensures SplitTagged(tok).Some? ==> forall q :: |SplitTagged(tok).value.0| < q < |tok| - 1 ==> tok[q] != '_'
    ensures SplitTagged(tok).None? <==> forall q :: 1 <= q < |tok| - 1 ==> tok[q] != '_'
  {
  }

  /** A word and a tag whose `_` join splits back into them: the tag may
      hold `_` only as its last character. */
  lemma SplitTaggedRoundTrip(word: string, tag: string)
    requires word != "" && tag != ""
    requires forall q :: 0 <= q < |tag| - 1 ==> tag[q] != '_'
    ensures SplitTagged(word + "_" + tag) == Some((word, tag))
  {
    var tok := word + "_" + tag;
    SplitTaggedAtLast(tok);
    assert tok[|word|] == '_';
    var r := SplitTagged(tok);
    assert r.Some?;
    assert r.value.0 == tok[..|word|] == word;
    assert r.value.1 == tok[|word| + 1..] == tag;
  }

  /** The tokens of one line. */
  function Tokens(line: string): seq<string> {
    JavaSplitOnSpaceRuns(line)
  }

  /** Every token of the line is a tagged word. */
  predicate LineTagged(line: string) {
    forall k :: 0 <= k < |Tokens(line)| ==> SplitTagged(Tokens(line)[k]).Some?
  }

  /** The word part of a token, or the token itself when it does not split. */
  function WordOf(tok: string): string {
    var r := SplitTagged(tok);
    if r.Some? then r.value.0 else tok
  }

  function WordsOf(toks: seq<string>): (ws: seq<string>)
    ensures |ws| == |toks|
    ensures forall k :: 0 <= k < |toks| ==> ws[k] == WordOf(toks[k])
  {
    seq(|toks|, k requires 0 <= k < |toks| => WordOf(toks[k]))
  }

  /** What one line adds to the output: each word followed by a space,
      except the last, which is followed by a line break. */
  function LineText(words: seq<string>): string {
    if words == [] then "" else EachFollowedBy(words[..|words| - 1], " ") + words[|words| - 1] + "\n"
  }

  /** The output for all lines. */
  function PosText(lines: seq<string>): string {
    if lines == [] then ""
    else PosText(lines[..|lines| - 1]) + LineText(WordsOf(Tokens(lines[|lines| - 1])))
  }

  /** The (word, tag) pairs of all lines, in order. */
  function Pairs(lines: seq<string>): seq<(string, string)> {
    if lines == [] then []
    else Pairs(lines[..|lines| - 1]) + TokenPairs(Tokens(lines[|lines| - 1]))
  }

  function TokenPairs(toks: seq<string>): seq<(string, string)> {
    if toks == [] then []
    else
      var r := SplitTagged(toks[|toks| - 1]);
      TokenPairs(toks[..|toks| - 1]) + (if r.Some? then [r.value] else [])
  }

  /** The lexicon after the pairs are added. */
  function AddPairs(lexicon: map<string, set<string>>, ps: seq<(string, string)>): map<string, set<string>> {
    if ps == [] then lexicon
    else
      var lex := AddPairs(lexicon, ps[..|ps| - 1]);
      var (word, tag) := ps[|ps| - 1];
      lex[word := (if word in lex then lex[word] else {}) + {tag}]
  }

  /** A word is in the new lexicon iff it was in the old one or is paired
      with some tag, and its tags are the old ones plus the paired ones. */
  lemma {:induction false} AddPairsMeaning(lexicon: map<string, set<string>>, ps: seq<(string, string)>,
                                           w: string, t: string)
    ensures w in AddPairs(lexicon, ps) <==> w in lexicon || exists k :: 0 <= k < |ps| && ps[k].0 == w
    ensures w in AddPairs(lexicon, ps) ==>
      (t in AddPairs(lexicon, ps)[w] <==> (w in lexicon && t in lexicon[w]) || (w, t) in ps)
  {
    if ps != [] {
      var init := ps[..|ps| - 1];
      var last := ps[|ps| - 1];
      AddPairsMeaning(lexicon, init, w, t);
      assert ps == init + [last];
      assert (w, t) in ps <==> (w, t) in init || (w, t) == last;
      if w != last.0 && exists k :: 0 <= k < |ps| && ps[k].0 == w {
        var k :| 0 <= k < |ps| && ps[k].0 == w;
        assert init[k].0 == w;
      }
      if exists k :: 0 <= k < |init| && init[k].0 == w {
        var k :| 0 <= k < |init| && init[k].0 == w;
        assert ps[k].0 == w;
      }
    }
  }

  /** `processPOSFile(reader, lexicon)`: fails on the first token that is
      not `word_tag` (where the program exits); otherwise the plain text
      and the lexicon with every pair added. */
  method ProcessPOSFile(lines: seq<string>, lexicon: map<string, set<string>>)
    returns (r: Result<(string, map<string, set<string>>)>)
    ensures r.Ok? <==> forall i :: 0 <= i < |lines| ==> LineTagged(lines[i])
    ensures r.Ok? ==> r.value.0 == PosText(lines) && r.value.1 == AddPairs(lexicon, Pairs(lines))
  {
    var sb := "";
    var lex := lexicon;
    for i := 0 to |lines|
      invariant forall j :: 0 <= j < i ==> LineTagged(lines[j])
      invariant sb == PosText(lines[..i]) && lex == AddPairs(lexicon, Pairs(lines[..i]))
    {
      LinesStep(lines, i);
      var words := Tokens(lines[i]);
      var line, lex' := ProcessLine(words, lex);
      if line.None? {
        return Fail("token without a tag");
      }
      AddPairsAppend(lexicon, Pairs(lines[..i]), TokenPairs(words));
      assert LineTagged(lines[i]);
      assert forall j :: 0 <= j < i + 1 ==> LineTagged(lines[j]);
      sb := sb + line.value;
      lex := lex';
    }
    assert lines[..|lines|] == lines;
    r := Ok((sb, lex));
  }

  /** One more line of the file: its text and its pairs are appended. */
  lemma LinesStep(lines: seq<string>, i: int)
    requires 0 <= i < |lines|
    ensures PosText(lines[..i + 1]) == PosText(lines[..i]) + LineText(WordsOf(Tokens(lines[i])))
    ensures Pairs(lines[..i + 1]) == Pairs(lines[..i]) + TokenPairs(Tokens(lines[i]))
  {
    assert lines[..i + 1][..i] == lines[..i];
  }

  /** Adding two runs of pairs is adding them one after the other. */
  lemma {:induction false} AddPairsAppend(lexicon: map<string, set<string>>, a: seq<(string, string)>, b: seq<(string, string)>)
    ensures AddPairs(lexicon, a + b) == AddPairs(AddPairs(lexicon, a), b)
    decreases |b|
  {
    if b != [] {
      assert (a + b)[..|a + b| - 1] == a + b[..|b| - 1];
      AddPairsAppend(lexicon, a, b[..|b| - 1]);
    } else {
      assert a + b == a;
    }
  }

  /** The tokens of one line: their text, and the lexicon with their pairs,
      or None at the first untagged token. */
  method ProcessLine(words: seq<string>, lexicon: map<string, set<string>>)
    returns (text: Option<string>, lex: map<string, set<string>>)
    ensures text.Some? <==> forall k :: 0 <= k < |words| ==> SplitTagged(words[k]).Some?
    ensures text.Some? ==> text.value == LineText(WordsOf(words)) && lex == AddPairs(lexicon, TokenPairs(words))
  {
    var sb := "";
    lex := lexicon;
    var numWords := |words|;
    for i := 0 to numWords
      invariant forall k :: 0 <= k < i ==> SplitTagged(words[k]).Some?
      invariant i < numWords ==> sb == EachFollowedBy(WordsOf(words[..i]), " ")
      invariant i == numWords ==> sb == LineText(WordsOf(words))
      invariant lex == AddPairs(lexicon, TokenPairs(words[..i]))
    {
      var m := SplitTagged(words[i]);
      if m.None? {
        return None, lex;
      }
      assert forall k :: 0 <= k < i + 1 ==> SplitTagged(words[k]).Some?;
      var word, tag := m.value.0, m.value.1;
      TokenStep(words, i, word, tag);
      AddPairsSnoc(lexicon, TokenPairs(words[..i]), (word, tag));
      lex := AddTag(lex, word, tag);
      if i < numWords - 1 {
        EachFollowedBySnoc(WordsOf(words[..i]), word, " ");
        sb := sb + word + " ";
      } else {
        sb := sb + word + "\n";
      }
    }
    assert words[..numWords] == words;
    text := Some(sb);
  }

  /** The lexicon update for one token: a new word gets the tag as its
      only one, a known word gains it. */
  method AddTag(lexicon: map<string, set<string>>, word: string, tag: string) returns (lex: map<string, set<string>>)
    ensures lex == lexicon[word := (if word in lexicon then lexicon[word] else {}) + {tag}]
  {
    if word !in lexicon {
      assert {} + {tag} == {tag};
      lex := lexicon[word := {tag}];
    } else {
      lex := lexicon[word := lexicon[word] + {tag}];
    }
  }

  /** One more token of the line: its pair and its word are appended. */
  lemma TokenStep(words: seq<string>, i: int, word: string, tag: string)
    requires 0 <= i < |words| && SplitTagged(words[i]) == Some((word, tag))
    ensures TokenPairs(words[..i + 1]) == TokenPairs(words[..i]) + [(word, tag)]
    ensures WordsOf(words[..i + 1]) == WordsOf(words[..i]) + [word]
    ensures i == |words| - 1 ==> LineText(WordsOf(words)) == EachFollowedBy(WordsOf(words[..i]), " ") + word + "\n"
  {
    assert words[..i + 1][..i] == words[..i];
    if i == |words| - 1 {
      assert words[..i + 1] == words;
      assert WordsOf(words)[..i] == WordsOf(words[..i]);
    }
  }

  lemma AddPairsSnoc(lexicon: map<string, set<string>>, ps: seq<(string, string)>, p: (string, string))
    ensures var lex := AddPairs(lexicon, ps);
      AddPairs(lexicon, ps + [p]) == lex[p.0 := (if p.0 in lex then lex[p.0] else {}) + {p.1}]
  {
    assert (ps + [p])[..|ps|] == ps;
  }

  /** The text of a line with words is their join with single spaces,
      then a line break. */
  lemma LineTextIsJoin(words: seq<string>)
    requires words != []
    ensures LineText(words) == Join(words, " ") + "\n"
  {
    var pre := words[..|words| - 1];
    var last := words[|words| - 1];
    JoinAround(pre, last, [], " ");
    assert pre + [last] + [] == words;
    assert Join([last] + [], " ") == last;
  }

  /** Each output line, split on whitespace, gives back the words of its
      input line. */
  lemma LineTextRoundTrip(line: string)
    requires LineTagged(line) && Tokens(line) != []
    ensures var text := LineText(WordsOf(Tokens(line)));
      |text| > 0 && JavaSplitOnSpaceRuns(text[..|text| - 1]) == WordsOf(Tokens(line))
  {
    var toks := Tokens(line);
    var words := WordsOf(toks);
    forall k | 0 <= k < |words| ensures words[k] != "" && NoSpace(words[k]) {
      WordHasNoSpace(toks[k]);
    }
    LineTextIsJoin(words);
    var text := LineText(words);
    var joined := Join(words, " ");
    assert text[..|text| - 1] == joined by {
      assert text == joined + "\n";
    }
    JavaSplitJoinRoundTrip(words);
  }

  /** The word of a tagged token is a non-empty piece of it. */
  lemma WordHasNoSpace(tok: string)
    requires NoSpace(tok) && SplitTagged(tok).Some?
    ensures WordOf(tok) != "" && NoSpace(WordOf(tok))
  {
    var r := SplitTagged(tok);
    assert WordOf(tok) == tok[..|r.value.0|];
  }
}
