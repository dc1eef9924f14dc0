/** The grammar-file line format `TAG->[RHS] : NUM` and its biased variant
    `BIAS TAG->[RHS] : NUM`, as the two readers match them with
    `Matcher.matches()` against `(.+?)->\[(.+?)\] : ([0-9.+\-Ee]+)` and
    `([0-9.+\-Ee]+) (.+?)->\[(.+?)\] : ([0-9.+\-Ee]+)`, and the trimming
    that precedes the match.

    The number group must reach the end of the line and may hold no space,
    so it is the longest run of number characters at the end, and the four
    characters before it must be `] : `.  The lazy tag group then ends at the
    first `->[` that leaves a non-empty right-hand side.  `.` matches
    anything except the five line terminators. */
module RuleLine {
  import opened Wrappers
  import opened Text

  predicate IsLineTerminator(c: char) {
    c == '\n' || c == '\r' || c == '\U{0085}' || c == '\U{2028}' || c == '\U{2029}'
  }

  predicate NoLineTerminator(s: string) {
    forall i :: 0 <= i < |s| ==> !IsLineTerminator(s[i])
  }

  /** `[0-9.+\-Ee]`. */
  predicate IsNumberChar(c: char) {
    IsDigitAscii(c) || c == '.' || c == '+' || c == '-' || c == 'E' || c == 'e'
  }

  predicate IsNumberText(s: string) {
    |s| > 0 && forall i :: 0 <= i < |s| ==> IsNumberChar(s[i])
  }

  /** Length of the run of number characters that ends `s`. */
  function NumberSuffixLen(s: string): (k: nat)
    ensures k <= |s|
  {
    if |s| > 0 && IsNumberChar(s[|s| - 1]) then 1 + NumberSuffixLen(s[..|s| - 1]) else 0
  }

  /** The run `NumberSuffixLen` measures is all number characters and
      cannot be extended to the left. */
  lemma {:induction false} NumberSuffixRun(s: string)
    ensures forall i :: |s| - NumberSuffixLen(s) <= i < |s| ==> IsNumberChar(s[i])
    ensures NumberSuffixLen(s) < |s| ==> !IsNumberChar(s[|s| - NumberSuffixLen(s) - 1])
    decreases |s|
  {
    if |s| > 0 && IsNumberChar(s[|s| - 1]) {
      var t := s[..|s| - 1];
      NumberSuffixRun(t);
      assert forall i :: 0 <= i < |t| ==> t[i] == s[i];
    }
  }

  /** Length of the run of number characters that starts `s`. */
  function NumberPrefixLen(s: string): (k: nat)
    ensures k <= |s|
  {
    if |s| > 0 && IsNumberChar(s[0]) then 1 + NumberPrefixLen(s[1..]) else 0
  }

  /** The run `NumberPrefixLen` measures is all number characters and
      cannot be extended to the right. */
  lemma {:induction false} NumberPrefixRun(s: string)
    ensures forall i :: 0 <= i < NumberPrefixLen(s) ==> IsNumberChar(s[i])
    ensures NumberPrefixLen(s) < |s| ==> !IsNumberChar(s[NumberPrefixLen(s)])
    decreases |s|
  {
    if |s| > 0 && IsNumberChar(s[0]) {
      NumberPrefixRun(s[1..]);
      assert forall i :: 1 <= i < |s| ==> s[i] == s[1..][i - 1];
    }
  }

  /** `->[` starts at position `j` of `t`. */
  predicate ArrowAt(t: string, j: int) {
    0 <= j && j + 3 <= |t| && t[j..j + 3] == "->["
  }

  /** `->[` does not occur in `t`. */
  ghost predicate NoArrow(t: string) {
    forall j :: !ArrowAt(t, j)
  }

  /** The lazy tag group: the first end `i >= 1` of the tag such that `->[`
      follows and a non-empty right-hand side without line terminators fills
      the line up to `e`; none once the tag would have to take in a line
      terminator. */
  function LazyArrow(s: string, i: nat, e: nat): (r: Option<nat>)
    requires 1 <= i && e <= |s|
    ensures r.Some? ==> i <= r.value && r.value + 3 < e
    decreases e - i
  {
    if i + 3 >= e then None
    else if IsLineTerminator(s[i - 1]) then None
    else if s[i..i + 3] == "->[" && NoLineTerminator(s[i + 3..e]) then Some(i)
    else LazyArrow(s, i + 1, e)
  }

  /** Where the lazy search stops, `->[` starts, neither the tag nor the
      right-hand side holds a line terminator, and no earlier arrow leaves
      a right-hand side without one. */
  lemma {:induction false} LazyArrowStops(s: string, i: nat, e: nat)
    requires 1 <= i && e <= |s|
    ensures LazyArrow(s, i, e).Some? ==> ArrowAt(s, LazyArrow(s, i, e).value)
    ensures LazyArrow(s, i, e).Some? ==>
      NoLineTerminator(s[i - 1..LazyArrow(s, i, e).value]) && NoLineTerminator(s[LazyArrow(s, i, e).value + 3..e])
    ensures LazyArrow(s, i, e).Some? ==>
      forall j :: i <= j < LazyArrow(s, i, e).value ==> !ArrowAt(s, j) || !NoLineTerminator(s[j + 3..e])
    decreases e - i
  {
    if i + 3 < e && !IsLineTerminator(s[i - 1]) && !(s[i..i + 3] == "->[" && NoLineTerminator(s[i + 3..e])) {
      LazyArrowStops(s, i + 1, e);
      var r := LazyArrow(s, i + 1, e);
      if r.Some? {
        assert s[i - 1..r.value] == [s[i - 1]] + s[i..r.value];
      }
    }
  }

  /** The groups of the plain pattern: tag, right-hand side, number. */
  datatype RuleMatch = RuleMatch(tag: string, rhs: string, num: string)

  /** `p.matcher(line).matches()` and its three groups. */
  function MatchRule(s: string): Option<RuleMatch> {
    var k := NumberSuffixLen(s);
    if k == 0 || |s| < k + 4 then None
    else
      var e := |s| - k - 4;
      if s[e..e + 4] != "] : " then None
      else match LazyArrow(s, 1, e)
        case None => None
        case Some(i) => Some(RuleMatch(s[..i], s[i + 3..e], s[e + 4..]))
  }

  /** A match splits the line into a non-empty tag, a non-empty right-hand
      side and a number, with `->[` and `] : ` between them and no line
      terminator in the first two. */
  lemma MatchRuleParts(s: string)
    ensures MatchRule(s).Some? ==>
      s == MatchRule(s).value.tag + "->[" + MatchRule(s).value.rhs + "] : " + MatchRule(s).value.num
    ensures MatchRule(s).Some? ==>
      MatchRule(s).value.tag != "" && MatchRule(s).value.rhs != "" && IsNumberText(MatchRule(s).value.num)
    ensures MatchRule(s).Some? ==> NoLineTerminator(MatchRule(s).value.tag) && NoLineTerminator(MatchRule(s).value.rhs)
  {
    var k := NumberSuffixLen(s);
    NumberSuffixRun(s);
    if k > 0 && |s| >= k + 4 {
      var e := |s| - k - 4;
      LazyArrowStops(s, 1, e);
      if s[e..e + 4] == "] : " && LazyArrow(s, 1, e).Some? {
        var i := LazyArrow(s, 1, e).value;
        assert MatchRule(s) == Some(RuleMatch(s[..i], s[i + 3..e], s[e + 4..]));
        assert s[0..i] == s[..i];
        assert s[i..i + 3] == "->[";
        SplitAt(s, i, e);
      }
    }
  }

  /** A line cut at the arrow and at the closing bracket. */
  lemma SplitAt(s: string, i: nat, e: nat)
    requires i + 3 <= e && e + 4 <= |s|
    ensures s == s[..i] + s[i..i + 3] + s[i + 3..e] + s[e..e + 4] + s[e + 4..]
  {
    assert s == s[..i] + s[i..];
    assert s[i..] == s[i..i + 3] + s[i + 3..];
    assert s[i + 3..] == s[i + 3..e] + s[e..];
    assert s[e..] == s[e..e + 4] + s[e + 4..];
  }

  /** The groups of the biased pattern. */
  datatype BiasMatch = BiasMatch(bias: string, rule: RuleMatch)

  /** `biasP.matcher(line).matches()`: the leading number must be the whole
      run of number characters, followed by one space and a plain line. */
  function MatchBiasRule(s: string): Option<BiasMatch> {
    var k := NumberPrefixLen(s);
    if k == 0 || k >= |s| || s[k] != ' ' then None
    else match MatchRule(s[k + 1..])
      case None => None
      case Some(m) => Some(BiasMatch(s[..k], m))
  }

  /** A biased match is a number, a space and a line the plain pattern
      matches with the rule groups. */
  lemma MatchBiasRuleParts(s: string)
    ensures MatchBiasRule(s).Some? ==>
      var b := MatchBiasRule(s).value;
      IsNumberText(b.bias) && |b.bias| < |s| && s == b.bias + " " + s[|b.bias| + 1..] &&
      MatchRule(s[|b.bias| + 1..]) == Some(b.rule)
  {
    var k := NumberPrefixLen(s);
    NumberPrefixRun(s);
    if k > 0 && k < |s| && s[k] == ' ' {
      assert s == s[..k] + " " + s[k + 1..];
    }
  }

  /** The conditions under which a line written from its parts reads back:
      the tag holds no `->[`, and neither part holds a line terminator. */
  ghost predicate Writable(tag: string, rhs: string, num: string) {
    tag != "" && rhs != "" && IsNumberText(num) && NoArrow(tag) &&
    NoLineTerminator(tag) && NoLineTerminator(rhs)
  }

  /** Writing `tag->[rhs] : num` and matching it gives the parts back. */
  lemma MatchRuleRoundTrip(tag: string, rhs: string, num: string)
    requires Writable(tag, rhs, num)
    ensures MatchRule(tag + "->[" + rhs + "] : " + num) == Some(RuleMatch(tag, rhs, num))
  {
    var s := tag + "->[" + rhs + "] : " + num;
    var a := |tag|;
    var e := a + 3 + |rhs|;
    assert |s| == e + 4 + |num|;
    assert s[..a] == tag && s[a..a + 3] == "->[" && s[a + 3..e] == rhs;
    assert s[e..e + 4] == "] : " && s[e + 4..] == num;
    MatchOfParts(s, tag, rhs, num, a, e);
  }

  lemma MatchOfParts(s: string, tag: string, rhs: string, num: string, a: nat, e: nat)
    requires Writable(tag, rhs, num)
    requires a == |tag| && e == a + 3 + |rhs| && |s| == e + 4 + |num|
    requires s[..a] == tag && s[a..a + 3] == "->[" && s[a + 3..e] == rhs
    requires s[e..e + 4] == "] : " && s[e + 4..] == num
    ensures MatchRule(s) == Some(RuleMatch(tag, rhs, num))
  {
    assert s[|s| - |num|..] == num;
    assert s[|s| - |num| - 1] == ' ' by {
      assert s[e + 3] == s[e..e + 4][3];
    }
    NumberSuffixIs(s, num);
    LazyArrowFindsTag(s, 1, e, tag);
    assert s[..a] == tag && s[a + 3..e] == rhs && s[e + 4..] == num;
  }

  lemma NumberSuffixIs(s: string, num: string)
    requires IsNumberText(num) && |s| >= |num| + 1 && s[|s| - |num|..] == num && s[|s| - |num| - 1] == ' '
    ensures NumberSuffixLen(s) == |num|
  {
    NumberSuffixRun(s);
    assert forall i :: |s| - |num| <= i < |s| ==> s[i] == num[i - (|s| - |num|)];
  }

  /** The lazy search stops exactly at the end of a tag that holds no
      `->[`: no earlier start can be an arrow, not even one that overlaps
      the arrow after the tag. */
  lemma {:induction false} LazyArrowFindsTag(s: string, i: nat, e: nat, tag: string)
    requires 1 <= i <= |tag| && e <= |s| && |tag| + 3 < e
    requires s[..|tag|] == tag && s[|tag|..|tag| + 3] == "->["
    requires NoArrow(tag) && NoLineTerminator(tag) && NoLineTerminator(s[|tag| + 3..e])
    ensures LazyArrow(s, i, e) == Some(|tag|)
    decreases |tag| - i
  {
    assert s[i - 1] == tag[i - 1];
    if i < |tag| {
      assert !ArrowAt(s, i) by {
        if i + 3 <= |tag| {
          assert s[i..i + 3] == tag[i..i + 3];
          assert !ArrowAt(tag, i);
        } else if i + 2 == |tag| {
          assert s[i + 2] == '-';
        } else {
          assert s[i + 1] == '-';
        }
      }
      LazyArrowFindsTag(s, i + 1, e, tag);
    }
  }

  /** Writing `bias tag->[rhs] : num` and matching the biased pattern gives
      the parts back. */
  lemma MatchBiasRoundTrip(bias: string, tag: string, rhs: string, num: string)
    requires IsNumberText(bias) && Writable(tag, rhs, num)
    ensures MatchBiasRule(bias + " " + tag + "->[" + rhs + "] : " + num) == Some(BiasMatch(bias, RuleMatch(tag, rhs, num)))
  {
    var rest := tag + "->[" + rhs + "] : " + num;
    MatchRuleRoundTrip(tag, rhs, num);
    var s := bias + " " + rest;
    assert bias + " " + tag + "->[" + rhs + "] : " + num == s;
    MatchBiasOf(s, bias, RuleMatch(tag, rhs, num));
  }

  lemma MatchBiasOf(s: string, bias: string, m: RuleMatch)
    requires IsNumberText(bias) && |s| > |bias| && s[..|bias|] == bias && s[|bias|] == ' '
    requires MatchRule(s[|bias| + 1..]) == Some(m)
    ensures MatchBiasRule(s) == Some(BiasMatch(bias, m))
  {
    NumberPrefixIs(s, bias);
  }

  lemma NumberPrefixIs(s: string, bias: string)
    requires IsNumberText(bias) && |s| > |bias| && s[..|bias|] == bias && s[|bias|] == ' '
    ensures NumberPrefixLen(s) == |bias|
  {
    NumberPrefixRun(s);
    assert forall i :: 0 <= i < |bias| ==> s[i] == bias[i];
  }

  /** Length of the whitespace run that ends `s`. */
  function TrailingSpaces(s: string): (k: nat)
    ensures k <= |s|
  {
    if |s| > 0 && IsSpace(s[|s| - 1]) then 1 + TrailingSpaces(s[..|s| - 1]) else 0
  }

  /** The run `TrailingSpaces` measures is all whitespace and cannot be
      extended to the left. */
  lemma {:induction false} TrailingSpacesRun(s: string)
    ensures forall i :: |s| - TrailingSpaces(s) <= i < |s| ==> IsSpace(s[i])
    ensures TrailingSpaces(s) < |s| ==> !IsSpace(s[|s| - TrailingSpaces(s) - 1])
    decreases |s|
  {
    if |s| > 0 && IsSpace(s[|s| - 1]) {
      var t := s[..|s| - 1];
      TrailingSpacesRun(t);
      assert forall i :: 0 <= i < |t| ==> t[i] == s[i];
    }
  }

  /** `replaceAll("(^\\s+|\\s+$)", "")`: the line without its leading and
      trailing whitespace; a blank line becomes empty. */
  function Trim(s: string): (t: string)
    ensures |t| <= |s|
  {
    var a := LeadingSpaces(s);
    if a == |s| then ""
    else
      var b := |s| - TrailingSpaces(s);
      TrailingSpacesRun(s);
      assert a < b by {
        assert !IsSpace(s[a]);
      }
      s[a..b]
  }

  /** The trimmed line is a slice of the line between two whitespace runs,
      and starts and ends with a non-blank when it is not empty. */
  lemma TrimParts(s: string)
    ensures Trim(s) != "" ==> !IsSpace(Trim(s)[0]) && !IsSpace(Trim(s)[|Trim(s)| - 1])
    ensures exists a, b ::
      0 <= a <= b <= |s| && Trim(s) == s[a..b] &&
      (forall i :: 0 <= i < a ==> IsSpace(s[i])) && (forall i :: b <= i < |s| ==> IsSpace(s[i]))
  {
    var a := LeadingSpaces(s);
    TrailingSpacesRun(s);
    if a == |s| {
      assert Trim(s) == s[|s|..|s|];
    } else {
      var b := |s| - TrailingSpaces(s);
      assert a < b by {
        assert !IsSpace(s[a]);
      }
      assert Trim(s) == s[a..b];
    }
  }

  /** Trimming a line that starts and ends with a non-blank changes
      nothing, so a written line is read back unchanged. */
  lemma TrimKeeps(s: string)
    requires s != "" && !IsSpace(s[0]) && !IsSpace(s[|s| - 1])
    ensures Trim(s) == s
  {
  }
}
