/** Character classes and the string splitting that the grammar readers, the
    sentence tokeniser and the Python normaliser rely on.  `\s` is the ASCII
    whitespace class that both Java and Python regular expressions use for
    ASCII text; Java's `String.split` and Python's `re.split` differ only in
    what they do with empty pieces, and both are written out here. */
module Text {

  /** The characters matched by `\s`: space, tab, newline, carriage return,
      vertical tab and form feed. */
  predicate IsSpace(c: char) {
    c == ' ' || c == '\t' || c == '\n' || c == '\r' || c == '\U{000B}' || c == '\U{000C}'
  }

  predicate NoSpace(s: string) {
    forall i :: 0 <= i < |s| ==> !IsSpace(s[i])
  }

  predicate IsUpperAscii(c: char) { 'A' <= c <= 'Z' }
  predicate IsLowerAscii(c: char) { 'a' <= c <= 'z' }
  predicate IsDigitAscii(c: char) { '0' <= c <= '9' }

  function ToUpperAscii(c: char): (u: char)
    ensures !IsLowerAscii(u)
    ensures !IsLowerAscii(c) ==> u == c
  {
    if IsLowerAscii(c) then (c as int - 'a' as int + 'A' as int) as char else c
  }

  function ToLowerAscii(c: char): (l: char)
    ensures !IsUpperAscii(l)
    ensures !IsUpperAscii(c) ==> l == c
  {
    if IsUpperAscii(c) then (c as int - 'A' as int + 'a' as int) as char else c
  }

  /** Python's `str.upper()` restricted to ASCII letters. */
  function UpperCase(s: string): (u: string)
    ensures |u| == |s|
    ensures forall i :: 0 <= i < |s| ==> u[i] == ToUpperAscii(s[i])
  {
    if s == [] then [] else [ToUpperAscii(s[0])] + UpperCase(s[1..])
  }

  /** Length of the whitespace run that starts `s`. */
  function LeadingSpaces(s: string): (k: nat)
    ensures k <= |s|
    ensures forall i :: 0 <= i < k ==> IsSpace(s[i])
    ensures k < |s| ==> !IsSpace(s[k])
  {
    if |s| > 0 && IsSpace(s[0]) then 1 + LeadingSpaces(s[1..]) else 0
  }

  /** Position of the first whitespace character, or |s| when there is none. */
  function FirstSpace(s: string): (i: nat)
    ensures i <= |s|
    ensures NoSpace(s[..i])
    ensures i < |s| ==> IsSpace(s[i])
  {
    if |s| == 0 || IsSpace(s[0]) then 0 else 1 + FirstSpace(s[1..])
  }

  /** The parts joined with `sep` between consecutive ones. */
  function Join(parts: seq<string>, sep: string): string {
    if |parts| == 0 then ""
    else if |parts| == 1 then parts[0]
    else parts[0] + sep + Join(parts[1..], sep)
  }

  /** Python `re.split('\s+', s)`: the pieces between maximal whitespace runs;
      an empty piece is kept at either end. */
  function SplitOnSpaceRuns(s: string): (r: seq<string>)
    ensures |r| >= 1
    ensures forall k :: 0 <= k < |r| ==> NoSpace(r[k])
    decreases |s|
  {
    var i := FirstSpace(s);
    if i == |s| then [s]
    else
      var j := i + LeadingSpaces(s[i..]);
      [s[..i]] + SplitOnSpaceRuns(s[j..])
  }

  /** `r` without its trailing empty strings, as Java's `split` returns it. */
  function DropTrailingEmpty(r: seq<string>): (d: seq<string>)
    ensures d <= r
    ensures |d| > 0 ==> d[|d| - 1] != ""
    ensures forall k :: |d| <= k < |r| ==> r[k] == ""
  {
    if |r| == 0 then []
    else if r[|r| - 1] == "" then DropTrailingEmpty(r[..|r| - 1])
    else r
  }

  /** Java `s.split("\\s+")`: the input itself when nothing matches,
      otherwise the pieces with trailing empty ones removed (a leading empty
      piece stays). */
  function JavaSplitOnSpaceRuns(s: string): (r: seq<string>)
    ensures forall k :: 0 <= k < |r| ==> NoSpace(r[k])
  {
    if FirstSpace(s) == |s| then [s] else DropTrailingEmpty(SplitOnSpaceRuns(s))
  }

  /** Every piece between occurrences of `c`, empty pieces included. */
  function SplitOnChar(s: string, c: char): (r: seq<string>)
    ensures |r| >= 1
    ensures forall k :: 0 <= k < |r| ==> c !in r[k]
    decreases |s|
  {
    if c !in s then [s]
    else
      var i := FirstIndexOf(s, c);
      [s[..i]] + SplitOnChar(s[i + 1..], c)
  }

  function FirstIndexOf(s: string, c: char): (i: nat)
    requires c in s
    ensures i < |s| && s[i] == c && c !in s[..i]
  {
    if s[0] == c then 0 else 1 + FirstIndexOf(s[1..], c)
  }

  /** Java `s.split(" ")` and the like for a one-character literal pattern. */
  function JavaSplitOnChar(s: string, c: char): (r: seq<string>)
    ensures forall k :: 0 <= k < |r| ==> c !in r[k]
  {
    if c !in s then [s] else DropTrailingEmpty(SplitOnChar(s, c))
  }

  lemma FirstSpaceOfJoin(a: string, b: string)
    requires NoSpace(a) && |b| > 0 && IsSpace(b[0])
    ensures FirstSpace(a + b) == |a|
  {
    if |a| > 0 {
      assert (a + b)[1..] == a[1..] + b;
      FirstSpaceOfJoin(a[1..], b);
    } else {
      assert a + b == b;
    }
  }

  lemma FirstIndexOfJoin(a: string, c: char, b: string)
    requires c !in a
    ensures c in a + [c] + b && FirstIndexOf(a + [c] + b, c) == |a|
  {
    assert (a + [c] + b)[|a|] == c;
    if |a| > 0 {
      assert (a + [c] + b)[1..] == a[1..] + [c] + b;
      FirstIndexOfJoin(a[1..], c, b);
    }
  }

  /** Splitting on whitespace runs undoes joining with single spaces. */
  lemma {:induction false} SplitJoinRoundTrip(toks: seq<string>)
    requires |toks| >= 1
    requires forall k :: 0 <= k < |toks| ==> toks[k] != "" && NoSpace(toks[k])
    ensures SplitOnSpaceRuns(Join(toks, " ")) == toks
  {
    if |toks| > 1 {
      var rest := Join(toks[1..], " ");
      var s := toks[0] + " " + rest;
      JoinStartsWith(toks[1..], " ");
      assert s == toks[0] + (" " + rest);
      FirstSpaceOfJoin(toks[0], " " + rest);
      var i := |toks[0]|;
      assert s[i..] == " " + rest;
      assert LeadingSpaces(" " + rest) == 1 by {
        assert (" " + rest)[1..] == rest;
      }
      assert s[..i] == toks[0];
      assert s[i + 1..] == rest;
      SplitJoinRoundTrip(toks[1..]);
      assert [toks[0]] + toks[1..] == toks;
    }
  }

  /** A join of non-empty parts starts with the first part's first character. */
  lemma JoinStartsWith(parts: seq<string>, sep: string)
    requires |parts| >= 1 && parts[0] != ""
    ensures |Join(parts, sep)| > 0 && Join(parts, sep)[0] == parts[0][0]
  {
  }

  /** Java's whitespace split undoes joining with single spaces too. */
  lemma {:induction false} JavaSplitJoinRoundTrip(toks: seq<string>)
    requires |toks| >= 1
    requires forall k :: 0 <= k < |toks| ==> toks[k] != "" && NoSpace(toks[k])
    ensures JavaSplitOnSpaceRuns(Join(toks, " ")) == toks
  {
    SplitJoinRoundTrip(toks);
    var s := Join(toks, " ");
    if |toks| > 1 {
      var rest := Join(toks[1..], " ");
      assert s == toks[0] + (" " + rest);
      FirstSpaceOfJoin(toks[0], " " + rest);
      assert FirstSpace(s) < |s|;
      assert toks[|toks| - 1] != "";
      assert DropTrailingEmpty(toks) == toks;
    }
  }

  /** The first piece ends at the first occurrence of `c`. */
  lemma SplitOnCharStep(a: string, c: char, rest: string)
    requires c !in a
    ensures SplitOnChar(a + [c] + rest, c) == [a] + SplitOnChar(rest, c)
  {
    var s := a + [c] + rest;
    FirstIndexOfJoin(a, c, rest);
    assert s[..|a|] == a;
    assert s[|a| + 1..] == rest;
  }

  /** Splitting on a character undoes joining with it. */
  lemma {:induction false} SplitOnCharJoin(toks: seq<string>, c: char)
    requires |toks| >= 1
    requires forall k :: 0 <= k < |toks| ==> c !in toks[k]
    ensures SplitOnChar(Join(toks, [c]), c) == toks
  {
    if |toks| > 1 {
      var rest := Join(toks[1..], [c]);
      assert Join(toks, [c]) == toks[0] + [c] + rest;
      SplitOnCharStep(toks[0], c, rest);
      SplitOnCharJoin(toks[1..], c);
      assert [toks[0]] + toks[1..] == toks;
    } else {
      assert Join(toks, [c]) == toks[0];
      assert c !in toks[0];
    }
  }

  /** Java's one-character split undoes a join of non-empty parts. */
  lemma JavaSplitOnCharJoin(toks: seq<string>, c: char)
    requires |toks| >= 1
    requires forall k :: 0 <= k < |toks| ==> toks[k] != "" && c !in toks[k]
    ensures JavaSplitOnChar(Join(toks, [c]), c) == toks
  {
    SplitOnCharJoin(toks, c);
    if |toks| == 1 {
      assert Join(toks, [c]) == toks[0];
    } else {
      var s := Join(toks, [c]);
      assert s == toks[0] + [c] + Join(toks[1..], [c]);
      assert s[|toks[0]|] == c;
    }
  }

  /** Each part followed by `sep`: what a StringBuffer holds after a loop that
      appends `part + sep` for every part. */
  function EachFollowedBy(parts: seq<string>, sep: string): string {
    if |parts| == 0 then "" else parts[0] + sep + EachFollowedBy(parts[1..], sep)
  }

  /** Each part preceded by `sep`. */
  function EachPrecededBy(parts: seq<string>, sep: string): string {
    if |parts| == 0 then "" else sep + parts[0] + EachPrecededBy(parts[1..], sep)
  }

  lemma EachFollowedBySnoc(parts: seq<string>, p: string, sep: string)
    ensures EachFollowedBy(parts + [p], sep) == EachFollowedBy(parts, sep) + p + sep
  {
    if |parts| > 0 {
      assert (parts + [p])[1..] == parts[1..] + [p];
      EachFollowedBySnoc(parts[1..], p, sep);
    }
  }

  lemma EachPrecededBySnoc(parts: seq<string>, p: string, sep: string)
    ensures EachPrecededBy(parts + [p], sep) == EachPrecededBy(parts, sep) + sep + p
  {
    if |parts| > 0 {
      assert (parts + [p])[1..] == parts[1..] + [p];
      EachPrecededBySnoc(parts[1..], p, sep);
    }
  }

  /** Appending `part + sep` for every part and then deleting the final `sep`
      gives the join. */
  lemma {:induction false} EachFollowedByIsJoin(parts: seq<string>, sep: string)
    requires |parts| > 0
    ensures EachFollowedBy(parts, sep) == Join(parts, sep) + sep
  {
    if |parts| > 1 {
      EachFollowedByIsJoin(parts[1..], sep);
    }
  }

  /** `first` followed by the rest, each preceded by `sep`, is the join. */
  lemma {:induction false} PrecededIsJoin(first: string, rest: seq<string>, sep: string)
    ensures first + EachPrecededBy(rest, sep) == Join([first] + rest, sep)
    decreases |rest|
  {
    if |rest| > 0 {
      PrecededIsJoin(rest[0], rest[1..], sep);
      assert ([first] + rest)[1..] == [rest[0]] + rest[1..];
    }
  }

  /** Splitting a join around one middle part. */
  lemma {:induction false} JoinAround(pre: seq<string>, mid: string, post: seq<string>, sep: string)
    ensures Join(pre + [mid] + post, sep) == EachFollowedBy(pre, sep) + Join([mid] + post, sep)
  {
    if |pre| > 0 {
      JoinAround(pre[1..], mid, post, sep);
      assert (pre + [mid] + post)[1..] == pre[1..] + [mid] + post;
    } else {
      assert pre + [mid] + post == [mid] + post;
    }
  }

  function DigitChar(d: nat): (c: char)
    requires d < 10
    ensures IsDigitAscii(c)
  {
    ('0' as int + d) as char
  }

  /** Java's decimal rendering of a non-negative int. */
  function NatString(n: nat): (s: string)
    ensures |s| >= 1
    ensures forall i :: 0 <= i < |s| ==> IsDigitAscii(s[i])
  {
    if n < 10 then [DigitChar(n)] else NatString(n / 10) + [DigitChar(n % 10)]
  }

  /** Java's `Integer.toString`. */
  function IntString(i: int): (s: string)
    ensures |s| >= 1 && NoSpace(s)
    ensures s[0] == '-' <==> i < 0
  {
    if i < 0 then "-" + NatString(-i) else NatString(i)
  }

  /** The value of a string of decimal digits. */
  function DigitsValue(s: string): int {
    if |s| == 0 then 0 else 10 * DigitsValue(s[..|s| - 1]) + (s[|s| - 1] as int - '0' as int)
  }

  /** Reading the digits back gives the number: the rendering loses nothing. */
  lemma {:induction false} NatStringValue(n: nat)
    ensures DigitsValue(NatString(n)) == n
  {
    if n >= 10 {
      NatStringValue(n / 10);
      var s := NatString(n);
      assert s[..|s| - 1] == NatString(n / 10);
    }
  }
}
