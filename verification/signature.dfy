/** `SmoothLexicon.getSignature`: the unknown-word class of a word, built
    from `UNK` and four optional marks: the capitalisation, a dash, the
    digits, and the lower-cased last character.  Java's `Character`
    classes are taken on ASCII, where no character is title case. */
module Signatures {
  import opened Wrappers
  import opened Text

  /** `UNKNOWN_WORD`. */
  const Unknown: string := "UNK"

  /** The three flags the character loop of `getSignature` sets. */
  datatype Flags = Flags(hasDigit: bool, hasNonDigit: bool, hasLower: bool)

  /** The flags after the loop has seen the characters of `w`, in order. */
  function ScanFlags(w: string): (f: Flags)
    ensures f.hasDigit <==> exists i :: 0 <= i < |w| && IsDigitAscii(w[i])
    ensures f.hasNonDigit <==> exists i :: 0 <= i < |w| && !IsDigitAscii(w[i])
    ensures f.hasLower <==> exists i :: 0 <= i < |w| && IsLowerAscii(w[i])
    decreases |w|
  {
    if w == [] then Flags(false, false, false)
    else
      var f := ScanFlags(w[..|w| - 1]);
      assert forall i :: 0 <= i < |w| - 1 ==> w[..|w| - 1][i] == w[i];
      var ch := w[|w| - 1];
      if IsDigitAscii(ch) then f.(hasDigit := true)
      else f.(hasNonDigit := true, hasLower := f.hasLower || IsLowerAscii(ch))
  }

  /** The capitalisation mark: `-ALLC`, `-INIT`, `-UC`, `-LC` or none. */
  datatype CaseMark = AllCaps | Initial | Upper | Lower | NoCase

  /** The digit mark: `-NUM`, `-DIG` or none. */
  datatype NumMark = Number | Digits | NoNum

  /** What a signature says about its word. */
  datatype Shape = Shape(caseMark: CaseMark, dash: bool, num: NumMark, last: Option<char>)

  /** The decisions `getSignature` takes; `loc` is fixed at 0, so the
      `-UC` branch is never taken. */
  function Classify(w: string): (s: Shape)
    ensures s.caseMark != Upper
    ensures s.caseMark == AllCaps <==>
      |w| > 0 && IsUpperAscii(w[0]) && forall i :: 0 <= i < |w| ==> !IsLowerAscii(w[i])
    ensures s.caseMark == Initial <==>
      |w| > 0 && IsUpperAscii(w[0]) && exists i :: 0 <= i < |w| && IsLowerAscii(w[i])
    ensures s.caseMark == Lower <==>
      !(|w| > 0 && IsUpperAscii(w[0])) && exists i :: 0 <= i < |w| && IsLowerAscii(w[i])
    ensures s.dash <==> '-' in w
    ensures s.num == Number <==> |w| > 0 && forall i :: 0 <= i < |w| ==> IsDigitAscii(w[i])
    ensures s.num == Digits <==>
      (exists i :: 0 <= i < |w| && IsDigitAscii(w[i])) && exists i :: 0 <= i < |w| && !IsDigitAscii(w[i])
    ensures s.last.Some? <==> |w| > 3 && forall i :: 0 <= i < |w| ==> !IsDigitAscii(w[i])
    ensures s.last.Some? ==> s.last.value == ToLowerAscii(w[|w| - 1])
  {
    var f := ScanFlags(w);
    var loc := 0;
    var caseMark :=
      if |w| > 0 && IsUpperAscii(w[0]) then
        (if !f.hasLower then AllCaps else if loc == 0 then Initial else Upper)
      else if f.hasLower then Lower
      else NoCase;
    var num := if f.hasDigit then (if !f.hasNonDigit then Number else Digits) else NoNum;
    var last := if !f.hasDigit && |w| > 3 then Some(ToLowerAscii(w[|w| - 1])) else None;
    Shape(caseMark, '-' in w, num, last)
  }

  function CaseString(c: CaseMark): string {
    match c
    case AllCaps => "-ALLC"
    case Initial => "-INIT"
    case Upper => "-UC"
    case Lower => "-LC"
    case NoCase => ""
  }

  function NumString(n: NumMark): string {
    match n
    case Number => "-NUM"
    case Digits => "-DIG"
    case NoNum => ""
  }

  /** The signature text: `UNK` followed by the marks in a fixed order. */
  function Render(s: Shape): (r: string)
    ensures |r| >= 3 && r[..3] == Unknown
  {
    Unknown + (CaseString(s.caseMark) + AfterCase(s))
  }

  lemma RenderFlat(s: Shape)
    ensures Render(s) == Unknown + CaseString(s.caseMark) + (if s.dash then "-DASH" else "") +
      NumString(s.num) + LastString(s.last)
  {
  }

  /** `getSignature(word)`. */
  function Signature(w: string): (r: string)
    ensures |r| >= 3 && r[..3] == Unknown
  {
    Render(Classify(w))
  }

  /** Reading the marks back from a signature text. */
  function Parse(r: string): Option<Shape> {
    if |r| < 3 || r[..3] != Unknown then None
    else
      var (c, r1) := ParseCase(r[3..]);
      var (d, r2) := if |r1| >= 5 && r1[..5] == "-DASH" then (true, r1[5..]) else (false, r1);
      var (n, r3) := ParseNum(r2);
      if |r3| == 0 then Some(Shape(c, d, n, None))
      else if |r3| == 1 then Some(Shape(c, d, n, Some(r3[0])))
      else None
  }

  function ParseCase(r: string): (CaseMark, string) {
    if |r| >= 5 && r[..5] == "-ALLC" then (AllCaps, r[5..])
    else if |r| >= 5 && r[..5] == "-INIT" then (Initial, r[5..])
    else if |r| >= 3 && r[..3] == "-UC" then (Upper, r[3..])
    else if |r| >= 3 && r[..3] == "-LC" then (Lower, r[3..])
    else (NoCase, r)
  }

  function ParseNum(r: string): (NumMark, string) {
    if |r| >= 4 && r[..4] == "-NUM" then (Number, r[4..])
    else if |r| >= 4 && r[..4] == "-DIG" then (Digits, r[4..])
    else (NoNum, r)
  }

  lemma Split(x: string, t: string)
    ensures (x + t)[..|x|] == x && (x + t)[|x|..] == t
  {
  }

  /** What may follow the capitalisation mark. */
  function AfterCase(s: Shape): string {
    (if s.dash then "-DASH" else "") + AfterDash(s)
  }

  function AfterDash(s: Shape): string {
    NumString(s.num) + LastString(s.last)
  }

  function LastString(last: Option<char>): string {
    match last
    case Some(c) => [c]
    case None => ""
  }

  lemma ParseNumRender(s: Shape)
    ensures ParseNum(AfterDash(s)) == (s.num, LastString(s.last))
  {
    var l := LastString(s.last);
    Split(NumString(s.num), l);
    if s.num == NoNum {
      assert AfterDash(s) == l;
    }
  }

  lemma ParseDashRender(s: Shape)
    ensures var t := AfterCase(s);
      (|t| >= 5 && t[..5] == "-DASH") == s.dash
    ensures s.dash ==> AfterCase(s)[5..] == AfterDash(s)
  {
    var t := AfterCase(s);
    if s.dash {
      Split("-DASH", AfterDash(s));
    } else {
      assert t == AfterDash(s);
      if |t| >= 5 {
        assert s.num != NoNum;
        Split(NumString(s.num), LastString(s.last));
        assert t[2] == NumString(s.num)[2];
        assert t[2] != "-DASH"[2];
      }
    }
  }

  lemma ParseCaseRender(s: Shape)
    ensures ParseCase(CaseString(s.caseMark) + AfterCase(s)) == (s.caseMark, AfterCase(s))
  {
    var t := AfterCase(s);
    var x := CaseString(s.caseMark);
    Split(x, t);
    var r := x + t;
    if s.caseMark == NoCase {
      assert r == t;
      if |t| >= 3 {
        if s.dash {
          Split("-DASH", AfterDash(s));
          assert t[1] == 'D';
        } else {
          assert t == AfterDash(s);
          assert s.num != NoNum;
          Split(NumString(s.num), LastString(s.last));
          assert t[1] == NumString(s.num)[1];
        }
      }
    } else {
      assert r[1] == x[1];
    }
  }

  /** The marks can be read back: a signature names its shape. */
  lemma ParseRender(s: Shape)
    ensures Parse(Render(s)) == Some(s)
  {
    var r := Render(s);
    var rest := CaseString(s.caseMark) + AfterCase(s);
    Split(Unknown, rest);
    assert r[..3] == Unknown && r[3..] == rest;
    ParseCaseRender(s);
    var t := AfterCase(s);
    ParseDashRender(s);
    var r2 := if |t| >= 5 && t[..5] == "-DASH" then t[5..] else t;
    assert r2 == AfterDash(s);
    ParseNumRender(s);
    var l := LastString(s.last);
    assert ParseNum(r2) == (s.num, l);
    if s.last.Some? {
      assert |l| == 1 && l[0] == s.last.value;
    } else {
      assert |l| == 0;
    }
  }

  /** Words with the same signature have the same shape. */
  lemma SameSignatureSameShape(w1: string, w2: string)
    requires Signature(w1) == Signature(w2)
    ensures Classify(w1) == Classify(w2)
  {
    ParseRender(Classify(w1));
    ParseRender(Classify(w2));
  }

  /** `-UC` never follows `UNK`. */
  lemma NoUpperMark(w: string)
    ensures !(|Signature(w)| >= 6 && Signature(w)[3..6] == "-UC")
  {
    var s := Classify(w);
    var r := Signature(w);
    var rest := CaseString(s.caseMark) + AfterCase(s);
    Split(Unknown, rest);
    assert r[3..] == rest;
    if |r| >= 6 {
      var x := CaseString(s.caseMark);
      Split(x, AfterCase(s));
      if s.caseMark == NoCase {
        var t := AfterCase(s);
        if s.dash {
          Split("-DASH", AfterDash(s));
          assert t[1] == 'D';
        } else {
          assert t == AfterDash(s);
          Split(NumString(s.num), LastString(s.last));
          assert t[1] == NumString(s.num)[1];
        }
      } else {
        assert rest[1] == x[1];
      }
      assert r[3..6][1] == rest[1] != 'U';
    }
  }

  /** The character loop of `getSignature` followed by the appends. */
  method GetSignature(word: string) returns (sb: string)
    ensures sb == Signature(word)
  {
    var loc := 0;
    sb := Unknown;
    var hasDigit, hasNonDigit, hasLower := false, false, false;
    var wlen := |word|;
    for i := 0 to wlen
      invariant ScanFlags(word[..i]) == Flags(hasDigit, hasNonDigit, hasLower)
    {
      var ch := word[i];
      assert word[..i + 1][..i] == word[..i];
      if IsDigitAscii(ch) {
        hasDigit := true;
      } else {
        hasNonDigit := true;
        if IsUpperAscii(ch) || IsLowerAscii(ch) {
          if IsLowerAscii(ch) {
            hasLower := true;
          }
        }
      }
    }
    assert word[..wlen] == word;
    ghost var shape := Classify(word);
    if wlen > 0 && IsUpperAscii(word[0]) {
      if !hasLower {
        sb := sb + "-ALLC";
      } else if loc == 0 {
        sb := sb + "-INIT";
      } else {
        sb := sb + "-UC";
      }
    } else if hasLower {
      sb := sb + "-LC";
    }
    assert sb == Unknown + CaseString(shape.caseMark);
    if '-' in word {
      sb := sb + "-DASH";
    }
    assert sb == Unknown + CaseString(shape.caseMark) + (if shape.dash then "-DASH" else "");
    if hasDigit {
      if !hasNonDigit {
        sb := sb + "-NUM";
      } else {
        sb := sb + "-DIG";
      }
    } else if wlen > 3 {
      var ch := word[|word| - 1];
      sb := sb + [ToLowerAscii(ch)];
    }
    assert sb == Unknown + CaseString(shape.caseMark) + (if shape.dash then "-DASH" else "") +
      NumString(shape.num) + LastString(shape.last);
    RenderFlat(shape);
  }

  /** The signature of the lexicon test's word `cbb`. */
  lemma LowerSignature()
    ensures Signature("cbb") == "UNK-LC"
  {
    var s1 := Classify("cbb");
    assert IsLowerAscii("cbb"[0]);
    assert s1 == Shape(Lower, false, NoNum, None);
    RenderFlat(s1);
  }

  /** The signature of the lexicon test's word `c12`. */
  lemma DigitSignature()
    ensures Signature("c12") == "UNK-LC-DIG"
  {
    var s2 := Classify("c12");
    assert IsLowerAscii("c12"[0]) && IsDigitAscii("c12"[1]);
    assert s2 == Shape(Lower, false, Digits, None);
    RenderFlat(s2);
  }
}
