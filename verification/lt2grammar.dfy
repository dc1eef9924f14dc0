/** The grammar normaliser `code/lt2grammar.py`.  It reads lines
    `[n n] TAG SEP child...`, replaces every lower-case child of a
    multi-symbol right-hand side by a `PSEUDO<X>` pre-terminal, marks a lone
    terminal with `_`, and gives every right-hand side of a tag the uniform
    probability 1 / (number of distinct right-hand sides of that tag).  One
    output rule is produced per input line, in input order. */
module Lt2Grammar {
  import opened Wrappers
  import opened Text

  /** The character class `[0-9.eE+-]`. */
  predicate IsNumberChar(c: char) {
    IsDigitAscii(c) || c == '.' || c == 'e' || c == 'E' || c == '+' || c == '-'
  }

  /** The prior-parameter class `^[0-9.eE+-]+$`. */
  predicate IsNumberToken(t: string) {
    |t| > 0 && forall i :: 0 <= i < |t| ==> IsNumberChar(t[i])
  }

  /** A child that `^[A-Z]` accepts is a nonterminal and is copied as is. */
  predicate IsNonterminal(c: string) {
    |c| > 0 && IsUpperAscii(c[0])
  }

  /** `clean_line`: `re.sub('(^\s+|\s$)', '', line)`.  The first branch
      removes the whole leading whitespace run; the second removes a single
      whitespace character at the end anchor, which Python also places just
      before a final newline.  So at most two characters go at the end. */
  function CleanLine(line: string): (r: string)
    ensures r <= line[LeadingSpaces(line)..]
    ensures |line[LeadingSpaces(line)..]| - |r| <= 2
    ensures |r| > 0 ==> !IsSpace(r[0])
  {
    var k := LeadingSpaces(line);
    var n := |line|;
    var dropLast := if n > k && IsSpace(line[n - 1]) then 1 else 0;
    var dropPrev := if n >= k + 2 && line[n - 1] == '\n' && IsSpace(line[n - 2]) then 1 else 0;
    line[k .. n - dropLast - dropPrev]
  }

  /** Only one trailing blank goes: a line ending in two blanks keeps a
      separator (which the token split then turns into an empty last
      child).  A newline and one blank before it both go. */
  lemma CleanLineTrailingBlanks(body: string)
    requires body != [] && !IsSpace(body[0]) && !IsSpace(body[|body| - 1])
    ensures CleanLine(body + "\n") == body
    ensures CleanLine(body + " \n") == body
    ensures CleanLine(body + "  ") == body + " "
    ensures CleanLine(body + "  \n") == body + " "
  {
    assert LeadingSpaces(body + "\n") == 0;
    assert LeadingSpaces(body + " \n") == 0;
    assert LeadingSpaces(body + "  ") == 0;
    assert LeadingSpaces(body + "  \n") == 0;
  }

  datatype ParsedLine = ParsedLine(tag: string, children: seq<string>)

  /** `process_rule_line`: with a numeric first token the second must be
      numeric too and there must be five tokens, and the tag and children
      start at tokens 2 and 4; otherwise there must be three tokens and they
      start at 0 and 2.  The separator token is never looked at and both
      numbers are dropped. */
  function ProcessRuleLine(line: string): (r: Result<ParsedLine>)
    ensures r.Ok? ==> |r.value.children| >= 1
    ensures r.Ok? ==> NoSpace(r.value.tag)
    ensures r.Ok? ==> forall k :: 0 <= k < |r.value.children| ==> NoSpace(r.value.children[k])
    ensures r.Ok? ==> var toks := SplitOnSpaceRuns(CleanLine(line));
      |r.value.children| <= |toks| && r.value.children == toks[|toks| - |r.value.children|..] &&
      (IsNumberToken(toks[0]) ==> |toks| == |r.value.children| + 4 && IsNumberToken(toks[1]) && r.value.tag == toks[2]) &&
      (!IsNumberToken(toks[0]) ==> r.value.tag == toks[0] && |toks| == |r.value.children| + 2)
  {
    var toks := SplitOnSpaceRuns(CleanLine(line));
    if IsNumberToken(toks[0]) then
      if |toks| < 2 then Fail("index out of range")
      else if !IsNumberToken(toks[1]) then Fail("second token is not a number")
      else if |toks| < 5 then Fail("wrong num tokens")
      else Ok(ParsedLine(toks[2], toks[4..]))
    else if |toks| < 3 then Fail("wrong num tokens")
    else Ok(ParsedLine(toks[0], toks[2..]))
  }

  /** Tokens that survive a whitespace split unchanged. */
  predicate Plain(toks: seq<string>) {
    forall k :: 0 <= k < |toks| ==> toks[k] != "" && NoSpace(toks[k])
  }

  lemma PlainAppend(xs: seq<string>, ys: seq<string>)
    requires Plain(xs) && Plain(ys)
    ensures Plain(xs + ys)
  {
  }

  /** The parser inverts the line layout the normaliser expects: a plain
      `TAG SEP c1 ... cn` line gives back the tag and the children. */
  lemma ProcessPlainLine(tag: string, sep: string, children: seq<string>)
    requires !IsNumberToken(tag) && Plain([tag, sep])
    requires |children| >= 1 && Plain(children)
    ensures ProcessRuleLine(Join([tag, sep] + children, " ") + "\n") == Ok(ParsedLine(tag, children))
  {
    var toks := [tag, sep] + children;
    PlainAppend([tag, sep], children);
    ParseTokens(toks);
    assert toks[2..] == children;
  }

  /** The same line behind two prior numbers parses to the same tag and
      children: the numbers are dropped. */
  lemma ProcessPriorLine(a: string, b: string, tag: string, sep: string, children: seq<string>)
    requires IsNumberToken(a) && IsNumberToken(b) && Plain([tag, sep])
    requires |children| >= 1 && Plain(children)
    ensures ProcessRuleLine(Join([a, b, tag, sep] + children, " ") + "\n") == Ok(ParsedLine(tag, children))
  {
    var toks := [a, b, tag, sep] + children;
    PriorTokensPlain(a, b, tag, sep, children);
    ParseTokens(toks);
    assert toks[4..] == children;
  }

  lemma PriorTokensPlain(a: string, b: string, tag: string, sep: string, children: seq<string>)
    requires IsNumberToken(a) && IsNumberToken(b) && Plain([tag, sep]) && Plain(children)
    ensures Plain([a, b, tag, sep] + children)
  {
    NumberNoSpace(a);
    NumberNoSpace(b);
    PlainAppend([a, b], [tag, sep]);
    assert [a, b] + [tag, sep] == [a, b, tag, sep];
    PlainAppend([a, b, tag, sep], children);
  }

  /** A line of non-blank tokens joined by single spaces parses by position. */
  lemma ParseTokens(toks: seq<string>)
    requires |toks| >= 1 && Plain(toks)
    ensures IsNumberToken(toks[0]) && |toks| >= 5 && IsNumberToken(toks[1]) ==>
      ProcessRuleLine(Join(toks, " ") + "\n") == Ok(ParsedLine(toks[2], toks[4..]))
    ensures !IsNumberToken(toks[0]) && |toks| >= 3 ==>
      ProcessRuleLine(Join(toks, " ") + "\n") == Ok(ParsedLine(toks[0], toks[2..]))
  {
    ParsesTo(toks);
  }

  lemma ParsesTo(toks: seq<string>)
    requires |toks| >= 1 && Plain(toks)
    ensures SplitOnSpaceRuns(CleanLine(Join(toks, " ") + "\n")) == toks
  {
    CleanJoinedLine(toks);
    SplitJoinRoundTrip(toks);
  }

  lemma NumberNoSpace(t: string)
    requires IsNumberToken(t)
    ensures t != "" && NoSpace(t)
  {
    forall i | 0 <= i < |t| ensures !IsSpace(t[i]) {
      assert IsNumberChar(t[i]);
    }
  }

  /** A joined line of non-blank tokens is left alone by `CleanLine` apart
      from its final newline. */
  lemma CleanJoinedLine(toks: seq<string>)
    requires |toks| >= 1
    requires forall k :: 0 <= k < |toks| ==> toks[k] != "" && NoSpace(toks[k])
    ensures CleanLine(Join(toks, " ") + "\n") == Join(toks, " ")
  {
    JoinFirstLast(toks);
    CleanLineTrailingBlanks(Join(toks, " "));
  }

  lemma {:induction false} JoinFirstLast(toks: seq<string>)
    requires |toks| >= 1
    requires forall k :: 0 <= k < |toks| ==> toks[k] != "" && NoSpace(toks[k])
    ensures var s := Join(toks, " "); |s| > 0 && !IsSpace(s[0]) && !IsSpace(s[|s| - 1])
  {
    if |toks| > 1 {
      JoinFirstLast(toks[1..]);
      var rest := Join(toks[1..], " ");
      assert Join(toks, " ") == toks[0] + " " + rest;
    }
  }

  /** The rewritten form of one child: nonterminals stay, a terminal of a
      multi-symbol right-hand side becomes its pseudo pre-terminal, a lone
      terminal gets the `_` prefix. */
  function RewriteChild(c: string, multi: bool): string {
    if IsNonterminal(c) then c
    else if multi then PseudoTag(c)
    else "_" + c
  }

  function PseudoTag(c: string): string {
    "PSEUDO" + UpperCase(c)
  }

  function RewriteChildren(children: seq<string>): (r: seq<string>)
    ensures |r| == |children|
    ensures forall i :: 0 <= i < |children| && IsNonterminal(children[i]) ==> r[i] == children[i]
    ensures |children| > 1 ==> forall i :: 0 <= i < |children| && !IsNonterminal(children[i]) ==>
      r[i] == PseudoTag(children[i])
    ensures |children| == 1 && !IsNonterminal(children[0]) ==> r == ["_" + children[0]]
  {
    seq(|children|, i requires 0 <= i < |children| => RewriteChild(children[i], |children| > 1))
  }

  /** `ruleHash`: every tag with the set of its distinct right-hand sides. */
  type Table = map<string, set<string>>

  /** One pseudo pre-terminal update (lt2grammar.py:98-109): a new pseudo tag
      gets exactly `{_x}`; a known one must already be exactly `{_x}`. */
  function AddPseudo(table: Table, c: string): (r: Result<Table>)
    ensures r.Ok? <==> PseudoTag(c) !in table || table[PseudoTag(c)] == {"_" + c}
    ensures r.Ok? ==> r.value == table[PseudoTag(c) := {"_" + c}]
  {
    var p := PseudoTag(c);
    var w := "_" + c;
    if p !in table then Ok(table[p := {w}])
    else if w in table[p] && |table[p]| == 1 then
      SingletonSet(table[p], w);
      Ok(table)
    else Fail("pseudo tag already used for another terminal")
  }

  lemma SingletonSet<T>(s: set<T>, x: T)
    requires x in s && |s| == 1
    ensures s == {x}
  {
    var rest := s - {x};
    assert |rest| == 0;
  }

  /** The pseudo updates of one multi-symbol right-hand side, left to right. */
  function PseudoFold(table: Table, cs: seq<string>): Result<Table>
    decreases |cs|
  {
    if cs == [] then Ok(table)
    else if IsNonterminal(cs[0]) then PseudoFold(table, cs[1..])
    else
      match AddPseudo(table, cs[0])
      case Fail(e) => Fail(e)
      case Ok(t) => PseudoFold(t, cs[1..])
  }

  /** After a successful fold, the pseudo tag of every terminal child maps to
      exactly that terminal, and tags not named by a terminal are untouched. */
  lemma {:induction false} PseudoFoldEntries(table: Table, cs: seq<string>)
    requires PseudoFold(table, cs).Ok?
    ensures var t := PseudoFold(table, cs).value;
      (forall i :: 0 <= i < |cs| && !IsNonterminal(cs[i]) ==> PseudoTag(cs[i]) in t && t[PseudoTag(cs[i])] == {"_" + cs[i]}) &&
      (forall x :: x in table ==> x in t) &&
      (forall x :: x in t && (forall i :: 0 <= i < |cs| && !IsNonterminal(cs[i]) ==> x != PseudoTag(cs[i])) ==> x in table && t[x] == table[x])
    decreases |cs|
  {
    if cs != [] {
      if IsNonterminal(cs[0]) {
        PseudoFoldEntries(table, cs[1..]);
        forall i | 0 <= i < |cs[1..]| ensures cs[1..][i] == cs[i + 1] { }
      } else {
        var t1 := AddPseudo(table, cs[0]).value;
        PseudoFoldEntries(t1, cs[1..]);
        var t := PseudoFold(t1, cs[1..]).value;
        assert PseudoFold(table, cs).value == t;
        // the first child's entry is either kept or re-checked later
        assert PseudoTag(cs[0]) in t1 && t1[PseudoTag(cs[0])] == {"_" + cs[0]};
        forall i | 0 <= i < |cs| && !IsNonterminal(cs[i])
          ensures PseudoTag(cs[i]) in t && t[PseudoTag(cs[i])] == {"_" + cs[i]}
        {
          if i > 0 {
            assert cs[1..][i - 1] == cs[i];
          } else if exists j :: 0 <= j < |cs[1..]| && !IsNonterminal(cs[1..][j]) && PseudoTag(cs[0]) == PseudoTag(cs[1..][j]) {
            var j :| 0 <= j < |cs[1..]| && !IsNonterminal(cs[1..][j]) && PseudoTag(cs[0]) == PseudoTag(cs[1..][j]);
            assert t[PseudoTag(cs[1..][j])] == {"_" + cs[1..][j]};
            PseudoFoldMonotone(t1, cs[1..], PseudoTag(cs[0]));
          }
        }
        forall x | x in t && (forall i :: 0 <= i < |cs| && !IsNonterminal(cs[i]) ==> x != PseudoTag(cs[i]))
          ensures x in table && t[x] == table[x]
        {
          assert x != PseudoTag(cs[0]);
          forall i | 0 <= i < |cs[1..]| && !IsNonterminal(cs[1..][i]) ensures x != PseudoTag(cs[1..][i]) {
            assert cs[1..][i] == cs[i + 1];
          }
        }
      }
    }
  }

  /** A fold never changes an entry that is already present. */
  lemma {:induction false} PseudoFoldMonotone(table: Table, cs: seq<string>, x: string)
    requires PseudoFold(table, cs).Ok? && x in table
    ensures x in PseudoFold(table, cs).value && PseudoFold(table, cs).value[x] == table[x]
    decreases |cs|
  {
    if cs != [] {
      if IsNonterminal(cs[0]) {
        PseudoFoldMonotone(table, cs[1..], x);
      } else {
        PseudoFoldMonotone(AddPseudo(table, cs[0]).value, cs[1..], x);
      }
    }
  }

  /** The state of `process_files` after some lines: the table and the
      emitted (tag, right-hand side) list. */
  datatype State = State(table: Table, rules: seq<(string, string)>)

  /** The body of the line loop (lt2grammar.py:86-120). */
  function StepLine(st: State, line: string): Result<State> {
    match ProcessRuleLine(line)
    case Fail(e) => Fail(e)
    case Ok(p) =>
      var pseudo := if |p.children| > 1 then PseudoFold(st.table, p.children) else Ok(st.table);
      match pseudo
      case Fail(e) => Fail(e)
      case Ok(t) =>
        var rhs := Join(RewriteChildren(p.children), " ");
        var old_rhs := if p.tag in t then t[p.tag] else {};
        Ok(State(t[p.tag := old_rhs + {rhs}], st.rules + [(p.tag, rhs)]))
  }

  /** The state after the given lines, or the first failure. */
  function Run(lines: seq<string>): Result<State>
    decreases |lines|
  {
    if lines == [] then Ok(State(map[], []))
    else
      match Run(lines[..|lines| - 1])
      case Fail(e) => Fail(e)
      case Ok(st) => StepLine(st, lines[|lines| - 1])
  }

  /** The rule line `line` contributes: its tag and its rewritten children
      joined by single spaces. */
  function RuleOf(line: string): (string, string)
    requires ProcessRuleLine(line).Ok?
  {
    var p := ProcessRuleLine(line).value;
    (p.tag, Join(RewriteChildren(p.children), " "))
  }

  /** Every emitted rule's right-hand side is recorded under its tag. */
  predicate Recorded(st: State) {
    forall k :: 0 <= k < |st.rules| ==> st.rules[k].0 in st.table && st.rules[k].1 in st.table[st.rules[k].0]
  }

  /** Entries only grow from one line to the next. */
  predicate Grows(t: Table, t': Table) {
    forall x :: x in t ==> x in t' && t[x] <= t'[x]
  }

  lemma StepLineGrows(st: State, line: string)
    requires StepLine(st, line).Ok?
    ensures ProcessRuleLine(line).Ok?
    ensures Grows(st.table, StepLine(st, line).value.table)
    ensures StepLine(st, line).value.rules == st.rules + [RuleOf(line)]
    ensures RuleOf(line).0 in StepLine(st, line).value.table
    ensures RuleOf(line).1 in StepLine(st, line).value.table[RuleOf(line).0]
  {
    var p := ProcessRuleLine(line).value;
    if |p.children| > 1 {
      forall x | x in st.table ensures x in PseudoFold(st.table, p.children).value && PseudoFold(st.table, p.children).value[x] == st.table[x] {
        PseudoFoldMonotone(st.table, p.children, x);
      }
    }
  }

  /** The run emits one rule per input line, the k-th being line k's own tag
      with its rewritten children; pseudo rules are never emitted. */
  lemma {:induction false} RunEmitsOneRulePerLine(lines: seq<string>)
    requires Run(lines).Ok?
    ensures |Run(lines).value.rules| == |lines|
    ensures forall k :: 0 <= k < |lines| ==> ProcessRuleLine(lines[k]).Ok? && Run(lines).value.rules[k] == RuleOf(lines[k])
    decreases |lines|
  {
    if lines != [] {
      var init := lines[..|lines| - 1];
      RunEmitsOneRulePerLine(init);
      var st0 := Run(init).value;
      StepLineGrows(st0, lines[|lines| - 1]);
      assert Run(lines) == StepLine(st0, lines[|lines| - 1]);
      var st := Run(lines).value;
      assert st.rules == st0.rules + [RuleOf(lines[|lines| - 1])];
      forall k | 0 <= k < |lines|
        ensures ProcessRuleLine(lines[k]).Ok? && st.rules[k] == RuleOf(lines[k])
      {
        if k < |init| {
          assert lines[k] == init[k];
          assert ProcessRuleLine(init[k]).Ok? && st0.rules[k] == RuleOf(init[k]);
          assert st.rules[k] == st0.rules[k];
        } else {
          assert k == |st0.rules|;
          assert st.rules[k] == RuleOf(lines[|lines| - 1]);
        }
      }
    }
  }

  /** Every emitted right-hand side is in its tag's table, so the tag's
      uniform probability is well defined and at most 1. */
  lemma {:induction false} RunRecorded(lines: seq<string>)
    requires Run(lines).Ok?
    ensures Recorded(Run(lines).value)
    decreases |lines|
  {
    if lines != [] {
      var init := lines[..|lines| - 1];
      RunRecorded(init);
      var st0 := Run(init).value;
      assert Run(lines) == StepLine(st0, lines[|lines| - 1]);
      StepLineGrows(st0, lines[|lines| - 1]);
      var st := Run(lines).value;
      forall k | 0 <= k < |st.rules|
        ensures st.rules[k].0 in st.table && st.rules[k].1 in st.table[st.rules[k].0]
      {
        if k < |st0.rules| {
          assert st.rules[k] == st0.rules[k];
        }
      }
    }
  }

  /** A tag's entry in the table, empty when the tag is absent. */
  function Entries(t: Table, tag: string): set<string> {
    if tag in t then t[tag] else {}
  }

  /** No tag is ever registered with an empty set of right-hand sides. */
  predicate NonEmpty(t: Table) {
    forall tag :: tag in t ==> t[tag] != {}
  }

  /** `_c` for every terminal child `c` of `cs` whose pseudo tag is `tag`. */
  function PseudoEntries(cs: seq<string>, tag: string): set<string>
    decreases |cs|
  {
    if cs == [] then {}
    else (if !IsNonterminal(cs[0]) && PseudoTag(cs[0]) == tag then {"_" + cs[0]} else {}) + PseudoEntries(cs[1..], tag)
  }

  lemma {:induction false} PseudoEntriesMembers(cs: seq<string>, tag: string, s: string)
    ensures s in PseudoEntries(cs, tag) <==>
      exists i :: 0 <= i < |cs| && !IsNonterminal(cs[i]) && PseudoTag(cs[i]) == tag && s == "_" + cs[i]
    decreases |cs|
  {
    if cs != [] {
      PseudoEntriesMembers(cs[1..], tag, s);
      if exists i :: 1 <= i < |cs| && !IsNonterminal(cs[i]) && PseudoTag(cs[i]) == tag && s == "_" + cs[i] {
        var i :| 1 <= i < |cs| && !IsNonterminal(cs[i]) && PseudoTag(cs[i]) == tag && s == "_" + cs[i];
        assert cs[1..][i - 1] == cs[i];
      }
    }
  }

  /** The right-hand sides one rule line adds under `tag`: its own rewritten
      right-hand side when `tag` is its tag, and the pseudo pre-terminal
      rules of its terminal children when it has more than one child. */
  function LineRhs(line: string, tag: string): set<string> {
    match ProcessRuleLine(line)
    case Fail(_) => {}
    case Ok(p) =>
      (if p.tag == tag then {Join(RewriteChildren(p.children), " ")} else {}) +
      (if |p.children| > 1 then PseudoEntries(p.children, tag) else {})
  }

  /** The distinct right-hand sides the given lines contribute under `tag`. */
  function RhsOf(lines: seq<string>, tag: string): set<string>
    decreases |lines|
  {
    if lines == [] then {}
    else RhsOf(lines[..|lines| - 1], tag) + LineRhs(lines[|lines| - 1], tag)
  }

  lemma {:induction false} RhsOfMembers(lines: seq<string>, tag: string, s: string)
    ensures s in RhsOf(lines, tag) <==> exists k :: 0 <= k < |lines| && s in LineRhs(lines[k], tag)
    decreases |lines|
  {
    if lines != [] {
      var init := lines[..|lines| - 1];
      RhsOfMembers(init, tag, s);
      if exists k :: 0 <= k < |init| && s in LineRhs(init[k], tag) {
        var k :| 0 <= k < |init| && s in LineRhs(init[k], tag);
        assert lines[k] == init[k];
      }
      if exists k :: 0 <= k < |lines| - 1 && s in LineRhs(lines[k], tag) {
        var k :| 0 <= k < |lines| - 1 && s in LineRhs(lines[k], tag);
        assert init[k] == lines[k];
      }
    }
  }

  /** A successful pseudo fold adds exactly the pseudo rules of `cs`. */
  lemma {:induction false} PseudoFoldTable(table: Table, cs: seq<string>)
    requires PseudoFold(table, cs).Ok? && NonEmpty(table)
    ensures NonEmpty(PseudoFold(table, cs).value)
    ensures forall tag :: Entries(PseudoFold(table, cs).value, tag) == Entries(table, tag) + PseudoEntries(cs, tag)
    decreases |cs|
  {
    if cs != [] {
      if IsNonterminal(cs[0]) {
        PseudoFoldTable(table, cs[1..]);
      } else {
        var t1 := AddPseudo(table, cs[0]).value;
        assert PseudoFold(table, cs) == PseudoFold(t1, cs[1..]);
        PseudoFoldTable(t1, cs[1..]);
        forall tag ensures Entries(t1, tag) == Entries(table, tag) + (if PseudoTag(cs[0]) == tag then {"_" + cs[0]} else {}) { }
      }
    }
  }

  /** One line adds exactly its `LineRhs` to every tag. */
  lemma StepLineTable(st: State, line: string)
    requires StepLine(st, line).Ok? && NonEmpty(st.table)
    ensures NonEmpty(StepLine(st, line).value.table)
    ensures forall tag :: Entries(StepLine(st, line).value.table, tag) == Entries(st.table, tag) + LineRhs(line, tag)
  {
    var p := ProcessRuleLine(line).value;
    if |p.children| > 1 {
      PseudoFoldTable(st.table, p.children);
    }
  }

  /** The table after a run, in both directions: a tag is registered iff the
      lines contribute some right-hand side to it, and its entry is exactly
      the set of right-hand sides they contribute. */
  lemma {:induction false} RunTable(lines: seq<string>)
    requires Run(lines).Ok?
    ensures NonEmpty(Run(lines).value.table)
    ensures forall tag :: Entries(Run(lines).value.table, tag) == RhsOf(lines, tag)
    ensures forall tag :: tag in Run(lines).value.table <==> RhsOf(lines, tag) != {}
    decreases |lines|
  {
    if lines != [] {
      var init := lines[..|lines| - 1];
      RunTable(init);
      assert Run(lines) == StepLine(Run(init).value, lines[|lines| - 1]);
      StepLineTable(Run(init).value, lines[|lines| - 1]);
    }
    var t := Run(lines).value.table;
    forall tag ensures tag in t <==> RhsOf(lines, tag) != {} {
      assert Entries(t, tag) == RhsOf(lines, tag);
    }
  }

  /** One output line, before the `%e` rendering of its probability. */
  datatype Emitted = Emitted(tag: string, rhs: string, prob: real)

  /** The uniform probability of a tag's right-hand sides. */
  function Uniform(table: Table, tag: string): (p: real)
    requires tag in table && |table[tag]| > 0
    ensures 0.0 < p <= 1.0
    ensures p * (|table[tag]| as real) == 1.0
  {
    1.0 / (|table[tag]| as real)
  }

  /** `process_files`: the line loop, then the probability and output
      loops.  The result is the specification's run: one output per input
      line, in input order, each with its tag's uniform probability. */
  method ProcessFiles(lines: seq<string>) returns (out: Result<seq<Emitted>>)
    ensures out.Ok? <==> Run(lines).Ok?
    ensures out.Ok? ==> |out.value| == |lines|
    ensures out.Ok? ==> forall k :: 0 <= k < |lines| ==>
      ProcessRuleLine(lines[k]).Ok? &&
      (out.value[k].tag, out.value[k].rhs) == RuleOf(lines[k]) &&
      var st := Run(lines).value;
      out.value[k].tag in st.table && out.value[k].rhs in st.table[out.value[k].tag] &&
      out.value[k].prob == Uniform(st.table, out.value[k].tag) &&
      out.value[k].rhs in RhsOf(lines, out.value[k].tag) &&
      out.value[k].prob == 1.0 / (|RhsOf(lines, out.value[k].tag)| as real)
  {
    var ruleHash: Table := map[];
    var rules: seq<(string, string)> := [];
    var lineId := 0;
    while lineId < |lines|
      invariant 0 <= lineId <= |lines|
      invariant Run(lines[..lineId]) == Ok(State(ruleHash, rules))
    {
      assert lines[..lineId + 1][..lineId] == lines[..lineId];
      assert lines[..lineId + 1][lineId] == lines[lineId];
      var next := ProcessLine(ruleHash, rules, lines[lineId]);
      if next.Fail? {
        FailurePersists(lines, lineId + 1);
        return Fail(next.reason);
      }
      ruleHash, rules := next.value.table, next.value.rules;
      lineId := lineId + 1;
    }
    assert lines[..lineId] == lines;
    RunEmitsOneRulePerLine(lines);
    RunRecorded(lines);
    RunTable(lines);
    forall tag | tag in ruleHash ensures ruleHash[tag] == RhsOf(lines, tag) {
      assert Entries(ruleHash, tag) == RhsOf(lines, tag);
    }
    var emitted := Emit(ruleHash, rules);
    return Ok(emitted);
  }

  /** One pass of the line loop (lt2grammar.py:86-122): the child loop,
      then the rewritten right-hand side is added to the tag's table and to
      `rules`. */
  method ProcessLine(table0: Table, rules0: seq<(string, string)>, line: string) returns (r: Result<State>)
    ensures r == StepLine(State(table0, rules0), line)
  {
    var parsed := ProcessRuleLine(line);
    if parsed.Fail? {
      return Fail(parsed.reason);
    }
    var tag := parsed.value.tag;
    var children := parsed.value.children;
    var rewritten := RewriteLineChildren(table0, children);
    if rewritten.Fail? {
      return Fail(rewritten.reason);
    }
    var (ruleHash, newChildren) := rewritten.value;
    var rhs := Join(newChildren, " ");
    ghost var pseudoTable := ruleHash;
    if tag !in ruleHash {
      ruleHash := ruleHash[tag := {}];
    }
    ruleHash := ruleHash[tag := ruleHash[tag] + {rhs}];
    assert ruleHash == pseudoTable[tag := (if tag in pseudoTable then pseudoTable[tag] else {}) + {rhs}];
    return Ok(State(ruleHash, rules0 + [(tag, rhs)]));
  }

  /** The child loop (lt2grammar.py:92-111): the rewritten children, and the
      table with the pseudo pre-terminals of a multi-symbol right-hand side
      registered, or the failed assertion. */
  method RewriteLineChildren(table0: Table, children: seq<string>) returns (r: Result<(Table, seq<string>)>)
    ensures r.Ok? <==> (|children| <= 1 || PseudoFold(table0, children).Ok?)
    ensures r.Fail? ==> PseudoFold(table0, children) == Fail(r.reason)
    ensures r.Ok? ==> r.value.1 == RewriteChildren(children)
    ensures r.Ok? ==> r.value.0 == if |children| > 1 then PseudoFold(table0, children).value else table0
  {
    var numChildren := |children|;
    var newChildren: seq<string> := [];
    var ruleHash := table0;
    var i := 0;
    while i < numChildren
      invariant 0 <= i <= numChildren
      invariant newChildren == RewriteChildren(children)[..i]
      invariant numChildren > 1 ==> PseudoFold(table0, children) == PseudoFold(ruleHash, children[i..])
      invariant numChildren <= 1 ==> ruleHash == table0
    {
      var c := children[i];
      assert children[i..][0] == c;
      assert children[i..][1..] == children[i + 1..];
      if IsNonterminal(c) {
        newChildren := newChildren + [c];
      } else {
        var newChild := "_" + c;
        if numChildren > 1 {
          var childTag := PseudoTag(c);
          newChildren := newChildren + [childTag];
          if childTag !in ruleHash {
            ruleHash := ruleHash[childTag := {newChild}];
          } else if !(newChild in ruleHash[childTag] && |ruleHash[childTag]| == 1) {
            return Fail("pseudo tag already used for another terminal");
          }
        } else {
          newChildren := newChildren + [newChild];
        }
      }
      i := i + 1;
    }
    assert newChildren == RewriteChildren(children);
    assert children[i..] == [];
    return Ok((ruleHash, newChildren));
  }

  /** The probability loop and the output loop (lt2grammar.py:127-140): each
      tag's right-hand sides get 1 / (their number), and every recorded rule
      is emitted in order with its tag's value. */
  method Emit(ruleHash: Table, rules: seq<(string, string)>) returns (emitted: seq<Emitted>)
    requires Recorded(State(ruleHash, rules))
    ensures |emitted| == |rules|
    ensures forall j :: 0 <= j < |rules| ==>
      emitted[j] == Emitted(rules[j].0, rules[j].1, Uniform(ruleHash, rules[j].0))
  {
    var prob: map<string, real> := map[];
    var pending := ruleHash.Keys;
    while pending != {}
      invariant pending <= ruleHash.Keys
      invariant forall t :: t in ruleHash && t !in pending ==> t in prob && (|ruleHash[t]| > 0 ==> prob[t] == 1.0 / (|ruleHash[t]| as real))
      decreases |pending|
    {
      var t :| t in pending;
      if |ruleHash[t]| > 0 {
        prob := prob[t := 1.0 / (|ruleHash[t]| as real)];
      } else {
        prob := prob[t := 0.0];
      }
      pending := pending - {t};
    }
    emitted := [];
    var k := 0;
    while k < |rules|
      invariant 0 <= k <= |rules|
      invariant |emitted| == k
      invariant forall j :: 0 <= j < k ==> emitted[j] == Emitted(rules[j].0, rules[j].1, Uniform(ruleHash, rules[j].0))
    {
      var tag := rules[k].0;
      emitted := emitted + [Emitted(tag, rules[k].1, prob[tag])];
      k := k + 1;
    }
  }

  /** A failing line makes the whole run fail. */
  lemma {:induction false} FailurePersists(lines: seq<string>, n: nat)
    requires 1 <= n <= |lines|
    requires Run(lines[..n - 1]).Ok? ==> StepLine(Run(lines[..n - 1]).value, lines[n - 1]).Fail?
    ensures Run(lines).Fail?
    decreases |lines| - n
  {
    assert lines[..n][..n - 1] == lines[..n - 1];
    assert lines[..n][n - 1] == lines[n - 1];
    assert Run(lines[..n]).Fail?;
    if n < |lines| {
      assert lines[..n + 1][..n] == lines[..n];
      FailurePersists(lines, n + 1);
    } else {
      assert lines[..n] == lines;
    }
  }
}
