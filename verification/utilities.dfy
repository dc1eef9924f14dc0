/** `util.Util` and `utility.Utility`: the table of binomial coefficients,
    nonterminals in numbering order, filling score arrays, sorting rules
    into their kinds, and writing one sentence's per-word results.  The
    two classes share the table, the ordering and the fill; each is
    modelled once here. */
module Utilities {
  import opened Wrappers
  import opened Text
  import opened Rules
  import opened EarleyParsers

  // ---------------------------------------------------------------------
  // Binomial coefficients

  function Fact(n: nat): (f: nat)
    ensures f >= 1
  {
    if n == 0 then 1 else n * Fact(n - 1)
  }

  /** C(n, i) by Pascal's rule: C(n, 0) = C(n, n) = 1 and each inner entry
      is the sum of the two above it. */
  function Pascal(n: nat, i: nat): nat
    requires i <= n
  {
    if i == 0 || i == n then 1 else Pascal(n - 1, i) + Pascal(n - 1, i - 1)
  }

  /** Pascal's rule gives the number of ways of choosing `i` of `n`:
      C(n, i) * i! * (n - i)! = n!. */
  lemma {:induction false} PascalFactorial(n: nat, i: nat)
    requires i <= n
    ensures Pascal(n, i) * (Fact(i) * Fact(n - i)) == Fact(n)
  {
    if i == 0 {
      assert Fact(n - i) == Fact(n);
    } else if i == n {
      assert Fact(n - i) == 1;
    } else {
      PascalFactorial(n - 1, i);
      PascalFactorial(n - 1, i - 1);
      PascalArith(n, i, Pascal(n - 1, i), Pascal(n - 1, i - 1), Fact(n - 1),
                  Fact(i - 1), Fact(n - 1 - i));
    }
  }

  /** The arithmetic of the inductive step, with the factorials named. */
  lemma PascalArith(n: int, i: int, a: int, b: int, f: int, fi1: int, fni1: int)
    requires a * ((i * fi1) * fni1) == f
    requires b * (fi1 * ((n - i) * fni1)) == f
    ensures (a + b) * ((i * fi1) * ((n - i) * fni1)) == n * f
  {
    calc {
      (a + b) * ((i * fi1) * ((n - i) * fni1));
      a * ((i * fi1) * fni1) * (n - i) + b * (fi1 * ((n - i) * fni1)) * i;
      f * (n - i) + f * i;
    }
  }

  /** Java `int` addition is addition modulo 2^32: wrapping the operands
      first does not change the wrapped sum. */
  lemma WrapAdd(a: int, b: int)
    ensures Wrap32(Wrap32(a) + Wrap32(b)) == Wrap32(a + b)
  {
    var m := 0x1_0000_0000;
    var h := 0x8000_0000;
    var ka := (a + h) / m;
    var kb := (b + h) / m;
    assert Wrap32(a) == a - ka * m;
    assert Wrap32(b) == b - kb * m;
    WrapShift(a + b, -(ka + kb));
    assert Wrap32(a) + Wrap32(b) == (a + b) + (-(ka + kb)) * m;
  }

  lemma WrapShift(x: int, k: int)
    ensures Wrap32(x + k * 0x1_0000_0000) == Wrap32(x)
  {
    var m := 0x1_0000_0000;
    var h := 0x8000_0000;
    var q := (x + h) / m;
    var r := (x + h) % m;
    assert x + h == q * m + r && 0 <= r < m;
    assert x + k * m + h == (q + k) * m + r;
    assert (x + k * m + h) % m == r;
  }

  /** An entry of the table as Java's `int` holds it: C(n, i) modulo 2^32
      in the signed range, zero above the diagonal. */
  function PascalEntry(n: nat, i: nat): (v: int)
    ensures IsInt32(v)
    ensures i <= n && IsInt32(Pascal(n, i)) ==> v == Pascal(n, i)
  {
    if i <= n then Wrap32(Pascal(n, i)) else 0
  }

  /** The table before the inner entries are summed: ones on the first
      column and the diagonal. */
  function Seeded(n: nat, i: nat): int {
    if i <= n && (i == 0 || i == n) then 1 else 0
  }

  /** `permutationMatrix(size)`: the (size+1) x (size+1) table of binomial
      coefficients C(n, i), built row by row with Pascal's rule in `int`
      arithmetic.  Each entry is exact while C(n, i) fits in an `int`,
      which holds for every row up to 33. */
  method PermutationMatrix(size: int) returns (c: array2<int>)
    requires size + 1 >= 0
    ensures c.Length0 == size + 1 && c.Length1 == size + 1
    ensures forall n, i :: 0 <= n <= size && 0 <= i <= size ==> c[n, i] == PascalEntry(n, i)
  {
    c := new int[size + 1, size + 1]((_, _) => 0);
    var n := 0;
    while n <= size
      invariant 0 <= n <= size + 1
      invariant forall r, i :: 0 <= r <= size && 0 <= i <= size ==> c[r, i] == if r < n then Seeded(r, i) else 0
    {
      c[n, 0] := 1;
      c[n, n] := 1;
      n := n + 1;
    }
    n := 2;
    while n <= size
      invariant 2 <= n <= size + 1 || (n == 2 && size < 2)
      invariant forall r, i :: 0 <= r <= size && 0 <= i <= size ==> c[r, i] == if r < n then PascalEntry(r, i) else Seeded(r, i)
    {
      FillRow(c, n);
      n := n + 1;
    }
  }

  /** The inner entries of row `n`, from the row above. */
  method FillRow(c: array2<int>, n: int)
    requires 2 <= n < c.Length0 && c.Length0 == c.Length1
    requires forall r, i :: 0 <= r < c.Length0 && 0 <= i < c.Length1 ==> c[r, i] == if r < n then PascalEntry(r, i) else Seeded(r, i)
    modifies c
    ensures forall r, i :: 0 <= r < c.Length0 && 0 <= i < c.Length1 ==> c[r, i] == if r <= n then PascalEntry(r, i) else Seeded(r, i)
  {
    for i := 1 to n
      invariant forall r, j :: 0 <= r < c.Length0 && 0 <= j < c.Length1 ==>
        c[r, j] == if r < n || (r == n && j < i) then PascalEntry(r, j) else Seeded(r, j)
    {
      WrapAdd(Pascal(n - 1, i), Pascal(n - 1, i - 1));
      c[n, i] := Wrap32(c[n - 1, i] + c[n - 1, i - 1]);
    }
  }

  // ---------------------------------------------------------------------
  // Nonterminals in numbering order

  /** `getNonterminals(nonterminalMap)`: the keys, each once, ordered by
      increasing value. */
  method GetNonterminals(nonterminalMap: map<int, int>) returns (result: seq<int>)
    ensures forall k :: k in nonterminalMap <==> k in result
    ensures forall i :: 0 <= i < |result| ==> result[i] in nonterminalMap
    ensures forall i, j :: 0 <= i < j < |result| ==> result[i] != result[j]
    ensures forall i, j :: 0 <= i < j < |result| ==> nonterminalMap[result[i]] <= nonterminalMap[result[j]]
  {
    result := [];
    var todo := nonterminalMap.Keys;
    while todo != {}
      invariant todo <= nonterminalMap.Keys
      invariant forall k :: k in result <==> k in nonterminalMap && k !in todo
      invariant forall i :: 0 <= i < |result| ==> result[i] in nonterminalMap
      invariant forall i, j :: 0 <= i < j < |result| ==> result[i] != result[j]
      invariant forall i, j :: 0 <= i < j < |result| ==> nonterminalMap[result[i]] <= nonterminalMap[result[j]]
      decreases |todo|
    {
      NoMember(todo);
      var k :| k in todo;
      result := InsertByValue(nonterminalMap, result, k);
      todo := todo - {k};
    }
  }

  /** One key put after every key whose value is not larger. */
  method InsertByValue(m: map<int, int>, sorted: seq<int>, k: int) returns (r: seq<int>)
    requires k in m && k !in sorted
    requires forall i :: 0 <= i < |sorted| ==> sorted[i] in m
    requires forall i, j :: 0 <= i < j < |sorted| ==> sorted[i] != sorted[j]
    requires forall i, j :: 0 <= i < j < |sorted| ==> m[sorted[i]] <= m[sorted[j]]
    ensures forall x :: x in r <==> x in sorted || x == k
    ensures forall i :: 0 <= i < |r| ==> r[i] in m
    ensures forall i, j :: 0 <= i < j < |r| ==> r[i] != r[j]
    ensures forall i, j :: 0 <= i < j < |r| ==> m[r[i]] <= m[r[j]]
  {
    var p := 0;
    while p < |sorted| && m[sorted[p]] <= m[k]
      invariant 0 <= p <= |sorted|
      invariant forall i :: 0 <= i < p ==> m[sorted[i]] <= m[k]
    {
      p := p + 1;
    }
    r := sorted[..p] + [k] + sorted[p..];
    InsertAtKeepsKeys(m, sorted, k, p);
    InsertAtKeepsOrder(m, sorted, k, p);
  }

  /** Putting a new key at `p` gives the old keys and the new one, each once. */
  lemma InsertAtKeepsKeys(m: map<int, int>, sorted: seq<int>, k: int, p: nat)
    requires k in m && k !in sorted && p <= |sorted|
    requires forall i :: 0 <= i < |sorted| ==> sorted[i] in m
    requires forall i, j :: 0 <= i < j < |sorted| ==> sorted[i] != sorted[j]
    ensures var r := sorted[..p] + [k] + sorted[p..];
      (forall x :: x in r <==> x in sorted || x == k) &&
      (forall i :: 0 <= i < |r| ==> r[i] in m) &&
      (forall i, j :: 0 <= i < j < |r| ==> r[i] != r[j])
  {
    var r := sorted[..p] + [k] + sorted[p..];
    assert forall i :: 0 <= i < |r| ==> r[i] == if i < p then sorted[i] else if i == p then k else sorted[i - 1];
    forall x ensures x in r <==> x in sorted || x == k {
      if x in sorted {
        var i :| 0 <= i < |sorted| && sorted[i] == x;
        assert r[if i < p then i else i + 1] == x;
      }
    }
  }

  /** Putting a key at the first position whose value exceeds its own keeps
      the values non-decreasing. */
  lemma InsertAtKeepsOrder(m: map<int, int>, sorted: seq<int>, k: int, p: nat)
    requires k in m && p <= |sorted|
    requires forall i :: 0 <= i < |sorted| ==> sorted[i] in m
    requires forall i, j :: 0 <= i < j < |sorted| ==> m[sorted[i]] <= m[sorted[j]]
    requires forall i :: 0 <= i < p ==> m[sorted[i]] <= m[k]
    requires p < |sorted| ==> m[k] < m[sorted[p]]
    ensures var r := sorted[..p] + [k] + sorted[p..];
      forall i, j :: 0 <= i < j < |r| ==> m[r[i]] <= m[r[j]]
  {
    var r := sorted[..p] + [k] + sorted[p..];
    assert forall i :: 0 <= i < |r| ==> r[i] == if i < p then sorted[i] else if i == p then k else sorted[i - 1];
  }

  // ---------------------------------------------------------------------
  // Filling arrays

  /** `init(dl, value)` on a one-dimensional array. */
  method Init(dl: array<real>, value: real)
    modifies dl
    ensures forall i :: 0 <= i < dl.Length ==> dl[i] == value
  {
    for i := 0 to dl.Length
      invariant forall k :: 0 <= k < i ==> dl[k] == value
    {
      dl[i] := value;
    }
  }

  /** `init(dl, value)` on an array of rows; rows may be shared, and a
      shared row is filled like any other. */
  method InitRows(dl: array<array<real>>, value: real)
    modifies set i | 0 <= i < dl.Length :: dl[i]
    ensures forall i, j :: 0 <= i < dl.Length && 0 <= j < dl[i].Length ==> dl[i][j] == value
  {
    for i := 0 to dl.Length
      invariant forall k, j :: 0 <= k < i && 0 <= j < dl[k].Length ==> dl[k][j] == value
    {
      Init(dl[i], value);
    }
  }

  // ---------------------------------------------------------------------
  // Rules by kind

  /** The collections `categorizeAllRules` fills: tag rules, rules with
      several words on the right, and the lexical maps from tags to words
      with their probabilities and from words to (word, tag) pairs. */
  datatype Categories = Categories(
    tagRules: seq<ProbRule>,
    extendedRules: seq<ProbRule>,
    tag2wordsMap: map<int, map<int, real>>,
    word2tagsMap: map<int, set<(int, int)>>)

  /** A single-word terminal rule: a tag and one word. */
  predicate IsLexical(pr: ProbRule) {
    pr.rule.TerminalRule? && |pr.rule.kids| == 1
  }

  /** The rules `categorizeAllRules` accepts: tag rules and terminal rules
      with at least one word. */
  predicate IsCategorizable(pr: ProbRule) {
    pr.rule.TagRule? || (pr.rule.TerminalRule? && |pr.rule.kids| >= 1)
  }

  /** The (tag, word) pair is already in the lexical maps. */
  predicate Known(c: Categories, tag: int, word: int) {
    (tag in c.tag2wordsMap && word in c.tag2wordsMap[tag]) ||
    (word in c.word2tagsMap && (word, tag) in c.word2tagsMap[word])
  }

  /** One rule of the loop; the assertions become failures. */
  function Place(c: Categories, pr: ProbRule): (r: Result<Categories>)
    ensures r.Ok? <==> IsCategorizable(pr) && !(IsLexical(pr) && Known(c, pr.rule.mother, pr.rule.kids[0]))
  {
    var rule := pr.rule;
    if rule.TagRule? then Ok(c.(tagRules := c.tagRules + [pr]))
    else if !rule.TerminalRule? then Fail("rule is neither a tag rule nor a terminal rule")
    else if |rule.kids| > 1 then Ok(c.(extendedRules := c.extendedRules + [pr]))
    else if |rule.kids| == 0 then Fail("terminal rule without children")
    else
      var iT := rule.mother;
      var iW := rule.kids[0];
      var counter := if iT in c.tag2wordsMap then c.tag2wordsMap[iT] else map[];
      var tagged := if iW in c.word2tagsMap then c.word2tagsMap[iW] else {};
      if iW in counter then Fail("word already listed for the tag")
      else if (iW, iT) in tagged then Fail("tag already listed for the word")
      else Ok(c.(tag2wordsMap := c.tag2wordsMap[iT := counter[iW := pr.prob]],
                 word2tagsMap := c.word2tagsMap[iW := tagged + {(iW, iT)}]))
  }

  /** The whole loop, stopping at the first failure. */
  function PlaceAll(c: Categories, prs: seq<ProbRule>): Result<Categories> {
    if prs == [] then Ok(c)
    else
      var r := PlaceAll(c, prs[..|prs| - 1]);
      if r.Fail? then r else Place(r.value, prs[|prs| - 1])
  }

  /** `categorizeAllRules(allRules, tagRules, extendedRules, tag2wordsMap,
      word2tagsMap)`, adding to the collections it is given. */
  method CategorizeAllRules(allRules: seq<ProbRule>, c: Categories) returns (r: Result<Categories>)
    ensures r == PlaceAll(c, allRules)
  {
    var cur := c;
    for i := 0 to |allRules|
      invariant PlaceAll(c, allRules[..i]) == Ok(cur)
    {
      assert allRules[..i + 1][..i] == allRules[..i];
      var step := Place(cur, allRules[i]);
      if step.Fail? {
        r := step;
        FailStays(c, allRules, i + 1);
        return;
      }
      cur := step.value;
    }
    assert allRules[..|allRules|] == allRules;
    r := Ok(cur);
  }

  /** A failure stops the loop: later rules do not undo it. */
  lemma {:induction false} FailStays(c: Categories, prs: seq<ProbRule>, n: nat)
    requires n <= |prs| && PlaceAll(c, prs[..n]).Fail?
    ensures PlaceAll(c, prs) == PlaceAll(c, prs[..n])
    decreases |prs| - n
  {
    if n < |prs| {
      assert prs[..n + 1][..n] == prs[..n];
      FailStays(c, prs, n + 1);
    } else {
      assert prs[..n] == prs;
    }
  }

  /** The rules of one kind, in order. */
  function TagRulesOf(prs: seq<ProbRule>): seq<ProbRule> {
    if prs == [] then []
    else TagRulesOf(prs[..|prs| - 1]) + (if prs[|prs| - 1].rule.TagRule? then [prs[|prs| - 1]] else [])
  }

  function ExtendedRulesOf(prs: seq<ProbRule>): seq<ProbRule> {
    if prs == [] then []
    else
      var pr := prs[|prs| - 1];
      ExtendedRulesOf(prs[..|prs| - 1]) + (if pr.rule.TerminalRule? && |pr.rule.kids| > 1 then [pr] else [])
  }

  /** On success, the tag rules and the multi-word rules are appended in
      their input order, and the lexical maps are only ever extended. */
  lemma {:induction false} PlaceAllSorts(c: Categories, prs: seq<ProbRule>)
    requires PlaceAll(c, prs).Ok?
    ensures PlaceAll(c, prs).value.tagRules == c.tagRules + TagRulesOf(prs)
    ensures PlaceAll(c, prs).value.extendedRules == c.extendedRules + ExtendedRulesOf(prs)
    ensures forall t, w :: Known(c, t, w) ==> Known(PlaceAll(c, prs).value, t, w)
  {
    if prs != [] {
      PlaceAllSorts(c, prs[..|prs| - 1]);
    }
  }

  /** On success every rule is a tag rule or a terminal rule with words,
      and each single-word rule is entered in both lexical maps with its
      probability. */
  lemma {:induction false} PlaceAllLexicon(c: Categories, prs: seq<ProbRule>)
    requires PlaceAll(c, prs).Ok?
    ensures forall i :: 0 <= i < |prs| ==> IsCategorizable(prs[i])
    ensures forall i :: 0 <= i < |prs| && IsLexical(prs[i]) ==>
      var t, w := prs[i].rule.mother, prs[i].rule.kids[0];
      var out := PlaceAll(c, prs).value;
      t in out.tag2wordsMap && w in out.tag2wordsMap[t] && out.tag2wordsMap[t][w] == prs[i].prob &&
      w in out.word2tagsMap && (w, t) in out.word2tagsMap[w]
  {
    if prs != [] {
      var init := prs[..|prs| - 1];
      PlaceAllLexicon(c, init);
      PlaceAllSorts(c, init);
      var mid := PlaceAll(c, init).value;
      var pr := prs[|prs| - 1];
      assert Place(mid, pr).Ok?;
      forall i | 0 <= i < |init| && IsLexical(init[i])
        ensures var t, w := init[i].rule.mother, init[i].rule.kids[0];
          var out := PlaceAll(c, prs).value;
          t in out.tag2wordsMap && w in out.tag2wordsMap[t] && out.tag2wordsMap[t][w] == init[i].prob &&
          w in out.word2tagsMap && (w, t) in out.word2tagsMap[w]
      {
        var t, w := init[i].rule.mother, init[i].rule.kids[0];
        assert Known(mid, t, w);
      }
    }
  }

  /** A rule of any other kind makes the whole call fail. */
  lemma {:induction false} PlaceAllRejects(c: Categories, prs: seq<ProbRule>, i: nat)
    requires i < |prs| && !IsCategorizable(prs[i])
    ensures PlaceAll(c, prs).Fail?
  {
    if PlaceAll(c, prs).Ok? {
      PlaceAllLexicon(c, prs);
    }
  }

  // ---------------------------------------------------------------------
  // Per-word output

  /** One `token value` line per token. */
  function ResultLines(tokens: seq<string>, results: seq<real>, show: real -> string): (lines: seq<string>)
    requires |results| >= |tokens|
    ensures |lines| == |tokens|
    ensures forall i :: 0 <= i < |tokens| ==> lines[i] == tokens[i] + " " + show(results[i])
  {
    seq(|tokens|, i requires 0 <= i < |tokens| => tokens[i] + " " + show(results[i]))
  }

  /** `outputSentenceResult(sentenceString, outWriter, results)`: the text
      written, one `token value` line per whitespace-separated token and
      then `#! Done`.  Fewer results than tokens fail, as `results.get`
      would; `show` is Java's formatting of a double. */
  method OutputSentenceResult(sentenceString: string, results: seq<real>, show: real -> string)
    returns (r: Result<string>)
    ensures r.Ok? <==> |results| >= |JavaSplitOnSpaceRuns(sentenceString)|
    ensures r.Ok? ==> r.value == EachFollowedBy(ResultLines(JavaSplitOnSpaceRuns(sentenceString), results, show) + ["#! Done"], "\n")
  {
    var sentence := JavaSplitOnSpaceRuns(sentenceString);
    var out := "";
    for i := 0 to |sentence|
      invariant i <= |results| ==> out == EachFollowedBy(ResultLines(sentence[..i], results, show), "\n")
    {
      if i >= |results| {
        return Fail("fewer results than words");
      }
      assert ResultLines(sentence[..i + 1], results, show) == ResultLines(sentence[..i], results, show) + [sentence[i] + " " + show(results[i])];
      EachFollowedBySnoc(ResultLines(sentence[..i], results, show), sentence[i] + " " + show(results[i]), "\n");
      out := out + sentence[i] + " " + show(results[i]) + "\n";
    }
    if |sentence| > |results| {
      return Fail("fewer results than words");
    }
    assert sentence[..|sentence|] == sentence;
    EachFollowedBySnoc(ResultLines(sentence, results, show), "#! Done", "\n");
    r := Ok(out + "#! Done\n");
  }

  /** Read back line by line, the output gives each token with its value
      and then the end marker, provided no formatted value holds a line
      break. */
  lemma OutputLines(sentenceString: string, results: seq<real>, show: real -> string)
    requires |results| >= |JavaSplitOnSpaceRuns(sentenceString)|
    requires forall i :: 0 <= i < |results| ==> '\n' !in show(results[i])
    ensures var lines := ResultLines(JavaSplitOnSpaceRuns(sentenceString), results, show) + ["#! Done"];
      SplitOnChar(EachFollowedBy(lines, "\n"), '\n') == lines + [""]
  {
    var toks := JavaSplitOnSpaceRuns(sentenceString);
    var lines := ResultLines(toks, results, show) + ["#! Done"];
    var all := lines + [""];
    JoinAround(lines, "", [], "\n");
    assert lines + [""] + [] == all;
    assert [""] + [] == [""];
    assert Join([""], "\n") == "";
    assert EachFollowedBy(lines, "\n") == Join(all, "\n");
    forall k | 0 <= k < |all| ensures '\n' !in all[k] {
      if k < |toks| {
        assert NoSpace(toks[k]);
        assert IsSpace('\n');
      }
    }
    SplitOnCharJoin(all, '\n');
    assert "\n" == ['\n'];
  }
}
