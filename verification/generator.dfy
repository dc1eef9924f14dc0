/** `parser.EarleyParserGenerator`: the options and measure sets derived
    from the command-line strings before the grammar is read, and the check
    on lexical probabilities that follows reading it.  The static fields of
    `EarleyParserOptions` are the fields of a `ParserOptions` object. */
module ParserGenerators {
  import opened Wrappers
  import opened Text
  import opened Indexing
  import opened Rules
  import opened RuleTable
  import opened MeasureTables

  const ViterbiOpt: string := "viterbi"
  const MarginalOpt: string := "marginal"
  const SocialMarginalOpt: string := "socialmarginal"
  /** The start symbol, numbered before any other tag. */
  const OrigSymbol: string := ""

  /** `String.equalsIgnoreCase` on ASCII text. */
  predicate EqualsIgnoreCase(a: string, b: string) {
    |a| == |b| && forall i :: 0 <= i < |a| ==> ToUpperAscii(a[i]) == ToUpperAscii(b[i])
  }

  // ---------------------------------------------------------------------
  // The measure list

  /** Length of the whitespace run that ends `s`. */
  function TrailingSpaces(s: string): (k: nat)
    ensures k <= |s|
    ensures forall i :: |s| - k <= i < |s| ==> IsSpace(s[i])
    ensures k < |s| ==> !IsSpace(s[|s| - k - 1])
  {
    if |s| > 0 && IsSpace(s[|s| - 1]) then 1 + TrailingSpaces(s[..|s| - 1]) else 0
  }

  /** The pieces between commas with the whitespace next to each comma
      removed: the end of every piece but the last and the start of every
      piece but the first. */
  function TrimAroundCommas(pieces: seq<string>): (r: seq<string>)
    ensures |r| == |pieces|
    ensures forall i :: 0 < i < |r| && r[i] != "" ==> !IsSpace(r[i][0])
    ensures forall i :: 0 <= i < |r| - 1 && r[i] != "" ==> !IsSpace(r[i][|r[i]| - 1])
    ensures forall i :: 0 <= i < |r| && NoSpace(pieces[i]) ==> r[i] == pieces[i]
  {
    var r := seq(|pieces|, i requires 0 <= i < |pieces| => Trimmed(pieces, i));
    assert forall i :: 0 <= i < |r| ==> r[i] == Trimmed(pieces, i);
    r
  }

  /** Piece `i` with the whitespace next to its commas removed. */
  function Trimmed(pieces: seq<string>, i: int): (t: string)
    requires 0 <= i < |pieces|
    ensures i > 0 && t != "" ==> !IsSpace(t[0])
    ensures i < |pieces| - 1 && t != "" ==> !IsSpace(t[|t| - 1])
    ensures NoSpace(pieces[i]) ==> t == pieces[i]
  {
    var p := pieces[i];
    var q := if i < |pieces| - 1 then p[..|p| - TrailingSpaces(p)] else p;
    assert NoSpace(p) && |p| > 0 ==> !IsSpace(p[|p| - 1]);
    assert NoSpace(p) ==> q == p;
    if i > 0 then
      var t := q[LeadingSpaces(q)..];
      assert t != "" ==> t[|t| - 1] == q[|q| - 1];
      t
    else q
  }

  /** Java `s.split("\\s*,\\s*")`: the input itself when it has no comma,
      otherwise the trimmed pieces without the trailing empty ones. */
  function SplitMeasures(s: string): (r: seq<string>)
    ensures forall k :: 0 <= k < |r| ==> ',' !in r[k]
  {
    if ',' !in s then [s]
    else
      var pieces := SplitOnChar(s, ',');
      var trimmed := TrimAroundCommas(pieces);
      assert forall k :: 0 <= k < |trimmed| ==> ',' !in trimmed[k] by {
        forall k | 0 <= k < |trimmed| ensures ',' !in trimmed[k] {
          var p := pieces[k];
          var q := if k < |pieces| - 1 then p[..|p| - TrailingSpaces(p)] else p;
          assert forall j :: 0 <= j < |q| ==> q[j] == p[j];
          assert forall j :: 0 <= j < |trimmed[k]| ==> trimmed[k][j] in q;
        }
      }
      DropTrailingEmpty(trimmed)
  }

  /** A comma-separated list of measure names, without spaces, splits back
      into those names. */
  lemma MeasureListRoundTrip(names: seq<string>)
    requires |names| >= 1
    requires forall k :: 0 <= k < |names| ==> names[k] != "" && NoSpace(names[k]) && ',' !in names[k]
    ensures SplitMeasures(Join(names, [','])) == names
  {
    if |names| == 1 {
      assert Join(names, [',']) == names[0];
    } else {
      CommaInJoin(names);
      SplitOnCharJoin(names, ',');
      TrimKeeps(names);
      assert names[|names| - 1] != "";
    }
  }

  lemma CommaInJoin(names: seq<string>)
    requires |names| >= 2
    ensures ',' in Join(names, [','])
  {
    var s := Join(names, [',']);
    assert s == names[0] + [','] + Join(names[1..], [',']);
    assert s[|names[0]|] == ',';
  }

  lemma TrimKeeps(pieces: seq<string>)
    requires forall k :: 0 <= k < |pieces| ==> NoSpace(pieces[k])
    ensures TrimAroundCommas(pieces) == pieces
  {
    var r := TrimAroundCommas(pieces);
    assert forall k :: 0 <= k < |pieces| ==> r[k] == pieces[k];
  }

  /** The measures used inside the parser for a set of output measures:
      string probability, surprisal and prefix probability need nothing
      extra; entropy reduction is computed from entropy; any other measure
      stands for itself. */
  predicate Internal(outputMeasures: set<string>, m: string) {
    (m in outputMeasures && m != StringProb && m != Surprisal && m != Prefix && m != EntropyReduction) ||
    (m == Entropy && EntropyReduction in outputMeasures)
  }

  /** Some internal measure is needed exactly when some output measure is
      not one of string probability, surprisal and prefix probability; only
      then are rules kept separately in the trie. */
  lemma InternalNeeded(outputMeasures: set<string>)
    ensures (exists m :: Internal(outputMeasures, m)) <==>
            (exists m :: m in outputMeasures && m != StringProb && m != Surprisal && m != Prefix)
  {
    if m :| m in outputMeasures && m != StringProb && m != Surprisal && m != Prefix {
      if m == EntropyReduction {
        assert Internal(outputMeasures, Entropy);
      } else {
        assert Internal(outputMeasures, m);
      }
    }
    if m :| Internal(outputMeasures, m) {
      if m == Entropy && EntropyReduction in outputMeasures {
        assert EntropyReduction != StringProb && EntropyReduction != Surprisal && EntropyReduction != Prefix;
      }
    }
  }

  /** The loop that fills `internalMeasures`. */
  method InternalMeasures(outputMeasures: set<string>) returns (internal: set<string>)
    ensures forall m :: m in internal <==> Internal(outputMeasures, m)
  {
    internal := {};
    var todo := outputMeasures;
    while todo != {}
      invariant todo <= outputMeasures
      invariant forall m :: m in internal <==> Internal(outputMeasures - todo, m)
      decreases |todo|
    {
      var measure :| measure in todo;
      if measure == StringProb || measure == Surprisal || measure == Prefix {
      } else if measure == Entropy || measure == EntropyReduction {
        internal := internal + {Entropy};
      } else {
        internal := internal + {measure};
      }
      todo := todo - {measure};
    }
  }

  // ---------------------------------------------------------------------
  // Options

  /** The loop that adds each piece of the measure string to the set of
      output measures. */
  method CollectMeasures(measures: seq<string>) returns (s: set<string>)
    ensures forall m :: m in s <==> m in measures
  {
    s := {};
    for k := 0 to |measures|
      invariant forall m :: m in s <==> m in measures[..k]
    {
      s := s + {measures[k]};
    }
    assert measures[..|measures|] == measures;
  }

  /** The start symbol and then the root symbol added to a fresh tag index:
      the start symbol gets id 0, the root symbol id 1 unless it is the
      start symbol itself. */
  function RootIndexes<T(==)>(empty: Index<T>, orig: T, root: T): (r: (Index<T>, int, int))
    requires empty.items == []
    ensures r.1 == 0
    ensures root == orig ==> r.0.items == [orig] && r.2 == 0
    ensures root != orig ==> r.0.items == [orig, root] && r.2 == 1
  {
    var (tags1, origId) := empty.Add(orig);
    assert tags1.items == [orig];
    if root == orig then
      assert root in tags1.items;
      var (tags2, rootId) := tags1.Add(root);
      (tags2, origId, rootId)
    else
      assert root !in tags1.items;
      var (tags2, rootId) := tags1.Add(root);
      (tags2, origId, rootId)
  }

  /** The first rule added to an empty table gets id 0 and is its only
      entry. */
  lemma FirstRule(pr: ProbRule)
    requires pr.rule.Valid()
    ensures Valid(Empty())
    ensures AddAsWritten(Empty(), pr).0.allRules == [pr]
    ensures AddAsWritten(Empty(), pr).0.numRules == 1
    ensures AddAsWritten(Empty(), pr).1 == Ok(0)
  {
  }

  /** `new RuleSet(...)` followed by `add(rootRule)`. */
  method RootRuleSet(rootRule: ProbRule) returns (ruleSet: RuleSet)
    requires rootRule.rule.Valid()
    ensures fresh(ruleSet)
    ensures ruleSet.allRules == [rootRule] && ruleSet.numRules == 1
  {
    ruleSet := new RuleSet();
    FirstRule(rootRule);
    var added := ruleSet.Add(rootRule);
  }

  /** The static fields of `EarleyParserOptions` that `preInit` sets. */
  class ParserOptions {
    /** `null` until `preInit` sets it. */
    var rootSymbol: Option<string>
    var isScaling: bool
    var isLogProb: bool
    var decodeOptStr: string
    /** 0: none, 1: EM, 2: VB. */
    var insideOutsideOpt: int
    /** 0: none, 1: Viterbi, 2: marginal or social marginal decoding. */
    var decodeOpt: int
    var origSymbolIndex: int
    var rootSymbolIndex: int
    var rootRule: ProbRule

    /** The initial values of the static fields. */
    constructor ()
      ensures rootSymbol == None && isScaling && !isLogProb && decodeOptStr == ""
      ensures insideOutsideOpt == 0 && decodeOpt == 0
    {
      rootSymbol := None;
      isScaling := true;
      isLogProb := false;
      decodeOptStr := "";
      insideOutsideOpt := 0;
      decodeOpt := 0;
      origSymbolIndex := 0;
      rootSymbolIndex := 0;
      rootRule := ProbRule(MotherRule(0), 0.0);
    }

    /** The option fields as the first half of `preInit` leaves them: the
        flags as given, and the induction and decoding options read
        case-insensitively from their names, an unknown name leaving the
        option at `oldIo` or `oldDecode`. */
    predicate SetFrom(rootSymbol: string, isScaling: bool, isLogProb: bool, ioOptStr: string, decodeOptStr: string,
                      oldIo: int, oldDecode: int)
      reads this`rootSymbol, this`isScaling, this`isLogProb, this`decodeOptStr, this`insideOutsideOpt, this`decodeOpt
    {
      this.rootSymbol == Some(rootSymbol) && this.isScaling == isScaling && this.isLogProb == isLogProb &&
      this.decodeOptStr == decodeOptStr &&
      insideOutsideOpt == (
        if EqualsIgnoreCase(ioOptStr, "em") then 1
        else if EqualsIgnoreCase(ioOptStr, "vb") then 2
        else oldIo) &&
      decodeOpt == (
        if EqualsIgnoreCase(decodeOptStr, ViterbiOpt) then 1
        else if EqualsIgnoreCase(decodeOptStr, MarginalOpt) || EqualsIgnoreCase(decodeOptStr, SocialMarginalOpt) then 2
        else oldDecode)
    }

    /** The start and root symbol ids, and the root rule between them. */
    method SetRoot(origId: int, rootId: int)
      modifies this`origSymbolIndex, this`rootSymbolIndex, this`rootRule
      ensures origSymbolIndex == origId && rootSymbolIndex == rootId
      ensures rootRule == RootRule(origId, rootId, insideOutsideOpt)
    {
      origSymbolIndex := origId;
      rootSymbolIndex := rootId;
      rootRule := RootRule(origId, rootId, insideOutsideOpt);
    }

    /** The first half of `preInit`. */
    method SetOptions(rootSymbol: string, isScaling: bool, isLogProb: bool, ioOptStr: string, decodeOptStr: string)
      modifies this`rootSymbol, this`isScaling, this`isLogProb, this`decodeOptStr, this`insideOutsideOpt, this`decodeOpt
      ensures SetFrom(rootSymbol, isScaling, isLogProb, ioOptStr, decodeOptStr, old(insideOutsideOpt), old(decodeOpt))
    {
      this.rootSymbol := Some(rootSymbol);
      this.isScaling := isScaling;
      this.isLogProb := isLogProb;
      this.decodeOptStr := decodeOptStr;

      if EqualsIgnoreCase(ioOptStr, "em") {
        insideOutsideOpt := 1;
      } else if EqualsIgnoreCase(ioOptStr, "vb") {
        insideOutsideOpt := 2;
      }

      if EqualsIgnoreCase(this.decodeOptStr, ViterbiOpt) {
        decodeOpt := 1;
      } else if EqualsIgnoreCase(this.decodeOptStr, MarginalOpt) || EqualsIgnoreCase(this.decodeOptStr, SocialMarginalOpt) {
        decodeOpt := 2;
      }
    }
  }

  /** The unary rule from the start symbol to the root, with probability
      one; under variational Bayes it carries bias one as well. */
  function RootRule(origIndex: int, rootIndex: int, insideOutsideOpt: int): (pr: ProbRule)
    ensures pr.rule.Valid() && pr.rule.IsUnary()
    ensures pr.rule.mother == origIndex && pr.rule.Children() == [rootIndex]
    ensures pr.prob == 1.0 && pr.GetBias() == (if insideOutsideOpt == 2 then 1.0 else 0.0)
  {
    var rule := FragmentUnary(origIndex, rootIndex, true);
    if insideOutsideOpt == 2 then BiasProbRule(rule, 1.0, 1.0) else ProbRule(rule, 1.0)
  }

  class EarleyParserGenerator {
    var outputMeasures: set<string>
    var internalMeasures: set<string>
    var isSeparateRuleInTrie: bool
    /** The operator: log probabilities or plain ones. */
    var isLogOperator: bool
    var parserWordIndex: Index<string>
    var parserTagIndex: Index<string>
    var parserNonterminalMap: map<int, int>
    var ruleSet: RuleSet
    /** Which edge space is built: the standard one or the one that
        collapses edges by mother and remaining children. */
    var isStandardEdgeSpace: bool

    constructor ()
      ensures !isSeparateRuleInTrie
    {
      isSeparateRuleInTrie := false;
      outputMeasures := {};
      internalMeasures := {};
      isLogOperator := false;
      parserWordIndex := Index([]);
      parserTagIndex := Index([]);
      parserNonterminalMap := map[];
      ruleSet := new RuleSet();
      isStandardEdgeSpace := false;
    }

    /** The output measures are the pieces of the measure string, the
        internal measures are the ones they need, and rules go into the trie
        separately when there is any internal measure. */
    ghost predicate MeasuresFrom(measureString: string, oldSeparate: bool)
      reads this`outputMeasures, this`internalMeasures, this`isSeparateRuleInTrie
    {
      (forall m :: m in outputMeasures <==> m in SplitMeasures(measureString)) &&
      (forall m :: m in internalMeasures <==> Internal(outputMeasures, m)) &&
      isSeparateRuleInTrie == (oldSeparate || internalMeasures != {})
    }

    method SetMeasures(measureString: string)
      modifies this`outputMeasures, this`internalMeasures, this`isSeparateRuleInTrie
      ensures MeasuresFrom(measureString, old(isSeparateRuleInTrie))
    {
      outputMeasures := CollectMeasures(SplitMeasures(measureString));
      internalMeasures := InternalMeasures(outputMeasures);
      if |internalMeasures| > 0 {
        isSeparateRuleInTrie := true;
      }
    }

    /** The word index is empty, the tag index holds the start symbol (id
        `origId`, 0) and then the root symbol (id `rootId`, 1 unless it is
        the start symbol), and the start symbol is nonterminal 0. */
    predicate IndexesFrom(rootSymbol: string, origId: int, rootId: int)
      reads this`parserWordIndex, this`parserTagIndex, this`parserNonterminalMap
    {
      parserWordIndex.items == [] &&
      origId == 0 &&
      (rootSymbol == OrigSymbol ==> parserTagIndex.items == [OrigSymbol] && rootId == 0) &&
      (rootSymbol != OrigSymbol ==> parserTagIndex.items == [OrigSymbol, rootSymbol] && rootId == 1) &&
      parserNonterminalMap == map[origId := 0]
    }

    /** Fresh indexes and nonterminal map with the start and root symbols
        numbered; returns the two symbol ids. */
    method SetIndexes(rootSymbol: string) returns (origId: int, rootId: int)
      modifies this`parserWordIndex, this`parserTagIndex, this`parserNonterminalMap
      ensures IndexesFrom(rootSymbol, origId, rootId)
    {
      parserWordIndex := Index([]);
      parserTagIndex := Index([]);
      parserNonterminalMap := map[];

      var numbered := RootIndexes(parserTagIndex, OrigSymbol, rootSymbol);
      parserTagIndex := numbered.0;
      origId, rootId := numbered.1, numbered.2;
      parserNonterminalMap := parserNonterminalMap[origId := |parserNonterminalMap|];
    }

    /** The part of `preInit` that fills the generator's own fields, given
        the inside-outside and decode options already parsed. */
    method Prepare(rootSymbol: string, isLogProb: bool, measureString: string,
                   insideOutsideOpt: int, decodeOpt: int) returns (origId: int, rootId: int)
      modifies this
      ensures MeasuresFrom(measureString, old(isSeparateRuleInTrie))
      ensures isLogOperator == isLogProb
      ensures IndexesFrom(rootSymbol, origId, rootId)
      ensures fresh(ruleSet) && ruleSet.allRules == [RootRule(origId, rootId, insideOutsideOpt)] && ruleSet.numRules == 1
      ensures isStandardEdgeSpace == (insideOutsideOpt > 0 || decodeOpt > 0 || Entropy in outputMeasures)
    {
      SetMeasures(measureString);
      isLogOperator := isLogProb;
      origId, rootId := SetIndexes(rootSymbol);
      ruleSet := RootRuleSet(RootRule(origId, rootId, insideOutsideOpt));
      isStandardEdgeSpace := insideOutsideOpt > 0 || decodeOpt > 0 || Entropy in outputMeasures;
    }

    /** `preInit(rootSymbol, isScaling, isLogProb, ioOptStr, decodeOptStr,
        measureString)`: the options, the measure sets, fresh indexes with
        the start and root symbols, the root rule from the start symbol to
        the root symbol as the only rule, and the edge space kind, which is
        the standard one exactly when inside-outside training, decoding or
        entropy needs whole edges. */
    method PreInit(opts: ParserOptions, rootSymbol: string, isScaling: bool, isLogProb: bool,
                   ioOptStr: string, decodeOptStr: string, measureString: string)
      modifies this, opts
      ensures opts.SetFrom(rootSymbol, isScaling, isLogProb, ioOptStr, decodeOptStr, old(opts.insideOutsideOpt), old(opts.decodeOpt))
      ensures MeasuresFrom(measureString, old(isSeparateRuleInTrie))
      ensures isLogOperator == isLogProb
      ensures IndexesFrom(rootSymbol, opts.origSymbolIndex, opts.rootSymbolIndex)
      ensures opts.rootRule == RootRule(opts.origSymbolIndex, opts.rootSymbolIndex, opts.insideOutsideOpt)
      ensures fresh(ruleSet) && ruleSet.allRules == [opts.rootRule] && ruleSet.numRules == 1
      ensures isStandardEdgeSpace == (opts.insideOutsideOpt > 0 || opts.decodeOpt > 0 || Entropy in outputMeasures)
    {
      opts.SetOptions(rootSymbol, isScaling, isLogProb, ioOptStr, decodeOptStr);
      var origId, rootId := Prepare(rootSymbol, isLogProb, measureString, opts.insideOutsideOpt, opts.decodeOpt);
      opts.SetRoot(origId, rootId);
    }
  }

  // ---------------------------------------------------------------------
  // Lexical probabilities

  /** A proper probability, with the reader's tolerance above one. */
  predicate ProperProb(p: real) {
    0.0 <= p <= 1.000001
  }

  /** Every probability of every tag's word counter is proper. */
  predicate AllProper(tag2wordsMap: map<int, map<int, real>>) {
    forall t, w :: t in tag2wordsMap && w in tag2wordsMap[t] ==> ProperProb(tag2wordsMap[t][w])
  }

  /** The loop in `init` that turns the lexical probabilities into log
      probabilities, stopping the program at the first one outside [0,
      1.000001]; `log` is `Math.log`. */
  method LogLexicalProbs(tag2wordsMap: map<int, map<int, real>>, log: real -> real)
    returns (r: Result<map<int, map<int, real>>>)
    ensures r.Ok? <==> AllProper(tag2wordsMap)
    ensures r.Ok? ==> r.value.Keys == tag2wordsMap.Keys
    ensures r.Ok? ==> forall t :: t in tag2wordsMap ==> r.value[t].Keys == tag2wordsMap[t].Keys
    ensures r.Ok? ==> forall t, w :: t in tag2wordsMap && w in tag2wordsMap[t] ==> r.value[t][w] == log(tag2wordsMap[t][w])
  {
    var out := tag2wordsMap;
    var todo := tag2wordsMap.Keys;
    while todo != {}
      invariant todo <= tag2wordsMap.Keys && out.Keys == tag2wordsMap.Keys
      invariant forall t :: t in tag2wordsMap && t !in todo ==> LoggedCounter(tag2wordsMap[t], out[t], log)
      invariant forall t :: t in todo ==> out[t] == tag2wordsMap[t]
      decreases |todo|
    {
      NoMember(todo);
      var iT :| iT in todo;
      var counter := LogCounter(tag2wordsMap[iT], log);
      if counter.Fail? {
        return Fail(counter.reason);
      }
      out := out[iT := counter.value];
      todo := todo - {iT};
    }
    r := Ok(out);
  }

  /** Every probability of the counter is proper and `logged` holds its
      logarithms. */
  predicate LoggedCounter(counter: map<int, real>, logged: map<int, real>, log: real -> real) {
    logged.Keys == counter.Keys &&
    (forall w :: w in counter ==> ProperProb(counter[w])) &&
    (forall w :: w in counter ==> logged[w] == log(counter[w]))
  }

  /** The inner loop over one tag's words. */
  method LogCounter(counter: map<int, real>, log: real -> real) returns (r: Result<map<int, real>>)
    ensures r.Ok? <==> forall w :: w in counter ==> ProperProb(counter[w])
    ensures r.Ok? ==> LoggedCounter(counter, r.value, log)
  {
    var out := counter;
    var todo := counter.Keys;
    while todo != {}
      invariant todo <= counter.Keys && out.Keys == counter.Keys
      invariant forall w :: w in counter && w !in todo ==> ProperProb(counter[w]) && out[w] == log(counter[w])
      invariant forall w :: w in todo ==> out[w] == counter[w]
      decreases |todo|
    {
      NoMember(todo);
      var iW :| iW in todo;
      var prob := out[iW];
      if prob < 0.0 || prob > 1.000001 {
        return Fail("probability not in [0, 1]");
      }
      out := out[iW := log(prob)];
      todo := todo - {iW};
    }
    r := Ok(out);
  }
}
