/** Grammar rules and dotted edges over integer ids.  A rule is a mother tag
    id and a sequence of child ids, each child flagged as a tag or a word.
    The four rule classes differ only in where the flags come from: a
    fragment rule stores them, a terminal rule has none set, a tag rule has
    all set, and a mother rule has no children at all.  Two rules are equal
    when mother, children and flags agree, whatever their class. */
module Rules {
  import opened Wrappers
  import opened Text
  import opened Indexing

  datatype Rule =
    | FragmentRule(mother: int, kids: seq<int>, flags: seq<bool>, tagCount: int)
    | TerminalRule(mother: int, kids: seq<int>)
    | TagRule(mother: int, kids: seq<int>)
    | MotherRule(mother: int)
  {
    function Children(): seq<int> {
      if MotherRule? then [] else kids
    }

    function NumChildren(): nat {
      |Children()|
    }

    /** A fragment rule has a flag for every child. */
    predicate Valid() {
      FragmentRule? ==> |kids| <= |flags|
    }

    /** `isTag(i)`: the stored flag, false, true, or false. */
    function IsTag(i: nat): bool
      requires Valid() && i < NumChildren()
    {
      match this
      case FragmentRule(_, _, f, _) => f[i]
      case TerminalRule(_, _) => false
      case TagRule(_, _) => true
      case MotherRule(_) => false
    }

    /** The flags as `Rule.equals` compares them, one per child. */
    function TagFlags(): (fl: seq<bool>)
      requires Valid()
      ensures |fl| == NumChildren()
      ensures forall i :: 0 <= i < |fl| ==> fl[i] == IsTag(i)
    {
      seq(NumChildren(), i requires 0 <= i < NumChildren() => IsTag(i))
    }

    /** What `Rule.equals` looks at. */
    function Key(): (int, seq<int>, seq<bool>)
      requires Valid()
    {
      (mother, Children(), TagFlags())
    }

    /** `numTags()`: the count a fragment rule was built with; none for a
        terminal or mother rule; every child for a tag rule. */
    function NumTags(): int {
      match this
      case FragmentRule(_, _, _, n) => n
      case TerminalRule(_, _) => 0
      case TagRule(_, k) => |k|
      case MotherRule(_) => 0
    }

    /** `numTags()` agrees with the flags (true of every rule built by the
        counting constructors). */
    predicate WellCounted()
      requires Valid()
    {
      NumTags() == CountTrue(TagFlags())
    }

    predicate IsUnary()
      requires Valid()
    {
      NumChildren() == 1 && IsTag(0)
    }

    predicate IsTerminalRule() {
      NumTags() == 0
    }

    /** `buildMotherRule()`: `mother -> []`, or null for a mother rule. */
    function BuildMotherRule(): (r: Option<Rule>)
      ensures r.Some? <==> !MotherRule?
      ensures r.Some? ==> r.value.MotherRule? && r.value.mother == mother && r.value.NumChildren() == 0
    {
      if MotherRule? then None else Some(MotherRule(mother))
    }

    /** `buildViaRule(dot)`: `child -> []` for the child at `dot`, or null
        for a mother rule. */
    function BuildViaRule(dot: nat): (r: Option<Rule>)
      requires !MotherRule? ==> dot < NumChildren()
      ensures r.Some? <==> !MotherRule?
      ensures r.Some? ==> r.value == MotherRule(Children()[dot])
    {
      if MotherRule? then None else Some(MotherRule(kids[dot]))
    }

    /** `buildToRule(dot)`: the same mother over the children after `dot`,
        or null for a mother rule. */
    function BuildToRule(dot: nat): (r: Option<Rule>)
      requires Valid()
      requires !MotherRule? ==> dot < NumChildren()
      ensures r.Some? <==> !MotherRule?
      ensures r.Some? ==> r.value.Valid() && r.value.WellCounted()
      ensures r.Some? ==> r.value.Key() == (mother, Children()[dot + 1..], TagFlags()[dot + 1..])
    {
      match this
      case FragmentRule(m, k, f, _) =>
        var t := FragmentFromFlags(m, k[dot + 1..], TagFlags()[dot + 1..]);
        assert t.TagFlags() == TagFlags()[dot + 1..];
        Some(t)
      case TerminalRule(m, k) =>
        var t := TerminalRule(m, k[dot + 1..]);
        AllFalseCount(t.TagFlags());
        assert t.TagFlags() == TagFlags()[dot + 1..];
        Some(t)
      case TagRule(m, k) =>
        var t := TagRule(m, k[dot + 1..]);
        AllTrueCount(t.TagFlags());
        assert t.TagFlags() == TagFlags()[dot + 1..];
        Some(t)
      case MotherRule(_) => None
    }
  }

  /** The number of true flags. */
  function CountTrue(fl: seq<bool>): (n: nat)
    ensures n <= |fl|
  {
    if |fl| == 0 then 0 else (if fl[0] then 1 else 0) + CountTrue(fl[1..])
  }

  /** No flag is set exactly when the count is zero. */
  lemma {:induction false} CountTrueZero(fl: seq<bool>)
    ensures CountTrue(fl) == 0 <==> forall i :: 0 <= i < |fl| ==> !fl[i]
  {
    if |fl| > 0 {
      CountTrueZero(fl[1..]);
      assert forall i :: 1 <= i < |fl| ==> fl[i] == fl[1..][i - 1];
    }
  }

  lemma {:induction false} AllFalseCount(fl: seq<bool>)
    requires forall i :: 0 <= i < |fl| ==> !fl[i]
    ensures CountTrue(fl) == 0
  {
    CountTrueZero(fl);
  }

  lemma {:induction false} AllTrueCount(fl: seq<bool>)
    requires forall i :: 0 <= i < |fl| ==> fl[i]
    ensures CountTrue(fl) == |fl|
  {
    if |fl| > 0 {
      AllTrueCount(fl[1..]);
    }
  }

  lemma UniformCount(fl: seq<bool>, v: bool)
    requires forall i :: 0 <= i < |fl| ==> fl[i] == v
    ensures CountTrue(fl) == if v then |fl| else 0
  {
    if v { AllTrueCount(fl); } else { AllFalseCount(fl); }
  }

  /** `new FragmentRule(mother, children, tagFlags)`: counts the set flags. */
  function FragmentFromFlags(mother: int, kids: seq<int>, flags: seq<bool>): (r: Rule)
    requires |kids| <= |flags|
    ensures r.Valid() && r.WellCounted()
    ensures r.mother == mother && r.Children() == kids && r.TagFlags() == flags[..|kids|]
  {
    var r := FragmentRule(mother, kids, flags, CountTrue(flags[..|kids|]));
    assert r.TagFlags() == flags[..|kids|];
    r
  }

  /** `new FragmentRule(mother, children, isAllTag)`: every flag the same. */
  function FragmentAll(mother: int, kids: seq<int>, isAllTag: bool): (r: Rule)
    ensures r.Valid() && r.WellCounted()
    ensures r.mother == mother && r.Children() == kids
    ensures forall i :: 0 <= i < |kids| ==> r.IsTag(i) == isAllTag
    ensures r.NumTags() == if isAllTag then |kids| else 0
  {
    var r := FragmentRule(mother, kids, seq(|kids|, _ => isAllTag), if isAllTag then |kids| else 0);
    UniformCount(r.TagFlags(), isAllTag);
    r
  }

  /** `new FragmentRule(mother, child, isTag)`: a one-child rule, unary
      exactly when its child is a tag. */
  function FragmentUnary(mother: int, child: int, isTag: bool): (r: Rule)
    ensures r.Valid() && r.WellCounted()
    ensures r.Children() == [child] && r.mother == mother
    ensures r.IsUnary() <==> isTag
    ensures r.IsTerminalRule() <==> !isTag
  {
    var r := FragmentRule(mother, [child], [isTag], if isTag then 1 else 0);
    assert r.TagFlags() == [isTag];
    assert CountTrue([isTag]) == if isTag then 1 else 0;
    r
  }

  /** For a rule whose tag count agrees with its flags, being a terminal rule
      means having no tag child. */
  lemma TerminalIffNoTag(r: Rule)
    requires r.Valid() && r.WellCounted()
    ensures r.IsTerminalRule() <==> forall i :: 0 <= i < r.NumChildren() ==> !r.IsTag(i)
  {
    CountTrueZero(r.TagFlags());
  }

  /** Terminal, tag and mother rules always count their tags right. */
  lemma FixedClassesWellCounted(r: Rule)
    requires !r.FragmentRule?
    ensures r.Valid() && r.WellCounted()
  {
    if r.TagRule? {
      AllTrueCount(r.TagFlags());
    } else {
      AllFalseCount(r.TagFlags());
    }
  }

  /** A terminal rule is a terminal rule and never unary; a tag rule is unary
      exactly when it has one child; a mother rule has no children and counts
      as terminal. */
  lemma ClassFacts(m: int, k: seq<int>)
    ensures TerminalRule(m, k).IsTerminalRule() && !TerminalRule(m, k).IsUnary()
    ensures TagRule(m, k).IsUnary() <==> |k| == 1
    ensures TagRule(m, k).NumTags() == |k|
    ensures MotherRule(m).NumChildren() == 0 && MotherRule(m).IsTerminalRule()
  {
  }

  /** Equality ignores the class: a tag rule equals the all-tag fragment
      rule, a terminal rule the all-word one, and a mother rule the terminal
      rule with no children; two mother rules are equal iff their mothers
      are. */
  lemma EqualityAcrossClasses(m: int, m2: int, k: seq<int>)
    ensures TagRule(m, k).Key() == FragmentAll(m, k, true).Key()
    ensures TerminalRule(m, k).Key() == FragmentAll(m, k, false).Key()
    ensures MotherRule(m).Key() == TerminalRule(m, []).Key()
    ensures MotherRule(m).Key() == MotherRule(m2).Key() <==> m == m2
  {
    assert TagRule(m, k).TagFlags() == FragmentAll(m, k, true).TagFlags();
    assert TerminalRule(m, k).TagFlags() == FragmentAll(m, k, false).TagFlags();
  }

  /** `Rule.equals`: the loop over the children that compares ids and tag
      flags, after the mothers and lengths. */
  method RulesEqual(a: Rule, b: Rule) returns (eq: bool)
    requires a.Valid() && b.Valid()
    ensures eq <==> a.Key() == b.Key()
  {
    if a.mother != b.mother {
      return false;
    }
    var ca, cb := a.Children(), b.Children();
    if |ca| != |cb| {
      return false;
    }
    var i := 0;
    while i < |ca|
      invariant 0 <= i <= |ca|
      invariant ca[..i] == cb[..i]
      invariant a.TagFlags()[..i] == b.TagFlags()[..i]
    {
      if ca[i] != cb[i] {
        assert a.Children()[i] != b.Children()[i];
        return false;
      }
      if a.IsTag(i) != b.IsTag(i) {
        assert a.TagFlags()[i] != b.TagFlags()[i];
        return false;
      }
      assert ca[..i + 1] == ca[..i] + [ca[i]];
      assert cb[..i + 1] == cb[..i] + [cb[i]];
      assert a.TagFlags()[..i + 1] == a.TagFlags()[..i] + [a.TagFlags()[i]];
      assert b.TagFlags()[..i + 1] == b.TagFlags()[..i] + [b.TagFlags()[i]];
      i := i + 1;
    }
    assert ca == ca[..i] && cb == cb[..i];
    assert a.TagFlags() == a.TagFlags()[..i] && b.TagFlags() == b.TagFlags()[..i];
    return true;
  }

  /** `getChildren(dot)`: copies the children from `dot` on. */
  method ChildrenAfter(r: Rule, dot: nat) returns (out: seq<int>)
    requires dot <= r.NumChildren()
    ensures |out| == r.NumChildren() - dot
    ensures forall i :: 0 <= i < |out| ==> out[i] == r.Children()[i + dot]
  {
    out := [];
    var i := 0;
    while i < r.NumChildren() - dot
      invariant 0 <= i <= r.NumChildren() - dot
      invariant |out| == i
      invariant forall j :: 0 <= j < i ==> out[j] == r.Children()[j + dot]
    {
      out := out + [r.Children()[i + dot]];
      i := i + 1;
    }
  }

  /** `getTagFlagsAfterDot(dot)`: the flags aligned with `getChildren(dot)`. */
  method TagFlagsAfter(r: Rule, dot: nat) returns (out: seq<bool>)
    requires r.Valid() && dot <= r.NumChildren()
    ensures |out| == r.NumChildren() - dot
    ensures forall i :: 0 <= i < |out| ==> out[i] == r.IsTag(i + dot)
  {
    out := [];
    var i := 0;
    while i < r.NumChildren() - dot
      invariant 0 <= i <= r.NumChildren() - dot
      invariant |out| == i
      invariant forall j :: 0 <= j < i ==> out[j] == r.IsTag(j + dot)
    {
      out := out + [r.IsTag(i + dot)];
      i := i + 1;
    }
  }

  // ---------------------------------------------------------------------
  // Building rules from strings, interning the names in the two indexes.

  /** Interns one child: in the tag index when `tag` holds, in the word
      index otherwise; the other index is left alone. */
  function InternOne(str: string, tag: bool, tags: Index<string>, words: Index<string>)
    : (r: (Index<string>, Index<string>, nat))
    requires tags.Valid() && words.Valid()
    ensures r.0.Valid() && r.1.Valid()
    ensures |tags.items| <= |r.0.items| && r.0.items[..|tags.items|] == tags.items
    ensures |words.items| <= |r.1.items| && r.1.items[..|words.items|] == words.items
    ensures if tag then r.2 < |r.0.items| && r.0.items[r.2] == str
            else r.2 < |r.1.items| && r.1.items[r.2] == str
  {
    if tag then
      var (t1, id) := tags.Add(str);
      assert t1.items[..|tags.items|] == tags.items;
      (t1, words, id)
    else
      var (w1, id) := words.Add(str);
      assert w1.items[..|words.items|] == words.items;
      (tags, w1, id)
  }

  /** A prefix of a prefix is a prefix, and keeps its entries. */
  lemma PrefixTrans<T>(a: seq<T>, b: seq<T>, c: seq<T>)
    requires |a| <= |b| && b[..|a|] == a && |b| <= |c| && c[..|b|] == b
    ensures |a| <= |c| && c[..|a|] == a
    ensures forall k :: 0 <= k < |b| ==> c[k] == b[k]
  {
    forall k | 0 <= k < |b|
      ensures c[k] == b[k]
    {
      assert c[..|b|][k] == c[k];
    }
  }

  /** Interns each child in the tag index when its flag is set and in the
      word index otherwise, in order. */
  function InternChildren(strs: seq<string>, isTag: seq<bool>, tags: Index<string>, words: Index<string>)
    : (r: (seq<int>, Index<string>, Index<string>))
    requires |strs| <= |isTag| && tags.Valid() && words.Valid()
    ensures r.1.Valid() && r.2.Valid() && |r.0| == |strs|
    ensures |tags.items| <= |r.1.items| && r.1.items[..|tags.items|] == tags.items
    ensures |words.items| <= |r.2.items| && r.2.items[..|words.items|] == words.items
    ensures forall i :: 0 <= i < |strs| ==> (0 <= r.0[i] &&
      if isTag[i] then r.0[i] < |r.1.items| && r.1.items[r.0[i]] == strs[i]
      else r.0[i] < |r.2.items| && r.2.items[r.0[i]] == strs[i])
    decreases |strs|
  {
    if strs == [] then ([], tags, words)
    else
      var (t1, w1, id) := InternOne(strs[0], isTag[0], tags, words);
      var (ids, t2, w2) := InternChildren(strs[1..], isTag[1..], t1, w1);
      PrefixTrans(tags.items, t1.items, t2.items);
      PrefixTrans(words.items, w1.items, w2.items);
      ([id] + ids, t2, w2)
  }

  /** The string constructor of a fragment rule with explicit flags: the
      mother is interned first, then each child; the tag count is the number
      of tag children. */
  function FragmentFromStrings(motherStr: string, childStrs: seq<string>,
                               tags: Index<string>, words: Index<string>, isTag: seq<bool>)
    : (r: (Rule, Index<string>, Index<string>))
    requires |childStrs| <= |isTag| && tags.Valid() && words.Valid()
    ensures r.0.Valid() && r.0.WellCounted() && r.1.Valid() && r.2.Valid()
    ensures r.0.TagFlags() == isTag[..|childStrs|]
    ensures Named(r.0, r.1, r.2)
    ensures LhsString(r.0, r.1) == motherStr
    ensures ChildStrs(r.0, r.1, r.2) == Decorated(childStrs, isTag)
  {
    var (t1, m) := tags.Add(motherStr);
    var (ids, t2, w2) := InternChildren(childStrs, isTag, t1, words);
    var rule := FragmentFromFlags(m, ids, isTag);
    assert t2.items[m] == t1.items[m];
    NamedOfInterned(rule, childStrs, isTag, t2, w2);
    (rule, t2, w2)
  }

  /** The string constructor of a fragment rule whose children are all tags
      or all words. */
  function FragmentAllFromStrings(motherStr: string, childStrs: seq<string>,
                                  tags: Index<string>, words: Index<string>, isAllTag: bool)
    : (r: (Rule, Index<string>, Index<string>))
    requires tags.Valid() && words.Valid()
    ensures r.0.Valid() && r.0.WellCounted() && r.1.Valid() && r.2.Valid()
    ensures r.0.NumTags() == if isAllTag then |childStrs| else 0
    ensures Named(r.0, r.1, r.2)
    ensures LhsString(r.0, r.1) == motherStr
    ensures ChildStrs(r.0, r.1, r.2) == Decorated(childStrs, seq(|childStrs|, _ => isAllTag))
  {
    var fl := seq(|childStrs|, _ => isAllTag);
    var (t1, m) := tags.Add(motherStr);
    var (ids, t2, w2) := InternChildren(childStrs, fl, t1, words);
    var rule := FragmentAll(m, ids, isAllTag);
    assert rule.TagFlags() == fl;
    assert t2.items[m] == t1.items[m];
    NamedOfInterned(rule, childStrs, fl, t2, w2);
    (rule, t2, w2)
  }

  /** The string constructor of a terminal rule: every child is a word. */
  function TerminalFromStrings(motherStr: string, childStrs: seq<string>,
                               tags: Index<string>, words: Index<string>)
    : (r: (Rule, Index<string>, Index<string>))
    requires tags.Valid() && words.Valid()
    ensures r.0.TerminalRule? && r.0.Valid() && r.1.Valid() && r.2.Valid()
    ensures Named(r.0, r.1, r.2)
    ensures LhsString(r.0, r.1) == motherStr
    ensures ChildStrs(r.0, r.1, r.2) == Decorated(childStrs, seq(|childStrs|, _ => false))
  {
    var fl := seq(|childStrs|, _ => false);
    var (t1, m) := tags.Add(motherStr);
    var (ids, t2, w2) := InternChildren(childStrs, fl, t1, words);
    var rule := TerminalRule(m, ids);
    assert rule.TagFlags() == fl;
    assert t2.items[m] == t1.items[m];
    NamedOfInterned(rule, childStrs, fl, t2, w2);
    (rule, t2, w2)
  }

  lemma NamedOfInterned(rule: Rule, strs: seq<string>, isTag: seq<bool>, tags: Index<string>, words: Index<string>)
    requires rule.Valid() && |strs| <= |isTag| && rule.NumChildren() == |strs|
    requires 0 <= rule.mother < |tags.items|
    requires rule.TagFlags() == isTag[..|strs|]
    requires forall i :: 0 <= i < |strs| ==> (0 <= rule.Children()[i] &&
      if isTag[i] then rule.Children()[i] < |tags.items| && tags.items[rule.Children()[i]] == strs[i]
      else rule.Children()[i] < |words.items| && words.items[rule.Children()[i]] == strs[i])
    ensures Named(rule, tags, words)
    ensures ChildStrs(rule, tags, words) == Decorated(strs, isTag)
  {
    forall i | 0 <= i < |strs|
      ensures rule.IsTag(i) == isTag[i]
    {
      assert rule.TagFlags()[i] == isTag[i];
    }
  }

  // ---------------------------------------------------------------------
  // Rendering with names.

  /** Every id of the rule names an entry of the right index. */
  predicate Named(r: Rule, tags: Index<string>, words: Index<string>) {
    r.Valid() && 0 <= r.mother < |tags.items| &&
    forall i :: 0 <= i < r.NumChildren() ==> (0 <= r.Children()[i] &&
      if r.IsTag(i) then r.Children()[i] < |tags.items| else r.Children()[i] < |words.items|)
  }

  /** `lhsString`: the mother's name. */
  function LhsString(r: Rule, tags: Index<string>): string
    requires 0 <= r.mother < |tags.items|
  {
    tags.items[r.mother]
  }

  /** `getChildStr(pos)`: a tag's name, or `_` and the word. */
  function ChildStr(r: Rule, tags: Index<string>, words: Index<string>, pos: nat): string
    requires Named(r, tags, words) && pos < r.NumChildren()
  {
    if r.IsTag(pos) then tags.items[r.Children()[pos]] else "_" + words.items[r.Children()[pos]]
  }

  function ChildStrs(r: Rule, tags: Index<string>, words: Index<string>): (cs: seq<string>)
    requires Named(r, tags, words)
    ensures |cs| == r.NumChildren()
  {
    seq(r.NumChildren(), i requires 0 <= i < r.NumChildren() => ChildStr(r, tags, words, i))
  }

  /** The children as written in a grammar file: words carry a `_`. */
  function Decorated(strs: seq<string>, isTag: seq<bool>): (ds: seq<string>)
    requires |strs| <= |isTag|
    ensures |ds| == |strs|
  {
    seq(|strs|, i requires 0 <= i < |strs| => if isTag[i] then strs[i] else "_" + strs[i])
  }

  /** `rhsString`: appends every child and a space, then deletes the last
      space; the result is the children joined by single spaces. */
  method RhsString(r: Rule, tags: Index<string>, words: Index<string>) returns (s: string)
    requires Named(r, tags, words)
    ensures s == Join(ChildStrs(r, tags, words), " ")
  {
    var cs := ChildStrs(r, tags, words);
    s := "";
    var i := 0;
    while i < r.NumChildren()
      invariant 0 <= i <= r.NumChildren()
      invariant s == EachFollowedBy(cs[..i], " ")
    {
      EachFollowedBySnoc(cs[..i], cs[i], " ");
      assert cs[..i + 1] == cs[..i] + [cs[i]];
      s := s + ChildStr(r, tags, words, i) + " ";
      i := i + 1;
    }
    assert cs[..i] == cs;
    if r.NumChildren() > 0 {
      EachFollowedByIsJoin(cs, " ");
      s := s[..|s| - 1];
    }
  }

  /** The text of `toString(tagIndex, wordIndex)`: `X->[Y _z]`. */
  function RuleText(r: Rule, tags: Index<string>, words: Index<string>): string
    requires Named(r, tags, words)
  {
    LhsString(r, tags) + "->[" + Join(ChildStrs(r, tags, words), " ") + "]"
  }

  /** `toString(tagIndex, wordIndex)`. */
  method RuleToString(r: Rule, tags: Index<string>, words: Index<string>) returns (s: string)
    requires Named(r, tags, words)
    ensures s == RuleText(r, tags, words)
  {
    var rhs := RhsString(r, tags, words);
    s := LhsString(r, tags) + "->[" + rhs + "]";
  }

  /** `markString`: `X --> Y _z`. */
  method MarkString(r: Rule, tags: Index<string>, words: Index<string>) returns (s: string)
    requires Named(r, tags, words)
    ensures s == LhsString(r, tags) + " --> " + Join(ChildStrs(r, tags, words), " ")
  {
    var rhs := RhsString(r, tags, words);
    s := LhsString(r, tags) + " --> " + rhs;
  }

  /** `timString`: `X Y _z`. */
  method TimString(r: Rule, tags: Index<string>, words: Index<string>) returns (s: string)
    requires Named(r, tags, words)
    ensures s == LhsString(r, tags) + " " + Join(ChildStrs(r, tags, words), " ")
  {
    var rhs := RhsString(r, tags, words);
    s := LhsString(r, tags) + " " + rhs;
  }

  /** A rule built from strings prints back as `mother->[c1 ... cn]` with
      the words marked by `_`. */
  lemma FragmentStringRoundTrip(motherStr: string, childStrs: seq<string>,
                                tags: Index<string>, words: Index<string>, isTag: seq<bool>)
    requires |childStrs| <= |isTag| && tags.Valid() && words.Valid()
    ensures var (r, t, w) := FragmentFromStrings(motherStr, childStrs, tags, words, isTag);
      RuleText(r, t, w) == motherStr + "->[" + Join(Decorated(childStrs, isTag), " ") + "]"
  {
  }

  /** The children of `toString()`: ids, words marked by `_`. */
  function NumericChildStrs(r: Rule): (cs: seq<string>)
    requires r.Valid()
    ensures |cs| == r.NumChildren()
  {
    seq(r.NumChildren(), i requires 0 <= i < r.NumChildren() => NumericChildStr(r, i))
  }

  function NumericChildStr(r: Rule, pos: nat): string
    requires r.Valid() && pos < r.NumChildren()
  {
    if r.IsTag(pos) then IntString(r.Children()[pos]) else "_" + IntString(r.Children()[pos])
  }

  /** `toString()`: `m->[c1 _c2]` with the ids written in decimal. */
  method RuleToNumericString(r: Rule) returns (s: string)
    requires r.Valid()
    ensures s == IntString(r.mother) + "->[" + Join(NumericChildStrs(r), " ") + "]"
  {
    var cs := NumericChildStrs(r);
    var body := "";
    var i := 0;
    while i < r.NumChildren()
      invariant 0 <= i <= r.NumChildren()
      invariant body == EachFollowedBy(cs[..i], " ")
    {
      EachFollowedBySnoc(cs[..i], cs[i], " ");
      assert cs[..i + 1] == cs[..i] + [cs[i]];
      body := body + NumericChildStr(r, i) + " ";
      i := i + 1;
    }
    assert cs[..i] == cs;
    if r.NumChildren() > 0 {
      EachFollowedByIsJoin(cs, " ");
      body := body[..|body| - 1];
    }
    s := IntString(r.mother) + "->[" + body + "]";
  }

  // ---------------------------------------------------------------------
  // Edges.

  /** A dotted rule: `dot` children have been found. */
  datatype Edge = Edge(rule: Rule, dot: nat)
  {
    /** The constructor's assertion: the dot is within the rule. */
    predicate Valid() {
      rule.Valid() && dot <= rule.NumChildren()
    }

    function Mother(): int { rule.mother }

    function NumRemainingChildren(): (k: int)
      ensures Valid() ==> k >= 0
      ensures k == 0 <==> dot == rule.NumChildren()
    {
      rule.NumChildren() - dot
    }

    /** `getChildAfterDot(pos)`. */
    function ChildAfterDot(pos: nat): int
      requires dot + pos < rule.NumChildren()
    {
      rule.Children()[dot + pos]
    }

    function IsTagAfterDot(pos: nat): bool
      requires rule.Valid() && dot + pos < rule.NumChildren()
    {
      rule.IsTag(dot + pos)
    }

    predicate IsTerminalEdge() {
      rule.IsTerminalRule()
    }

    /** `getPrevEdge()`: the dot moved back by one, or null at dot 0. */
    function PrevEdge(): (p: Option<Edge>)
      ensures p.Some? <==> dot >= 1
      ensures p.Some? ==> p.value.rule == rule && p.value.dot + 1 == dot
      ensures Valid() && p.Some? ==> p.value.Valid()
    {
      if dot >= 1 then Some(Edge(rule, dot - 1)) else None
    }

    /** `getMotherEdge()`: `mother -> .` with no children. */
    function MotherEdge(): (e: Edge)
      ensures e.Valid() && e.dot == 0 && e.rule.NumChildren() == 0 && e.Mother() == Mother()
    {
      TagEdge(rule.mother)
    }

    /** `getViaEdge()`: `child -> .` for a tag child after the dot, or null
        when that child is a word. */
    function ViaEdge(): (v: Option<Edge>)
      requires Valid() && dot < rule.NumChildren()
      ensures v.Some? <==> rule.IsTag(dot)
      ensures v.Some? ==> v.value == TagEdge(ChildAfterDot(0))
    {
      if rule.IsTag(dot) then Some(TagEdge(rule.Children()[dot])) else None
    }

    /** `getToEdge()`: dot 0 of the rule over the children after the dot, or
        null (a failed construction) for a mother rule. */
    function ToEdge(): (t: Option<Edge>)
      requires Valid() && (!rule.MotherRule? ==> dot < rule.NumChildren())
      ensures t.Some? <==> !rule.MotherRule?
      ensures t.Some? ==> t.value.Valid() && t.value.dot == 0 && t.value.Mother() == Mother()
      ensures t.Some? ==> t.value.rule.NumChildren() + 1 == NumRemainingChildren()
      ensures t.Some? ==> t.value.rule.Key() == (Mother(), rule.Children()[dot + 1..], rule.TagFlags()[dot + 1..])
    {
      match rule.BuildToRule(dot)
      case None => None
      case Some(r) => Some(Edge(r, 0))
    }
  }

  /** The child-less dot-0 edge `tag -> .`, standing for the helpers
      `Rule.buildLhsOnlyRule` and `Edge.createTagEdge`. */
  function TagEdge(tag: int): (e: Edge)
    ensures e.Valid() && e.dot == 0 && e.rule.NumChildren() == 0 && e.Mother() == tag
  {
    Edge(MotherRule(tag), 0)
  }

  /** `Edge.equals`: the same dot over equal rules. */
  predicate SameEdge(a: Edge, b: Edge)
    requires a.rule.Valid() && b.rule.Valid()
  {
    a.dot == b.dot && a.rule.Key() == b.rule.Key()
  }

  /** Going back `k` steps with `getPrevEdge`. */
  function PrevSteps(e: Edge, k: nat): Option<Edge>
    decreases k
  {
    if k == 0 then Some(e)
    else match e.PrevEdge()
      case None => None
      case Some(p) => PrevSteps(p, k - 1)
  }

  /** `dot` steps back reach the same rule at dot 0; one more gives null. */
  lemma {:induction false} PrevStepsReachStart(e: Edge, k: nat)
    requires k <= e.dot
    ensures PrevSteps(e, k) == Some(Edge(e.rule, e.dot - k))
    ensures PrevSteps(e, e.dot + 1) == None
    decreases e.dot
  {
    if k > 0 {
      PrevStepsReachStart(Edge(e.rule, e.dot - 1), k - 1);
    }
    if e.dot > 0 {
      PrevStepsReachStart(Edge(e.rule, e.dot - 1), 0);
    }
  }

  /** Two edges are equal iff their prev edges are (for dots above zero):
      moving the dot back never merges or splits edges. */
  lemma PrevEdgeKeepsEquality(a: Edge, b: Edge)
    requires a.rule.Valid() && b.rule.Valid() && a.dot >= 1 && b.dot >= 1
    ensures SameEdge(a, b) <==> SameEdge(a.PrevEdge().value, b.PrevEdge().value)
  {
  }

  /** The parts of a dotted edge as `toString` prints them: the consumed
      children, the dot, the rest. */
  function DottedText(lhs: string, parts: seq<string>, dot: nat): string
    requires dot <= |parts|
  {
    lhs + " -> " + Join(parts[..dot] + ["."] + parts[dot..], " ")
  }

  /** The loop of both `Edge.toString` variants: each consumed child and a
      space, the dot, then a space and each remaining child. */
  method DottedString(lhs: string, parts: seq<string>, dot: nat) returns (s: string)
    requires dot <= |parts|
    ensures s == DottedText(lhs, parts, dot)
  {
    s := lhs + " -> ";
    var i := 0;
    while i < dot
      invariant 0 <= i <= dot
      invariant s == lhs + " -> " + EachFollowedBy(parts[..i], " ")
    {
      EachFollowedBySnoc(parts[..i], parts[i], " ");
      assert parts[..i + 1] == parts[..i] + [parts[i]];
      s := s + parts[i] + " ";
      i := i + 1;
    }
    s := s + ".";
    ghost var mid := s;
    assert mid == lhs + " -> " + EachFollowedBy(parts[..dot], " ") + ".";
    while i < |parts|
      invariant dot <= i <= |parts|
      invariant s == mid + EachPrecededBy(parts[dot..i], " ")
    {
      EachPrecededBySnoc(parts[dot..i], parts[i], " ");
      assert parts[dot..i + 1] == parts[dot..i] + [parts[i]];
      s := s + " " + parts[i];
      i := i + 1;
    }
    assert parts[dot..i] == parts[dot..];
    DottedTextParts(lhs, parts, dot);
  }

  /** The dotted text is the consumed children each followed by a space,
      the dot, then each remaining child preceded by a space. */
  lemma DottedTextParts(lhs: string, parts: seq<string>, dot: nat)
    requires dot <= |parts|
    ensures DottedText(lhs, parts, dot) ==
      lhs + " -> " + EachFollowedBy(parts[..dot], " ") + "." + EachPrecededBy(parts[dot..], " ")
  {
    PrecededIsJoin(".", parts[dot..], " ");
    JoinAround(parts[..dot], ".", parts[dot..], " ");
  }

  /** `Edge.toString(tagIndex, wordIndex)`, e.g. `X -> A B . D`. */
  method EdgeToString(e: Edge, tags: Index<string>, words: Index<string>) returns (s: string)
    requires e.Valid() && Named(e.rule, tags, words)
    ensures s == DottedText(LhsString(e.rule, tags), ChildStrs(e.rule, tags, words), e.dot)
  {
    s := DottedString(LhsString(e.rule, tags), ChildStrs(e.rule, tags, words), e.dot);
  }

  /** `Edge.toString()`: the same with the ids in decimal. */
  method EdgeToNumericString(e: Edge) returns (s: string)
    requires e.Valid()
    ensures s == DottedText(IntString(e.rule.mother),
                            seq(e.rule.NumChildren(), i requires 0 <= i < e.rule.NumChildren() => IntString(e.rule.Children()[i])),
                            e.dot)
  {
    s := DottedString(IntString(e.rule.mother),
                      seq(e.rule.NumChildren(), i requires 0 <= i < e.rule.NumChildren() => IntString(e.rule.Children()[i])),
                      e.dot);
  }

  /** The dotted text has the dot between the consumed and the remaining
      children: `X -> A B . D` for dot 2 of `X -> A B D`. */
  lemma DottedTextExample()
    ensures DottedText("X", ["A", "B", "D"], 2) == "X -> A B . D"
    ensures DottedText("X", ["A", "B", "D"], 0) == "X -> . A B D"
  {
    var parts := ["A", "B", "D"];
    assert parts[..2] + ["."] + parts[2..] == ["A", "B", ".", "D"];
    assert Join(["D"], " ") == "D";
    assert Join([".", "D"], " ") == ". D";
    assert Join(["B", ".", "D"], " ") == "B . D";
    assert Join(["A", "B", ".", "D"], " ") == "A B . D";
    assert parts[..0] + ["."] + parts[0..] == [".", "A", "B", "D"];
    assert Join(["B", "D"], " ") == "B D";
    assert Join(["A", "B", "D"], " ") == "A B D";
    assert Join([".", "A", "B", "D"], " ") == ". A B D";
  }

  // ---------------------------------------------------------------------
  // Rules with probabilities.

  /** `ProbRule` and its subclass `BiasProbRule`. */
  datatype ProbRule =
    | ProbRule(rule: Rule, prob: real)
    | BiasProbRule(rule: Rule, prob: real, bias: real)
  {
    /** `getEdge()`: the rule with the dot at 0. */
    function GetEdge(): (e: Edge)
      ensures e.rule == rule && e.dot == 0
      ensures rule.Valid() ==> e.Valid() && e.NumRemainingChildren() == rule.NumChildren()
    {
      Edge(rule, 0)
    }

    /** `getBias()`: 0 for a plain rule, the stored bias otherwise. */
    function GetBias(): real {
      if ProbRule? then 0.0 else bias
    }

    /** `setProb(p)`. */
    function WithProb(p: real): (r: ProbRule)
      ensures r.rule == rule && r.prob == p && r.GetBias() == GetBias() && r.ProbRule? == ProbRule?
    {
      if ProbRule? then ProbRule(rule, p) else BiasProbRule(rule, p, bias)
    }
  }

  /** `ProbRule.equals`: equal rules and identical probabilities; the bias
      is not compared. */
  predicate SameProbRule(a: ProbRule, b: ProbRule)
    requires a.rule.Valid() && b.rule.Valid()
  {
    a.rule.Key() == b.rule.Key() && a.prob == b.prob
  }

  /** Rules that differ only in bias, or in being biased at all, are equal. */
  lemma BiasIgnoredByEquality(r: Rule, p: real, b1: real, b2: real)
    requires r.Valid()
    ensures SameProbRule(BiasProbRule(r, p, b1), BiasProbRule(r, p, b2))
    ensures SameProbRule(ProbRule(r, p), BiasProbRule(r, p, b1))
    ensures BiasProbRule(r, p, b1).GetBias() == b1 && ProbRule(r, p).GetBias() == 0.0
  {
  }

  /** `setProb` keeps the rule, so the result equals the original iff the
      probability is unchanged. */
  lemma WithProbEquality(pr: ProbRule, p: real)
    requires pr.rule.Valid()
    ensures SameProbRule(pr.WithProb(p), pr) <==> p == pr.prob
  {
  }

  /** `toString(tagIndex, wordIndex)`: `RULE : p`, and for a biased rule
      `b RULE : p`.  The plain rule formats its number with `%g` (`fmtG`),
      the biased rule both of its numbers with `%e` (`fmtE`). */
  function ProbRuleText(pr: ProbRule, tags: Index<string>, words: Index<string>,
                        fmtG: real -> string, fmtE: real -> string): (s: string)
    requires Named(pr.rule, tags, words)
    ensures pr.ProbRule? ==> s == RuleText(pr.rule, tags, words) + " : " + fmtG(pr.prob)
    ensures pr.BiasProbRule? ==> s == fmtE(pr.bias) + " " + RuleText(pr.rule, tags, words) + " : " + fmtE(pr.prob)
  {
    if pr.ProbRule? then RuleText(pr.rule, tags, words) + " : " + fmtG(pr.prob)
    else fmtE(pr.bias) + " " + RuleText(pr.rule, tags, words) + " : " + fmtE(pr.prob)
  }

  /** `markString`: `p X --> ...`, and for a biased rule `b p X --> ...`.
      The plain rule formats its probability with `%g` (`fmtG`), the biased
      rule concatenates both numbers as `Double.toString` (`show`) does. */
  method ProbMarkString(pr: ProbRule, tags: Index<string>, words: Index<string>,
                        fmtG: real -> string, show: real -> string) returns (s: string)
    requires Named(pr.rule, tags, words)
    ensures var mark := LhsString(pr.rule, tags) + " --> " + Join(ChildStrs(pr.rule, tags, words), " ");
      if pr.ProbRule? then s == fmtG(pr.prob) + " " + mark
      else s == show(pr.bias) + " " + show(pr.prob) + " " + mark
  {
    var mark := MarkString(pr.rule, tags, words);
    if pr.ProbRule? {
      s := fmtG(pr.prob) + " " + mark;
    } else {
      s := show(pr.bias) + " " + show(pr.prob) + " " + mark;
    }
  }
}
