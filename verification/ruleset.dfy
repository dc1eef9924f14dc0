/** The rule table `RuleSet`: rules numbered 0, 1, 2, ... in the order they
    are first added, looked up by rule equality, with the list of rule ids
    of every mother tag.  Adding a rule that is already there returns its id
    when the probabilities agree to within 1e-10, and aborts otherwise.

    `add` appends every rule it is given to `allRules`, also the repeated
    ones that get no new id, so after a repeat `get(id)` no longer returns
    rule `id` and the conflict check compares with the wrong rule.  Both the
    code as written (`AddAsWritten`) and the evidently intended table, where
    `allRules` holds one entry per id (`AddCorrected`), are modelled; the
    class's `add`, `addAll` and the grammar reader use the code as written,
    and `AddOnce` keeps the intended one beside it. */
module RuleTable {
  import opened Wrappers
  import opened Rules

  /** What `Rule.equals` and the hash map key on. */
  type RuleKey = (int, seq<int>, seq<bool>)

  const Tolerance: real := 0.0000000001

  function Abs(x: real): real { if x < 0.0 then -x else x }

  /** `Math.abs(p - q) < 1e-10`. */
  predicate Close(p: real, q: real) { Abs(p - q) < Tolerance }

  /** The four fields of a `RuleSet`. */
  datatype Table = Table(allRules: seq<ProbRule>, ruleMap: map<RuleKey, int>,
                         tag2ruleIndices: map<int, seq<int>>, numRules: int)

  function Empty(): Table { Table([], map[], map[], 0) }

  /** What both versions of `add` keep: ids run below `numRules`, no two
      rules share one, every stored rule is valid, and every mother lists
      its ids in increasing order, each of them once. */
  ghost predicate Valid(t: Table) {
    0 <= t.numRules <= |t.allRules| &&
    (forall i :: 0 <= i < |t.allRules| ==> t.allRules[i].rule.Valid()) &&
    (forall k :: k in t.ruleMap ==> 0 <= t.ruleMap[k] < t.numRules && k.0 in t.tag2ruleIndices && t.ruleMap[k] in t.tag2ruleIndices[k.0]) &&
    (forall k1, k2 :: k1 in t.ruleMap && k2 in t.ruleMap && k1 != k2 ==> t.ruleMap[k1] != t.ruleMap[k2]) &&
    (forall m :: m in t.tag2ruleIndices ==> ListSound(t, m))
  }

  /** The mother's list is increasing and names rules of that mother. */
  ghost predicate ListSound(t: Table, m: int)
    requires m in t.tag2ruleIndices
  {
    var l := t.tag2ruleIndices[m];
    Increasing(l) &&
    forall j :: 0 <= j < |l| ==> (0 <= l[j] < t.numRules &&
      exists k :: k in t.ruleMap && k.0 == m && t.ruleMap[k] == l[j])
  }

  lemma ListEntryNamed(t: Table, m: int, j: int)
    requires m in t.tag2ruleIndices && ListSound(t, m) && 0 <= j < |t.tag2ruleIndices[m]|
    ensures exists k :: k in t.ruleMap && k.0 == m && t.ruleMap[k] == t.tag2ruleIndices[m][j]
  {
    var l := t.tag2ruleIndices[m];
    assert 0 <= l[j] < t.numRules;
  }

  /** The intended layout: `allRules[id]` is the rule numbered `id`, and
      `indexOf(get(id).rule) == id`. */
  ghost predicate Aligned(t: Table) {
    Valid(t) && |t.allRules| == t.numRules &&
    (forall i :: 0 <= i < t.numRules ==> t.allRules[i].rule.Key() in t.ruleMap && t.ruleMap[t.allRules[i].rule.Key()] == i) &&
    (forall k :: k in t.ruleMap ==> t.allRules[t.ruleMap[k]].rule.Key() == k)
  }

  predicate Increasing(s: seq<int>) {
    forall i, j :: 0 <= i < j < |s| ==> s[i] < s[j]
  }

  /** The new id appended to the mother's list. */
  function Listed(m: map<int, seq<int>>, tag: int, id: int): map<int, seq<int>> {
    m[tag := (if tag in m then m[tag] else []) + [id]]
  }

  /** `add` as written: the rule is appended to `allRules` first, and a
      repeated rule is checked against `allRules[id]`. */
  function AddAsWritten(t: Table, pr: ProbRule): (r: (Table, Result<int>))
    requires Valid(t) && pr.rule.Valid()
  {
    var all := t.allRules + [pr];
    var key := pr.rule.Key();
    if key in t.ruleMap then
      var id := t.ruleMap[key];
      if Close(all[id].prob, pr.prob) then (t.(allRules := all), Ok(id))
      else (t.(allRules := all), Fail("conflicts with existing rule"))
    else
      var id := t.numRules;
      (Table(all, t.ruleMap[key := id], Listed(t.tag2ruleIndices, pr.rule.mother, id), id + 1), Ok(id))
  }

  /** `add` as intended: a repeated rule is checked against its own entry
      and is not appended again. */
  function AddCorrected(t: Table, pr: ProbRule): (r: (Table, Result<int>))
    requires Valid(t) && pr.rule.Valid()
  {
    var key := pr.rule.Key();
    if key in t.ruleMap then
      var id := t.ruleMap[key];
      if Close(t.allRules[id].prob, pr.prob) then (t, Ok(id))
      else (t, Fail("conflicts with existing rule"))
    else
      var id := t.numRules;
      (Table(t.allRules + [pr], t.ruleMap[key := id], Listed(t.tag2ruleIndices, pr.rule.mother, id), id + 1), Ok(id))
  }

  /** Both versions keep the table valid.  A new rule gets the next id and
      `size()` grows by one; a repeated one keeps its id and the size; a
      conflicting probability aborts. */
  lemma AddAsWrittenValid(t: Table, pr: ProbRule)
    requires Valid(t) && pr.rule.Valid()
    ensures var (t2, r) := AddAsWritten(t, pr);
      Valid(t2) && |t2.allRules| == |t.allRules| + 1 &&
      (pr.rule.Key() !in t.ruleMap ==> r == Ok(t.numRules) && t2.numRules == t.numRules + 1) &&
      (pr.rule.Key() in t.ruleMap ==> (t2.numRules == t.numRules && t2.ruleMap == t.ruleMap &&
        (r.Ok? <==> Close(t.allRules[t.ruleMap[pr.rule.Key()]].prob, pr.prob)) &&
        (r.Ok? ==> r.value == t.ruleMap[pr.rule.Key()])))
  {
    var (t2, r) := AddAsWritten(t, pr);
    if pr.rule.Key() !in t.ruleMap {
      NewRuleKeepsValid(t, pr, t2);
    } else {
      assert (t.allRules + [pr])[t.ruleMap[pr.rule.Key()]] == t.allRules[t.ruleMap[pr.rule.Key()]];
      AppendOnlyValid(t, pr);
    }
  }

  /** Appending a valid rule to `allRules` alone keeps the table valid: the
      map, the lists and `numRules` do not look past `numRules`. */
  lemma AppendOnlyValid(t: Table, pr: ProbRule)
    requires Valid(t) && pr.rule.Valid()
    ensures Valid(t.(allRules := t.allRules + [pr]))
  {
    var t2 := t.(allRules := t.allRules + [pr]);
    forall m | m in t2.tag2ruleIndices ensures ListSound(t2, m) {
      assert ListSound(t, m);
    }
  }

  lemma AddCorrectedAligned(t: Table, pr: ProbRule)
    requires Aligned(t) && pr.rule.Valid()
    ensures var (t2, r) := AddCorrected(t, pr);
      Aligned(t2) &&
      (pr.rule.Key() !in t.ruleMap ==> r == Ok(t.numRules) && t2.numRules == t.numRules + 1 && t2.allRules[t.numRules] == pr) &&
      (pr.rule.Key() in t.ruleMap ==> (t2 == t &&
        (r.Ok? <==> Close(t.allRules[t.ruleMap[pr.rule.Key()]].prob, pr.prob)) &&
        (r.Ok? ==> r.value == t.ruleMap[pr.rule.Key()] && t.allRules[r.value].rule.Key() == pr.rule.Key())))
  {
    var (t2, r) := AddCorrected(t, pr);
    if pr.rule.Key() !in t.ruleMap {
      NewRuleKeepsValid(t, pr, t2);
      var key := pr.rule.Key();
      forall i | 0 <= i < t2.numRules
        ensures t2.allRules[i].rule.Key() in t2.ruleMap && t2.ruleMap[t2.allRules[i].rule.Key()] == i
      {
        if i < t.numRules {
          assert t2.allRules[i] == t.allRules[i];
          assert t.allRules[i].rule.Key() != key;
        }
      }
      forall k | k in t2.ruleMap
        ensures t2.allRules[t2.ruleMap[k]].rule.Key() == k
      {
        if k != key {
          assert t2.allRules[t.ruleMap[k]] == t.allRules[t.ruleMap[k]];
        }
      }
    }
  }

  lemma NewRuleKeepsValid(t: Table, pr: ProbRule, t2: Table)
    requires Valid(t) && pr.rule.Valid() && pr.rule.Key() !in t.ruleMap
    requires |t2.allRules| >= |t.allRules| + 1 && t2.allRules[..|t.allRules|] == t.allRules && t2.allRules[|t2.allRules| - 1] == pr
    requires t2.ruleMap == t.ruleMap[pr.rule.Key() := t.numRules]
    requires t2.tag2ruleIndices == Listed(t.tag2ruleIndices, pr.rule.mother, t.numRules)
    requires t2.numRules == t.numRules + 1 && t2.numRules <= |t2.allRules|
    requires |t2.allRules| == |t.allRules| + 1
    ensures Valid(t2)
  {
    var key := pr.rule.Key();
    var m := pr.rule.mother;
    forall i | 0 <= i < |t2.allRules|
      ensures t2.allRules[i].rule.Valid()
    {
      if i < |t.allRules| {
        assert t2.allRules[i] == t.allRules[i];
      }
    }
    forall tag | tag in t2.tag2ruleIndices
      ensures ListSound(t2, tag)
    {
      NewRuleListSound(t, key, m, t2, tag);
    }
  }

  lemma NewRuleListSound(t: Table, key: RuleKey, m: int, t2: Table, tag: int)
    requires Valid(t) && key !in t.ruleMap && key.0 == m
    requires t2.ruleMap == t.ruleMap[key := t.numRules]
    requires t2.tag2ruleIndices == Listed(t.tag2ruleIndices, m, t.numRules)
    requires t2.numRules == t.numRules + 1
    requires tag in t2.tag2ruleIndices
    ensures ListSound(t2, tag)
  {
    if tag == m {
      NewRuleOwnList(t, key, m, t2);
    } else {
      NewRuleOtherList(t, key, m, t2, tag);
    }
  }

  /** The list of the new rule's own mother gains its id at the end. */
  lemma NewRuleOwnList(t: Table, key: RuleKey, m: int, t2: Table)
    requires Valid(t) && key !in t.ruleMap && key.0 == m
    requires t2.ruleMap == t.ruleMap[key := t.numRules]
    requires t2.tag2ruleIndices == Listed(t.tag2ruleIndices, m, t.numRules)
    requires t2.numRules == t.numRules + 1
    ensures m in t2.tag2ruleIndices && ListSound(t2, m)
  {
    var l := t2.tag2ruleIndices[m];
    var old_ := if m in t.tag2ruleIndices then t.tag2ruleIndices[m] else [];
    assert l == old_ + [t.numRules];
    forall j | 0 <= j < |l|
      ensures 0 <= l[j] < t2.numRules
      ensures exists k :: k in t2.ruleMap && k.0 == m && t2.ruleMap[k] == l[j]
    {
      if j < |old_| {
        ListEntryNamed(t, m, j);
        var k :| k in t.ruleMap && k.0 == m && t.ruleMap[k] == old_[j];
        assert t2.ruleMap[k] == l[j];
      } else {
        assert t2.ruleMap[key] == l[j];
      }
    }
  }

  /** The lists of the other mothers keep their entries, still named. */
  lemma NewRuleOtherList(t: Table, key: RuleKey, m: int, t2: Table, tag: int)
    requires Valid(t) && key !in t.ruleMap && key.0 == m
    requires t2.ruleMap == t.ruleMap[key := t.numRules]
    requires t2.tag2ruleIndices == Listed(t.tag2ruleIndices, m, t.numRules)
    requires t2.numRules == t.numRules + 1
    requires tag in t2.tag2ruleIndices && tag != m
    ensures ListSound(t2, tag)
  {
    var l := t2.tag2ruleIndices[tag];
    assert tag in t.tag2ruleIndices && l == t.tag2ruleIndices[tag];
    assert ListSound(t, tag);
    forall j | 0 <= j < |l|
      ensures exists k :: k in t2.ruleMap && k.0 == tag && t2.ruleMap[k] == l[j]
    {
      ListEntryNamed(t, tag, j);
      var k :| k in t.ruleMap && k.0 == tag && t.ruleMap[k] == l[j];
      assert t2.ruleMap[k] == l[j];
    }
  }

  /** Adding `a`, `a` again and then `b` leaves `allRules` one longer than
      `size()`, so `get(1)` returns `a` although `b` has id 1; adding `b`
      once more with its own probability then aborts, comparing it with
      `a`'s. */
  lemma RepeatedAddShiftsIds(a: ProbRule, b: ProbRule)
    requires a.rule.Valid() && b.rule.Valid() && a.rule.Key() != b.rule.Key()
    requires !Close(a.prob, b.prob)
    ensures var (t1, r1) := AddAsWritten(Empty(), a);
      Valid(t1) && r1 == Ok(0) &&
      var (t2, r2) := AddAsWritten(t1, a);
      Valid(t2) && r2 == Ok(0) &&
      var (t3, r3) := AddAsWritten(t2, b);
      Valid(t3) && r3 == Ok(1) && t3.numRules == 2 && |t3.allRules| == 3 &&
      t3.allRules[1] == a &&
      AddAsWritten(t3, b).1.Fail?
  {
    var e := Empty();
    assert Valid(e);
    AddAsWrittenValid(e, a);
    var t1 := AddAsWritten(e, a).0;
    AddAsWrittenValid(t1, a);
    var t2 := AddAsWritten(t1, a).0;
    assert t2.allRules == [a, a];
    AddAsWrittenValid(t2, b);
    var t3 := AddAsWritten(t2, b).0;
    assert t3.allRules == [a, a, b];
    assert t3.ruleMap[b.rule.Key()] == 1;
  }

  /** With the intended `add` the same sequence keeps one entry per id and
      accepts `b` again. */
  lemma RepeatedAddCorrected(a: ProbRule, b: ProbRule)
    requires a.rule.Valid() && b.rule.Valid() && a.rule.Key() != b.rule.Key()
    ensures var (t1, r1) := AddCorrected(Empty(), a);
      Aligned(t1) && r1 == Ok(0) &&
      var (t2, r2) := AddCorrected(t1, a);
      Aligned(t2) && r2 == Ok(0) &&
      var (t3, r3) := AddCorrected(t2, b);
      Aligned(t3) && r3 == Ok(1) && t3.allRules == [a, b] &&
      AddCorrected(t3, b) == (t3, Ok(1))
  {
    var e := Empty();
    assert Aligned(e);
    AddCorrectedAligned(e, a);
    var t1 := AddCorrected(e, a).0;
    assert t1.allRules == [a];
    AddAgainCorrected(t1, a);
    AddCorrectedAligned(t1, b);
    var t3 := AddCorrected(t1, b).0;
    assert t3.allRules == [a, b];
    AddAgainCorrected(t3, b);
  }

  /** The intended `add` of a rule stored with the same probability
      returns its id and changes nothing. */
  lemma AddAgainCorrected(t: Table, pr: ProbRule)
    requires Aligned(t) && pr.rule.Valid() && pr in t.allRules
    ensures pr.rule.Key() in t.ruleMap && AddCorrected(t, pr) == (t, Ok(t.ruleMap[pr.rule.Key()]))
  {
    var i :| 0 <= i < |t.allRules| && t.allRules[i] == pr;
    assert Close(pr.prob, pr.prob);
  }

  /** `indexOf`: the stored id or -1; `contains` agrees with it. */
  function IndexOf(t: Table, rule: Rule): (i: int)
    requires Valid(t) && rule.Valid()
    ensures i == -1 <==> rule.Key() !in t.ruleMap
    ensures i != -1 ==> 0 <= i < t.numRules
  {
    if rule.Key() in t.ruleMap then t.ruleMap[rule.Key()] else -1
  }

  /** In the intended table every stored rule is found at its own id. */
  lemma IndexOfGet(t: Table, i: int)
    requires Aligned(t) && 0 <= i < t.numRules
    ensures IndexOf(t, t.allRules[i].rule) == i
  {
  }

  /** `setProb` changes one probability and nothing else; ids, lookups and
      the layout stay as they were. */
  function SetProb(t: Table, id: int, p: real): (t2: Table)
    requires 0 <= id < |t.allRules|
    ensures |t2.allRules| == |t.allRules| && t2.allRules[id].prob == p
    ensures t2.allRules[id].rule == t.allRules[id].rule && t2.allRules[id].GetBias() == t.allRules[id].GetBias()
    ensures forall j :: 0 <= j < |t.allRules| && j != id ==> t2.allRules[j] == t.allRules[j]
    ensures t2.ruleMap == t.ruleMap && t2.tag2ruleIndices == t.tag2ruleIndices && t2.numRules == t.numRules
  {
    t.(allRules := t.allRules[id := t.allRules[id].WithProb(p)])
  }

  lemma SetProbAligned(t: Table, id: int, p: real)
    requires Aligned(t) && 0 <= id < t.numRules
    ensures Aligned(SetProb(t, id, p))
  {
    var t2 := SetProb(t, id, p);
    assert forall i :: 0 <= i < |t2.allRules| ==> t2.allRules[i].rule == t.allRules[i].rule;
    forall m | m in t2.tag2ruleIndices
      ensures ListSound(t2, m)
    {
      assert ListSound(t, m);
    }
  }

  /** `addAll`: the rules added one after the other with `add` as written,
      stopping at the first conflict.  Every rule given is appended to
      `allRules`, every one of them is in the table afterwards, and no rule
      that was there is lost. */
  function AddAllSpec(t: Table, prs: seq<ProbRule>): (r: Result<Table>)
    requires Valid(t) && forall i :: 0 <= i < |prs| ==> prs[i].rule.Valid()
    ensures r.Ok? ==> Valid(r.value) && r.value.allRules == t.allRules + prs
    ensures r.Ok? ==> t.numRules <= r.value.numRules <= t.numRules + |prs|
    ensures r.Ok? ==> forall k :: k in t.ruleMap ==> k in r.value.ruleMap
    ensures r.Ok? ==> forall i :: 0 <= i < |prs| ==> prs[i].rule.Key() in r.value.ruleMap
    decreases |prs|
  {
    if prs == [] then Ok(t)
    else
      AddAsWrittenValid(t, prs[0]);
      AddAsWrittenKeys(t, prs[0]);
      var (t1, r) := AddAsWritten(t, prs[0]);
      if r.Fail? then Fail(r.reason)
      else
        var rest := AddAllSpec(t1, prs[1..]);
        if rest.Fail? then rest
        else
          AddAllStep(t, t1, prs, rest.value);
          rest
  }

  /** `add` as written appends the rule, keeps every key and adds the
      rule's own. */
  lemma AddAsWrittenKeys(t: Table, pr: ProbRule)
    requires Valid(t) && pr.rule.Valid()
    ensures var t2 := AddAsWritten(t, pr).0;
      t2.allRules == t.allRules + [pr] && pr.rule.Key() in t2.ruleMap &&
      (forall k :: k in t.ruleMap ==> k in t2.ruleMap) &&
      t.numRules <= t2.numRules <= t.numRules + 1
  {
  }

  /** One more rule in front of the rest of `addAll`. */
  lemma AddAllStep(t: Table, t1: Table, prs: seq<ProbRule>, t2: Table)
    requires prs != [] && forall i :: 0 <= i < |prs| ==> prs[i].rule.Valid()
    requires t1.allRules == t.allRules + [prs[0]] && prs[0].rule.Key() in t1.ruleMap
    requires forall k :: k in t.ruleMap ==> k in t1.ruleMap
    requires t2.allRules == t1.allRules + prs[1..]
    requires forall k :: k in t1.ruleMap ==> k in t2.ruleMap
    requires forall i :: 0 <= i < |prs[1..]| ==> prs[1..][i].rule.Key() in t2.ruleMap
    ensures t2.allRules == t.allRules + prs
    ensures forall k :: k in t.ruleMap ==> k in t2.ruleMap
    ensures forall i :: 0 <= i < |prs| ==> prs[i].rule.Key() in t2.ruleMap
  {
    assert t.allRules + [prs[0]] + prs[1..] == t.allRules + prs;
    forall i | 0 <= i < |prs| ensures prs[i].rule.Key() in t2.ruleMap {
      if i > 0 {
        assert prs[i] == prs[1..][i - 1];
      }
    }
  }

  /** The object: its four fields, updated in place. */
  class RuleSet {
    var allRules: seq<ProbRule>
    var ruleMap: map<RuleKey, int>
    var tag2ruleIndices: map<int, seq<int>>
    var numRules: int

    function Snapshot(): Table
      reads this
    {
      Table(allRules, ruleMap, tag2ruleIndices, numRules)
    }

    constructor ()
      ensures Snapshot() == Empty() && Aligned(Snapshot())
    {
      allRules := [];
      ruleMap := map[];
      tag2ruleIndices := map[];
      numRules := 0;
    }

    /** `add(probRule)` as written: the rule goes into `allRules` before the
        repeat check. */
    method Add(pr: ProbRule) returns (r: Result<int>)
      requires Valid(Snapshot()) && pr.rule.Valid()
      modifies this
      ensures (Snapshot(), r) == AddAsWritten(old(Snapshot()), pr)
      ensures Valid(Snapshot())
    {
      ghost var t := Snapshot();
      AddAsWrittenValid(t, pr);
      allRules := allRules + [pr];
      var key := pr.rule.Key();
      if key in ruleMap {
        var id := ruleMap[key];
        if Close(allRules[id].prob, pr.prob) {
          return Ok(id);
        }
        return Fail("conflicts with existing rule");
      }
      var id := numRules;
      numRules := numRules + 1;
      ruleMap := ruleMap[key := id];
      var mine := if pr.rule.mother in tag2ruleIndices then tag2ruleIndices[pr.rule.mother] else [];
      tag2ruleIndices := tag2ruleIndices[pr.rule.mother := mine + [id]];
      assert Snapshot() == AddAsWritten(t, pr).0;
      return Ok(id);
    }

    /** The intended `add(probRule)`: a repeated rule is not appended, so
        `allRules` keeps one entry per id. */
    method AddOnce(pr: ProbRule) returns (r: Result<int>)
      requires Aligned(Snapshot()) && pr.rule.Valid()
      modifies this
      ensures (Snapshot(), r) == AddCorrected(old(Snapshot()), pr)
      ensures Aligned(Snapshot())
    {
      AddCorrectedAligned(Snapshot(), pr);
      var key := pr.rule.Key();
      if key in ruleMap {
        var id := ruleMap[key];
        if Close(allRules[id].prob, pr.prob) {
          return Ok(id);
        }
        return Fail("conflicts with existing rule");
      }
      var id := numRules;
      numRules := numRules + 1;
      allRules := allRules + [pr];
      ruleMap := ruleMap[key := id];
      var mine := if pr.rule.mother in tag2ruleIndices then tag2ruleIndices[pr.rule.mother] else [];
      tag2ruleIndices := tag2ruleIndices[pr.rule.mother := mine + [id]];
      return Ok(id);
    }

    /** `addAll(probRules)`: stops at the first conflict. */
    method AddAll(prs: seq<ProbRule>) returns (r: Result<()>)
      requires Valid(Snapshot()) && forall i :: 0 <= i < |prs| ==> prs[i].rule.Valid()
      modifies this
      ensures r.Ok? <==> AddAllSpec(old(Snapshot()), prs).Ok?
      ensures r.Ok? ==> Snapshot() == AddAllSpec(old(Snapshot()), prs).value
      ensures Valid(Snapshot())
    {
      var i := 0;
      while i < |prs|
        invariant 0 <= i <= |prs| && Valid(Snapshot())
        invariant AddAllSpec(old(Snapshot()), prs) == AddAllSpec(Snapshot(), prs[i..])
      {
        assert prs[i..][1..] == prs[i + 1..];
        var res := Add(prs[i]);
        if res.Fail? {
          return Fail(res.reason);
        }
        i := i + 1;
      }
      return Ok(());
    }

    /** `getProb(ruleId)`. */
    method GetProb(id: int) returns (p: real)
      requires 0 <= id < |allRules|
      ensures p == allRules[id].prob
    {
      p := allRules[id].prob;
    }

    /** `setProb(ruleId, p)`. */
    method SetProbOf(id: int, p: real)
      requires 0 <= id < |allRules|
      modifies this
      ensures Snapshot() == SetProb(old(Snapshot()), id, p)
    {
      allRules := allRules[id := allRules[id].WithProb(p)];
    }

    /** `size()`: the number of distinct rules. */
    method Size() returns (n: int)
      ensures n == numRules
    {
      n := numRules;
    }

    /** `contains(rule)`. */
    method Contains(rule: Rule) returns (b: bool)
      requires Valid(Snapshot()) && rule.Valid()
      ensures b <==> IndexOf(Snapshot(), rule) != -1
    {
      b := rule.Key() in ruleMap;
    }

    /** `indexOf(rule)`. */
    method IndexOfRule(rule: Rule) returns (i: int)
      requires Valid(Snapshot()) && rule.Valid()
      ensures i == IndexOf(Snapshot(), rule)
    {
      if rule.Key() in ruleMap {
        i := ruleMap[rule.Key()];
      } else {
        i := -1;
      }
    }

    /** `get(i)`. */
    method Get(i: int) returns (pr: ProbRule)
      requires 0 <= i < |allRules|
      ensures pr == allRules[i]
      ensures Aligned(Snapshot()) && i < numRules ==> IndexOf(Snapshot(), pr.rule) == i
    {
      pr := allRules[i];
    }
  }
}
