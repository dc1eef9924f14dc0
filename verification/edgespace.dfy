/** The edge space: dotted edges interned as contiguous integer ids, with
    the `to` id of every active edge (the edge after moving over its next
    child) kept in a growable array.  The two policies differ only in what
    that next edge is: the standard space moves the dot, the left-wildcard
    space drops the consumed children and restarts at dot 0, so that rules
    with the same mother and the same remaining children share edges.

    The table interns edges up to `Edge.equals`, so it holds each edge in
    the form that relation compares: mother, children, one tag flag per
    child, and the dot (`Canon` below; `CanonEquals` shows that equal forms
    are exactly equal edges). */
module EdgeSpaces {
  import opened Wrappers
  import opened Rules
  import Indexing

  /** An edge as `Edge.equals` sees it. */
  datatype DEdge = DEdge(mother: int, kids: seq<int>, flags: seq<bool>, dot: nat)
  {
    function Remaining(): int { |kids| - dot }
  }

  datatype Policy = Standard | LeftWildcard

  function Canon(e: Edge): (d: DEdge)
    requires e.rule.Valid()
  {
    DEdge(e.Mother(), e.rule.Children(), e.rule.TagFlags(), e.dot)
  }

  /** Two edges have the same form exactly when `Edge.equals` holds. */
  lemma CanonEquals(a: Edge, b: Edge)
    requires a.rule.Valid() && b.rule.Valid()
    ensures Canon(a) == Canon(b) <==> SameEdge(a, b)
  {
  }

  /** An edge `addEdge` can take: well formed, every child after the dot a
      tag (a word there has no via edge). */
  predicate Good(d: DEdge) {
    |d.flags| == |d.kids| && d.dot <= |d.kids| &&
    forall i :: d.dot <= i < |d.kids| ==> d.flags[i]
  }

  /** `Edge.createTagEdge(t)`: `t -> .`. */
  function TagD(t: int): DEdge {
    DEdge(t, [], [], 0)
  }

  /** `getViaEdge()` of an active edge: `child -> .` for the next child. */
  function Via(d: DEdge): (v: DEdge)
    requires Good(d) && d.Remaining() > 0
    ensures Good(v) && v.Remaining() == 0
  {
    TagD(d.kids[d.dot])
  }

  /** `getToEdge(e)` of each policy: the dot moved over one child
      (standard), or dot 0 of the same mother over the children after the
      next one (left wildcard). */
  function ToOf(p: Policy, d: DEdge): (t: DEdge)
    requires Good(d) && d.Remaining() > 0
    ensures Good(t) && t.mother == d.mother && t.Remaining() + 1 == d.Remaining()
  {
    match p
    case Standard => d.(dot := d.dot + 1)
    case LeftWildcard => DEdge(d.mother, d.kids[d.dot + 1..], d.flags[d.dot + 1..], 0)
  }

  /** The forms of the `Edge` operations agree with the functions above. */
  lemma CanonOperations(e: Edge, t: int)
    requires e.Valid() && forall i :: e.dot <= i < e.rule.NumChildren() ==> e.rule.IsTag(i)
    ensures Good(Canon(e))
    ensures Canon(TagEdge(t)) == TagD(t)
    ensures e.NumRemainingChildren() > 0 ==> Canon(e.ViaEdge().value) == Via(Canon(e))
    ensures e.NumRemainingChildren() > 0 ==> Canon(Edge(e.rule, e.dot + 1)) == ToOf(Standard, Canon(e))
    ensures e.NumRemainingChildren() > 0 ==> Canon(e.ToEdge().value) == ToOf(LeftWildcard, Canon(e))
  {
  }

  /** The edge table as values: the interned edges, `to[0..size)` and the
      active edges. */
  datatype Space = Space(edges: seq<DEdge>, to: seq<int>, active: set<int>)

  ghost predicate Wf(s: Space) {
    |s.to| == |s.edges| &&
    (forall i :: 0 <= i < |s.edges| ==> Good(s.edges[i])) &&
    (forall i :: i in s.active ==> 0 <= i < |s.edges|)
  }

  /** No edge is interned twice. */
  ghost predicate Distinct(edges: seq<DEdge>) {
    forall i, j :: 0 <= i < j < |edges| ==> edges[i] != edges[j]
  }

  /** `indexOf(e)`: the id of `e`, or -1. */
  function IndexOf(s: Space, d: DEdge): (i: int)
    ensures -1 <= i < |s.edges|
    ensures i >= 0 ==> s.edges[i] == d
    ensures i == -1 <==> d !in s.edges
  {
    Indexing.Find(s.edges, d)
  }

  /** `addEdge(e)`: an interned edge returns its id; a new one gets the next
      id, then `to = -1` if passive, and otherwise joins the active edges,
      has its via edge added, and gets `to` = the id of its to-edge, added
      the same way. */
  function AddEdgeF(p: Policy, s: Space, d: DEdge): (r: (Space, int))
    requires Wf(s) && Good(d)
    ensures Wf(r.0) && |s.edges| <= |r.0.edges| && 0 <= r.1 < |r.0.edges|
    decreases d.Remaining()
  {
    var i := IndexOf(s, d);
    if i >= 0 then (s, i)
    else
      var state := |s.edges|;
      var s1 := Space(s.edges + [d], s.to + [0], s.active);
      if d.Remaining() == 0 then
        (s1.(to := s1.to[state := -1]), state)
      else
        var s2 := s1.(active := s1.active + {state});
        var (s3, _) := AddEdgeF(p, s2, Via(d));
        var (s4, toState) := AddEdgeF(p, s3, ToOf(p, d));
        (s4.(to := s4.to[state := toState]), state)
  }

  /** `t` is `s` with more edges interned: the old ids, their `to` and
      their activity are unchanged. */
  ghost predicate Grows(s: Space, t: Space) {
    |s.edges| <= |t.edges| && |s.to| <= |t.to| &&
    t.edges[..|s.edges|] == s.edges && t.to[..|s.to|] == s.to &&
    forall i :: 0 <= i < |s.edges| ==> (i in t.active <==> i in s.active)
  }

  lemma GrowsTrans(s: Space, t: Space, u: Space)
    requires Grows(s, t) && Grows(t, u)
    ensures Grows(s, u)
  {
    assert u.edges[..|s.edges|] == u.edges[..|t.edges|][..|s.edges|];
    assert u.to[..|s.to|] == u.to[..|t.to|][..|s.to|];
  }

  /** What `addEdge` promises: the old ids are kept, the returned id holds
      `e`, an interned edge changes nothing, and a new one gets the next
      id. */
  lemma {:induction false} AddEdgeGrows(p: Policy, s: Space, d: DEdge)
    requires Wf(s) && Good(d)
    ensures var r := AddEdgeF(p, s, d);
      Grows(s, r.0) && r.0.edges[r.1] == d &&
      (d in s.edges ==> r == (s, IndexOf(s, d))) &&
      (d !in s.edges ==> r.1 == |s.edges|)
    decreases d.Remaining()
  {
    if d !in s.edges {
      var state := |s.edges|;
      var s1 := Space(s.edges + [d], s.to + [0], s.active);
      if d.Remaining() > 0 {
        var s2 := s1.(active := s1.active + {state});
        var (s3, _) := AddEdgeF(p, s2, Via(d));
        var (s4, toState) := AddEdgeF(p, s3, ToOf(p, d));
        assert AddEdgeF(p, s, d) == (s4.(to := s4.to[state := toState]), state);
        AddEdgeGrows(p, s2, Via(d));
        AddEdgeGrows(p, s3, ToOf(p, d));
        GrowsTrans(s2, s3, s4);
        AddEdgeNewShape(p, s, d, s4, toState);
      } else {
        var r := s1.(to := s1.to[state := -1]);
        assert AddEdgeF(p, s, d) == (r, state);
        assert r.edges[..|s.edges|] == s.edges && r.to[..|s.to|] == s.to;
      }
    }
  }

  /** The last step of adding a new active edge: setting its `to` keeps
      the growth. */
  lemma AddEdgeNewShape(p: Policy, s: Space, d: DEdge, s4: Space, toState: int)
    requires Wf(s) && Good(d) && d !in s.edges && d.Remaining() > 0
    requires Grows(Space(s.edges + [d], s.to + [0], s.active + {|s.edges|}), s4)
    ensures Grows(s, s4.(to := s4.to[|s.edges| := toState]))
    ensures s4.edges[|s.edges|] == d
  {
    var state := |s.edges|;
    var s2 := Space(s.edges + [d], s.to + [0], s.active + {state});
    var r := s4.(to := s4.to[state := toState]);
    assert s4.edges[..|s.edges|] == s2.edges[..|s.edges|];
    assert s4.edges[state] == s2.edges[state];
    assert r.to[..|s.to|] == s4.to[..|s2.to|][..|s.to|];
  }

  /** `addEdge` never interns an edge twice. */
  lemma {:induction false} AddEdgeDistinct(p: Policy, s: Space, d: DEdge)
    requires Wf(s) && Good(d) && Distinct(s.edges)
    ensures Distinct(AddEdgeF(p, s, d).0.edges)
    decreases d.Remaining()
  {
    if d !in s.edges {
      var state := |s.edges|;
      var s1 := Space(s.edges + [d], s.to + [0], s.active);
      if d.Remaining() > 0 {
        var s2 := s1.(active := s1.active + {state});
        var (s3, _) := AddEdgeF(p, s2, Via(d));
        AddEdgeDistinct(p, s2, Via(d));
        AddEdgeDistinct(p, s3, ToOf(p, d));
      }
    }
  }

  // ---------------------------------------------------------------------
  // Closure: what every id of a finished table satisfies.

  /** Id `i` is finished: a passive edge has `to = -1` and is not active;
      an active edge is active, its via edge is interned, and its `to` is
      the id of its to-edge. */
  ghost predicate ClosedAt(p: Policy, s: Space, i: int)
    requires Wf(s)
  {
    0 <= i < |s.edges| &&
    var d := s.edges[i];
    (d.Remaining() == 0 ==> s.to[i] == -1 && i !in s.active) &&
    (d.Remaining() > 0 ==>
      i in s.active && Via(d) in s.edges &&
      0 <= s.to[i] < |s.edges| && s.edges[s.to[i]] == ToOf(p, d))
  }

  ghost predicate Closed(p: Policy, s: Space)
    requires Wf(s)
  {
    forall i :: 0 <= i < |s.edges| ==> ClosedAt(p, s, i)
  }

  /** Interning more edges never undoes a finished id. */
  lemma ClosedExtends(p: Policy, s: Space, t: Space, i: int)
    requires Wf(s) && Wf(t) && Grows(s, t) && ClosedAt(p, s, i)
    ensures ClosedAt(p, t, i)
  {
    var d := s.edges[i];
    assert t.edges[i] == d && t.to[i] == s.to[i];
    if d.Remaining() > 0 {
      assert t.edges[s.to[i]] == s.edges[s.to[i]];
      var k :| 0 <= k < |s.edges| && s.edges[k] == Via(d);
      assert t.edges[k] == s.edges[k];
    }
  }

  /** Changing the `to` of another id does not undo a finished id. */
  lemma ClosedAtOtherTo(p: Policy, s: Space, i: int, j: int, v: int)
    requires Wf(s) && ClosedAt(p, s, i) && 0 <= j < |s.to| && i != j
    ensures ClosedAt(p, s.(to := s.to[j := v]), i)
  {
  }

  /** `addEdge` finishes every id it creates and keeps the finished ones. */
  lemma {:induction false} AddEdgeCloses(p: Policy, s: Space, d: DEdge)
    requires Wf(s) && Good(d)
    ensures var r := AddEdgeF(p, s, d).0;
      (forall i :: 0 <= i < |s.edges| && ClosedAt(p, s, i) ==> ClosedAt(p, r, i)) &&
      (forall i :: |s.edges| <= i < |r.edges| ==> ClosedAt(p, r, i))
    decreases d.Remaining(), 1
  {
    var r := AddEdgeF(p, s, d).0;
    AddEdgeGrows(p, s, d);
    if d !in s.edges {
      if d.Remaining() == 0 {
        forall i | 0 <= i < |s.edges| && ClosedAt(p, s, i)
          ensures ClosedAt(p, r, i)
        {
          ClosedExtends(p, s, r, i);
        }
      } else {
        AddActiveEdgeCloses(p, s, d);
      }
    }
  }

  /** The case of `AddEdgeCloses` where `e` is new and active. */
  lemma {:induction false} AddActiveEdgeCloses(p: Policy, s: Space, d: DEdge)
    requires Wf(s) && Good(d) && d !in s.edges && d.Remaining() > 0
    ensures var r := AddEdgeF(p, s, d).0;
      (forall i :: 0 <= i < |s.edges| && ClosedAt(p, s, i) ==> ClosedAt(p, r, i)) &&
      (forall i :: |s.edges| <= i < |r.edges| ==> ClosedAt(p, r, i))
    decreases d.Remaining(), 0
  {
    var state := |s.edges|;
    var s2 := Space(s.edges + [d], s.to + [0], s.active + {state});
    var (s3, viaState) := AddEdgeF(p, s2, Via(d));
    var (s4, toState) := AddEdgeF(p, s3, ToOf(p, d));
    AddEdgeGrows(p, s2, Via(d));
    AddEdgeGrows(p, s3, ToOf(p, d));
    AddEdgeCloses(p, s2, Via(d));
    AddEdgeCloses(p, s3, ToOf(p, d));
    ClosesAfterBothEdges(p, s, d, s3, viaState, s4, toState);
  }

  /** The closure argument of `AddActiveEdgeCloses`, once the via edge has
      been added (giving `s3`) and then the to-edge (giving `s4`). */
  lemma ClosesAfterBothEdges(p: Policy, s: Space, d: DEdge, s3: Space, viaState: int, s4: Space, toState: int)
    requires Wf(s) && Good(d) && d !in s.edges && d.Remaining() > 0
    requires var s2 := Space(s.edges + [d], s.to + [0], s.active + {|s.edges|});
      Wf(s3) && Wf(s4) && Grows(s2, s3) && Grows(s3, s4) &&
      0 <= viaState < |s3.edges| && s3.edges[viaState] == Via(d) &&
      0 <= toState < |s4.edges| && s4.edges[toState] == ToOf(p, d) &&
      (forall i :: 0 <= i < |s2.edges| && ClosedAt(p, s2, i) ==> ClosedAt(p, s3, i)) &&
      (forall i :: |s2.edges| <= i < |s3.edges| ==> ClosedAt(p, s3, i)) &&
      (forall i :: 0 <= i < |s3.edges| && ClosedAt(p, s3, i) ==> ClosedAt(p, s4, i)) &&
      (forall i :: |s3.edges| <= i < |s4.edges| ==> ClosedAt(p, s4, i))
    ensures var r := s4.(to := s4.to[|s.edges| := toState]);
      Wf(r) &&
      (forall i :: 0 <= i < |s.edges| && ClosedAt(p, s, i) ==> ClosedAt(p, r, i)) &&
      (forall i :: |s.edges| <= i < |r.edges| ==> ClosedAt(p, r, i))
  {
    var state := |s.edges|;
    var s2 := Space(s.edges + [d], s.to + [0], s.active + {state});
    var r := s4.(to := s4.to[state := toState]);
    assert Grows(s, s2) by {
      assert s2.edges[..|s.edges|] == s.edges && s2.to[..|s.to|] == s.to;
    }
    forall i | 0 <= i < |s4.edges| && i != state && (i >= |s.edges| || ClosedAt(p, s, i))
      ensures ClosedAt(p, r, i)
    {
      if i < |s.edges| {
        ClosedExtends(p, s, s2, i);
      }
      ClosedAtOtherTo(p, s4, i, state, toState);
    }
    // The new id itself.
    GrowsTrans(s2, s3, s4);
    assert s4.edges[viaState] == Via(d);
    assert s4.edges[state] == d;
    assert ClosedAt(p, r, state);
  }

  lemma AddEdgeKeepsClosed(p: Policy, s: Space, d: DEdge)
    requires Wf(s) && Good(d) && Closed(p, s)
    ensures Closed(p, AddEdgeF(p, s, d).0)
  {
    AddEdgeCloses(p, s, d);
  }

  // ---------------------------------------------------------------------
  // `build`.

  /** `indexOfTag(t)`: the id of `t -> .`, or -1. */
  function IndexOfTag(s: Space, t: int): (i: int)
    ensures -1 <= i < |s.edges|
    ensures i >= 0 ==> s.edges[i] == TagD(t)
    ensures i == -1 <==> TagD(t) !in s.edges
  {
    IndexOf(s, TagD(t))
  }

  /** The dot-0 edges of the rules, added one after the other. */
  function AddRules(p: Policy, s: Space, rules: seq<DEdge>): (r: Space)
    requires Wf(s) && forall k :: 0 <= k < |rules| ==> Good(rules[k])
    ensures Wf(r)
    decreases |rules|
  {
    if rules == [] then s
    else AddEdgeF(p, AddRules(p, s, rules[..|rules| - 1]), rules[|rules| - 1]).0
  }

  /** The tags `0 .. n-1` that have no `t -> .` edge yet get one. */
  function AddTags(p: Policy, s: Space, n: nat): (r: Space)
    requires Wf(s)
    ensures Wf(r)
    decreases n
  {
    if n == 0 then s
    else
      var s1 := AddTags(p, s, n - 1);
      if IndexOfTag(s1, n - 1) == -1 then AddEdgeF(p, s1, TagD(n - 1)).0 else s1
  }

  /** `build(rules)` over a tag index of `numTags` tags; `rules` are the
      rules' dot-0 edges. */
  function BuildF(p: Policy, s: Space, rules: seq<DEdge>, numTags: nat): (r: Space)
    requires Wf(s) && forall k :: 0 <= k < |rules| ==> Good(rules[k])
  {
    AddTags(p, AddRules(p, s, rules), numTags)
  }

  /** Adding the rules keeps every id finished. */
  lemma {:induction false} AddRulesClosed(p: Policy, s: Space, rules: seq<DEdge>)
    requires Wf(s) && Closed(p, s) && forall k :: 0 <= k < |rules| ==> Good(rules[k])
    ensures Closed(p, AddRules(p, s, rules))
    decreases |rules|
  {
    if rules != [] {
      AddRulesClosed(p, s, rules[..|rules| - 1]);
      AddEdgeKeepsClosed(p, AddRules(p, s, rules[..|rules| - 1]), rules[|rules| - 1]);
    }
  }

  /** The tag pass keeps every id finished. */
  lemma {:induction false} AddTagsClosed(p: Policy, s: Space, n: nat)
    requires Wf(s) && Closed(p, s)
    ensures Closed(p, AddTags(p, s, n))
    decreases n
  {
    if n > 0 {
      var s1 := AddTags(p, s, n - 1);
      AddTagsClosed(p, s, n - 1);
      if IndexOfTag(s1, n - 1) == -1 {
        AddEdgeKeepsClosed(p, s1, TagD(n - 1));
      }
    }
  }

  /** After the tag pass every tag below `n` has its `t -> .` edge. */
  lemma {:induction false} AddTagsComplete(p: Policy, s: Space, n: nat)
    requires Wf(s)
    ensures forall t :: 0 <= t < n ==> IndexOfTag(AddTags(p, s, n), t) != -1
    decreases n
  {
    if n > 0 {
      var s1 := AddTags(p, s, n - 1);
      AddTagsComplete(p, s, n - 1);
      if IndexOfTag(s1, n - 1) == -1 {
        AddTagStep(p, s1, n - 1);
      }
    }
  }

  /** Adding the missing edge `t -> .` keeps every tag edge already
      there. */
  lemma AddTagStep(p: Policy, s1: Space, t: nat)
    requires Wf(s1) && IndexOfTag(s1, t) == -1
    requires forall u :: 0 <= u < t ==> IndexOfTag(s1, u) != -1
    ensures forall u :: 0 <= u <= t ==> IndexOfTag(AddEdgeF(p, s1, TagD(t)).0, u) != -1
  {
    var (r, i) := AddEdgeF(p, s1, TagD(t));
    AddEdgeGrows(p, s1, TagD(t));
    forall u | 0 <= u <= t
      ensures IndexOfTag(r, u) != -1
    {
      if u < t {
        var k := IndexOfTag(s1, u);
        assert r.edges[k] == s1.edges[k];
      } else {
        assert r.edges[i] == TagD(u);
      }
    }
  }

  /** After `build`, every tag has its `t -> .` edge and every id is
      finished. */
  lemma BuildComplete(p: Policy, s: Space, rules: seq<DEdge>, numTags: nat)
    requires Wf(s) && Closed(p, s) && forall k :: 0 <= k < |rules| ==> Good(rules[k])
    ensures var r := BuildF(p, s, rules, numTags);
      Closed(p, r) && forall t :: 0 <= t < numTags ==> IndexOfTag(r, t) != -1
  {
    AddRulesClosed(p, s, rules);
    AddTagsClosed(p, AddRules(p, s, rules), numTags);
    AddTagsComplete(p, AddRules(p, s, rules), numTags);
  }

  // ---------------------------------------------------------------------
  // To-chains.

  /** The id reached from `i` by following `to` `k` times. */
  function Follow(s: Space, i: int, k: nat): int
    requires Wf(s)
    decreases k
  {
    if k == 0 || !(0 <= i < |s.edges|) then i else Follow(s, s.to[i], k - 1)
  }

  /** In a finished table, following `to` from an edge as many times as it
      has children left reaches a passive edge of the same mother, whose
      `to` is -1; in the standard space it is the same rule with the dot at
      the end, in the left-wildcard space the mother's `X -> .`. */
  lemma {:induction false} ChainEnds(p: Policy, s: Space, i: nat)
    requires Wf(s) && Closed(p, s) && i < |s.edges|
    ensures var j := Follow(s, i, s.edges[i].Remaining());
      0 <= j < |s.edges| && s.edges[j].Remaining() == 0 && s.to[j] == -1 &&
      s.edges[j].mother == s.edges[i].mother &&
      (p.Standard? ==> s.edges[j] == s.edges[i].(dot := |s.edges[i].kids|)) &&
      (p.LeftWildcard? && s.edges[i].Remaining() > 0 ==> s.edges[j] == TagD(s.edges[i].mother))
    decreases s.edges[i].Remaining()
  {
    assert ClosedAt(p, s, i);
    if s.edges[i].Remaining() > 0 {
      ChainEnds(p, s, s.to[i]);
    }
  }

  /** Each step of a chain moves one child: from `X -> α . β` the standard
      space reaches `X -> α B . γ` for `β = B γ`. */
  lemma StandardStep(s: Space, i: nat)
    requires Wf(s) && Closed(Standard, s) && i < |s.edges| && s.edges[i].Remaining() > 0
    ensures var j := s.to[i];
      0 <= j < |s.edges| && s.edges[j] == s.edges[i].(dot := s.edges[i].dot + 1)
  {
    assert ClosedAt(Standard, s, i);
  }

  /** Each rule's completed edge `X -> α .` differs from the child-less
      `X -> .` when α is not empty. */
  lemma CompletedEdgeNotMotherEdge(d: DEdge)
    requires Good(d) && |d.kids| > 0
    ensures d.(dot := |d.kids|) != TagD(d.mother)
  {
  }

  /** In the left-wildcard space two active edges with the same mother and
      the same children (and flags) after their next child share their
      `to` id. */
  lemma WildcardSharesTo(s: Space, i: nat, j: nat)
    requires Wf(s) && Closed(LeftWildcard, s) && Distinct(s.edges)
    requires i < |s.edges| && j < |s.edges|
    requires s.edges[i].Remaining() > 0 && s.edges[j].Remaining() > 0
    requires var a, b := s.edges[i], s.edges[j];
      a.mother == b.mother && a.kids[a.dot + 1..] == b.kids[b.dot + 1..] &&
      a.flags[a.dot + 1..] == b.flags[b.dot + 1..]
    ensures s.to[i] == s.to[j]
  {
    assert ClosedAt(LeftWildcard, s, i) && ClosedAt(LeftWildcard, s, j);
  }

  // ---------------------------------------------------------------------
  // The class: the same table over a growable array.

  class EdgeSpace {
    const policy: Policy
    var edges: seq<DEdge>
    var active: set<int>
    var size: nat
    var to: array<int>

    ghost predicate Valid()
      reads this, to
    {
      size == |edges| && size < to.Length &&
      (forall i :: size <= i < to.Length ==> to[i] == 0) &&
      Wf(Snapshot()) && Distinct(edges)
    }

    function Snapshot(): Space
      reads this, to
      requires size <= to.Length
    {
      Space(edges, to[..size], active)
    }

    constructor (p: Policy)
      ensures Valid() && policy == p && Snapshot() == Space([], [], {}) && Closed(p, Snapshot())
    {
      policy := p;
      edges, active, size := [], {}, 0;
      to := new int[1000](_ => 0);
    }

    /** `ensureSize`: a full array is replaced by one of twice the length
        holding the same prefix and zeros after it. */
    static method EnsureSize(a: array<int>, n: nat) returns (b: array<int>)
      requires 0 < a.Length && n <= a.Length
      ensures a.Length == n ==> (fresh(b) && b.Length == 2 * a.Length && b[..a.Length] == a[..] &&
        forall i :: a.Length <= i < b.Length ==> b[i] == 0)
      ensures a.Length != n ==> b == a
    {
      if a.Length == n {
        b := new int[a.Length * 2](_ => 0);
        forall i | 0 <= i < a.Length {
          b[i] := a[i];
        }
      } else {
        b := a;
      }
    }

    /** `incrementSize`: one more id, with room for its `to`. */
    method IncrementSize()
      requires size == |edges| - 1 && size < to.Length && forall i :: size <= i < to.Length ==> to[i] == 0
      modifies this
      ensures size == old(size) + 1 && size < to.Length && edges == old(edges) && active == old(active)
      ensures to == old(to) || fresh(to)
      ensures to[..old(size)] == old(to[..size]) && forall i :: old(size) <= i < to.Length ==> to[i] == 0
    {
      size := size + 1;
      to := EnsureSize(to, size);
    }

    /** `storeEdgeInIndex(e)` for an edge not yet interned. */
    method StoreEdgeInIndex(d: DEdge) returns (i: int)
      requires Valid() && Good(d) && d !in edges
      modifies this
      ensures Valid() && i == old(size) && (to == old(to) || fresh(to))
      ensures Snapshot() == Space(old(edges) + [d], old(Snapshot()).to + [0], old(active))
    {
      edges := edges + [d];
      i := size;
      IncrementSize();
      assert to[old(size)] == 0;
      assert to[..size] == old(to[..size]) + [0];
    }

    /** `addEdge(e)`. */
    method AddEdge(d: DEdge) returns (state: int)
      requires Valid() && Good(d)
      modifies this, to
      ensures Valid() && (to == old(to) || fresh(to))
      ensures (Snapshot(), state) == AddEdgeF(policy, old(Snapshot()), d)
      decreases d.Remaining(), 1
    {
      var i := Indexing.Find(edges, d);
      if i >= 0 {
        return i;
      }
      state := StoreEdgeInIndex(d);
      if d.Remaining() == 0 {
        SetTo(state, -1);
      } else {
        active := active + {state};
        Link(d, state);
      }
    }

    /** The rest of `addEdge` for a new active edge: its via edge and its
        to edge are added, and `to[state]` points at the latter. */
    method Link(d: DEdge, state: nat)
      requires Valid() && Good(d) && d.Remaining() > 0 && state < size
      modifies this, to
      ensures Valid() && (to == old(to) || fresh(to))
      ensures var (s3, _) := AddEdgeF(policy, old(Snapshot()), Via(d));
        var (s4, toState) := AddEdgeF(policy, s3, ToOf(policy, d));
        Snapshot() == s4.(to := s4.to[state := toState])
      decreases d.Remaining(), 0
    {
      var _ := AddEdge(Via(d));
      var toState := AddEdge(ToOf(policy, d));
      SetTo(state, toState);
    }

    /** `to[state] = v` for an interned id. */
    method SetTo(state: nat, v: int)
      requires Valid() && state < size
      modifies to
      ensures Valid()
      ensures Snapshot() == old(Snapshot()).(to := old(Snapshot()).to[state := v])
    {
      to[state] := v;
      assert to[..size] == old(to[..size])[state := v];
    }

    /** `build(rules)` over the rules' dot-0 edges: every rule's edge, then
        `t -> .` for every tag that has none. */
    method Build(rules: seq<DEdge>, numTags: nat)
      requires Valid() && forall k :: 0 <= k < |rules| ==> Good(rules[k])
      modifies this, to
      ensures Valid() && Snapshot() == BuildF(policy, old(Snapshot()), rules, numTags)
    {
      ghost var s0 := Snapshot();
      for k := 0 to |rules|
        invariant Valid() && Snapshot() == AddRules(policy, s0, rules[..k])
        invariant to == old(to) || fresh(to)
      {
        assert rules[..k + 1][..k] == rules[..k];
        var _ := AddEdge(rules[k]);
      }
      assert rules[..|rules|] == rules;
      ghost var s1 := Snapshot();
      for t := 0 to numTags
        invariant Valid() && Snapshot() == AddTags(policy, s1, t)
        invariant to == old(to) || fresh(to)
      {
        if Indexing.Find(edges, TagD(t)) == -1 {
          var _ := AddEdge(TagD(t));
        }
      }
    }

    /** `to(edge)`. */
    function To(i: nat): int
      reads this, to
      requires i < to.Length
    {
      to[i]
    }
  }
}
