/** The older state space: edges `mother -> [dtrs]` (the remaining daughters
    only, no dot) interned as contiguous ids, with three growable arrays:
    `via` (the id of the first daughter's `d -> []`, or -1 when passive),
    `to` (the id of `mother -> [rest]`, or -1) and `mother` (the id of
    `mother -> []`).  Adding an edge always walks its whole chain again,
    whether or not it was already interned. */
module StateSpaces {
  import opened Indexing
  import EdgeSpaces

  /** `parser.Edge`: a mother tag and its remaining daughters, compared by
      value. */
  datatype LEdge = LEdge(mother: int, dtrs: seq<int>)

  /** `getMotherEdge()`: `mother -> []`. */
  function MotherEdge(e: LEdge): (m: LEdge)
    ensures m.mother == e.mother && m.dtrs == []
  {
    LEdge(e.mother, [])
  }

  /** `getChildEdge(0)`: `d -> []` for the first daughter. */
  function ChildEdge(e: LEdge): (c: LEdge)
    requires e.dtrs != []
    ensures c.mother == e.dtrs[0] && c.dtrs == []
  {
    LEdge(e.dtrs[0], [])
  }

  /** `mother -> [second daughter onwards]`. */
  function RestEdge(e: LEdge): (r: LEdge)
    requires e.dtrs != []
    ensures r.mother == e.mother && [e.dtrs[0]] + r.dtrs == e.dtrs
  {
    LEdge(e.mother, e.dtrs[1..])
  }

  /** The whole state space as values: the interned edges, the first `size`
      slots of the three arrays, the active and passive sets, the two
      indexers of mother states and `viaStateMap`. */
  datatype Table = Table(
    edges: seq<LEdge>,
    via: seq<int>, to: seq<int>, mother: seq<int>,
    active: set<int>, passive: set<int>,
    preterms: Index<int>, nonterms: Index<int>,
    viaStates: map<int, set<int>>)

  /** Arrays as long as the edge list, only active-shaped ids active and
      only passive-shaped ids passive. */
  ghost predicate Wf(t: Table) {
    |t.via| == |t.edges| && |t.to| == |t.edges| && |t.mother| == |t.edges| &&
    (forall i :: i in t.active ==> 0 <= i < |t.edges| && t.edges[i].dtrs != []) &&
    (forall i :: i in t.passive ==> 0 <= i < |t.edges| && t.edges[i].dtrs == []) &&
    t.preterms.Valid() && t.nonterms.Valid()
  }

  ghost predicate Distinct(edges: seq<LEdge>) {
    forall i, j :: 0 <= i < j < |edges| ==> edges[i] != edges[j]
  }

  function Empty(): (t: Table)
    ensures Wf(t) && t.edges == []
  {
    Table([], [], [], [], {}, {}, Index([]), Index([]), map[])
  }

  /** `indexOf(e)`: the id of `e`, or -1. */
  function IndexOf(t: Table, e: LEdge): (i: int)
    ensures -1 <= i < |t.edges|
    ensures i >= 0 ==> t.edges[i] == e
    ensures i == -1 <==> e !in t.edges
  {
    Find(t.edges, e)
  }

  /** `indexOfTag(tag)`: the id of `tag -> []`, or -1. */
  function IndexOfTag(t: Table, tag: int): (i: int)
    ensures -1 <= i < |t.edges|
    ensures i >= 0 ==> t.edges[i] == LEdge(tag, [])
    ensures i == -1 <==> LEdge(tag, []) !in t.edges
  {
    IndexOf(t, LEdge(tag, []))
  }

  /** `storeEdgeInIndex(e)`: the id of an interned edge, or the next id for
      a new one, whose three array slots start at 0. */
  function Store(t: Table, e: LEdge): (r: (Table, int))
    requires Wf(t)
    ensures Wf(r.0) && 0 <= r.1 < |r.0.edges| && r.0.edges[r.1] == e
    ensures |t.edges| <= |r.0.edges| && r.0.edges[..|t.edges|] == t.edges
    ensures e in t.edges ==> r == (t, IndexOf(t, e))
    ensures e !in t.edges ==> (r.1 == |t.edges| &&
      r.0 == t.(edges := t.edges + [e], via := t.via + [0], to := t.to + [0], mother := t.mother + [0]))
  {
    var i := IndexOf(t, e);
    if i >= 0 then (t, i)
    else (t.(edges := t.edges + [e], via := t.via + [0], to := t.to + [0], mother := t.mother + [0]), |t.edges|)
  }

  /** The mother edge `ms` of `state`: `mother[state] = ms`, `ms` passive
      with `via = to = -1`, and `ms` in the pre-terminal indexer. */
  function MarkMother(t: Table, state: nat, ms: nat): (r: Table)
    requires Wf(t) && state < |t.edges| && ms < |t.edges| && t.edges[ms].dtrs == []
    ensures Wf(r) && r.edges == t.edges
  {
    t.(mother := t.mother[state := ms], via := t.via[ms := -1], to := t.to[ms := -1],
       passive := t.passive + {ms}, preterms := t.preterms.Add(ms).0)
  }

  /** A daughter-less edge: `via = to = -1`, passive. */
  function MarkPassive(t: Table, state: nat): (r: Table)
    requires Wf(t) && state < |t.edges| && t.edges[state].dtrs == []
    ensures Wf(r) && r.edges == t.edges
  {
    t.(via := t.via[state := -1], to := t.to[state := -1], passive := t.passive + {state})
  }

  /** An edge with daughters: `via[state] = viaState`, active. */
  function SetVia(t: Table, state: nat, viaState: int): (r: Table)
    requires Wf(t) && state < |t.edges| && t.edges[state].dtrs != []
    ensures Wf(r) && r.edges == t.edges
  {
    t.(via := t.via[state := viaState], active := t.active + {state})
  }

  /** The end of an active edge: `to[state] = toState`, the mother state in
      the non-terminal indexer, and `state` in `viaStateMap[viaState]`. */
  function Finish(t: Table, state: nat, ms: int, viaState: int, toState: int): (r: Table)
    requires Wf(t) && state < |t.edges|
    ensures Wf(r) && r.edges == t.edges
  {
    var old_ := if viaState in t.viaStates then t.viaStates[viaState] else {};
    t.(to := t.to[state := toState], nonterms := t.nonterms.Add(ms).0,
       viaStates := t.viaStates[viaState := old_ + {state}])
  }

  /** `addEdge(e)`: store `e` and its mother edge, mark the mother edge,
      then either mark `e` passive or walk its via and to edges. */
  function AddEdgeF(t: Table, e: LEdge): (r: (Table, int))
    requires Wf(t)
    ensures Wf(r.0) && |t.edges| <= |r.0.edges| && r.0.edges[..|t.edges|] == t.edges
    ensures 0 <= r.1 < |r.0.edges| && r.0.edges[r.1] == e
    decreases |e.dtrs|, 1
  {
    var (t3, state, ms) := Prefix(t, e);
    if e.dtrs == [] then (MarkPassive(t3, state), state)
    else
      var t7 := AddActive(t3, e, state, ms);
      PrefixTrans(t.edges, t3.edges, t7.edges);
      (t7, state)
  }

  /** The first steps of `addEdge(e)`: `e` and its mother edge stored, the
      mother slot of `e` set. */
  function Prefix(t: Table, e: LEdge): (r: (Table, nat, nat))
    requires Wf(t)
    ensures Wf(r.0) && |t.edges| <= |r.0.edges| && r.0.edges[..|t.edges|] == t.edges
    ensures r.1 < |r.0.edges| && r.2 < |r.0.edges|
    ensures r.0.edges[r.1] == e && r.0.edges[r.2] == MotherEdge(e)
  {
    var (t1, state) := Store(t, e);
    var (t2, ms) := Store(t1, MotherEdge(e));
    PrefixTrans(t.edges, t1.edges, t2.edges);
    (MarkMother(t2, state, ms), state, ms)
  }

  /** The active branch of `addEdge`: the via edge, then the to edge. */
  function AddActive(t: Table, e: LEdge, state: nat, ms: int): (r: Table)
    requires Wf(t) && e.dtrs != [] && state < |t.edges| && t.edges[state] == e
    ensures Wf(r) && |t.edges| <= |r.edges| && r.edges[..|t.edges|] == t.edges
    decreases |e.dtrs|, 0
  {
    var (t4, viaState) := AddEdgeF(t, ChildEdge(e));
    var t5 := SetVia(t4, state, viaState);
    var (t6, toState) := AddEdgeF(t5, RestEdge(e));
    PrefixTrans(t.edges, t5.edges, t6.edges);
    Finish(t6, state, ms, viaState, toState)
  }

  lemma PrefixTrans<T>(a: seq<T>, b: seq<T>, c: seq<T>)
    requires |a| <= |b| <= |c| && b[..|a|] == a && c[..|b|] == b
    ensures c[..|a|] == a
  {
    assert c[..|a|] == c[..|b|][..|a|];
  }

  // ---------------------------------------------------------------------
  // What each slot of a finished id holds.

  ghost predicate MotherOk(t: Table, j: int)
  {
    0 <= j < |t.edges| && j < |t.mother| && 0 <= t.mother[j] < |t.edges| &&
    t.edges[t.mother[j]] == MotherEdge(t.edges[j])
  }

  ghost predicate ViaOk(t: Table, j: int)
  {
    0 <= j < |t.edges| && j < |t.via| &&
    if t.edges[j].dtrs == [] then t.via[j] == -1
    else 0 <= t.via[j] < |t.edges| && t.edges[t.via[j]] == ChildEdge(t.edges[j])
  }

  ghost predicate ToOk(t: Table, j: int)
  {
    0 <= j < |t.edges| && j < |t.to| &&
    if t.edges[j].dtrs == [] then t.to[j] == -1
    else 0 <= t.to[j] < |t.edges| && t.edges[t.to[j]] == RestEdge(t.edges[j])
  }

  /** The sets and indexers agree with the slots of `j`. */
  ghost predicate SetsOk(t: Table, j: int)
  {
    0 <= j < |t.edges| && j < |t.mother| && j < |t.via| &&
    t.mother[j] in t.preterms.items &&
    (t.edges[j].dtrs == [] ==> j in t.passive) &&
    (t.edges[j].dtrs != [] ==>
      j in t.active && t.mother[j] in t.nonterms.items &&
      t.via[j] in t.viaStates && j in t.viaStates[t.via[j]])
  }

  /** Id `j` is finished: each slot holds the id of the edge it names, and
      the sets and indexers record it. */
  ghost predicate ClosedAt(t: Table, j: int)
  {
    MotherOk(t, j) && ViaOk(t, j) && ToOk(t, j) && SetsOk(t, j)
  }

  ghost predicate Closed(t: Table)
  {
    forall j :: 0 <= j < |t.edges| ==> ClosedAt(t, j)
  }

  /** `r` extends `t`: the old edges keep their ids, the sets and indexers
      only grow, and a slot that held its right value still does. */
  ghost predicate Keeps(t: Table, r: Table)
  {
    |t.edges| <= |r.edges| && r.edges[..|t.edges|] == t.edges &&
    t.active <= r.active && t.passive <= r.passive &&
    (forall x :: x in t.preterms.items ==> x in r.preterms.items) &&
    (forall x :: x in t.nonterms.items ==> x in r.nonterms.items) &&
    (forall k :: k in t.viaStates ==> k in r.viaStates && t.viaStates[k] <= r.viaStates[k]) &&
    (forall j :: 0 <= j < |t.edges| ==>
      (MotherOk(t, j) ==> MotherOk(r, j)) && (ViaOk(t, j) ==> ViaOk(r, j)) && (ToOk(t, j) ==> ToOk(r, j)))
  }

  lemma KeepsRefl(t: Table)
    requires Wf(t)
    ensures Keeps(t, t)
  {
  }

  lemma KeepsTrans(t: Table, u: Table, v: Table)
    requires Wf(t) && Wf(u) && Wf(v) && Keeps(t, u) && Keeps(u, v)
    ensures Keeps(t, v)
  {
    assert v.edges[..|t.edges|] == v.edges[..|u.edges|][..|t.edges|];
    forall j | 0 <= j < |t.edges|
      ensures (MotherOk(t, j) ==> MotherOk(v, j)) && (ViaOk(t, j) ==> ViaOk(v, j)) && (ToOk(t, j) ==> ToOk(v, j))
    {
      assert t.edges[j] == u.edges[j];
    }
  }

  /** Two slots that both hold their right value in tables sharing a
      prefix of distinct edges hold the same id. */
  lemma SameSlot(t: Table, r: Table, j: int)
    requires Wf(t) && Wf(r) && Keeps(t, r) && Distinct(r.edges) && 0 <= j < |t.edges|
    ensures MotherOk(t, j) && MotherOk(r, j) ==> t.mother[j] == r.mother[j]
    ensures ViaOk(t, j) && ViaOk(r, j) ==> t.via[j] == r.via[j]
  {
    assert t.edges[j] == r.edges[j];
    if MotherOk(t, j) && MotherOk(r, j) {
      assert r.edges[t.mother[j]] == t.edges[t.mother[j]];
    }
    if ViaOk(t, j) && ViaOk(r, j) && t.edges[j].dtrs != [] {
      assert r.edges[t.via[j]] == t.edges[t.via[j]];
    }
  }

  /** A finished id stays finished in any table that keeps it. */
  lemma ClosedKept(t: Table, r: Table, j: int)
    requires Wf(t) && Wf(r) && Keeps(t, r) && Distinct(r.edges) && 0 <= j < |t.edges|
    requires ClosedAt(t, j)
    ensures ClosedAt(r, j)
  {
    SameSlot(t, r, j);
    assert t.edges[j] == r.edges[j];
  }

  // ---------------------------------------------------------------------
  // Each step keeps what was right and makes its own slots right.

  lemma StoreKeeps(t: Table, e: LEdge)
    requires Wf(t)
    ensures Keeps(t, Store(t, e).0)
  {
    var r := Store(t, e).0;
    forall j | 0 <= j < |t.edges|
      ensures (MotherOk(t, j) ==> MotherOk(r, j)) && (ViaOk(t, j) ==> ViaOk(r, j)) && (ToOk(t, j) ==> ToOk(r, j))
    {
      if e !in t.edges {
        assert r.edges[j] == t.edges[j];
        assert r.mother[j] == t.mother[j] && r.via[j] == t.via[j] && r.to[j] == t.to[j];
        if MotherOk(t, j) { assert r.edges[t.mother[j]] == t.edges[t.mother[j]]; }
        if ViaOk(t, j) && t.edges[j].dtrs != [] { assert r.edges[t.via[j]] == t.edges[t.via[j]]; }
        if ToOk(t, j) && t.edges[j].dtrs != [] { assert r.edges[t.to[j]] == t.edges[t.to[j]]; }
      }
    }
  }

  lemma MarkMotherKeeps(t: Table, state: nat, ms: nat)
    requires Wf(t) && Distinct(t.edges) && state < |t.edges| && ms < |t.edges|
    requires t.edges[ms] == MotherEdge(t.edges[state])
    ensures var r := MarkMother(t, state, ms);
      Keeps(t, r) && MotherOk(r, state) && r.mother[state] == ms && ms in r.preterms.items &&
      ViaOk(r, ms) && ToOk(r, ms) && ms in r.passive
  {
    var r := MarkMother(t, state, ms);
    assert r.edges[..|t.edges|] == t.edges;
    forall j | 0 <= j < |t.edges| && MotherOk(t, j)
      ensures MotherOk(r, j)
    {
      if j == state {
        assert t.edges[t.mother[j]] == t.edges[ms];
      }
    }
  }

  lemma MarkPassiveKeeps(t: Table, state: nat)
    requires Wf(t) && state < |t.edges| && t.edges[state].dtrs == []
    ensures var r := MarkPassive(t, state);
      Keeps(t, r) && ViaOk(r, state) && ToOk(r, state) && state in r.passive &&
      r.mother == t.mother && r.preterms == t.preterms
  {
    var r := MarkPassive(t, state);
    assert r.edges[..|t.edges|] == t.edges;
  }

  lemma SetViaKeeps(t: Table, state: nat, v: int)
    requires Wf(t) && state < |t.edges| && t.edges[state].dtrs != []
    requires 0 <= v < |t.edges| && t.edges[v] == ChildEdge(t.edges[state])
    ensures var r := SetVia(t, state, v);
      Keeps(t, r) && ViaOk(r, state) && r.via[state] == v && state in r.active
  {
    var r := SetVia(t, state, v);
    assert r.edges[..|t.edges|] == t.edges;
  }

  lemma FinishKeeps(t: Table, state: nat, ms: int, v: int, toState: int)
    requires Wf(t) && state < |t.edges| && t.edges[state].dtrs != []
    requires 0 <= toState < |t.edges| && t.edges[toState] == RestEdge(t.edges[state])
    ensures var r := Finish(t, state, ms, v, toState);
      Keeps(t, r) && ToOk(r, state) && ms in r.nonterms.items &&
      v in r.viaStates && state in r.viaStates[v] && r.via == t.via && r.mother == t.mother
  {
    var r := Finish(t, state, ms, v, toState);
    assert r.edges[..|t.edges|] == t.edges;
  }

  lemma StoreDistinct(t: Table, e: LEdge)
    requires Wf(t) && Distinct(t.edges)
    ensures Distinct(Store(t, e).0.edges)
  {
  }

  // ---------------------------------------------------------------------
  // `addEdge` finishes what it touches.

  /** `addEdge(e)` keeps every old id and every right slot, keeps the
      edges distinct, and returns the id of `e`: the old one when `e` was
      interned, the next one otherwise. */
  lemma {:induction false} AddEdgeKeeps(t: Table, e: LEdge)
    requires Wf(t) && Distinct(t.edges)
    ensures var r := AddEdgeF(t, e);
      Keeps(t, r.0) && Distinct(r.0.edges) &&
      (e in t.edges ==> r.1 == IndexOf(t, e)) && (e !in t.edges ==> r.1 == |t.edges|)
    decreases |e.dtrs|, 1
  {
    var (t3, state, ms) := Prefix(t, e);
    PrefixFacts(t, e);
    var r := AddEdgeF(t, e).0;
    if e.dtrs == [] {
      MarkPassiveKeeps(t3, state);
    } else {
      AddActiveKeeps(t3, e, state, ms);
    }
    KeepsTrans(t, t3, r);
  }

  lemma {:induction false} AddActiveKeeps(t: Table, e: LEdge, state: nat, ms: int)
    requires Wf(t) && Distinct(t.edges) && e.dtrs != [] && state < |t.edges| && t.edges[state] == e
    ensures var r := AddActive(t, e, state, ms);
      Keeps(t, r) && Distinct(r.edges)
    decreases |e.dtrs|, 0
  {
    var (t4, viaState) := AddEdgeF(t, ChildEdge(e));
    AddEdgeKeeps(t, ChildEdge(e));
    var t5 := SetVia(t4, state, viaState);
    assert t4.edges[state] == e;
    SetViaKeeps(t4, state, viaState);
    var (t6, toState) := AddEdgeF(t5, RestEdge(e));
    AddEdgeKeeps(t5, RestEdge(e));
    assert t6.edges[state] == e;
    FinishKeeps(t6, state, ms, viaState, toState);
    KeepsTrans(t, t4, t5);
    KeepsTrans(t, t5, t6);
    KeepsTrans(t, t6, AddActive(t, e, state, ms));
  }

  /** What the first steps give: the old ids and right slots kept, `e` at
      `state` (its old id, or the next one), new ids only for `e` and its
      mother edge, and the mother slot of `e` right and recorded. */
  lemma PrefixFacts(t: Table, e: LEdge)
    requires Wf(t) && Distinct(t.edges)
    ensures var (t3, state, ms) := Prefix(t, e);
      Keeps(t, t3) && Distinct(t3.edges) &&
      MotherOk(t3, state) && t3.mother[state] == ms && ms in t3.preterms.items &&
      (e in t.edges ==> state == IndexOf(t, e)) && (e !in t.edges ==> state == |t.edges|) &&
      |t3.edges| <= |t.edges| + 2 &&
      (|t.edges| < |t3.edges| ==> |t.edges| in {state, ms}) &&
      (|t.edges| + 1 < |t3.edges| ==> |t.edges| + 1 in {state, ms})
  {
    var (t1, state) := Store(t, e);
    StoreKeeps(t, e);
    StoreDistinct(t, e);
    var (t2, ms) := Store(t1, MotherEdge(e));
    StoreKeeps(t1, MotherEdge(e));
    StoreDistinct(t1, MotherEdge(e));
    KeepsTrans(t, t1, t2);
    assert t2.edges[state] == e;
    MarkMotherKeeps(t2, state, ms);
    KeepsTrans(t, t2, MarkMother(t2, state, ms));
  }

  /** A daughter-less edge is its own mother edge, so the first steps
      leave it passive with `via = to = -1`. */
  lemma PrefixPassive(t: Table, e: LEdge)
    requires Wf(t) && Distinct(t.edges) && e.dtrs == []
    ensures var (t3, state, ms) := Prefix(t, e);
      ms == state && ViaOk(t3, ms) && ToOk(t3, ms) && ms in t3.passive
  {
    var (t1, state) := Store(t, e);
    StoreDistinct(t, e);
    var (t2, ms) := Store(t1, MotherEdge(e));
    StoreDistinct(t1, MotherEdge(e));
    assert t2.edges[state] == e;
    MarkMotherKeeps(t2, state, ms);
  }

  /** `addEdge(e)` leaves the id of `e` finished. */
  lemma SelfClosed(t: Table, e: LEdge)
    requires Wf(t) && Distinct(t.edges)
    ensures ClosedAt(AddEdgeF(t, e).0, AddEdgeF(t, e).1)
  {
    var (t3, state, ms) := Prefix(t, e);
    PrefixFacts(t, e);
    if e.dtrs == [] {
      PrefixPassive(t, e);
      MarkPassiveKeeps(t3, state);
      PassiveGlue(t3, MarkPassive(t3, state), state);
    } else {
      ActiveSelfClosed(t3, e, state, ms);
    }
  }

  /** The passive branch: the mother slot, `via`, `to` and the passive
      set all hold. */
  lemma PassiveGlue(t3: Table, r: Table, state: nat)
    requires Wf(t3) && Wf(r) && state < |t3.edges| && r.edges == t3.edges
    requires MotherOk(t3, state) && t3.mother[state] == state && state in t3.preterms.items
    requires r.mother == t3.mother && r.preterms == t3.preterms
    requires ViaOk(r, state) && ToOk(r, state) && state in r.passive && t3.edges[state].dtrs == []
    ensures ClosedAt(r, state)
  {
  }

  lemma ActiveSelfClosed(t: Table, e: LEdge, state: nat, ms: int)
    requires Wf(t) && Distinct(t.edges) && e.dtrs != [] && state < |t.edges| && t.edges[state] == e
    requires MotherOk(t, state) && t.mother[state] == ms && ms in t.preterms.items
    ensures ClosedAt(AddActive(t, e, state, ms), state)
  {
    var (t4, viaState) := AddEdgeF(t, ChildEdge(e));
    AddEdgeKeeps(t, ChildEdge(e));
    var t5 := SetVia(t4, state, viaState);
    assert t4.edges[state] == e;
    SetViaKeeps(t4, state, viaState);
    var (t6, toState) := AddEdgeF(t5, RestEdge(e));
    AddEdgeKeeps(t5, RestEdge(e));
    assert t6.edges[state] == e;
    var r := Finish(t6, state, ms, viaState, toState);
    FinishKeeps(t6, state, ms, viaState, toState);
    SelfGlue(t, t4, t5, t6, r, state, ms, viaState);
  }

  /** The id of an active edge is finished once its via walk gave `t4`,
      `via` was set (`t5`), its to walk gave `t6` and `to` was set (`r`). */
  lemma SelfGlue(t: Table, t4: Table, t5: Table, t6: Table, r: Table, state: nat, ms: int, viaState: int)
    requires Wf(t) && Wf(t4) && Wf(t5) && Wf(t6) && Wf(r) && Distinct(r.edges)
    requires Keeps(t, t4) && Keeps(t4, t5) && Keeps(t5, t6) && Keeps(t6, r)
    requires state < |t.edges| && MotherOk(t, state) && t.mother[state] == ms && ms in t.preterms.items
    requires ViaOk(t5, state) && t5.via[state] == viaState && state in t5.active
    requires ToOk(r, state) && ms in r.nonterms.items && viaState in r.viaStates && state in r.viaStates[viaState]
    ensures ClosedAt(r, state)
  {
    KeepsTrans(t5, t6, r);
    KeepsTrans(t4, t5, r);
    KeepsTrans(t, t4, r);
    SameSlot(t, r, state);
    SameSlot(t5, r, state);
  }

  /** `addEdge(e)` leaves the id of the mother edge `mother -> []`
      finished: it is `e` itself when `e` has no daughters, and the end of
      the to walk otherwise. */
  lemma {:induction false} MotherClosed(t: Table, e: LEdge)
    requires Wf(t) && Distinct(t.edges)
    ensures var r := AddEdgeF(t, e).0;
      ClosedAt(r, IndexOf(r, MotherEdge(e)))
    decreases |e.dtrs|, 1
  {
    var (t3, state, ms) := Prefix(t, e);
    PrefixFacts(t, e);
    MotherId(t, e);
    if e.dtrs == [] {
      PrefixPassive(t, e);
      SelfClosed(t, e);
    } else {
      ActiveMotherClosed(t3, e, state, ms);
    }
  }

  /** After `addEdge(e)` the mother edge of `e` is at the id the first
      steps gave it, and `e` at its own. */
  lemma MotherId(t: Table, e: LEdge)
    requires Wf(t) && Distinct(t.edges)
    ensures var (t3, state, ms) := Prefix(t, e);
      var r := AddEdgeF(t, e);
      IndexOf(r.0, MotherEdge(e)) == ms && r.1 == state &&
      (e.dtrs == [] ==> r.0 == MarkPassive(t3, state)) &&
      (e.dtrs != [] ==> r.0 == AddActive(t3, e, state, ms))
  {
    var (t3, state, ms) := Prefix(t, e);
    var r := AddEdgeF(t, e).0;
    AddEdgeKeeps(t, e);
    if e.dtrs == [] {
      assert r == MarkPassive(t3, state);
    } else {
      assert r == AddActive(t3, e, state, ms);
      assert r.edges[..|t3.edges|][ms] == t3.edges[ms];
    }
    FindUnique(r.edges, MotherEdge(e), ms);
  }

  lemma {:induction false} ActiveMotherClosed(t: Table, e: LEdge, state: nat, ms: nat)
    requires Wf(t) && Distinct(t.edges) && e.dtrs != [] && state < |t.edges| && t.edges[state] == e
    requires ms < |t.edges| && t.edges[ms] == MotherEdge(e)
    ensures ClosedAt(AddActive(t, e, state, ms), ms)
    decreases |e.dtrs|, 0
  {
    var (t4, viaState) := AddEdgeF(t, ChildEdge(e));
    AddEdgeKeeps(t, ChildEdge(e));
    var t5 := SetVia(t4, state, viaState);
    assert t4.edges[state] == e;
    var (t6, toState) := AddEdgeF(t5, RestEdge(e));
    AddEdgeKeeps(t5, RestEdge(e));
    MotherClosed(t5, RestEdge(e));
    PrefixTrans(t.edges, t5.edges, t6.edges);
    MotherGlue(t, t6, e, state, ms, viaState, toState);
  }

  /** The mother edge finished by the to walk (`t6`) stays finished when
      `to` is set. */
  lemma MotherGlue(t: Table, t6: Table, e: LEdge, state: nat, ms: nat, viaState: int, toState: int)
    requires Wf(t6) && Distinct(t6.edges) && e.dtrs != []
    requires |t.edges| <= |t6.edges| && t6.edges[..|t.edges|] == t.edges
    requires state < |t.edges| && t.edges[state] == e && ms < |t.edges| && t.edges[ms] == MotherEdge(e)
    requires 0 <= toState < |t6.edges| && t6.edges[toState] == RestEdge(e)
    requires ClosedAt(t6, IndexOf(t6, MotherEdge(RestEdge(e))))
    ensures ClosedAt(Finish(t6, state, ms, viaState, toState), ms)
  {
    assert t6.edges[ms] == t.edges[ms] && t6.edges[state] == t.edges[state];
    FindUnique(t6.edges, MotherEdge(RestEdge(e)), ms);
    FinishKeeps(t6, state, ms, viaState, toState);
    ClosedKept(t6, Finish(t6, state, ms, viaState, toState), ms);
  }

  /** `addEdge(e)` leaves every id it created finished. */
  lemma {:induction false} NewClosed(t: Table, e: LEdge)
    requires Wf(t) && Distinct(t.edges)
    ensures var r := AddEdgeF(t, e).0;
      forall j :: |t.edges| <= j < |r.edges| ==> ClosedAt(r, j)
    decreases |e.dtrs|, 1
  {
    var (t3, state, ms) := Prefix(t, e);
    PrefixFacts(t, e);
    var r := AddEdgeF(t, e).0;
    SelfClosed(t, e);
    MotherClosed(t, e);
    MotherId(t, e);
    if e.dtrs != [] {
      ActiveNewClosed(t3, e, state, ms);
    }
    NewTail(|t.edges|, |t3.edges|, r, state, ms);
  }

  /** The ids an `addEdge` created are those of `e` and its mother edge
      (below `n3`) and those of the two walks. */
  lemma NewTail(n: nat, n3: nat, r: Table, state: nat, ms: nat)
    requires n3 <= |r.edges| && n3 <= n + 2
    requires n < n3 ==> n in {state, ms}
    requires n + 1 < n3 ==> n + 1 in {state, ms}
    requires ClosedAt(r, state) && ClosedAt(r, ms)
    requires forall j :: n3 <= j < |r.edges| ==> ClosedAt(r, j)
    ensures forall j :: n <= j < |r.edges| ==> ClosedAt(r, j)
  {
  }

  lemma {:induction false} ActiveNewClosed(t: Table, e: LEdge, state: nat, ms: int)
    requires Wf(t) && Distinct(t.edges) && e.dtrs != [] && state < |t.edges| && t.edges[state] == e
    ensures var r := AddActive(t, e, state, ms);
      forall j :: |t.edges| <= j < |r.edges| ==> ClosedAt(r, j)
    decreases |e.dtrs|, 0
  {
    var (t4, viaState) := AddEdgeF(t, ChildEdge(e));
    AddEdgeKeeps(t, ChildEdge(e));
    NewClosed(t, ChildEdge(e));
    var t5 := SetVia(t4, state, viaState);
    assert t4.edges[state] == e;
    SetViaKeeps(t4, state, viaState);
    var (t6, toState) := AddEdgeF(t5, RestEdge(e));
    AddEdgeKeeps(t5, RestEdge(e));
    NewClosed(t5, RestEdge(e));
    assert t6.edges[state] == e;
    var r := Finish(t6, state, ms, viaState, toState);
    FinishKeeps(t6, state, ms, viaState, toState);
    NewGlue(t, t4, t5, t6, r);
  }

  /** Ids created by the via walk (`t4`) or the to walk (`t6`) stay
      finished to the end (`r`). */
  lemma NewGlue(t: Table, t4: Table, t5: Table, t6: Table, r: Table)
    requires Wf(t) && Wf(t4) && Wf(t5) && Wf(t6) && Wf(r) && Distinct(r.edges) && r.edges == t6.edges
    requires Keeps(t4, t5) && Keeps(t5, t6) && Keeps(t6, r) && |t4.edges| == |t5.edges|
    requires forall j :: |t.edges| <= j < |t4.edges| ==> ClosedAt(t4, j)
    requires forall j :: |t5.edges| <= j < |t6.edges| ==> ClosedAt(t6, j)
    ensures forall j :: |t.edges| <= j < |r.edges| ==> ClosedAt(r, j)
  {
    KeepsTrans(t4, t5, t6);
    KeepsTrans(t4, t6, r);
    forall j | |t.edges| <= j < |r.edges|
      ensures ClosedAt(r, j)
    {
      if j < |t4.edges| {
        ClosedKept(t4, r, j);
      } else {
        ClosedKept(t6, r, j);
      }
    }
  }

  /** A finished table stays finished under `addEdge`. */
  lemma AddEdgeKeepsClosed(t: Table, e: LEdge)
    requires Wf(t) && Distinct(t.edges) && Closed(t)
    ensures Closed(AddEdgeF(t, e).0) && Distinct(AddEdgeF(t, e).0.edges)
  {
    var r := AddEdgeF(t, e).0;
    AddEdgeKeeps(t, e);
    NewClosed(t, e);
    forall j | 0 <= j < |t.edges|
      ensures ClosedAt(r, j)
    {
      ClosedKept(t, r, j);
    }
  }

  /** In a finished table `isPassive(s)` (`via[s] == -1`) holds exactly for
      the daughter-less edges, which are the passive set; the others are
      the active set. */
  lemma IsPassiveExact(t: Table, j: int)
    requires Wf(t) && 0 <= j < |t.edges|
    ensures Closed(t) ==> (t.via[j] == -1 <==> t.edges[j].dtrs == [])
    ensures Closed(t) ==> (j in t.passive <==> t.edges[j].dtrs == [])
    ensures Closed(t) ==> (j in t.active <==> t.edges[j].dtrs != [])
  {
    if Closed(t) {
      assert ClosedAt(t, j);
    }
  }

  /** Adding an edge that is already interned walks its chain again, but
      in a finished table every step rewrites a slot with the value it
      already holds: the table is unchanged and the id is the old one. */
  lemma {:induction false} ReAddSame(t: Table, e: LEdge)
    requires Wf(t) && Distinct(t.edges) && Closed(t) && e in t.edges
    ensures AddEdgeF(t, e) == (t, IndexOf(t, e))
    decreases |e.dtrs|, 1
  {
    var i := IndexOf(t, e);
    ReAddPrefix(t, e);
    if e.dtrs == [] {
      assert ClosedAt(t, i);
    } else {
      ReAddActive(t, e, i, t.mother[i]);
    }
  }

  lemma ReAddPrefix(t: Table, e: LEdge)
    requires Wf(t) && Distinct(t.edges) && Closed(t) && e in t.edges
    ensures Prefix(t, e) == (t, IndexOf(t, e), t.mother[IndexOf(t, e)])
  {
    var i := IndexOf(t, e);
    assert ClosedAt(t, i);
    var m := t.mother[i];
    assert ClosedAt(t, m);
    assert Store(t, e) == (t, i);
    FindUnique(t.edges, MotherEdge(e), m);
    assert Store(t, MotherEdge(e)) == (t, m);
    MarkMotherSame(t, i, m);
  }

  lemma MarkMotherSame(t: Table, state: nat, ms: nat)
    requires Wf(t) && state < |t.edges| && ms < |t.edges| && t.edges[ms].dtrs == []
    requires t.mother[state] == ms && ms in t.preterms.items && ClosedAt(t, ms)
    ensures MarkMother(t, state, ms) == t
  {
    assert t.mother[state := ms] == t.mother;
    assert t.via[ms := -1] == t.via;
    assert t.to[ms := -1] == t.to;
  }

  lemma {:induction false} ReAddActive(t: Table, e: LEdge, state: nat, ms: int)
    requires Wf(t) && Distinct(t.edges) && Closed(t)
    requires e.dtrs != [] && state < |t.edges| && t.edges[state] == e && ms == t.mother[state]
    ensures AddActive(t, e, state, ms) == t
    decreases |e.dtrs|, 0
  {
    assert ClosedAt(t, state);
    var v := t.via[state];
    var w := t.to[state];
    ReAddSame(t, ChildEdge(e));
    FindUnique(t.edges, ChildEdge(e), v);
    assert AddEdgeF(t, ChildEdge(e)) == (t, v);
    SetViaSame(t, state);
    assert SetVia(t, state, v) == t;
    ReAddSame(t, RestEdge(e));
    FindUnique(t.edges, RestEdge(e), w);
    assert AddEdgeF(t, RestEdge(e)) == (t, w);
    FinishSame(t, state);
  }

  lemma SetViaSame(t: Table, state: nat)
    requires Wf(t) && state < |t.edges| && t.edges[state].dtrs != [] && ClosedAt(t, state)
    ensures SetVia(t, state, t.via[state]) == t
  {
    assert t.via[state := t.via[state]] == t.via;
  }

  lemma FinishSame(t: Table, state: nat)
    requires Wf(t) && state < |t.edges| && t.edges[state].dtrs != [] && ClosedAt(t, state)
    ensures Finish(t, state, t.mother[state], t.via[state], t.to[state]) == t
  {
    var v := t.via[state];
    assert t.to[state := t.to[state]] == t.to;
    assert t.viaStates[v] + {state} == t.viaStates[v];
    assert t.viaStates[v := t.viaStates[v]] == t.viaStates;
  }

  // ---------------------------------------------------------------------
  // `StateSpace` itself: the edge list and the two indexers as values, the
  // three slots in arrays that double when full.

  class StateSpace {
    var edges: seq<LEdge>
    var via: array<int>
    var to: array<int>
    var mother: array<int>
    var size: nat
    var active: set<int>
    var passive: set<int>
    var preterms: Index<int>
    var nonterms: Index<int>
    var viaStates: map<int, set<int>>

    /** Three separate arrays with room for one more id and zeros past
        `size`, holding a well-formed table of distinct edges. */
    ghost predicate Valid()
      reads this, via, to, mother
    {
      size == |edges| && size < via.Length && size < to.Length && size < mother.Length &&
      via != to && to != mother && via != mother &&
      (forall i :: size <= i < via.Length ==> via[i] == 0) &&
      (forall i :: size <= i < to.Length ==> to[i] == 0) &&
      (forall i :: size <= i < mother.Length ==> mother[i] == 0) &&
      Wf(Snapshot()) && Distinct(edges)
    }

    function Snapshot(): Table
      reads this, via, to, mother
      requires size <= via.Length && size <= to.Length && size <= mother.Length
    {
      Table(edges, via[..size], to[..size], mother[..size], active, passive, preterms, nonterms, viaStates)
    }

    constructor ()
      ensures Valid() && Snapshot() == Empty() && Closed(Snapshot())
    {
      edges, size := [], 0;
      via := new int[10](_ => 0);
      to := new int[10](_ => 0);
      mother := new int[10](_ => 0);
      active, passive := {}, {};
      preterms, nonterms := Index([]), Index([]);
      viaStates := map[];
    }

    /** `incrementSize`: one more id, with room in each array for its
        slots. */
    method IncrementSize()
      requires size < via.Length && size < to.Length && size < mother.Length
      requires via != to && to != mother && via != mother
      requires forall i :: size + 1 <= i < via.Length ==> via[i] == 0
      requires forall i :: size + 1 <= i < to.Length ==> to[i] == 0
      requires forall i :: size + 1 <= i < mother.Length ==> mother[i] == 0
      modifies this
      ensures size == old(size) + 1 && size < via.Length && size < to.Length && size < mother.Length
      ensures via != to && to != mother && via != mother
      ensures edges == old(edges) && active == old(active) && passive == old(passive)
      ensures preterms == old(preterms) && nonterms == old(nonterms) && viaStates == old(viaStates)
      ensures (via == old(via) || fresh(via)) && (to == old(to) || fresh(to)) && (mother == old(mother) || fresh(mother))
      ensures via[..size] == old(via[..size + 1]) && to[..size] == old(to[..size + 1]) && mother[..size] == old(mother[..size + 1])
      ensures forall i :: size <= i < via.Length ==> via[i] == 0
      ensures forall i :: size <= i < to.Length ==> to[i] == 0
      ensures forall i :: size <= i < mother.Length ==> mother[i] == 0
    {
      size := size + 1;
      via := EdgeSpaces.EdgeSpace.EnsureSize(via, size);
      to := EdgeSpaces.EdgeSpace.EnsureSize(to, size);
      mother := EdgeSpaces.EdgeSpace.EnsureSize(mother, size);
    }

    /** `storeEdgeInIndex(e)`. */
    method StoreEdgeInIndex(e: LEdge) returns (i: int)
      requires Valid()
      modifies this
      ensures Valid()
      ensures (via == old(via) || fresh(via)) && (to == old(to) || fresh(to)) && (mother == old(mother) || fresh(mother))
      ensures (Snapshot(), i) == Store(old(Snapshot()), e)
    {
      i := Find(edges, e);
      if i != -1 {
        return;
      }
      i := size;
      IncrementSize();
      edges := edges + [e];
      assert via[..size] == old(via[..size]) + [0];
      assert to[..size] == old(to[..size]) + [0];
      assert mother[..size] == old(mother[..size]) + [0];
    }

    /** The mother-edge part of `addEdge`. */
    method RecordMother(state: nat, ms: nat)
      requires Valid() && state < size && ms < size && edges[ms].dtrs == []
      modifies this, via, to, mother
      ensures Valid() && via == old(via) && to == old(to) && mother == old(mother)
      ensures Snapshot() == MarkMother(old(Snapshot()), state, ms)
    {
      mother[state] := ms;
      via[ms] := -1;
      to[ms] := -1;
      passive := passive + {ms};
      preterms := preterms.Add(ms).0;
      assert mother[..size] == old(mother[..size])[state := ms];
      assert via[..size] == old(via[..size])[ms := -1];
      assert to[..size] == old(to[..size])[ms := -1];
    }

    /** The passive branch of `addEdge`. */
    method RecordPassive(state: nat)
      requires Valid() && state < size && edges[state].dtrs == []
      modifies this, via, to
      ensures Valid() && via == old(via) && to == old(to) && mother == old(mother)
      ensures Snapshot() == MarkPassive(old(Snapshot()), state)
    {
      via[state] := -1;
      to[state] := -1;
      passive := passive + {state};
      assert via[..size] == old(via[..size])[state := -1];
      assert to[..size] == old(to[..size])[state := -1];
    }

    /** `via[state] = viaState; activeStates.add(state)`. */
    method RecordVia(state: nat, viaState: int)
      requires Valid() && state < size && edges[state].dtrs != []
      modifies this, via
      ensures Valid() && via == old(via) && to == old(to) && mother == old(mother)
      ensures Snapshot() == SetVia(old(Snapshot()), state, viaState)
    {
      via[state] := viaState;
      active := active + {state};
      assert via[..size] == old(via[..size])[state := viaState];
    }

    /** The end of the active branch of `addEdge`. */
    method RecordTo(state: nat, ms: int, viaState: int, toState: int)
      requires Valid() && state < size
      modifies this, to
      ensures Valid() && via == old(via) && to == old(to) && mother == old(mother)
      ensures Snapshot() == Finish(old(Snapshot()), state, ms, viaState, toState)
    {
      to[state] := toState;
      nonterms := nonterms.Add(ms).0;
      if viaState !in viaStates {
        viaStates := viaStates[viaState := {}];
      }
      viaStates := viaStates[viaState := viaStates[viaState] + {state}];
      assert to[..size] == old(to[..size])[state := toState];
    }

    /** `addEdge(e)`: the id of `e`, with its whole chain interned and
        finished. */
    method AddEdge(e: LEdge) returns (state: int)
      requires Valid()
      modifies this, via, to, mother
      ensures Valid()
      ensures (via == old(via) || fresh(via)) && (to == old(to) || fresh(to)) && (mother == old(mother) || fresh(mother))
      ensures (Snapshot(), state) == AddEdgeF(old(Snapshot()), e)
      decreases |e.dtrs|, 1
    {
      var ms;
      state, ms := StorePair(e);
      if e.dtrs == [] {
        RecordPassive(state);
      } else {
        AddActiveEdge(e, state, ms);
      }
    }

    /** The first steps of `addEdge(e)`: `e` and its mother edge stored,
        the mother slot of `e` set. */
    method StorePair(e: LEdge) returns (state: nat, ms: nat)
      requires Valid()
      modifies this, via, to, mother
      ensures Valid()
      ensures (via == old(via) || fresh(via)) && (to == old(to) || fresh(to)) && (mother == old(mother) || fresh(mother))
      ensures (Snapshot(), state, ms) == Prefix(old(Snapshot()), e)
    {
      var i := StoreEdgeInIndex(e);
      var j := StoreEdgeInIndex(MotherEdge(e));
      state, ms := i, j;
      RecordMother(state, ms);
    }

    /** The active branch of `addEdge`: the via edge, then the to edge. */
    method AddActiveEdge(e: LEdge, state: nat, ms: nat)
      requires Valid() && e.dtrs != [] && state < size && edges[state] == e
      modifies this, via, to, mother
      ensures Valid()
      ensures (via == old(via) || fresh(via)) && (to == old(to) || fresh(to)) && (mother == old(mother) || fresh(mother))
      ensures Snapshot() == AddActive(old(Snapshot()), e, state, ms)
      decreases |e.dtrs|, 0
    {
      var viaState := AddEdge(ChildEdge(e));
      RecordVia(state, viaState);
      var toState := AddEdge(RestEdge(e));
      RecordTo(state, ms, viaState, toState);
    }

    /** `isPassive(state)`. */
    function IsPassive(state: nat): (b: bool)
      reads this, via, to, mother
      requires Valid() && state < via.Length
      ensures Closed(Snapshot()) && state < size ==> (b <==> state in passive)
      ensures state >= size ==> !b
    {
      if state < size then
        IsPassiveExact(Snapshot(), state);
        via[state] == -1
      else
        via[state] == -1
    }

    /** `indexOf(e)`. */
    function IndexOfEdge(e: LEdge): (i: int)
      reads this
      ensures -1 <= i < |edges|
      ensures i >= 0 ==> edges[i] == e
      ensures i == -1 <==> e !in edges
    {
      Find(edges, e)
    }
  }
}
