/** `util.TreeBankFile`: the two tree rewrites applied to a parse before
    its sentences are read off.  A tree is a label and its children in
    order; a leaf is a node without children, and its label is the word. */
module TreeBanks {

  datatype Tree = Node(value: string, kids: seq<Tree>)

  /** Pseudo nodes are the ones the grammar writer introduced for binarised
      or decorated rules; their labels start with `PSEUDO`. */
  predicate IsPseudo(value: string) {
    |value| >= 6 && value[..6] == "PSEUDO"
  }

  /** Sentence nodes head one sentence of a discourse. */
  predicate IsSentence(value: string) {
    |value| >= 8 && value[..8] == "Sentence"
  }

  /** The words at the leaves, left to right. */
  function Yield(t: Tree): seq<string>
    decreases t, 1
  {
    if t.kids == [] then [t.value] else YieldAll(t.kids)
  }

  function YieldAll(ts: seq<Tree>): seq<string>
    decreases ts, 0
  {
    if ts == [] then [] else YieldAll(ts[..|ts| - 1]) + Yield(ts[|ts| - 1])
  }

  /** `removePseudoNode(tree)`: a pseudo node with exactly one child is
      replaced by that child, unchanged; any other node keeps its label and
      has each child rewritten in turn. */
  function RemovePseudoNode(t: Tree): (r: Tree)
    ensures IsPseudo(t.value) && |t.kids| == 1 ==> r == t.kids[0]
    ensures !(IsPseudo(t.value) && |t.kids| == 1) ==> r.value == t.value && |r.kids| == |t.kids|
    decreases t, 1
  {
    if IsPseudo(t.value) && |t.kids| == 1 then t.kids[0]
    else Node(t.value, RemoveAll(t.kids))
  }

  /** The children, each rewritten. */
  function RemoveAll(ts: seq<Tree>): (rs: seq<Tree>)
    ensures |rs| == |ts|
    ensures forall i :: 0 <= i < |ts| ==> rs[i] == RemovePseudoNode(ts[i])
    decreases ts, 0
  {
    if ts == [] then [] else RemoveAll(ts[..|ts| - 1]) + [RemovePseudoNode(ts[|ts| - 1])]
  }

  /** Removing pseudo nodes never changes the words of the tree: a unary
      pseudo node spans exactly what its child spans. */
  lemma {:induction false} RemoveKeepsYield(t: Tree)
    ensures Yield(RemovePseudoNode(t)) == Yield(t)
    decreases t, 1
  {
    if IsPseudo(t.value) && |t.kids| == 1 {
      assert YieldAll(t.kids) == YieldAll([]) + Yield(t.kids[0]) by {
        assert t.kids[..0] == [];
      }
    } else {
      RemoveAllKeepsYield(t.kids);
    }
  }

  lemma {:induction false} RemoveAllKeepsYield(ts: seq<Tree>)
    ensures YieldAll(RemoveAll(ts)) == YieldAll(ts)
    decreases ts, 0
  {
    if ts != [] {
      var rs := RemoveAll(ts);
      assert rs[..|rs| - 1] == RemoveAll(ts[..|ts| - 1]);
      RemoveAllKeepsYield(ts[..|ts| - 1]);
      RemoveKeepsYield(ts[|ts| - 1]);
    }
  }

  /** No node of the tree is a pseudo node. */
  predicate NoPseudo(t: Tree)
    decreases t, 1
  {
    !IsPseudo(t.value) && NoPseudoAll(t.kids)
  }

  predicate NoPseudoAll(ts: seq<Tree>)
    decreases ts, 0
  {
    ts == [] || (NoPseudoAll(ts[..|ts| - 1]) && NoPseudo(ts[|ts| - 1]))
  }

  /** A tree without pseudo nodes comes back as it was. */
  lemma {:induction false} RemoveWithoutPseudo(t: Tree)
    requires NoPseudo(t)
    ensures RemovePseudoNode(t) == t
    decreases t, 1
  {
    RemoveAllWithoutPseudo(t.kids);
  }

  lemma {:induction false} RemoveAllWithoutPseudo(ts: seq<Tree>)
    requires NoPseudoAll(ts)
    ensures RemoveAll(ts) == ts
    decreases ts, 0
  {
    if ts != [] {
      RemoveAllWithoutPseudo(ts[..|ts| - 1]);
      RemoveWithoutPseudo(ts[|ts| - 1]);
    }
  }

  /** `extractSentParses(tree)`: the sentence subtrees, left to right; the
      search does not go below a sentence node. */
  function ExtractSentParses(t: Tree): (r: seq<Tree>)
    ensures IsSentence(t.value) ==> r == [t]
    ensures forall i :: 0 <= i < |r| ==> IsSentence(r[i].value)
    decreases t, 1
  {
    if IsSentence(t.value) then [t] else ExtractAll(t.kids)
  }

  function ExtractAll(ts: seq<Tree>): (r: seq<Tree>)
    ensures forall i :: 0 <= i < |r| ==> IsSentence(r[i].value)
    decreases ts, 0
  {
    if ts == [] then [] else ExtractAll(ts[..|ts| - 1]) + ExtractSentParses(ts[|ts| - 1])
  }

  /** `s` is a node of `t`: `t` itself or a node of one of its children. */
  predicate Within(s: Tree, t: Tree)
    decreases t, 1
  {
    s == t || WithinAll(s, t.kids)
  }

  predicate WithinAll(s: Tree, ts: seq<Tree>)
    decreases ts, 0
  {
    ts != [] && (WithinAll(s, ts[..|ts| - 1]) || Within(s, ts[|ts| - 1]))
  }

  /** Every extracted sentence is a subtree of the input. */
  lemma {:induction false} ExtractedWithin(t: Tree)
    ensures forall i :: 0 <= i < |ExtractSentParses(t)| ==> Within(ExtractSentParses(t)[i], t)
    decreases t, 1
  {
    if !IsSentence(t.value) {
      ExtractAllWithin(t.kids);
    }
  }

  lemma {:induction false} ExtractAllWithin(ts: seq<Tree>)
    ensures forall i :: 0 <= i < |ExtractAll(ts)| ==> WithinAll(ExtractAll(ts)[i], ts)
    decreases ts, 0
  {
    if ts != [] {
      var init := ts[..|ts| - 1];
      var last := ts[|ts| - 1];
      ExtractAllWithin(init);
      ExtractedWithin(last);
      var r := ExtractAll(ts);
      forall i | 0 <= i < |r| ensures WithinAll(r[i], ts) {
        if i < |ExtractAll(init)| {
          assert r[i] == ExtractAll(init)[i];
        } else {
          assert r[i] == ExtractSentParses(last)[i - |ExtractAll(init)|];
        }
      }
    }
  }

  /** No node of the tree is a sentence node. */
  predicate NoSentence(t: Tree)
    decreases t, 1
  {
    !IsSentence(t.value) && NoSentenceAll(t.kids)
  }

  predicate NoSentenceAll(ts: seq<Tree>)
    decreases ts, 0
  {
    ts == [] || (NoSentenceAll(ts[..|ts| - 1]) && NoSentence(ts[|ts| - 1]))
  }

  /** A tree without sentence nodes yields no sentences, and a tree with
      one yields at least one. */
  lemma {:induction false} ExtractFindsSentences(t: Tree)
    ensures ExtractSentParses(t) == [] <==> NoSentence(t)
    decreases t, 1
  {
    if !IsSentence(t.value) {
      ExtractAllFindsSentences(t.kids);
    }
  }

  lemma {:induction false} ExtractAllFindsSentences(ts: seq<Tree>)
    ensures ExtractAll(ts) == [] <==> NoSentenceAll(ts)
    decreases ts, 0
  {
    if ts != [] {
      ExtractAllFindsSentences(ts[..|ts| - 1]);
      ExtractFindsSentences(ts[|ts| - 1]);
    }
  }
}
