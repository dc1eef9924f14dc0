/** `decoder.MarginalDecoder`: the marginal score of each category over a
    span, the best category, and the segmentation of a discourse into
    sentences by its social cues.  Building the best parse of a segment
    needs the parse-tree library and is not part of this model; the
    segmentation yields the spans it would be asked for. */
module MarginalDecoders {
  import opened Wrappers
  import opened EarleyParsers
  import opened SparseCharts

  // ---------------------------------------------------------------------
  // Sums over sets of edges

  /** What edge `e` adds to category `tag`: its score when it is
      completed with mother `tag`, nothing otherwise. */
  function Share(e: int, score: int -> real, isCompleted: int -> bool, motherOf: int -> int, tag: int): real {
    if isCompleted(e) && motherOf(e) == tag then score(e) else 0.0
  }

  /** The total that the edges of `s` add to category `tag`, summed in no
      particular order. */
  ghost function TagSum(s: set<int>, score: int -> real, isCompleted: int -> bool, motherOf: int -> int, tag: int): real
    decreases s
  {
    if s == {} then 0.0
    else
      NoMember(s);
      var x :| x in s;
      Share(x, score, isCompleted, motherOf, tag) + TagSum(s - {x}, score, isCompleted, motherOf, tag)
  }

  /** Any edge of the set can be taken out first, so the order of the
      iteration over the key set does not matter. */
  lemma {:induction false} TagSumRemove(s: set<int>, score: int -> real, isCompleted: int -> bool,
                                        motherOf: int -> int, tag: int, y: int)
    requires y in s
    ensures TagSum(s, score, isCompleted, motherOf, tag) ==
      Share(y, score, isCompleted, motherOf, tag) + TagSum(s - {y}, score, isCompleted, motherOf, tag)
    decreases s
  {
    NoMember(s);
    var x :| x in s && TagSum(s, score, isCompleted, motherOf, tag) ==
      Share(x, score, isCompleted, motherOf, tag) + TagSum(s - {x}, score, isCompleted, motherOf, tag);
    if x != y {
      TagSumRemove(s - {x}, score, isCompleted, motherOf, tag, y);
      TagSumRemove(s - {y}, score, isCompleted, motherOf, tag, x);
      assert s - {x} - {y} == s - {y} - {x};
    }
  }

  /** A category that no completed edge of the set has as mother sums to
      zero. */
  lemma {:induction false} TagSumNone(s: set<int>, score: int -> real, isCompleted: int -> bool,
                                      motherOf: int -> int, tag: int)
    requires forall e :: e in s ==> !(isCompleted(e) && motherOf(e) == tag)
    ensures TagSum(s, score, isCompleted, motherOf, tag) == 0.0
    decreases s
  {
    if s != {} {
      NoMember(s);
      var x :| x in s;
      TagSumRemove(s, score, isCompleted, motherOf, tag, x);
      TagSumNone(s - {x}, score, isCompleted, motherOf, tag);
    }
  }

  /** The marginal numerator of an edge: outer times inner score. */
  function EdgeScore(outerCell: map<int, real>, innerCell: map<int, real>): int -> real {
    e => ScoreOf(outerCell, e) * ScoreOf(innerCell, e)
  }

  /** Some completed edge of `s` has mother `tag`. */
  ghost predicate Mothers(s: set<int>, isCompleted: int -> bool, motherOf: int -> int, tag: int) {
    exists e :: e in s && isCompleted(e) && motherOf(e) == tag
  }

  /** `marginal` holds the sums by mother of the completed edges of
      `done`: a category has an entry iff some completed edge of `done`
      has it as mother, and the entry is the sum of those edges' scores. */
  ghost predicate SumsByMother(marginal: map<int, real>, done: set<int>, score: int -> real,
                               isCompleted: int -> bool, motherOf: int -> int)
  {
    (forall tag :: tag in marginal <==> Mothers(done, isCompleted, motherOf, tag)) &&
    (forall tag :: tag in marginal ==> marginal[tag] == TagSum(done, score, isCompleted, motherOf, tag))
  }

  /** The map after edge `edge` is counted. */
  function Credit(marginal: map<int, real>, edge: int, score: int -> real, isCompleted: int -> bool, motherOf: int -> int): map<int, real> {
    if !isCompleted(edge) then marginal
    else if motherOf(edge) !in marginal then marginal[motherOf(edge) := score(edge)]
    else marginal[motherOf(edge) := marginal[motherOf(edge)] + score(edge)]
  }

  /** One edge more: its score goes to its mother's entry when it is
      completed. */
  lemma SumsByMotherStep(marginal: map<int, real>, done: set<int>, edge: int, score: int -> real,
                         isCompleted: int -> bool, motherOf: int -> int)
    requires SumsByMother(marginal, done, score, isCompleted, motherOf) && edge !in done
    ensures SumsByMother(Credit(marginal, edge, score, isCompleted, motherOf), done + {edge}, score, isCompleted, motherOf)
  {
    var m' := Credit(marginal, edge, score, isCompleted, motherOf);
    var done' := done + {edge};
    forall tag ensures tag in m' <==> Mothers(done', isCompleted, motherOf, tag) {
      if tag in m' && tag !in marginal {
        assert edge in done' && isCompleted(edge) && motherOf(edge) == tag;
      }
      if tag in marginal {
        var e :| e in done && isCompleted(e) && motherOf(e) == tag;
        assert e in done';
      }
      if Mothers(done', isCompleted, motherOf, tag) && tag !in marginal {
        var e :| e in done' && isCompleted(e) && motherOf(e) == tag;
        assert e !in done;
      }
    }
    forall tag | tag in m' ensures m'[tag] == TagSum(done', score, isCompleted, motherOf, tag) {
      TagSumRemove(done', score, isCompleted, motherOf, tag, edge);
      assert done' - {edge} == done;
      if tag !in marginal {
        TagSumNone(done, score, isCompleted, motherOf, tag);
      }
    }
  }

  /** The loop of `computeMarginalMap`: each completed edge adds its score
      to its mother's entry.  A category has an entry iff some completed
      edge of the set has it as mother, and the entry is the sum of those
      edges' scores. */
  method SumByMother(edges: set<int>, score: int -> real, isCompleted: int -> bool, motherOf: int -> int)
    returns (marginal: map<int, real>)
    ensures forall tag :: tag in marginal <==> Mothers(edges, isCompleted, motherOf, tag)
    ensures forall tag :: tag in marginal ==> marginal[tag] == TagSum(edges, score, isCompleted, motherOf, tag)
  {
    marginal := map[];
    var todo := edges;
    ghost var done: set<int> := {};
    while todo != {}
      invariant todo <= edges && done == edges - todo
      invariant SumsByMother(marginal, done, score, isCompleted, motherOf)
      decreases |todo|
    {
      NoMember(todo);
      var edge :| edge in todo;
      SumsByMotherStep(marginal, done, edge, score, isCompleted, motherOf);
      marginal := Credit(marginal, edge, score, isCompleted, motherOf);
      done := done + {edge};
      todo := todo - {edge};
    }
    assert done == edges;
  }

  /** `computeMarginalMap(left, right)` on the sparse chart, as written:
      `retainAll` runs on the live key set of the forward cell, so the
      forward entries of edges without an outer score are deleted. */
  method ComputeMarginalMap(chart: SparseChart, left: int, right: int, isCompleted: int -> bool, motherOf: int -> int)
    returns (marginal: map<int, real>)
    modifies chart
    ensures var lr := Linear(left, right);
      var edges := Edges(old(chart.forwardProb), lr) * Edges(chart.outerProb, lr);
      var score := EdgeScore(CellOf(chart.outerProb, lr), CellOf(chart.innerProb, lr));
      (forall tag :: tag in marginal <==> Mothers(edges, isCompleted, motherOf, tag)) &&
      (forall tag :: tag in marginal ==> marginal[tag] == TagSum(edges, score, isCompleted, motherOf, tag))
    ensures var lr := Linear(left, right);
      chart.forwardProb == if lr in old(chart.forwardProb)
        then old(chart.forwardProb)[lr := RetainAll(old(chart.forwardProb)[lr], Edges(chart.outerProb, lr))]
        else old(chart.forwardProb)
    ensures chart.innerProb == old(chart.innerProb) && chart.outerProb == old(chart.outerProb)
  {
    var lrIndex := Linear(left, right);
    var edges := chart.ListInsideEdges(left, right) * chart.ListOutsideEdges(left, right);
    if lrIndex in chart.forwardProb {
      chart.forwardProb := chart.forwardProb[lrIndex := RetainAll(chart.forwardProb[lrIndex], chart.ListOutsideEdges(left, right))];
    }
    var score := EdgeScore(CellOf(chart.outerProb, lrIndex), CellOf(chart.innerProb, lrIndex));
    marginal := SumByMother(edges, score, isCompleted, motherOf);
  }

  /** The entries of a cell whose edges are in `keep`. */
  function RetainAll(cell: map<int, real>, keep: set<int>): (r: map<int, real>)
    ensures forall e :: e in r <==> e in cell && e in keep
    ensures forall e :: e in r ==> r[e] == cell[e]
  {
    map e | e in cell && e in keep :: cell[e]
  }

  /** The deletion is visible: an edge with a forward score but no outer
      score reads zero afterwards. */
  lemma RetainAllLosesForward(chart: Chart, outer: Chart, lr: int, e: int)
    requires Contains(chart, lr, e) && !Contains(outer, lr, e)
    ensures ChartScore(chart[lr := RetainAll(chart[lr], Edges(outer, lr))], lr, e) == 0.0
    ensures ChartScore(chart, lr, e) == chart[lr][e]
  {
  }

  /** The same marginal map computed on a copy of the key set, leaving
      the chart as it was. */
  method MarginalMap(chart: SparseChart, left: int, right: int, isCompleted: int -> bool, motherOf: int -> int)
    returns (marginal: map<int, real>)
    ensures var lr := Linear(left, right);
      var edges := Edges(chart.forwardProb, lr) * Edges(chart.outerProb, lr);
      var score := EdgeScore(CellOf(chart.outerProb, lr), CellOf(chart.innerProb, lr));
      (forall tag :: tag in marginal <==> Mothers(edges, isCompleted, motherOf, tag)) &&
      (forall tag :: tag in marginal ==> marginal[tag] == TagSum(edges, score, isCompleted, motherOf, tag))
  {
    var lrIndex := Linear(left, right);
    var edges := chart.ListInsideEdges(left, right) * chart.ListOutsideEdges(left, right);
    var score := EdgeScore(CellOf(chart.outerProb, lrIndex), CellOf(chart.innerProb, lrIndex));
    marginal := SumByMother(edges, score, isCompleted, motherOf);
  }

  // ---------------------------------------------------------------------
  // The best category

  /** `argmax(marginalMap, _)`, with the map's keys in the order its key
      set yields them: the first key whose score is strictly greater than
      every earlier one and than zero, or -1 when no score exceeds zero.
      Categories are nonterminal indices, never negative. */
  method Argmax(marginalMap: map<int, real>, order: seq<int>) returns (bestTag: int)
    requires |marginalMap| > 0
    requires forall k :: k in marginalMap ==> k >= 0 && k in order
    requires forall i :: 0 <= i < |order| ==> order[i] in marginalMap
    ensures bestTag == -1 <==> forall k :: k in marginalMap ==> marginalMap[k] <= 0.0
    ensures bestTag != -1 ==> bestTag in marginalMap && marginalMap[bestTag] > 0.0
    ensures bestTag != -1 ==> forall k :: k in marginalMap ==> marginalMap[k] <= marginalMap[bestTag]
    ensures bestTag != -1 ==> exists j :: (0 <= j < |order| && order[j] == bestTag &&
      forall i :: 0 <= i < j ==> marginalMap[order[i]] < marginalMap[bestTag])
  {
    bestTag := -1;
    var bestScore := 0.0;
    ghost var at := -1;
    for x := 0 to |order|
      invariant bestTag == -1 <==> at == -1
      invariant bestTag == -1 ==> bestScore == 0.0
      invariant bestTag != -1 ==> 0 <= at < x && order[at] == bestTag && bestScore == marginalMap[bestTag]
      invariant bestScore >= 0.0
      invariant forall i :: 0 <= i < x ==> marginalMap[order[i]] <= bestScore
      invariant bestTag != -1 ==> forall i :: 0 <= i < at ==> marginalMap[order[i]] < bestScore
      invariant bestTag != -1 ==> bestScore > 0.0
    {
      var tag := order[x];
      if marginalMap[tag] > bestScore {
        bestTag := tag;
        bestScore := marginalMap[tag];
        at := x;
      }
    }
    if bestTag == -1 {
      forall k | k in marginalMap ensures marginalMap[k] <= 0.0 {
        var i :| 0 <= i < |order| && order[i] == k;
      }
    } else {
      forall k | k in marginalMap ensures marginalMap[k] <= marginalMap[bestTag] {
        var i :| 0 <= i < |order| && order[i] == k;
      }
    }
  }

  // ---------------------------------------------------------------------
  // Segmentation by social cues

  /** A word that starts a social cue: it begins with `.` or is `##`. */
  predicate IsCue(w: string) {
    (|w| > 0 && w[0] == '.') || w == "##"
  }

  /** The position of the last `##` among `words[l..r]`, or -1. */
  function LastHash(words: seq<string>, l: int, r: int): (p: int)
    requires 0 <= l && r <= |words|
    ensures p == -1 || (l <= p < r && words[p] == "##")
    ensures p != -1 ==> forall j :: p < j < r ==> words[j] != "##"
    ensures p == -1 ==> forall j :: l <= j < r ==> words[j] != "##"
    decreases r - l
  {
    if r <= l then -1 else if words[r - 1] == "##" then r - 1 else LastHash(words, l, r - 1)
  }

  /** No word of `words[l..r]` would have closed a sentence begun at `l`:
      none is a cue coming after a `##` of the sentence. */
  predicate NoEarlyClose(words: seq<string>, l: int, r: int)
    requires 0 <= l <= r <= |words|
  {
    forall j :: l <= j < r ==> !(IsCue(words[j]) && LastHash(words, l, j) != -1)
  }

  /** One sentence of the discourse: words `[left, right)` and the
      position of its last `##` (-1 when it has none). */
  datatype Segment = Segment(left: int, right: int, doubleHashPos: int)

  /** A sentence that was closed: it has a `##`, the word at its right end
      is a cue, and no earlier word closed it. */
  predicate Closed(words: seq<string>, s: Segment) {
    0 <= s.left < s.right < |words| && IsCue(words[s.right]) &&
    s.doubleHashPos == LastHash(words, s.left, s.right) && s.doubleHashPos != -1 &&
    NoEarlyClose(words, s.left, s.right)
  }

  /** Consecutive segments from 0 to `end`, without gaps or overlaps. */
  predicate Tiles(segs: seq<Segment>, end: int) {
    (segs == [] ==> end == 0) &&
    (segs != [] ==> segs[0].left == 0 && segs[|segs| - 1].right == end) &&
    forall k :: 0 <= k < |segs| - 1 ==> segs[k].right == segs[k + 1].left
  }

  /** The loop of `socialMarginalDecoding`: the spans of the sentences,
      each with the `##` position passed to `socialSentMarginalDecoding`.
      An empty word makes `word.charAt(0)` throw. */
  method SocialSegments(words: seq<string>) returns (r: Result<seq<Segment>>)
    ensures r.Fail? <==> exists i :: 0 <= i < |words| && words[i] == ""
    ensures r.Ok? ==> |r.value| >= 1 && Tiles(r.value, |words|)
    ensures r.Ok? ==> forall k :: 0 <= k < |r.value| - 1 ==> Closed(words, r.value[k])
    ensures r.Ok? ==> var last := r.value[|r.value| - 1];
      0 <= last.left <= last.right == |words| &&
      last.doubleHashPos == LastHash(words, last.left, |words|) && NoEarlyClose(words, last.left, |words|)
  {
    var sentLeft := 0;
    var sentRight := 0;
    var doubleHashPos := -1;
    var segs := [];
    for i := 0 to |words|
      invariant sentRight == i
      invariant Scanned(words, segs, sentLeft, i, doubleHashPos)
    {
      var word := words[i];
      if word == "" {
        return Fail("StringIndexOutOfBoundsException");
      }
      ScanStep(words, segs, sentLeft, i, doubleHashPos);
      if word[0] == '.' || word == "##" {
        if doubleHashPos >= 0 {
          segs := segs + [Segment(sentLeft, sentRight, doubleHashPos)];
          sentLeft := sentRight;
          doubleHashPos := -1;
        }
      }
      if word == "##" {
        doubleHashPos := i;
      }
      sentRight := sentRight + 1;
    }
    TilesSnoc(segs, Segment(sentLeft, sentRight, doubleHashPos));
    r := Ok(segs + [Segment(sentLeft, sentRight, doubleHashPos)]);
  }

  /** The state of the loop after `i` words: the closed sentences tile
      `[0, l)`, the open one starts at `l` with its last `##` at `dh`, and
      no word read so far was empty. */
  ghost predicate Scanned(words: seq<string>, segs: seq<Segment>, l: int, i: int, dh: int) {
    0 <= l <= i <= |words| && Tiles(segs, l) &&
    (forall k :: 0 <= k < |segs| ==> Closed(words, segs[k])) &&
    dh == LastHash(words, l, i) && NoEarlyClose(words, l, i) &&
    forall j :: 0 <= j < i ==> words[j] != ""
  }

  /** One word of the loop: a cue after a `##` closes the open sentence
      at the word, and a `##` becomes the open sentence's last one. */
  lemma ScanStep(words: seq<string>, segs: seq<Segment>, l: int, i: int, dh: int)
    requires Scanned(words, segs, l, i, dh) && i < |words| && words[i] != ""
    ensures var close := (words[i][0] == '.' || words[i] == "##") && dh >= 0;
      var segs2 := if close then segs + [Segment(l, i, dh)] else segs;
      var l2 := if close then i else l;
      var dh2 := if words[i] == "##" then i else if close then -1 else dh;
      Scanned(words, segs2, l2, i + 1, dh2)
  {
    var close := (words[i][0] == '.' || words[i] == "##") && dh >= 0;
    if close {
      ClosedAt(words, l, i);
      TilesSnoc(segs, Segment(l, i, dh));
      var segs2 := segs + [Segment(l, i, dh)];
      forall k | 0 <= k < |segs2| ensures Closed(words, segs2[k]) {
        if k < |segs| {
          assert segs2[k] == segs[k];
        }
      }
      OpenAt(words, i, i);
      LastHashStep(words, i, i);
    } else {
      OpenAt(words, l, i);
      LastHashStep(words, l, i);
    }
  }

  /** A cue after a `##` closes the sentence begun at `l`. */
  lemma ClosedAt(words: seq<string>, l: int, i: int)
    requires 0 <= l <= i < |words| && IsCue(words[i])
    requires LastHash(words, l, i) != -1 && NoEarlyClose(words, l, i)
    ensures Closed(words, Segment(l, i, LastHash(words, l, i)))
  {
  }

  lemma LastHashStep(words: seq<string>, l: int, i: int)
    requires 0 <= l <= i < |words|
    ensures LastHash(words, l, i + 1) == if words[i] == "##" then i else LastHash(words, l, i)
  {
  }

  /** A word that is not a cue after a `##` keeps the sentence open. */
  lemma OpenAt(words: seq<string>, l: int, i: int)
    requires 0 <= l <= i < |words| && NoEarlyClose(words, l, i)
    requires !(IsCue(words[i]) && LastHash(words, l, i) != -1)
    ensures NoEarlyClose(words, l, i + 1)
  {
    forall j | l <= j < i + 1 ensures !(IsCue(words[j]) && LastHash(words, l, j) != -1) {
      if j < i {
        assert !(IsCue(words[j]) && LastHash(words, l, j) != -1);
      }
    }
  }

  /** A segment starting where the tiling ends extends it. */
  lemma TilesSnoc(segs: seq<Segment>, s: Segment)
    requires Tiles(segs, s.left)
    ensures Tiles(segs + [s], s.right)
  {
    var r := segs + [s];
    forall k | 0 <= k < |r| - 1 ensures r[k].right == r[k + 1].left {
      if k < |segs| - 1 {
        assert r[k] == segs[k] && r[k + 1] == segs[k + 1];
      }
    }
  }
}
