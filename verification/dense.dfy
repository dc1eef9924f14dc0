/** `parser.EarleyParserDense`: the chart kept as one row per cell
    (`linear(left, right)`), each row indexed by edge: a presence flag, a
    forward, an inner and an outer score, and a count of present edges per
    cell; plus the holding zones of one prediction or completion step.
    Scores are reals under the probability operator. */
module DenseCharts {
  import opened EarleyParsers
  import MeasureTables

  // ---------------------------------------------------------------------
  // Rows of flags

  /** The number of `true` entries. */
  function CountTrue(s: seq<bool>): nat
    decreases |s|
  {
    if s == [] then 0 else CountTrue(s[..|s| - 1]) + (if s[|s| - 1] then 1 else 0)
  }

  /** The positions holding `true`: the edges present in a row. */
  function TrueSet(s: seq<bool>): set<int> {
    set e | 0 <= e < |s| && s[e]
  }

  /** The count of a row is the number of edges present in it. */
  lemma {:induction false} CountTrueSize(s: seq<bool>)
    ensures CountTrue(s) == |TrueSet(s)|
    decreases |s|
  {
    if s != [] {
      var p := s[..|s| - 1];
      CountTrueSize(p);
      if s[|s| - 1] {
        assert TrueSet(s) == TrueSet(p) + {|s| - 1};
      } else {
        assert TrueSet(s) == TrueSet(p);
      }
    }
  }

  /** Setting an entry that was `false` adds one to the count. */
  lemma CountTrueSet(s: seq<bool>, i: int)
    requires 0 <= i < |s| && !s[i]
    ensures CountTrue(s[i := true]) == CountTrue(s) + 1
  {
    CountTrueSize(s);
    CountTrueSize(s[i := true]);
    assert TrueSet(s[i := true]) == TrueSet(s) + {i};
  }

  /** A row counts zero exactly when no entry is `true`. */
  lemma CountTrueZero(s: seq<bool>)
    ensures CountTrue(s) == 0 <==> forall i :: 0 <= i < |s| ==> !s[i]
  {
    CountTrueSize(s);
    if forall i :: 0 <= i < |s| ==> !s[i] {
      assert TrueSet(s) == {};
    } else {
      var i :| 0 <= i < |s| && s[i];
      assert i in TrueSet(s);
    }
  }

  /** `n` entries `false`: a fresh `boolean[n]`. */
  function Falses(n: nat): (s: seq<bool>)
    ensures |s| == n && CountTrue(s) == 0
  {
    var s := seq(n, _ => false);
    CountTrueZero(s);
    s
  }

  /** `n` zero scores: a `double[n]` after `Util.init(_, zero)`. */
  function ZeroScores(n: nat): (s: seq<real>)
    ensures |s| == n && forall i :: 0 <= i < n ==> s[i] == 0.0
  {
    seq(n, _ => 0.0)
  }

  /** `n` rows of `m` zero scores: a `double[n][m]` after `Util.init`. */
  method ZeroRows(n: nat, m: nat) returns (a: array<seq<real>>)
    ensures fresh(a) && a.Length == n
    ensures forall k :: 0 <= k < n ==> a[k] == ZeroScores(m)
  {
    a := new seq<real>[n](_ => ZeroScores(m));
  }

  /** The element-wise or of two rows of the same length. */
  function Or(b1: seq<bool>, b2: seq<bool>): (r: seq<bool>)
    requires |b1| == |b2|
    ensures |r| == |b1| && forall i :: 0 <= i < |r| ==> r[i] == (b1[i] || b2[i])
  {
    seq(|b1|, i requires 0 <= i < |b1| => b1[i] || b2[i])
  }

  /** The edges of the union are those of either row. */
  lemma OrEdges(b1: seq<bool>, b2: seq<bool>)
    requires |b1| == |b2|
    ensures TrueSet(Or(b1, b2)) == TrueSet(b1) + TrueSet(b2)
  {
  }

  /** `booleanUnion(b1, b2)`: the element-wise or, built entry by entry,
      with the number of `true` entries counted on the way. */
  method BooleanUnion(b1: seq<bool>, b2: seq<bool>) returns (result: seq<bool>, count: nat)
    requires |b1| == |b2|
    ensures result == Or(b1, b2)
    ensures count == CountTrue(result) && count == |TrueSet(b1) + TrueSet(b2)|
  {
    result := [];
    count := 0;
    for i := 0 to |b1|
      invariant |result| == i
      invariant forall k :: 0 <= k < i ==> result[k] == (b1[k] || b2[k])
      invariant count == CountTrue(result)
    {
      var entry := b1[i] || b2[i];
      assert (result + [entry])[..i] == result;
      result := result + [entry];
      if entry {
        count := count + 1;
      }
    }
    OrEdges(b1, b2);
    CountTrueSize(result);
  }

  /** The scores of one row after `storeProbs`: each non-empty holding
      list's sum is added; the other entries keep theirs. */
  function Stored(dl: seq<seq<real>>, row: seq<real>): (r: seq<real>)
    requires |dl| <= |row|
    ensures |r| == |row|
    ensures forall e :: 0 <= e < |dl| && dl[e] != [] ==> r[e] == MeasureTables.Sum(dl[e]) + row[e]
    ensures forall e :: 0 <= e < |row| && (e >= |dl| || dl[e] == []) ==> r[e] == row[e]
  {
    seq(|row|, e requires 0 <= e < |row| => if e < |dl| && dl[e] != [] then MeasureTables.Sum(dl[e]) + row[e] else row[e])
  }

  /** Storing adds each list's sum: an empty list adds nothing. */
  lemma StoredAddsSums(dl: seq<seq<real>>, row: seq<real>, e: int)
    requires |dl| <= |row| && 0 <= e < |row|
    ensures Stored(dl, row)[e] == row[e] + (if e < |dl| then MeasureTables.Sum(dl[e]) else 0.0)
  {
  }

  /** `storeProbs(dl, probs, index)`: for each edge with a non-empty
      holding list, the list's sum is added into row `index`; every other
      row stays. */
  method StoreProbs(dl: seq<seq<real>>, probs: array<seq<real>>, index: int)
    requires 0 <= index < probs.Length && |dl| <= |probs[index]|
    modifies probs
    ensures probs[index] == Stored(dl, old(probs[index]))
    ensures forall k :: 0 <= k < probs.Length && k != index ==> probs[k] == old(probs[k])
  {
    ghost var row := probs[index];
    for edge := 0 to |dl|
      invariant |probs[index]| == |row|
      invariant forall e :: 0 <= e < edge ==> probs[index][e] == Stored(dl, row)[e]
      invariant forall e :: edge <= e < |row| ==> probs[index][e] == row[e]
      invariant forall k :: 0 <= k < probs.Length && k != index ==> probs[k] == old(probs[k])
    {
      var temps := dl[edge];
      if |temps| > 0 {
        probs[index] := probs[index][edge := MeasureTables.Sum(temps) + probs[index][edge]];
      }
    }
  }

  /** `n` empty holding lists. */
  function Empties(n: nat): (s: seq<seq<real>>)
    ensures |s| == n && forall i :: 0 <= i < n ==> s[i] == []
  {
    seq(n, _ => [])
  }

  // ---------------------------------------------------------------------
  // Predictions

  /** `Prediction`: the edge it spawns and its two multipliers. */
  datatype Prediction = Prediction(predictedState: int, forwardProbMultiplier: real, innerProbMultiplier: real)

  /** Whether some prediction of `ps` spawns edge `e`. */
  predicate Predicts(ps: seq<Prediction>, e: int)
    decreases |ps|
  {
    ps != [] && (Predicts(ps[..|ps| - 1], e) || ps[|ps| - 1].predictedState == e)
  }

  lemma {:induction false} PredictsIff(ps: seq<Prediction>, e: int)
    ensures Predicts(ps, e) <==> exists j :: 0 <= j < |ps| && ps[j].predictedState == e
    decreases |ps|
  {
    if ps != [] {
      var p := ps[..|ps| - 1];
      PredictsIff(p, e);
      if exists j :: 0 <= j < |ps| && ps[j].predictedState == e {
        var j :| 0 <= j < |ps| && ps[j].predictedState == e;
        if j < |p| {
          assert p[j] == ps[j];
        }
      }
      if exists j :: 0 <= j < |p| && p[j].predictedState == e {
        var j :| 0 <= j < |p| && p[j].predictedState == e;
        assert ps[j] == p[j];
      }
    }
  }

  /** The forward score the predictions of `ps` add to edge `e`, spawned
      from an edge of forward score `f`. */
  function Gain(ps: seq<Prediction>, e: int, f: real): real
    decreases |ps|
  {
    if ps == [] then 0.0
    else Gain(ps[..|ps| - 1], e, f) + (if ps[|ps| - 1].predictedState == e then f * ps[|ps| - 1].forwardProbMultiplier else 0.0)
  }

  /** The three folds over predictions, one prediction further. */
  lemma PredictionStep(ps: seq<Prediction>, x: nat, e: int, f: real, d: real)
    requires x < |ps|
    ensures Predicts(ps[..x + 1], e) == (Predicts(ps[..x], e) || ps[x].predictedState == e)
    ensures Gain(ps[..x + 1], e, f) == Gain(ps[..x], e, f) + (if ps[x].predictedState == e then f * ps[x].forwardProbMultiplier else 0.0)
    ensures LastInner(ps[..x + 1], e, d) == (if ps[x].predictedState == e then ps[x].innerProbMultiplier else LastInner(ps[..x], e, d))
  {
    assert ps[..x + 1][..x] == ps[..x];
  }

  /** An edge that no prediction spawns gains nothing. */
  lemma {:induction false} GainNone(ps: seq<Prediction>, e: int, f: real)
    requires !Predicts(ps, e)
    ensures Gain(ps, e, f) == 0.0
    decreases |ps|
  {
    if ps != [] {
      GainNone(ps[..|ps| - 1], e, f);
    }
  }

  /** The inner score held for `e` after `ps`: the multiplier of the last
      prediction spawning `e`, or `d` when none does. */
  function LastInner(ps: seq<Prediction>, e: int, d: real): real
    decreases |ps|
  {
    if ps == [] then d
    else if ps[|ps| - 1].predictedState == e then ps[|ps| - 1].innerProbMultiplier
    else LastInner(ps[..|ps| - 1], e, d)
  }

  /** Inner scores are overwritten, not summed: the last prediction wins. */
  lemma {:induction false} LastInnerIsLast(ps: seq<Prediction>, e: int, d: real)
    ensures !Predicts(ps, e) ==> LastInner(ps, e, d) == d
    ensures Predicts(ps, e) ==> exists j :: (0 <= j < |ps| && ps[j].predictedState == e &&
      LastInner(ps, e, d) == ps[j].innerProbMultiplier &&
      forall k :: j < k < |ps| ==> ps[k].predictedState != e)
    decreases |ps|
  {
    if ps != [] {
      var p := ps[..|ps| - 1];
      LastInnerIsLast(p, e, d);
      if ps[|ps| - 1].predictedState != e && Predicts(ps, e) {
        var j :| 0 <= j < |p| && p[j].predictedState == e &&
          LastInner(p, e, d) == p[j].innerProbMultiplier &&
          forall k :: j < k < |p| ==> p[k].predictedState != e;
        assert ps[j] == p[j];
      }
    }
  }

  // ---------------------------------------------------------------------
  // The chart

  class DenseChart {
    const numWords: nat
    /** `numCells`: `(numWords + 4)(numWords + 1) / 2`. */
    const numCells: nat
    const edgeSpaceSize: nat
    /** Whether the outer scores exist (`insideOutsideOpt > 0`). */
    const hasOuter: bool
    /** `g.getPredictions(edge)` for each edge; the closure scores behind
        them are given. */
    const predictions: seq<seq<Prediction>>
    /** `chartEntries`, `forwardProb`, `innerProb`, `outerProb`: one row
        per cell; `chartCount`: the present edges per cell. */
    const chartEntries: array<seq<bool>>
    const forwardProb: array<seq<real>>
    const innerProb: array<seq<real>>
    const outerProb: array<seq<real>>
    const chartCount: array<int>
    /** The holding zone of `predictAll`. */
    var predictedChartEntries: array<bool>
    var predictedForwardProb: array<real>
    var predictedInnerProb: array<real>
    var predictedChartCount: int
    /** The holding zone of `completeAll`. */
    var theseChartEntries: array<bool>
    var theseForwardProb: seq<seq<real>>
    var theseInnerProb: seq<seq<real>>

    /** Every row has one entry per edge, every count is the number of
        edges present in its row, and every prediction spawns an edge. */
    predicate Valid()
      reads chartEntries, forwardProb, innerProb, outerProb, chartCount
    {
      numCells == NumCells(numWords) &&
      chartEntries.Length == numCells && forwardProb.Length == numCells &&
      innerProb.Length == numCells && chartCount.Length == numCells &&
      outerProb.Length == (if hasOuter then numCells else 0) &&
      forwardProb != innerProb && forwardProb != outerProb && innerProb != outerProb &&
      (forall k :: 0 <= k < numCells ==> |chartEntries[k]| == edgeSpaceSize) &&
      (forall k :: 0 <= k < numCells ==> chartCount[k] == CountTrue(chartEntries[k])) &&
      (forall k :: 0 <= k < numCells ==> |forwardProb[k]| == edgeSpaceSize && |innerProb[k]| == edgeSpaceSize) &&
      (forall k :: 0 <= k < outerProb.Length ==> |outerProb[k]| == edgeSpaceSize) &&
      |predictions| == edgeSpaceSize &&
      (forall e, j :: 0 <= e < |predictions| && 0 <= j < |predictions[e]| ==>
        0 <= predictions[e][j].predictedState < edgeSpaceSize)
    }

    /** The prediction holding arrays have one entry per edge and their
        count is the number of edges predicted. */
    predicate Holding()
      reads this, predictedChartEntries, predictedForwardProb, predictedInnerProb
    {
      predictedChartEntries.Length == edgeSpaceSize && predictedForwardProb.Length == edgeSpaceSize &&
      predictedInnerProb.Length == edgeSpaceSize && predictedForwardProb != predictedInnerProb &&
      predictedChartCount == CountTrue(predictedChartEntries[..])
    }

    /** `sentInit` for a sentence of `numWords` words: every row empty,
        every score zero, every count zero. */
    constructor (numWords: nat, edgeSpaceSize: nat, insideOutsideOpt: int, predictions: seq<seq<Prediction>>)
      requires |predictions| == edgeSpaceSize
      requires forall e, j :: 0 <= e < |predictions| && 0 <= j < |predictions[e]| ==>
        0 <= predictions[e][j].predictedState < edgeSpaceSize
      ensures Valid() && Holding()
      ensures this.numWords == numWords && this.edgeSpaceSize == edgeSpaceSize
      ensures hasOuter == (insideOutsideOpt > 0) && this.predictions == predictions
      ensures forall k :: 0 <= k < numCells ==> chartEntries[k] == Falses(edgeSpaceSize) && chartCount[k] == 0
      ensures forall k :: 0 <= k < numCells ==> forwardProb[k] == ZeroScores(edgeSpaceSize) && innerProb[k] == ZeroScores(edgeSpaceSize)
      ensures forall k :: 0 <= k < outerProb.Length ==> outerProb[k] == ZeroScores(edgeSpaceSize)
    {
      var n := NumCells(numWords);
      var fwd := ZeroRows(n, edgeSpaceSize);
      var inn := ZeroRows(n, edgeSpaceSize);
      var out := ZeroRows(if insideOutsideOpt > 0 then n else 0, edgeSpaceSize);
      this.numWords := numWords;
      numCells := n;
      this.edgeSpaceSize := edgeSpaceSize;
      hasOuter := insideOutsideOpt > 0;
      this.predictions := predictions;
      chartEntries := new seq<bool>[n](_ => Falses(edgeSpaceSize));
      forwardProb := fwd;
      innerProb := inn;
      outerProb := out;
      chartCount := new int[n](_ => 0);
      predictedChartEntries := new bool[edgeSpaceSize](_ => false);
      predictedForwardProb := new real[edgeSpaceSize](_ => 0.0);
      predictedInnerProb := new real[edgeSpaceSize](_ => 0.0);
      predictedChartCount := 0;
      theseChartEntries := new bool[edgeSpaceSize](_ => false);
      theseForwardProb := Empties(edgeSpaceSize);
      theseInnerProb := Empties(edgeSpaceSize);
      new;
      assert predictedChartEntries[..] == Falses(edgeSpaceSize);
    }

    /** `containsEdge(left, right, edge)`. */
    predicate ContainsEdge(left: int, right: int, edge: int)
      requires Valid() && 0 <= left <= right <= numWords && 0 <= edge < edgeSpaceSize
      reads chartEntries, forwardProb, innerProb, outerProb, chartCount
    {
      LinearInRange(numWords, left, right);
      chartEntries[Linear(left, right)][edge]
    }

    /** `chartCount(left, right)`: the number of edges present in the
        cell; zero exactly when none is. */
    function ChartCount(left: int, right: int): (n: int)
      requires Valid() && 0 <= left <= right <= numWords
      reads chartEntries, forwardProb, innerProb, outerProb, chartCount
      ensures 0 <= Linear(left, right) < numCells
      ensures n == |TrueSet(chartEntries[Linear(left, right)])|
      ensures n == 0 <==> forall e :: 0 <= e < edgeSpaceSize ==> !ContainsEdge(left, right, e)
    {
      LinearInRange(numWords, left, right);
      CountTrueSize(chartEntries[Linear(left, right)]);
      CountTrueZero(chartEntries[Linear(left, right)]);
      assert forall e :: 0 <= e < edgeSpaceSize ==> (ContainsEdge(left, right, e) <==> chartEntries[Linear(left, right)][e]);
      chartCount[Linear(left, right)]
    }

    /** `listEdges(left, right)`: exactly the edges present in the cell,
        as many as the cell's count. */
    method ListEdges(left: int, right: int) returns (edges: set<int>)
      requires Valid() && 0 <= left <= right <= numWords
      ensures forall e :: e in edges <==> 0 <= e < edgeSpaceSize && ContainsEdge(left, right, e)
      ensures |edges| == ChartCount(left, right)
    {
      edges := {};
      for edge := 0 to edgeSpaceSize
        invariant forall e :: e in edges <==> 0 <= e < edge && ContainsEdge(left, right, e)
      {
        if ContainsEdge(left, right, edge) {
          edges := edges + {edge};
        }
      }
      LinearInRange(numWords, left, right);
      assert edges == TrueSet(chartEntries[Linear(left, right)]);
    }

    /** `getForwardScore`, `getInnerScore`, `getOuterScore`. */
    function ForwardScore(left: int, right: int, edge: int): real
      requires Valid() && 0 <= left <= right <= numWords && 0 <= edge < edgeSpaceSize
      reads chartEntries, forwardProb, innerProb, outerProb, chartCount
    {
      LinearInRange(numWords, left, right);
      forwardProb[Linear(left, right)][edge]
    }

    function InnerScore(left: int, right: int, edge: int): real
      requires Valid() && 0 <= left <= right <= numWords && 0 <= edge < edgeSpaceSize
      reads chartEntries, forwardProb, innerProb, outerProb, chartCount
    {
      LinearInRange(numWords, left, right);
      innerProb[Linear(left, right)][edge]
    }

    function OuterScore(left: int, right: int, edge: int): real
      requires Valid() && hasOuter && 0 <= left <= right <= numWords && 0 <= edge < edgeSpaceSize
      reads chartEntries, forwardProb, innerProb, outerProb, chartCount
    {
      LinearInRange(numWords, left, right);
      outerProb[Linear(left, right)][edge]
    }

    /** Adds `score` to one entry of one row of `probs`; every other entry
        of every row stays. */
    method AddToEntry(probs: array<seq<real>>, k: int, edge: int, score: real)
      requires 0 <= k < probs.Length && 0 <= edge < |probs[k]|
      modifies probs
      ensures probs[k] == old(probs[k])[edge := old(probs[k][edge]) + score]
      ensures forall j :: 0 <= j < probs.Length && j != k ==> probs[j] == old(probs[j])
    {
      probs[k] := probs[k][edge := probs[k][edge] + score];
    }

    /** `addForwardScore`: the score is added to one entry. */
    method AddForwardScore(left: int, right: int, edge: int, score: real)
      requires Valid() && 0 <= left <= right <= numWords && 0 <= edge < edgeSpaceSize
      modifies forwardProb
      ensures Valid() && 0 <= Linear(left, right) < numCells
      ensures ForwardScore(left, right, edge) == old(ForwardScore(left, right, edge)) + score
      ensures var lr := Linear(left, right);
        forwardProb[lr] == old(forwardProb[lr])[edge := old(forwardProb[lr][edge]) + score]
      ensures forall k :: 0 <= k < forwardProb.Length && k != Linear(left, right) ==> forwardProb[k] == old(forwardProb[k])
    {
      LinearInRange(numWords, left, right);
      AddToEntry(forwardProb, Linear(left, right), edge, score);
    }

    /** `addInnerScore`. */
    method AddInnerScore(left: int, right: int, edge: int, score: real)
      requires Valid() && 0 <= left <= right <= numWords && 0 <= edge < edgeSpaceSize
      modifies innerProb
      ensures Valid() && 0 <= Linear(left, right) < numCells
      ensures InnerScore(left, right, edge) == old(InnerScore(left, right, edge)) + score
      ensures var lr := Linear(left, right);
        innerProb[lr] == old(innerProb[lr])[edge := old(innerProb[lr][edge]) + score]
      ensures forall k :: 0 <= k < innerProb.Length && k != Linear(left, right) ==> innerProb[k] == old(innerProb[k])
    {
      LinearInRange(numWords, left, right);
      AddToEntry(innerProb, Linear(left, right), edge, score);
    }

    /** `addOuterScore`. */
    method AddOuterScore(left: int, right: int, edge: int, score: real)
      requires Valid() && hasOuter && 0 <= left <= right <= numWords && 0 <= edge < edgeSpaceSize
      modifies outerProb
      ensures Valid() && 0 <= Linear(left, right) < numCells
      ensures OuterScore(left, right, edge) == old(OuterScore(left, right, edge)) + score
      ensures var lr := Linear(left, right);
        outerProb[lr] == old(outerProb[lr])[edge := old(outerProb[lr][edge]) + score]
      ensures forall k :: 0 <= k < outerProb.Length && k != Linear(left, right) ==> outerProb[k] == old(outerProb[k])
    {
      LinearInRange(numWords, left, right);
      AddToEntry(outerProb, Linear(left, right), edge, score);
    }

    /** `addToChart(left, right, edge, forward, inner)`: the edge must be
        absent; it becomes present with both scores and the cell's count
        grows by one. */
    method AddToChart(left: int, right: int, edge: int, forward: real, inner: real)
      requires Valid() && 0 <= left <= right <= numWords && 0 <= edge < edgeSpaceSize
      requires !ContainsEdge(left, right, edge)
      modifies chartEntries, forwardProb, innerProb, chartCount
      ensures Valid() && 0 <= Linear(left, right) < numCells
      ensures ContainsEdge(left, right, edge)
      ensures ForwardScore(left, right, edge) == forward && InnerScore(left, right, edge) == inner
      ensures ChartCount(left, right) == old(ChartCount(left, right)) + 1
      ensures var lr := Linear(left, right);
        chartEntries[lr] == old(chartEntries[lr])[edge := true] &&
        forwardProb[lr] == old(forwardProb[lr])[edge := forward] &&
        innerProb[lr] == old(innerProb[lr])[edge := inner]
      ensures forall k :: 0 <= k < numCells && k != Linear(left, right) ==>
        chartEntries[k] == old(chartEntries[k]) && forwardProb[k] == old(forwardProb[k]) &&
        innerProb[k] == old(innerProb[k]) && chartCount[k] == old(chartCount[k])
    {
      LinearInRange(numWords, left, right);
      var lrIndex := Linear(left, right);
      CountTrueSet(chartEntries[lrIndex], edge);
      chartEntries[lrIndex] := chartEntries[lrIndex][edge := true];
      forwardProb[lrIndex] := forwardProb[lrIndex][edge := forward];
      innerProb[lrIndex] := innerProb[lrIndex][edge := inner];
      chartCount[lrIndex] := chartCount[lrIndex] + 1;
    }

    /** The start of `predictAll`: empty holding arrays. */
    method InitPredicted()
      modifies this
      ensures Holding() && fresh(predictedChartEntries) && fresh(predictedForwardProb) && fresh(predictedInnerProb)
      ensures predictedChartEntries[..] == Falses(edgeSpaceSize) && predictedChartCount == 0
      ensures forall e :: 0 <= e < edgeSpaceSize ==> predictedForwardProb[e] == 0.0 && predictedInnerProb[e] == 0.0
      ensures theseChartEntries == old(theseChartEntries)
      ensures theseForwardProb == old(theseForwardProb) && theseInnerProb == old(theseInnerProb)
    {
      predictedChartEntries := new bool[edgeSpaceSize](_ => false);
      predictedForwardProb := new real[edgeSpaceSize](_ => 0.0);
      predictedInnerProb := new real[edgeSpaceSize](_ => 0.0);
      predictedChartCount := 0;
      assert predictedChartEntries[..] == Falses(edgeSpaceSize);
    }

    /** One prediction into the holding arrays: the edge is marked (and
        counted the first time), its forward score accumulates and its
        inner score is overwritten. */
    method PredictOne(p: Prediction, f: real)
      requires Holding() && 0 <= p.predictedState < edgeSpaceSize
      modifies predictedChartEntries, predictedForwardProb, predictedInnerProb, this`predictedChartCount
      ensures Holding()
      ensures predictedChartEntries[..] == old(predictedChartEntries[..])[p.predictedState := true]
      ensures predictedForwardProb[..] ==
        old(predictedForwardProb[..])[p.predictedState := old(predictedForwardProb[p.predictedState]) + f * p.forwardProbMultiplier]
      ensures predictedInnerProb[..] == old(predictedInnerProb[..])[p.predictedState := p.innerProbMultiplier]
    {
      var newEdge := p.predictedState;
      if !predictedChartEntries[newEdge] {
        CountTrueSet(predictedChartEntries[..], newEdge);
        predictedChartEntries[newEdge] := true;
        predictedChartCount := predictedChartCount + 1;
      }
      predictedForwardProb[newEdge] := predictedForwardProb[newEdge] + f * p.forwardProbMultiplier;
      predictedInnerProb[newEdge] := p.innerProbMultiplier;
    }

    /** `predictFromEdge(left, right, edge)`: every prediction of the edge
        is applied in turn. */
    method PredictFromEdge(left: int, right: int, edge: int)
      requires Valid() && Holding() && 0 <= left <= right <= numWords && 0 <= edge < edgeSpaceSize
      modifies predictedChartEntries, predictedForwardProb, predictedInnerProb, this`predictedChartCount
      ensures Holding()
      ensures forall e :: 0 <= e < edgeSpaceSize ==>
        predictedChartEntries[e] == (old(predictedChartEntries[e]) || Predicts(predictions[edge], e))
      ensures forall e :: 0 <= e < edgeSpaceSize ==>
        predictedForwardProb[e] == old(predictedForwardProb[e]) + Gain(predictions[edge], e, ForwardScore(left, right, edge))
      ensures forall e :: 0 <= e < edgeSpaceSize ==>
        predictedInnerProb[e] == LastInner(predictions[edge], e, old(predictedInnerProb[e]))
    {
      var ps := predictions[edge];
      var f := ForwardScore(left, right, edge);
      for x := 0 to |ps|
        invariant Holding()
        invariant forall e :: 0 <= e < edgeSpaceSize ==>
          predictedChartEntries[e] == (old(predictedChartEntries[e]) || Predicts(ps[..x], e))
        invariant forall e :: 0 <= e < edgeSpaceSize ==>
          predictedForwardProb[e] == old(predictedForwardProb[e]) + Gain(ps[..x], e, f)
        invariant forall e :: 0 <= e < edgeSpaceSize ==>
          predictedInnerProb[e] == LastInner(ps[..x], e, old(predictedInnerProb[e]))
      {
        ghost var fw := predictedForwardProb[..];
        PredictOne(ps[x], f);
        forall e | 0 <= e < edgeSpaceSize
          ensures predictedChartEntries[e] == (old(predictedChartEntries[e]) || Predicts(ps[..x + 1], e))
          ensures predictedForwardProb[e] == old(predictedForwardProb[e]) + Gain(ps[..x + 1], e, f)
          ensures predictedInnerProb[e] == LastInner(ps[..x + 1], e, old(predictedInnerProb[e]))
        {
          PredictionStep(ps, x, e, f, old(predictedInnerProb[e]));
          assert predictedForwardProb[e] == fw[e] + (if ps[x].predictedState == e then f * ps[x].forwardProbMultiplier else 0.0);
        }
      }
      assert ps[..|ps|] == ps;
    }

    /** The edges `0..m-1` of cell `[left, right]` that are present: does
        one of them predict `e`? */
    predicate CellSpawns(left: int, right: int, m: int, e: int)
      requires Valid() && 0 <= left <= right <= numWords && 0 <= m <= edgeSpaceSize
      reads chartEntries, forwardProb, innerProb, outerProb, chartCount
      decreases m
    {
      m > 0 && (CellSpawns(left, right, m - 1, e) || (ContainsEdge(left, right, m - 1) && Predicts(predictions[m - 1], e)))
    }

    /** The forward score those edges' predictions give `e`. */
    function CellGain(left: int, right: int, m: int, e: int): real
      requires Valid() && 0 <= left <= right <= numWords && 0 <= m <= edgeSpaceSize
      reads chartEntries, forwardProb, innerProb, outerProb, chartCount
      decreases m
    {
      if m == 0 then 0.0
      else
        var g := if ContainsEdge(left, right, m - 1) then Gain(predictions[m - 1], e, ForwardScore(left, right, m - 1)) else 0.0;
        CellGain(left, right, m - 1, e) + g
    }

    /** The inner score held for `e` after those edges predicted, starting
        from `d`. */
    function CellInner(left: int, right: int, m: int, e: int, d: real): real
      requires Valid() && 0 <= left <= right <= numWords && 0 <= m <= edgeSpaceSize
      reads chartEntries, forwardProb, innerProb, outerProb, chartCount
      decreases m
    {
      if m == 0 then d
      else if ContainsEdge(left, right, m - 1) then LastInner(predictions[m - 1], e, CellInner(left, right, m - 1, e, d))
      else CellInner(left, right, m - 1, e, d)
    }

    /** The cells `[l, right]` with `l < k`: is `e` predicted from one? */
    predicate Spawns(right: int, k: int, e: int)
      requires Valid() && 0 <= k <= right + 1 && right <= numWords
      reads chartEntries, forwardProb, innerProb, outerProb, chartCount
      decreases k
    {
      k > 0 && (Spawns(right, k - 1, e) || CellSpawns(k - 1, right, edgeSpaceSize, e))
    }

    /** The forward score predicted for `e` from those cells. */
    function AllGain(right: int, k: int, e: int): real
      requires Valid() && 0 <= k <= right + 1 && right <= numWords
      reads chartEntries, forwardProb, innerProb, outerProb, chartCount
      decreases k
    {
      if k == 0 then 0.0 else AllGain(right, k - 1, e) + CellGain(k - 1, right, edgeSpaceSize, e)
    }

    /** The inner score predicted for `e` from those cells. */
    function AllInner(right: int, k: int, e: int): real
      requires Valid() && 0 <= k <= right + 1 && right <= numWords
      reads chartEntries, forwardProb, innerProb, outerProb, chartCount
      decreases k
    {
      if k == 0 then 0.0 else CellInner(k - 1, right, edgeSpaceSize, e, AllInner(right, k - 1, e))
    }

    /** `e` is spawned from a cell iff one of its present edges has a
        prediction of `e`. */
    lemma {:induction false} CellSpawnsIff(left: int, right: int, m: int, e: int)
      requires Valid() && 0 <= left <= right <= numWords && 0 <= m <= edgeSpaceSize
      ensures CellSpawns(left, right, m, e) <==>
        exists x :: 0 <= x < m && ContainsEdge(left, right, x) && Predicts(predictions[x], e)
      decreases m
    {
      if m > 0 {
        CellSpawnsIff(left, right, m - 1, e);
      }
    }

    /** After `predictAll(right)`, cell `[right, right]` holds exactly the
        edges predicted by some present edge of some cell `[l, right]`. */
    lemma {:induction false} SpawnsIff(right: int, k: int, e: int)
      requires Valid() && 0 <= k <= right + 1 && right <= numWords
      ensures Spawns(right, k, e) <==>
        exists l, x :: 0 <= l < k && 0 <= x < edgeSpaceSize && ContainsEdge(l, right, x) && Predicts(predictions[x], e)
      decreases k
    {
      if k > 0 {
        SpawnsIff(right, k - 1, e);
        CellSpawnsIff(k - 1, right, edgeSpaceSize, e);
      }
    }

    /** A cell with no edge present predicts nothing. */
    lemma {:induction false} CellNone(left: int, right: int, m: int, e: int, d: real)
      requires Valid() && 0 <= left <= right <= numWords && 0 <= m <= edgeSpaceSize
      requires forall x :: 0 <= x < edgeSpaceSize ==> !ContainsEdge(left, right, x)
      ensures !CellSpawns(left, right, m, e) && CellGain(left, right, m, e) == 0.0 && CellInner(left, right, m, e, d) == d
      decreases m
    {
      if m > 0 {
        CellNone(left, right, m - 1, e, d);
      }
    }

    /** `predictAll`'s work on cell `[left, right]`: a cell whose count
        is zero is skipped, otherwise every present edge predicts. */
    method PredictCell(left: int, right: int)
      requires Valid() && Holding() && 0 <= left <= right <= numWords
      modifies predictedChartEntries, predictedForwardProb, predictedInnerProb, this`predictedChartCount
      ensures Holding()
      ensures forall e :: 0 <= e < edgeSpaceSize ==>
        predictedChartEntries[e] == (old(predictedChartEntries[e]) || CellSpawns(left, right, edgeSpaceSize, e))
      ensures forall e :: 0 <= e < edgeSpaceSize ==>
        predictedForwardProb[e] == old(predictedForwardProb[e]) + CellGain(left, right, edgeSpaceSize, e)
      ensures forall e :: 0 <= e < edgeSpaceSize ==>
        predictedInnerProb[e] == CellInner(left, right, edgeSpaceSize, e, old(predictedInnerProb[e]))
    {
      if ChartCount(left, right) == 0 {
        forall e | 0 <= e < edgeSpaceSize
          ensures !CellSpawns(left, right, edgeSpaceSize, e) && CellGain(left, right, edgeSpaceSize, e) == 0.0
          ensures CellInner(left, right, edgeSpaceSize, e, old(predictedInnerProb[e])) == old(predictedInnerProb[e])
        {
          CellNone(left, right, edgeSpaceSize, e, old(predictedInnerProb[e]));
        }
        return;
      }
      for edge := 0 to edgeSpaceSize
        invariant Holding()
        invariant forall e :: 0 <= e < edgeSpaceSize ==>
          predictedChartEntries[e] == (old(predictedChartEntries[e]) || CellSpawns(left, right, edge, e))
        invariant forall e :: 0 <= e < edgeSpaceSize ==>
          predictedForwardProb[e] == old(predictedForwardProb[e]) + CellGain(left, right, edge, e)
        invariant forall e :: 0 <= e < edgeSpaceSize ==>
          predictedInnerProb[e] == CellInner(left, right, edge, e, old(predictedInnerProb[e]))
      {
        if ContainsEdge(left, right, edge) {
          PredictFromEdge(left, right, edge);
        }
      }
    }

    /** The loop of `predictAll` over the cells `[left, right]`. */
    method PredictCells(right: int)
      requires Valid() && Holding() && 0 <= right <= numWords
      requires forall e :: 0 <= e < edgeSpaceSize ==>
        !predictedChartEntries[e] && predictedForwardProb[e] == 0.0 && predictedInnerProb[e] == 0.0
      modifies predictedChartEntries, predictedForwardProb, predictedInnerProb, this`predictedChartCount
      ensures Holding()
      ensures forall e :: 0 <= e < edgeSpaceSize ==> predictedChartEntries[e] == Spawns(right, right + 1, e)
      ensures forall e :: 0 <= e < edgeSpaceSize ==> predictedForwardProb[e] == AllGain(right, right + 1, e)
      ensures forall e :: 0 <= e < edgeSpaceSize ==> predictedInnerProb[e] == AllInner(right, right + 1, e)
    {
      for left := 0 to right + 1
        invariant Holding()
        invariant forall e :: 0 <= e < edgeSpaceSize ==> predictedChartEntries[e] == Spawns(right, left, e)
        invariant forall e :: 0 <= e < edgeSpaceSize ==> predictedForwardProb[e] == AllGain(right, left, e)
        invariant forall e :: 0 <= e < edgeSpaceSize ==> predictedInnerProb[e] == AllInner(right, left, e)
      {
        PredictCell(left, right);
      }
    }

    /** `predictAll(right)`: every present edge of every cell ending at
        `right` predicts into fresh holding arrays, which then replace
        cell `[right, right]`; the other cells stay. */
    method PredictAll(right: int)
      requires Valid() && 0 <= right <= numWords
      modifies this, chartEntries, forwardProb, innerProb, chartCount
      ensures Valid() && 0 <= Linear(right, right) < numCells
      ensures forall e :: 0 <= e < edgeSpaceSize ==>
        chartEntries[Linear(right, right)][e] == old(Spawns(right, right + 1, e))
      ensures forall e :: 0 <= e < edgeSpaceSize ==>
        forwardProb[Linear(right, right)][e] == old(AllGain(right, right + 1, e))
      ensures forall e :: 0 <= e < edgeSpaceSize ==>
        innerProb[Linear(right, right)][e] == old(AllInner(right, right + 1, e))
      ensures forall k :: 0 <= k < numCells && k != Linear(right, right) ==>
        chartEntries[k] == old(chartEntries[k]) && forwardProb[k] == old(forwardProb[k]) &&
        innerProb[k] == old(innerProb[k]) && chartCount[k] == old(chartCount[k])
    {
      PredictInto(right);
      StorePredicted(right);
    }

    /** The holding arrays, fresh, filled from every cell ending at `right`. */
    method PredictInto(right: int)
      requires Valid() && 0 <= right <= numWords
      modifies this
      ensures Holding()
      ensures forall e :: 0 <= e < edgeSpaceSize ==> predictedChartEntries[e] == Spawns(right, right + 1, e)
      ensures forall e :: 0 <= e < edgeSpaceSize ==> predictedForwardProb[e] == AllGain(right, right + 1, e)
      ensures forall e :: 0 <= e < edgeSpaceSize ==> predictedInnerProb[e] == AllInner(right, right + 1, e)
    {
      InitPredicted();
      PredictCells(right);
    }

    /** The holding arrays become cell `[right, right]`. */
    method StorePredicted(right: int)
      requires Valid() && Holding() && 0 <= right <= numWords
      modifies chartEntries, forwardProb, innerProb, chartCount
      ensures Valid() && 0 <= Linear(right, right) < numCells
      ensures chartEntries[Linear(right, right)] == predictedChartEntries[..]
      ensures forwardProb[Linear(right, right)] == predictedForwardProb[..]
      ensures innerProb[Linear(right, right)] == predictedInnerProb[..]
      ensures forall k :: 0 <= k < numCells && k != Linear(right, right) ==>
        chartEntries[k] == old(chartEntries[k]) && forwardProb[k] == old(forwardProb[k]) &&
        innerProb[k] == old(innerProb[k]) && chartCount[k] == old(chartCount[k])
    {
      LinearInRange(numWords, right, right);
      var rrIndex := Linear(right, right);
      chartEntries[rrIndex] := predictedChartEntries[..];
      forwardProb[rrIndex] := predictedForwardProb[..];
      innerProb[rrIndex] := predictedInnerProb[..];
      chartCount[rrIndex] := predictedChartCount;
    }

    /** The start of `completeAll`: nothing held. */
    method InitCompleteTmp()
      modifies this
      ensures fresh(theseChartEntries) && theseChartEntries[..] == Falses(edgeSpaceSize)
      ensures theseForwardProb == Empties(edgeSpaceSize) && theseInnerProb == Empties(edgeSpaceSize)
      ensures predictedChartEntries == old(predictedChartEntries) && predictedChartCount == old(predictedChartCount)
    {
      theseChartEntries := new bool[edgeSpaceSize](_ => false);
      theseForwardProb := Empties(edgeSpaceSize);
      theseInnerProb := Empties(edgeSpaceSize);
      assert theseChartEntries[..] == Falses(edgeSpaceSize);
    }

    /** `initTmpScores(edge)`: the edge is marked as completed here. */
    method InitTmpScores(edge: int)
      requires 0 <= edge < theseChartEntries.Length
      modifies theseChartEntries
      ensures theseChartEntries[..] == old(theseChartEntries[..])[edge := true]
    {
      theseChartEntries[edge] := true;
    }

    /** `addTmpForwardScore(edge, score)`: the score joins the edge's list. */
    method AddTmpForwardScore(edge: int, score: real)
      requires 0 <= edge < |theseForwardProb|
      modifies this`theseForwardProb
      ensures theseForwardProb == old(theseForwardProb)[edge := old(theseForwardProb[edge]) + [score]]
      ensures MeasureTables.Sum(theseForwardProb[edge]) == MeasureTables.Sum(old(theseForwardProb[edge])) + score
    {
      MeasureTables.SumAppend(theseForwardProb[edge], score);
      theseForwardProb := theseForwardProb[edge := theseForwardProb[edge] + [score]];
    }

    /** `addTmpInnerScore(edge, score)`. */
    method AddTmpInnerScore(edge: int, score: real)
      requires 0 <= edge < |theseInnerProb|
      modifies this`theseInnerProb
      ensures theseInnerProb == old(theseInnerProb)[edge := old(theseInnerProb[edge]) + [score]]
      ensures MeasureTables.Sum(theseInnerProb[edge]) == MeasureTables.Sum(old(theseInnerProb[edge])) + score
    {
      MeasureTables.SumAppend(theseInnerProb[edge], score);
      theseInnerProb := theseInnerProb[edge := theseInnerProb[edge] + [score]];
    }

    /** The end of `completeAll(left, middle, right)`: the edges completed
        into `[left, right]` join the cell, its count becomes the size of
        the union, and the held scores are summed into it. */
    method StoreCompleted(left: int, right: int)
      requires Valid() && 0 <= left <= right <= numWords
      requires theseChartEntries.Length == edgeSpaceSize
      requires |theseForwardProb| == edgeSpaceSize && |theseInnerProb| == edgeSpaceSize
      modifies chartEntries, chartCount, forwardProb, innerProb
      ensures Valid() && 0 <= Linear(left, right) < numCells
      ensures var lr := Linear(left, right);
        chartEntries[lr] == Or(old(chartEntries[lr]), theseChartEntries[..]) &&
        forwardProb[lr] == Stored(theseForwardProb, old(forwardProb[lr])) &&
        innerProb[lr] == Stored(theseInnerProb, old(innerProb[lr]))
      ensures ChartCount(left, right) ==
        |TrueSet(old(chartEntries[Linear(left, right)])) + TrueSet(theseChartEntries[..])|
      ensures forall k :: 0 <= k < numCells && k != Linear(left, right) ==>
        chartEntries[k] == old(chartEntries[k]) && forwardProb[k] == old(forwardProb[k]) &&
        innerProb[k] == old(innerProb[k]) && chartCount[k] == old(chartCount[k])
    {
      LinearInRange(numWords, left, right);
      var lrIndex := Linear(left, right);
      var entries, count := BooleanUnion(chartEntries[lrIndex], theseChartEntries[..]);
      chartEntries[lrIndex] := entries;
      chartCount[lrIndex] := count;
      StoreProbs(theseForwardProb, forwardProb, lrIndex);
      StoreProbs(theseInnerProb, innerProb, lrIndex);
    }
  }
}
