/** `parser.EarleyParserSparse`: the chart kept as nested maps, cell number
    (`linear(left, right)`) to edge to score, for forward, inner and outer
    scores, with holding zones for the scores of one prediction or
    completion step.  Scores are reals under the probability operator. */
module SparseCharts {
  import opened Wrappers
  import opened EarleyParsers
  import MeasureTables

  type Chart = map<int, map<int, real>>

  /** A score of the chart; zero for a missing cell or edge. */
  function ChartScore(chart: Chart, lr: int, edge: int): real {
    ScoreOf(CellOf(chart, lr), edge)
  }

  /** The edges of a cell; none for a missing cell. */
  function Edges(chart: Chart, lr: int): set<int> {
    CellOf(chart, lr).Keys
  }

  /** `containsInsideEdge`/`containsOutsideEdge`. */
  predicate Contains(chart: Chart, lr: int, edge: int) {
    lr in chart && edge in chart[lr]
  }

  /** `insideChartCount`/`outsideChartCount`: the size of the cell. */
  function Count(chart: Chart, lr: int): (n: nat)
    ensures n == |Edges(chart, lr)|
  {
    if lr in chart then |chart[lr]| else 0
  }

  /** The count agrees with membership: an edge is contained iff it is
      listed, and the count is zero iff no edge is contained. */
  lemma CountAgrees(chart: Chart, lr: int)
    ensures forall e :: Contains(chart, lr, e) <==> e in Edges(chart, lr)
    ensures Count(chart, lr) == 0 <==> forall e :: !Contains(chart, lr, e)
  {
    NoMember(Edges(chart, lr));
  }

  /** Adding an edge absent from a cell grows its count by one. */
  lemma CountGrows(cell: map<int, real>, edge: int, v: real)
    requires edge !in cell
    ensures |cell[edge := v]| == |cell| + 1
  {
    assert cell[edge := v].Keys == cell.Keys + {edge};
  }

  /** The edges whose holding list is non-empty. */
  predicate Filled(dl: map<int, seq<real>>, e: int) {
    e in dl && dl[e] != []
  }

  /** `storeProbs(dl, probs)`: each non-empty list's sum is added to the
      edge's current score (zero when missing); the other edges keep
      theirs. */
  method StoreProbs(dl: map<int, seq<real>>, probs: map<int, real>) returns (r: map<int, real>)
    ensures forall e :: e in r <==> e in probs || Filled(dl, e)
    ensures forall e :: Filled(dl, e) ==> r[e] == MeasureTables.Sum(dl[e]) + ScoreOf(probs, e)
    ensures forall e :: e in probs && !Filled(dl, e) ==> r[e] == probs[e]
    ensures forall e :: ScoreOf(r, e) == ScoreOf(probs, e) + (if e in dl then MeasureTables.Sum(dl[e]) else 0.0)
  {
    r := probs;
    var todo := dl.Keys;
    while todo != {}
      invariant todo <= dl.Keys
      invariant forall e :: e in r <==> e in probs || (Filled(dl, e) && e !in todo)
      invariant forall e :: Filled(dl, e) && e !in todo ==> r[e] == MeasureTables.Sum(dl[e]) + ScoreOf(probs, e)
      invariant forall e :: e in probs && (!Filled(dl, e) || e in todo) ==> r[e] == probs[e]
      decreases |todo|
    {
      NoMember(todo);
      var edge :| edge in todo;
      var temps := dl[edge];
      if |temps| > 0 {
        var currentValue := if edge in r then r[edge] else 0.0;
        r := r[edge := MeasureTables.Sum(temps) + currentValue];
      }
      todo := todo - {edge};
    }
  }

  class SparseChart {
    /** `forwardProb`, `innerProb` and `outerProb`. */
    var forwardProb: Chart
    var innerProb: Chart
    var outerProb: Chart
    /** The holding zone of a prediction step. */
    var predictedForwardProb: map<int, real>
    var predictedInnerProb: map<int, real>
    /** The holding zone of a completion step: every score found for an
        edge, in order. */
    var theseForwardProb: map<int, seq<real>>
    var theseInnerProb: map<int, seq<real>>

    constructor ()
      ensures forwardProb == map[] && innerProb == map[] && outerProb == map[]
      ensures predictedForwardProb == map[] && predictedInnerProb == map[]
      ensures theseForwardProb == map[] && theseInnerProb == map[]
    {
      forwardProb := map[];
      innerProb := map[];
      outerProb := map[];
      predictedForwardProb := map[];
      predictedInnerProb := map[];
      theseForwardProb := map[];
      theseInnerProb := map[];
    }

    /** `sentInit`: a sentence starts with empty forward and inner charts. */
    method SentInit()
      modifies this
      ensures forwardProb == map[] && innerProb == map[]
      ensures forall l, r, e :: ForwardScore(l, r, e) == 0.0 && InnerScore(l, r, e) == 0.0
      ensures outerProb == old(outerProb)
    {
      forwardProb := map[];
      innerProb := map[];
    }

    /** `initOuterProbs`. */
    method InitOuterProbs()
      modifies this
      ensures outerProb == map[] && forall l, r, e :: OuterScore(l, r, e) == 0.0
      ensures forwardProb == old(forwardProb) && innerProb == old(innerProb)
    {
      outerProb := map[];
    }

    /** `getForwardScore`, `getInnerScore`, `getOuterScore`. */
    function ForwardScore(left: int, right: int, edge: int): (s: real)
      reads this
      ensures !Contains(forwardProb, Linear(left, right), edge) ==> s == 0.0
    {
      ChartScore(forwardProb, Linear(left, right), edge)
    }

    function InnerScore(left: int, right: int, edge: int): (s: real)
      reads this
      ensures !Contains(innerProb, Linear(left, right), edge) ==> s == 0.0
    {
      ChartScore(innerProb, Linear(left, right), edge)
    }

    function OuterScore(left: int, right: int, edge: int): (s: real)
      reads this
      ensures !Contains(outerProb, Linear(left, right), edge) ==> s == 0.0
    {
      ChartScore(outerProb, Linear(left, right), edge)
    }

    /** `containsInsideEdge`, `insideChartCount`, `listInsideEdges` and
        their outside counterparts. */
    predicate ContainsInsideEdge(left: int, right: int, edge: int)
      reads this
    {
      Contains(forwardProb, Linear(left, right), edge)
    }

    function InsideChartCount(left: int, right: int): (n: nat)
      reads this
      ensures n == |ListInsideEdges(left, right)|
      ensures n == 0 <==> forall e :: !ContainsInsideEdge(left, right, e)
    {
      CountAgrees(forwardProb, Linear(left, right));
      Count(forwardProb, Linear(left, right))
    }

    function ListInsideEdges(left: int, right: int): (es: set<int>)
      reads this
      ensures forall e :: e in es <==> ContainsInsideEdge(left, right, e)
    {
      Edges(forwardProb, Linear(left, right))
    }

    predicate ContainsOutsideEdge(left: int, right: int, edge: int)
      reads this
    {
      Contains(outerProb, Linear(left, right), edge)
    }

    function OutsideChartCount(left: int, right: int): (n: nat)
      reads this
      ensures n == |ListOutsideEdges(left, right)|
      ensures n == 0 <==> forall e :: !ContainsOutsideEdge(left, right, e)
    {
      CountAgrees(outerProb, Linear(left, right));
      Count(outerProb, Linear(left, right))
    }

    function ListOutsideEdges(left: int, right: int): (es: set<int>)
      reads this
      ensures forall e :: e in es <==> ContainsOutsideEdge(left, right, e)
    {
      Edges(outerProb, Linear(left, right))
    }

    /** `addToChart(left, right, edge, forward, inner)`: the edge must be
        new to its cell; both scores are stored and the cell's count
        grows by one.  A cell that `addForwardScore` created in the forward
        chart alone has no inner map: the forward score is stored, and then
        `innerProb.get(lrIndex).put` throws a `NullPointerException`. */
    method AddToChart(left: int, right: int, edge: int, forward: real, inner: real) returns (res: Result<()>)
      requires !ContainsInsideEdge(left, right, edge)
      modifies this
      ensures var lr := Linear(left, right);
        res.Fail? <==> lr in old(forwardProb) && lr !in old(innerProb)
      ensures var lr := Linear(left, right);
        forwardProb == old(forwardProb)[lr := CellOf(old(forwardProb), lr)[edge := forward]]
      ensures var lr := Linear(left, right);
        res.Ok? ==> innerProb == old(innerProb)[lr := (if lr in old(forwardProb) then old(innerProb)[lr] else map[])[edge := inner]]
      ensures res.Fail? ==> innerProb == old(innerProb)
      ensures ForwardScore(left, right, edge) == forward
      ensures res.Ok? ==> InnerScore(left, right, edge) == inner
      ensures ContainsInsideEdge(left, right, edge)
      ensures InsideChartCount(left, right) == old(InsideChartCount(left, right)) + 1
      ensures outerProb == old(outerProb)
    {
      var lrIndex := Linear(left, right);
      if lrIndex !in forwardProb {
        forwardProb := forwardProb[lrIndex := map[]];
        innerProb := innerProb[lrIndex := map[]];
      }
      CountGrows(forwardProb[lrIndex], edge, forward);
      forwardProb := forwardProb[lrIndex := forwardProb[lrIndex][edge := forward]];
      if lrIndex !in innerProb {
        return Fail("NullPointerException");
      }
      innerProb := innerProb[lrIndex := innerProb[lrIndex][edge := inner]];
      return Ok(());
    }

    /** `addForwardScore`: the score is added to the edge's forward score;
        every other score stays. */
    method AddForwardScore(left: int, right: int, edge: int, score: real)
      modifies this
      ensures var lr := Linear(left, right);
        forwardProb == old(forwardProb)[lr := Add(CellOf(old(forwardProb), lr), edge, score)]
      ensures ForwardScore(left, right, edge) == old(ForwardScore(left, right, edge)) + score
      ensures forall l, r, e :: Linear(l, r) != Linear(left, right) || e != edge ==>
        ForwardScore(l, r, e) == old(ForwardScore(l, r, e))
      ensures innerProb == old(innerProb) && outerProb == old(outerProb)
    {
      var lrIndex := Linear(left, right);
      if lrIndex !in forwardProb {
        forwardProb := forwardProb[lrIndex := map[]];
      }
      forwardProb := forwardProb[lrIndex := Add(forwardProb[lrIndex], edge, score)];
    }

    /** `addInnerScore`. */
    method AddInnerScore(left: int, right: int, edge: int, score: real)
      modifies this
      ensures var lr := Linear(left, right);
        innerProb == old(innerProb)[lr := Add(CellOf(old(innerProb), lr), edge, score)]
      ensures InnerScore(left, right, edge) == old(InnerScore(left, right, edge)) + score
      ensures forall l, r, e :: Linear(l, r) != Linear(left, right) || e != edge ==>
        InnerScore(l, r, e) == old(InnerScore(l, r, e))
      ensures forwardProb == old(forwardProb) && outerProb == old(outerProb)
    {
      var lrIndex := Linear(left, right);
      if lrIndex !in innerProb {
        innerProb := innerProb[lrIndex := map[]];
      }
      innerProb := innerProb[lrIndex := Add(innerProb[lrIndex], edge, score)];
    }

    /** `addOuterScore`. */
    method AddOuterScore(left: int, right: int, edge: int, score: real)
      modifies this
      ensures var lr := Linear(left, right);
        outerProb == old(outerProb)[lr := Add(CellOf(old(outerProb), lr), edge, score)]
      ensures OuterScore(left, right, edge) == old(OuterScore(left, right, edge)) + score
      ensures forall l, r, e :: Linear(l, r) != Linear(left, right) || e != edge ==>
        OuterScore(l, r, e) == old(OuterScore(l, r, e))
      ensures forwardProb == old(forwardProb) && innerProb == old(innerProb)
    {
      var lrIndex := Linear(left, right);
      if lrIndex !in outerProb {
        outerProb := outerProb[lrIndex := map[]];
      }
      outerProb := outerProb[lrIndex := Add(outerProb[lrIndex], edge, score)];
    }

    /** `initPredictTmpScores`. */
    method InitPredictTmpScores()
      modifies this
      ensures predictedForwardProb == map[] && predictedInnerProb == map[]
      ensures forwardProb == old(forwardProb) && innerProb == old(innerProb) && outerProb == old(outerProb)
    {
      predictedForwardProb := map[];
      predictedInnerProb := map[];
    }

    /** `addPredictTmpForwardScore`: predicted forward scores accumulate. */
    method AddPredictTmpForwardScore(edge: int, score: real)
      modifies this
      ensures predictedForwardProb == Add(old(predictedForwardProb), edge, score)
      ensures ScoreOf(predictedForwardProb, edge) == ScoreOf(old(predictedForwardProb), edge) + score
      ensures predictedInnerProb == old(predictedInnerProb)
      ensures forwardProb == old(forwardProb) && innerProb == old(innerProb) && outerProb == old(outerProb)
    {
      predictedForwardProb := Add(predictedForwardProb, edge, score);
    }

    /** `addPredictTmpInnerScore`: a predicted inner score is overwritten. */
    method AddPredictTmpInnerScore(edge: int, score: real)
      modifies this
      ensures predictedInnerProb == old(predictedInnerProb)[edge := score]
      ensures predictedForwardProb == old(predictedForwardProb)
      ensures forwardProb == old(forwardProb) && innerProb == old(innerProb) && outerProb == old(outerProb)
    {
      predictedInnerProb := predictedInnerProb[edge := score];
    }

    /** `storePredictTmpScores(right)`: cell `[right, right]` is replaced
        wholesale by the predicted scores; other cells stay. */
    method StorePredictTmpScores(right: int)
      modifies this
      ensures var rr := Linear(right, right);
        forwardProb == old(forwardProb)[rr := old(predictedForwardProb)] &&
        innerProb == old(innerProb)[rr := old(predictedInnerProb)]
      ensures forall e :: ForwardScore(right, right, e) == ScoreOf(predictedForwardProb, e)
      ensures forall e :: InnerScore(right, right, e) == ScoreOf(predictedInnerProb, e)
      ensures forall l, r, e :: Linear(l, r) != Linear(right, right) ==>
        ForwardScore(l, r, e) == old(ForwardScore(l, r, e)) && InnerScore(l, r, e) == old(InnerScore(l, r, e))
      ensures predictedForwardProb == old(predictedForwardProb) && predictedInnerProb == old(predictedInnerProb)
      ensures outerProb == old(outerProb)
    {
      var rrIndex := Linear(right, right);
      forwardProb := forwardProb[rrIndex := predictedForwardProb];
      innerProb := innerProb[rrIndex := predictedInnerProb];
    }

    /** `initCompleteTmpScores()`. */
    method InitCompleteTmpScores()
      modifies this
      ensures theseForwardProb == map[] && theseInnerProb == map[]
      ensures forwardProb == old(forwardProb) && innerProb == old(innerProb) && outerProb == old(outerProb)
    {
      theseForwardProb := map[];
      theseInnerProb := map[];
    }

    /** `initCompleteTmpScores(edge)`: empty lists for an edge not yet held;
        the lists of a held edge stay. */
    method InitCompleteTmpScoresFor(edge: int)
      modifies this
      ensures edge !in old(theseForwardProb) ==>
        theseForwardProb == old(theseForwardProb)[edge := []] && theseInnerProb == old(theseInnerProb)[edge := []]
      ensures edge in old(theseForwardProb) ==>
        theseForwardProb == old(theseForwardProb) && theseInnerProb == old(theseInnerProb)
      ensures edge in theseForwardProb
      ensures forwardProb == old(forwardProb) && innerProb == old(innerProb) && outerProb == old(outerProb)
    {
      if edge !in theseForwardProb {
        theseForwardProb := theseForwardProb[edge := []];
        theseInnerProb := theseInnerProb[edge := []];
      }
    }

    /** `addCompleteTmpForwardScore`: the score joins the edge's list. */
    method AddCompleteTmpForwardScore(edge: int, score: real)
      requires edge in theseForwardProb
      modifies this
      ensures theseForwardProb == old(theseForwardProb)[edge := old(theseForwardProb)[edge] + [score]]
      ensures MeasureTables.Sum(theseForwardProb[edge]) == MeasureTables.Sum(old(theseForwardProb)[edge]) + score
      ensures theseInnerProb == old(theseInnerProb)
      ensures forwardProb == old(forwardProb) && innerProb == old(innerProb) && outerProb == old(outerProb)
    {
      MeasureTables.SumAppend(theseForwardProb[edge], score);
      theseForwardProb := theseForwardProb[edge := theseForwardProb[edge] + [score]];
    }

    /** `addCompleteTmpInnerScore`. */
    method AddCompleteTmpInnerScore(edge: int, score: real)
      requires edge in theseInnerProb
      modifies this
      ensures theseInnerProb == old(theseInnerProb)[edge := old(theseInnerProb)[edge] + [score]]
      ensures MeasureTables.Sum(theseInnerProb[edge]) == MeasureTables.Sum(old(theseInnerProb)[edge]) + score
      ensures theseForwardProb == old(theseForwardProb)
      ensures forwardProb == old(forwardProb) && innerProb == old(innerProb) && outerProb == old(outerProb)
    {
      MeasureTables.SumAppend(theseInnerProb[edge], score);
      theseInnerProb := theseInnerProb[edge := theseInnerProb[edge] + [score]];
    }

    /** `storeCompleteTmpScores(left, right)`: the held lists are summed
        into cell `[left, right]` of the forward and inner charts.  A cell
        missing from the forward chart is created afresh in both charts,
        so inner scores added to it earlier are dropped.  A cell that
        `addForwardScore` created in the forward chart alone has no inner
        map: the forward sums are stored, and then `storeProbs` throws a
        `NullPointerException` at the first non-empty inner list. */
    method StoreCompleteTmpScores(left: int, right: int) returns (res: Result<()>)
      modifies this
      ensures var lr := Linear(left, right);
        res.Fail? <==> lr in old(forwardProb) && lr !in old(innerProb) && exists e :: Filled(theseInnerProb, e)
      ensures res.Fail? ==> innerProb == old(innerProb)
      ensures forall e :: (ForwardScore(left, right, e) ==
        old(ForwardScore(left, right, e)) + (if e in theseForwardProb then MeasureTables.Sum(theseForwardProb[e]) else 0.0))
      ensures res.Ok? ==> forall e :: (InnerScore(left, right, e) ==
        (if Linear(left, right) in old(forwardProb) then old(InnerScore(left, right, e)) else 0.0) + (if e in theseInnerProb then MeasureTables.Sum(theseInnerProb[e]) else 0.0))
      ensures forall e :: ContainsInsideEdge(left, right, e) <==>
        old(ContainsInsideEdge(left, right, e)) || Filled(theseForwardProb, e)
      ensures forall l, r, e :: Linear(l, r) != Linear(left, right) ==>
        ForwardScore(l, r, e) == old(ForwardScore(l, r, e)) && InnerScore(l, r, e) == old(InnerScore(l, r, e))
      ensures theseForwardProb == old(theseForwardProb) && theseInnerProb == old(theseInnerProb)
      ensures outerProb == old(outerProb)
    {
      var lrIndex := Linear(left, right);
      if lrIndex !in forwardProb {
        forwardProb := forwardProb[lrIndex := map[]];
        innerProb := innerProb[lrIndex := map[]];
      }
      var f := StoreProbs(theseForwardProb, forwardProb[lrIndex]);
      forwardProb := forwardProb[lrIndex := f];
      if lrIndex !in innerProb {
        if exists e :: e in theseInnerProb && Filled(theseInnerProb, e) {
          return Fail("NullPointerException");
        }
        return Ok(());
      }
      var i := StoreProbs(theseInnerProb, innerProb[lrIndex]);
      innerProb := innerProb[lrIndex := i];
      return Ok(());
    }
  }
}
