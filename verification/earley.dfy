/** The bookkeeping of `parser.EarleyParser`: the triangular numbering of
    chart cells, the per-sentence initialisation, the completed/active/
    fragment edge records, Viterbi backtrack entries, score accumulation and
    the scaling cache.  Scores are reals under the probability operator
    (`zero` is 0, `one` is 1, `add` is +, `multiply` is *). */
module EarleyParsers {
  import opened Wrappers
  import opened Text
  import opened Indexing
  import MeasureTables

  // ---------------------------------------------------------------------
  // Cell numbering

  /** `Integer.MAX_VALUE`. */
  const MaxInt: int := 0x7fff_ffff

  /** `linear(left, right)`: cell `[left, right]` in row-by-right order. */
  function Linear(left: int, right: int): int {
    (right + 1) * right / 2 + right - left
  }

  /** The first number of the block of cells whose right end is `r`. */
  function Tri(r: nat): nat {
    if r == 0 then 0 else Tri(r - 1) + r
  }

  lemma {:induction false} TriFormula(r: nat)
    ensures 2 * Tri(r) == (r + 1) * r
    ensures (r + 1) * r / 2 == Tri(r)
  {
    if r > 0 {
      TriFormula(r - 1);
      assert (r + 1) * r == r * (r - 1) + 2 * r;
    }
  }

  lemma {:induction false} TriMonotone(a: nat, b: nat)
    requires a <= b
    ensures Tri(a) <= Tri(b)
    decreases b - a
  {
    if a < b {
      TriMonotone(a, b - 1);
    }
  }

  /** Cells with right end `r` take exactly the numbers from `r(r+1)/2` up
      to, not including, `(r+1)(r+2)/2`: one block per right end. */
  lemma LinearBlock(l: int, r: int)
    requires 0 <= l <= r
    ensures Linear(l, r) == Tri(r) + r - l
    ensures Tri(r) <= Linear(l, r) < Tri(r + 1)
  {
    TriFormula(r);
  }

  /** Every number of the block of `r` is a cell with right end `r`. */
  lemma LinearBlockFull(r: nat, k: int)
    requires Tri(r) <= k < Tri(r + 1)
    ensures 0 <= Tri(r) + r - k <= r && Linear(Tri(r) + r - k, r) == k
  {
    LinearBlock(Tri(r) + r - k, r);
  }

  /** Distinct cells get distinct numbers. */
  lemma LinearInjective(l1: int, r1: int, l2: int, r2: int)
    requires 0 <= l1 <= r1 && 0 <= l2 <= r2
    requires Linear(l1, r1) == Linear(l2, r2)
    ensures l1 == l2 && r1 == r2
  {
    LinearBlock(l1, r1);
    LinearBlock(l2, r2);
    if r1 < r2 {
      TriMonotone(r1 + 1, r2);
    } else if r2 < r1 {
      TriMonotone(r2 + 1, r1);
    }
  }

  /** The assertion of `sentInit`: `linear(0, n+1)` is `(n+4)(n+1)/2`. */
  lemma LinearEnd(n: nat)
    ensures Linear(0, n + 1) == (n + 4) * (n + 1) / 2
  {
    LinearBlock(0, n + 1);
    TriFormula(n + 1);
    assert (n + 4) * (n + 1) == (n + 2) * (n + 1) + 2 * (n + 1);
  }

  /** Among the cells of a sentence of `n` words (right ends up to
      `n + 1`), `[0, n+1]` has the largest number. */
  lemma LinearMax(n: nat, l: int, r: int)
    requires 0 <= l <= r <= n + 1
    ensures Linear(l, r) <= Linear(0, n + 1)
  {
    LinearBlock(l, r);
    LinearBlock(0, n + 1);
    TriMonotone(r, n + 1);
  }

  // ---------------------------------------------------------------------
  // The cell-count guard of `sentInit`, as written and as intended

  predicate IsInt32(x: int) {
    -0x8000_0000 <= x <= MaxInt
  }

  /** Java `int` arithmetic: the result modulo 2^32 in the signed range. */
  function Wrap32(x: int): (w: int)
    ensures IsInt32(w)
    ensures IsInt32(x) ==> w == x
  {
    (x + 0x8000_0000) % 0x1_0000_0000 - 0x8000_0000
  }

  /** Java integer division, which truncates toward zero. */
  function JavaDiv(a: int, b: int): (q: int)
    requires b > 0
    ensures a >= 0 ==> q == a / b
  {
    if a >= 0 then a / b else -((-a) / b)
  }

  /** `long numCells = (numWords+4)*(numWords+1)/2;` as written: the
      operands are `int`, so the product wraps before it is widened. */
  function NumCellsAsWritten(n: int): int
    requires IsInt32(n)
  {
    JavaDiv(Wrap32(Wrap32(n + 4) * Wrap32(n + 1)), 2)
  }

  /** The guard as written can never fire: a wrapped `int` halved is never
      above `Integer.MAX_VALUE`. */
  lemma GuardAsWrittenNeverFires(n: int)
    requires IsInt32(n)
    ensures NumCellsAsWritten(n) <= MaxInt
  {
  }

  /** With 65534 words the cell numbers go past `Integer.MAX_VALUE`, yet
      the guard as written computes 32767 cells and lets the sentence
      through. */
  lemma GuardAsWrittenMisses()
    ensures NumCellsAsWritten(65534) == 32767
    ensures Linear(0, 65535) > MaxInt
  {
    assert Wrap32(65538 * 65535) == 65534;
    LinearEnd(65534);
  }

  /** The cell count computed in `long` arithmetic, as intended. */
  function NumCells(n: int): int {
    (n + 4) * (n + 1) / 2
  }

  /** Every cell of a sentence of `n` words, `[l, r]` with `r <= n`, has a
      number below the cell count. */
  lemma LinearInRange(n: nat, l: int, r: int)
    requires 0 <= l <= r <= n
    ensures 0 <= Linear(l, r) < NumCells(n)
  {
    LinearBlock(l, r);
    TriMonotone(r + 1, n + 1);
    LinearBlock(0, n + 1);
    LinearEnd(n);
  }

  predicate TooManyCells(n: int) {
    NumCells(n) > MaxInt
  }

  /** The corrected guard rejects a sentence exactly when some cell of it
      would be numbered past `Integer.MAX_VALUE`. */
  lemma TooManyCellsIffOverflow(n: nat)
    ensures !TooManyCells(n) <==> forall l, r :: 0 <= l <= r <= n + 1 ==> Linear(l, r) <= MaxInt
  {
    LinearEnd(n);
    if !TooManyCells(n) {
      forall l, r | 0 <= l <= r <= n + 1 ensures Linear(l, r) <= MaxInt {
        LinearMax(n, l, r);
      }
    }
  }

  /** `linear(left, right)` as written: every step is `int` arithmetic,
      so `(right+1)*right` wraps once it passes `Integer.MAX_VALUE`. */
  function LinearAsWritten(left: int, right: int): int
    requires IsInt32(left) && IsInt32(right)
  {
    Wrap32(Wrap32(JavaDiv(Wrap32(Wrap32(right + 1) * right), 2) + right) - left)
  }

  /** While `(right+1)*right` fits in an `int`, `linear` as written gives
      the cell number. */
  lemma LinearAsWrittenExact(l: int, r: int)
    requires 0 <= l <= r && (r + 1) * r <= MaxInt
    ensures LinearAsWritten(l, r) == Linear(l, r)
  {
    TwiceBelowProduct(r);
    var p := (r + 1) * r;
    assert Wrap32(r + 1) == r + 1;
    assert Wrap32(p) == p;
    assert p / 2 + r <= p;
  }

  lemma TwiceBelowProduct(r: int)
    requires 0 <= r
    ensures 2 * r <= (r + 1) * r
  {
    if r > 0 {
      assert (r + 1) * r == r * r + r;
      assert r <= r * r;
    }
  }

  /** The corrected guard accepts a sentence of 46341 words, yet `linear`
      as written numbers its cell `[0, 46341]` negatively, where the
      intended number fits in an `int`. */
  lemma LinearAsWrittenWraps()
    ensures !TooManyCells(46341)
    ensures LinearAsWritten(0, 46341) < 0
    ensures 0 <= Linear(0, 46341) <= MaxInt
  {
    assert Wrap32(46342 * 46341) == 46342 * 46341 - 0x1_0000_0000;
  }

  // ---------------------------------------------------------------------
  // Scores

  /** A score map read with `operator.zero()` for a missing key. */
  function ScoreOf(m: map<int, real>, k: int): real {
    if k in m then m[k] else 0.0
  }

  /** `addScore` on a present map: insert a missing key, otherwise add. */
  function Add(m: map<int, real>, key: int, score: real): (r: map<int, real>)
    ensures r.Keys == m.Keys + {key}
    ensures ScoreOf(r, key) == ScoreOf(m, key) + score
    ensures forall k :: k != key ==> ScoreOf(r, k) == ScoreOf(m, k)
    ensures forall k :: k in m && k != key ==> r[k] == m[k]
  {
    if key !in m then m[key := score] else m[key := m[key] + score]
  }

  /** `addScore(probMap, key, score)`: nothing at all for a null map. */
  function AddScore(probMap: Option<map<int, real>>, key: int, score: real): (r: Option<map<int, real>>)
    ensures r.None? <==> probMap.None?
    ensures r.Some? ==> r.value.Keys == probMap.value.Keys + {key}
    ensures r.Some? ==> ScoreOf(r.value, key) == ScoreOf(probMap.value, key) + score
    ensures r.Some? ==> forall k :: k in r.value && k != key ==> r.value[k] == probMap.value[k]
  {
    match probMap
    case None => None
    case Some(m) => Some(Add(m, key, score))
  }

  /** `addScore` applied to each `(key, score)` pair in turn. */
  function AddEach(m: map<int, real>, pairs: seq<(int, real)>): map<int, real>
    decreases |pairs|
  {
    if pairs == [] then m
    else Add(AddEach(m, pairs[..|pairs| - 1]), pairs[|pairs| - 1].0, pairs[|pairs| - 1].1)
  }

  /** The scores given for `k` among `pairs`, summed. */
  function SumFor(pairs: seq<(int, real)>, k: int): real
    decreases |pairs|
  {
    if pairs == [] then 0.0
    else SumFor(pairs[1..], k) + (if pairs[0].0 == k then pairs[0].1 else 0.0)
  }

  lemma {:induction false} SumForSnoc(pairs: seq<(int, real)>, p: (int, real), k: int)
    ensures SumFor(pairs + [p], k) == SumFor(pairs, k) + (if p.0 == k then p.1 else 0.0)
    decreases |pairs|
  {
    if pairs != [] {
      assert (pairs + [p])[1..] == pairs[1..] + [p];
      SumForSnoc(pairs[1..], p, k);
    }
  }

  /** Accumulating with `addScore` sums the scores of each key, and a key
      is present iff it was present before or was given a score. */
  lemma {:induction false} AddEachSums(m: map<int, real>, pairs: seq<(int, real)>, k: int)
    ensures ScoreOf(AddEach(m, pairs), k) == ScoreOf(m, k) + SumFor(pairs, k)
    ensures k in AddEach(m, pairs) <==> k in m || exists i :: 0 <= i < |pairs| && pairs[i].0 == k
    decreases |pairs|
  {
    if pairs != [] {
      var init := pairs[..|pairs| - 1];
      var p := pairs[|pairs| - 1];
      assert pairs == init + [p];
      AddEachSums(m, init, k);
      SumForSnoc(init, p, k);
      if k in AddEach(m, pairs) && k !in m && p.0 != k {
        var i :| 0 <= i < |init| && init[i].0 == k;
        assert pairs[i].0 == k;
      }
      if exists i :: 0 <= i < |pairs| && pairs[i].0 == k {
        var i :| 0 <= i < |pairs| && pairs[i].0 == k;
        if i < |init| {
          assert init[i].0 == k;
        }
      }
    }
  }

  // ---------------------------------------------------------------------
  // Edge records

  /** The set stored under `k`, empty when missing. */
  function SetOf(m: map<int, set<int>>, k: int): set<int> {
    if k in m then m[k] else {}
  }

  /** Create the inner set on demand, then add `v` to it. */
  function AddTo(m: map<int, set<int>>, k: int, v: int): (r: map<int, set<int>>)
    ensures r.Keys == m.Keys + {k}
    ensures SetOf(r, k) == SetOf(m, k) + {v}
    ensures forall j :: j != k ==> SetOf(r, j) == SetOf(m, j)
  {
    m[k := SetOf(m, k) + {v}]
  }

  /** `(left, right, edge)` records as `addCompletedEdges` receives them. */
  datatype Span = Span(left: int, right: int, edge: int)

  /** `completedEdges` after the records `spans`, one after the other. */
  function CompletedAfter(m: map<int, set<int>>, spans: seq<Span>): map<int, set<int>>
    decreases |spans|
  {
    if spans == [] then m
    else
      var s := spans[|spans| - 1];
      AddTo(CompletedAfter(m, spans[..|spans| - 1]), Linear(s.left, s.right), s.edge)
  }

  /** Starting from no records, the completed edges of a cell are exactly
      the edges recorded for that cell: numbering cells never mixes two
      cells up. */
  lemma {:induction false} CompletedCells(spans: seq<Span>, l: int, r: int)
    requires 0 <= l <= r
    requires forall i :: 0 <= i < |spans| ==> 0 <= spans[i].left <= spans[i].right
    ensures SetOf(CompletedAfter(map[], spans), Linear(l, r)) == EdgesAt(spans, l, r)
    decreases |spans|
  {
    if spans != [] {
      var init := spans[..|spans| - 1];
      var s := spans[|spans| - 1];
      CompletedCells(init, l, r);
      EdgesAtLast(spans, l, r);
      if !(s.left == l && s.right == r) && Linear(s.left, s.right) == Linear(l, r) {
        LinearInjective(s.left, s.right, l, r);
      }
    }
  }

  /** The edges the spans record for the cell `(l, r)`. */
  ghost function EdgesAt(spans: seq<Span>, l: int, r: int): set<int> {
    set i | 0 <= i < |spans| && spans[i].left == l && spans[i].right == r :: spans[i].edge
  }

  /** The last span adds its edge to its own cell only. */
  lemma EdgesAtLast(spans: seq<Span>, l: int, r: int)
    requires spans != []
    ensures var s := spans[|spans| - 1];
      EdgesAt(spans, l, r) == EdgesAt(spans[..|spans| - 1], l, r) + (if s.left == l && s.right == r then {s.edge} else {})
  {
    var init := spans[..|spans| - 1];
    var s := spans[|spans| - 1];
    var before := EdgesAt(init, l, r);
    var extra: set<int> := if s.left == l && s.right == r then {s.edge} else {};
    forall e | e in EdgesAt(spans, l, r) ensures e in before + extra {
      var i :| 0 <= i < |spans| && spans[i].left == l && spans[i].right == r && spans[i].edge == e;
      if i < |init| {
        assert init[i] == spans[i];
      }
    }
    forall e | e in before ensures e in EdgesAt(spans, l, r) {
      var i :| 0 <= i < |init| && init[i].left == l && init[i].right == r && init[i].edge == e;
      assert spans[i] == init[i];
    }
    forall e | e in extra ensures e in EdgesAt(spans, l, r) {
      assert spans[|spans| - 1] == s;
    }
  }

  // ---------------------------------------------------------------------
  // Viterbi backtrack entries

  /** `BackTrack`: the completed child edge, the split point and the inner
      score of the parent it gave. */
  datatype BackTrack = BackTrack(edge: int, middle: int, parentInnerScore: real)

  function CellOf<V>(chart: map<int, map<int, V>>, k: int): map<int, V> {
    if k in chart then chart[k] else map[]
  }

  /** The backtrack cell after offering `bt` for `edge`: the first
      entry is stored, and replaced only by a strictly better one. */
  function KeepBest(cell: map<int, BackTrack>, edge: int, bt: BackTrack): (r: map<int, BackTrack>)
    ensures r.Keys == cell.Keys + {edge}
    ensures forall e :: e in cell && e != edge ==> r[e] == cell[e]
    ensures r[edge] == bt || (edge in cell && r[edge] == cell[edge])
    ensures r[edge].parentInnerScore >= bt.parentInnerScore
    ensures edge in cell ==> r[edge].parentInnerScore >= cell[edge].parentInnerScore
    ensures edge in cell && cell[edge].parentInnerScore >= bt.parentInnerScore ==> r[edge] == cell[edge]
  {
    if edge !in cell || cell[edge].parentInnerScore < bt.parentInnerScore then cell[edge := bt] else cell
  }

  /** The backtrack entry kept for `edge` after offering each candidate of
      `cands` in turn, starting from none. */
  function Offered(cands: seq<BackTrack>, edge: int): map<int, BackTrack>
    decreases |cands|
  {
    if cands == [] then map[]
    else KeepBest(Offered(cands[..|cands| - 1], edge), edge, cands[|cands| - 1])
  }

  /** `addBacktrack` keeps the best candidate: the stored backtrack entry is
      the first one offered with the greatest inner score. */
  lemma {:induction false} OfferedIsFirstBest(cands: seq<BackTrack>, edge: int)
    requires cands != []
    ensures edge in Offered(cands, edge)
    ensures exists j :: (0 <= j < |cands| && Offered(cands, edge)[edge] == cands[j] &&
      (forall i :: 0 <= i < j ==> cands[i].parentInnerScore < cands[j].parentInnerScore))
    ensures forall i :: 0 <= i < |cands| ==> cands[i].parentInnerScore <= Offered(cands, edge)[edge].parentInnerScore
    decreases |cands|
  {
    var init := cands[..|cands| - 1];
    var c := cands[|cands| - 1];
    if init == [] {
      assert cands == [c];
    } else {
      OfferedIsFirstBest(init, edge);
      var best := Offered(init, edge)[edge];
      var j :| 0 <= j < |init| && best == init[j] &&
        (forall i :: 0 <= i < j ==> init[i].parentInnerScore < init[j].parentInnerScore);
      if best.parentInnerScore < c.parentInnerScore {
        assert Offered(cands, edge)[edge] == c;
        assert forall i :: 0 <= i < |cands| - 1 ==> cands[i] == init[i];
      } else {
        assert Offered(cands, edge)[edge] == best;
        assert cands[j] == init[j];
        assert forall i :: 0 <= i < |cands| - 1 ==> cands[i] == init[i];
      }
    }
  }

  // ---------------------------------------------------------------------
  // Scaling

  /** The number of the one-word cell `[i, i+1]`. */
  function OneWord(i: int): int {
    Linear(i, i + 1)
  }

  /** The scaling factor of the one-word cell `[i, i+1]`; getScaling only
      ever reads factors that are present. */
  function Factor(m: map<int, real>, i: int): real {
    if OneWord(i) in m then m[OneWord(i)] else 1.0
  }

  predicate HasFactors(m: map<int, real>, l: int, r: int) {
    forall i :: l <= i < r ==> OneWord(i) in m
  }

  /** The product of the one-word factors of `[l, r)`, left to right. */
  function ScaleProduct(m: map<int, real>, l: int, r: int): real
    requires l <= r
    decreases r - l
  {
    if l == r then 1.0 else ScaleProduct(m, l, r - 1) * Factor(m, r - 1)
  }

  /** Every cached scaling of a cell is the product of its word factors. */
  ghost predicate ScalingConsistent(m: map<int, real>) {
    forall l, r :: 0 <= l < r && Linear(l, r) in m ==> m[Linear(l, r)] == ScaleProduct(m, l, r)
  }

  lemma {:induction false} ScaleProductFrame(m: map<int, real>, m': map<int, real>, l: int, r: int)
    requires l <= r
    requires forall i :: l <= i < r ==> Factor(m, i) == Factor(m', i)
    ensures ScaleProduct(m, l, r) == ScaleProduct(m', l, r)
    decreases r - l
  {
    if l < r {
      ScaleProductFrame(m, m', l, r - 1);
    }
  }

  /** Caching a missing product keeps the cache consistent. */
  lemma CacheKeepsConsistent(m: map<int, real>, l: int, r: int)
    requires 0 <= l < r && HasFactors(m, l, r) && Linear(l, r) !in m
    requires ScalingConsistent(m)
    ensures ScalingConsistent(m[Linear(l, r) := ScaleProduct(m, l, r)])
  {
    var k := Linear(l, r);
    var m' := m[k := ScaleProduct(m, l, r)];
    forall i | 0 <= i ensures Factor(m, i) == Factor(m', i) {
      if OneWord(i) == k {
        LinearInjective(i, i + 1, l, r);
      }
    }
    forall a, b | 0 <= a < b && Linear(a, b) in m' ensures m'[Linear(a, b)] == ScaleProduct(m', a, b) {
      ScaleProductFrame(m, m', a, b);
      if Linear(a, b) == k {
        LinearInjective(a, b, l, r);
      }
    }
  }

  /** One empty record per position `0..n`. */
  function EmptyRows(n: int): (m: map<int, map<int, set<int>>>)
    ensures forall i :: i in m <==> 0 <= i <= n
    ensures forall i :: i in m ==> m[i] == map[]
    decreases n
  {
    if n < 0 then map[] else EmptyRows(n - 1)[n := map[]]
  }

  /** The loop of `sentInit` that gives each position `0..n` an empty
      record. */
  method EmptyInfo(n: int) returns (m: map<int, map<int, set<int>>>)
    ensures m == EmptyRows(n)
  {
    m := map[];
    var i := 0;
    while i <= n
      invariant (0 <= i <= n + 1 || (i == 0 && n < 0)) && m == EmptyRows(i - 1)
    {
      m := m[i := map[]];
      i := i + 1;
    }
  }

  // ---------------------------------------------------------------------
  // The parser's per-sentence state

  class EarleyParser {
    /** `EarleyParserOptions.isScaling`. */
    const isScaling: bool
    /** `isFastComplete`. */
    const isFastComplete: bool
    /** `hasFragmentRule`. */
    const hasFragmentRule: bool
    /** `EarleyParserOptions.insideOutsideOpt`. */
    const insideOutsideOpt: int
    /** `EarleyParserOptions.decodeOpt`. */
    const decodeOpt: int
    /** `outputMeasures` and `internalMeasures`. */
    const outputMeasures: set<string>
    const internalMeasures: set<string>
    /** `ArrayMath.logSum`, handed to the measures. */
    const logSum: seq<real> -> real

    /** `parserWordIndex`. */
    var wordIndex: Index<string>
    var numWords: int
    var wordIndices: seq<int>
    var measures: MeasureTables.Measures?
    var wordPrefixScores: array<real>
    var scalingMap: map<int, real>
    var completedEdges: map<int, set<int>>
    var activeEdgeInfo: map<int, map<int, set<int>>>
    var fragmentEdgeInfo: map<int, map<int, set<int>>>
    var backtrackChart: map<int, map<int, BackTrack>>

    constructor (isScaling: bool, isFastComplete: bool, hasFragmentRule: bool,
                 insideOutsideOpt: int, decodeOpt: int,
                 outputMeasures: set<string>, internalMeasures: set<string>,
                 logSum: seq<real> -> real, wordIndex: Index<string>)
      requires wordIndex.Valid()
      ensures this.isScaling == isScaling && this.isFastComplete == isFastComplete
      ensures this.hasFragmentRule == hasFragmentRule
      ensures this.insideOutsideOpt == insideOutsideOpt && this.decodeOpt == decodeOpt
      ensures this.outputMeasures == outputMeasures && this.internalMeasures == internalMeasures
      ensures this.logSum == logSum && this.wordIndex == wordIndex
      ensures numWords == 0 && wordIndices == [] && measures == null
      ensures scalingMap == map[] && completedEdges == map[] && backtrackChart == map[]
      ensures activeEdgeInfo == map[] && fragmentEdgeInfo == map[]
    {
      this.isScaling := isScaling;
      this.isFastComplete := isFastComplete;
      this.hasFragmentRule := hasFragmentRule;
      this.insideOutsideOpt := insideOutsideOpt;
      this.decodeOpt := decodeOpt;
      this.outputMeasures := outputMeasures;
      this.internalMeasures := internalMeasures;
      this.logSum := logSum;
      this.wordIndex := wordIndex;
      numWords := 0;
      wordIndices := [];
      measures := null;
      wordPrefixScores := new real[0];
      scalingMap := map[];
      completedEdges := map[];
      activeEdgeInfo := map[];
      fragmentEdgeInfo := map[];
      backtrackChart := map[];
    }

    /** `wordIndices`: each word interned in `parserWordIndex`. */
    method InternWords(words: seq<string>)
      requires wordIndex.Valid()
      modifies this
      ensures wordIndex.Valid()
      ensures |old(wordIndex.items)| <= |wordIndex.items| && wordIndex.items[..|old(wordIndex.items)|] == old(wordIndex.items)
      ensures |wordIndices| == |words|
      ensures forall i :: 0 <= i < |words| ==> 0 <= wordIndices[i] < |wordIndex.items| && wordIndex.items[wordIndices[i]] == words[i]
      ensures numWords == old(numWords) && measures == old(measures) && wordPrefixScores == old(wordPrefixScores)
      ensures scalingMap == old(scalingMap) && completedEdges == old(completedEdges)
      ensures activeEdgeInfo == old(activeEdgeInfo) && fragmentEdgeInfo == old(fragmentEdgeInfo)
      ensures backtrackChart == old(backtrackChart)
    {
      ghost var items0 := wordIndex.items;
      wordIndices := [];
      for i := 0 to |words|
        invariant wordIndex.Valid()
        invariant |items0| <= |wordIndex.items| && wordIndex.items[..|items0|] == items0
        invariant |wordIndices| == i
        invariant forall k :: 0 <= k < i ==> 0 <= wordIndices[k] < |wordIndex.items| && wordIndex.items[wordIndices[k]] == words[k]
        invariant numWords == old(numWords) && measures == old(measures) && wordPrefixScores == old(wordPrefixScores)
        invariant scalingMap == old(scalingMap) && completedEdges == old(completedEdges)
        invariant activeEdgeInfo == old(activeEdgeInfo) && fragmentEdgeInfo == old(fragmentEdgeInfo)
        invariant backtrackChart == old(backtrackChart)
      {
        ghost var before := wordIndex.items;
        var r := wordIndex.Add(words[i]);
        wordIndex := r.0;
        wordIndices := wordIndices + [r.1];
        assert wordIndex.items[..|before|] == before;
        assert wordIndex.items[..|items0|] == before[..|items0|];
        forall k | 0 <= k < i ensures wordIndex.items[wordIndices[k]] == words[k] {
          assert wordIndex.items[wordIndices[k]] == before[wordIndices[k]];
        }
      }
    }

    /** `wordPrefixScores`: `numWords + 1` zeros, then one at position 0. */
    static method PrefixScores(n: nat) returns (a: array<real>)
      ensures fresh(a) && a.Length == n + 1
      ensures a[0] == 1.0 && forall i :: 1 <= i <= n ==> a[i] == 0.0
    {
      a := new real[n + 1];
      for i := 0 to n + 1
        invariant forall k :: 0 <= k < i ==> a[k] == 0.0
      {
        a[i] := 0.0;
      }
      a[0] := 1.0;
    }

    /** `sentInit()` for `words`: an empty sentence or one with too many
        cells aborts; otherwise the words are interned, the measures start
        at `numWords + 1` zeros, the prefix scores at one then zeros, and
        the records the options call for start empty. */
    method SentInit(words: seq<string>) returns (ok: bool)
      requires wordIndex.Valid()
      modifies this
      ensures wordIndex.Valid()
      ensures ok <==> |words| > 0 && !TooManyCells(|words|)
      ensures |words| > 0 ==> (numWords == |words| && |wordIndices| == |words| &&
        forall i :: 0 <= i < |words| ==> 0 <= wordIndices[i] < |wordIndex.items| && wordIndex.items[wordIndices[i]] == words[i])
      ensures ok ==> fresh(wordPrefixScores) && wordPrefixScores.Length == numWords + 1
      ensures ok ==> wordPrefixScores[0] == 1.0 && forall i :: 1 <= i <= numWords ==> wordPrefixScores[i] == 0.0
      ensures ok ==> fresh(measures) && measures.measureMap.Keys == outputMeasures + internalMeasures
      ensures ok ==> forall o :: o in measures.measureMap ==>
        |measures.measureMap[o]| == numWords + 1 && MeasureTables.AllZero(measures.measureMap[o])
      ensures ok ==> scalingMap == if isScaling then map[] else old(scalingMap)
      ensures ok ==> completedEdges == if insideOutsideOpt > 0 || decodeOpt == 2 then map[] else old(completedEdges)
      ensures ok ==> activeEdgeInfo == if isFastComplete then EmptyRows(numWords) else old(activeEdgeInfo)
      ensures ok ==> fragmentEdgeInfo == if hasFragmentRule then EmptyRows(numWords) else old(fragmentEdgeInfo)
      ensures ok ==> backtrackChart == if decodeOpt == 1 then map[] else old(backtrackChart)
    {
      if |words| == 0 {
        return false;
      }
      numWords := |words|;
      InternWords(words);
      if TooManyCells(numWords) {
        return false;
      }
      StartMeasures();
      ResetRecords();
      return true;
    }

    /** The measures and prefix scores `sentInit` starts a sentence with. */
    method StartMeasures()
      requires numWords >= 0
      modifies this
      ensures wordIndex == old(wordIndex) && numWords == old(numWords) && wordIndices == old(wordIndices)
      ensures fresh(wordPrefixScores) && wordPrefixScores.Length == numWords + 1
      ensures wordPrefixScores[0] == 1.0 && forall i :: 1 <= i <= numWords ==> wordPrefixScores[i] == 0.0
      ensures fresh(measures) && measures.measureMap.Keys == outputMeasures + internalMeasures
      ensures forall o :: o in measures.measureMap ==>
        |measures.measureMap[o]| == numWords + 1 && MeasureTables.AllZero(measures.measureMap[o])
      ensures scalingMap == old(scalingMap) && completedEdges == old(completedEdges)
      ensures activeEdgeInfo == old(activeEdgeInfo) && fragmentEdgeInfo == old(fragmentEdgeInfo)
      ensures backtrackChart == old(backtrackChart)
    {
      var m := new MeasureTables.Measures.WithWords(outputMeasures, numWords, logSum);
      m.AddMeasures(internalMeasures, numWords);
      measures := m;
      wordPrefixScores := PrefixScores(numWords);
    }

    /** The records `sentInit` empties, each only when the options use it. */
    method ResetRecords()
      modifies this`scalingMap, this`completedEdges, this`activeEdgeInfo, this`fragmentEdgeInfo, this`backtrackChart
      ensures scalingMap == if isScaling then map[] else old(scalingMap)
      ensures completedEdges == if insideOutsideOpt > 0 || decodeOpt == 2 then map[] else old(completedEdges)
      ensures activeEdgeInfo == if isFastComplete then EmptyRows(numWords) else old(activeEdgeInfo)
      ensures fragmentEdgeInfo == if hasFragmentRule then EmptyRows(numWords) else old(fragmentEdgeInfo)
      ensures backtrackChart == if decodeOpt == 1 then map[] else old(backtrackChart)
    {
      ResetMaps();
      ResetEdgeInfo();
    }

    /** The scaling, completed-edge and backtrack maps of `sentInit`. */
    method ResetMaps()
      modifies this`scalingMap, this`completedEdges, this`backtrackChart
      ensures scalingMap == if isScaling then map[] else old(scalingMap)
      ensures completedEdges == if insideOutsideOpt > 0 || decodeOpt == 2 then map[] else old(completedEdges)
      ensures backtrackChart == if decodeOpt == 1 then map[] else old(backtrackChart)
    {
      if isScaling {
        scalingMap := map[];
      }
      if insideOutsideOpt > 0 || decodeOpt == 2 {
        completedEdges := map[];
      }
      if decodeOpt == 1 {
        backtrackChart := map[];
      }
    }

    /** The active-edge and fragment-edge rows of `sentInit`. */
    method ResetEdgeInfo()
      modifies this`activeEdgeInfo, this`fragmentEdgeInfo
      ensures activeEdgeInfo == if isFastComplete then EmptyRows(numWords) else old(activeEdgeInfo)
      ensures fragmentEdgeInfo == if hasFragmentRule then EmptyRows(numWords) else old(fragmentEdgeInfo)
    {
      if isFastComplete {
        activeEdgeInfo := EmptyInfo(numWords);
      }
      if hasFragmentRule {
        fragmentEdgeInfo := EmptyInfo(numWords);
      }
    }

    /** `parseSentence(s)`: the words are the whitespace-separated tokens,
        in order; parsing starts with `sentInit` on them.  The chart
        algorithms that follow are not part of this model. */
    method ParseSentence(s: string) returns (ok: bool)
      requires wordIndex.Valid()
      modifies this
      ensures wordIndex.Valid()
      ensures ok <==> |JavaSplitOnSpaceRuns(s)| > 0 && !TooManyCells(|JavaSplitOnSpaceRuns(s)|)
      ensures |JavaSplitOnSpaceRuns(s)| > 0 ==> (numWords == |JavaSplitOnSpaceRuns(s)| && |wordIndices| == numWords &&
        forall i :: 0 <= i < numWords ==> 0 <= wordIndices[i] < |wordIndex.items| && wordIndex.items[wordIndices[i]] == JavaSplitOnSpaceRuns(s)[i])
    {
      var words := JavaSplitOnSpaceRuns(s);
      ok := SentInit(words);
    }

    /** `addCompletedEdges(left, right, edge)`. */
    method AddCompletedEdges(left: int, right: int, edge: int)
      modifies this
      ensures completedEdges == AddTo(old(completedEdges), Linear(left, right), edge)
      ensures activeEdgeInfo == old(activeEdgeInfo) && fragmentEdgeInfo == old(fragmentEdgeInfo)
      ensures backtrackChart == old(backtrackChart) && scalingMap == old(scalingMap)
    {
      var lrIndex := Linear(left, right);
      if lrIndex !in completedEdges {
        completedEdges := completedEdges[lrIndex := {}];
      }
      completedEdges := completedEdges[lrIndex := completedEdges[lrIndex] + {edge}];
    }

    /** `addActiveEdgeInfo(left, right, edge)`: `left` joins the left ends
        recorded for `edge` ending at `right`. */
    method AddActiveEdgeInfo(left: int, right: int, edge: int)
      requires right in activeEdgeInfo
      modifies this
      ensures activeEdgeInfo == old(activeEdgeInfo)[right := AddTo(old(activeEdgeInfo)[right], edge, left)]
      ensures completedEdges == old(completedEdges) && fragmentEdgeInfo == old(fragmentEdgeInfo)
      ensures backtrackChart == old(backtrackChart) && scalingMap == old(scalingMap)
    {
      var info := activeEdgeInfo[right];
      if edge !in info {
        info := info[edge := {}];
      }
      info := info[edge := info[edge] + {left}];
      assert info == AddTo(activeEdgeInfo[right], edge, left);
      activeEdgeInfo := activeEdgeInfo[right := info];
    }

    /** `addFragmentEdgeInfo(left, right, edge)`: `edge` joins the fragment
        edges recorded for `[left, right]`. */
    method AddFragmentEdgeInfo(left: int, right: int, edge: int)
      requires right in fragmentEdgeInfo
      modifies this
      ensures fragmentEdgeInfo == old(fragmentEdgeInfo)[right := AddTo(old(fragmentEdgeInfo)[right], left, edge)]
      ensures completedEdges == old(completedEdges) && activeEdgeInfo == old(activeEdgeInfo)
      ensures backtrackChart == old(backtrackChart) && scalingMap == old(scalingMap)
    {
      var info := fragmentEdgeInfo[right];
      if left !in info {
        info := info[left := {}];
      }
      info := info[left := info[left] + {edge}];
      assert info == AddTo(fragmentEdgeInfo[right], left, edge);
      fragmentEdgeInfo := fragmentEdgeInfo[right := info];
    }

    /** `addBacktrack(left, middle, right, nextEdge, newEdge, inner)`. */
    method AddBacktrack(left: int, middle: int, right: int, nextEdge: int, newEdge: int, newInnerProb: real)
      modifies this
      ensures var lr := Linear(left, right);
        backtrackChart == old(backtrackChart)[lr := KeepBest(CellOf(old(backtrackChart), lr), newEdge, BackTrack(nextEdge, middle, newInnerProb))]
      ensures completedEdges == old(completedEdges) && activeEdgeInfo == old(activeEdgeInfo)
      ensures fragmentEdgeInfo == old(fragmentEdgeInfo) && scalingMap == old(scalingMap)
    {
      var lrIndex := Linear(left, right);
      if lrIndex !in backtrackChart {
        backtrackChart := backtrackChart[lrIndex := map[]];
      }
      var cell := backtrackChart[lrIndex];
      if newEdge !in cell {
        cell := cell[newEdge := BackTrack(nextEdge, middle, newInnerProb)];
      } else {
        var backtrack := cell[newEdge];
        if backtrack.parentInnerScore < newInnerProb {
          cell := cell[newEdge := BackTrack(nextEdge, middle, newInnerProb)];
        }
      }
      backtrackChart := backtrackChart[lrIndex := cell];
    }

    /** `getScaling(left, right)`: one for an empty span; otherwise the
        cached value, or the product of the word factors, then cached. */
    method GetScaling(left: int, right: int) returns (scale: real)
      requires 0 <= left <= right && HasFactors(scalingMap, left, right)
      modifies this
      ensures left == right ==> scale == 1.0 && scalingMap == old(scalingMap)
      ensures left < right && Linear(left, right) in old(scalingMap) ==>
        scale == old(scalingMap)[Linear(left, right)] && scalingMap == old(scalingMap)
      ensures left < right && Linear(left, right) !in old(scalingMap) ==>
        scale == ScaleProduct(old(scalingMap), left, right) && scalingMap == old(scalingMap)[Linear(left, right) := scale]
      ensures ScalingConsistent(old(scalingMap)) ==>
        scale == ScaleProduct(old(scalingMap), left, right) && ScalingConsistent(scalingMap)
      ensures old(scalingMap).Keys <= scalingMap.Keys
      ensures forall i :: 0 <= i ==> Factor(scalingMap, i) == Factor(old(scalingMap), i)
      ensures numWords == old(numWords)
      ensures completedEdges == old(completedEdges) && activeEdgeInfo == old(activeEdgeInfo)
      ensures fragmentEdgeInfo == old(fragmentEdgeInfo) && backtrackChart == old(backtrackChart)
    {
      if left == right {
        return 1.0;
      }
      var lrIndex := Linear(left, right);
      if lrIndex !in scalingMap {
        scale := 1.0;
        for i := left to right
          invariant scale == ScaleProduct(scalingMap, left, i)
        {
          scale := scale * scalingMap[OneWord(i)];
        }
        if ScalingConsistent(scalingMap) {
          CacheKeepsConsistent(scalingMap, left, right);
        }
        forall i | 0 <= i ensures Factor(scalingMap[lrIndex := scale], i) == Factor(scalingMap, i) {
          if OneWord(i) == lrIndex {
            LinearInjective(i, i + 1, left, right);
          }
        }
        scalingMap := scalingMap[lrIndex := scale];
      }
      scale := scalingMap[lrIndex];
    }

    /** `getScaling(left, right, "outside")`: the scaling outside the span,
        `[0, left)` times `[right, numWords)`; any other type is the
        scaling of the span itself. */
    method GetScalingFor(left: int, right: int, kind: string) returns (scale: real)
      requires 0 <= left <= right <= numWords
      requires ScalingConsistent(scalingMap) && HasFactors(scalingMap, 0, numWords)
      modifies this
      ensures numWords == old(numWords)
      ensures UpperCase(kind) == "OUTSIDE" ==>
        scale == ScaleProduct(old(scalingMap), 0, left) * ScaleProduct(old(scalingMap), right, old(numWords))
      ensures UpperCase(kind) != "OUTSIDE" ==> scale == ScaleProduct(old(scalingMap), left, right)
      ensures ScalingConsistent(scalingMap)
    {
      if UpperCase(kind) == "OUTSIDE" {
        var a := GetScaling(0, left);
        ghost var m1 := scalingMap;
        assert HasFactors(scalingMap, right, numWords);
        var b := GetScaling(right, numWords);
        ScaleProductFrame(old(scalingMap), m1, right, numWords);
        scale := a * b;
      } else {
        scale := GetScaling(left, right);
      }
    }
  }
}
