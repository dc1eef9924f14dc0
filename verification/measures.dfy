/** `parser.Measures`: named lists of per-position values (prefix
    probabilities, surprisal, entropy, ...), with optional compression of a
    list into its sum.  Values are reals; `ArrayMath.logSum`, used for the
    measures kept in the log domain, is a parameter. */
module MeasureTables {
  const Prefix: string := "prefix"
  const MultiPrefix: string := "multiprefix"
  const PcfgPrefix: string := "pcfgprefix"
  const Surprisal: string := "surprisal"
  const Entropy: string := "entropy"
  const EntropyReduction: string := "entropyreduction"
  const MultiRuleCount: string := "multirulecount"
  const PcfgRuleCount: string := "pcfgrulecount"
  const MultiFutureLengthCount: string := "multifuturelengthcount"
  const PcfgFutureLengthCount: string := "pcfgfuturelengthcount"
  const StringProb: string := "stringprob"

  /** `ArrayMath.sum`. */
  function Sum(s: seq<real>): real
    decreases |s|
  {
    if s == [] then 0.0 else Sum(s[..|s| - 1]) + s[|s| - 1]
  }

  /** The sum of a list followed by one more value. */
  lemma SumAppend(s: seq<real>, v: real)
    ensures Sum(s + [v]) == Sum(s) + v
  {
    assert (s + [v])[..|s|] == s;
  }

  predicate AllZero(s: seq<real>) {
    forall i :: 0 <= i < |s| ==> s[i] == 0.0
  }

  /** A fresh list of zeros totals zero. */
  lemma {:induction false} ZerosTotal(s: seq<real>)
    requires AllZero(s)
    ensures Sum(s) == 0.0
    decreases |s|
  {
    if s != [] {
      ZerosTotal(s[..|s| - 1]);
    }
  }

  /** `numWords + 1` zeros: the list a measure starts with when the
      sentence length is known. */
  method Zeros(numWords: int) returns (values: seq<real>)
    requires numWords + 1 >= 0
    ensures |values| == numWords + 1 && AllZero(values)
  {
    values := [];
    for i := 0 to numWords + 1
      invariant |values| == i && AllZero(values)
    {
      values := values + [0.0];
    }
  }

  class Measures {
    /** `measureMap`. */
    var measureMap: map<string, seq<real>>
    /** `autoCompressSize`: -1 (never) unless set. */
    var autoCompressSize: int
    /** `logMeasures`: the measures whose values are log probabilities. */
    var logMeasures: set<string>
    /** `ArrayMath.logSum`. */
    const logSum: seq<real> -> real

    /** `Measures(objectives)`: an empty list per measure. */
    constructor (objectives: set<string>, logSum: seq<real> -> real)
      ensures measureMap == map o | o in objectives :: []
      ensures logMeasures == {} && autoCompressSize == -1
      ensures this.logSum == logSum
    {
      measureMap := map o | o in objectives :: [];
      logMeasures := {};
      autoCompressSize := -1;
      this.logSum := logSum;
    }

    /** `Measures(objectives, numWords)`: `numWords + 1` zeros per measure.
        A negative list capacity throws, hence the precondition. */
    constructor WithWords(objectives: set<string>, numWords: int, logSum: seq<real> -> real)
      requires numWords + 1 >= 0
      ensures measureMap.Keys == objectives
      ensures forall o :: o in objectives ==> |measureMap[o]| == numWords + 1 && AllZero(measureMap[o])
      ensures logMeasures == {} && autoCompressSize == -1
      ensures this.logSum == logSum
    {
      this.logSum := logSum;
      logMeasures := {};
      autoCompressSize := -1;
      var values := Zeros(numWords);
      measureMap := map o | o in objectives :: values;
    }

    method SetAutoCompressSize(size: int)
      modifies this
      ensures autoCompressSize == size
      ensures measureMap == old(measureMap) && logMeasures == old(logMeasures)
    {
      autoCompressSize := size;
    }

    /** `addMeasures(objectives, numWords)`: (re)starts each given measure
        with `numWords + 1` zeros; the others are kept. */
    method AddMeasures(objectives: set<string>, numWords: int)
      requires numWords + 1 >= 0
      modifies this`measureMap
      ensures measureMap.Keys == old(measureMap).Keys + objectives
      ensures forall o :: o in objectives ==> |measureMap[o]| == numWords + 1 && AllZero(measureMap[o])
      ensures forall o :: o in old(measureMap) && o !in objectives ==> measureMap[o] == old(measureMap)[o]
    {
      var values := Zeros(numWords);
      var todo := objectives;
      while todo != {}
        invariant todo <= objectives
        invariant forall o :: o in measureMap <==> o in old(measureMap) || (o in objectives && o !in todo)
        invariant forall o :: o in objectives && o !in todo ==> measureMap[o] == values
        invariant forall o :: o in old(measureMap) && o !in objectives ==> measureMap[o] == old(measureMap)[o]
        invariant forall o :: o in old(measureMap) && o in todo ==> measureMap[o] == old(measureMap)[o]
        decreases |todo|
      {
        var o :| o in todo;
        measureMap := measureMap[o := values];
        todo := todo - {o};
      }
    }

    /** `numValues(obj)`. */
    function NumValues(obj: string): (n: nat)
      requires obj in measureMap
      reads this
      ensures n == |measureMap[obj]|
    {
      |measureMap[obj]|
    }

    method AddLogMeasure(measure: string)
      modifies this
      ensures logMeasures == old(logMeasures) + {measure}
      ensures measureMap == old(measureMap) && autoCompressSize == old(autoCompressSize)
    {
      logMeasures := logMeasures + {measure};
    }

    /** `getSentList(obj)`: the values from position 1 on; position 0 (the
        value before the first word) is dropped. */
    method GetSentList(obj: string) returns (values: seq<real>)
      requires obj in measureMap
      ensures |measureMap[obj]| >= 1 ==> |values| == |measureMap[obj]| - 1
      ensures |measureMap[obj]| == 0 ==> values == []
      ensures forall i :: 0 <= i < |values| ==> values[i] == measureMap[obj][i + 1]
    {
      var dl := measureMap[obj];
      values := [];
      var i := 1;
      while i < |dl|
        invariant 1 <= i <= |dl| || (i == 1 && dl == [])
        invariant |values| == i - 1
        invariant forall k :: 0 <= k < |values| ==> values[k] == dl[k + 1]
      {
        values := values + [dl[i]];
        i := i + 1;
      }
    }

    /** `compressDoubleList(obj, dl)`: the one-element list holding the
        (log-)sum. */
    function Compress(obj: string, dl: seq<real>): (r: seq<real>)
      reads this
      ensures |r| == 1
      ensures obj !in logMeasures ==> r[0] == Sum(dl)
      ensures obj in logMeasures ==> r[0] == logSum(dl)
    {
      if obj in logMeasures then [logSum(dl)] else [Sum(dl)]
    }

    /** `addValue(obj, value)`: appends; when the list then has exactly
        `autoCompressSize` values it is replaced by its compression. */
    method AddValue(obj: string, value: real)
      requires obj in measureMap
      modifies this
      ensures var dl := old(measureMap)[obj] + [value];
        measureMap == old(measureMap)[obj := if |dl| == autoCompressSize then Compress(obj, dl) else dl]
      ensures obj !in logMeasures ==> Sum(measureMap[obj]) == Sum(old(measureMap)[obj]) + value
      ensures logMeasures == old(logMeasures) && autoCompressSize == old(autoCompressSize)
    {
      AddValueKeepsTotal(measureMap[obj], value, |measureMap[obj]| + 1 == autoCompressSize);
      var dl := measureMap[obj] + [value];
      measureMap := measureMap[obj := dl];
      if |dl| == autoCompressSize {
        measureMap := measureMap[obj := Compress(obj, dl)];
      }
    }

    /** `setValue(obj, pos, value)`: one position of one measure. */
    method SetValue(obj: string, pos: int, value: real)
      requires obj in measureMap && 0 <= pos < |measureMap[obj]|
      modifies this
      ensures measureMap.Keys == old(measureMap).Keys
      ensures |measureMap[obj]| == |old(measureMap)[obj]|
      ensures measureMap[obj][pos] == value
      ensures forall i :: 0 <= i < |measureMap[obj]| && i != pos ==> measureMap[obj][i] == old(measureMap)[obj][i]
      ensures forall o :: o in measureMap && o != obj ==> measureMap[o] == old(measureMap)[o]
      ensures logMeasures == old(logMeasures) && autoCompressSize == old(autoCompressSize)
    {
      measureMap := measureMap[obj := measureMap[obj][pos := value]];
    }

    /** `getValue(obj, pos)`. */
    function GetValue(obj: string, pos: int): (v: real)
      requires obj in measureMap && 0 <= pos < |measureMap[obj]|
      reads this
    {
      measureMap[obj][pos]
    }

    /** `getTotalValue(obj)`: the (log-)sum of the list, which is left as
        the compression of its own compression. */
    method GetTotalValue(obj: string) returns (total: real)
      requires obj in measureMap
      modifies this
      ensures obj !in logMeasures ==> total == Sum(old(measureMap)[obj]) && measureMap == old(measureMap)[obj := [total]]
      ensures obj in logMeasures ==> total == logSum(old(measureMap)[obj]) && measureMap == old(measureMap)[obj := [logSum([total])]]
      ensures logMeasures == old(logMeasures) && autoCompressSize == old(autoCompressSize)
    {
      var dl := Compress(obj, measureMap[obj]);
      if obj !in logMeasures {
        SumAppend([], dl[0]);
      }
      measureMap := measureMap[obj := Compress(obj, dl)];
      total := dl[0];
    }

    /** `addEntropy(value)`. */
    method AddEntropy(value: real)
      requires Entropy in measureMap
      modifies this
      ensures var dl := old(measureMap)[Entropy] + [value];
        measureMap == old(measureMap)[Entropy := if |dl| == autoCompressSize then Compress(Entropy, dl) else dl]
      ensures logMeasures == old(logMeasures) && autoCompressSize == old(autoCompressSize)
    {
      AddValue(Entropy, value);
    }

    /** `getEntropy(pos)`. */
    function GetEntropy(pos: int): (v: real)
      requires Entropy in measureMap && 0 <= pos < |measureMap[Entropy]|
      reads this
      ensures v == GetValue(Entropy, pos)
    {
      GetValue(Entropy, pos)
    }
  }

  /** For a measure in the raw domain, `addValue` adds the value to the
      list's total whether or not the list is compressed. */
  lemma AddValueKeepsTotal(dl: seq<real>, value: real, compress: bool)
    ensures var d := dl + [value];
      Sum(if compress then [Sum(d)] else d) == Sum(dl) + value
  {
    SumAppend(dl, value);
    SumAppend([], Sum(dl + [value]));
  }
}
