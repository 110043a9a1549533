/** The `averageSeries` Graphite function: argument validation and the
    pointwise average of the series its single argument evaluates to. */
module AverageSeries {
  import opened Wrappers
  import opened Series

  /** An argument of a function call as the parser hands it over: a nested
      series expression (a `Target`) or a literal. */
  datatype Argument =
    | Target(text: string)
    | NumberLiteral(number: real)
    | StringLiteral(str: string)
    | BooleanLiteral(flag: bool)

  /** What an `InvalidArgumentException` message reports. */
  datatype ArgumentProblem =
    | WrongCount(count: nat)      // "number of arguments is <count>. Must be one."
    | NotSeries(given: Argument)  // "argument is <class>. Must be series"

  /** The exceptions an evaluation can end in. */
  datatype Error =
    | InvalidArgument(problem: ArgumentProblem)
    | NotAligned
    | EvaluationFailed(message: string)  // raised while evaluating the nested target

  /** The arity and kind guard run before evaluation: exactly one argument,
      and that argument a series expression. */
  function CheckArguments(args: seq<Argument>): (r: Outcome<Error>)
    ensures r.Pass? <==> |args| == 1 && args[0].Target?
    ensures |args| != 1 ==> r == Fail(InvalidArgument(WrongCount(|args|)))
    ensures |args| == 1 && !args[0].Target? ==> r == Fail(InvalidArgument(NotSeries(args[0])))
  {
    if |args| > 1 || |args| == 0 then Fail(InvalidArgument(WrongCount(|args|)))
    else if !args[0].Target? then Fail(InvalidArgument(NotSeries(args[0])))
    else Pass
  }

  /** Sum of the samples at index `i`, a missing sample counting as 0. */
  function SumAt(ss: seq<TimeSeries>, i: nat): (r: real)
    requires HasSampleAt(ss, i)
  {
    if ss == [] then 0.0
    else SumAt(ss[..|ss| - 1], i) + ValueOrZero(ss[|ss| - 1].values[i])
  }

  /** The output sample at index `i`: the sum divided by the number of series,
      whether or not some of them miss the sample. */
  function AverageAt(ss: seq<TimeSeries>, i: nat): (r: real)
    requires |ss| > 0 && HasSampleAt(ss, i)
  {
    SumAt(ss, i) / (|ss| as real)
  }

  /** The samples of the output series, one per sample of the first input. */
  function AverageValues(ss: seq<TimeSeries>): (r: seq<Option<real>>)
    requires |ss| > 0 && Aligned(ss)
  {
    seq(|ss[0].values|, i requires 0 <= i < |ss[0].values| && HasSampleAt(ss, i) =>
      Some(AverageAt(ss, i)))
  }

  /** What `averageSeries` returns, given the name it was called by and the
      outcome of evaluating its argument. */
  function Average(text: string, evaluated: Result<seq<TimeSeries>, Error>): (r: Result<seq<TimeSeries>, Error>)
  {
    match evaluated
    case Failure(e) => Failure(e)
    case Success(ss) =>
      if |ss| == 0 then Success([])
      else if !Aligned(ss) then Failure(NotAligned)
      else Success([TimeSeries(text, ss[0].from, ss[0].to, ss[0].step, AverageValues(ss))])
  }

  /** The evaluation itself: an outer loop over sample indices fills a fresh
      array, an inner loop over the series accumulates the sum. */
  method Evaluate(text: string, evaluated: Result<seq<TimeSeries>, Error>)
    returns (r: Result<seq<TimeSeries>, Error>)
    ensures r == Average(text, evaluated)
  {
    if evaluated.Failure? {
      return Failure(evaluated.error);
    }
    var processed := evaluated.value;
    if |processed| == 0 {
      return Success([]);
    }
    if !Aligned(processed) {
      return Failure(NotAligned);
    }
    var first := processed[0];
    var length := |first.values|;
    var values := new Option<real>[length];
    for i := 0 to length
      invariant forall j :: 0 <= j < i ==> HasSampleAt(processed, j) && values[j] == Some(AverageAt(processed, j))
    {
      AlignedHasSamples(processed, i);
      var sum := 0.0;
      for k := 0 to |processed|
        invariant sum == SumAt(processed[..k], i)
      {
        var ts := processed[k];
        sum := sum + (if ts.values[i] != None then ts.values[i].value else 0.0);
        assert processed[..k + 1][..k] == processed[..k];
      }
      assert processed[..|processed|] == processed;
      values[i] := Some(sum / (|processed| as real));
    }
    r := Success([TimeSeries(text, first.from, first.to, first.step, values[..])]);
    assert values[..] == AverageValues(processed);
  }
}
