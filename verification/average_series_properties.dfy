/** What `averageSeries` promises its callers, proved about `AverageSeries.Average`
    (and so, through its postcondition, about `AverageSeries.Evaluate`). */
module AverageSeriesProperties {
  import opened Wrappers
  import opened Series
  import opened AverageSeries

  /** Sum of a list of reals. */
  function Total(xs: seq<real>): (r: real)
  {
    if xs == [] then 0.0 else Total(xs[..|xs| - 1]) + xs[|xs| - 1]
  }

  /** The samples present (non-null) at index `i`, in input order. */
  function PresentAt(ss: seq<TimeSeries>, i: nat): (r: seq<real>)
    requires HasSampleAt(ss, i)
  {
    if ss == [] then []
    else
      var last := ss[|ss| - 1].values[i];
      PresentAt(ss[..|ss| - 1], i) + (if last.Some? then [last.value] else [])
  }

  /** No input series misses the sample at index `i`. */
  predicate NoneMissingAt(ss: seq<TimeSeries>, i: nat)
    requires HasSampleAt(ss, i)
  {
    forall k :: 0 <= k < |ss| ==> ss[k].values[i].Some?
  }

  // ----- Outcomes -----

  /** A failure while evaluating the nested target is passed on unchanged. */
  lemma EvaluationErrorPropagates(text: string, e: Error)
    ensures Average(text, Failure(e)) == Failure(e)
  {
  }

  /** No input series is "no data", not an error: the result is an empty list. */
  lemma NoSeriesGivesEmptyResult(text: string)
    ensures Average(text, Success([])) == Success([])
  {
  }

  /** Non-empty input fails, and fails with `NotAligned` only, exactly when it is not aligned. */
  lemma FailsExactlyWhenNotAligned(text: string, ss: seq<TimeSeries>)
    requires |ss| > 0
    ensures Average(text, Success(ss)).Failure? <==> !Aligned(ss)
    ensures !Aligned(ss) ==> Average(text, Success(ss)) == Failure(NotAligned)
  {
  }

  // ----- Shape of the output -----

  /** On success there is exactly one output series, named after the call's text,
      with the first input's range and step, as many samples as the first input,
      and no missing sample. */
  lemma OutputShape(text: string, ss: seq<TimeSeries>)
    requires |ss| > 0 && Aligned(ss)
    ensures var r := Average(text, Success(ss));
      && r.Success? && |r.value| == 1
      && r.value[0].name == text
      && r.value[0].from == ss[0].from && r.value[0].to == ss[0].to && r.value[0].step == ss[0].step
      && |r.value[0].values| == |ss[0].values|
      && forall i :: 0 <= i < |r.value[0].values| ==> r.value[0].values[i].Some?
  {
  }

  // ----- The sample rule -----

  /** The sum with missing samples as 0 is the sum of the samples that are present. */
  lemma {:induction false} SumAtIsTotalOfPresent(ss: seq<TimeSeries>, i: nat)
    requires HasSampleAt(ss, i)
    ensures SumAt(ss, i) == Total(PresentAt(ss, i))
  {
    if ss != [] {
      var init, last := ss[..|ss| - 1], ss[|ss| - 1].values[i];
      SumAtIsTotalOfPresent(init, i);
      var tail := if last.Some? then [last.value] else [];
      TotalAppend(PresentAt(init, i), tail);
    }
  }

  lemma {:induction false} TotalAppend(xs: seq<real>, ys: seq<real>)
    ensures Total(xs + ys) == Total(xs) + Total(ys)
  {
    if ys == [] {
      assert xs + ys == xs;
    } else {
      assert (xs + ys)[..|xs + ys| - 1] == xs + ys[..|ys| - 1];
      assert (xs + ys)[|xs + ys| - 1] == ys[|ys| - 1];
      TotalAppend(xs, ys[..|ys| - 1]);
    }
  }

  /** At most one present sample per series; one per series exactly when none is missing. */
  lemma {:induction false} PresentCount(ss: seq<TimeSeries>, i: nat)
    requires HasSampleAt(ss, i)
    ensures |PresentAt(ss, i)| <= |ss|
    ensures |PresentAt(ss, i)| == |ss| <==> NoneMissingAt(ss, i)
  {
    if ss != [] {
      var init := ss[..|ss| - 1];
      PresentCount(init, i);
      if NoneMissingAt(ss, i) {
        assert NoneMissingAt(init, i) by {
          forall k | 0 <= k < |init| ensures init[k].values[i].Some? {
            assert init[k] == ss[k];
          }
        }
      }
      if NoneMissingAt(init, i) && ss[|ss| - 1].values[i].Some? {
        forall k | 0 <= k < |ss| ensures ss[k].values[i].Some? {
          if k < |init| { assert init[k] == ss[k]; }
        }
      }
    }
  }

  /** Every output sample is the sum of the present samples divided by the number
      of input series; a missing sample lowers the sum but never the denominator. */
  lemma Pointwise(text: string, ss: seq<TimeSeries>, i: nat)
    requires |ss| > 0 && Aligned(ss) && i < |ss[0].values|
    ensures HasSampleAt(ss, i)
    ensures Average(text, Success(ss)).value[0].values[i] == Some(Total(PresentAt(ss, i)) / (|ss| as real))
    ensures Average(text, Success(ss)).value[0].values[i] == Some(SumAt(ss, i) / (|ss| as real))
    ensures !NoneMissingAt(ss, i) ==> |PresentAt(ss, i)| < |ss|
  {
    AlignedHasSamples(ss, i);
    SumAtIsTotalOfPresent(ss, i);
    PresentCount(ss, i);
  }

  /** With no sample missing at `i`, the present samples are exactly the inputs' samples. */
  lemma {:induction false} PresentIsAllWhenNoneMissing(ss: seq<TimeSeries>, i: nat)
    requires HasSampleAt(ss, i) && NoneMissingAt(ss, i)
    ensures |PresentAt(ss, i)| == |ss|
    ensures forall k :: 0 <= k < |ss| ==> PresentAt(ss, i)[k] == ss[k].values[i].value
  {
    if ss != [] {
      var init := ss[..|ss| - 1];
      assert NoneMissingAt(init, i) by {
        forall k | 0 <= k < |init| ensures init[k].values[i].Some? {
          assert init[k] == ss[k];
        }
      }
      PresentIsAllWhenNoneMissing(init, i);
      forall k | 0 <= k < |ss| ensures PresentAt(ss, i)[k] == ss[k].values[i].value {
        if k < |init| { assert init[k] == ss[k]; }
      }
    }
  }

  /** Arithmetic mean of a non-empty list of reals. */
  function Mean(xs: seq<real>): (r: real)
    requires |xs| > 0
  {
    Total(xs) / (|xs| as real)
  }

  /** With no missing sample at `i`, the output there is the arithmetic mean of the inputs' samples. */
  lemma MeanWhenNoneMissing(text: string, ss: seq<TimeSeries>, i: nat)
    requires |ss| > 0 && Aligned(ss) && i < |ss[0].values|
    requires HasSampleAt(ss, i) && NoneMissingAt(ss, i)
    ensures |PresentAt(ss, i)| == |ss|
    ensures forall k :: 0 <= k < |ss| ==> PresentAt(ss, i)[k] == ss[k].values[i].value
    ensures Average(text, Success(ss)).value[0].values[i] == Some(Mean(PresentAt(ss, i)))
  {
    Pointwise(text, ss, i);
    PresentIsAllWhenNoneMissing(ss, i);
  }

  /** The documented quirk: where a sample is missing and the present samples do
      not sum to 0, the output is not the mean of the present samples. */
  lemma MissingSampleIsNotExcluded(text: string, ss: seq<TimeSeries>, i: nat)
    requires |ss| > 0 && Aligned(ss) && i < |ss[0].values|
    requires HasSampleAt(ss, i) && !NoneMissingAt(ss, i)
    requires |PresentAt(ss, i)| > 0 && Total(PresentAt(ss, i)) != 0.0
    ensures Average(text, Success(ss)).value[0].values[i] != Some(Mean(PresentAt(ss, i)))
  {
    Pointwise(text, ss, i);
    PresentCount(ss, i);
    DividingByMoreDiffers(Total(PresentAt(ss, i)), |PresentAt(ss, i)| as real, |ss| as real);
  }

  lemma DividingByMoreDiffers(t: real, m: real, n: real)
    requires t != 0.0 && 0.0 < m < n
    ensures t / n != t / m
  {
  }

  // ----- Bounds and order -----

  /** If every contribution at `i` lies in `[lo, hi]`, so does their sum's share. */
  lemma {:induction false} SumAtBounds(ss: seq<TimeSeries>, i: nat, lo: real, hi: real)
    requires HasSampleAt(ss, i)
    requires forall k :: 0 <= k < |ss| ==> lo <= ValueOrZero(ss[k].values[i]) <= hi
    ensures (|ss| as real) * lo <= SumAt(ss, i) <= (|ss| as real) * hi
  {
    if ss != [] {
      var init := ss[..|ss| - 1];
      forall k | 0 <= k < |init| ensures lo <= ValueOrZero(init[k].values[i]) <= hi {
        assert init[k] == ss[k];
      }
      SumAtBounds(init, i, lo, hi);
      assert (|ss| as real) * lo == (|init| as real) * lo + lo;
      assert (|ss| as real) * hi == (|init| as real) * hi + hi;
    }
  }

  /** The output sample lies between the smallest and largest contribution
      (a missing sample contributing 0). */
  lemma OutputWithinBounds(text: string, ss: seq<TimeSeries>, i: nat, lo: real, hi: real)
    requires |ss| > 0 && Aligned(ss) && i < |ss[0].values|
    requires HasSampleAt(ss, i)
    requires forall k :: 0 <= k < |ss| ==> lo <= ValueOrZero(ss[k].values[i]) <= hi
    ensures var v := Average(text, Success(ss)).value[0].values[i];
      v.Some? && lo <= v.value <= hi
  {
    SumAtBounds(ss, i, lo, hi);
    var n, s := |ss| as real, SumAt(ss, i);
    assert n * lo <= s <= n * hi;
    assert lo <= s / n by {
      assert (s / n) * n == s;
    }
    assert s / n <= hi by {
      assert (s / n) * n == s;
    }
  }

  lemma {:induction false} SumAtAppend(a: seq<TimeSeries>, b: seq<TimeSeries>, i: nat)
    requires HasSampleAt(a, i) && HasSampleAt(b, i)
    ensures HasSampleAt(a + b, i)
    ensures SumAt(a + b, i) == SumAt(a, i) + SumAt(b, i)
  {
    assert HasSampleAt(a + b, i) by {
      forall k | 0 <= k < |a + b| ensures i < |(a + b)[k].values| {
        if k >= |a| { assert (a + b)[k] == b[k - |a|]; }
      }
    }
    if b == [] {
      assert a + b == a;
    } else {
      var binit := b[..|b| - 1];
      assert (a + b)[..|a + b| - 1] == a + binit;
      assert (a + b)[|a + b| - 1] == b[|b| - 1];
      assert HasSampleAt(binit, i) by {
        forall k | 0 <= k < |binit| ensures i < |binit[k].values| {
          assert binit[k] == b[k];
        }
      }
      SumAtAppend(a, binit, i);
    }
  }

  /** Swapping two blocks of inputs gives the same result: the same error, or the
      same output series, name, range and samples alike. */
  lemma OrderIndependent(text: string, a: seq<TimeSeries>, b: seq<TimeSeries>)
    ensures Average(text, Success(a + b)) == Average(text, Success(b + a))
  {
    if a == [] {
      assert a + b == b == b + a;
    } else if b == [] {
      assert a + b == a == b + a;
    } else {
      var ab, ba := a + b, b + a;
      assert ab[0] == a[0] && ba[0] == b[0];
      assert ab[|a|] == b[0] && ba[|b|] == a[0];
      assert forall k :: 0 <= k < |ab| ==> ab[k] in ba by {
        forall k | 0 <= k < |ab| ensures ab[k] in ba {
          if k < |a| { assert ab[k] == ba[|b| + k]; } else { assert ab[k] == ba[k - |a|]; }
        }
      }
      assert forall k :: 0 <= k < |ba| ==> ba[k] in ab by {
        forall k | 0 <= k < |ba| ensures ba[k] in ab {
          if k < |b| { assert ba[k] == ab[|a| + k]; } else { assert ba[k] == ab[k - |b|]; }
        }
      }
      if Aligned(ab) {
        assert Aligned(ba);
        var n := |ab[0].values|;
        forall i | 0 <= i < n
          ensures HasSampleAt(ab, i) && HasSampleAt(ba, i) && SumAt(ab, i) == SumAt(ba, i)
        {
          AlignedHasSamples(ab, i);
          AlignedHasSamples(ba, i);
          assert HasSampleAt(a, i) by {
            forall k | 0 <= k < |a| ensures i < |a[k].values| { assert a[k] == ab[k]; }
          }
          assert HasSampleAt(b, i) by {
            forall k | 0 <= k < |b| ensures i < |b[k].values| { assert b[k] == ba[k]; }
          }
          SumAtAppend(a, b, i);
          SumAtAppend(b, a, i);
        }
        assert AverageValues(ab) == AverageValues(ba);
      } else {
        assert !Aligned(ba);
      }
    }
  }

  // ----- A worked case -----

  lemma SumAtPair(a: TimeSeries, b: TimeSeries, i: nat)
    requires i < |a.values| && i < |b.values|
    ensures HasSampleAt([a, b], i)
    ensures SumAt([a, b], i) == ValueOrZero(a.values[i]) + ValueOrZero(b.values[i])
  {
    assert [a, b][..1] == [a];
    assert [a][..0] == [];
    assert SumAt([a], i) == ValueOrZero(a.values[i]);
  }

  /** Inputs [1, 2, null] and [3, 4, 5] over the same range give [2, 3, 2.5]. */
  lemma WorkedExample()
    ensures
      var a := TimeSeries("a", 0, 3, 1, [Some(1.0), Some(2.0), None]);
      var b := TimeSeries("b", 0, 3, 1, [Some(3.0), Some(4.0), Some(5.0)]);
      Average("averageSeries(host.*)", Success([a, b]))
        == Success([TimeSeries("averageSeries(host.*)", 0, 3, 1, [Some(2.0), Some(3.0), Some(2.5)])])
  {
    var a := TimeSeries("a", 0, 3, 1, [Some(1.0), Some(2.0), None]);
    var b := TimeSeries("b", 0, 3, 1, [Some(3.0), Some(4.0), Some(5.0)]);
    var ss := [a, b];
    assert Aligned(ss);
    SumAtPair(a, b, 0);
    SumAtPair(a, b, 1);
    SumAtPair(a, b, 2);
    assert AverageValues(ss) == [Some(2.0), Some(3.0), Some(2.5)];
  }
}
