/** The value-level data model: a named run of nullable samples over a time range. */
module Series {
  import opened Wrappers

  /** A time series: display name, start and end timestamps (epoch seconds),
      seconds per sample, and one nullable sample per step. */
  datatype TimeSeries = TimeSeries(
    name: string,
    from: int,
    to: int,
    step: int,
    values: seq<Option<real>>)

  /** What a sample contributes to a pointwise sum: a missing sample counts as 0. */
  function ValueOrZero(v: Option<real>): (r: real)
  {
    match v
    case Some(x) => x
    case None => 0.0
  }

  /** The alignment check that guards every pointwise combination: all series
      share the first one's `from`, `to`, `step` and number of samples. */
  predicate Aligned(ss: seq<TimeSeries>)
  {
    forall k :: 0 <= k < |ss| ==>
      ss[k].from == ss[0].from && ss[k].to == ss[0].to &&
      ss[k].step == ss[0].step && |ss[k].values| == |ss[0].values|
  }

  /** Every series in `ss` has a sample at index `i`. */
  predicate HasSampleAt(ss: seq<TimeSeries>, i: nat)
  {
    forall k :: 0 <= k < |ss| ==> i < |ss[k].values|
  }

  /** In an aligned, non-empty list every series has as many samples as the first. */
  lemma AlignedHasSamples(ss: seq<TimeSeries>, i: nat)
    requires |ss| > 0 && Aligned(ss) && i < |ss[0].values|
    ensures HasSampleAt(ss, i)
  {
  }
}
