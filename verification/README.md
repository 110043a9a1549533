# averageSeries — a verified model

This project models the `averageSeries` function of the disthene-reader
Graphite query engine. A Graphite target such as `averageSeries(host.*.cpu)`
names one nested series expression. The function evaluates that expression
and turns the resulting series into a single series: at each sample index it
averages the inputs.

The model has four modules:

- `Wrappers` (`wrappers.dfy`): `Option`, used for a nullable `Double` sample, and
  `Result` / `Outcome`, used for a value-or-exception and a `void`-or-exception.
- `Series` (`series.dfy`): the `TimeSeries` value (name, `from`, `to`, `step`,
  nullable samples), the rule that a missing sample counts as 0 in a sum, and
  the alignment predicate `Aligned`.
- `AverageSeries` (`average_series.dfy`): the function's argument guard
  `CheckArguments` and its evaluation. `Average` is the specification function.
  `Evaluate` is the imperative algorithm: an outer loop over sample indices
  fills a fresh array, and an inner loop over the input series accumulates the
  sum. It is proved equal to `Average`.
- `AverageSeriesProperties` (`average_series_properties.dfy`): what callers can
  rely on, proved about `Average`.

The nested target is evaluated by the engine's evaluator and storage, which
this model does not include. `Evaluate` therefore receives the outcome of that
evaluation as a parameter: either the list of series or the error it raised.
The function's own text (`getText()`) is also a parameter.

## Model

| member | source | states |
|---|---|---|
| `AverageSeries.CheckArguments` | src/main/java/net/iponweb/disthene/reader/graphite/functions/AverageSeriesFunction.java:61-65 | Accepts exactly when there is one argument and it is a series expression. A count of 0 or more than 1 fails with InvalidArgument reporting that count. A single literal argument fails with InvalidArgument reporting that argument. |
| `AverageSeries.Evaluate` | src/main/java/net/iponweb/disthene/reader/graphite/functions/AverageSeriesFunction.java:26-59 | The loop over indices and the inner loop over series compute exactly `Average`. Every sample written to the array is the sum at that index (missing as 0) divided by the number of series. |
| `AverageSeriesProperties.EvaluationErrorPropagates` | src/main/java/net/iponweb/disthene/reader/graphite/functions/AverageSeriesFunction.java:29 | An error raised while evaluating the nested target is returned unchanged. |
| `AverageSeriesProperties.NoSeriesGivesEmptyResult` | src/main/java/net/iponweb/disthene/reader/graphite/functions/AverageSeriesFunction.java:28-31 | Zero input series give an empty result list, not an error. |
| `AverageSeriesProperties.FailsExactlyWhenNotAligned` | src/main/java/net/iponweb/disthene/reader/graphite/functions/AverageSeriesFunction.java:33-35 | A non-empty input fails if and only if it is not aligned. That failure is NotAligned and carries no series. |
| `AverageSeriesProperties.OutputShape` | src/main/java/net/iponweb/disthene/reader/graphite/functions/AverageSeriesFunction.java:38-58 | On aligned input the result is exactly one series. Its name is the function's text. Its from, to and step are the first input's. It has as many samples as the first input, and none of them is missing. |
| `AverageSeriesProperties.SumAtIsTotalOfPresent` | src/main/java/net/iponweb/disthene/reader/graphite/functions/AverageSeriesFunction.java:49-51 | Summing with a missing sample counted as 0 is the same as summing the samples that are present. |
| `AverageSeriesProperties.PresentCount` | src/main/java/net/iponweb/disthene/reader/graphite/functions/AverageSeriesFunction.java:49-51 | At most one sample per series is present at an index. There is one per series if and only if no sample is missing there. |
| `AverageSeriesProperties.Pointwise` | src/main/java/net/iponweb/disthene/reader/graphite/functions/AverageSeriesFunction.java:46-54 | Each output sample is the sum of the present samples divided by the total number of series. Where a sample is missing, fewer samples are summed but the divisor stays the same. |
| `AverageSeriesProperties.PresentIsAllWhenNoneMissing` | src/main/java/net/iponweb/disthene/reader/graphite/functions/AverageSeriesFunction.java:49-51 | With no missing sample at an index, the present samples are the inputs' samples, in input order. |
| `AverageSeriesProperties.MeanWhenNoneMissing` | src/main/java/net/iponweb/disthene/reader/graphite/functions/AverageSeriesFunction.java:46-54 | With no missing sample at an index, the output there is the arithmetic mean of the inputs' samples. |
| `AverageSeriesProperties.MissingSampleIsNotExcluded` | src/main/java/net/iponweb/disthene/reader/graphite/functions/AverageSeriesFunction.java:47-53 | Take an index where some sample is missing and the present samples sum to a non-zero value. The output there differs from the mean of the present samples, because the missing sample is not excluded from the count. |
| `AverageSeriesProperties.OutputWithinBounds` | src/main/java/net/iponweb/disthene/reader/graphite/functions/AverageSeriesFunction.java:46-54 | Suppose every contribution at an index lies in [lo, hi], with a missing sample contributing 0. Then the output sample lies in [lo, hi] too. |
| `AverageSeriesProperties.OrderIndependent` | src/main/java/net/iponweb/disthene/reader/graphite/functions/AverageSeriesFunction.java:38-54 | Swapping two blocks of input series changes nothing in the result: not the error, the name, the range, the step or the samples. |
| `AverageSeriesProperties.WorkedExample` | src/main/java/net/iponweb/disthene/reader/graphite/functions/AverageSeriesFunction.java:26-59 | Inputs [1, 2, null] and [3, 4, 5] over 0..3 with step 1 give the single series [2, 3, 2.5]. |

Because series are values in this model, `Evaluate` cannot change its inputs.
It writes only to an array that it allocates itself.

## Left out

- The HTTP render handler (`RenderHandler.java`) is not part of this model. That covers request plumbing, the wall-clock timeout on a thread pool, throttling, statistics, logging and the ANTLR parser. These are concurrency, timing and I/O, or code whose source is not available.
- Evaluating the nested target through the evaluator and the metric storage is not modelled. Its outcome is an input to `Evaluate` and `Average`.
- `TimeSeriesUtils.checkAlignment` is not part of this model. `Aligned` requires equal `from`, `to` and `step` and, as an assumption about that unseen check, an equal number of samples. So a series with the first one's range and step but a different sample count gives `NotAligned` in the model. If the real check compares only `from`, `to` and `step`, the source would instead throw `ArrayIndexOutOfBoundsException` at line 50 for a shorter series, and silently ignore the extra samples of a longer one.
- The `DistheneFunction` base class is not part of this model. Its argument list and `getText()` become parameters.
- `CheckArguments` reports what the exception message carries (the count, or the offending argument). It does not model the message text or Java class names.
- `Evaluate` and `Average` compute with `real`. IEEE-754 `double` rounding in the running sum and in the final division is outside the model. Java's `long` and `int` fields are unbounded integers. NaN and infinite samples cannot be represented; every lemma about the output holds for finite samples only.
- OutputWithinBounds: holds for real arithmetic only. In `double`, the running sum can overflow to ±Infinity (two samples of `Double.MAX_VALUE` give Infinity, outside [lo, hi]), and a NaN sample makes the output NaN. Neither is modelled.
- OrderIndependent: holds for real arithmetic only. In `double`, a different input order can round the running sum differently and so change the samples. Order-dependent rounding, overflow and NaN are not modelled.
- `Evaluate` does not model two things: Java's defensive copy of the evaluated list, and the cast of the first argument to a target. The cast relies on `checkArguments` having run first, which the caller guarantees.
- `Aligned` does not require a series to hold ceil((to - from) / step) samples. Nothing in `averageSeries` checks this.
