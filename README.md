# Inter-arrival analysis of stored events, modelled in Dafny

The analysis script reads the timestamp column of an event table and turns it
into inter-arrival times, the seconds between each event and the next. It
summarises that sample (size, minimum, maximum, mean, median, quartiles) and
picks a histogram bin count with the Freedman–Diaconis rule. For an
exponential best-fit model it reports location, scale and rate. Before
connecting, it checks that a `sqlite:///` database URL names a file that
exists.

There is one module per concern:

- `Samples` (`samples.dfy`):
  - the ascending sort that both the SQL `ORDER BY ... ASC` and the pandas quantiles rely on;
  - sum, minimum and maximum;
  - the proof that a sorted rearrangement is unique.
- `Interarrival` (`interarrival.dfy`): `load_time_between_data`, starting from the rows the query returns.
  - SQL NULLs and pandas NaT/NaN are `None`.
  - `diff()` yields a column with a missing first entry.
  - `dropna()` is a filter.
  - Built on these, it proves that the result is the list of consecutive gaps of the sorted non-NULL timestamps, with its two error cases.
- `DescriptiveStats` (`descriptive_stats.dfy`): the exactly computable entries of `compute_descriptive_stats`.
  - It uses the pandas default linear quantile: position `(n - 1) q`, interpolating between the neighbours at floor and ceiling.
- `Binning` (`binning.dfy`): `_freedman_diaconis_bins`.
  - Width `2 IQR / n^(1/3)`.
  - Count `ceil((max - min) / width)`.
  - A fallback, and a floor, of ten bins.
- `SqliteUrl` (`sqlite_url.dfy`): `_check_sqlite_file`, with file existence as a predicate parameter.
- `ExponentialSummary` (`exponential_summary.dfy`): the exponential summary printed by `main`.
  - `loc` defaults to 0, `scale` to 1, and λ = 1 / scale.
- `RealArith` (`real_arith.dfy`): small facts of real arithmetic used by the proofs above.

Timestamps and inter-arrival times are exact real numbers of seconds. A
timestamp's `total_seconds()` difference is the difference of the two reals.

## Model

| member | source | states |
|---|---|---|
| Samples.Sort | src/analysis.py:71-75 | the result is ascending, has the same elements with the same multiplicities, and has the same length |
| Samples.SortIsUnique | src/analysis.py:71-75 | any ascending rearrangement of a sample is its sort, so the ordering of the query is determined by the stored values |
| Samples.Min | src/analysis.py:142 | the minimum is an element of the sample and no element is smaller |
| Samples.Max | src/analysis.py:143 | the maximum is an element of the sample and no element is larger |
| Samples.SortedEnds | src/analysis.py:142-143 | the sorted sample starts with the minimum and ends with the maximum |
| Samples.SumBounds | src/analysis.py:144 | a sum of n values in [lo, hi] lies in [n lo, n hi] |
| Interarrival.OrderAscending | src/analysis.py:71-75 | the query returns the same rows, rearranged, and its non-NULL timestamps come out in ascending order |
| Interarrival.DropNa | src/analysis.py:106 | dropping missing values never lengthens a column |
| Interarrival.DiffColumn | src/analysis.py:94 | `diff()` yields one entry per row |
| Interarrival.DiffColumnOfOrdered | src/analysis.py:94-106 | on NULLs followed by ascending values, the non-missing entries of `diff()` are exactly the consecutive gaps of the values |
| Interarrival.Diffs | src/analysis.py:94 | reference definition: one gap fewer than timestamps, gap i is t[i+1] − t[i] |
| Interarrival.LoadTimeBetween | src/analysis.py:83-114 | EmptyTable exactly when no row is returned; a successful result is never empty |
| Interarrival.LoadCharacterization | src/analysis.py:66-114 | no rows is EmptyTable; fewer than two non-NULL timestamps is NotEnoughRecords; otherwise the result is the gaps of the sorted non-NULL timestamps |
| Interarrival.LoadLength | src/analysis.py:94-114 | success iff there are at least two non-NULL timestamps; the result then holds one interval fewer; with no NULL and n ≥ 2 rows it holds n − 1 |
| Interarrival.SingleRow | src/analysis.py:106-112 | a single row is the NotEnoughRecords error |
| Interarrival.IntervalsAreGaps | src/analysis.py:71-106 | interval i is t[i+1] − t[i] of the ascending timestamps, never negative, and zero exactly for equal neighbours |
| Interarrival.GapsOfSorted | src/analysis.py:71-94 | the gaps of an ascending sequence are never negative and are zero exactly between equal neighbours |
| Interarrival.AccumulateDiffs | src/analysis.py:94 | the timestamps are recovered from the first one and the gaps |
| Interarrival.DiffsAccumulate | src/analysis.py:94 | the gaps of timestamps accumulated from gaps are those gaps |
| Interarrival.DiffsTelescope | src/analysis.py:94 | the gaps sum to the last timestamp minus the first |
| Interarrival.LoadSpan | src/analysis.py:94-114 | the intervals of a load sum to the span (max − min) of the stored timestamps |
| Interarrival.Example | src/analysis.py:66-114 | timestamps 0, 5, 5, 12 give intervals 5, 0, 7 |
| Interarrival.ExampleUnordered | src/analysis.py:71-106 | stored as 12, 5, NULL, 0, 5 they give the same intervals 5, 0, 7 |
| DescriptiveStats.Quantile | src/analysis.py:147-148 | no contract of its own: `Series.quantile(q)`, linear interpolation (Interpolate) at index (n − 1) q of the sorted sample; its properties are QuantileMonotone, QuantileEnds and QuantileBounds |
| DescriptiveStats.Median | src/analysis.py:145 | no contract of its own: `Series.median()`, the middle element or the mean of the two middle ones; its property is MedianIsHalfQuantile |
| DescriptiveStats.Mean | src/analysis.py:144 | no contract of its own: `Series.mean()`, the sum over the size; its properties are MeanBounds and MeanOfConstant |
| DescriptiveStats.Position | src/analysis.py:147-148 | the fractional index (n − 1) q lies within the sorted sample |
| DescriptiveStats.ComputeDescriptiveStats | src/analysis.py:138-148 | n is the sample size; the other entries are defined precisely for a non-empty sample |
| DescriptiveStats.QuantileMonotone | src/analysis.py:147-148 | a larger q never gives a smaller quantile |
| DescriptiveStats.QuantileEnds | src/analysis.py:142-148 | quantile 0 is the minimum and quantile 1 the maximum |
| DescriptiveStats.QuantileBounds | src/analysis.py:142-148 | every quantile lies between the minimum and the maximum |
| DescriptiveStats.MedianIsHalfQuantile | src/analysis.py:145-148 | the median (middle element, or the mean of the two middle ones) equals the 0.5 quantile |
| DescriptiveStats.MeanBounds | src/analysis.py:142-144 | the mean lies between the minimum and the maximum |
| DescriptiveStats.MeanOfConstant | src/analysis.py:144 | the mean of a constant sample is that constant |
| DescriptiveStats.StatsOrdered | src/analysis.py:141-148 | min ≤ q25 ≤ median ≤ q75 ≤ max and min ≤ mean ≤ max |
| DescriptiveStats.StatsOfConstant | src/analysis.py:141-148 | for a constant sample every statistic equals the constant |
| DescriptiveStats.QuartilesOfThree | src/analysis.py:147-148 | the quartiles of three sorted values a, b, c are (a + b) / 2 and (b + c) / 2 |
| DescriptiveStats.Example | src/analysis.py:138-148 | the sample 5, 0, 7 has n 3, min 0, max 7, mean 4, median 5, q25 2.5, q75 6 |
| Binning.Ceil | src/analysis.py:284 | the ceiling is the least integer not below its argument |
| Binning.FreedmanDiaconisBins | src/analysis.py:277-285 | the bin count is never below ten |
| Binning.BinRule | src/analysis.py:279-285 | the rule applied to an IQR and a range never gives fewer than ten bins |
| Binning.Iqr | src/analysis.py:278 | no contract of its own: quantile 0.75 minus quantile 0.25; its properties are IqrNonNegative and ConstantSample |
| Binning.BinWidth | src/analysis.py:281 | no contract of its own: 2 IQR / n^(1/3); its property is WidthSign |
| Binning.BinCount | src/analysis.py:284-285 | no contract of its own: max(ceil(range / width), 10); its property is BinCountCovers |
| Binning.IqrNonNegative | src/analysis.py:278 | the interquartile range is never negative |
| Binning.WidthSign | src/analysis.py:281-282 | for a non-negative IQR the width is positive exactly when the IQR is not zero |
| Binning.WidthGuardUnreachable | src/analysis.py:278-283 | for every sample, width > 0 iff IQR ≠ 0, so in exact arithmetic the `bin_width <= 0` fallback adds nothing to the `iqr == 0` one |
| Binning.DegenerateSample | src/analysis.py:279-280 | a sample with zero IQR gets ten bins |
| Binning.ConstantSample | src/analysis.py:278-280 | a constant sample has zero IQR and gets ten bins |
| Binning.BinCountCovers | src/analysis.py:284-285 | max(ceil(range / width), 10) bins of that width cover the range, and no smaller count above ten does |
| Binning.BinRuleCovers | src/analysis.py:279-285 | with a positive IQR the width is positive and the count is the least one, ten at least, whose bins cover the range |
| SqliteUrl.CheckSqliteFile | src/analysis.py:523-539 | the check passes iff every way of writing the URL as `sqlite:///` + p has p empty, `:memory:`, or an existing file; so a URL without the prefix passes |
| SqliteUrl.PathOf | src/analysis.py:527 | the prefix followed by the extracted path is the URL |
| SqliteUrl.PathRoundTrip | src/analysis.py:527 | extracting the path of prefix + p gives p back |
| SqliteUrl.FailureMeansMissingFile | src/analysis.py:524-537 | a failed check means a SQLite URL whose path is neither empty nor `:memory:` and names no existing file |
| SqliteUrl.CheckOfPath | src/analysis.py:527-539 | on `sqlite:///` + p the check is: p empty, p = `:memory:`, or p exists |
| SqliteUrl.OnlyThePathMatters | src/analysis.py:531 | the check consults the file system only for the one path the URL names |
| SqliteUrl.Examples | src/analysis.py:523-539 | a PostgreSQL URL, `sqlite:///:memory:` and `sqlite:///` pass; a missing `data.db` fails |
| ExponentialSummary.Summarize | src/analysis.py:618-634 | only `expon` is summarised, and any other distribution is reported with its name and its parameters as given; a zero scale is the division error; otherwise loc and scale are `params.get` with defaults 0 and 1, rate = 1 / scale, and rate × scale = 1 |
| ExponentialSummary.OneParameterReported | src/analysis.py:619-621 | each parameter defaults independently: only a scale reported gives loc 0, only a location reported gives scale 1 and rate 1 |
| ExponentialSummary.RateIsReciprocal | src/analysis.py:621 | the rate is non-zero and the scale is 1 / rate |
| ExponentialSummary.ReportsFittedParameters | src/analysis.py:619-621 | fitted loc and scale are reported as they are, with rate 1 / scale |
| ExponentialSummary.Defaults | src/analysis.py:619-621 | a fit without parameters reports loc 0, scale 1, rate 1 |
| ExponentialSummary.PositiveRate | src/analysis.py:621 | a positive scale gives a positive rate |

## Left out

- Database access:
  - The engine, `pd.read_sql` and the `SQLAlchemyError` → `RuntimeError` mapping (src/analysis.py:67-80) are not modelled.
  - The model starts from the rows the query returns.
  - The `KeyError` for a missing column (src/analysis.py:95-104) is not modelled either. A schema is outside a model over one column.
- Interarrival.OrderAscending: it puts NULLs first, as SQLite's `ORDER BY ... ASC` does.
  - Some databases (PostgreSQL, Oracle) put NULLs last.
  - The result does not change, because every interval next to a NULL is dropped.
- `pd.to_datetime` and time zones: a timestamp is already a real number of seconds.
- Floating point: every quantity is an exact real.
  - Rounding in the mean, in the interpolation, in `2 * iqr / n ** (1/3)` and in `1.0 / scale` is not modelled.
  - ExponentialSummary.RateIsReciprocal holds exactly only in this exact model.
- Binning.FreedmanDiaconisBins:
  - The cube root `len(s) ** (1/3)` is a parameter, required to be positive.
  - The function also requires a non-empty sample. On an empty one the source computes `int(nan)` and raises.
  - Coverage and minimality are proved on Binning.BinRule, with the IQR and the range as arguments (Binning.BinRuleCovers), and not restated for a sample. The solver's non-linear arithmetic does not finish on that composition within the resource bound.
- DescriptiveStats.ComputeDescriptiveStats leaves out standard deviation, skewness and kurtosis (src/analysis.py:146, 149-150).
  - For an empty sample, pandas' NaN entries are modelled as a missing summary.
- SqliteUrl.CheckSqliteFile: `os.path.exists` is the parameter `present`, and the error log line is not modelled.
- `fit_candidate_distributions`, `compute_model_moments` (Fitter and scipy), all plotting, the printed tables, logging and the sequencing in `main` are outside the model.
- src/client.py and src/models.py are not part of this model. The nullable `DateTime` column (src/models.py:50) is why rows are optional.
