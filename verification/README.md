# RTDAP dashboard: selection and aggregation core

A Dafny model of the data side of the RTDAP traffic-sensor dashboard. The dashboard loads an
hourly table of roadway-sensor observations (speed, occupancy, volume per device, corridor, date
and hour). It normalises three columns of that table once. Each time the user submits the data
review panel, it does the following:

- computes each metric's corridor-wide baseline mean;
- selects the rows that match the panel's corridor, date range, weekday and time-of-day range;
- summarises the selection per metric (Frequency, Mean, Mean Diff from the baseline, Missing
  Values);
- concatenates the summaries Speed, Occupancy, Volume;
- derives the displayed table and the mean-difference bar chart.

A per-device speed-difference histogram, built once for the initial selection, compares the
corridor's rows with the selected rows.

The model is pure functions over values. A table is a `seq<Record>`. A metric cell that may be
NaN is an `Option<real>`. Dates are ordinal day numbers. The Python code has no loops (every step
is a vectorised pandas expression), so the model has no methods.

Modules, one per component:

- `Records`: the row type, the boolean mask `Where` (`df.loc[mask]`), `Distinct`
  (`drop_duplicates`) and the NaN-skipping `Mean`.
- `Preprocess`: the loader's column rewrites (`main.py`).
- `StringOrder`: Python's string `<`, which orders `groupby` keys.
- `Selection`: `filter_selection`.
- `Aggregate`: `rtdap_avg` and `summarize_metrics`.
- `Histogram`: the data half of `vbar_chart`.
- `Chart`: the data half of `hbar_chart`.
- `Submit`: the `submit_selection` callback as a function from table and selections to the
  panel's output.

Points where the code's behaviour is easy to misread:

- Hours go to buckets as in `main.py:42-43`: 0-5 and 20-23 → 1, 6 → 2, 7-8 → 3, 9 → 4,
  10-13 → 5, 14-15 → 6, 16-17 → 7, 18-19 → 8. The tab's time-of-day legend
  (`select.py:313-323`) describes buckets 2 and 3 differently ("6pm-7am" and "7am-8am"); the
  filter uses the lookup, and so does the model.
- Histogram bins are right-closed, `(k, k+1]`, as `pd.cut` builds them, so a difference of 2
  is counted under label 1.
- An empty selection gives an empty summary, because grouping an empty frame gives no groups
  (`select.py:112`). The callback then leaves the bar chart as it was (`select.py:284`).
- A date range with its start after its end selects nothing. It is not an error.
- The three speed-difference histograms are built once, when the tab is constructed, from the
  selection of the widgets' initial values (`select.py:342-344`, `select.py:389-392`). The
  callback never rebuilds them, so `Submit.SelectionHistogram` takes the initial selection as
  its criteria and `Submit.SubmitSelection` has no histogram.

## Model

| member | source | states |
|---|---|---|
| `Preprocess.NormalizeCorridor` | rtdap_prototype/main.py:39-40 | a missing corridor and the corridor "0" become "N/A"; every other corridor is unchanged; the result is never "0" |
| `Preprocess.NormalizeCorridorIdempotent` | rtdap_prototype/main.py:39-40 | normalising a normalised corridor changes nothing |
| `Preprocess.HourBucket` | rtdap_prototype/main.py:42-43 | a value outside 0..23 is left unchanged by the replacement |
| `Preprocess.HourBucketTable` | rtdap_prototype/main.py:42-43 | the exact bucket of every hour 0..23, as hour ranges, in both directions |
| `Preprocess.HourBucketRange` | rtdap_prototype/main.py:42-43 | every hour 0..23 lands in a bucket 1..8 |
| `Preprocess.HourBucketOnto` | rtdap_prototype/main.py:42-43 | every bucket 1..8 is the bucket of some hour 0..23 |
| `Preprocess.HourBucketMonotone` | rtdap_prototype/main.py:42-43 | from hour 0 to hour 19 the bucket never decreases |
| `Preprocess.DowName` | rtdap_prototype/main.py:49 | codes 1..5 become weekday names; any other code is left unchanged |
| `Preprocess.DowNameTable` | rtdap_prototype/main.py:49 | 1..5 name Monday..Friday in order |
| `Preprocess.DowNameInjective` | rtdap_prototype/main.py:49 | distinct codes stay distinct after the rewrite |
| `Preprocess.NormalizeTable` | rtdap_prototype/main.py:39-49 | row order kept; each row's corridor, hour and day are that column's rewrite of the raw cell, and every other column, the three missing counts included, is kept; so no corridor is "0", hours 0..23 become buckets 1..8, and codes 1..5 (and only they) become names |
| `Records.Distinct` | rtdap_prototype/scripts/select.py:85 | `drop_duplicates`: the same values as the input, each once |
| `Records.MeanMissingIff` | rtdap_prototype/scripts/select.py:61 | a NaN-skipping mean is missing exactly when every cell is missing |
| `Records.MeanWithin` | rtdap_prototype/scripts/select.py:61 | a defined mean times the count of present cells is their sum, and it lies within any bounds of those cells |
| `Selection.ResolveDays` | rtdap_prototype/scripts/select.py:84-87 | for "All", the day list holds every day in the table and only those; otherwise it is the one selected day |
| `Selection.FilterSelection` | rtdap_prototype/scripts/select.py:89-92 | a row is selected iff it is in the input, has the corridor, its date is within the inclusive range, its day is the selected one (or "All" was chosen), and its bucket is within the inclusive range |
| `Selection.FilterSelectionMultiplicity` | rtdap_prototype/scripts/select.py:89-92 | each selected row appears as often as in the input; no other row appears |
| `Selection.FilterSelectionAppend` | rtdap_prototype/scripts/select.py:89-92 | the selection keeps input order: selecting from a concatenation concatenates the selections |
| `Selection.FilterAllDays` | rtdap_prototype/scripts/select.py:84-92 | with "All", the result equals the filter with the day-of-week condition removed |
| `Selection.FilterInvertedRange` | rtdap_prototype/scripts/select.py:79-92 | a start date after the end date, or a lower bucket above the upper one, selects nothing, without error |
| `Selection.FilterWidest` | rtdap_prototype/scripts/select.py:84-92 | "All" days with ranges covering every row gives back exactly the corridor's rows, in order |
| `Aggregate.BaselineDefined` | rtdap_prototype/scripts/select.py:60-61 | the baseline exists iff some row of the corridor has a value for the metric |
| `Aggregate.BaselineIsAverage` | rtdap_prototype/scripts/select.py:60-61 | a defined baseline is the sum of the corridor's present values over their count, within any bounds of those values |
| `Aggregate.MeanDiff` | rtdap_prototype/scripts/select.py:116 | Mean Diff is defined iff baseline and mean are present and the mean is non-zero; then Mean Diff × mean = baseline − mean |
| `Aggregate.MeanDiffThreshold` | rtdap_prototype/scripts/select.py:116 | for a positive mean, Mean Diff is above (below) t iff the baseline is above (below) (1 + t) × mean |
| `Aggregate.GroupKeys` | rtdap_prototype/scripts/select.py:112 | the group keys are the distinct corridors of the input, strictly ascending; empty iff the input is |
| `StringOrder.SortedKeys` | rtdap_prototype/scripts/select.py:112 | the distinct values of a key column, strictly ascending in Python's string order |
| `Aggregate.Summaries` | rtdap_prototype/scripts/select.py:112-118 | row i is the aggregate of the group of key i, labelled with the metric's name |
| `Aggregate.SummarizeMetrics` | rtdap_prototype/scripts/select.py:111-121 | one row per distinct corridor, each labelled with the metric's name and counting at least one row; empty input gives empty output |
| `Aggregate.SummarizeMetricsTotals` | rtdap_prototype/scripts/select.py:111-114 | the Frequencies add up to the input length; the Missing Values add up to the input's missing count |
| `Aggregate.SummarizeSingleCorridor` | rtdap_prototype/scripts/select.py:111-121 | rows of a single corridor give a single summary row over all of them |
| `Histogram.Joined` | rtdap_prototype/scripts/select.py:131-136 | the left join has one row per device of the full frame, no device twice, and covers exactly the full frame's devices; each side is that device's mean speed over its frame, or 0 where it has none, so a device absent from the selection has selected side 0 |
| `Histogram.AbsentDeviceFilled` | rtdap_prototype/scripts/select.py:133-136 | a device absent from the selection gets selected mean 0 after the join |
| `Histogram.Differences` | rtdap_prototype/scripts/select.py:137-138 | one difference per joined device whose two means are both > 0, so as many differences as such devices; a value is a difference iff it is full − selected for such a device |
| `Histogram.BinOf` | rtdap_prototype/scripts/select.py:141-142 | every value lies in exactly one right-closed unit bin (k, k+1] |
| `Histogram.Bins` | rtdap_prototype/scripts/select.py:141-144 | bar i has label lo + i and counts the differences d with lo + i < d ≤ lo + i + 1 |
| `Histogram.HistogramTotal` | rtdap_prototype/scripts/select.py:131-144 | the 41 bars count exactly the differences in (−20, 21], each once, so at most one per device |
| `Histogram.HistogramExample` | rtdap_prototype/scripts/select.py:137-142 | full means 10 and 0 against selected means 8 and 5 keep only the difference 2, which is counted under label 1 |
| `Chart.ColorThresholds` | rtdap_prototype/scripts/select.py:175-177 | red iff Mean Diff < −0.05, green iff > 0.05, grey otherwise, ±0.05 included |
| `Chart.OrderTable` | rtdap_prototype/scripts/select.py:170-174 | Speed ranks 2, Occupancy 1, Volume 0, any other label 0 |
| `Chart.InsertByOrder` | rtdap_prototype/scripts/select.py:178 | inserting a bar into a rank-sorted list keeps it sorted and adds exactly that bar |
| `Chart.SortByOrder` | rtdap_prototype/scripts/select.py:178 | the bars sorted ascending by rank, as a permutation of the input |
| `Chart.ChartBars` | rtdap_prototype/scripts/select.py:168-178 | the chart's bars are exactly the summary rows' bars (as a multiset, one per row), ascending by rank |
| `Chart.ChartBarsOfThree` | rtdap_prototype/scripts/select.py:170-178 | a Speed, Occupancy, Volume summary is drawn Volume, Occupancy, Speed |
| `Submit.Display` | rtdap_prototype/scripts/select.py:277-280 | the displayed Mean is the mean, or 0 when it is missing; the displayed Mean Diff is 100 × the Mean Diff, or 0 when it is missing; name, Frequency and Missing Values are unchanged |
| `Submit.SummaryTitle` | rtdap_prototype/scripts/select.py:275 | the title is the corridor's name, unchanged, between "<h1>" and " Summary</h1>" |
| `Submit.SubmitSelection` | rtdap_prototype/scripts/select.py:255-287 | the title is the selected corridor's summary title; the displayed table is the summary row by row; bars are drawn iff the summary is not empty |
| `Submit.SubmitShape` | rtdap_prototype/scripts/select.py:259-287 | an empty selection gives no summary, no table and no new bars; otherwise the summary is exactly the Speed, Occupancy and Volume aggregates of the whole selection, each with Frequency equal to the selection's size, and the bars are Volume, Occupancy, Speed |
| `Submit.SelectionHistogram` | rtdap_prototype/scripts/select.py:389-392 | the histogram built for the initial selection compares the corridor's rows with the selected rows: 41 bars labelled −20..20 in order, bar i counting the per-device differences in (−20 + i, −19 + i], and all bars together counting at most one per device of the corridor |
| `Submit.ScenarioBaseline` | rtdap_prototype/scripts/select.py:60-61 | speeds 60, 40 and 50 on corridor X give baseline 50 |
| `Submit.ScenarioSelection` | rtdap_prototype/scripts/select.py:89-92 | bucket range [1, 1] with "All" days selects the two bucket-1 rows |
| `Submit.ScenarioSummary` | rtdap_prototype/scripts/select.py:111-121 | those two rows against baseline 50 give Frequency 2, Mean 50, Mean Diff 0 and Missing Values 0 |

## Left out

- Reading the CSV file (`main.py:36`): I/O. The model starts from a sequence of raw rows.
- Building and parsing dates (`main.py:45-47`, `select.py:81-82`): dates are ordinal day numbers,
  so a malformed date string has no counterpart.
- The no-op expression at `main.py:51`.
- All Bokeh figures, widgets, layout, tile maps, the random scatter plots and the tab builders.
  They only construct the UI.
- Widget-state updates in the callback: instead of setting the title, the table and the chart
  source, the model's callback returns the title's markup, the table's rows and the chart's bars.
- The HTML formatting of the table (`to_html` with format strings): presentation only.
- The time-of-day legend text (`select.py:313-323`): display text that does not drive the bucket
  lookup.
- The `freq` column that `summarize_metrics` writes into the caller's frame (`select.py:111`).
  It is 1 on every row and only its count is used, so the model uses the group's size.
- The `corr` argument of `summarize_metrics` only names the output's index column, so it is not
  modelled. The `group` argument is always `'corridor'` in the source, so grouping is by corridor.
- Floating point: metrics are exact reals. Rounding, and values landing on a bin edge only
  because of rounding, are not modelled.
- `Aggregate.MeanDiff`: when the group mean is 0 and the baseline is not, the source computes ±inf.
  `fillna(0)` does not replace ±inf, so the displayed table shows an infinite percentage and the
  bar is coloured by its sign. The model treats every undefined Mean Diff as missing, which
  displays as 0 and is coloured grey.
- `Chart.SortByOrder`: pandas' default quicksort is not stable, but the model's sort is. The two
  can differ only on bars of equal rank, which the three labels the callback produces never
  have.
- Missing-reading counts are integers that are never missing, so the NaN handling of their `sum`
  is not modelled.
