/** The corridor baseline and the per-group summary of a selection
    (rtdap_prototype/scripts/select.py, `rtdap_avg` and `summarize_metrics`). */
module Aggregate {
  import opened Records
  import StringOrder

  /** The corridor-wide mean of one metric over the whole table, ignoring
      dates and times; missing when the corridor has no value for it. */
  function Baseline(rows: seq<Record>, corr: string, m: Metric): Option<real> {
    Mean(Column(CorridorRows(rows, corr), m))
  }

  /** The baseline exists exactly when some row of the corridor has a value. */
  lemma BaselineDefined(rows: seq<Record>, corr: string, m: Metric)
    ensures Baseline(rows, corr, m).Some? <==>
            exists i :: 0 <= i < |rows| && rows[i].corridor == corr && Value(rows[i], m).Some?
  {
    var g := CorridorRows(rows, corr);
    var col := Column(g, m);
    MeanMissingIff(col);
    if i :| 0 <= i < |rows| && rows[i].corridor == corr && Value(rows[i], m).Some? {
      assert rows[i] in g;
      var j :| 0 <= j < |g| && g[j] == rows[i];
      assert col[j].Some?;
    }
    if Baseline(rows, corr, m).Some? {
      var j :| 0 <= j < |col| && col[j].Some?;
      assert g[j] in g;
      var i :| 0 <= i < |rows| && rows[i] == g[j];
    }
  }

  /** A defined baseline is the sum of the corridor's present values divided
      by their count, so it lies within any bounds of those values. */
  lemma BaselineIsAverage(rows: seq<Record>, corr: string, m: Metric, lo: real, hi: real)
    requires forall r :: r in rows && r.corridor == corr && Value(r, m).Some? ==> lo <= Value(r, m).value <= hi
    requires Baseline(rows, corr, m).Some?
    ensures var col := Column(CorridorRows(rows, corr), m);
            && Baseline(rows, corr, m).value * Present(col) as real == PresentSum(col)
            && lo <= Baseline(rows, corr, m).value <= hi
  {
    var g := CorridorRows(rows, corr);
    var col := Column(g, m);
    assert forall i :: 0 <= i < |col| && col[i].Some? ==> lo <= col[i].value <= hi by {
      forall i | 0 <= i < |col| && col[i].Some? ensures lo <= col[i].value <= hi {
        assert g[i] in g;
      }
    }
    MeanWithin(col, lo, hi);
  }

  /** The fractional deviation of the baseline from a group mean,
      `(avg - mean) / mean`; missing when either is missing or the mean is 0. */
  function MeanDiff(avg: Option<real>, mean: Option<real>): (d: Option<real>)
    ensures d.Some? <==> avg.Some? && mean.Some? && mean.value != 0.0
    ensures d.Some? ==> d.value * mean.value == avg.value - mean.value
  {
    if avg.Some? && mean.Some? && mean.value != 0.0 then Some((avg.value - mean.value) / mean.value)
    else None
  }

  /** For a positive group mean the deviation exceeds a threshold `t` exactly
      when the baseline exceeds the mean by more than the fraction `t`, and
      falls below `t` exactly when the baseline falls short of that. */
  lemma MeanDiffThreshold(avg: real, mean: real, t: real)
    requires mean > 0.0
    ensures MeanDiff(Some(avg), Some(mean)).value > t <==> avg > (1.0 + t) * mean
    ensures MeanDiff(Some(avg), Some(mean)).value < t <==> avg < (1.0 + t) * mean
  {
    var d := MeanDiff(Some(avg), Some(mean)).value;
    assert d * mean == avg - mean;
    if d > t {
      assert d * mean > t * mean;
    }
    if d < t {
      assert d * mean < t * mean;
    }
    if d == t {
      assert d * mean == t * mean;
    }
  }

  /** A column sum with a per-row weight (the NaN-free `sum` of an integer
      column). */
  function Total(rows: seq<Record>, w: Record -> int): int {
    if rows == [] then 0 else w(rows[0]) + Total(rows[1..], w)
  }

  function MissingSum(rows: seq<Record>, m: Metric): int {
    Total(rows, r => MissingCount(r, m))
  }

  /** Counting rows is summing a weight of one per row. */
  lemma {:induction false} TotalOfOnes(rows: seq<Record>)
    ensures Total(rows, r => 1) == |rows|
  {
    if rows != [] {
      TotalOfOnes(rows[1..]);
    }
  }

  /** One output row: the group's key is replaced by the metric's label. */
  datatype SummaryRow = SummaryRow(
    name: string,
    frequency: nat,
    mean: Option<real>,
    meanDiff: Option<real>,
    missingValues: int)

  function Corridors(rows: seq<Record>): seq<string> {
    seq(|rows|, i requires 0 <= i < |rows| => rows[i].corridor)
  }

  /** The group keys of `groupby('corridor')`: the distinct corridors, sorted. */
  function GroupKeys(rows: seq<Record>): (keys: seq<string>)
    ensures StringOrder.StrictlySorted(keys)
    ensures forall k :: k in keys <==> exists r :: r in rows && r.corridor == k
    ensures keys == [] <==> rows == []
  {
    var cs := Corridors(rows);
    assert forall k :: k in cs <==> exists r :: r in rows && r.corridor == k by {
      forall k ensures k in cs <==> exists r :: r in rows && r.corridor == k {
        if k in cs {
          var i :| 0 <= i < |cs| && cs[i] == k;
          assert rows[i] in rows;
        }
        if r :| r in rows && r.corridor == k {
          var i :| 0 <= i < |rows| && rows[i] == r;
          assert cs[i] == k;
        }
      }
    }
    var keys := StringOrder.SortedKeys(cs);
    assert rows != [] ==> rows[0].corridor in keys by {
      if rows != [] {
        assert cs[0] in cs;
      }
    }
    keys
  }

  /** The aggregate of one group: row count, NaN-skipping mean of the metric,
      deviation of the baseline from that mean, sum of the missing counts. */
  function SummarizeGroup(g: seq<Record>, avg: Option<real>, m: Metric, name: string): SummaryRow {
    var mean := Mean(Column(g, m));
    SummaryRow(name, |g|, mean, MeanDiff(avg, mean), MissingSum(g, m))
  }

  /** One summary row per key, in key order. */
  function Summaries(rows: seq<Record>, keys: seq<string>, avg: Option<real>, m: Metric, name: string)
    : (out: seq<SummaryRow>)
    ensures |out| == |keys|
    ensures forall i :: 0 <= i < |keys| ==>
              out[i] == SummarizeGroup(CorridorRows(rows, keys[i]), avg, m, name)
  {
    if keys == [] then []
    else [SummarizeGroup(CorridorRows(rows, keys[0]), avg, m, name)] + Summaries(rows, keys[1..], avg, m, name)
  }

  /** `summarize_metrics` grouped by corridor: one row per distinct corridor,
      in sorted order, every row labelled with `name`. */
  function SummarizeMetrics(rows: seq<Record>, avg: Option<real>, m: Metric, name: string)
    : (out: seq<SummaryRow>)
    ensures |out| == |GroupKeys(rows)|
    ensures out == [] <==> rows == []
    ensures forall i :: 0 <= i < |out| ==> out[i].name == name && out[i].frequency > 0
  {
    var keys := GroupKeys(rows);
    var out := Summaries(rows, keys, avg, m, name);
    assert forall i :: 0 <= i < |out| ==> out[i].frequency > 0 by {
      forall i | 0 <= i < |out| ensures out[i].frequency > 0 {
        assert keys[i] in keys;
        var r :| r in rows && r.corridor == keys[i];
        assert r in CorridorRows(rows, keys[i]);
      }
    }
    out
  }

  /** Sum of one column of the summary. */
  function FrequencyTotal(out: seq<SummaryRow>): int {
    if out == [] then 0 else out[0].frequency + FrequencyTotal(out[1..])
  }

  function MissingTotal(out: seq<SummaryRow>): int {
    if out == [] then 0 else out[0].missingValues + MissingTotal(out[1..])
  }

  /** Sum over the keys of a weight summed over each key's group. */
  function KeyTotals(rows: seq<Record>, keys: seq<string>, w: Record -> int): int {
    if keys == [] then 0 else Total(CorridorRows(rows, keys[0]), w) + KeyTotals(rows, keys[1..], w)
  }

  predicate DistinctKeys(keys: seq<string>) {
    forall i, j :: 0 <= i < j < |keys| ==> keys[i] != keys[j]
  }

  /** Adding one row in front adds its weight to the one group it belongs to. */
  lemma {:induction false} KeyTotalsCons(r: Record, rest: seq<Record>, keys: seq<string>, w: Record -> int)
    requires DistinctKeys(keys)
    ensures KeyTotals([r] + rest, keys, w) ==
            (if r.corridor in keys then w(r) else 0) + KeyTotals(rest, keys, w)
  {
    if keys != [] {
      var rows := [r] + rest;
      assert rows[0] == r && rows[1..] == rest;
      var g := CorridorRows(rest, keys[0]);
      if r.corridor == keys[0] {
        assert CorridorRows(rows, keys[0]) == [r] + g;
        assert ([r] + g)[1..] == g;
        assert Total(CorridorRows(rows, keys[0]), w) == w(r) + Total(g, w);
        assert forall j :: 0 <= j < |keys[1..]| ==> keys[1..][j] == keys[j + 1];
        assert r.corridor !in keys[1..];
      } else {
        assert CorridorRows(rows, keys[0]) == g;
      }
      assert r.corridor in keys <==> r.corridor == keys[0] || r.corridor in keys[1..] by {
        assert keys == [keys[0]] + keys[1..];
      }
      KeyTotalsCons(r, rest, keys[1..], w);
    }
  }

  /** Summing each group of a partition by distinct keys sums the whole table. */
  lemma {:induction false} KeyTotalsPartition(rows: seq<Record>, keys: seq<string>, w: Record -> int)
    requires DistinctKeys(keys)
    requires forall r :: r in rows ==> r.corridor in keys
    ensures KeyTotals(rows, keys, w) == Total(rows, w)
  {
    if rows == [] {
      KeyTotalsEmpty(keys, w);
    } else {
      assert rows == [rows[0]] + rows[1..];
      assert forall r :: r in rows[1..] ==> r in rows;
      KeyTotalsCons(rows[0], rows[1..], keys, w);
      KeyTotalsPartition(rows[1..], keys, w);
    }
  }

  lemma {:induction false} KeyTotalsEmpty(keys: seq<string>, w: Record -> int)
    ensures KeyTotals([], keys, w) == 0
  {
    if keys != [] {
      KeyTotalsEmpty(keys[1..], w);
    }
  }

  /** The summary's Frequency and Missing Values columns sum the key totals. */
  lemma {:induction false} SummariesTotals(rows: seq<Record>, keys: seq<string>, avg: Option<real>, m: Metric, name: string)
    ensures FrequencyTotal(Summaries(rows, keys, avg, m, name)) == KeyTotals(rows, keys, r => 1)
    ensures MissingTotal(Summaries(rows, keys, avg, m, name)) == KeyTotals(rows, keys, r => MissingCount(r, m))
  {
    if keys != [] {
      var out := Summaries(rows, keys, avg, m, name);
      assert out[1..] == Summaries(rows, keys[1..], avg, m, name);
      TotalOfOnes(CorridorRows(rows, keys[0]));
      SummariesTotals(rows, keys[1..], avg, m, name);
    }
  }

  /** Every row of the input is counted in exactly one summary row: the
      Frequencies add up to the input length and the Missing Values to the
      input's missing count. */
  lemma SummarizeMetricsTotals(rows: seq<Record>, avg: Option<real>, m: Metric, name: string)
    ensures FrequencyTotal(SummarizeMetrics(rows, avg, m, name)) == |rows|
    ensures MissingTotal(SummarizeMetrics(rows, avg, m, name)) == MissingSum(rows, m)
  {
    var keys := GroupKeys(rows);
    assert DistinctKeys(keys) by {
      forall i, j | 0 <= i < j < |keys| ensures keys[i] != keys[j] {
        StringOrder.StrictlySortedDistinct(keys, i, j);
      }
    }
    SummariesTotals(rows, keys, avg, m, name);
    KeyTotalsPartition(rows, keys, r => 1);
    KeyTotalsPartition(rows, keys, r => MissingCount(r, m));
    TotalOfOnes(rows);
  }

  /** Rows of a single corridor form a single group: the summary is one row
      describing the whole input. */
  lemma SummarizeSingleCorridor(rows: seq<Record>, corr: string, avg: Option<real>, m: Metric, name: string)
    requires rows != [] && forall r :: r in rows ==> r.corridor == corr
    ensures SummarizeMetrics(rows, avg, m, name) == [SummarizeGroup(rows, avg, m, name)]
  {
    var cs := Corridors(rows);
    assert forall i :: 0 <= i < |cs| ==> cs[i] == corr by {
      forall i | 0 <= i < |cs| ensures cs[i] == corr {
        assert rows[i] in rows;
      }
    }
    StringOrder.SortedKeysSingle(cs, corr);
    WhereAll(rows, (r: Record) => r.corridor == corr);
  }
}
