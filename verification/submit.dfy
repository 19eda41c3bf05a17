/** The data review panel's callback (rtdap_prototype/scripts/select.py,
    `submit_selection`) as a function from the table and the panel's
    selections to what the panel shows: the three baselines, the selection,
    the three per-metric summaries concatenated Speed, Occupancy, Volume, the
    displayed table (Mean Diff in percent, missing numbers as 0) and, when the
    summary is not empty, the bars of the mean-difference chart. */
module Submit {
  import opened Records
  import opened Selection
  import opened Aggregate
  import opened Chart
  import opened Histogram

  /** What one submission produces: the summary title's markup, the summary,
      the displayed table and the chart's bars. `bars` is None when the chart
      is left as it was. */
  datatype Submission = Submission(title: string, summary: seq<SummaryRow>, table: seq<TableRow>, bars: Option<seq<Bar>>)

  /** The summary title: the corridor's name in a level-one heading. */
  function SummaryTitle(corridor: string): (t: string)
    ensures |t| == |corridor| + 17
    ensures t[..4] == "<h1>" && t[4..4 + |corridor|] == corridor && t[4 + |corridor|..] == " Summary</h1>"
  {
    "<h1>" + corridor + " Summary</h1>"
  }

  /** `fillna(0)` on one summary row. */
  function Fill(row: SummaryRow): TableRow {
    TableRow(row.name, row.frequency, row.mean.GetOr(0.0), row.meanDiff.GetOr(0.0), row.missingValues)
  }

  /** The displayed row: Mean Diff times 100, then `fillna(0)`. */
  function Display(row: SummaryRow): (t: TableRow)
    ensures t.meanDiff == 100.0 * Fill(row).meanDiff
    ensures t.name == row.name && t.frequency == row.frequency && t.missingValues == row.missingValues
    ensures t.mean == row.mean.GetOr(0.0)
    ensures row.mean.None? ==> t.mean == 0.0
    ensures row.meanDiff.None? ==> t.meanDiff == 0.0
  {
    var scaled := if row.meanDiff.Some? then Some(row.meanDiff.value * 100.0) else None;
    TableRow(row.name, row.frequency, row.mean.GetOr(0.0), scaled.GetOr(0.0), row.missingValues)
  }

  /** The three per-metric summaries of a selection, in display order. */
  function CombinedSummary(data: seq<Record>, corr: string, filtered: seq<Record>): seq<SummaryRow> {
    SummarizeMetrics(filtered, Baseline(data, corr, Speed), Speed, "Speed")
    + SummarizeMetrics(filtered, Baseline(data, corr, Occupancy), Occupancy, "Occupancy")
    + SummarizeMetrics(filtered, Baseline(data, corr, Volume), Volume, "Volume")
  }

  /** The displayed table, row by row. */
  function DisplayTable(summary: seq<SummaryRow>): (t: seq<TableRow>)
    ensures |t| == |summary|
    ensures forall i :: 0 <= i < |summary| ==> t[i] == Display(summary[i])
  {
    seq(|summary|, i requires 0 <= i < |summary| => Display(summary[i]))
  }

  /** `fillna(0)` on the whole summary, as the chart receives it. */
  function Filled(summary: seq<SummaryRow>): seq<TableRow> {
    seq(|summary|, i requires 0 <= i < |summary| => Fill(summary[i]))
  }

  function SubmitSelection(data: seq<Record>, c: Criteria): (s: Submission)
    ensures |s.table| == |s.summary|
    ensures forall i :: 0 <= i < |s.summary| ==> s.table[i] == Display(s.summary[i])
    ensures s.title == SummaryTitle(c.corridor)
    ensures s.bars.Some? <==> s.summary != []
  {
    var filtered := FilterSelection(data, c);
    var summary := CombinedSummary(data, c.corridor, filtered);
    var bars := if |summary| > 0 then Some(ChartBars(Filled(summary))) else None;
    Submission(SummaryTitle(c.corridor), summary, DisplayTable(summary), bars)
  }

  /** Rows of one corridor give one row per metric, Speed, Occupancy, Volume. */
  lemma CombinedSingleCorridor(data: seq<Record>, corr: string, f: seq<Record>)
    requires f != [] && forall r :: r in f ==> r.corridor == corr
    ensures CombinedSummary(data, corr, f) ==
            [SummarizeGroup(f, Baseline(data, corr, Speed), Speed, "Speed"),
             SummarizeGroup(f, Baseline(data, corr, Occupancy), Occupancy, "Occupancy"),
             SummarizeGroup(f, Baseline(data, corr, Volume), Volume, "Volume")]
  {
    SummarizeSingleCorridor(f, corr, Baseline(data, corr, Speed), Speed, "Speed");
    SummarizeSingleCorridor(f, corr, Baseline(data, corr, Occupancy), Occupancy, "Occupancy");
    SummarizeSingleCorridor(f, corr, Baseline(data, corr, Volume), Volume, "Volume");
  }

  /** The bars drawn for a Speed, Occupancy, Volume summary. */
  lemma BarsOfThree(speed: SummaryRow, occ: SummaryRow, vol: SummaryRow)
    requires speed.name == "Speed" && occ.name == "Occupancy" && vol.name == "Volume"
    ensures ChartBars(Filled([speed, occ, vol])) == [ToBar(Fill(vol)), ToBar(Fill(occ)), ToBar(Fill(speed))]
  {
    assert Filled([speed, occ, vol]) == [Fill(speed), Fill(occ), Fill(vol)];
    ChartBarsOfThree(Fill(speed), Fill(occ), Fill(vol));
  }

  /** The selection holds one corridor only, so the summary is empty when the
      selection is, and otherwise exactly the Speed, Occupancy and Volume rows
      of the whole selection against the corridor's baselines, each counting
      every selected row; the chart then draws Volume, Occupancy, Speed. */
  lemma SubmitShape(data: seq<Record>, c: Criteria)
    ensures var f := FilterSelection(data, c);
            var s := SubmitSelection(data, c);
            && (f == [] ==> s.summary == [] && s.table == [] && s.bars == None)
            && (f != [] ==>
                  var speed := SummarizeGroup(f, Baseline(data, c.corridor, Speed), Speed, "Speed");
                  var occ := SummarizeGroup(f, Baseline(data, c.corridor, Occupancy), Occupancy, "Occupancy");
                  var vol := SummarizeGroup(f, Baseline(data, c.corridor, Volume), Volume, "Volume");
                  && s.summary == [speed, occ, vol]
                  && speed.frequency == occ.frequency == vol.frequency == |f|
                  && s.bars == Some([ToBar(Fill(vol)), ToBar(Fill(occ)), ToBar(Fill(speed))]))
  {
    var f := FilterSelection(data, c);
    if f != [] {
      CombinedSingleCorridor(data, c.corridor, f);
      BarsOfThree(SummarizeGroup(f, Baseline(data, c.corridor, Speed), Speed, "Speed"),
                  SummarizeGroup(f, Baseline(data, c.corridor, Occupancy), Occupancy, "Occupancy"),
                  SummarizeGroup(f, Baseline(data, c.corridor, Volume), Volume, "Volume"));
    }
  }

  /** The speed-difference histogram the tab builds once, when it is
      constructed, from the selection of the widgets' initial values: the
      corridor's rows against the selected rows, all 41 labels present, each
      bar counting the devices whose difference falls in its bin, at most one
      count per device of the corridor. The callback does not rebuild it. */
  function SelectionHistogram(data: seq<Record>, c: Criteria): (h: seq<BinCount>)
    ensures |h| == BIN_COUNT
    ensures forall i :: 0 <= i < BIN_COUNT ==>
              && h[i].lower == LOWEST_BIN + i
              && h[i].devices ==
                 CountInBin(SpeedDifferences(CorridorRows(data, c.corridor), FilterSelection(data, c)), LOWEST_BIN + i)
    ensures CountTotal(h) <= |Devices(CorridorRows(data, c.corridor))|
  {
    var corridor, selected := CorridorRows(data, c.corridor), FilterSelection(data, c);
    HistogramTotal(corridor, selected);
    DifferenceHistogram(SpeedDifferences(corridor, selected))
  }

  /** A corridor "X" with three rows: speeds 60, 40, 50 in buckets 1, 1, 2. */
  const SCENARIO: seq<Record> := [
    Record(1, "X", 0, DayName("Monday"), 1, Some(60.0), None, None, 0, 0, 0),
    Record(2, "X", 0, DayName("Monday"), 1, Some(40.0), None, None, 0, 0, 0),
    Record(3, "X", 0, DayName("Monday"), 2, Some(50.0), None, None, 0, 0, 0)]

  /** The scenario's speed baseline is 50. */
  lemma ScenarioBaseline()
    ensures Baseline(SCENARIO, "X", Speed) == Some(50.0)
  {
    var rows := SCENARIO;
    assert rows[1..][1..][1..] == [];
    WhereAll(rows, (r: Record) => r.corridor == "X");
    var col := Column(rows, Speed);
    assert col == [Some(60.0), Some(40.0), Some(50.0)];
    assert col[1..][1..] == [Some(50.0)] && col[1..][1..][1..] == [];
    assert Present(col[1..][1..]) == 1 && PresentSum(col[1..][1..]) == 50.0;
    assert Present(col[1..]) == 2 && PresentSum(col[1..]) == 90.0;
  }

  /** The first bucket, on every day of the scenario's date, selects the
      first two rows. */
  lemma ScenarioSelection()
    ensures FilterSelection(SCENARIO, Criteria("X", 0, 0, ALL, 1, 1)) == SCENARIO[..2]
  {
    var rows := SCENARIO;
    assert rows[1..][1..][1..] == [];
    FilterAllDays(rows, Criteria("X", 0, 0, ALL, 1, 1));
  }

  /** Against a baseline of 50 those two rows have Frequency 2, Mean 50 and
      Mean Diff 0. */
  lemma ScenarioSummary()
    ensures SummarizeGroup(SCENARIO[..2], Some(50.0), Speed, "Speed") == SummaryRow("Speed", 2, Some(50.0), Some(0.0), 0)
  {
    var f := SCENARIO[..2];
    assert f[1..][1..] == [];
    var g := Column(f, Speed);
    assert g == [Some(60.0), Some(40.0)];
    assert g[1..] == [Some(40.0)] && g[1..][1..] == [];
    assert Present(g[1..]) == 1 && PresentSum(g[1..]) == 40.0;
    assert Present(g) == 2 && PresentSum(g) == 100.0;
    assert Total(f[1..], r => MissingCount(r, Speed)) == 0;
  }
}
