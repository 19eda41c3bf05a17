/** The data half of the mean-difference bar chart
    (rtdap_prototype/scripts/select.py, `hbar_chart`): each summary row gets a
    rank by its metric and a colour by the sign and size of its Mean Diff, and
    the rows are sorted by rank. */
module Chart {

  /** A summary row after `fillna(0)`: every missing number reads 0. */
  datatype TableRow = TableRow(name: string, frequency: nat, mean: real, meanDiff: real, missingValues: int)

  datatype Color = Grey | Red | Green {
    function Hex(): string {
      match this
      case Grey => "#C0C0C0"
      case Red => "#FF0000"
      case Green => "#008000"
    }
  }

  /** One bar: the metric, its Mean Diff, its rank on the axis, its colour
      as the hex string the chart draws. */
  datatype Bar = Bar(kind: string, meanDiff: real, order: int, color: string)

  /** The rank column: 0 by default, then overwritten for Speed, Occupancy
      and Volume in that order. */
  function OrderOf(kind: string): int {
    var o := 0;
    var o := if kind == "Speed" then 2 else o;
    var o := if kind == "Occupancy" then 1 else o;
    if kind == "Volume" then 0 else o
  }

  /** The colour column: grey, then red below -5%, then green above +5%. */
  function ColorOf(meanDiff: real): Color {
    var c := Grey;
    var c := if meanDiff < -0.05 then Red else c;
    if meanDiff > 0.05 then Green else c
  }

  /** Red exactly below -5%, green exactly above +5%, grey in between with
      both bounds included. */
  lemma ColorThresholds(meanDiff: real)
    ensures ColorOf(meanDiff) == Red <==> meanDiff < -0.05
    ensures ColorOf(meanDiff) == Green <==> meanDiff > 0.05
    ensures ColorOf(meanDiff) == Grey <==> -0.05 <= meanDiff <= 0.05
  {
  }

  /** The ranks, including the default for any other label. */
  lemma OrderTable(kind: string)
    ensures OrderOf("Speed") == 2 && OrderOf("Occupancy") == 1 && OrderOf("Volume") == 0
    ensures kind != "Speed" && kind != "Occupancy" ==> OrderOf(kind) == 0
  {
  }

  function ToBar(row: TableRow): Bar {
    Bar(row.name, row.meanDiff, OrderOf(row.name), ColorOf(row.meanDiff).Hex())
  }

  predicate SortedByOrder(s: seq<Bar>) {
    forall i, j :: 0 <= i < j < |s| ==> s[i].order <= s[j].order
  }

  /** In a sorted list no bar ranks below the first. */
  lemma SortedHead(s: seq<Bar>)
    requires SortedByOrder(s) && s != []
    ensures forall y :: y in s ==> s[0].order <= y.order
  {
    forall y | y in s
      ensures s[0].order <= y.order
    {
      var k :| 0 <= k < |s| && s[k] == y;
      if k > 0 {
        assert s[0].order <= s[k].order;
      }
    }
  }

  /** A bar ranking no higher than every bar of a sorted list may go in front. */
  lemma SortedPrepend(x: Bar, t: seq<Bar>)
    requires SortedByOrder(t)
    requires forall y :: y in t ==> x.order <= y.order
    ensures SortedByOrder([x] + t)
  {
    var r := [x] + t;
    forall i, j | 0 <= i < j < |r|
      ensures r[i].order <= r[j].order
    {
      assert r[j] == t[j - 1];
      if i > 0 {
        assert r[i] == t[i - 1];
      } else {
        assert t[j - 1] in t;
      }
    }
  }

  /** Places `b` before the first bar of equal or higher rank. */
  function InsertByOrder(b: Bar, s: seq<Bar>): (r: seq<Bar>)
    requires SortedByOrder(s)
    ensures SortedByOrder(r)
    ensures forall x :: x in r ==> x == b || x in s
    ensures multiset(r) == multiset(s) + multiset{b}
  {
    if s == [] then [b]
    else if b.order <= s[0].order then
      SortedHead(s);
      SortedPrepend(b, s);
      [b] + s
    else
      assert s == [s[0]] + s[1..];
      SortedHead(s);
      var t := InsertByOrder(b, s[1..]);
      SortedPrepend(s[0], t);
      [s[0]] + t
  }

  /** `sort_values(by='order')`: ascending by rank, a permutation of the input. */
  function SortByOrder(s: seq<Bar>): (r: seq<Bar>)
    ensures SortedByOrder(r)
    ensures multiset(r) == multiset(s)
  {
    if s == [] then []
    else
      assert s == [s[0]] + s[1..];
      InsertByOrder(s[0], SortByOrder(s[1..]))
  }

  /** The chart's rows for a filled summary: one bar per row, ascending by
      rank. */
  function ChartBars(rows: seq<TableRow>): (bars: seq<Bar>)
    ensures SortedByOrder(bars)
    ensures |bars| == |rows|
    ensures multiset(bars) == multiset(seq(|rows|, i requires 0 <= i < |rows| => ToBar(rows[i])))
  {
    var unsorted := seq(|rows|, i requires 0 <= i < |rows| => ToBar(rows[i]));
    var bars := SortByOrder(unsorted);
    assert |bars| == |multiset(bars)| == |multiset(unsorted)| == |rows|;
    bars
  }

  lemma InsertFront(b: Bar, s: seq<Bar>)
    requires SortedByOrder(s) && (s == [] || b.order <= s[0].order)
    ensures InsertByOrder(b, s) == [b] + s
  {
  }

  lemma InsertPast(b: Bar, s: seq<Bar>)
    requires SortedByOrder(s) && s != [] && s[0].order < b.order
    ensures SortedByOrder(s[1..])
    ensures InsertByOrder(b, s) == [s[0]] + InsertByOrder(b, s[1..])
  {
  }

  lemma SortCons(x: Bar, s: seq<Bar>)
    ensures SortByOrder([x] + s) == InsertByOrder(x, SortByOrder(s))
  {
    assert ([x] + s)[0] == x && ([x] + s)[1..] == s;
  }

  lemma SortTwo(bo: Bar, bv: Bar)
    requires bo.order == 1 && bv.order == 0
    ensures SortByOrder([bo, bv]) == [bv, bo]
  {
    SortCons(bv, []);
    InsertFront(bv, []);
    assert [bo] + [bv] == [bo, bv];
    SortCons(bo, [bv]);
    InsertPast(bo, [bv]);
    InsertFront(bo, []);
  }

  lemma InsertLast(bs: Bar, bv: Bar, bo: Bar)
    requires bs.order == 2 && bo.order == 1 && bv.order == 0
    ensures InsertByOrder(bs, [bv, bo]) == [bv, bo, bs]
  {
    InsertPast(bs, [bv, bo]);
    assert [bv, bo][1..] == [bo];
    InsertPast(bs, [bo]);
    InsertFront(bs, []);
  }

  /** Three bars ranked 2, 1, 0 come out in reverse. */
  lemma SortThree(bs: Bar, bo: Bar, bv: Bar)
    requires bs.order == 2 && bo.order == 1 && bv.order == 0
    ensures SortByOrder([bs, bo, bv]) == [bv, bo, bs]
  {
    assert [bs] + [bo, bv] == [bs, bo, bv];
    SortCons(bs, [bo, bv]);
    SortTwo(bo, bv);
    InsertLast(bs, bv, bo);
  }

  /** A Speed, Occupancy, Volume summary is drawn Volume first, Speed last. */
  lemma ChartBarsOfThree(s: TableRow, o: TableRow, v: TableRow)
    requires s.name == "Speed" && o.name == "Occupancy" && v.name == "Volume"
    ensures ChartBars([s, o, v]) == [ToBar(v), ToBar(o), ToBar(s)]
  {
    OrderTable(s.name);
    var bs, bo, bv := ToBar(s), ToBar(o), ToBar(v);
    assert [bs, bo, bv] == seq(3, i requires 0 <= i < 3 => ToBar([s, o, v][i]));
    SortThree(bs, bo, bv);
  }
}
