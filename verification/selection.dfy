/** The selection filter of the data review panel
    (rtdap_prototype/scripts/select.py, `filter_selection`): the rows of one
    corridor within an inclusive date range, on one weekday or on any, and
    within an inclusive range of time-of-day buckets. */
module Selection {
  import opened Records

  /** The day-of-week widget's value that selects every day in the table. */
  const ALL := DayName("All")

  /** The panel's selections. Dates are ordinal day numbers; `weekday` is the
      day-of-week widget's value; the time of day is a pair of bucket bounds. */
  datatype Criteria = Criteria(
    corridor: string,
    dateStart: int,
    dateEnd: int,
    weekday: Day,
    todStart: int,
    todEnd: int)

  function Dows(rows: seq<Record>): seq<Day> {
    seq(|rows|, i requires 0 <= i < |rows| => rows[i].dow)
  }

  /** The weekday list the mask tests against: the distinct days of the same
      table for "All", otherwise the one selected day. */
  function ResolveDays(rows: seq<Record>, weekday: Day): (days: seq<Day>)
    ensures weekday == ALL ==> forall r :: r in rows ==> r.dow in days
    ensures weekday == ALL ==> forall d :: d in days ==> exists r :: r in rows && r.dow == d
    ensures weekday != ALL ==> days == [weekday]
  {
    if weekday == ALL then
      var ds := Dows(rows);
      assert forall r :: r in rows ==> r.dow in ds by {
        forall r | r in rows ensures r.dow in ds {
          var i :| 0 <= i < |rows| && rows[i] == r;
          assert ds[i] == r.dow;
        }
      }
      Distinct(ds)
    else [weekday]
  }

  /** The four conjuncts of the mask, with the weekday list already resolved. */
  predicate Matches(r: Record, c: Criteria, days: seq<Day>) {
    && r.corridor == c.corridor
    && c.dateStart <= r.date <= c.dateEnd
    && r.dow in days
    && c.todStart <= r.hour <= c.todEnd
  }

  /** The mask without its day-of-week conjunct. */
  predicate MatchesAnyDay(r: Record, c: Criteria) {
    && r.corridor == c.corridor
    && c.dateStart <= r.date <= c.dateEnd
    && c.todStart <= r.hour <= c.todEnd
  }

  /** The selected rows: exactly the rows satisfying all four conditions. */
  function FilterSelection(rows: seq<Record>, c: Criteria): (sel: seq<Record>)
    ensures forall x :: x in sel <==>
              && x in rows
              && x.corridor == c.corridor
              && c.dateStart <= x.date <= c.dateEnd
              && (c.weekday == ALL || x.dow == c.weekday)
              && c.todStart <= x.hour <= c.todEnd
  {
    var days := ResolveDays(rows, c.weekday);
    Where(rows, r => Matches(r, c, days))
  }

  /** Each matching row is kept as often as it occurs, and no other row is. */
  lemma FilterSelectionMultiplicity(rows: seq<Record>, c: Criteria, x: Record)
    ensures multiset(FilterSelection(rows, c))[x] ==
            if x in FilterSelection(rows, c) then multiset(rows)[x] else 0
  {
    var days := ResolveDays(rows, c.weekday);
    WhereMultiplicity(rows, r => Matches(r, c, days), x);
    if !Matches(x, c, days) && x in rows {
      assert x !in FilterSelection(rows, c);
    }
  }

  /** With "All" the day-of-week condition excludes nothing: the result is the
      filter without it. */
  lemma FilterAllDays(rows: seq<Record>, c: Criteria)
    requires c.weekday == ALL
    ensures FilterSelection(rows, c) == Where(rows, r => MatchesAnyDay(r, c))
  {
    var days := ResolveDays(rows, c.weekday);
    WhereCongruent(rows, r => Matches(r, c, days), r => MatchesAnyDay(r, c));
  }

  /** The selection keeps input order: selecting from a concatenation is the
      concatenation of the selections, for a specific day and for "All". */
  lemma FilterSelectionAppend(a: seq<Record>, b: seq<Record>, c: Criteria)
    ensures FilterSelection(a + b, c) == FilterSelection(a, c) + FilterSelection(b, c)
  {
    if c.weekday == ALL {
      FilterAllDays(a + b, c);
      FilterAllDays(a, c);
      FilterAllDays(b, c);
      WhereAppend(a, b, r => MatchesAnyDay(r, c));
    } else {
      WhereAppend(a, b, r => Matches(r, c, [c.weekday]));
    }
  }

  /** An inverted date range or bucket range selects nothing, without error. */
  lemma FilterInvertedRange(rows: seq<Record>, c: Criteria)
    requires c.dateStart > c.dateEnd || c.todStart > c.todEnd
    ensures FilterSelection(rows, c) == []
  {
    var days := ResolveDays(rows, c.weekday);
    WhereNone(rows, r => Matches(r, c, days));
  }

  /** The widest selection (every date and bucket the rows use, "All" days)
      gives back the corridor's rows, in their order. */
  lemma FilterWidest(rows: seq<Record>, c: Criteria)
    requires c.weekday == ALL
    requires forall r :: r in rows ==> c.dateStart <= r.date <= c.dateEnd && c.todStart <= r.hour <= c.todEnd
    ensures FilterSelection(rows, c) == CorridorRows(rows, c.corridor)
  {
    FilterAllDays(rows, c);
    WhereCongruent(rows, r => MatchesAnyDay(r, c), (r: Record) => r.corridor == c.corridor);
  }
}
