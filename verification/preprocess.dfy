/** The column rewrites applied to the sensor table once, when the dashboard
    loads it (rtdap_prototype/main.py): corridor normalisation, the hour to
    time-of-day bucket lookup and the day-code to weekday-name rewrite.
    Each rewrite is element-wise, so it is a function on one cell, and the
    table rewrite maps the three of them over the rows. */
module Preprocess {
  import opened Records

  /** The sentinel that stands for an unknown corridor. */
  const NA := "N/A"

  /** First rewrite: a missing corridor becomes the sentinel (`fillna`). */
  function FillCorridor(c: Option<string>): string {
    c.GetOr(NA)
  }

  /** Second rewrite: the corridor "0" becomes the sentinel (`np.where`). */
  function ZeroToNA(c: string): string {
    if c == "0" then NA else c
  }

  /** Both corridor rewrites, in the order the loader applies them. */
  function NormalizeCorridor(c: Option<string>): (r: string)
    ensures r != "0"
    ensures c == None || c == Some("0") ==> r == NA
    ensures c.Some? && c.value != "0" ==> r == c.value
  {
    ZeroToNA(FillCorridor(c))
  }

  /** Normalising a normalised corridor changes nothing. */
  lemma NormalizeCorridorIdempotent(c: Option<string>)
    ensures NormalizeCorridor(Some(NormalizeCorridor(c))) == NormalizeCorridor(c)
  {
  }

  /** The replacement list for hours 0..23, position by position. */
  const HOUR_BUCKETS: seq<int> := [1, 1, 1, 1, 1, 1, 2, 3, 3, 4, 5, 5, 5, 5, 6, 6, 7, 7, 8, 8, 1, 1, 1, 1]

  /** `replace(list, list)`: an hour in 0..23 becomes its bucket, any other
      value is left as it is. */
  function HourBucket(h: int): (b: int)
    ensures !(0 <= h <= 23) ==> b == h
  {
    if 0 <= h < |HOUR_BUCKETS| then HOUR_BUCKETS[h] else h
  }

  /** The lookup, stated as hour ranges. */
  lemma {:induction false} HourBucketTable(h: int)
    requires 0 <= h <= 23
    ensures (0 <= h <= 5 || 20 <= h <= 23) <==> HourBucket(h) == 1
    ensures h == 6 <==> HourBucket(h) == 2
    ensures (7 <= h <= 8) <==> HourBucket(h) == 3
    ensures h == 9 <==> HourBucket(h) == 4
    ensures (10 <= h <= 13) <==> HourBucket(h) == 5
    ensures (14 <= h <= 15) <==> HourBucket(h) == 6
    ensures (16 <= h <= 17) <==> HourBucket(h) == 7
    ensures (18 <= h <= 19) <==> HourBucket(h) == 8
  {
    if h < 6 {
      assert h == 0 || h == 1 || h == 2 || h == 3 || h == 4 || h == 5;
    } else if h < 12 {
      assert h == 6 || h == 7 || h == 8 || h == 9 || h == 10 || h == 11;
    } else if h < 18 {
      assert h == 12 || h == 13 || h == 14 || h == 15 || h == 16 || h == 17;
    } else {
      assert h == 18 || h == 19 || h == 20 || h == 21 || h == 22 || h == 23;
    }
  }

  /** Every hour of the day lands in one of the eight buckets. */
  lemma HourBucketRange(h: int)
    requires 0 <= h <= 23
    ensures 1 <= HourBucket(h) <= 8
  {
    HourBucketTable(h);
  }

  /** Every bucket is the image of some hour of the day. */
  lemma HourBucketOnto(b: int)
    requires 1 <= b <= 8
    ensures exists h :: 0 <= h <= 23 && HourBucket(h) == b
  {
    var h := if b == 1 then 0 else if b == 2 then 6 else if b == 3 then 7 else if b == 4 then 9
             else if b == 5 then 10 else if b == 6 then 14 else if b == 7 then 16 else 18;
    HourBucketTable(h);
  }

  /** From midnight to 19:59 the bucket number never decreases. */
  lemma HourBucketMonotone(h1: int, h2: int)
    requires 0 <= h1 <= h2 <= 19
    ensures HourBucket(h1) <= HourBucket(h2)
  {
    HourBucketTable(h1);
    HourBucketTable(h2);
  }

  /** The weekday names that replace the codes 1..5, in code order. */
  const DAY_NAMES: seq<string> := ["Monday", "Tuesday", "Wednesday", "Thursday", "Friday"]

  /** `replace([1..5], names)`: a code 1..5 becomes its weekday name, any
      other code is left as it is. */
  function DowName(code: int): (d: Day)
    ensures !(1 <= code <= 5) ==> d == DayCode(code)
    ensures 1 <= code <= 5 ==> d.DayName?
  {
    if 1 <= code <= |DAY_NAMES| then DayName(DAY_NAMES[code - 1]) else DayCode(code)
  }

  /** The codes name the working week from Monday. */
  lemma DowNameTable()
    ensures DowName(1) == DayName("Monday")
    ensures DowName(2) == DayName("Tuesday")
    ensures DowName(3) == DayName("Wednesday")
    ensures DowName(4) == DayName("Thursday")
    ensures DowName(5) == DayName("Friday")
  {
  }

  /** Distinct codes stay distinct after the rewrite. */
  lemma DowNameInjective(a: int, b: int)
    requires DowName(a) == DowName(b)
    ensures a == b
  {
    if 1 <= a <= 5 && 1 <= b <= 5 {
      assert DAY_NAMES[a - 1] == DAY_NAMES[b - 1];
    }
  }

  /** A row as read from the sensor file, before the rewrites; the date is
      already an ordinal day number. */
  datatype RawRecord = RawRecord(
    device: int,
    corridor: Option<string>,
    date: int,
    dow: int,
    hour: int,
    avgSpeed: Option<real>,
    avgOccupancy: Option<real>,
    avgVolume: Option<real>,
    missingSpeed: int,
    missingOcc: int,
    missingVol: int)

  function NormalizeRecord(r: RawRecord): Record {
    Record(r.device, NormalizeCorridor(r.corridor), r.date, DowName(r.dow), HourBucket(r.hour),
           r.avgSpeed, r.avgOccupancy, r.avgVolume, r.missingSpeed, r.missingOcc, r.missingVol)
  }

  /** The loader's column rewrites over the whole table: row order and every
      other column are kept, each rewritten cell is its own column's rewrite of
      the raw cell, no corridor is "0" afterwards, every hour of the day is a
      bucket 1..8 and every code 1..5 a weekday name. */
  function NormalizeTable(raw: seq<RawRecord>): (t: seq<Record>)
    ensures |t| == |raw|
    ensures forall i :: 0 <= i < |t| ==>
              && t[i].corridor == NormalizeCorridor(raw[i].corridor)
              && t[i].hour == HourBucket(raw[i].hour)
              && t[i].dow == DowName(raw[i].dow)
    ensures forall i :: 0 <= i < |t| ==>
              && t[i].missingSpeed == raw[i].missingSpeed
              && t[i].missingOcc == raw[i].missingOcc
              && t[i].missingVol == raw[i].missingVol
    ensures forall i :: 0 <= i < |t| ==>
              && t[i].corridor != "0"
              && t[i].device == raw[i].device && t[i].date == raw[i].date
              && (0 <= raw[i].hour <= 23 ==> 1 <= t[i].hour <= 8)
              && (1 <= raw[i].dow <= 5 <==> t[i].dow.DayName?)
              && Value(t[i], Speed) == raw[i].avgSpeed
              && Value(t[i], Occupancy) == raw[i].avgOccupancy
              && Value(t[i], Volume) == raw[i].avgVolume
  {
    var t := seq(|raw|, i requires 0 <= i < |raw| => NormalizeRecord(raw[i]));
    assert forall i :: 0 <= i < |t| && 0 <= raw[i].hour <= 23 ==> 1 <= t[i].hour <= 8 by {
      forall i | 0 <= i < |t| && 0 <= raw[i].hour <= 23 {
        HourBucketRange(raw[i].hour);
      }
    }
    t
  }
}
