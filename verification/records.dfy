/** The normalised sensor table: one observation per row, with the metric
    columns that may be missing (NaN in the dashboard's data frame) and the
    NaN-skipping reductions the aggregation code applies to them. */
module Records {

  /** A cell that may be missing. */
  datatype Option<+T> = None | Some(value: T) {
    /** The value, or `default` when the cell is missing (a `fillna`). */
    function GetOr(default: T): T {
      match this
      case Some(v) => v
      case None => default
    }
  }

  /** A day-of-week cell: the raw integer code, or the weekday name it was
      rewritten to during preprocessing. */
  datatype Day = DayCode(code: int) | DayName(name: string)

  /** One observation of one sensor device on one date in one hour bucket.
      Dates are ordinal day numbers. */
  datatype Record = Record(
    device: int,
    corridor: string,
    date: int,
    dow: Day,
    hour: int,
    avgSpeed: Option<real>,
    avgOccupancy: Option<real>,
    avgVolume: Option<real>,
    missingSpeed: int,
    missingOcc: int,
    missingVol: int)

  /** The three metric columns and, for each, its missing-reading column. */
  datatype Metric = Speed | Occupancy | Volume

  function Value(r: Record, m: Metric): Option<real> {
    match m
    case Speed => r.avgSpeed
    case Occupancy => r.avgOccupancy
    case Volume => r.avgVolume
  }

  function MissingCount(r: Record, m: Metric): int {
    match m
    case Speed => r.missingSpeed
    case Occupancy => r.missingOcc
    case Volume => r.missingVol
  }

  /** The column of metric `m`, row by row. */
  function Column(rows: seq<Record>, m: Metric): seq<Option<real>> {
    seq(|rows|, i requires 0 <= i < |rows| => Value(rows[i], m))
  }

  /** A boolean mask applied to a frame (`df.loc[mask]`): the elements that
      satisfy `p`, in their original order. */
  function Where<T(!new)>(xs: seq<T>, p: T -> bool): (r: seq<T>)
    ensures forall x :: x in r <==> x in xs && p(x)
    ensures |r| <= |xs|
  {
    if xs == [] then []
    else
      assert forall x :: x in xs <==> x == xs[0] || x in xs[1..];
      (if p(xs[0]) then [xs[0]] else []) + Where(xs[1..], p)
  }

  /** Masking a concatenation masks each part: the result keeps input order. */
  lemma {:induction false} WhereAppend<T(!new)>(a: seq<T>, b: seq<T>, p: T -> bool)
    ensures Where(a + b, p) == Where(a, p) + Where(b, p)
  {
    if a == [] {
      assert a + b == b;
    } else {
      var ab := a + b;
      assert ab[0] == a[0];
      assert ab[1..] == a[1..] + b;
      var head := if p(a[0]) then [a[0]] else [];
      assert Where(ab, p) == head + Where(a[1..] + b, p);
      assert Where(a, p) == head + Where(a[1..], p);
      WhereAppend(a[1..], b, p);
      assert head + (Where(a[1..], p) + Where(b, p)) == (head + Where(a[1..], p)) + Where(b, p);
    }
  }

  /** Each element is kept exactly as often as it occurs, if it satisfies `p`. */
  lemma {:induction false} WhereMultiplicity<T(!new)>(xs: seq<T>, p: T -> bool, x: T)
    ensures multiset(Where(xs, p))[x] == if p(x) then multiset(xs)[x] else 0
  {
    if xs != [] {
      assert xs == [xs[0]] + xs[1..];
      WhereMultiplicity(xs[1..], p, x);
    }
  }

  /** Two masks that agree on every element select the same rows. */
  lemma {:induction false} WhereCongruent<T(!new)>(xs: seq<T>, p: T -> bool, q: T -> bool)
    requires forall x :: x in xs ==> p(x) == q(x)
    ensures Where(xs, p) == Where(xs, q)
  {
    if xs != [] {
      assert forall x :: x in xs[1..] ==> x in xs;
      WhereCongruent(xs[1..], p, q);
    }
  }

  /** A mask every element satisfies keeps the whole sequence. */
  lemma {:induction false} WhereAll<T(!new)>(xs: seq<T>, p: T -> bool)
    requires forall x :: x in xs ==> p(x)
    ensures Where(xs, p) == xs
  {
    if xs != [] {
      assert forall x :: x in xs[1..] ==> x in xs;
      WhereAll(xs[1..], p);
    }
  }

  /** `drop_duplicates`: the distinct values, each at its first occurrence. */
  function Distinct<T(==,!new)>(xs: seq<T>): (r: seq<T>)
    ensures forall x :: x in r <==> x in xs
    ensures forall i, j :: 0 <= i < j < |r| ==> r[i] != r[j]
  {
    if xs == [] then []
    else
      var init := xs[..|xs| - 1];
      var last := xs[|xs| - 1];
      assert xs == init + [last];
      var d := Distinct(init);
      if last in d then d else d + [last]
  }

  /** The rows of one corridor (`df.loc[df['corridor'] == corr]`). */
  function CorridorRows(rows: seq<Record>, corr: string): seq<Record> {
    Where(rows, (r: Record) => r.corridor == corr)
  }

  /** A mask no element satisfies keeps nothing. */
  lemma {:induction false} WhereNone<T(!new)>(xs: seq<T>, p: T -> bool)
    requires forall x :: x in xs ==> !p(x)
    ensures Where(xs, p) == []
  {
    if xs != [] {
      assert forall x :: x in xs[1..] ==> x in xs;
      WhereNone(xs[1..], p);
    }
  }

  /** Number of non-missing cells (NaN-skipping `count`). */
  function Present(xs: seq<Option<real>>): nat {
    if xs == [] then 0
    else (if xs[0].Some? then 1 else 0) + Present(xs[1..])
  }

  /** Sum of the non-missing cells (NaN-skipping `sum`). */
  function PresentSum(xs: seq<Option<real>>): real {
    if xs == [] then 0.0
    else xs[0].GetOr(0.0) + PresentSum(xs[1..])
  }

  /** NaN-skipping `mean`: missing when no cell is present. */
  function Mean(xs: seq<Option<real>>): Option<real> {
    if Present(xs) == 0 then None
    else Some(PresentSum(xs) / Present(xs) as real)
  }

  /** The mean is missing exactly when every cell is missing. */
  lemma {:induction false} MeanMissingIff(xs: seq<Option<real>>)
    ensures Mean(xs).None? <==> forall i :: 0 <= i < |xs| ==> xs[i].None?
  {
    PresentZeroIff(xs);
  }

  lemma {:induction false} PresentZeroIff(xs: seq<Option<real>>)
    ensures Present(xs) == 0 <==> forall i :: 0 <= i < |xs| ==> xs[i].None?
  {
    if xs != [] {
      PresentZeroIff(xs[1..]);
      assert forall i :: 1 <= i < |xs| ==> xs[i] == xs[1..][i - 1];
    }
  }

  /** Summing present cells that are all at most `c` gives at most `c` per cell. */
  lemma {:induction false} SumAtMost(xs: seq<Option<real>>, c: real)
    requires forall i :: 0 <= i < |xs| && xs[i].Some? ==> xs[i].value <= c
    ensures PresentSum(xs) <= c * Present(xs) as real
  {
    if xs != [] {
      var rest := xs[1..];
      assert forall i :: 0 <= i < |rest| ==> rest[i] == xs[i + 1];
      SumAtMost(rest, c);
      var k := if xs[0].Some? then 1 else 0;
      assert Present(xs) == k + Present(rest);
      assert c * Present(xs) as real == c * k as real + c * Present(rest) as real;
    }
  }

  lemma {:induction false} SumAtLeast(xs: seq<Option<real>>, c: real)
    requires forall i :: 0 <= i < |xs| && xs[i].Some? ==> c <= xs[i].value
    ensures c * Present(xs) as real <= PresentSum(xs)
  {
    if xs != [] {
      var rest := xs[1..];
      assert forall i :: 0 <= i < |rest| ==> rest[i] == xs[i + 1];
      SumAtLeast(rest, c);
      var k := if xs[0].Some? then 1 else 0;
      assert Present(xs) == k + Present(rest);
      assert c * Present(xs) as real == c * k as real + c * Present(rest) as real;
    }
  }

  lemma SumWithin(xs: seq<Option<real>>, lo: real, hi: real)
    requires forall i :: 0 <= i < |xs| && xs[i].Some? ==> lo <= xs[i].value <= hi
    ensures lo * Present(xs) as real <= PresentSum(xs) <= hi * Present(xs) as real
  {
    SumAtMost(xs, hi);
    SumAtLeast(xs, lo);
  }

  /** Dividing a sum bounded by `lo` and `hi` per cell by the cell count
      stays within `lo` and `hi`. */
  lemma QuotientWithin(s: real, n: real, lo: real, hi: real)
    requires n > 0.0 && lo * n <= s <= hi * n
    ensures lo <= s / n <= hi
  {
    var q := s / n;
    assert q * n == s;
    assert q * n <= hi * n;
    assert lo * n <= q * n;
  }

  lemma QuotientTimes(s: real, n: real)
    requires n > 0.0
    ensures s / n * n == s
  {
  }

  /** A defined mean is the sum of the present cells over their count. */
  lemma MeanDefined(xs: seq<Option<real>>)
    requires Mean(xs).Some?
    ensures Present(xs) > 0 && Mean(xs).value == PresentSum(xs) / Present(xs) as real
  {
  }

  /** A defined mean lies between any bounds of the present cells. */
  lemma MeanBounds(xs: seq<Option<real>>, lo: real, hi: real)
    requires forall i :: 0 <= i < |xs| && xs[i].Some? ==> lo <= xs[i].value <= hi
    requires Mean(xs).Some?
    ensures lo <= Mean(xs).value <= hi
  {
    MeanDefined(xs);
    SumWithin(xs, lo, hi);
    QuotientWithin(PresentSum(xs), Present(xs) as real, lo, hi);
  }

  /** A defined mean times the number of present cells is their sum. */
  lemma MeanTimesCount(xs: seq<Option<real>>)
    requires Mean(xs).Some?
    ensures Mean(xs).value * Present(xs) as real == PresentSum(xs)
  {
    MeanDefined(xs);
    QuotientTimes(PresentSum(xs), Present(xs) as real);
  }

  /** A defined mean lies between any bounds of the present cells, and times
      the number of present cells it gives their sum. */
  lemma MeanWithin(xs: seq<Option<real>>, lo: real, hi: real)
    requires forall i :: 0 <= i < |xs| && xs[i].Some? ==> lo <= xs[i].value <= hi
    requires Mean(xs).Some?
    ensures lo <= Mean(xs).value <= hi
    ensures Mean(xs).value * Present(xs) as real == PresentSum(xs)
  {
    MeanBounds(xs, lo, hi);
    MeanTimesCount(xs);
  }
}
