/** The data half of the speed-difference chart
    (rtdap_prototype/scripts/select.py, `vbar_chart`): per-device mean speeds
    over the corridor's rows and over the selection, joined on the device,
    devices without a positive mean on both sides dropped, and the
    differences counted in unit bins labelled -20..20. */
module Histogram {
  import opened Records

  /** The devices of a frame, each once, in first-occurrence order: the same
      devices as the keys of `groupby('FieldDeviceID')`, which pandas sorts;
      the histogram does not depend on their order. */
  function Devices(rows: seq<Record>): seq<int> {
    Distinct(seq(|rows|, i requires 0 <= i < |rows| => rows[i].device))
  }

  /** A device's NaN-skipping mean speed; missing when it has no speed. */
  function DeviceSpeed(rows: seq<Record>, dev: int): Option<real> {
    Mean(Column(Where(rows, (r: Record) => r.device == dev), Speed))
  }

  /** One row of the joined frame: the device's mean over the full rows and
      over the selected rows. */
  datatype DevicePair = DevicePair(device: int, full: real, selected: real)

  /** The devices of a frame are exactly the devices of its rows. */
  lemma DevicesMembership(rows: seq<Record>)
    ensures forall d :: d in Devices(rows) <==> exists r :: r in rows && r.device == d
  {
    var col := seq(|rows|, i requires 0 <= i < |rows| => rows[i].device);
    forall d
      ensures d in col <==> exists r :: r in rows && r.device == d
    {
      if d in col {
        var i :| 0 <= i < |col| && col[i] == d;
        assert rows[i] in rows;
      }
      if exists r :: r in rows && r.device == d {
        var r :| r in rows && r.device == d;
        var i :| 0 <= i < |rows| && rows[i] == r;
        assert col[i] == d;
      }
    }
  }

  /** The joined row of one device: its mean speed over each frame, 0 where
      it has none. */
  function JoinRow(full: seq<Record>, selected: seq<Record>, dev: int): DevicePair {
    DevicePair(dev, DeviceSpeed(full, dev).GetOr(0.0), DeviceSpeed(selected, dev).GetOr(0.0))
  }

  /** The joined rows of a list of devices, in that order. */
  function JoinOver(devs: seq<int>, full: seq<Record>, selected: seq<Record>): (j: seq<DevicePair>)
    ensures |j| == |devs|
    ensures forall i :: 0 <= i < |devs| ==> j[i] == JoinRow(full, selected, devs[i])
  {
    seq(|devs|, i requires 0 <= i < |devs| => JoinRow(full, selected, devs[i]))
  }

  /** The joined rows cover exactly the devices of the full frame's rows. */
  predicate CoversDevices(j: seq<DevicePair>, full: seq<Record>) {
    && (forall i :: 0 <= i < |j| ==> exists r :: r in full && r.device == j[i].device)
    && (forall r :: r in full ==> exists i :: 0 <= i < |j| && j[i].device == r.device)
  }

  /** The join covers exactly the devices of the full frame. */
  lemma JoinedCovers(full: seq<Record>, j: seq<DevicePair>)
    requires |j| == |Devices(full)|
    requires forall i :: 0 <= i < |j| ==> j[i].device == Devices(full)[i]
    ensures CoversDevices(j, full)
  {
    var devs := Devices(full);
    DevicesMembership(full);
    forall i | 0 <= i < |j| ensures exists r :: r in full && r.device == j[i].device {
      assert devs[i] in devs;
    }
    forall r | r in full ensures exists i :: 0 <= i < |j| && j[i].device == r.device {
      assert r.device in devs;
      var i :| 0 <= i < |devs| && devs[i] == r.device;
      assert j[i].device == r.device;
    }
  }

  /** Every joined device the selection lacks has selected side 0. */
  lemma JoinedFilled(full: seq<Record>, selected: seq<Record>, j: seq<DevicePair>)
    requires forall i :: 0 <= i < |j| ==> j[i] == JoinRow(full, selected, j[i].device)
    ensures forall i :: 0 <= i < |j| && (forall r :: r in selected ==> r.device != j[i].device) ==>
              j[i].selected == 0.0
  {
    forall i | 0 <= i < |j| && (forall r :: r in selected ==> r.device != j[i].device)
      ensures j[i].selected == 0.0
    {
      AbsentDeviceFilled(selected, j[i].device);
    }
  }

  /** The left join on the device, over the full frame's devices, followed by
      `fillna(0)` on both sides: one row per device of the full frame, each
      device once, each side its mean speed or 0 where it has none, and 0 on
      the selected side for every device the selection lacks. */
  function Joined(full: seq<Record>, selected: seq<Record>): (j: seq<DevicePair>)
    ensures |j| == |Devices(full)|
    ensures forall i, k :: 0 <= i < k < |j| ==> j[i].device != j[k].device
    ensures CoversDevices(j, full)
    ensures forall i :: 0 <= i < |j| ==>
              && j[i].full == DeviceSpeed(full, j[i].device).GetOr(0.0)
              && j[i].selected == DeviceSpeed(selected, j[i].device).GetOr(0.0)
    ensures forall i :: 0 <= i < |j| && (forall r :: r in selected ==> r.device != j[i].device) ==>
              j[i].selected == 0.0
  {
    var j := JoinOver(Devices(full), full, selected);
    JoinedCovers(full, j);
    JoinedFilled(full, selected, j);
    j
  }

  /** A device absent from the selection has selected side 0 after the join,
      so it never survives the positivity filter. */
  lemma AbsentDeviceFilled(selected: seq<Record>, dev: int)
    requires forall r :: r in selected ==> r.device != dev
    ensures DeviceSpeed(selected, dev).GetOr(0.0) == 0.0
  {
    WhereNone(selected, (r: Record) => r.device == dev);
  }

  /** The joined rows whose two means are positive. */
  predicate BothPositive(p: DevicePair) {
    p.full > 0.0 && p.selected > 0.0
  }

  /** `full - selected` for every joined row whose two means are positive
      (`loc` on the positivity mask, then a column subtraction): one
      difference per kept row. */
  function Differences(pairs: seq<DevicePair>): (ds: seq<real>)
    ensures |ds| == |Where(pairs, BothPositive)| <= |pairs|
    ensures forall d :: d in ds <==>
              exists p :: p in pairs && p.full > 0.0 && p.selected > 0.0 && d == p.full - p.selected
  {
    var kept := Where(pairs, BothPositive);
    var ds := seq(|kept|, i requires 0 <= i < |kept| => kept[i].full - kept[i].selected);
    assert forall d :: d in ds <==>
             exists p :: p in pairs && p.full > 0.0 && p.selected > 0.0 && d == p.full - p.selected by {
      forall d ensures d in ds <==>
               exists p :: p in pairs && p.full > 0.0 && p.selected > 0.0 && d == p.full - p.selected {
        if d in ds {
          var i :| 0 <= i < |ds| && ds[i] == d;
          assert kept[i] in kept;
        }
        if exists p :: p in pairs && p.full > 0.0 && p.selected > 0.0 && d == p.full - p.selected {
          var p :| p in pairs && p.full > 0.0 && p.selected > 0.0 && d == p.full - p.selected;
          assert p in kept;
          var i :| 0 <= i < |kept| && kept[i] == p;
          assert ds[i] == d;
        }
      }
    }
    ds
  }

  /** The per-device differences between the corridor's rows and the selection. */
  function SpeedDifferences(full: seq<Record>, selected: seq<Record>): seq<real> {
    Differences(Joined(full, selected))
  }

  /** `pd.cut` with edges -20..21: bin `k` is the right-closed interval (k, k+1]. */
  predicate InBin(d: real, k: int) {
    k as real < d <= (k + 1) as real
  }

  /** The one bin a value falls in. */
  function BinOf(d: real): (k: int)
    ensures InBin(d, k)
    ensures forall j :: InBin(d, j) ==> j == k
  {
    -((-d).Floor) - 1
  }

  const LOWEST_BIN := -20
  const BIN_COUNT := 41

  function CountInBin(ds: seq<real>, k: int): nat {
    |Where(ds, (d: real) => InBin(d, k))|
  }

  /** One bar: a bin's label (its lower edge) and how many devices fall in it. */
  datatype BinCount = BinCount(lower: int, devices: nat)

  /** `n` consecutive bins from `lo` upwards, empty bins included. */
  function Bins(ds: seq<real>, lo: int, n: nat): (h: seq<BinCount>)
    ensures |h| == n
    ensures forall i :: 0 <= i < n ==> h[i] == BinCount(lo + i, CountInBin(ds, lo + i))
    decreases n
  {
    if n == 0 then [] else [BinCount(lo, CountInBin(ds, lo))] + Bins(ds, lo + 1, n - 1)
  }

  /** The histogram of the differences: labels -20..20, every label present. */
  function DifferenceHistogram(ds: seq<real>): seq<BinCount> {
    Bins(ds, LOWEST_BIN, BIN_COUNT)
  }

  function CountTotal(h: seq<BinCount>): int {
    if h == [] then 0 else h[0].devices + CountTotal(h[1..])
  }

  /** The differences strictly above `lo` and at most `lo + n`. */
  function InRange(ds: seq<real>, lo: int, n: nat): seq<real> {
    Where(ds, (d: real) => lo as real < d <= (lo + n) as real)
  }

  /** One more value adds one to the total of the bins iff it lies in their range. */
  lemma {:induction false} BinsCons(d: real, rest: seq<real>, lo: int, n: nat)
    ensures CountTotal(Bins([d] + rest, lo, n)) ==
            (if lo as real < d <= (lo + n) as real then 1 else 0) + CountTotal(Bins(rest, lo, n))
    decreases n
  {
    if n > 0 {
      var ds := [d] + rest;
      assert ds[0] == d && ds[1..] == rest;
      BinsCons(d, rest, lo + 1, n - 1);
    }
  }

  lemma {:induction false} BinsOfNothing(lo: int, n: nat)
    ensures CountTotal(Bins([], lo, n)) == 0
    decreases n
  {
    if n > 0 {
      BinsOfNothing(lo + 1, n - 1);
    }
  }

  /** Every difference in range is counted in exactly one bin, and no other
      difference is counted. */
  lemma {:induction false} BinsTotal(ds: seq<real>, lo: int, n: nat)
    ensures CountTotal(Bins(ds, lo, n)) == |InRange(ds, lo, n)|
  {
    if ds == [] {
      BinsOfNothing(lo, n);
    } else {
      assert ds == [ds[0]] + ds[1..];
      BinsCons(ds[0], ds[1..], lo, n);
      BinsTotal(ds[1..], lo, n);
    }
  }

  /** The histogram counts each device at most once: its total is the number
      of differences in (-20, 21], which is at most the number of devices. */
  lemma HistogramTotal(full: seq<Record>, selected: seq<Record>)
    ensures var ds := SpeedDifferences(full, selected);
            && CountTotal(DifferenceHistogram(ds)) == |InRange(ds, LOWEST_BIN, BIN_COUNT)|
            && CountTotal(DifferenceHistogram(ds)) <= |Devices(full)|
  {
    BinsTotal(SpeedDifferences(full, selected), LOWEST_BIN, BIN_COUNT);
  }

  /** A device whose full mean is 10 and selected mean 8 is counted under
      label 1; one whose full mean is 0 is dropped. */
  lemma HistogramExample()
    ensures Differences([DevicePair(1, 10.0, 8.0), DevicePair(2, 0.0, 5.0)]) == [2.0]
    ensures BinOf(2.0) == 1
  {
    var pairs := [DevicePair(1, 10.0, 8.0), DevicePair(2, 0.0, 5.0)];
    assert pairs[1..] == [DevicePair(2, 0.0, 5.0)];
    assert InBin(2.0, 1);
  }
}
