/** forecast_top10_zones.py: the data preparation around the per-zone
    forecaster. A zone's rows are sorted by date and given lag features,
    rows with a missing feature are dropped, short zones are skipped, the
    rest are split walk-forward into train and test, and the ten busiest
    zones are ranked by total trips. The trained model and its error
    measure are parameters. */
module Forecast {
  import opened Wrappers
  import opened Sorting
  import DailyAggregate

  const TEST_DAYS: nat := 14
  /** A zone needs at least this many complete rows (`TEST_DAYS + 15`). */
  const MIN_ROWS: nat := TEST_DAYS + 15
  /** A zone needs at least this many training rows. */
  const MIN_TRAIN: nat := 10
  const TOP_N: nat := 10

  /** One row of the daily table: midnight date (ns), zone, daily_trips and
      the three rolling means, which the table may lack. */
  datatype DayRow = DayRow(date: int, zone: int, trips: int,
                           mean1h: Option<real>, mean6h: Option<real>, mean24h: Option<real>)

  /** A day row with the lag_1, lag_7 and lag_14 columns added. */
  datatype FeatureRow = FeatureRow(day: DayRow, lag1: Option<int>, lag7: Option<int>, lag14: Option<int>)

  /** The rows of `s` that satisfy `p`, in their order. */
  function Filter<T(!new)>(s: seq<T>, p: T -> bool): (r: seq<T>)
    ensures |r| <= |s|
  {
    if s == [] then []
    else (if p(s[0]) then [s[0]] else []) + Filter(s[1..], p)
  }

  /** The filter keeps exactly the rows that satisfy `p`. */
  lemma {:induction false} FilterMembers<T(!new)>(s: seq<T>, p: T -> bool)
    ensures forall x :: x in Filter(s, p) <==> x in s && p(x)
  {
    if s != [] {
      FilterMembers(s[1..], p);
      assert s == [s[0]] + s[1..];
    }
  }

  /** When `q` is the negation of `p`, the rows passing `p` and the rows
      passing `q` are, together, `s`. */
  lemma {:induction false} FilterSplit<T(!new)>(s: seq<T>, p: T -> bool, q: T -> bool)
    requires forall x :: q(x) == !p(x)
    ensures multiset(Filter(s, p)) + multiset(Filter(s, q)) == multiset(s)
  {
    if s != [] {
      var h, t := s[0], s[1..];
      FilterSplit(t, p, q);
      assert s == [h] + t;
      assert multiset(s) == multiset{h} + multiset(t);
      if p(h) {
        assert Filter(s, p) == [h] + Filter(t, p);
        assert Filter(s, q) == Filter(t, q);
      } else {
        assert Filter(s, p) == Filter(t, p);
        assert Filter(s, q) == [h] + Filter(t, q);
      }
    }
  }

  /** Filtering keeps a duplicate-free sequence duplicate-free. */
  lemma {:induction false} FilterNoDup<T(!new)>(s: seq<T>, p: T -> bool)
    requires NoDup(s)
    ensures NoDup(Filter(s, p))
  {
    if s != [] {
      assert NoDup(s[1..]);
      FilterNoDup(s[1..], p);
      FilterMembers(s[1..], p);
      assert s[0] !in s[1..];
      assert s[0] !in Filter(s[1..], p);
    }
  }

  /** Filtering a sequence extended by one element. */
  lemma {:induction false} FilterSnoc<T(!new)>(s: seq<T>, x: T, p: T -> bool)
    ensures Filter(s + [x], p) == Filter(s, p) + (if p(x) then [x] else [])
  {
    if s == [] {
      assert [x][1..] == [];
    } else {
      assert (s + [x])[1..] == s[1..] + [x];
      FilterSnoc(s[1..], x, p);
    }
  }

  /** Leading rows that fail `p` make no difference to the filter. */
  lemma {:induction false} FilterSkipsPrefix<T(!new)>(s: seq<T>, p: T -> bool, n: nat)
    requires n <= |s| && forall i :: 0 <= i < n ==> !p(s[i])
    ensures Filter(s, p) == Filter(s[n..], p)
  {
    if n > 0 {
      FilterSkipsPrefix(s[1..], p, n - 1);
      assert s[1..][n - 1..] == s[n..];
    }
  }

  // ---------------------------------------------------------------------
  // make_zone_features: sort by date, then shift daily_trips
  // ---------------------------------------------------------------------

  function Nones(n: nat): (r: seq<Option<int>>)
    ensures |r| == n && forall i :: 0 <= i < n ==> r[i] == None
  {
    if n == 0 then [] else Nones(n - 1) + [None]
  }

  function Somes(xs: seq<int>): (r: seq<Option<int>>)
    ensures |r| == |xs| && forall i :: 0 <= i < |xs| ==> r[i] == Some(xs[i])
  {
    if xs == [] then [] else Somes(xs[..|xs| - 1]) + [Some(xs[|xs| - 1])]
  }

  /** pandas `Series.shift(k)`: k missing values, then the series without
      its last k entries. Entry i is entry i - k of the input, or missing
      when i < k. */
  function Shift(xs: seq<int>, k: nat): (r: seq<Option<int>>)
    ensures |r| == |xs|
    ensures forall i :: 0 <= i < |xs| ==> r[i] == (if i < k then None else Some(xs[i - k]))
  {
    if k >= |xs| then Nones(|xs|) else Nones(k) + Somes(xs[..|xs| - k])
  }

  predicate DateLe(a: DayRow, b: DayRow) {
    a.date <= b.date
  }

  function TripsOf(rows: seq<DayRow>): (t: seq<int>)
    ensures |t| == |rows| && forall i :: 0 <= i < |rows| ==> t[i] == rows[i].trips
  {
    seq(|rows|, i requires 0 <= i < |rows| => rows[i].trips)
  }

  function Days(fs: seq<FeatureRow>): (d: seq<DayRow>)
    ensures |d| == |fs| && forall i :: 0 <= i < |fs| ==> d[i] == fs[i].day
  {
    seq(|fs|, i requires 0 <= i < |fs| => fs[i].day)
  }

  /** The lag columns over rows already in date order: lag_k of row i is
      daily_trips of row i - k, missing for the first k rows. */
  function WithLags(s: seq<DayRow>): (r: seq<FeatureRow>)
    ensures |r| == |s| && forall i :: 0 <= i < |s| ==> r[i].day == s[i]
    ensures forall i :: 0 <= i < |r| ==>
              && r[i].lag1 == (if i < 1 then None else Some(s[i - 1].trips))
              && r[i].lag7 == (if i < 7 then None else Some(s[i - 7].trips))
              && r[i].lag14 == (if i < 14 then None else Some(s[i - 14].trips))
  {
    var t := TripsOf(s);
    var l1, l7, l14 := Shift(t, 1), Shift(t, 7), Shift(t, 14);
    seq(|s|, i requires 0 <= i < |s| => FeatureRow(s[i], l1[i], l7[i], l14[i]))
  }

  /** `make_zone_features`: the zone's rows in date order (ties in any
      order), each with lag_k equal to daily_trips k rows earlier, or
      missing for the first k rows; k is 1, 7 and 14. */
  function MakeZoneFeatures(rows: seq<DayRow>): (r: seq<FeatureRow>)
    ensures |r| == |rows| && multiset(Days(r)) == multiset(rows)
    ensures forall i, j :: 0 <= i < j < |r| ==> r[i].day.date <= r[j].day.date
    ensures forall i :: 0 <= i < |r| ==>
              && r[i].lag1 == (if i < 1 then None else Some(r[i - 1].day.trips))
              && r[i].lag7 == (if i < 7 then None else Some(r[i - 7].day.trips))
              && r[i].lag14 == (if i < 14 then None else Some(r[i - 14].day.trips))
  {
    var s := SortBy(rows, DateLe);
    var r := WithLags(s);
    assert Days(r) == s;
    r
  }

  /** No feature column is missing (the calendar columns never are). */
  predicate Complete(f: FeatureRow) {
    && f.lag1.Some? && f.lag7.Some? && f.lag14.Some?
    && f.day.mean1h.Some? && f.day.mean6h.Some? && f.day.mean24h.Some?
  }

  /** Dropping the rows with a missing feature column. */
  function DropIncomplete(fs: seq<FeatureRow>): seq<FeatureRow> {
    Filter(fs, Complete)
  }

  /** The first 14 date-ordered rows of a zone always lack lag_14, so the
      drop removes them: 14 rows or fewer leave nothing, and otherwise only
      rows from the 15th on are kept. */
  lemma DropRemovesFirstFourteen(rows: seq<DayRow>)
    ensures var f := MakeZoneFeatures(rows);
            && (|f| <= 14 ==> DropIncomplete(f) == [])
            && (|f| > 14 ==> DropIncomplete(f) == DropIncomplete(f[14..]) && |DropIncomplete(f)| <= |f| - 14)
  {
    var f := MakeZoneFeatures(rows);
    assert forall i :: 0 <= i < |f| && i < 14 ==> f[i].lag14 == None;
    DropSkipsMissingLag(f);
  }

  /** Rows at the front that lack lag_14 are dropped. */
  lemma DropSkipsMissingLag(f: seq<FeatureRow>)
    requires forall i :: 0 <= i < |f| && i < 14 ==> f[i].lag14 == None
    ensures |f| <= 14 ==> DropIncomplete(f) == []
    ensures |f| > 14 ==> DropIncomplete(f) == DropIncomplete(f[14..]) && |DropIncomplete(f)| <= |f| - 14
  {
    if |f| > 14 {
      FilterSkipsPrefix(f, Complete, 14);
    } else {
      FilterSkipsPrefix(f, Complete, |f|);
      assert f[|f|..] == [];
    }
  }

  // ---------------------------------------------------------------------
  // Per-zone eligibility and the walk-forward split
  // ---------------------------------------------------------------------

  /** The table's rows of zone z, in table order. */
  function ZoneRows(table: seq<DayRow>, z: int): seq<DayRow> {
    Filter(table, (r: DayRow) => r.zone == z)
  }

  /** `_zdf` after the drop: the zone's complete feature rows, by date. */
  function ZoneFrame(table: seq<DayRow>, z: int): seq<FeatureRow> {
    DropIncomplete(MakeZoneFeatures(ZoneRows(table, z)))
  }

  function MaxDate(fs: seq<FeatureRow>): (m: int)
    requires |fs| > 0
  {
    if |fs| == 1 then fs[0].day.date
    else
      var m := MaxDate(fs[1..]);
      if fs[0].day.date >= m then fs[0].day.date else m
  }

  /** The latest date bounds every date and is the date of some row. */
  lemma {:induction false} MaxDateIsMax(fs: seq<FeatureRow>) returns (i: nat)
    requires |fs| > 0
    ensures forall k :: 0 <= k < |fs| ==> fs[k].day.date <= MaxDate(fs)
    ensures i < |fs| && fs[i].day.date == MaxDate(fs)
  {
    if |fs| == 1 {
      i := 0;
    } else {
      var j := MaxDateIsMax(fs[1..]);
      assert forall k :: 1 <= k < |fs| ==> fs[k] == fs[1..][k - 1];
      i := if fs[0].day.date >= MaxDate(fs[1..]) then 0 else j + 1;
    }
  }

  /** The latest date minus TEST_DAYS - 1 days. */
  function Cutoff(fs: seq<FeatureRow>): int
    requires |fs| > 0
  {
    MaxDate(fs) - (TEST_DAYS - 1) * DailyAggregate.NS_PER_DAY
  }

  function Train(fs: seq<FeatureRow>, cutoff: int): seq<FeatureRow> {
    Filter(fs, (f: FeatureRow) => f.day.date < cutoff)
  }

  function Test(fs: seq<FeatureRow>, cutoff: int): seq<FeatureRow> {
    Filter(fs, (f: FeatureRow) => f.day.date >= cutoff)
  }

  /** The split at the cutoff: train and test are disjoint and together
      are the zone's rows, every train date is before every test date, test
      holds the latest row, so it is never empty, and test spans at most the
      last 14 days. */
  lemma SplitFacts(fs: seq<FeatureRow>)
    requires |fs| > 0
    ensures var c := Cutoff(fs);
            && multiset(Train(fs, c)) + multiset(Test(fs, c)) == multiset(fs)
            && (forall a, b :: a in Train(fs, c) && b in Test(fs, c) ==> a.day.date < b.day.date)
            && (forall b :: b in Test(fs, c) ==> MaxDate(fs) - 13 * DailyAggregate.NS_PER_DAY <= b.day.date <= MaxDate(fs))
            && |Test(fs, c)| >= 1
  {
    var c := Cutoff(fs);
    FilterSplit(fs, (f: FeatureRow) => f.day.date < c, (f: FeatureRow) => f.day.date >= c);
    FilterMembers(fs, (f: FeatureRow) => f.day.date < c);
    FilterMembers(fs, (f: FeatureRow) => f.day.date >= c);
    var test := Test(fs, c);
    var i := MaxDateIsMax(fs);
    forall b | b in test ensures b.day.date <= MaxDate(fs) {
      var k :| 0 <= k < |fs| && fs[k] == b;
    }
    assert fs[i] in test;
  }

  /** What the loop does with a zone: skip it, or fit on train and score on test. */
  datatype Plan = Skip | Fit(train: seq<FeatureRow>, test: seq<FeatureRow>)

  /** One pass of the per-zone loop up to the model. */
  function PlanZone(table: seq<DayRow>, z: int): Plan {
    PlanFrame(ZoneFrame(table, z))
  }

  /** Skip a frame with fewer than `MIN_ROWS` rows, then split it at the
      cutoff and skip it when train has fewer than `MIN_TRAIN` rows or test
      is empty. */
  function PlanFrame(zdf: seq<FeatureRow>): Plan {
    if |zdf| < MIN_ROWS then Skip
    else
      var c := Cutoff(zdf);
      var train, test := Train(zdf, c), Test(zdf, c);
      if |train| < MIN_TRAIN || |test| < 1 then Skip else Fit(train, test)
  }

  /** A frame is skipped exactly when it has fewer than 29 rows or fewer
      than 10 of them fall before the cutoff (test is never empty); a fitted
      frame's train and test split its rows, with every train date before
      every test date. */
  lemma PlanFrameFacts(zdf: seq<FeatureRow>)
    ensures PlanFrame(zdf).Skip? <==> (|zdf| < MIN_ROWS || |Train(zdf, Cutoff(zdf))| < MIN_TRAIN)
    ensures match PlanFrame(zdf)
              case Skip => true
              case Fit(train, test) =>
                && multiset(train) + multiset(test) == multiset(zdf)
                && (forall a, b :: a in train && b in test ==> a.day.date < b.day.date)
                && |train| >= MIN_TRAIN && |test| >= 1
  {
    if |zdf| >= MIN_ROWS {
      SplitFacts(zdf);
    }
  }

  /** Every feature row is built on one of the input day rows. */
  lemma FeatureRowFromInput(rows: seq<DayRow>, x: FeatureRow)
    requires x in MakeZoneFeatures(rows)
    ensures x.day in rows
  {
    var f := MakeZoneFeatures(rows);
    var i :| 0 <= i < |f| && f[i] == x;
    assert Days(f)[i] == x.day;
    assert x.day in multiset(Days(f));
  }

  /** Every row of a zone's frame belongs to that zone and has no missing
      feature. */
  lemma ZoneFrameRows(table: seq<DayRow>, z: int)
    ensures forall x :: x in ZoneFrame(table, z) ==> x.day.zone == z && Complete(x)
  {
    var rows := ZoneRows(table, z);
    FilterMembers(table, (r: DayRow) => r.zone == z);
    FilterMembers(MakeZoneFeatures(rows), Complete);
    forall x | x in ZoneFrame(table, z) ensures x.day.zone == z && Complete(x) {
      FeatureRowFromInput(rows, x);
    }
  }

  // ---------------------------------------------------------------------
  // Top-10 ranking
  // ---------------------------------------------------------------------

  function ZoneColumn(table: seq<DayRow>): (zs: seq<int>)
    ensures |zs| == |table| && forall i :: 0 <= i < |table| ==> zs[i] == table[i].zone
  {
    seq(|table|, i requires 0 <= i < |table| => table[i].zone)
  }

  /** The table's zones, each once, in order of first appearance. */
  function DistinctZones(table: seq<DayRow>): seq<int> {
    UniqueInOrder(ZoneColumn(table))
  }

  /** The sum of daily_trips over one zone's rows. */
  function ZoneTotal(table: seq<DayRow>, z: int): int {
    if table == [] then 0
    else (if table[0].zone == z then table[0].trips else 0) + ZoneTotal(table[1..], z)
  }

  /** Descending order of the zone totals, as an order on zones. */
  function ByTotalDesc(table: seq<DayRow>): (int, int) -> bool {
    (a: int, b: int) => ZoneTotal(table, a) >= ZoneTotal(table, b)
  }

  lemma ByTotalDescIsTotalPreorder(table: seq<DayRow>)
    ensures TotalPreorder(ByTotalDesc(table))
  {
  }

  /** The first ten zones of that order. */
  function Top10(table: seq<DayRow>): seq<int> {
    ByTotalDescIsTotalPreorder(table);
    var s := SortBy(DistinctZones(table), ByTotalDesc(table));
    if |s| <= TOP_N then s else s[..TOP_N]
  }

  /** The ranking holds min(10, #zones) distinct zones of the table, by
      non-increasing total, and no zone left out has a larger total than a
      zone in the list. */
  lemma Top10Facts(table: seq<DayRow>)
    ensures var top, zs := Top10(table), DistinctZones(table);
            && |top| == (if |zs| <= TOP_N then |zs| else TOP_N)
            && NoDup(top)
            && (forall z :: z in top ==> exists i :: 0 <= i < |table| && table[i].zone == z)
            && (forall i, j :: 0 <= i < j < |top| ==> ZoneTotal(table, top[i]) >= ZoneTotal(table, top[j]))
            && (forall z, y :: z in zs && z !in top && y in top ==> ZoneTotal(table, z) <= ZoneTotal(table, y))
  {
    ByTotalDescIsTotalPreorder(table);
    var zs := DistinctZones(table);
    var s := SortBy(zs, ByTotalDesc(table));
    var top := Top10(table);
    assert top == s[..|top|];
    PermutationKeepsNoDup(zs, s);
    TopZonesOccur(table, s, top);
    TopBeatsRest(table, s, top);
    TopOrdered(table, s, top);
  }

  /** A prefix of the ranking is in non-increasing order of total. */
  lemma TopOrdered(table: seq<DayRow>, s: seq<int>, top: seq<int>)
    requires SortedBy(s, ByTotalDesc(table))
    requires |top| <= |s| && top == s[..|top|]
    ensures forall i, j :: 0 <= i < j < |top| ==> ZoneTotal(table, top[i]) >= ZoneTotal(table, top[j])
  {
    forall i, j | 0 <= i < j < |top| ensures ZoneTotal(table, top[i]) >= ZoneTotal(table, top[j]) {
      assert ByTotalDesc(table)(s[i], s[j]);
    }
  }

  /** Every zone of a prefix of the ranked zones occurs in the table. */
  lemma TopZonesOccur(table: seq<DayRow>, s: seq<int>, top: seq<int>)
    requires multiset(s) == multiset(DistinctZones(table))
    requires |top| <= |s| && top == s[..|top|]
    ensures forall z :: z in top ==> exists i :: 0 <= i < |table| && table[i].zone == z
  {
    forall z | z in top ensures exists i :: 0 <= i < |table| && table[i].zone == z {
      assert z in s;
      assert z in multiset(DistinctZones(table));
      assert z in ZoneColumn(table);
      var i :| 0 <= i < |table| && ZoneColumn(table)[i] == z;
    }
  }

  /** A zone outside a prefix of the ranking has no larger total than any
      zone inside it. */
  lemma TopBeatsRest(table: seq<DayRow>, s: seq<int>, top: seq<int>)
    requires SortedBy(s, ByTotalDesc(table)) && NoDup(s)
    requires multiset(s) == multiset(DistinctZones(table))
    requires |top| <= |s| && top == s[..|top|]
    ensures forall z, y :: z in DistinctZones(table) && z !in top && y in top ==> ZoneTotal(table, z) <= ZoneTotal(table, y)
  {
    forall z, y | z in DistinctZones(table) && z !in top && y in top
      ensures ZoneTotal(table, z) <= ZoneTotal(table, y)
    {
      assert z in multiset(DistinctZones(table));
      assert z in multiset(s);
      var j :| 0 <= j < |s| && s[j] == z;
      var i :| 0 <= i < |top| && top[i] == y;
      if j < |top| {
        assert false;
      }
      assert ByTotalDesc(table)(s[i], s[j]);
    }
  }

  // ---------------------------------------------------------------------
  // The per-zone loop
  // ---------------------------------------------------------------------

  /** The entry `zone_results[z]`: test dates, actual trips, predictions. */
  datatype ZoneResult<P> = ZoneResult(dates: seq<int>, actual: seq<int>, pred: P)

  function TestDates(fs: seq<FeatureRow>): (d: seq<int>)
    ensures |d| == |fs| && forall i :: 0 <= i < |fs| ==> d[i] == fs[i].day.date
  {
    seq(|fs|, i requires 0 <= i < |fs| => fs[i].day.date)
  }

  function Actual(fs: seq<FeatureRow>): (a: seq<int>)
    ensures |a| == |fs| && forall i :: 0 <= i < |fs| ==> a[i] == fs[i].day.trips
  {
    seq(|fs|, i requires 0 <= i < |fs| => fs[i].day.trips)
  }

  /** The per-zone preparation of the loop, as a function of the zone. */
  function PlanOf(table: seq<DayRow>): int -> Plan {
    (z: int) => PlanZone(table, z)
  }

  /** The zones among `zs` that `planOf` does not skip, in loop order. */
  function Evaluated(zs: seq<int>, planOf: int -> Plan): seq<int> {
    Filter(zs, (z: int) => planOf(z).Fit?)
  }

  /** `_mae_z` of a fitted plan, `predict` standing for LightGBM training
      and clipped prediction, `mae` for the error measure. */
  function PlanMae<P>(p: Plan, predict: (seq<FeatureRow>, seq<FeatureRow>) -> P,
                      mae: (seq<int>, P) -> real): real
    requires p.Fit?
  {
    mae(Actual(p.test), predict(p.train, p.test))
  }

  /** The entry `zone_results[z]` of a fitted plan. */
  function PlanResult<P>(p: Plan, predict: (seq<FeatureRow>, seq<FeatureRow>) -> P): ZoneResult<P>
    requires p.Fit?
  {
    ZoneResult(TestDates(p.test), Actual(p.test), predict(p.train, p.test))
  }

  /** What the loop appends to `all_zone_maes` over the zones `zs`. */
  function MaesOf<P>(zs: seq<int>, planOf: int -> Plan,
                     predict: (seq<FeatureRow>, seq<FeatureRow>) -> P,
                     mae: (seq<int>, P) -> real): seq<real>
  {
    if zs == [] then []
    else
      var p := planOf(zs[|zs| - 1]);
      MaesOf(zs[..|zs| - 1], planOf, predict, mae) + (if p.Fit? then [PlanMae(p, predict, mae)] else [])
  }

  /** What the loop stores in `zone_results` over the zones `zs`. */
  function ResultsOf<P>(zs: seq<int>, planOf: int -> Plan, top10: seq<int>,
                        predict: (seq<FeatureRow>, seq<FeatureRow>) -> P): map<int, ZoneResult<P>>
  {
    if zs == [] then map[]
    else
      var m := ResultsOf(zs[..|zs| - 1], planOf, top10, predict);
      var z := zs[|zs| - 1];
      if planOf(z).Fit? && z in top10 then m[z := PlanResult(planOf(z), predict)] else m
  }

  /** `all_zone_maes` holds one entry per fitted zone, in loop order: entry
      k is the error of the k-th fitted zone. */
  lemma {:induction false} MaesAreFittedZones<P>(zs: seq<int>, planOf: int -> Plan, k: nat,
                                                 predict: (seq<FeatureRow>, seq<FeatureRow>) -> P,
                                                 mae: (seq<int>, P) -> real)
    ensures |MaesOf(zs, planOf, predict, mae)| == |Evaluated(zs, planOf)|
    ensures k < |Evaluated(zs, planOf)| ==>
              && planOf(Evaluated(zs, planOf)[k]).Fit?
              && MaesOf(zs, planOf, predict, mae)[k] == PlanMae(planOf(Evaluated(zs, planOf)[k]), predict, mae)
  {
    if zs != [] {
      var pre, z := zs[..|zs| - 1], zs[|zs| - 1];
      assert zs == pre + [z];
      FilterSnoc(pre, z, (z: int) => planOf(z).Fit?);
      MaesAreFittedZones(pre, planOf, k, predict, mae);
    }
  }

  /** `zone_results` has a key exactly for the fitted zones of `zs` that are in
      `top10`, and that key holds the zone's test dates, actuals and predictions. */
  lemma {:induction false} ResultsAreFittedTopZones<P>(zs: seq<int>, planOf: int -> Plan, top10: seq<int>,
                                                       predict: (seq<FeatureRow>, seq<FeatureRow>) -> P, z: int)
    ensures var m := ResultsOf(zs, planOf, top10, predict);
            && (z in m <==> z in zs && planOf(z).Fit? && z in top10)
            && (z in m ==> m[z] == PlanResult(planOf(z), predict))
  {
    if zs != [] {
      var pre, y := zs[..|zs| - 1], zs[|zs| - 1];
      assert zs == pre + [y];
      ResultsAreFittedTopZones(pre, planOf, top10, predict, z);
    }
  }

  /** Each zone is fitted at most once. */
  lemma EvaluatedNoDup(table: seq<DayRow>, planOf: int -> Plan)
    ensures NoDup(Evaluated(DistinctZones(table), planOf))
  {
    FilterNoDup(DistinctZones(table), (z: int) => planOf(z).Fit?);
  }

  /** The loop over `_all_zones`: for each zone in order, prepare its plan
      with `planOf`; a fitted zone appends its error to `all_zone_maes` and,
      when it is in `top10`, stores its result in `zone_results`. */
  method EvaluateZones<P>(zones: seq<int>, planOf: int -> Plan, top10: seq<int>,
                          predict: (seq<FeatureRow>, seq<FeatureRow>) -> P,
                          mae: (seq<int>, P) -> real)
    returns (allZoneMaes: seq<real>, zoneResults: map<int, ZoneResult<P>>)
    ensures allZoneMaes == MaesOf(zones, planOf, predict, mae)
    ensures zoneResults == ResultsOf(zones, planOf, top10, predict)
  {
    allZoneMaes, zoneResults := [], map[];
    for i := 0 to |zones|
      invariant allZoneMaes == MaesOf(zones[..i], planOf, predict, mae)
      invariant zoneResults == ResultsOf(zones[..i], planOf, top10, predict)
    {
      var z := zones[i];
      assert zones[..i + 1][..i] == zones[..i];
      var plan := planOf(z);
      if plan.Fit? {
        var pred := predict(plan.train, plan.test);
        allZoneMaes := allZoneMaes + [mae(Actual(plan.test), pred)];
        if z in top10 {
          zoneResults := zoneResults[z := ZoneResult(TestDates(plan.test), Actual(plan.test), pred)];
        }
      }
    }
    assert zones[..|zones|] == zones;
  }

  /** The forecasting script's preparation end to end: rank the top 10,
      then run the per-zone loop over the table's zones in order of first
      appearance with the preparation `PlanZone`. */
  method ForecastZones<P>(table: seq<DayRow>,
                          predict: (seq<FeatureRow>, seq<FeatureRow>) -> P,
                          mae: (seq<int>, P) -> real)
    returns (top10: seq<int>, allZoneMaes: seq<real>, zoneResults: map<int, ZoneResult<P>>)
    ensures top10 == Top10(table)
    ensures allZoneMaes == MaesOf(DistinctZones(table), PlanOf(table), predict, mae)
    ensures zoneResults == ResultsOf(DistinctZones(table), PlanOf(table), top10, predict)
  {
    top10 := Top10(table);
    allZoneMaes, zoneResults := EvaluateZones(DistinctZones(table), PlanOf(table), top10, predict, mae);
  }
}
