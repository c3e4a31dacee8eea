/** The trip-level rolling-feature pipeline shared by
    compute_rolling_demand_features.py and trip-level-rolling-features.py:
    clean, sort by (zone, time), count trailing 1h / 6h / 24h trips per zone,
    then group by (midnight, zone) into a trip count and the mean of each
    rolling column. */
module RollingFeatures {
  import opened Trips
  import opened Windows
  import opened RollingCounter
  import opened DailyAggregate

  /** The group-by input: key (midnight, zone), values the three counts. */
  function TripObs(trips: seq<Trip>, r1h: seq<int>, r6h: seq<int>, r24h: seq<int>): (obs: seq<Obs>)
    requires |r1h| == |trips| && |r6h| == |trips| && |r24h| == |trips|
    ensures |obs| == |trips| && ObsWellFormed(obs, 3)
  {
    seq(|trips|, i requires 0 <= i < |trips| =>
      Obs(Midnight(trips[i].ts), trips[i].zone, [r1h[i], r6h[i], r24h[i]]))
  }

  /** `daily_zone_features`: columns date, zone, daily_trips (count) and the
      three rolling sums, whose ratio to daily_trips is the rolling mean. */
  function DailyZoneFeatures(trips: seq<Trip>, r1h: seq<int>, r6h: seq<int>, r24h: seq<int>): seq<GroupRow>
    requires |r1h| == |trips| && |r6h| == |trips| && |r24h| == |trips|
  {
    Aggregate(TripObs(trips, r1h, r6h, r24h), 3)
  }

  /** A daily row: daily_trips is the number of trips on that day in that
      zone, and each rolling mean is the exact ratio of that column's sum
      over those trips to daily_trips. */
  lemma DailyRowMeans(trips: seq<Trip>, r1h: seq<int>, r6h: seq<int>, r24h: seq<int>, i: nat, c: nat)
    requires |r1h| == |trips| && |r6h| == |trips| && |r24h| == |trips|
    requires i < |DailyZoneFeatures(trips, r1h, r6h, r24h)| && c < 3
    ensures var row := DailyZoneFeatures(trips, r1h, r6h, r24h)[i];
            var obs := TripObs(trips, r1h, r6h, r24h);
            && row.count == KeyCount(obs, row.date, row.zone) >= 1
            && |row.sums| == 3
            && Mean(row, c) == KeySum(obs, row.date, row.zone, c) as real / row.count as real
  {
    AggregateRow(TripObs(trips, r1h, r6h, r24h), 3, i, c);
  }

  /** The daily means nest, 0 <= 1h mean <= 6h mean <= 24h mean, because
      the trip-level counts do. */
  lemma DailyMeansNest(trips: seq<Trip>, r1h: seq<int>, r6h: seq<int>, r24h: seq<int>, i: nat)
    requires |r1h| == |trips| && |r6h| == |trips| && |r24h| == |trips|
    requires forall k :: 0 <= k < |trips| ==> 0 <= r1h[k] <= r6h[k] <= r24h[k]
    requires i < |DailyZoneFeatures(trips, r1h, r6h, r24h)|
    ensures var row := DailyZoneFeatures(trips, r1h, r6h, r24h)[i];
            |row.sums| == 3 && 0.0 <= Mean(row, 0) <= Mean(row, 1) <= Mean(row, 2)
  {
    var obs := TripObs(trips, r1h, r6h, r24h);
    TripObsNested(trips, r1h, r6h, r24h);
    MeansNest(obs, i);
  }

  lemma TripObsNested(trips: seq<Trip>, r1h: seq<int>, r6h: seq<int>, r24h: seq<int>)
    requires |r1h| == |trips| && |r6h| == |trips| && |r24h| == |trips|
    requires forall k :: 0 <= k < |trips| ==> 0 <= r1h[k] <= r6h[k] <= r24h[k]
    ensures var obs := TripObs(trips, r1h, r6h, r24h);
            forall k :: 0 <= k < |obs| ==>
              |obs[k].vals| == 3 && 0 <= obs[k].vals[0] <= obs[k].vals[1] <= obs[k].vals[2]
  {
  }

  /** The whole pipeline on the loaded rows. */
  method RollingDemandFeatures(raw: seq<RawTrip>)
    returns (trips: seq<Trip>, r1h: array<int>, r6h: array<int>, r24h: array<int>, daily: seq<GroupRow>)
    ensures multiset(trips) == multiset(Clean(raw)) && |trips| == CountComplete(raw)
    ensures SortedByZoneTime(Timestamps(trips), Zones(trips))
    ensures fresh(r1h) && fresh(r6h) && fresh(r24h)
    ensures r1h.Length == |trips| && r6h.Length == |trips| && r24h.Length == |trips|
    ensures forall i :: 0 <= i < |trips| ==>
      && r1h[i] == WindowCount(Timestamps(trips), Zones(trips), i, NS_1H)
      && r6h[i] == WindowCount(Timestamps(trips), Zones(trips), i, NS_6H)
      && r24h[i] == WindowCount(Timestamps(trips), Zones(trips), i, NS_24H)
    ensures forall i :: 0 <= i < |trips| ==> 0 <= r1h[i] <= r6h[i] <= r24h[i]
    ensures daily == DailyZoneFeatures(trips, r1h[..], r6h[..], r24h[..])
    ensures RowsSorted(daily) && TotalCount(daily) == CountComplete(raw)
  {
    var cleaned := Clean(raw);
    trips := SortTrips(cleaned);
    assert |trips| == |cleaned| by {
      assert |multiset(trips)| == |multiset(cleaned)|;
    }
    var ts, zone := Timestamps(trips), Zones(trips);
    r1h, r6h, r24h := ComputeRollingCounts(ts, zone);
    forall i | 0 <= i < |trips| ensures 0 <= r1h[i] <= r6h[i] <= r24h[i] {
      WindowNesting(ts, zone, i);
    }
    daily := DailyZoneFeatures(trips, r1h[..], r6h[..], r24h[..]);
    AggregateTotal(TripObs(trips, r1h[..], r6h[..], r24h[..]), 3);
  }
}
