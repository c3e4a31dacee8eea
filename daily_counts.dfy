/** load_and_aggregate.py: the group size per (date, pickup zone) over the
    loaded rows, date being the pickup time truncated to midnight. Rows
    whose pickup time or zone is missing fall out of the group-by (pandas
    drops missing keys). */
module DailyCounts {
  import opened Wrappers
  import opened Trips
  import opened DailyAggregate

  /** The group-by input: the rows with both keys present, no value columns. */
  function RideObs(raw: seq<RawTrip>): (obs: seq<Obs>)
    ensures ObsWellFormed(obs, 0) && |obs| == CountComplete(raw)
  {
    if raw == [] then []
    else
      var rest := RideObs(raw[1..]);
      if Complete(raw[0]) then [Obs(Midnight(raw[0].pickup.value), raw[0].zone.value, [])] + rest
      else rest
  }

  /** `daily_zone_counts`: date, LocationID and ride_count (the row's count). */
  function DailyZoneCounts(raw: seq<RawTrip>): seq<GroupRow> {
    Aggregate(RideObs(raw), 0)
  }

  /** Reference count: loaded rows whose pickup falls on midnight d's day and
      whose zone is z. */
  function RidesOn(raw: seq<RawTrip>, d: int, z: int): nat {
    if raw == [] then 0
    else (if raw[0] == RawTrip(raw[0].pickup, Some(z)) && raw[0].pickup.Some?
             && Midnight(raw[0].pickup.value) == d then 1 else 0)
         + RidesOn(raw[1..], d, z)
  }

  lemma {:induction false} RideObsKeyCount(raw: seq<RawTrip>, d: int, z: int)
    ensures KeyCount(RideObs(raw), d, z) == RidesOn(raw, d, z)
  {
    if raw != [] {
      RideObsKeyCount(raw[1..], d, z);
      var rest := RideObs(raw[1..]);
      if Complete(raw[0]) {
        assert ([Obs(Midnight(raw[0].pickup.value), raw[0].zone.value, [])] + rest)[1..] == rest;
      }
    }
  }

  /** Each output row's ride_count is the number of loaded rows on that day in
      that zone, hence at least 1. */
  lemma RideCountIsRidesOn(raw: seq<RawTrip>, i: nat)
    requires i < |DailyZoneCounts(raw)|
    ensures var row := DailyZoneCounts(raw)[i];
            row.count == RidesOn(raw, row.date, row.zone) >= 1
  {
    var row := DailyZoneCounts(raw)[i];
    AggregateRow(RideObs(raw), 0, i, 0);
    RideObsKeyCount(raw, row.date, row.zone);
  }

  /** Exactly the (date, zone) pairs that occur get a row, and no pair twice
      (rows are strictly ordered by (date, zone)). */
  lemma DailyZoneCountsKeys(raw: seq<RawTrip>, d: int, z: int)
    ensures RowsSorted(DailyZoneCounts(raw))
    ensures (d, z) in RowKeys(DailyZoneCounts(raw)) <==> RidesOn(raw, d, z) >= 1
  {
    var rows := DailyZoneCounts(raw);
    var obs := RideObs(raw);
    RideObsKeyCount(raw, d, z);
    AggregateCount(obs, 0, d, z);
    if (d, z) in RowKeys(rows) {
      var i :| 0 <= i < |rows| && (rows[i].date, rows[i].zone) == (d, z);
      RideCountIsRidesOn(raw, i);
    } else if RidesOn(raw, d, z) >= 1 {
      KeyCountPositiveHasKey(obs, d, z);
      assert false;
    }
  }

  lemma {:induction false} KeyCountPositiveHasKey(obs: seq<Obs>, d: int, z: int)
    requires KeyCount(obs, d, z) >= 1
    ensures (d, z) in ObsKeys(obs)
  {
    if obs[0].date == d && obs[0].zone == z {
      assert (obs[0].date, obs[0].zone) in ObsKeys(obs);
    } else {
      KeyCountPositiveHasKey(obs[1..], d, z);
      var k :| 0 <= k < |obs[1..]| && (obs[1..][k].date, obs[1..][k].zone) == (d, z);
      assert obs[1..][k] == obs[k + 1];
    }
  }

  /** The ride counts add up to the number of rows with both keys present. */
  lemma DailyZoneCountsTotal(raw: seq<RawTrip>)
    ensures TotalCount(DailyZoneCounts(raw)) == CountComplete(raw)
  {
    AggregateTotal(RideObs(raw), 0);
  }
}
