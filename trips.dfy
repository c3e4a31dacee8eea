/** Trip records and the cleaning and sorting steps that come before the
    rolling counts: drop rows whose pickup time or zone is missing, then
    order the trips by (zone, pickup time). */
module Trips {
  import opened Wrappers
  import opened Sorting

  /** A row as loaded: pickup time in integer nanoseconds since the epoch,
      pickup zone (PULocationID); either may be missing. */
  datatype RawTrip = RawTrip(pickup: Option<int>, zone: Option<int>)

  /** A cleaned trip. */
  datatype Trip = Trip(ts: int, zone: int)

  predicate Complete(r: RawTrip) {
    r.pickup.Some? && r.zone.Some?
  }

  /** Number of rows with both fields present. */
  function CountComplete(raw: seq<RawTrip>): nat {
    if raw == [] then 0
    else (if Complete(raw[0]) then 1 else 0) + CountComplete(raw[1..])
  }

  /** Dropping rows with a missing pickup or zone: keeps, in order, the complete rows. */
  function Clean(raw: seq<RawTrip>): (r: seq<Trip>)
    ensures |r| == CountComplete(raw)
    ensures forall t :: t in r <==> RawTrip(Some(t.ts), Some(t.zone)) in raw
  {
    if raw == [] then []
    else
      assert raw == [raw[0]] + raw[1..];
      var rest := Clean(raw[1..]);
      if Complete(raw[0]) then [Trip(raw[0].pickup.value, raw[0].zone.value)] + rest
      else rest
  }

  /** Each complete row yields its trip exactly as many times as it occurs,
      and no other trip appears. */
  lemma {:induction false} CleanMultiplicity(raw: seq<RawTrip>)
    ensures forall t :: multiset(Clean(raw))[t] == multiset(raw)[RawTrip(Some(t.ts), Some(t.zone))]
  {
    if raw != [] {
      CleanMultiplicity(raw[1..]);
      assert raw == [raw[0]] + raw[1..];
      forall t ensures multiset(Clean(raw))[t] == multiset(raw)[RawTrip(Some(t.ts), Some(t.zone))] {
        var k := RawTrip(Some(t.ts), Some(t.zone));
        assert multiset(raw)[k] == multiset([raw[0]])[k] + multiset(raw[1..])[k];
        if Complete(raw[0]) {
          var h := Trip(raw[0].pickup.value, raw[0].zone.value);
          assert Clean(raw) == [h] + Clean(raw[1..]);
          assert multiset(Clean(raw))[t] == multiset([h])[t] + multiset(Clean(raw[1..]))[t];
          assert (h == t) == (raw[0] == k);
        } else {
          assert raw[0] != k;
        }
      }
    }
  }

  /** The sort key: zone first, then pickup time. */
  predicate TripLe(a: Trip, b: Trip) {
    a.zone < b.zone || (a.zone == b.zone && a.ts <= b.ts)
  }

  lemma TripLeIsTotalPreorder()
    ensures TotalPreorder(TripLe)
  {
  }

  function Timestamps(trips: seq<Trip>): (ts: seq<int>)
    ensures |ts| == |trips| && forall i :: 0 <= i < |trips| ==> ts[i] == trips[i].ts
  {
    seq(|trips|, i requires 0 <= i < |trips| => trips[i].ts)
  }

  function Zones(trips: seq<Trip>): (zs: seq<int>)
    ensures |zs| == |trips| && forall i :: 0 <= i < |trips| ==> zs[i] == trips[i].zone
  {
    seq(|trips|, i requires 0 <= i < |trips| => trips[i].zone)
  }

  /** The timestamp and zone columns are ordered by (zone, timestamp). */
  predicate SortedByZoneTime(ts: seq<int>, zone: seq<int>) {
    && |ts| == |zone|
    && forall i, j :: 0 <= i < j < |ts| ==>
         zone[i] < zone[j] || (zone[i] == zone[j] && ts[i] <= ts[j])
  }

  /** The sort by zone, then pickup: a permutation of the cleaned trips whose
      columns are ordered by (zone, timestamp). */
  function SortTrips(trips: seq<Trip>): (r: seq<Trip>)
    ensures multiset(r) == multiset(trips)
    ensures SortedByZoneTime(Timestamps(r), Zones(r))
  {
    TripLeIsTotalPreorder();
    SortBy(trips, TripLe)
  }
}
