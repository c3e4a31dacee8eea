/** Contiguous zone ranges of the sorted trip array: the start of each
    zone's range is the first index holding that zone, and each range ends
    where the next one starts (the last at the array's length). */
module ZoneRanges {
  import opened Trips

  /** A column ordered ascending (zone ids here, timestamps within a range). */
  predicate NonDecreasing(t: seq<int>) {
    forall a, b :: 0 <= a < b < |t| ==> t[a] <= t[b]
  }

  lemma SortedTripsHaveSortedZones(ts: seq<int>, zone: seq<int>)
    requires SortedByZoneTime(ts, zone)
    ensures NonDecreasing(zone)
  {
  }

  /** Index i starts a run of equal zone ids. */
  predicate IsRunStart(zone: seq<int>, i: nat)
    requires i < |zone|
  {
    i == 0 || zone[i - 1] != zone[i]
  }

  /** Index i is the first occurrence of its zone id (what `return_index` reports). */
  predicate FirstOccurrence(zone: seq<int>, i: nat)
    requires i < |zone|
  {
    forall k :: 0 <= k < i ==> zone[k] != zone[i]
  }

  predicate StrictlyIncreasing(s: seq<nat>) {
    forall a, b :: 0 <= a < b < |s| ==> s[a] < s[b]
  }

  /** `starts` lists, in increasing order, exactly the run starts of `zone`. */
  predicate IsZoneStarts(zone: seq<int>, starts: seq<nat>) {
    && StrictlyIncreasing(starts)
    && (forall k :: 0 <= k < |starts| ==> starts[k] < |zone|)
    && (forall i :: 0 <= i < |zone| ==> (i in starts <==> IsRunStart(zone, i)))
  }

  /** The zone-start scan. */
  method ZoneStarts(zone: seq<int>) returns (starts: seq<nat>)
    ensures StrictlyIncreasing(starts)
    ensures forall k :: 0 <= k < |starts| ==> starts[k] < |zone|
    ensures forall i :: 0 <= i < |zone| ==> (i in starts <==> IsRunStart(zone, i))
  {
    starts := [];
    var i := 0;
    while i < |zone|
      invariant 0 <= i <= |zone|
      invariant StrictlyIncreasing(starts)
      invariant forall k :: 0 <= k < |starts| ==> starts[k] < i
      invariant forall m :: 0 <= m < i ==> (m in starts <==> IsRunStart(zone, m))
    {
      if i == 0 || zone[i - 1] != zone[i] {
        starts := starts + [i];
      }
      i := i + 1;
    }
  }

  /** The ends: every start but the first, then n; with no starts this is [n]. */
  function ZoneEnds(starts: seq<nat>, n: nat): (ends: seq<nat>)
    ensures |ends| == if |starts| == 0 then 1 else |starts|
    ensures forall k :: 0 <= k < |starts| - 1 ==> ends[k] == starts[k + 1]
    ensures ends[|ends| - 1] == n
  {
    (if |starts| == 0 then [] else starts[1..]) + [n]
  }

  /** On zone-sorted input a run start is the first occurrence of its zone,
      and conversely: the scan finds the first-occurrence indices that `np.unique` reports. */
  lemma RunStartIsFirstOccurrence(zone: seq<int>, i: nat)
    requires NonDecreasing(zone) && i < |zone|
    ensures IsRunStart(zone, i) <==> FirstOccurrence(zone, i)
  {
    if IsRunStart(zone, i) && i > 0 {
      forall k | 0 <= k < i ensures zone[k] != zone[i] {
        assert zone[k] <= zone[i - 1];
      }
    }
  }

  /** No run start lies strictly inside a range. */
  lemma NoStartInside(zone: seq<int>, starts: seq<nat>, k: nat, p: nat)
    requires IsZoneStarts(zone, starts) && k < |starts|
    requires starts[k] < p < ZoneEnds(starts, |zone|)[k] && p < |zone|
    ensures !IsRunStart(zone, p)
  {
    if IsRunStart(zone, p) {
      assert p in starts;
      var j :| 0 <= j < |starts| && starts[j] == p;
      assert false;
    }
  }

  /** Every index of a range holds the zone id of the range's start. */
  lemma {:induction false} RangeHasOneZone(zone: seq<int>, starts: seq<nat>, k: nat, m: nat)
    requires IsZoneStarts(zone, starts) && k < |starts|
    requires starts[k] <= m < ZoneEnds(starts, |zone|)[k] && m < |zone|
    ensures zone[m] == zone[starts[k]]
  {
    if m > starts[k] {
      RangeHasOneZone(zone, starts, k, m - 1);
      NoStartInside(zone, starts, k, m);
    }
  }

  /** The ranges [starts[k], ends[k]) are non-empty, contiguous and cover
      [0, n); each holds a single zone id and distinct ranges hold distinct,
      increasing zone ids. An empty input has no ranges. */
  lemma ZoneRangesPartition(zone: seq<int>, starts: seq<nat>)
    requires NonDecreasing(zone) && IsZoneStarts(zone, starts)
    ensures |starts| == 0 <==> |zone| == 0
    ensures |starts| > 0 ==> starts[0] == 0
    ensures var ends := ZoneEnds(starts, |zone|);
            && (forall k :: 0 <= k < |starts| ==> starts[k] < ends[k] <= |zone|)
            && (forall k, m :: 0 <= k < |starts| && starts[k] <= m < ends[k] ==> zone[m] == zone[starts[k]])
    ensures forall k1, k2 :: 0 <= k1 < k2 < |starts| ==> zone[starts[k1]] < zone[starts[k2]]
  {
    var n := |zone|;
    var ends := ZoneEnds(starts, n);
    if n > 0 {
      assert IsRunStart(zone, 0);
      assert 0 in starts;
      var j :| 0 <= j < |starts| && starts[j] == 0;
    }
    forall k | 0 <= k < |starts| ensures starts[k] < ends[k] <= n {
      if k < |starts| - 1 { assert ends[k] == starts[k + 1]; }
    }
    forall k, m | 0 <= k < |starts| && starts[k] <= m < ends[k] ensures zone[m] == zone[starts[k]] {
      RangeHasOneZone(zone, starts, k, m);
    }
    forall k1, k2 | 0 <= k1 < k2 < |starts| ensures zone[starts[k1]] < zone[starts[k2]] {
      var p := starts[k2];
      assert IsRunStart(zone, p) by { assert p in starts; }
      assert starts[k1] <= p - 1;
      assert zone[starts[k1]] <= zone[p - 1];
    }
  }

  /** Every index lies in exactly one range. */
  lemma CoverOnce(zone: seq<int>, starts: seq<nat>, m: nat) returns (k: nat)
    requires NonDecreasing(zone) && IsZoneStarts(zone, starts) && m < |zone|
    ensures k < |starts| && starts[k] <= m < ZoneEnds(starts, |zone|)[k]
    ensures forall k' :: 0 <= k' < |starts| && starts[k'] <= m < ZoneEnds(starts, |zone|)[k'] ==> k' == k
  {
    ZoneRangesPartition(zone, starts);
    var ends := ZoneEnds(starts, |zone|);
    k := 0;
    while k + 1 < |starts| && starts[k + 1] <= m
      invariant k < |starts| && starts[k] <= m
    {
      k := k + 1;
    }
    forall k' | 0 <= k' < |starts| && starts[k'] <= m < ends[k'] ensures k' == k {
    }
  }
}
