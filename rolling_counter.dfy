/** The trailing-window counting engine: for every zone range [s, e) of the
    sorted trips and every window w, the count of trip s + i is
    i minus the lower bound of t[i] - w in t = ts[s..e], written
    into preallocated arrays one zone slice at a time. */
module RollingCounter {
  import opened Trips
  import opened Windows
  import opened ZoneRanges

  /** Left-sided search of x in sorted t: the least j with t[j] >= x, or |t|. */
  method SearchSortedLeft(t: seq<int>, x: int) returns (j: nat)
    requires NonDecreasing(t)
    ensures j <= |t|
    ensures forall k :: 0 <= k < j ==> t[k] < x
    ensures forall k :: j <= k < |t| ==> t[k] >= x
  {
    var lo, hi := 0, |t|;
    while lo < hi
      invariant 0 <= lo <= hi <= |t|
      invariant forall k :: 0 <= k < lo ==> t[k] < x
      invariant forall k :: hi <= k < |t| ==> t[k] >= x
    {
      var mid := (lo + hi) / 2;
      if t[mid] < x {
        lo := mid + 1;
      } else {
        hi := mid;
      }
    }
    j := lo;
  }

  /** [s, e) is a run of one zone that starts where the zone changes. */
  predicate IsRun(zone: seq<int>, s: nat, e: nat) {
    && s <= e <= |zone|
    && (forall m :: s <= m < e ==> zone[m] == zone[s])
    && (s == 0 || (s < |zone| && zone[s - 1] != zone[s]))
  }

  /** Within one zone's run the timestamps are sorted: the binary search's
      precondition follows from the (zone, time) sort. */
  lemma RunTimesSorted(ts: seq<int>, zone: seq<int>, s: nat, e: nat)
    requires SortedByZoneTime(ts, zone) && IsRun(zone, s, e)
    ensures NonDecreasing(ts[s..e])
  {
    forall a, b | 0 <= a < b < e - s ensures ts[s..e][a] <= ts[s..e][b] {
      assert zone[s + a] == zone[s + b];
    }
  }

  /** Trips positioned before a run belong to smaller zones. */
  lemma BeforeRunOtherZone(zone: seq<int>, s: nat, e: nat, m: nat)
    requires NonDecreasing(zone) && IsRun(zone, s, e) && s < e && m < s
    ensures zone[m] < zone[s]
  {
    assert zone[m] <= zone[s - 1] <= zone[s];
  }

  /** Inside a run, the zone rank of trip i is its offset from the run start. */
  lemma {:induction false} CountSameZoneInRun(zone: seq<int>, s: nat, e: nat, i: nat, hi: nat)
    requires NonDecreasing(zone) && IsRun(zone, s, e) && s <= i < e && hi <= i
    ensures CountSameZone(zone, zone[i], hi) == if hi <= s then 0 else hi - s
  {
    if hi > 0 {
      CountSameZoneInRun(zone, s, e, i, hi - 1);
      if hi - 1 < s {
        BeforeRunOtherZone(zone, s, e, hi - 1);
      }
    }
  }

  lemma RankInRun(zone: seq<int>, s: nat, e: nat, i: nat)
    requires NonDecreasing(zone) && IsRun(zone, s, e) && s <= i < e
    ensures ZoneRank(zone, i) == i - s
  {
    CountSameZoneInRun(zone, s, e, i, i);
  }

  /** The scan count over a prefix, given the lower bound j of x in ts[s..e]. */
  lemma {:induction false} CountPriorInRun(ts: seq<int>, zone: seq<int>, s: nat, e: nat, i: nat, x: int, j: nat, hi: nat)
    requires SortedByZoneTime(ts, zone) && IsRun(zone, s, e) && s <= i < e
    requires s + j <= i && hi <= i
    requires forall m :: s <= m < s + j ==> ts[m] < x
    requires forall m :: s + j <= m < e ==> ts[m] >= x
    ensures CountPrior(ts, zone, zone[i], x, hi) == if hi <= s + j then 0 else hi - s - j
  {
    if hi > 0 {
      SortedTripsHaveSortedZones(ts, zone);
      CountPriorInRun(ts, zone, s, e, i, x, j, hi - 1);
      var m := hi - 1;
      if m < s {
        BeforeRunOtherZone(zone, s, e, m);
      }
    }
  }

  /** The engine's arithmetic equals the naive count: with j the lower bound
      of ts[s + li] - w in the run's timestamps, `li - j` is the window count. */
  lemma SearchCountIsWindowCount(ts: seq<int>, zone: seq<int>, s: nat, e: nat, li: nat, w: int, j: nat)
    requires SortedByZoneTime(ts, zone) && IsRun(zone, s, e) && li < e - s && w >= 0
    requires j <= e - s
    requires forall k :: 0 <= k < j ==> ts[s..e][k] < ts[s + li] - w
    requires forall k :: j <= k < e - s ==> ts[s..e][k] >= ts[s + li] - w
    ensures j <= li
    ensures WindowCount(ts, zone, s + li, w) == li - j
  {
    var x := ts[s + li] - w;
    assert ts[s..e][li] == ts[s + li];
    forall m | s <= m < s + j ensures ts[m] < x { assert ts[s..e][m - s] == ts[m]; }
    forall m | s + j <= m < e ensures ts[m] >= x { assert ts[s..e][m - s] == ts[m]; }
    CountPriorInRun(ts, zone, s, e, s + li, x, j, s + li);
  }

  /** One iteration of the zone loop: fills [s, e) of the three arrays with
      the run's 1h / 6h / 24h counts and writes nothing outside [s, e). */
  method FillZone(ts: seq<int>, zone: seq<int>, s: nat, e: nat,
                  r1h: array<int>, r6h: array<int>, r24h: array<int>)
    requires SortedByZoneTime(ts, zone) && IsRun(zone, s, e)
    requires r1h.Length == |ts| && r6h.Length == |ts| && r24h.Length == |ts|
    requires r1h != r6h && r1h != r24h && r6h != r24h
    modifies r1h, r6h, r24h
    ensures forall m :: s <= m < e ==>
      && r1h[m] == WindowCount(ts, zone, m, NS_1H)
      && r6h[m] == WindowCount(ts, zone, m, NS_6H)
      && r24h[m] == WindowCount(ts, zone, m, NS_24H)
    ensures forall m :: 0 <= m < |ts| && !(s <= m < e) ==>
      r1h[m] == old(r1h[m]) && r6h[m] == old(r6h[m]) && r24h[m] == old(r24h[m])
  {
    var t := ts[s..e];
    RunTimesSorted(ts, zone, s, e);
    var li := 0;
    while li < e - s
      invariant 0 <= li <= e - s
      invariant forall m :: s <= m < s + li ==>
        && r1h[m] == WindowCount(ts, zone, m, NS_1H)
        && r6h[m] == WindowCount(ts, zone, m, NS_6H)
        && r24h[m] == WindowCount(ts, zone, m, NS_24H)
      invariant forall m :: 0 <= m < |ts| && !(s <= m < s + li) ==>
        r1h[m] == old(r1h[m]) && r6h[m] == old(r6h[m]) && r24h[m] == old(r24h[m])
    {
      var j1 := SearchSortedLeft(t, t[li] - NS_1H);
      var j6 := SearchSortedLeft(t, t[li] - NS_6H);
      var j24 := SearchSortedLeft(t, t[li] - NS_24H);
      SearchCountIsWindowCount(ts, zone, s, e, li, NS_1H, j1);
      SearchCountIsWindowCount(ts, zone, s, e, li, NS_6H, j6);
      SearchCountIsWindowCount(ts, zone, s, e, li, NS_24H, j24);
      r1h[s + li] := li - j1;
      r6h[s + li] := li - j6;
      r24h[s + li] := li - j24;
      li := li + 1;
    }
  }

  /** Facts about one zone range that the zone loop needs. */
  lemma RangeFacts(zone: seq<int>, starts: seq<nat>, k: nat)
    requires NonDecreasing(zone) && IsZoneStarts(zone, starts) && k < |starts|
    ensures IsRun(zone, starts[k], ZoneEnds(starts, |zone|)[k])
    ensures ZoneEnds(starts, |zone|)[k] == if k + 1 < |starts| then starts[k + 1] else |zone|
    ensures k == 0 ==> starts[k] == 0
  {
    ZoneRangesPartition(zone, starts);
    assert IsRunStart(zone, starts[k]) by { assert starts[k] in starts; }
  }

  /** The whole engine: zone starts and ends, three preallocated arrays, one
      FillZone per zone range. Every entry ends up equal to the naive count. */
  method ComputeRollingCounts(ts: seq<int>, zone: seq<int>)
    returns (r1h: array<int>, r6h: array<int>, r24h: array<int>)
    requires SortedByZoneTime(ts, zone)
    ensures fresh(r1h) && fresh(r6h) && fresh(r24h)
    ensures r1h.Length == |ts| && r6h.Length == |ts| && r24h.Length == |ts|
    ensures forall i :: 0 <= i < |ts| ==>
      && r1h[i] == WindowCount(ts, zone, i, NS_1H)
      && r6h[i] == WindowCount(ts, zone, i, NS_6H)
      && r24h[i] == WindowCount(ts, zone, i, NS_24H)
  {
    SortedTripsHaveSortedZones(ts, zone);
    var starts := ZoneStarts(zone);
    var ends := ZoneEnds(starts, |zone|);
    if |starts| == 0 {
      ZoneRangesPartition(zone, starts);
    } else {
      RangeFacts(zone, starts, 0);
    }
    r1h := new int[|ts|];
    r6h := new int[|ts|];
    r24h := new int[|ts|];
    var zi := 0;
    while zi < |starts|
      invariant 0 <= zi <= |starts|
      invariant forall m :: 0 <= m < (if zi < |starts| then starts[zi] else |ts|) ==>
        && r1h[m] == WindowCount(ts, zone, m, NS_1H)
        && r6h[m] == WindowCount(ts, zone, m, NS_6H)
        && r24h[m] == WindowCount(ts, zone, m, NS_24H)
    {
      var s, e := starts[zi], ends[zi];
      RangeFacts(zone, starts, zi);
      FillZone(ts, zone, s, e, r1h, r6h, r24h);
      zi := zi + 1;
    }
  }

  /** Bounds: inside zone range k, the count of trip i is at most its offset
      i - starts[k], hence below the range's length; the range's first trip gets 0. */
  lemma CountWithinRange(ts: seq<int>, zone: seq<int>, starts: seq<nat>, k: nat, i: nat, w: int)
    requires SortedByZoneTime(ts, zone) && IsZoneStarts(zone, starts) && k < |starts|
    requires starts[k] <= i < ZoneEnds(starts, |zone|)[k]
    ensures WindowCount(ts, zone, i, w) <= i - starts[k] < ZoneEnds(starts, |zone|)[k] - starts[k]
    ensures i == starts[k] ==> WindowCount(ts, zone, i, w) == 0
  {
    SortedTripsHaveSortedZones(ts, zone);
    ZoneRangesPartition(zone, starts);
    var s, e := starts[k], ZoneEnds(starts, |zone|)[k];
    assert IsRunStart(zone, s) by { assert s in starts; }
    assert IsRun(zone, s, e);
    RankInRun(zone, s, e, i);
    WindowCountBounds(ts, zone, i, w);
  }
}
