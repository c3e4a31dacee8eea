/** The reference meaning of a trailing-window count: a naive scan over the
    earlier-positioned trips. The counting engine (module RollingCounter) is
    proved equal to it. */
module Windows {

  const NS_1H: int := 3_600_000_000_000
  const NS_6H: int := 21_600_000_000_000
  const NS_24H: int := 86_400_000_000_000

  /** Number of indices k < hi with zone[k] == z and ts[k] >= x. */
  function CountPrior(ts: seq<int>, zone: seq<int>, z: int, x: int, hi: nat): nat
    requires hi <= |ts| && hi <= |zone|
  {
    if hi == 0 then 0
    else CountPrior(ts, zone, z, x, hi - 1) + (if zone[hi - 1] == z && ts[hi - 1] >= x then 1 else 0)
  }

  /** Number of indices k < hi with zone[k] == z. */
  function CountSameZone(zone: seq<int>, z: int, hi: nat): nat
    requires hi <= |zone|
  {
    if hi == 0 then 0
    else CountSameZone(zone, z, hi - 1) + (if zone[hi - 1] == z then 1 else 0)
  }

  /** Trip k is in the window of trip i: it comes earlier in the sorted
      order, has the same zone, and its time is at least ts[i] - w. */
  predicate InWindow(ts: seq<int>, zone: seq<int>, i: nat, k: nat, w: int)
    requires |ts| == |zone| && i < |ts| && k < |ts|
  {
    k < i && zone[k] == zone[i] && ts[k] >= ts[i] - w
  }

  /** The naive trailing-window count of trip i for window w. */
  function WindowCount(ts: seq<int>, zone: seq<int>, i: nat, w: int): nat
    requires |ts| == |zone| && i < |ts|
  {
    CountPrior(ts, zone, zone[i], ts[i] - w, i)
  }

  /** Position of trip i among the trips of its zone (0 for the first). */
  function ZoneRank(zone: seq<int>, i: nat): nat
    requires i < |zone|
  {
    CountSameZone(zone, zone[i], i)
  }

  /** The set of trips the window count of trip i counts. */
  ghost function WindowSet(ts: seq<int>, zone: seq<int>, i: nat, w: int): set<nat>
    requires |ts| == |zone| && i < |ts|
  {
    set k: nat | k < i && InWindow(ts, zone, i, k, w)
  }

  // ---------------------------------------------------------------------------

  /** A lower threshold never counts fewer trips. */
  lemma {:induction false} CountPriorAntitone(ts: seq<int>, zone: seq<int>, z: int, x1: int, x2: int, hi: nat)
    requires hi <= |ts| && hi <= |zone| && x2 <= x1
    ensures CountPrior(ts, zone, z, x1, hi) <= CountPrior(ts, zone, z, x2, hi)
  {
    if hi > 0 {
      CountPriorAntitone(ts, zone, z, x1, x2, hi - 1);
    }
  }

  /** Extending the scan never counts fewer trips. */
  lemma {:induction false} CountPriorMonotone(ts: seq<int>, zone: seq<int>, z: int, x: int, lo: nat, hi: nat)
    requires lo <= hi <= |ts| && hi <= |zone|
    ensures CountPrior(ts, zone, z, x, lo) <= CountPrior(ts, zone, z, x, hi)
  {
    if lo < hi {
      CountPriorMonotone(ts, zone, z, x, lo, hi - 1);
    }
  }

  /** Only same-zone trips are ever counted. */
  lemma {:induction false} CountPriorAtMostSameZone(ts: seq<int>, zone: seq<int>, z: int, x: int, hi: nat)
    requires hi <= |ts| && hi <= |zone|
    ensures CountPrior(ts, zone, z, x, hi) <= CountSameZone(zone, z, hi)
  {
    if hi > 0 {
      CountPriorAtMostSameZone(ts, zone, z, x, hi - 1);
    }
  }

  /** The scan counts exactly the members of the corresponding index set. */
  lemma {:induction false} CountPriorIsCardinality(ts: seq<int>, zone: seq<int>, z: int, x: int, hi: nat)
    requires hi <= |ts| && hi <= |zone|
    ensures CountPrior(ts, zone, z, x, hi) == |set k: nat | k < hi && zone[k] == z && ts[k] >= x|
  {
    var s := set k: nat | k < hi && zone[k] == z && ts[k] >= x;
    if hi == 0 {
      assert s == {};
    } else {
      var s' := set k: nat | k < hi - 1 && zone[k] == z && ts[k] >= x;
      CountPriorIsCardinality(ts, zone, z, x, hi - 1);
      if zone[hi - 1] == z && ts[hi - 1] >= x {
        assert s == s' + {hi - 1};
        assert hi - 1 !in s';
      } else {
        assert s == s';
      }
    }
  }

  /** The naive count is the size of the window set: the trips counted are
      the earlier-positioned same-zone trips at or after ts[i] - w. */
  lemma WindowCountIsWindowSetSize(ts: seq<int>, zone: seq<int>, i: nat, w: int)
    requires |ts| == |zone| && i < |ts|
    ensures WindowCount(ts, zone, i, w) == |WindowSet(ts, zone, i, w)|
  {
    CountPriorIsCardinality(ts, zone, zone[i], ts[i] - w, i);
    assert WindowSet(ts, zone, i, w) ==
      set k: nat | k < i && zone[k] == zone[i] && ts[k] >= ts[i] - w;
  }

  /** Windows nest: 1h count <= 6h count <= 24h count. */
  lemma WindowNesting(ts: seq<int>, zone: seq<int>, i: nat)
    requires |ts| == |zone| && i < |ts|
    ensures WindowCount(ts, zone, i, NS_1H) <= WindowCount(ts, zone, i, NS_6H)
    ensures WindowCount(ts, zone, i, NS_6H) <= WindowCount(ts, zone, i, NS_24H)
  {
    CountPriorAntitone(ts, zone, zone[i], ts[i] - NS_1H, ts[i] - NS_6H, i);
    CountPriorAntitone(ts, zone, zone[i], ts[i] - NS_6H, ts[i] - NS_24H, i);
  }

  /** A count never exceeds the number of earlier trips of the same zone, so
      the first trip of a zone gets 0. */
  lemma WindowCountBounds(ts: seq<int>, zone: seq<int>, i: nat, w: int)
    requires |ts| == |zone| && i < |ts|
    ensures WindowCount(ts, zone, i, w) <= ZoneRank(zone, i)
    ensures ZoneRank(zone, i) == 0 ==> WindowCount(ts, zone, i, w) == 0
  {
    CountPriorAtMostSameZone(ts, zone, zone[i], ts[i] - w, i);
  }

  /** Ties: of two same-zone trips with equal timestamps, the earlier-positioned
      one is counted by the later one, not the reverse, and the later one's
      count is strictly larger. */
  lemma TiesCountOneWay(ts: seq<int>, zone: seq<int>, i: nat, j: nat, w: int)
    requires |ts| == |zone| && i < j < |ts|
    requires zone[i] == zone[j] && ts[i] == ts[j] && w >= 0
    ensures i in WindowSet(ts, zone, j, w) && j !in WindowSet(ts, zone, i, w)
    ensures WindowCount(ts, zone, i, w) + 1 <= WindowCount(ts, zone, j, w)
  {
    CountPriorMonotone(ts, zone, zone[j], ts[j] - w, i + 1, j);
  }

  /** One zone with trips at 00:00, 00:30, 01:00 and 02:00: the 1h counts are
      0, 1, 2 and 1 (the trip itself is not counted; a trip exactly one hour
      earlier is). */
  lemma OneZoneHourlyExample()
    ensures var ts := [0, NS_1H / 2, NS_1H, 2 * NS_1H];
            var zone := [7, 7, 7, 7];
            && WindowCount(ts, zone, 0, NS_1H) == 0
            && WindowCount(ts, zone, 1, NS_1H) == 1
            && WindowCount(ts, zone, 2, NS_1H) == 2
            && WindowCount(ts, zone, 3, NS_1H) == 1
  {
    var ts := [0, NS_1H / 2, NS_1H, 2 * NS_1H];
    var zone := [7, 7, 7, 7];
    // 00:30 counts 00:00 (at or after 23:30)
    assert CountPrior(ts, zone, 7, ts[1] - NS_1H, 1) == 1;
    // 01:00 counts 00:00 (exactly at the boundary) and 00:30
    assert CountPrior(ts, zone, 7, ts[2] - NS_1H, 1) == 1;
    assert CountPrior(ts, zone, 7, ts[2] - NS_1H, 2) == 2;
    // 02:00 counts only 01:00
    assert CountPrior(ts, zone, 7, ts[3] - NS_1H, 1) == 0;
    assert CountPrior(ts, zone, 7, ts[3] - NS_1H, 2) == 0;
    assert CountPrior(ts, zone, 7, ts[3] - NS_1H, 3) == 1;
  }
}
