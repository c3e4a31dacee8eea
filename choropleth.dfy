/** build_animated_choropleth.py: the shapefile's polygons split into rings
    and keyed by zone, the sorted list of days, and the pairing of each
    ring with its zone's colour for one day's frame. Colours come from a
    caller-given function of the day's count; drawing is not modelled. */
module Choropleth {
  import opened Wrappers
  import opened Sorting
  import opened DailyAggregate
  import Trips
  import DailyCounts

  datatype Point = Point(x: real, y: real)

  /** One polygon ring: a run of the shape's points. */
  type Ring = seq<Point>

  /** A shapefile record: its attribute fields, its points and `parts`, the
      index of the first point of each ring. */
  datatype ShapeRecord = ShapeRecord(fields: map<string, int>, points: seq<Point>, parts: seq<int>)

  /** The record's LocationID field, or 0 when the record has none. */
  function LocationId(r: ShapeRecord): int {
    if "LocationID" in r.fields then r.fields["LocationID"] else 0
  }

  // ---------------------------------------------------------------------
  // Ring splitting
  // ---------------------------------------------------------------------

  /** A slice bound as Python reads it: negative counts from the end, and
      the result is clamped to [0, n]. */
  function ClampIndex(i: int, n: nat): (k: nat)
    ensures k <= n
    ensures 0 <= i <= n ==> k == i
  {
    if i < 0 then (if i + n < 0 then 0 else i + n)
    else if i > n then n
    else i
  }

  /** A Python slice from a to b of a sequence or array. */
  function PySlice<T>(s: seq<T>, a: int, b: int): (r: seq<T>)
    ensures |r| <= |s|
    ensures 0 <= a <= b <= |s| ==> r == s[a..b]
  {
    var lo, hi := ClampIndex(a, |s|), ClampIndex(b, |s|);
    if lo < hi then s[lo..hi] else []
  }

  /** The ring boundaries: the part offsets followed by the point count. */
  function Bounds(r: ShapeRecord): (b: seq<int>)
    ensures |b| == |r.parts| + 1 && b[|r.parts|] == |r.points|
    ensures forall i :: 0 <= i < |r.parts| ==> b[i] == r.parts[i]
  {
    r.parts + [|r.points|]
  }

  /** The ring comprehension: ring i is the slice of the points between
      boundary i and boundary i + 1, one ring per entry of `parts`. */
  function Rings(r: ShapeRecord): (rings: seq<Ring>)
    ensures |rings| == |r.parts|
  {
    var b := Bounds(r);
    seq(|r.parts|, i requires 0 <= i < |r.parts| => PySlice(r.points, b[i], b[i + 1]))
  }

  /** `parts` as the shapefile format describes it: it starts at 0, never
      decreases and stays within the points. */
  predicate ValidParts(r: ShapeRecord) {
    && |r.parts| >= 1 && r.parts[0] == 0
    && (forall i, j :: 0 <= i <= j < |r.parts| ==> r.parts[i] <= r.parts[j])
    && (forall i :: 0 <= i < |r.parts| ==> r.parts[i] <= |r.points|)
  }

  /** With valid parts, ring i is exactly the points from parts[i] up to the
      next part (or the end). */
  lemma RingsAreSlices(r: ShapeRecord, i: nat)
    requires ValidParts(r) && i < |r.parts|
    ensures var b := Bounds(r);
            0 <= b[i] <= b[i + 1] <= |r.points| && Rings(r)[i] == r.points[b[i]..b[i + 1]]
  {
    var b := Bounds(r);
    assert 0 <= r.parts[0] <= r.parts[i];
    if i + 1 < |r.parts| {
      assert r.parts[i] <= r.parts[i + 1];
    }
  }

  /** The concatenation of a sequence of sequences. */
  function Flatten<T>(ss: seq<seq<T>>): (r: seq<T>)
  {
    if ss == [] then [] else Flatten(ss[..|ss| - 1]) + ss[|ss| - 1]
  }

  /** Ring i is the slice of the points between boundaries i and i + 1. */
  ghost predicate SliceAt<T>(pts: seq<T>, b: seq<int>, rings: seq<seq<T>>, i: nat)
    requires i < |rings| && |b| == |rings| + 1
  {
    0 <= b[i] <= b[i + 1] <= |pts| && rings[i] == pts[b[i]..b[i + 1]]
  }

  /** Consecutive slices between non-decreasing boundaries starting at 0
      put back together give the points up to the last boundary used. */
  lemma {:induction false} FlattenSlices<T>(pts: seq<T>, b: seq<int>, rings: seq<seq<T>>, j: nat)
    requires |b| == |rings| + 1 && j <= |rings| && b[0] == 0
    requires forall i :: 0 <= i < |rings| ==> SliceAt(pts, b, rings, i)
    ensures 0 <= b[j] <= |pts| && Flatten(rings[..j]) == pts[..b[j]]
  {
    if j == 0 {
      assert rings[..0] == [];
      assert pts[..0] == [];
    } else {
      FlattenSlices(pts, b, rings, j - 1);
      assert SliceAt(pts, b, rings, j - 1);
      var rs := rings[..j];
      assert rs[..j - 1] == rings[..j - 1] && rs[j - 1] == rings[j - 1];
      assert pts[..b[j]] == pts[..b[j - 1]] + pts[b[j - 1]..b[j]];
    }
  }

  /** With valid parts, the rings put back together are the shape's points:
      splitting loses and duplicates nothing. */
  lemma RingsCoverPoints(r: ShapeRecord)
    requires ValidParts(r)
    ensures Flatten(Rings(r)) == r.points
  {
    var b, rings := Bounds(r), Rings(r);
    forall i | 0 <= i < |rings| ensures SliceAt(r.points, b, rings, i) {
      RingsAreSlices(r, i);
    }
    FlattenSlices(r.points, b, rings, |rings|);
    assert rings[..|rings|] == rings;
    assert r.points[..|r.points|] == r.points;
  }

  // ---------------------------------------------------------------------
  // zone_polygons: an insertion-ordered dictionary
  // ---------------------------------------------------------------------

  /** One entry of `zone_polygons`. */
  datatype ZoneEntry = ZoneEntry(loc: int, rings: seq<Ring>)

  /** The dictionary's keys, in iteration (first insertion) order. */
  function Keys(d: seq<ZoneEntry>): (ks: seq<int>)
    ensures |ks| == |d| && forall i :: 0 <= i < |d| ==> ks[i] == d[i].loc
  {
    seq(|d|, i requires 0 <= i < |d| => d[i].loc)
  }

  function Lookup(d: seq<ZoneEntry>, k: int): Option<seq<Ring>> {
    if d == [] then None
    else if d[0].loc == k then Some(d[0].rings)
    else Lookup(d[1..], k)
  }

  lemma KeysCons(h: ZoneEntry, t: seq<ZoneEntry>)
    ensures Keys([h] + t) == [h.loc] + Keys(t)
  {
  }

  lemma LookupCons(h: ZoneEntry, t: seq<ZoneEntry>, k: int)
    ensures Lookup([h] + t, k) == if h.loc == k then Some(h.rings) else Lookup(t, k)
  {
    assert ([h] + t)[1..] == t;
  }

  /** Assignment to key k of a Python dict: an existing key keeps its place
      and takes the new value, a new key goes last; no other key changes. */
  function Put(d: seq<ZoneEntry>, k: int, v: seq<Ring>): (r: seq<ZoneEntry>)
    ensures Lookup(r, k) == Some(v)
    ensures forall k' :: k' != k ==> Lookup(r, k') == Lookup(d, k')
    ensures Keys(r) == if k in Keys(d) then Keys(d) else Keys(d) + [k]
  {
    if d == [] then [ZoneEntry(k, v)]
    else
      var h, t := d[0], d[1..];
      assert d == [h] + t;
      KeysCons(h, t);
      if h.loc == k then
        KeysCons(ZoneEntry(k, v), t);
        LookupCons(ZoneEntry(k, v), t, k);
        assert forall k' :: k' != k ==> Lookup([ZoneEntry(k, v)] + t, k') == Lookup(t, k') == Lookup(d, k') by {
          forall k' | k' != k ensures Lookup([ZoneEntry(k, v)] + t, k') == Lookup(t, k') == Lookup(d, k') {
            LookupCons(ZoneEntry(k, v), t, k');
            LookupCons(h, t, k');
          }
        }
        [ZoneEntry(k, v)] + t
      else
        var rest := Put(t, k, v);
        KeysCons(h, rest);
        LookupCons(h, rest, k);
        assert forall k' :: k' != k ==> Lookup([h] + rest, k') == Lookup(d, k') by {
          forall k' | k' != k ensures Lookup([h] + rest, k') == Lookup(d, k') {
            LookupCons(h, rest, k');
            LookupCons(h, t, k');
          }
        }
        [h] + rest
  }

  /** The loop over the shape records: a record with at least one ring sets
      its zone's entry; a record with none is passed over. */
  function ZonePolygons(records: seq<ShapeRecord>): seq<ZoneEntry> {
    if records == [] then []
    else
      var d := ZonePolygons(records[..|records| - 1]);
      var r := records[|records| - 1];
      if |Rings(r)| > 0 then Put(d, LocationId(r), Rings(r)) else d
  }

  /** Reference semantics: the rings of the last record of zone z that has
      rings, if there is one. */
  function LastRingsFor(records: seq<ShapeRecord>, z: int): Option<seq<Ring>> {
    if records == [] then None
    else
      var later := LastRingsFor(records[1..], z);
      if later.Some? then later
      else if LocationId(records[0]) == z && |Rings(records[0])| > 0 then Some(Rings(records[0]))
      else None
  }

  lemma {:induction false} LastRingsForSnoc(s: seq<ShapeRecord>, x: ShapeRecord, z: int)
    ensures LastRingsFor(s + [x], z)
            == if LocationId(x) == z && |Rings(x)| > 0 then Some(Rings(x)) else LastRingsFor(s, z)
  {
    if s == [] {
      assert ([] + [x])[1..] == [];
    } else {
      assert (s + [x])[1..] == s[1..] + [x];
      LastRingsForSnoc(s[1..], x, z);
    }
  }

  /** Zone z's entry holds the rings of the last record with LocationID z
      (0 when the field is absent) that has rings: a later record
      overwrites an earlier one, and a record without rings changes
      nothing. */
  lemma {:induction false} ZonePolygonsLookup(records: seq<ShapeRecord>, z: int)
    ensures Lookup(ZonePolygons(records), z) == LastRingsFor(records, z)
  {
    if records != [] {
      var pre, r := records[..|records| - 1], records[|records| - 1];
      assert records == pre + [r];
      ZonePolygonsLookup(pre, z);
      LastRingsForSnoc(pre, r, z);
    }
  }

  /** A record with rings but no LocationID field sets the entry of zone 0. */
  lemma MissingIdIsZoneZero(records: seq<ShapeRecord>, r: ShapeRecord)
    requires "LocationID" !in r.fields && |Rings(r)| > 0
    ensures Lookup(ZonePolygons(records + [r]), 0) == Some(Rings(r))
    ensures 0 in Keys(ZonePolygons(records + [r]))
  {
    assert (records + [r])[..|records|] == records;
  }

  /** The LocationIDs of the records that have rings, in record order. */
  function IdsWithRings(records: seq<ShapeRecord>): seq<int> {
    if records == [] then []
    else
      var r := records[|records| - 1];
      IdsWithRings(records[..|records| - 1]) + (if |Rings(r)| > 0 then [LocationId(r)] else [])
  }

  /** `zone_polygons` iterates its zones in order of first appearance among
      the records with rings, each zone once. */
  lemma {:induction false} ZonePolygonsKeys(records: seq<ShapeRecord>)
    ensures Keys(ZonePolygons(records)) == UniqueInOrder(IdsWithRings(records))
    ensures NoDup(Keys(ZonePolygons(records)))
  {
    if records != [] {
      var pre, r := records[..|records| - 1], records[|records| - 1];
      ZonePolygonsKeys(pre);
      var ids := IdsWithRings(pre);
      if |Rings(r)| > 0 {
        var id := LocationId(r);
        assert IdsWithRings(records) == ids + [id];
        assert (ids + [id])[..|ids|] == ids;
        assert UniqueInOrder(ids + [id])
               == (if id in UniqueInOrder(ids) then UniqueInOrder(ids) else UniqueInOrder(ids) + [id]);
        assert ZonePolygons(records) == Put(ZonePolygons(pre), id, Rings(r));
      } else {
        assert IdsWithRings(records) == ids;
        assert ZonePolygons(records) == ZonePolygons(pre);
      }
    }
  }

  /** The loop at the top of the script, filling `zone_polygons`. */
  method BuildZonePolygons(records: seq<ShapeRecord>) returns (polys: seq<ZoneEntry>)
    ensures polys == ZonePolygons(records)
  {
    polys := [];
    for i := 0 to |records|
      invariant polys == ZonePolygons(records[..i])
    {
      var r := records[i];
      assert records[..i + 1][..i] == records[..i];
      var rings := Rings(r);
      if |rings| > 0 {
        polys := Put(polys, LocationId(r), rings);
      }
    }
    assert records[..|records|] == records;
  }

  // ---------------------------------------------------------------------
  // The day list and the per-day lookup
  // ---------------------------------------------------------------------

  /** The script names the day a date falls on by a year-month-day string; the model uses
      the day number, whose order is the order of those strings. */
  function DayKey(date: int): (k: int)
    ensures k * NS_PER_DAY <= date < (k + 1) * NS_PER_DAY
  {
    date / NS_PER_DAY
  }

  /** A timestamp and its midnight name the same day. */
  lemma DayKeyOfMidnight(ts: int)
    ensures DayKey(Midnight(ts)) == DayKey(ts)
  {
    var k := DayKey(ts);
    assert Midnight(ts) == k * NS_PER_DAY;
  }

  /** The midnight of day k names day k. */
  lemma DayKeyOfMultiple(k: int)
    ensures DayKey(k * NS_PER_DAY) == k
  {
  }

  /** Two midnights name the same day exactly when they are the same date. */
  lemma DayKeySeparatesMidnights(a: int, b: int)
    requires a % NS_PER_DAY == 0 && b % NS_PER_DAY == 0
    ensures DayKey(a) == DayKey(b) <==> a == b
  {
    assert a == DayKey(a) * NS_PER_DAY;
    assert b == DayKey(b) * NS_PER_DAY;
  }

  function DayKeys(counts: seq<GroupRow>): (ks: seq<int>)
    ensures |ks| == |counts| && forall i :: 0 <= i < |counts| ==> ks[i] == DayKey(counts[i].date)
  {
    seq(|counts|, i requires 0 <= i < |counts| => DayKey(counts[i].date))
  }

  predicate IntLe(a: int, b: int) {
    a <= b
  }

  /** The distinct day names of the table, sorted. */
  function AllDates(counts: seq<GroupRow>): seq<int> {
    SortBy(UniqueInOrder(DayKeys(counts)), IntLe)
  }

  /** The day list is strictly ascending and holds exactly the days that
      occur in the table. */
  lemma AllDatesFacts(counts: seq<GroupRow>)
    ensures var ds := AllDates(counts);
            && (forall i, j :: 0 <= i < j < |ds| ==> ds[i] < ds[j])
            && (forall d :: d in ds <==> exists i :: 0 <= i < |counts| && DayKey(counts[i].date) == d)
  {
    var u := UniqueInOrder(DayKeys(counts));
    var ds := AllDates(counts);
    PermutationKeepsNoDup(u, ds);
    forall d ensures d in ds <==> d in u {
      assert d in ds <==> d in multiset(ds);
      assert d in u <==> d in multiset(u);
    }
    forall d | d in DayKeys(counts) ensures exists i :: 0 <= i < |counts| && DayKey(counts[i].date) == d {
      var i :| 0 <= i < |counts| && DayKeys(counts)[i] == d;
    }
  }

  /** The day's lookup with default 0: the ride count of the zone's
      row on that day, 0 when it has none. */
  function DayCount(counts: seq<GroupRow>, day: int, z: int): nat {
    if counts == [] then 0
    else if DayKey(counts[0].date) == day && counts[0].zone == z then counts[0].count
    else DayCount(counts[1..], day, z)
  }

  /** A zone with no row on the day gets count 0. */
  lemma {:induction false} DayCountAbsent(counts: seq<GroupRow>, day: int, z: int)
    requires forall i :: 0 <= i < |counts| ==> !(DayKey(counts[i].date) == day && counts[i].zone == z)
    ensures DayCount(counts, day, z) == 0
  {
    if counts != [] {
      assert forall i :: 0 <= i < |counts| - 1 ==> counts[1..][i] == counts[i + 1];
      DayCountAbsent(counts[1..], day, z);
    }
  }

  /** Every date of the table is a midnight. */
  predicate MidnightDates(counts: seq<GroupRow>) {
    forall i :: 0 <= i < |counts| ==> counts[i].date % NS_PER_DAY == 0
  }

  /** In an ordered table of midnights, a zone's row on the day gives its
      count. */
  lemma {:induction false} DayCountOfRow(counts: seq<GroupRow>, i: nat)
    requires RowsSorted(counts) && MidnightDates(counts) && i < |counts|
    ensures DayCount(counts, DayKey(counts[i].date), counts[i].zone) == counts[i].count
  {
    var day := DayKey(counts[i].date);
    if DayKey(counts[0].date) == day && counts[0].zone == counts[i].zone {
      assert counts[0].date == DayKey(counts[0].date) * NS_PER_DAY;
      assert counts[i].date == day * NS_PER_DAY;
      if i > 0 {
        assert false;
      }
    } else {
      if i == 0 {
        assert false;
      }
      assert counts[1..][i - 1] == counts[i];
      DayCountOfRow(counts[1..], i - 1);
    }
  }

  lemma {:induction false} RideObsMidnight(raw: seq<Trips.RawTrip>)
    ensures forall k :: 0 <= k < |DailyCounts.RideObs(raw)| ==> DailyCounts.RideObs(raw)[k].date % NS_PER_DAY == 0
  {
    if raw != [] {
      RideObsMidnight(raw[1..]);
    }
  }

  /** Every date of load_and_aggregate's table is a midnight. */
  lemma DailyCountsMidnight(raw: seq<Trips.RawTrip>)
    ensures MidnightDates(DailyCounts.DailyZoneCounts(raw))
  {
    var rows := DailyCounts.DailyZoneCounts(raw);
    var obs := DailyCounts.RideObs(raw);
    RideObsMidnight(raw);
    forall i | 0 <= i < |rows| ensures rows[i].date % NS_PER_DAY == 0 {
      assert (rows[i].date, rows[i].zone) in RowKeys(rows);
      var k :| 0 <= k < |obs| && (obs[k].date, obs[k].zone) == (rows[i].date, rows[i].zone);
    }
  }

  /** The day lookup over load_and_aggregate's table: zone z's count on day
      `day` is the number of loaded rows of zone z picked up that day, and
      0 when there are none. */
  lemma DayCountIsRidesOn(raw: seq<Trips.RawTrip>, day: int, z: int)
    ensures DayCount(DailyCounts.DailyZoneCounts(raw), day, z) == DailyCounts.RidesOn(raw, day * NS_PER_DAY, z)
  {
    var rows := DailyCounts.DailyZoneCounts(raw);
    if i :| 0 <= i < |rows| && DayKey(rows[i].date) == day && rows[i].zone == z {
      DayCountPresent(raw, day, z, i);
    } else {
      DayCountMissing(raw, day, z);
    }
  }

  /** A zone with a row on the day: the row's ride count. */
  lemma DayCountPresent(raw: seq<Trips.RawTrip>, day: int, z: int, i: nat)
    requires i < |DailyCounts.DailyZoneCounts(raw)|
    requires DayKey(DailyCounts.DailyZoneCounts(raw)[i].date) == day
    requires DailyCounts.DailyZoneCounts(raw)[i].zone == z
    ensures DayCount(DailyCounts.DailyZoneCounts(raw), day, z) == DailyCounts.RidesOn(raw, day * NS_PER_DAY, z)
  {
    var rows := DailyCounts.DailyZoneCounts(raw);
    DailyCountsMidnight(raw);
    DailyCounts.DailyZoneCountsKeys(raw, day * NS_PER_DAY, z);
    DayKeySeparatesMidnights(rows[i].date, day * NS_PER_DAY);
    DayCountOfRow(rows, i);
    DailyCounts.RideCountIsRidesOn(raw, i);
  }

  /** A zone without a row on the day: no loaded row, and count 0. */
  lemma DayCountMissing(raw: seq<Trips.RawTrip>, day: int, z: int)
    requires forall i :: 0 <= i < |DailyCounts.DailyZoneCounts(raw)| ==>
               !(DayKey(DailyCounts.DailyZoneCounts(raw)[i].date) == day && DailyCounts.DailyZoneCounts(raw)[i].zone == z)
    ensures DayCount(DailyCounts.DailyZoneCounts(raw), day, z) == 0
    ensures DailyCounts.RidesOn(raw, day * NS_PER_DAY, z) == 0
  {
    var rows := DailyCounts.DailyZoneCounts(raw);
    DailyCounts.DailyZoneCountsKeys(raw, day * NS_PER_DAY, z);
    DayKeyOfMultiple(day);
    forall i | 0 <= i < |rows| ensures (rows[i].date, rows[i].zone) != (day * NS_PER_DAY, z) {
      assert !(DayKey(rows[i].date) == day && rows[i].zone == z);
    }
    assert (day * NS_PER_DAY, z) !in RowKeys(rows);
    DayCountAbsent(rows, day, z);
  }

  // ---------------------------------------------------------------------
  // make_frame: one patch and one colour per ring
  // ---------------------------------------------------------------------

  /** Every ring of the dictionary, in iteration order. */
  function AllRings(polys: seq<ZoneEntry>): seq<Ring> {
    if polys == [] then [] else AllRings(polys[..|polys| - 1]) + polys[|polys| - 1].rings
  }

  function TotalRings(polys: seq<ZoneEntry>): nat {
    if polys == [] then 0 else TotalRings(polys[..|polys| - 1]) + |polys[|polys| - 1].rings|
  }

  function Repeat<C>(x: C, n: nat): (r: seq<C>)
    ensures |r| == n && forall i :: 0 <= i < n ==> r[i] == x
  {
    if n == 0 then [] else Repeat(x, n - 1) + [x]
  }

  /** The colour of zone z on the day. */
  function ZoneColour<C>(counts: seq<GroupRow>, day: int, z: int, colourOf: int -> C): C {
    colourOf(DayCount(counts, day, z))
  }

  /** One colour per ring, each ring taking its zone's colour. */
  function FrameColours<C>(polys: seq<ZoneEntry>, counts: seq<GroupRow>, day: int, colourOf: int -> C): seq<C> {
    if polys == [] then []
    else
      var e := polys[|polys| - 1];
      FrameColours(polys[..|polys| - 1], counts, day, colourOf) + Repeat(ZoneColour(counts, day, e.loc, colourOf), |e.rings|)
  }

  /** `patches` and `colours` end with the same length, the total number of
      rings. */
  lemma {:induction false} FrameLockstep<C>(polys: seq<ZoneEntry>, counts: seq<GroupRow>, day: int, colourOf: int -> C)
    ensures |AllRings(polys)| == TotalRings(polys) == |FrameColours(polys, counts, day, colourOf)|
  {
    if polys != [] {
      FrameLockstep(polys[..|polys| - 1], counts, day, colourOf);
    }
  }

  /** Ring j of the k-th zone sits at position TotalRings(polys[..k]) + j of
      `patches`, and `colours` holds that zone's colour at the same position. */
  lemma {:induction false} RingColour<C>(polys: seq<ZoneEntry>, counts: seq<GroupRow>, day: int,
                                         colourOf: int -> C, k: nat, j: nat)
    requires k < |polys| && j < |polys[k].rings|
    ensures var o := TotalRings(polys[..k]) + j;
            && o < |AllRings(polys)| && o < |FrameColours(polys, counts, day, colourOf)|
            && AllRings(polys)[o] == polys[k].rings[j]
            && FrameColours(polys, counts, day, colourOf)[o] == ZoneColour(counts, day, polys[k].loc, colourOf)
  {
    var pre := polys[..|polys| - 1];
    FrameLockstep(pre, counts, day, colourOf);
    FrameLockstep(polys, counts, day, colourOf);
    if k == |polys| - 1 {
      assert polys[..k] == pre;
    } else {
      assert pre[k] == polys[k];
      assert pre[..k] == polys[..k];
      RingColour(pre, counts, day, colourOf, k, j);
      FrameLockstep(polys[..k + 1], counts, day, colourOf);
      TotalRingsMonotone(polys, k + 1);
      assert polys[..k + 1][..k] == polys[..k];
    }
  }

  /** The rings of a prefix never outnumber the rings of the whole. */
  lemma {:induction false} TotalRingsMonotone(polys: seq<ZoneEntry>, k: nat)
    requires k <= |polys|
    ensures TotalRings(polys[..k]) <= TotalRings(polys)
  {
    if k < |polys| {
      var pre := polys[..|polys| - 1];
      assert pre[..k] == polys[..k];
      TotalRingsMonotone(pre, k);
    } else {
      assert polys[..k] == polys;
    }
  }

  /** `make_frame`'s loop over the entries of `zone_polygons`: each ring becomes a
      patch and gets its zone's colour for the day. */
  method MakeFrame<C>(polys: seq<ZoneEntry>, counts: seq<GroupRow>, day: int, colourOf: int -> C)
    returns (patches: seq<Ring>, colours: seq<C>)
    ensures patches == AllRings(polys)
    ensures colours == FrameColours(polys, counts, day, colourOf)
  {
    patches, colours := [], [];
    for k := 0 to |polys|
      invariant patches == AllRings(polys[..k])
      invariant colours == FrameColours(polys[..k], counts, day, colourOf)
    {
      var e := polys[k];
      assert polys[..k + 1][..k] == polys[..k];
      var count := DayCount(counts, day, e.loc);
      var colour := colourOf(count);
      ghost var before := colours;
      for j := 0 to |e.rings|
        invariant patches == AllRings(polys[..k]) + e.rings[..j]
        invariant colours == before + Repeat(colour, j)
      {
        assert e.rings[..j + 1] == e.rings[..j] + [e.rings[j]];
        patches := patches + [e.rings[j]];
        colours := colours + [colour];
      }
      assert e.rings[..|e.rings|] == e.rings;
    }
    assert polys[..|polys|] == polys;
  }
}
