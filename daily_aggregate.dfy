/** The sorted group-by on (date, zone) followed by a row count and column
    sums: the reduction behind the daily tables. Rows are kept in a list
    strictly ordered by (date, zone); each observation either joins the row
    of its key or opens a new row at its place. */
module DailyAggregate {

  /** Nanoseconds in a day. */
  const NS_PER_DAY: int := 86_400_000_000_000

  /** Date normalisation: the timestamp truncated to its midnight. */
  function Midnight(ts: int): (d: int)
    ensures d <= ts < d + NS_PER_DAY
    ensures d % NS_PER_DAY == 0
  {
    (ts / NS_PER_DAY) * NS_PER_DAY
  }

  /** One trip as seen by the group-by: its key and its value columns. */
  datatype Obs = Obs(date: int, zone: int, vals: seq<int>)

  /** One output row: the key, the group size and each value column's sum. */
  datatype GroupRow = GroupRow(date: int, zone: int, count: nat, sums: seq<int>)

  predicate KeyLt(d1: int, z1: int, d2: int, z2: int) {
    d1 < d2 || (d1 == d2 && z1 < z2)
  }

  /** Rows strictly ordered by (date, zone), hence no key twice. */
  predicate RowsSorted(rows: seq<GroupRow>) {
    forall i, j :: 0 <= i < j < |rows| ==>
      KeyLt(rows[i].date, rows[i].zone, rows[j].date, rows[j].zone)
  }

  /** Every row is non-empty and has one sum per value column. */
  predicate RowsWellFormed(rows: seq<GroupRow>, arity: nat) {
    forall i :: 0 <= i < |rows| ==> rows[i].count >= 1 && |rows[i].sums| == arity
  }

  predicate ObsWellFormed(obs: seq<Obs>, arity: nat) {
    forall i :: 0 <= i < |obs| ==> |obs[i].vals| == arity
  }

  function RowKeys(rows: seq<GroupRow>): set<(int, int)> {
    set i | 0 <= i < |rows| :: (rows[i].date, rows[i].zone)
  }

  function ObsKeys(obs: seq<Obs>): set<(int, int)> {
    set i | 0 <= i < |obs| :: (obs[i].date, obs[i].zone)
  }

  /** Sum of the group sizes of all rows. */
  function TotalCount(rows: seq<GroupRow>): nat {
    if rows == [] then 0 else rows[0].count + TotalCount(rows[1..])
  }

  /** Group size recorded for key (d, z), 0 when there is no such row. */
  function CountIn(rows: seq<GroupRow>, d: int, z: int): nat {
    if rows == [] then 0
    else (if rows[0].date == d && rows[0].zone == z then rows[0].count else 0) + CountIn(rows[1..], d, z)
  }

  /** Sum of column c recorded for key (d, z), 0 when there is no such row. */
  function SumIn(rows: seq<GroupRow>, d: int, z: int, c: nat): int {
    if rows == [] then 0
    else (if rows[0].date == d && rows[0].zone == z && c < |rows[0].sums| then rows[0].sums[c] else 0)
         + SumIn(rows[1..], d, z, c)
  }

  /** Reference semantics: the number of observations with key (d, z). */
  function KeyCount(obs: seq<Obs>, d: int, z: int): nat {
    if obs == [] then 0
    else (if obs[0].date == d && obs[0].zone == z then 1 else 0) + KeyCount(obs[1..], d, z)
  }

  /** Reference semantics: the sum of column c over the observations with key (d, z). */
  function KeySum(obs: seq<Obs>, d: int, z: int, c: nat): int {
    if obs == [] then 0
    else (if obs[0].date == d && obs[0].zone == z && c < |obs[0].vals| then obs[0].vals[c] else 0)
         + KeySum(obs[1..], d, z, c)
  }

  function AddVec(a: seq<int>, b: seq<int>): (r: seq<int>)
    requires |a| == |b|
    ensures |r| == |a| && forall c :: 0 <= c < |a| ==> r[c] == a[c] + b[c]
  {
    seq(|a|, c requires 0 <= c < |a| => a[c] + b[c])
  }

  lemma RowKeysCons(h: GroupRow, t: seq<GroupRow>)
    ensures RowKeys([h] + t) == {(h.date, h.zone)} + RowKeys(t)
  {
    var r := [h] + t;
    assert forall i :: 1 <= i < |r| ==> r[i] == t[i - 1];
    assert forall i :: 0 <= i < |t| ==> t[i] == r[i + 1];
    assert (h.date, h.zone) == (r[0].date, r[0].zone);
  }

  /** Consing a row whose key is below every old key and below the new one. */
  lemma ConsStaysSorted(h: GroupRow, tail: seq<GroupRow>, rest: seq<GroupRow>, o: Obs)
    requires RowsSorted([h] + tail) && RowsSorted(rest)
    requires RowKeys(rest) == RowKeys(tail) + {(o.date, o.zone)}
    requires KeyLt(h.date, h.zone, o.date, o.zone)
    ensures RowsSorted([h] + rest)
  {
    forall i | 0 <= i < |rest| ensures KeyLt(h.date, h.zone, rest[i].date, rest[i].zone) {
      assert (rest[i].date, rest[i].zone) in RowKeys(rest);
      if (rest[i].date, rest[i].zone) != (o.date, o.zone) {
        assert (rest[i].date, rest[i].zone) in RowKeys(tail);
        var j :| 0 <= j < |tail| && (tail[j].date, tail[j].zone) == (rest[i].date, rest[i].zone);
        assert ([h] + tail)[j + 1] == tail[j] && ([h] + tail)[0] == h;
      }
    }
    var r := [h] + rest;
    forall i, j | 0 <= i < j < |r| ensures KeyLt(r[i].date, r[i].zone, r[j].date, r[j].zone) {
      if i > 0 {
        assert r[i] == rest[i - 1] && r[j] == rest[j - 1];
      } else {
        assert r[j] == rest[j - 1];
      }
    }
  }

  /** A row whose key is below the first key of ordered rows can go in front. */
  lemma PrependSorted(h: GroupRow, t: seq<GroupRow>)
    requires RowsSorted(t) && (t == [] || KeyLt(h.date, h.zone, t[0].date, t[0].zone))
    ensures RowsSorted([h] + t)
  {
    var r := [h] + t;
    forall i, j | 0 <= i < j < |r| ensures KeyLt(r[i].date, r[i].zone, r[j].date, r[j].zone) {
      if i > 0 {
        assert r[i] == t[i - 1] && r[j] == t[j - 1];
      } else if j > 1 {
        assert r[j] == t[j - 1] && t[0] == r[1];
      }
    }
  }

  lemma WellFormedCons(h: GroupRow, t: seq<GroupRow>, arity: nat)
    requires h.count >= 1 && |h.sums| == arity && RowsWellFormed(t, arity)
    ensures RowsWellFormed([h] + t, arity)
  {
    var r := [h] + t;
    assert forall i :: 1 <= i < |r| ==> r[i] == t[i - 1];
  }

  /** The postcondition of `AddObs`, for a candidate result `r`. */
  predicate AddsKey(rows: seq<GroupRow>, o: Obs, arity: nat, r: seq<GroupRow>) {
    RowsSorted(r) && RowsWellFormed(r, arity) && RowKeys(r) == RowKeys(rows) + {(o.date, o.zone)}
  }

  /** An observation below every key opens a new first row. */
  lemma AddObsFront(rows: seq<GroupRow>, o: Obs, arity: nat)
    requires RowsSorted(rows) && RowsWellFormed(rows, arity) && |o.vals| == arity
    requires rows == [] || KeyLt(o.date, o.zone, rows[0].date, rows[0].zone)
    ensures AddsKey(rows, o, arity, [GroupRow(o.date, o.zone, 1, o.vals)] + rows)
  {
    var single := GroupRow(o.date, o.zone, 1, o.vals);
    PrependSorted(single, rows);
    RowKeysCons(single, rows);
    WellFormedCons(single, rows, arity);
  }

  /** An observation with the first row's key is merged into that row. */
  lemma AddObsMerge(rows: seq<GroupRow>, o: Obs, arity: nat)
    requires RowsSorted(rows) && RowsWellFormed(rows, arity) && |o.vals| == arity
    requires rows != [] && o.date == rows[0].date && o.zone == rows[0].zone
    ensures AddsKey(rows, o, arity,
                    [GroupRow(o.date, o.zone, rows[0].count + 1, AddVec(rows[0].sums, o.vals))] + rows[1..])
  {
    var h, t := rows[0], rows[1..];
    assert rows == [h] + t;
    var head := GroupRow(o.date, o.zone, h.count + 1, AddVec(h.sums, o.vals));
    assert t != [] ==> t[0] == rows[1];
    PrependSorted(head, t);
    RowKeysCons(head, t);
    RowKeysCons(h, t);
    WellFormedCons(head, t, arity);
  }

  /** An observation above the first key goes into the tail. */
  lemma AddObsBehind(rows: seq<GroupRow>, o: Obs, arity: nat, rest: seq<GroupRow>)
    requires RowsSorted(rows) && RowsWellFormed(rows, arity) && rows != []
    requires KeyLt(rows[0].date, rows[0].zone, o.date, o.zone)
    requires AddsKey(rows[1..], o, arity, rest)
    ensures AddsKey(rows, o, arity, [rows[0]] + rest)
  {
    var h, t := rows[0], rows[1..];
    assert rows == [h] + t;
    RowKeysCons(h, t);
    RowKeysCons(h, rest);
    ConsStaysSorted(h, t, rest, o);
    WellFormedCons(h, rest, arity);
  }

  /** Adds one observation to the ordered rows. */
  function AddObs(rows: seq<GroupRow>, o: Obs, arity: nat): (r: seq<GroupRow>)
    requires RowsSorted(rows) && RowsWellFormed(rows, arity) && |o.vals| == arity
    ensures RowsSorted(r) && RowsWellFormed(r, arity)
    ensures RowKeys(r) == RowKeys(rows) + {(o.date, o.zone)}
  {
    if rows == [] || KeyLt(o.date, o.zone, rows[0].date, rows[0].zone) then
      AddObsFront(rows, o, arity);
      [GroupRow(o.date, o.zone, 1, o.vals)] + rows
    else if o.date == rows[0].date && o.zone == rows[0].zone then
      AddObsMerge(rows, o, arity);
      [GroupRow(o.date, o.zone, rows[0].count + 1, AddVec(rows[0].sums, o.vals))] + rows[1..]
    else
      assert RowsSorted(rows[1..]) && RowsWellFormed(rows[1..], arity);
      var rest := AddObs(rows[1..], o, arity);
      AddObsBehind(rows, o, arity, rest);
      [rows[0]] + rest
  }

  /** Adding an observation adds one to the total. */
  lemma {:induction false} AddObsTotal(rows: seq<GroupRow>, o: Obs, arity: nat)
    requires RowsSorted(rows) && RowsWellFormed(rows, arity) && |o.vals| == arity
    ensures TotalCount(AddObs(rows, o, arity)) == TotalCount(rows) + 1
  {
    if rows != [] && !KeyLt(o.date, o.zone, rows[0].date, rows[0].zone)
       && !(o.date == rows[0].date && o.zone == rows[0].zone) {
      AddObsTotal(rows[1..], o, arity);
    }
  }

  /** Adding an observation adds one to the count of its own key only. */
  lemma {:induction false} AddObsCount(rows: seq<GroupRow>, o: Obs, arity: nat, d: int, z: int)
    requires RowsSorted(rows) && RowsWellFormed(rows, arity) && |o.vals| == arity
    ensures CountIn(AddObs(rows, o, arity), d, z) ==
      CountIn(rows, d, z) + (if d == o.date && z == o.zone then 1 else 0)
  {
    if rows != [] && !KeyLt(o.date, o.zone, rows[0].date, rows[0].zone)
       && !(o.date == rows[0].date && o.zone == rows[0].zone) {
      AddObsCount(rows[1..], o, arity, d, z);
    }
  }

  /** Adding an observation adds its values to the sums of its own key only. */
  lemma {:induction false} AddObsSum(rows: seq<GroupRow>, o: Obs, arity: nat, d: int, z: int, c: nat)
    requires RowsSorted(rows) && RowsWellFormed(rows, arity) && |o.vals| == arity
    ensures SumIn(AddObs(rows, o, arity), d, z, c) ==
      SumIn(rows, d, z, c) + (if d == o.date && z == o.zone && c < arity then o.vals[c] else 0)
  {
    if rows != [] && !KeyLt(o.date, o.zone, rows[0].date, rows[0].zone)
       && !(o.date == rows[0].date && o.zone == rows[0].zone) {
      AddObsSum(rows[1..], o, arity, d, z, c);
    }
  }

  /** The group-by: ordered rows, one per distinct (date, zone) key that occurs. */
  function Aggregate(obs: seq<Obs>, arity: nat): (r: seq<GroupRow>)
    requires ObsWellFormed(obs, arity)
    ensures RowsSorted(r) && RowsWellFormed(r, arity)
    ensures RowKeys(r) == ObsKeys(obs)
  {
    if obs == [] then []
    else
      var rest := Aggregate(obs[1..], arity);
      assert ObsKeys(obs) == {(obs[0].date, obs[0].zone)} + ObsKeys(obs[1..]) by {
        assert forall i :: 1 <= i < |obs| ==> obs[i] == obs[1..][i - 1];
        assert forall i :: 0 <= i < |obs| - 1 ==> obs[1..][i] == obs[i + 1];
      }
      AddObs(rest, obs[0], arity)
  }

  /** The group sizes add up to the number of observations. */
  lemma {:induction false} AggregateTotal(obs: seq<Obs>, arity: nat)
    requires ObsWellFormed(obs, arity)
    ensures TotalCount(Aggregate(obs, arity)) == |obs|
  {
    if obs != [] {
      AggregateTotal(obs[1..], arity);
      AddObsTotal(Aggregate(obs[1..], arity), obs[0], arity);
    }
  }

  /** The size recorded for each key is the number of observations with it. */
  lemma {:induction false} AggregateCount(obs: seq<Obs>, arity: nat, d: int, z: int)
    requires ObsWellFormed(obs, arity)
    ensures CountIn(Aggregate(obs, arity), d, z) == KeyCount(obs, d, z)
  {
    if obs != [] {
      AggregateCount(obs[1..], arity, d, z);
      AddObsCount(Aggregate(obs[1..], arity), obs[0], arity, d, z);
    }
  }

  /** The sum recorded for each key is that column's sum over its observations. */
  lemma {:induction false} AggregateSum(obs: seq<Obs>, arity: nat, d: int, z: int, c: nat)
    requires ObsWellFormed(obs, arity) && c < arity
    ensures SumIn(Aggregate(obs, arity), d, z, c) == KeySum(obs, d, z, c)
  {
    if obs != [] {
      AggregateSum(obs[1..], arity, d, z, c);
      AddObsSum(Aggregate(obs[1..], arity), obs[0], arity, d, z, c);
    }
  }

  /** The rows after row i all have larger keys, so none of them adds to
      the count or sums of row i's key. */
  lemma {:induction false} AboveKeyContributesNothing(rows: seq<GroupRow>, d: int, z: int, c: nat)
    requires forall i :: 0 <= i < |rows| ==> KeyLt(d, z, rows[i].date, rows[i].zone)
    ensures CountIn(rows, d, z) == 0 && SumIn(rows, d, z, c) == 0
  {
    if rows != [] {
      AboveKeyContributesNothing(rows[1..], d, z, c);
    }
  }

  /** In ordered rows, the count and sums recorded for row i's key are row i's own. */
  lemma {:induction false} RowIsItsKeysEntry(rows: seq<GroupRow>, i: nat, c: nat)
    requires RowsSorted(rows) && i < |rows|
    ensures CountIn(rows, rows[i].date, rows[i].zone) == rows[i].count
    ensures c < |rows[i].sums| ==> SumIn(rows, rows[i].date, rows[i].zone, c) == rows[i].sums[c]
  {
    if i == 0 {
      AboveKeyContributesNothing(rows[1..], rows[0].date, rows[0].zone, c);
    } else {
      assert rows[1..][i - 1] == rows[i];
      RowIsItsKeysEntry(rows[1..], i - 1, c);
    }
  }

  /** Each output row of the group-by: its size is the number of
      observations with its key (so at least one) and its sums are those
      observations' column sums. */
  lemma AggregateRow(obs: seq<Obs>, arity: nat, i: nat, c: nat)
    requires ObsWellFormed(obs, arity) && i < |Aggregate(obs, arity)|
    ensures var row := Aggregate(obs, arity)[i];
            && row.count == KeyCount(obs, row.date, row.zone) >= 1
            && |row.sums| == arity
            && (c < arity ==> row.sums[c] == KeySum(obs, row.date, row.zone, c))
  {
    var row := Aggregate(obs, arity)[i];
    RowIsItsKeysEntry(Aggregate(obs, arity), i, c);
    AggregateCount(obs, arity, row.date, row.zone);
    if c < arity {
      AggregateSum(obs, arity, row.date, row.zone, c);
    }
  }

  /** A key that no observation has has no row. */
  lemma AbsentKeyHasNoRow(obs: seq<Obs>, arity: nat, d: int, z: int)
    requires ObsWellFormed(obs, arity)
    requires forall k :: 0 <= k < |obs| ==> (obs[k].date, obs[k].zone) != (d, z)
    ensures forall i :: 0 <= i < |Aggregate(obs, arity)| ==>
      (Aggregate(obs, arity)[i].date, Aggregate(obs, arity)[i].zone) != (d, z)
  {
    var r := Aggregate(obs, arity);
    forall i | 0 <= i < |r| ensures (r[i].date, r[i].zone) != (d, z) {
      assert (r[i].date, r[i].zone) in RowKeys(r);
    }
  }

  /** Per-observation ordering of two value columns carries over to their sums. */
  lemma {:induction false} KeySumOrdered(obs: seq<Obs>, d: int, z: int, a: nat, b: nat)
    requires forall i :: 0 <= i < |obs| ==> a < |obs[i].vals| && b < |obs[i].vals| && obs[i].vals[a] <= obs[i].vals[b]
    ensures KeySum(obs, d, z, a) <= KeySum(obs, d, z, b)
  {
    if obs != [] {
      KeySumOrdered(obs[1..], d, z, a, b);
    }
  }

  /** Non-negative values give a non-negative sum. */
  lemma {:induction false} KeySumNonNegative(obs: seq<Obs>, d: int, z: int, a: nat)
    requires forall i :: 0 <= i < |obs| ==> a < |obs[i].vals| && 0 <= obs[i].vals[a]
    ensures 0 <= KeySum(obs, d, z, a)
  {
    if obs != [] {
      KeySumNonNegative(obs[1..], d, z, a);
    }
  }

  /** If column a never exceeds column b in any observation, the same holds
      of every output row's sums. */
  lemma SumsOrdered(obs: seq<Obs>, arity: nat, i: nat, a: nat, b: nat)
    requires ObsWellFormed(obs, arity) && i < |Aggregate(obs, arity)| && a < arity && b < arity
    requires forall k :: 0 <= k < |obs| ==> obs[k].vals[a] <= obs[k].vals[b]
    ensures Aggregate(obs, arity)[i].sums[a] <= Aggregate(obs, arity)[i].sums[b]
  {
    var row := Aggregate(obs, arity)[i];
    AggregateRow(obs, arity, i, a);
    AggregateRow(obs, arity, i, b);
    KeySumOrdered(obs, row.date, row.zone, a, b);
  }

  /** A column that is never negative has non-negative sums. */
  lemma SumNonNegative(obs: seq<Obs>, arity: nat, i: nat, a: nat)
    requires ObsWellFormed(obs, arity) && i < |Aggregate(obs, arity)| && a < arity
    requires forall k :: 0 <= k < |obs| ==> 0 <= obs[k].vals[a]
    ensures 0 <= Aggregate(obs, arity)[i].sums[a]
  {
    var row := Aggregate(obs, arity)[i];
    AggregateRow(obs, arity, i, a);
    KeySumNonNegative(obs, row.date, row.zone, a);
  }

  /** The exact mean of column c in a row (before any rounding). */
  function Mean(row: GroupRow, c: nat): real
    requires row.count >= 1 && c < |row.sums|
  {
    row.sums[c] as real / row.count as real
  }

  lemma RatioMonotone(a: int, b: int, n: nat)
    requires a <= b && n >= 1
    ensures a as real / n as real <= b as real / n as real
  {
    var q := n as real;
    assert a as real / q * q == a as real;
    assert b as real / q * q == b as real;
  }

  /** With three value columns ordered in every observation (and the first
      non-negative), the rows' means are ordered the same way. */
  lemma MeansNest(obs: seq<Obs>, i: nat)
    requires ObsWellFormed(obs, 3) && i < |Aggregate(obs, 3)|
    requires forall k :: 0 <= k < |obs| ==> 0 <= obs[k].vals[0] <= obs[k].vals[1] <= obs[k].vals[2]
    ensures var row := Aggregate(obs, 3)[i];
            row.count >= 1 && |row.sums| == 3 && 0.0 <= Mean(row, 0) <= Mean(row, 1) <= Mean(row, 2)
  {
    var row := Aggregate(obs, 3)[i];
    AggregateRow(obs, 3, i, 0);
    SumsOrdered(obs, 3, i, 0, 1);
    SumsOrdered(obs, 3, i, 1, 2);
    SumNonNegative(obs, 3, i, 0);
    RowMeansNest(row);
  }

  lemma RowMeansNest(row: GroupRow)
    requires row.count >= 1 && |row.sums| == 3 && 0 <= row.sums[0] <= row.sums[1] <= row.sums[2]
    ensures 0.0 <= Mean(row, 0) <= Mean(row, 1) <= Mean(row, 2)
  {
    RatioMonotone(0, row.sums[0], row.count);
    RatioMonotone(row.sums[0], row.sums[1], row.count);
    RatioMonotone(row.sums[1], row.sums[2], row.count);
  }
}
