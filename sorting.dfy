/** A sort by a caller-given total preorder, standing for the library sorts
    of the pipeline (pandas `sort_values`, Python `sorted`). Only sortedness
    and permutation are promised: the order among ties is not. */
module Sorting {

  /** `le` is total and transitive. */
  ghost predicate TotalPreorder<T(!new)>(le: (T, T) -> bool) {
    && (forall a, b :: le(a, b) || le(b, a))
    && (forall a, b, c :: le(a, b) && le(b, c) ==> le(a, c))
  }

  predicate SortedBy<T>(s: seq<T>, le: (T, T) -> bool) {
    forall i, j :: 0 <= i < j < |s| ==> le(s[i], s[j])
  }

  /** No element occurs twice. */
  predicate NoDup<T(==)>(s: seq<T>) {
    forall i, j :: 0 <= i < j < |s| ==> s[i] != s[j]
  }

  function Insert<T(!new)>(x: T, s: seq<T>, le: (T, T) -> bool): (r: seq<T>)
    requires TotalPreorder(le) && SortedBy(s, le)
    ensures SortedBy(r, le)
    ensures multiset(r) == multiset(s) + multiset{x}
  {
    if s == [] then [x]
    else if le(x, s[0]) then [x] + s
    else
      var rest := Insert(x, s[1..], le);
      assert s == [s[0]] + s[1..];
      HeadBelowInsert(x, s, rest, le);
      [s[0]] + rest
  }

  /** The head of a sorted sequence is below every element of the sequence
      that inserts x into its tail, when x does not go before the head. */
  lemma HeadBelowInsert<T(!new)>(x: T, s: seq<T>, rest: seq<T>, le: (T, T) -> bool)
    requires TotalPreorder(le) && SortedBy(s, le) && |s| > 0 && !le(x, s[0])
    requires SortedBy(rest, le) && multiset(rest) == multiset(s[1..]) + multiset{x}
    ensures SortedBy([s[0]] + rest, le)
  {
    forall k | 0 <= k < |rest| ensures le(s[0], rest[k]) {
      assert rest[k] in multiset(rest);
      if rest[k] != x {
        assert rest[k] in multiset(s[1..]);
        var i :| 0 <= i < |s[1..]| && s[1..][i] == rest[k];
        assert s[1 + i] == rest[k];
      }
    }
  }

  function SortBy<T(!new)>(s: seq<T>, le: (T, T) -> bool): (r: seq<T>)
    requires TotalPreorder(le)
    ensures SortedBy(r, le)
    ensures multiset(r) == multiset(s)
    ensures |r| == |s|
  {
    if s == [] then []
    else
      assert s == [s[0]] + s[1..];
      Insert(s[0], SortBy(s[1..], le), le)
  }

  /** The multiplicity of any value in a duplicate-free sequence is at most one. */
  lemma {:induction false} NoDupMultiplicity<T>(s: seq<T>, x: T)
    requires NoDup(s)
    ensures multiset(s)[x] <= 1
  {
    if s != [] {
      assert s == [s[0]] + s[1..];
      assert NoDup(s[1..]);
      NoDupMultiplicity(s[1..], x);
      if s[0] == x {
        assert x !in s[1..];
        assert multiset(s[1..])[x] == 0;
      }
    }
  }

  /** A permutation of a duplicate-free sequence is duplicate-free. */
  lemma PermutationKeepsNoDup<T>(a: seq<T>, b: seq<T>)
    requires NoDup(a) && multiset(a) == multiset(b)
    ensures NoDup(b)
  {
    forall i, j | 0 <= i < j < |b| ensures b[i] != b[j] {
      if b[i] == b[j] {
        assert b == b[..j] + b[j..];
        assert b[i] in b[..j];
        assert b[j] in b[j..];
        assert multiset(b)[b[i]] == multiset(b[..j])[b[i]] + multiset(b[j..])[b[i]];
        NoDupMultiplicity(a, b[i]);
        assert false;
      }
    }
  }

  /** pandas `unique()`: each value once, in order of first appearance. */
  function UniqueInOrder<T(==,!new)>(xs: seq<T>): (r: seq<T>)
    ensures NoDup(r)
    ensures forall x :: x in r <==> x in xs
  {
    if xs == [] then []
    else
      var r := UniqueInOrder(xs[..|xs| - 1]);
      var x := xs[|xs| - 1];
      assert xs == xs[..|xs| - 1] + [x];
      if x in r then r else r + [x]
  }

  /** Every occurrence of v in xs is preceded by an occurrence of u. */
  ghost predicate AppearsBefore<T>(xs: seq<T>, u: T, v: T) {
    forall b :: 0 <= b < |xs| && xs[b] == v ==> u in xs[..b]
  }

  /** Order of first appearance: wherever a later value of the result occurs
      in the input, every earlier value of the result has occurred before it. */
  lemma {:induction false} UniqueInOrderFirstAppearance<T(!new)>(xs: seq<T>)
    ensures forall i, j :: 0 <= i < j < |UniqueInOrder(xs)| ==>
              AppearsBefore(xs, UniqueInOrder(xs)[i], UniqueInOrder(xs)[j])
  {
    if xs != [] {
      var pre := xs[..|xs| - 1];
      var x := xs[|xs| - 1];
      UniqueInOrderFirstAppearance(pre);
      var rp := UniqueInOrder(pre);
      var r := UniqueInOrder(xs);
      assert r == if x in rp then rp else rp + [x];
      forall i, j | 0 <= i < j < |r|
        ensures AppearsBefore(xs, r[i], r[j])
      {
        assert i < |rp| && r[i] == rp[i];
        forall b | 0 <= b < |xs| && xs[b] == r[j]
          ensures r[i] in xs[..b]
        {
          if b < |pre| {
            assert xs[..b] == pre[..b];
            assert pre[b] == r[j];
            assert r[j] in rp;
            assert j < |rp| && r[j] == rp[j];
            assert AppearsBefore(pre, rp[i], rp[j]);
          } else {
            assert xs[..b] == pre;
            assert rp[i] in rp;
          }
        }
      }
    }
  }
}
