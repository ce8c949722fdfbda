/**
 The two row orders the dashboard sorts by: ascending date
 (`sort_values("date")`) and descending value of a metric column
 (`sort_values(col, ascending=False)`, missing values last). pandas' default
 sort is not stable; this module sorts with one stable insertion sort, and
 every property proved about the sorted output holds for any sort, since it
 rests only on the output being ordered and a permutation of the input.
 */
module Sorting {
  import opened Table

  datatype Order = DateAscending | MetricDescending(col: Column)

  /** `a` may be placed before `b`. A missing value sorts after every present one. */
  predicate Before(ord: Order, a: Row, b: Row)
  {
    match ord
    case DateAscending => a.obs.date <= b.obs.date
    case MetricDescending(col) =>
      var x, y := Field(a.obs, col), Field(b.obs, col);
      y.None? || (x.Some? && x.value >= y.value)
  }

  /** Both orders are total preorders, so a sorted arrangement always exists. */
  lemma BeforeTotalPreorder(ord: Order, a: Row, b: Row, c: Row)
    ensures Before(ord, a, b) || Before(ord, b, a)
    ensures Before(ord, a, b) && Before(ord, b, c) ==> Before(ord, a, c)
  {
  }

  predicate Sorted(ord: Order, s: seq<Row>)
  {
    forall i, j :: 0 <= i < j < |s| ==> Before(ord, s[i], s[j])
  }

  /** `a` may be placed before every element of `s`. */
  predicate BeforeAll(ord: Order, a: Row, s: seq<Row>)
  {
    forall k :: 0 <= k < |s| ==> Before(ord, a, s[k])
  }

  /** Inserts `x` in front of the first element it may precede. */
  function Insert(ord: Order, x: Row, s: seq<Row>): (r: seq<Row>)
    ensures multiset(r) == multiset(s) + multiset{x}
    ensures forall a :: BeforeAll(ord, a, s) && Before(ord, a, x) ==> BeforeAll(ord, a, r)
  {
    if s == [] then [x]
    else if Before(ord, x, s[0]) then [x] + s
    else
      assert s == [s[0]] + s[1..];
      [s[0]] + Insert(ord, x, s[1..])
  }

  /** Inserting into a sorted sequence keeps it sorted. */
  lemma {:induction false} InsertSorted(ord: Order, x: Row, s: seq<Row>)
    requires Sorted(ord, s)
    ensures Sorted(ord, Insert(ord, x, s))
  {
    if s == [] {
    } else if Before(ord, x, s[0]) {
      forall k | 0 <= k < |s| ensures Before(ord, x, s[k]) {
        BeforeTotalPreorder(ord, x, s[0], s[k]);
      }
      SortedCons(ord, x, s);
    } else {
      InsertSorted(ord, x, s[1..]);
      BeforeTotalPreorder(ord, x, s[0], s[0]);
      assert BeforeAll(ord, s[0], s[1..]);
      SortedCons(ord, s[0], Insert(ord, x, s[1..]));
    }
  }

  /** A sorted sequence stays sorted under an element that precedes all of it. */
  lemma SortedCons(ord: Order, a: Row, s: seq<Row>)
    requires Sorted(ord, s) && BeforeAll(ord, a, s)
    ensures Sorted(ord, [a] + s)
  {
    var t := [a] + s;
    forall i, j | 0 <= i < j < |t| ensures Before(ord, t[i], t[j]) {
      if i == 0 {
        assert t[j] == s[j - 1];
      } else {
        assert t[i] == s[i - 1] && t[j] == s[j - 1];
      }
    }
  }

  /** `sort_values` on the order `ord`. */
  function SortBy(ord: Order, s: seq<Row>): (r: seq<Row>)
    ensures Sorted(ord, r)
    ensures multiset(r) == multiset(s)
    ensures |r| == |s|
  {
    if s == [] then []
    else
      var rest := SortBy(ord, s[1..]);
      assert s == [s[0]] + s[1..];
      InsertSorted(ord, s[0], rest);
      Insert(ord, s[0], rest)
  }

  /** Sorting keeps exactly the rows of its input. */
  lemma SortByMembers(ord: Order, s: seq<Row>)
    ensures forall x :: x in SortBy(ord, s) <==> x in s
  {
    forall x ensures x in SortBy(ord, s) <==> x in s {
      assert x in SortBy(ord, s) <==> x in multiset(SortBy(ord, s));
    }
  }
}
