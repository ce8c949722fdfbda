/**
 The latest-snapshot extractor of `utils.get_latest_data`: sort the cleaned
 series by date, then keep the last row of each country
 (`groupby("country").tail(1)`), in the sorted frame's order.
 */
module Snapshot {
  import opened Table
  import opened Sorting
  import GapFill

  /** `groupby("country").tail(1)`: the rows after which no row of the same country follows. */
  function KeepLastPerCountry(s: seq<Row>): (r: seq<Row>)
    ensures forall y :: y in r ==> y in s
  {
    if s == [] then []
    else if s[0].country in Countries(s[1..]) then KeepLastPerCountry(s[1..])
    else [s[0]] + KeepLastPerCountry(s[1..])
  }

  /** The latest row per country of an already cleaned table. */
  function Latest(rows: seq<Row>): (r: seq<Row>)
    ensures Countries(r) == Countries(rows)
    ensures DistinctCountries(r)
    ensures forall y :: y in r ==> y in rows
  {
    var s := SortBy(DateAscending, rows);
    SortByMembers(DateAscending, rows);
    assert Countries(s) == Countries(rows);
    KeepLastOnePerCountry(s);
    KeepLastPerCountry(s)
  }

  /** `utils.get_latest_data`, with the CSV already read into `raw`. */
  function GetLatestData(raw: seq<Row>): (r: seq<Row>)
    ensures Countries(r) == Countries(raw)
    ensures DistinctCountries(r)
    ensures |r| == |Countries(raw)|
  {
    var df := GapFill.FullSeries(raw);
    CountriesPointwise(df, raw);
    DistinctCountriesCount(Latest(df));
    Latest(df)
  }

  /** Every country keeps exactly one row. */
  lemma {:induction false} KeepLastOnePerCountry(s: seq<Row>)
    ensures Countries(KeepLastPerCountry(s)) == Countries(s)
    ensures DistinctCountries(KeepLastPerCountry(s))
  {
    if s != [] {
      var t := s[1..];
      var rt := KeepLastPerCountry(t);
      KeepLastOnePerCountry(t);
      assert s == [s[0]] + t;
      assert Countries(s) == {s[0].country} + Countries(t);
      if s[0].country !in Countries(t) {
        assert Countries([s[0]] + rt) == {s[0].country} + Countries(rt);
        DistinctCons(s[0], rt);
      }
    }
  }

  /** Keeping a subsequence keeps the order. */
  lemma {:induction false} KeepLastSorted(ord: Order, s: seq<Row>)
    requires Sorted(ord, s)
    ensures Sorted(ord, KeepLastPerCountry(s))
  {
    if s != [] {
      var t := s[1..];
      KeepLastSorted(ord, t);
      if s[0].country !in Countries(t) {
        var rt := KeepLastPerCountry(t);
        forall k | 0 <= k < |rt| ensures Before(ord, s[0], rt[k]) {
          assert rt[k] in rt;
          assert rt[k] in t;
          var j :| 0 <= j < |t| && t[j] == rt[k];
          assert s[j + 1] == rt[k];
        }
        SortedCons(ord, s[0], rt);
      }
    }
  }

  /** On a date-sorted table each kept row has the largest date of its country. */
  lemma {:induction false} KeepLastIsLatest(s: seq<Row>)
    requires Sorted(DateAscending, s)
    ensures forall y, z ::
      y in KeepLastPerCountry(s) && z in s && z.country == y.country ==> z.obs.date <= y.obs.date
  {
    if s != [] {
      var t := s[1..];
      assert s == [s[0]] + t;
      KeepLastIsLatest(t);
      var r := KeepLastPerCountry(s);
      forall y, z | y in r && z in s && z.country == y.country
        ensures z.obs.date <= y.obs.date
      {
        if y in KeepLastPerCountry(t) {
          if z == s[0] {
            assert y in t;
            var j :| 0 <= j < |t| && t[j] == y;
            assert s[j + 1] == y;
          }
        } else {
          assert y == s[0] && s[0].country !in Countries(t);
          assert z !in t;
        }
      }
    }
  }

  /**
   `get_latest_data` returns one row per distinct country, each a row of the
   input carrying the largest date of its country, in ascending date order.
   */
  lemma LatestSpec(rows: seq<Row>)
    ensures Countries(Latest(rows)) == Countries(rows)
    ensures DistinctCountries(Latest(rows))
    ensures |Latest(rows)| == |Countries(rows)|
    ensures forall y :: y in Latest(rows) ==> y in rows
    ensures forall y, z ::
      y in Latest(rows) && z in rows && z.country == y.country ==> z.obs.date <= y.obs.date
    ensures Sorted(DateAscending, Latest(rows))
  {
    var s := SortBy(DateAscending, rows);
    SortByMembers(DateAscending, rows);
    DistinctCountriesCount(Latest(rows));
    KeepLastIsLatest(s);
    KeepLastSorted(DateAscending, s);
  }
}
