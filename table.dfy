/**
 The tabular data the dashboard works on: one row per (country, date) with
 cumulative and daily counts. A missing cell (pandas NaN) is `None`; dates are
 already parsed and modelled as integers (days), counts as unbounded integers.
 */
module Table {

  datatype Option<T> = None | Some(value: T)

  /** The two measures that carry a cumulative and a daily column. */
  datatype Metric = Cases | Deaths

  /** The four numeric columns the dashboard can plot. */
  datatype Column = DailyNewCases | DailyNewDeaths | CumulativeTotalCases | CumulativeTotalDeaths
  {
    /** The column's header in the CSV file. */
    function Name(): (r: string)
    {
      match this
      case DailyNewCases => "daily_new_cases"
      case DailyNewDeaths => "daily_new_deaths"
      case CumulativeTotalCases => "cumulative_total_cases"
      case CumulativeTotalDeaths => "cumulative_total_deaths"
    }
  }

  /** Every column of a row except `country`. */
  datatype Observation = Observation(
    date: int,
    cumulativeTotalCases: Option<int>,
    cumulativeTotalDeaths: Option<int>,
    dailyNewCases: Option<int>,
    dailyNewDeaths: Option<int>,
    latitude: Option<real>,
    longitude: Option<real>)

  datatype Row = Row(country: string, obs: Observation)

  function Cumulative(o: Observation, m: Metric): (r: Option<int>)
  {
    match m
    case Cases => o.cumulativeTotalCases
    case Deaths => o.cumulativeTotalDeaths
  }

  function Daily(o: Observation, m: Metric): (r: Option<int>)
  {
    match m
    case Cases => o.dailyNewCases
    case Deaths => o.dailyNewDeaths
  }

  /** The observation with its daily column for `m` replaced by `v`. */
  function WithDaily(o: Observation, m: Metric, v: Option<int>): (r: Observation)
    ensures Daily(r, m) == v
    ensures r.date == o.date && Cumulative(r, Cases) == Cumulative(o, Cases)
    ensures Cumulative(r, Deaths) == Cumulative(o, Deaths)
    ensures m == Cases ==> r.dailyNewDeaths == o.dailyNewDeaths
    ensures m == Deaths ==> r.dailyNewCases == o.dailyNewCases
  {
    match m
    case Cases => o.(dailyNewCases := v)
    case Deaths => o.(dailyNewDeaths := v)
  }

  /** The cell of column `col` in a row. */
  function Field(o: Observation, col: Column): (r: Option<int>)
  {
    match col
    case DailyNewCases => o.dailyNewCases
    case DailyNewDeaths => o.dailyNewDeaths
    case CumulativeTotalCases => o.cumulativeTotalCases
    case CumulativeTotalDeaths => o.cumulativeTotalDeaths
  }

  /** A missing value contributes nothing to a sum (pandas `sum` skips NaN). */
  function OrZero(v: Option<int>): (r: int)
  {
    match v
    case Some(x) => x
    case None => 0
  }

  /** `Series.fillna(other)`: keep a present value, otherwise take `other`. */
  function FillNa(v: Option<int>, other: Option<int>): (r: Option<int>)
    ensures v.Some? ==> r == v
    ensures v.None? ==> r == other
  {
    if v.Some? then v else other
  }

  /** The distinct countries of a table. */
  function Countries(rows: seq<Row>): (r: set<string>)
  {
    set r | r in rows :: r.country
  }

  /** `df[df["country"] == c]`: the rows of one country, in table order. */
  function RowsOf(rows: seq<Row>, c: string): (r: seq<Row>)
    ensures |r| <= |rows|
    ensures forall x :: x in r ==> x in rows && x.country == c
  {
    if rows == [] then []
    else if rows[0].country == c then [rows[0]] + RowsOf(rows[1..], c)
    else RowsOf(rows[1..], c)
  }

  /** The selection keeps exactly the rows of the country. */
  lemma {:induction false} RowsOfMembers(rows: seq<Row>, c: string)
    ensures forall r :: r in RowsOf(rows, c) <==> r in rows && r.country == c
  {
    if rows != [] {
      RowsOfMembers(rows[1..], c);
      assert rows == [rows[0]] + rows[1..];
    }
  }

  /** Selecting distributes over concatenation, so relative row order is kept. */
  lemma {:induction false} RowsOfAppend(a: seq<Row>, b: seq<Row>, c: string)
    ensures RowsOf(a + b, c) == RowsOf(a, c) + RowsOf(b, c)
  {
    if a == [] {
      assert a + b == b;
    } else {
      assert (a + b)[1..] == a[1..] + b;
      RowsOfAppend(a[1..], b, c);
    }
  }

  /** Every country of the table has at least one row selected. */
  lemma {:induction false} RowsOfNonEmpty(rows: seq<Row>, c: string)
    requires c in Countries(rows)
    ensures |RowsOf(rows, c)| > 0
  {
    RowsOfMembers(rows, c);
    var r :| r in rows && r.country == c;
    assert r in RowsOf(rows, c);
  }

  /** A country without rows selects nothing. */
  lemma {:induction false} RowsOfAbsent(rows: seq<Row>, c: string)
    requires c !in Countries(rows)
    ensures RowsOf(rows, c) == []
  {
    if rows != [] {
      assert rows[0] in rows;
      assert Countries(rows[1..]) <= Countries(rows);
      RowsOfAbsent(rows[1..], c);
    }
  }

  /** Two tables with the same country column, row for row, have the same countries. */
  lemma CountriesPointwise(a: seq<Row>, b: seq<Row>)
    requires |a| == |b| && forall i :: 0 <= i < |a| ==> a[i].country == b[i].country
    ensures Countries(a) == Countries(b)
  {
    forall c | c in Countries(a) ensures c in Countries(b) {
      var x :| x in a && x.country == c;
      var i :| 0 <= i < |a| && a[i] == x;
      assert b[i] in b;
    }
    forall c | c in Countries(b) ensures c in Countries(a) {
      var x :| x in b && x.country == c;
      var i :| 0 <= i < |b| && b[i] == x;
      assert a[i] in a;
    }
  }

  /** No two rows of `rows` share a country. */
  predicate DistinctCountries(rows: seq<Row>)
  {
    forall i, j :: 0 <= i < j < |rows| ==> rows[i].country != rows[j].country
  }

  /** A row of a new country may be put in front of a table without repeated countries. */
  lemma DistinctCons(x: Row, rows: seq<Row>)
    requires DistinctCountries(rows) && x.country !in Countries(rows)
    ensures DistinctCountries([x] + rows)
  {
    var t := [x] + rows;
    forall i, j | 0 <= i < j < |t| ensures t[i].country != t[j].country {
      assert t[j] == rows[j - 1];
      if i == 0 {
        assert rows[j - 1] in rows;
      } else {
        assert t[i] == rows[i - 1];
      }
    }
  }

  /** A table without repeated countries has as many rows as countries. */
  lemma {:induction false} DistinctCountriesCount(rows: seq<Row>)
    requires DistinctCountries(rows)
    ensures |Countries(rows)| == |rows|
  {
    if rows != [] {
      var rest := rows[1..];
      DistinctCountriesCount(rest);
      assert rows == [rows[0]] + rest;
      assert Countries(rows) == {rows[0].country} + Countries(rest);
      assert rows[0].country !in Countries(rest);
    }
  }
}
