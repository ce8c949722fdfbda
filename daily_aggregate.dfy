/**
 The global daily series `df_daily` of main.py: the cleaned table grouped by
 date, the four metric columns summed per date (a missing value contributes
 nothing), sorted by date. Since every sum is present, the trailing
 `dropna()` removes nothing.
 */
module DailyAggregate {
  import opened Table
  import GapFill

  /** One row of `df_daily`. */
  datatype DailyTotal = DailyTotal(
    date: int,
    dailyNewCases: int,
    dailyNewDeaths: int,
    cumulativeTotalCases: int,
    cumulativeTotalDeaths: int)

  function Total(t: DailyTotal, col: Column): (r: int)
  {
    match col
    case DailyNewCases => t.dailyNewCases
    case DailyNewDeaths => t.dailyNewDeaths
    case CumulativeTotalCases => t.cumulativeTotalCases
    case CumulativeTotalDeaths => t.cumulativeTotalDeaths
  }

  /** What a row adds to its date's sum of `col`. */
  function Contribution(row: Row, col: Column): (r: int)
  {
    OrZero(Field(row.obs, col))
  }

  /** Reference definition: the sum of `col` over all rows dated `d`. */
  function SumOn(rows: seq<Row>, d: int, col: Column): (r: int)
  {
    if rows == [] then 0
    else (if rows[0].obs.date == d then Contribution(rows[0], col) else 0) + SumOn(rows[1..], d, col)
  }

  function RowDates(rows: seq<Row>): (r: set<int>)
  {
    set r | r in rows :: r.obs.date
  }

  function Dates(s: seq<DailyTotal>): (r: set<int>)
  {
    set t | t in s :: t.date
  }

  predicate StrictlyAscending(s: seq<DailyTotal>)
  {
    forall i, j :: 0 <= i < j < |s| ==> s[i].date < s[j].date
  }

  /** The total of `col` that `s` holds for date `d`, over all its entries. */
  function TotalAt(s: seq<DailyTotal>, d: int, col: Column): (r: int)
  {
    if s == [] then 0
    else (if s[0].date == d then Total(s[0], col) else 0) + TotalAt(s[1..], d, col)
  }

  /** The group of a single row. */
  function Single(r: Row): (t: DailyTotal)
  {
    DailyTotal(r.obs.date,
      Contribution(r, DailyNewCases), Contribution(r, DailyNewDeaths),
      Contribution(r, CumulativeTotalCases), Contribution(r, CumulativeTotalDeaths))
  }

  /** Adds a row's values to the group of its date. */
  function AddTo(t: DailyTotal, r: Row): (u: DailyTotal)
  {
    DailyTotal(t.date,
      t.dailyNewCases + Contribution(r, DailyNewCases),
      t.dailyNewDeaths + Contribution(r, DailyNewDeaths),
      t.cumulativeTotalCases + Contribution(r, CumulativeTotalCases),
      t.cumulativeTotalDeaths + Contribution(r, CumulativeTotalDeaths))
  }

  /** Accounts one row in a date-sorted list of groups. */
  function AddRow(acc: seq<DailyTotal>, r: Row): (res: seq<DailyTotal>)
    ensures forall d, col ::
      TotalAt(res, d, col) == TotalAt(acc, d, col) + (if d == r.obs.date then Contribution(r, col) else 0)
    ensures Dates(res) == Dates(acc) + {r.obs.date}
  {
    if acc == [] then
      assert Dates([Single(r)]) == {r.obs.date};
      [Single(r)]
    else if acc[0].date == r.obs.date then
      var res := [AddTo(acc[0], r)] + acc[1..];
      assert acc == [acc[0]] + acc[1..];
      assert res[1..] == acc[1..];
      assert Dates(res) == {r.obs.date} + Dates(acc[1..]);
      assert Dates(acc) == {r.obs.date} + Dates(acc[1..]);
      res
    else if r.obs.date < acc[0].date then
      var res := [Single(r)] + acc;
      assert res[1..] == acc;
      assert Dates(res) == {r.obs.date} + Dates(acc);
      res
    else
      var rest := AddRow(acc[1..], r);
      var res := [acc[0]] + rest;
      assert acc == [acc[0]] + acc[1..];
      assert res[1..] == rest;
      assert Dates(res) == {acc[0].date} + Dates(rest);
      assert Dates(acc) == {acc[0].date} + Dates(acc[1..]);
      res
  }

  /** Every date in `s` is later than `b`. */
  predicate DatesAbove(s: seq<DailyTotal>, b: int)
  {
    forall k :: 0 <= k < |s| ==> b < s[k].date
  }

  /** A strictly ascending list stays so under an earlier entry. */
  lemma AscendingCons(a: DailyTotal, s: seq<DailyTotal>)
    requires StrictlyAscending(s) && DatesAbove(s, a.date)
    ensures StrictlyAscending([a] + s)
  {
    var res := [a] + s;
    forall i, j | 0 <= i < j < |res| ensures res[i].date < res[j].date {
      assert res[j] == s[j - 1];
      if i > 0 {
        assert res[i] == s[i - 1];
      }
    }
  }

  /** Accounting a later row keeps every date above the bound. */
  lemma {:induction false} AddRowAbove(acc: seq<DailyTotal>, r: Row, b: int)
    requires DatesAbove(acc, b) && b < r.obs.date
    ensures DatesAbove(AddRow(acc, r), b)
  {
    if acc != [] && acc[0].date != r.obs.date && acc[0].date <= r.obs.date {
      AddRowAbove(acc[1..], r, b);
    }
  }

  /** Accounting a row keeps the groups in strictly ascending date order. */
  lemma {:induction false} AddRowAscending(acc: seq<DailyTotal>, r: Row)
    requires StrictlyAscending(acc)
    ensures StrictlyAscending(AddRow(acc, r))
  {
    if acc == [] {
    } else if acc[0].date == r.obs.date {
      assert AddRow(acc, r)[1..] == acc[1..];
      AscendingCons(AddRow(acc, r)[0], acc[1..]);
    } else if r.obs.date < acc[0].date {
      AscendingCons(Single(r), acc);
    } else {
      var t := acc[1..];
      AddRowAscending(t, r);
      AddRowAbove(t, r, acc[0].date);
      AscendingCons(acc[0], AddRow(t, r));
    }
  }

  /** `df.groupby("date").agg(sum).sort_values("date")` on an already cleaned table. */
  function Aggregate(rows: seq<Row>): (r: seq<DailyTotal>)
    ensures StrictlyAscending(r)
    ensures Dates(r) == RowDates(rows)
    ensures forall d, col :: TotalAt(r, d, col) == SumOn(rows, d, col)
  {
    if rows == [] then []
    else
      var rest := Aggregate(rows[1..]);
      assert rows == [rows[0]] + rows[1..];
      assert RowDates(rows) == {rows[0].obs.date} + RowDates(rows[1..]);
      AddRowAscending(rest, rows[0]);
      AddRow(rest, rows[0])
  }

  /** `df_daily` in main.py, with the CSV already read into `raw`. */
  function DailyTotals(raw: seq<Row>): (r: seq<DailyTotal>)
    ensures StrictlyAscending(r)
    ensures Dates(r) == RowDates(raw)
  {
    var df := GapFill.FullSeries(raw);
    RowDatesPointwise(df, raw);
    Aggregate(df)
  }

  /** Two tables with the same date column, row for row, have the same dates. */
  lemma RowDatesPointwise(a: seq<Row>, b: seq<Row>)
    requires |a| == |b| && forall i :: 0 <= i < |a| ==> a[i].obs.date == b[i].obs.date
    ensures RowDates(a) == RowDates(b)
  {
    forall d | d in RowDates(a) ensures d in RowDates(b) {
      var x :| x in a && x.obs.date == d;
      var i :| 0 <= i < |a| && a[i] == x;
      assert b[i] in b;
    }
    forall d | d in RowDates(b) ensures d in RowDates(a) {
      var x :| x in b && x.obs.date == d;
      var i :| 0 <= i < |b| && b[i] == x;
      assert a[i] in a;
    }
  }

  /** A date with no entry has a total of 0. */
  lemma {:induction false} TotalAtAbsent(s: seq<DailyTotal>, d: int, col: Column)
    requires d !in Dates(s)
    ensures TotalAt(s, d, col) == 0
  {
    if s != [] {
      assert s[0] in s;
      assert Dates(s[1..]) <= Dates(s);
      TotalAtAbsent(s[1..], d, col);
    }
  }

  /** In a strictly ascending list the total for an entry's date is that entry's value. */
  lemma {:induction false} TotalAtEntry(s: seq<DailyTotal>, k: nat, col: Column)
    requires StrictlyAscending(s) && k < |s|
    ensures TotalAt(s, s[k].date, col) == Total(s[k], col)
  {
    if k == 0 {
      FirstDateUnique(s);
      TotalAtAbsent(s[1..], s[0].date, col);
    } else {
      assert s[1..][k - 1] == s[k];
      TotalAtEntry(s[1..], k - 1, col);
    }
  }

  /** In a strictly ascending list the first date does not recur. */
  lemma FirstDateUnique(s: seq<DailyTotal>)
    requires StrictlyAscending(s) && s != []
    ensures s[0].date !in Dates(s[1..])
  {
    forall j | 0 <= j < |s| - 1 ensures s[1..][j].date != s[0].date {
      assert s[1..][j] == s[j + 1];
    }
  }

  /** A strictly ascending list has one entry per distinct date. */
  lemma {:induction false} StrictlyAscendingCount(s: seq<DailyTotal>)
    requires StrictlyAscending(s)
    ensures |Dates(s)| == |s|
  {
    if s != [] {
      var t := s[1..];
      StrictlyAscendingCount(t);
      assert s == [s[0]] + t;
      assert Dates(s) == {s[0].date} + Dates(t);
      FirstDateUnique(s);
    }
  }

  /**
   `df_daily` has exactly one row per distinct date, in strictly ascending
   date order, and each of its four metrics is the sum of that metric over
   all rows of that date.
   */
  lemma AggregateSpec(rows: seq<Row>)
    ensures StrictlyAscending(Aggregate(rows))
    ensures Dates(Aggregate(rows)) == RowDates(rows)
    ensures |Aggregate(rows)| == |RowDates(rows)|
    ensures forall k, col :: 0 <= k < |Aggregate(rows)| ==>
      Total(Aggregate(rows)[k], col) == SumOn(rows, Aggregate(rows)[k].date, col)
  {
    var a := Aggregate(rows);
    StrictlyAscendingCount(a);
    forall k, col | 0 <= k < |a| ensures Total(a[k], col) == SumOn(rows, a[k].date, col) {
      TotalAtEntry(a, k, col);
    }
  }

  /** Two countries reporting 10 and 25 new cases on one date give one row with 35. */
  lemma ExampleSameDateSummed(x: Row, y: Row)
    requires x.country != y.country && x.obs.date == y.obs.date
    requires x.obs.dailyNewCases == Some(10) && y.obs.dailyNewCases == Some(25)
    ensures |Aggregate([x, y])| == 1
    ensures Aggregate([x, y])[0].date == x.obs.date && Aggregate([x, y])[0].dailyNewCases == 35
  {
    var rows := [x, y];
    AggregateSpec(rows);
    assert RowDates(rows) == {x.obs.date};
    var a := Aggregate(rows);
    assert a[0].date in Dates(a);
    assert rows[1..] == [y] && rows[1..][1..] == [];
    assert SumOn(rows, x.obs.date, DailyNewCases) == 35;
    assert Total(a[0], DailyNewCases) == 35;
  }
}
