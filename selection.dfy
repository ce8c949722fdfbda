/**
 The data selections the dashboard server of main.py makes before plotting:
 the metric column chosen by the two drop-downs, the series shown for the
 selected country, the top-20 bar chart rows and the values behind the map's
 marker sizes.
 */
module Selection {
  import opened Table
  import opened Sorting
  import opened DailyAggregate

  /** `metric_column()`: the column named by the metric type and measure drop-downs. */
  function MetricColumn(metricType: string, measure: string): (r: Option<Column>)
    ensures r.Some? <==>
      (metricType == "new" || metricType == "cumulative") && (measure == "cases" || measure == "deaths")
  {
    if metricType == "new" && measure == "cases" then Some(DailyNewCases)
    else if metricType == "new" && measure == "deaths" then Some(DailyNewDeaths)
    else if metricType == "cumulative" && measure == "cases" then Some(CumulativeTotalCases)
    else if metricType == "cumulative" && measure == "deaths" then Some(CumulativeTotalDeaths)
    else None
  }

  /** The drop-down values (metric type, measure) that name a column. */
  function Selectors(col: Column): (r: (string, string))
  {
    match col
    case DailyNewCases => ("new", "cases")
    case DailyNewDeaths => ("new", "deaths")
    case CumulativeTotalCases => ("cumulative", "cases")
    case CumulativeTotalDeaths => ("cumulative", "deaths")
  }

  /**
   Each column is chosen by exactly one pair of drop-down values, so the four
   pairs map to four distinct columns, whose CSV headers are distinct too.
   */
  lemma MetricColumnInverse(metricType: string, measure: string, col: Column)
    ensures MetricColumn(Selectors(col).0, Selectors(col).1) == Some(col)
    ensures MetricColumn(metricType, measure) == Some(col) <==> (metricType, measure) == Selectors(col)
  {
  }

  /** The four column headers are pairwise distinct. */
  lemma ColumnNamesDistinct(a: Column, b: Column)
    requires a != b
    ensures a.Name() != b.Name()
  {
  }

  /** What the time-series charts plot: the global series, or one country's rows. */
  datatype DailyView = GlobalView(days: seq<DailyTotal>) | CountryView(rows: seq<Row>)

  /** `filtered_daily()` for the selected country (None when nothing is selected). */
  function FilteredDaily(selected: Option<string>, df: seq<Row>): (v: DailyView)
    ensures selected.None? ==> v == GlobalView(Aggregate(df))
    ensures selected.Some? ==>
      && v.CountryView?
      && Sorted(DateAscending, v.rows)
      && multiset(v.rows) == multiset(RowsOf(df, selected.value))
  {
    match selected
    case None => GlobalView(Aggregate(df))
    case Some(c) => CountryView(SortBy(DateAscending, RowsOf(df, c)))
  }

  /** With a country selected, the chart shows exactly that country's rows. */
  lemma FilteredDailyRows(c: string, df: seq<Row>)
    ensures forall r :: r in FilteredDaily(Some(c), df).rows <==> r in df && r.country == c
  {
    var v := FilteredDaily(Some(c), df);
    RowsOfMembers(df, c);
    forall r ensures r in v.rows <==> r in RowsOf(df, c) {
      assert r in v.rows <==> r in multiset(v.rows);
    }
  }

  /** The number of bars in the top chart. */
  const TopCount: nat := 20

  /** `sort_values(col, ascending=False).head(n)`. */
  function TopN(rows: seq<Row>, col: Column, n: nat): (r: seq<Row>)
    ensures |r| == if |rows| < n then |rows| else n
    ensures Sorted(MetricDescending(col), r)
    ensures multiset(r) <= multiset(rows)
  {
    var s := SortBy(MetricDescending(col), rows);
    var m := if |s| < n then |s| else n;
    assert s == s[..m] + s[m..];
    s[..m]
  }

  /** The rows of the right-hand bar chart, taken from the latest snapshot. */
  function Top20(latest: seq<Row>, col: Column): (r: seq<Row>)
    ensures |r| == if |latest| < TopCount then |latest| else TopCount
    ensures Sorted(MetricDescending(col), r)
    ensures multiset(r) <= multiset(latest)
  {
    TopN(latest, col, TopCount)
  }

  /** In a sorted sequence, an element outside a prefix may follow every element of the prefix. */
  lemma SortedPrefixBound(ord: Order, s: seq<Row>, m: nat, y: Row)
    requires Sorted(ord, s) && m <= |s|
    requires y in multiset(s) - multiset(s[..m])
    ensures forall k :: 0 <= k < m ==> Before(ord, s[k], y)
  {
    assert s == s[..m] + s[m..];
    assert multiset(s) == multiset(s[..m]) + multiset(s[m..]);
    assert y in multiset(s[m..]);
    assert y in s[m..];
    var j :| 0 <= j < |s[m..]| && s[m..][j] == y;
    assert s[m + j] == y;
  }

  /**
   Every row left out of the top `n` has a value no larger than each row kept
   (a missing value counting as the smallest).
   */
  lemma TopNLeftOut(rows: seq<Row>, col: Column, n: nat, y: Row)
    requires y in multiset(rows) - multiset(TopN(rows, col, n))
    ensures forall k :: 0 <= k < |TopN(rows, col, n)| ==> Before(MetricDescending(col), TopN(rows, col, n)[k], y)
  {
    var s := SortBy(MetricDescending(col), rows);
    var m := if |s| < n then |s| else n;
    assert TopN(rows, col, n) == s[..m];
    SortedPrefixBound(MetricDescending(col), s, m, y);
  }

  /** `data[col].fillna(0).clip(lower=0)`: the value behind a marker's size. */
  function MarkerValue(v: Option<int>): (r: nat)
    ensures v.Some? && v.value >= 0 ==> r == v.value
    ensures v.None? || v.value <= 0 ==> r == 0
  {
    if v.Some? && v.value > 0 then v.value else 0
  }

  /** Clipping keeps the order of present values, so a larger count never gets a smaller marker. */
  lemma MarkerValueMonotone(a: int, b: int)
    requires a <= b
    ensures MarkerValue(Some(a)) <= MarkerValue(Some(b))
  {
  }
}
