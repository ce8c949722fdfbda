/**
 The gap filler of `utils.get_full_dataframe`: for each metric, the daily
 column is overwritten by the per-country difference of the cumulative
 column, taken in TABLE order (the frame is not sorted first); where that
 difference is missing the source daily value is used, and then 0.
 */
module GapFill {
  import opened Table

  /** The index of the last row of country `c` strictly before position `k`. */
  function LastIndexOf(rows: seq<Row>, c: string, k: nat): (r: Option<nat>)
    requires k <= |rows|
    ensures r.Some? ==> r.value < k && rows[r.value].country == c
    ensures r.Some? ==> forall j :: r.value < j < k ==> rows[j].country != c
    ensures r.None? ==> forall j :: 0 <= j < k ==> rows[j].country != c
  {
    if k == 0 then None
    else if rows[k - 1].country == c then Some(k - 1)
    else LastIndexOf(rows, c, k - 1)
  }

  /** A row of `c` before `k` with no row of `c` after it up to `k` is the one `LastIndexOf` finds. */
  lemma {:induction false} LastIndexOfIs(rows: seq<Row>, c: string, k: nat, j: nat)
    requires j < k <= |rows| && rows[j].country == c
    requires forall t :: j < t < k ==> rows[t].country != c
    ensures LastIndexOf(rows, c, k) == Some(j)
  {
    if k - 1 != j {
      LastIndexOfIs(rows, c, k - 1, j);
    }
  }

  /** The previous row of the same country, in table order. */
  function PrevIndex(rows: seq<Row>, i: nat): (r: Option<nat>)
    requires i < |rows|
    ensures r.Some? ==> r.value < i && rows[r.value].country == rows[i].country
  {
    LastIndexOf(rows, rows[i].country, i)
  }

  /** `df.groupby("country")[cumulative].diff()` at row `i`. */
  function GroupDiff(rows: seq<Row>, i: nat, m: Metric): (r: Option<int>)
    requires i < |rows|
    ensures r.Some? <==>
      && PrevIndex(rows, i).Some?
      && Cumulative(rows[i].obs, m).Some?
      && Cumulative(rows[PrevIndex(rows, i).value].obs, m).Some?
    ensures r.Some? ==>
      r.value == Cumulative(rows[i].obs, m).value - Cumulative(rows[PrevIndex(rows, i).value].obs, m).value
  {
    match PrevIndex(rows, i)
    case None => None
    case Some(j) =>
      var cur, prev := Cumulative(rows[i].obs, m), Cumulative(rows[j].obs, m);
      if cur.Some? && prev.Some? then Some(cur.value - prev.value) else None
  }

  /** The difference against a known previous row `j`. */
  lemma GroupDiffFrom(rows: seq<Row>, i: nat, j: nat, m: Metric)
    requires i < |rows| && PrevIndex(rows, i) == Some(j)
    ensures GroupDiff(rows, i, m)
      == if Cumulative(rows[i].obs, m).Some? && Cumulative(rows[j].obs, m).Some?
         then Some(Cumulative(rows[i].obs, m).value - Cumulative(rows[j].obs, m).value)
         else None
  {
  }

  /** `diff().fillna(df[daily]).fillna(0)`: the new daily column for `m`. */
  function FillColumn(rows: seq<Row>, m: Metric): (r: seq<Option<int>>)
    ensures |r| == |rows|
    ensures forall i :: 0 <= i < |rows| && GroupDiff(rows, i, m).Some? ==> r[i] == GroupDiff(rows, i, m)
    ensures forall i :: 0 <= i < |rows| && GroupDiff(rows, i, m).None? ==>
      r[i] == Some(OrZero(Daily(rows[i].obs, m)))
  {
    seq(|rows|, i requires 0 <= i < |rows| =>
      FillNa(FillNa(GroupDiff(rows, i, m), Daily(rows[i].obs, m)), Some(0)))
  }

  /** `df[daily] = col`: the table with the daily column for `m` replaced. */
  function WithDailyColumn(rows: seq<Row>, m: Metric, col: seq<Option<int>>): (r: seq<Row>)
    requires |col| == |rows|
  {
    seq(|rows|, i requires 0 <= i < |rows| =>
      Row(rows[i].country, WithDaily(rows[i].obs, m, col[i])))
  }

  /** The table after the daily column of `m` has been filled. */
  function Fill(rows: seq<Row>, m: Metric): (r: seq<Row>)
    ensures |r| == |rows|
    ensures forall i :: 0 <= i < |rows| ==>
      SameExceptDaily(r[i], rows[i], m) && Daily(r[i].obs, m) == FillColumn(rows, m)[i]
  {
    WithDailyColumn(rows, m, FillColumn(rows, m))
  }

  /** The cleaned series: cases filled first, then deaths. */
  function FullSeries(raw: seq<Row>): (r: seq<Row>)
    ensures |r| == |raw|
    ensures forall i :: 0 <= i < |raw| ==>
      && r[i].country == raw[i].country
      && r[i].obs.date == raw[i].obs.date
      && Cumulative(r[i].obs, Cases) == Cumulative(raw[i].obs, Cases)
      && Cumulative(r[i].obs, Deaths) == Cumulative(raw[i].obs, Deaths)
      && Daily(r[i].obs, Cases).Some? && Daily(r[i].obs, Deaths).Some?
  {
    Fill(Fill(raw, Cases), Deaths)
  }

  /** The two rows agree on every column except the daily column of `m`. */
  predicate SameExceptDaily(a: Row, b: Row, m: Metric)
  {
    a.country == b.country && WithDaily(a.obs, m, None) == WithDaily(b.obs, m, None)
  }

  /** A pandas DataFrame whose columns are overwritten in place. */
  class Frame {
    var rows: seq<Row>

    constructor (raw: seq<Row>)
      ensures rows == raw
    {
      rows := raw;
    }

    /** `df[daily] = col` for the daily column of `m`. */
    method SetDaily(m: Metric, col: seq<Option<int>>)
      requires |col| == |rows|
      modifies this
      ensures rows == WithDailyColumn(old(rows), m, col)
    {
      rows := WithDailyColumn(rows, m, col);
    }
  }

  /** `utils.get_full_dataframe`, with the CSV already read into `raw`. */
  method GetFullDataframe(raw: seq<Row>) returns (df: Frame)
    ensures fresh(df)
    ensures df.rows == FullSeries(raw)
  {
    df := new Frame(raw);
    df.SetDaily(Cases, FillColumn(df.rows, Cases));
    df.SetDaily(Deaths, FillColumn(df.rows, Deaths));
  }

  /** Row `i` of the filled table. */
  lemma FillAt(rows: seq<Row>, m: Metric, i: nat)
    requires i < |rows|
    ensures |Fill(rows, m)| == |rows|
    ensures Fill(rows, m)[i]
      == Row(rows[i].country, WithDaily(rows[i].obs, m, FillColumn(rows, m)[i]))
    ensures FillColumn(rows, m)[i]
      == FillNa(FillNa(GroupDiff(rows, i, m), Daily(rows[i].obs, m)), Some(0))
  {
  }

  /** Filling keeps the row count and order and changes only the daily column of `m`. */
  lemma FillKeepsOtherColumns(rows: seq<Row>, m: Metric)
    ensures |Fill(rows, m)| == |rows|
    ensures forall i :: 0 <= i < |rows| ==> SameExceptDaily(Fill(rows, m)[i], rows[i], m)
  {
  }

  /** After filling no daily value of `m` is missing. */
  lemma FillNeverAbsent(rows: seq<Row>, m: Metric)
    ensures forall i :: 0 <= i < |rows| ==> Daily(Fill(rows, m)[i].obs, m).Some?
  {
  }

  /**
   When a row has an earlier row of its country (the nearest one is `j`) and
   both cumulative values are present, the filled daily value is their
   difference, even if the source daily value was present and even when it is
   negative.
   */
  lemma FillTakesDifference(rows: seq<Row>, i: nat, j: nat, m: Metric)
    requires j < i < |rows| && rows[j].country == rows[i].country
    requires forall k :: j < k < i ==> rows[k].country != rows[i].country
    requires Cumulative(rows[i].obs, m).Some? && Cumulative(rows[j].obs, m).Some?
    ensures Daily(Fill(rows, m)[i].obs, m)
      == Some(Cumulative(rows[i].obs, m).value - Cumulative(rows[j].obs, m).value)
  {
    LastIndexOfIs(rows, rows[i].country, i, j);
    GroupDiffFrom(rows, i, j, m);
    FillAt(rows, m, i);
  }

  /**
   When the row is the first of its country, or its own or the previous
   row's cumulative value is missing, the filled daily value is the source
   daily value if present and 0 otherwise.
   */
  lemma FillFallsBack(rows: seq<Row>, i: nat, m: Metric)
    requires i < |rows|
    requires (forall k :: 0 <= k < i ==> rows[k].country != rows[i].country)
      || Cumulative(rows[i].obs, m).None?
      || (exists j :: 0 <= j < i && rows[j].country == rows[i].country
            && Cumulative(rows[j].obs, m).None?
            && forall k :: j < k < i ==> rows[k].country != rows[i].country)
    ensures Daily(Fill(rows, m)[i].obs, m) == Some(OrZero(Daily(rows[i].obs, m)))
  {
    if exists j :: 0 <= j < i && rows[j].country == rows[i].country
         && Cumulative(rows[j].obs, m).None?
         && forall k :: j < k < i ==> rows[k].country != rows[i].country {
      var j :| 0 <= j < i && rows[j].country == rows[i].country
         && Cumulative(rows[j].obs, m).None?
         && forall k :: j < k < i ==> rows[k].country != rows[i].country;
      LastIndexOfIs(rows, rows[i].country, i, j);
    }
    FillAt(rows, m, i);
  }

  /** The nearest earlier row is determined by the countries column alone. */
  lemma {:induction false} LastIndexOfCountriesOnly(a: seq<Row>, b: seq<Row>, c: string, k: nat)
    requires k <= |a| == |b|
    requires forall i :: 0 <= i < |a| ==> a[i].country == b[i].country
    ensures LastIndexOf(a, c, k) == LastIndexOf(b, c, k)
  {
    if k > 0 && a[k - 1].country != c {
      LastIndexOfCountriesOnly(a, b, c, k - 1);
    }
  }

  /** Two tables that agree on what the fill of `m` reads get the same filled column. */
  lemma FillColumnReads(a: seq<Row>, b: seq<Row>, m: Metric)
    requires |a| == |b|
    requires forall k :: 0 <= k < |a| ==> a[k].country == b[k].country
    requires forall k :: 0 <= k < |a| ==> Cumulative(a[k].obs, m) == Cumulative(b[k].obs, m)
    requires forall k :: 0 <= k < |a| ==> Daily(a[k].obs, m) == Daily(b[k].obs, m)
    ensures FillColumn(a, m) == FillColumn(b, m)
  {
    forall i | 0 <= i < |a|
      ensures GroupDiff(a, i, m) == GroupDiff(b, i, m)
    {
      GroupDiffReads(a, b, m, i);
    }
  }

  lemma GroupDiffReads(a: seq<Row>, b: seq<Row>, m: Metric, i: nat)
    requires i < |a| == |b|
    requires forall k :: 0 <= k < |a| ==> a[k].country == b[k].country
    requires forall k :: 0 <= k < |a| ==> Cumulative(a[k].obs, m) == Cumulative(b[k].obs, m)
    ensures GroupDiff(a, i, m) == GroupDiff(b, i, m)
  {
    LastIndexOfCountriesOnly(a, b, a[i].country, i);
  }

  /**
   The daily column of one metric is filled independently of the other:
   filling `other` first leaves the fill of `m` unchanged.
   */
  lemma FillIndependent(rows: seq<Row>, m: Metric, other: Metric)
    requires m != other
    ensures FillColumn(Fill(rows, other), m) == FillColumn(rows, m)
  {
    var t := Fill(rows, other);
    forall k | 0 <= k < |rows|
      ensures t[k].country == rows[k].country
      ensures Cumulative(t[k].obs, m) == Cumulative(rows[k].obs, m)
      ensures Daily(t[k].obs, m) == Daily(rows[k].obs, m)
    {
      FillAt(rows, other, k);
    }
    FillColumnReads(t, rows, m);
  }

  /** In the cleaned series each daily column is exactly its own metric's fill. */
  lemma FullSeriesDaily(raw: seq<Row>)
    ensures |FullSeries(raw)| == |raw|
    ensures forall i :: 0 <= i < |raw| ==>
      Daily(FullSeries(raw)[i].obs, Cases) == FillColumn(raw, Cases)[i]
      && Daily(FullSeries(raw)[i].obs, Deaths) == FillColumn(raw, Deaths)[i]
  {
    FillIndependent(raw, Deaths, Cases);
  }

  /** Cumulative cases 100, 150, 150, 200 with source daily (none, none, 5, none) fill as 0, 50, 0, 50. */
  lemma ExampleSourceValueOverwritten()
    ensures
      var o := Observation(0, None, None, None, None, None, None);
      var rows := [
        Row("c", o.(date := 0, cumulativeTotalCases := Some(100))),
        Row("c", o.(date := 1, cumulativeTotalCases := Some(150))),
        Row("c", o.(date := 2, cumulativeTotalCases := Some(150), dailyNewCases := Some(5))),
        Row("c", o.(date := 3, cumulativeTotalCases := Some(200)))];
      FillColumn(rows, Cases) == [Some(0), Some(50), Some(0), Some(50)]
  {
  }

  /** A falling cumulative count (100, then 80) gives a daily value of -20. */
  lemma ExampleNegativeDifferenceKept()
    ensures
      var o := Observation(0, None, None, None, None, None, None);
      var rows := [
        Row("c", o.(date := 0, cumulativeTotalDeaths := Some(100))),
        Row("c", o.(date := 1, cumulativeTotalDeaths := Some(80)))];
      FillColumn(rows, Deaths)[1] == Some(-20)
  {
  }

  /** The difference follows table order: a later date listed first is the "previous" row. */
  lemma ExampleTableOrder()
    ensures
      var o := Observation(0, None, None, None, None, None, None);
      var rows := [
        Row("c", o.(date := 5, cumulativeTotalCases := Some(150))),
        Row("d", o.(date := 4, cumulativeTotalCases := Some(7))),
        Row("c", o.(date := 4, cumulativeTotalCases := Some(100)))];
      FillColumn(rows, Cases) == [Some(0), Some(0), Some(-50)]
  {
  }
}
