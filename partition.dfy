/**
 The per-country dictionary of `utils.get_dataframe`: after the same gap
 filling as `get_full_dataframe`, the table is split into one sub-table per
 country, each without its `country` column.
 */
module Partition {
  import opened Table
  import GapFill

  /** The rows with the `country` column dropped. */
  function DropCountry(s: seq<Row>): (r: seq<Observation>)
    ensures |r| == |s| && forall i :: 0 <= i < |s| ==> r[i] == s[i].obs
  {
    seq(|s|, i requires 0 <= i < |s| => s[i].obs)
  }

  /** `{country: subdf.drop(columns=["country"]) for country, subdf in df.groupby("country")}` */
  function ByCountry(rows: seq<Row>): (r: map<string, seq<Observation>>)
    ensures r.Keys == Countries(rows)
  {
    map c | c in Countries(rows) :: DropCountry(RowsOf(rows, c))
  }

  /** `utils.get_dataframe`, with the CSV already read into `raw`. */
  method GetDataframe(raw: seq<Row>) returns (countries: map<string, seq<Observation>>)
    ensures countries == ByCountry(GapFill.FullSeries(raw))
  {
    var df := GapFill.GetFullDataframe(raw);
    countries := ByCountry(df.rows);
  }

  /** A country's sub-table holds exactly the observations of that country's rows, and is never empty. */
  lemma ByCountryMembers(rows: seq<Row>, c: string)
    requires c in Countries(rows)
    ensures |ByCountry(rows)[c]| > 0
    ensures forall o :: o in ByCountry(rows)[c] <==> Row(c, o) in rows
  {
    RowsOfMembers(rows, c);
    RowsOfNonEmpty(rows, c);
    var g := RowsOf(rows, c);
    forall o ensures o in DropCountry(g) <==> Row(c, o) in rows {
      if o in DropCountry(g) {
        var i :| 0 <= i < |g| && DropCountry(g)[i] == o;
        assert g[i] == Row(c, o);
      }
      if Row(c, o) in rows {
        var i :| 0 <= i < |g| && g[i] == Row(c, o);
        assert DropCountry(g)[i] == o;
      }
    }
  }

  /**
   Appending a row to the table appends its observation to the end of its own
   country's sub-table and leaves every other sub-table unchanged: each
   sub-table keeps the original relative order of its rows.
   */
  lemma ByCountryAppend(rows: seq<Row>, x: Row)
    ensures ByCountry(rows + [x]).Keys == ByCountry(rows).Keys + {x.country}
    ensures ByCountry(rows + [x])[x.country]
      == (if x.country in Countries(rows) then ByCountry(rows)[x.country] else []) + [x.obs]
    ensures forall c ::
      c in Countries(rows) && c != x.country ==> ByCountry(rows + [x])[c] == ByCountry(rows)[c]
  {
    var t := rows + [x];
    assert Countries(t) == Countries(rows) + {x.country};
    forall c | c in Countries(t)
      ensures RowsOf(t, c) == RowsOf(rows, c) + (if c == x.country then [x] else [])
    {
      RowsOfAppend(rows, [x], c);
      assert [x][1..] == [];
    }
    if x.country !in Countries(rows) {
      RowsOfAbsent(rows, x.country);
    }
  }
}
