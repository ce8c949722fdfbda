# COVID dashboard data pipeline in Dafny

A verified model of the data shaping behind the CovidDashboard Shiny app. The app reads a
table of per-country daily rows, fills the daily columns from the cumulative columns, takes the
latest row of each country, and sums all countries per date. It also picks the data that each
chart shows. The model covers these steps:

- `table.dfy` (module `Table`): the row schema and the column helpers. A row is a country plus
  an `Observation` (date, the two cumulative counts, the two daily counts, latitude and
  longitude). A missing cell (pandas NaN) is `None`. Dates are already-parsed integers.
- `gap_fill.dfy` (module `GapFill`): `utils.get_full_dataframe`. Within each country, in table
  order, the daily value is the difference of the cumulative column from the previous row. Where
  that difference is missing, the source daily value is used, and then 0. The DataFrame whose
  columns are overwritten in place is the class `Frame`.
- `snapshot.dfy` (module `Snapshot`): `utils.get_latest_data`. It sorts by date and keeps the
  last row of each country.
- `partition.dfy` (module `Partition`): `utils.get_dataframe`. It builds the dictionary from
  country to that country's rows, with the `country` column dropped.
- `daily_aggregate.dfy` (module `DailyAggregate`): `df_daily` in main.py. It groups by date,
  sums the four metrics and sorts by date.
- `selection.dfy` (module `Selection`): `metric_column`, `filtered_daily`, the top-20 rows of the
  bar chart, and the clipped values behind the map's marker sizes.
- `sorting.dfy` (module `Sorting`): the two sort orders used above and one insertion sort,
  proved to give an ordered permutation of its input.

Three behaviours of the code that are easy to misread:

- The daily differences are taken in table order. `get_full_dataframe` never sorts the frame
  before `groupby("country")[...].diff()` (utils.py:45-50), so a row's "previous" row is the
  nearest earlier row of its country in the file, whatever its date. `ExampleTableOrder` shows
  the effect.
- The difference wins over a present source daily value. The new column is
  `diff().fillna(source).fillna(0)`, so the source value is used only where the difference is
  missing. For cumulative cases 100, 150, 150, 200 with source daily values (none, none, 5,
  none), the result is 0, 50, 0, 50 (`ExampleSourceValueOverwritten`). The comments at
  utils.py:9 and utils.py:15 suggest the daily value is computed only where it is missing. The
  model follows the statements, not the comments.
- `get_latest_data` sorts with pandas' default `sort_values` (utils.py:33), which is not stable.
  The model therefore states nothing about which of several rows with the same latest date of a
  country is kept.

## Model

| member | source | states |
|---|---|---|
| `Sorting.SortBy` | utils.py:33 | sorting by date (or by a metric, descending with missing values last) returns a permutation of the input that is in that order |
| `GapFill.LastIndexOf` | utils.py:46-47 | the group's previous row is the nearest earlier row of the same country in table order, or none when the row is the first of its country |
| `GapFill.GroupDiff` | utils.py:46-47 | the group difference of a row exists exactly when the row has an earlier row of its country and both cumulative values are present, and it is then the current minus the previous cumulative value (`FillTakesDifference` and `FillFallsBack` state this without naming the previous row's index) |
| `GapFill.FillColumn` | utils.py:45-58 | the new daily column has one value per row: the group difference where it exists, otherwise the source daily value, otherwise 0 (`FillNeverAbsent`, `FillTakesDifference`, `FillFallsBack`) |
| `GapFill.FullSeries` | utils.py:44-58 | the cleaned series keeps the row count and order, the country, date and both cumulative columns of every row, and has no missing daily value (`FullSeriesDaily` gives the daily values) |
| `GapFill.Frame.SetDaily` | utils.py:45-50 | assigning a daily column replaces exactly that column of every row and keeps the row count and order |
| `GapFill.GetFullDataframe` | utils.py:40-60 | the frame ends up with cases filled and then deaths filled, from a freshly loaded table |
| `GapFill.Fill` | utils.py:45-58 | filling one metric keeps the row count and order and every other column of every row, and sets that metric's daily column to its filled column |
| `GapFill.FillKeepsOtherColumns` | utils.py:44-58 | filling keeps the row count and order, and every column except the filled daily column |
| `GapFill.FillNeverAbsent` | utils.py:49 | after filling, no daily value is missing |
| `GapFill.FillTakesDifference` | utils.py:45-48 | for a row with an earlier row of its country, where both cumulative values are present, the filled daily value is current minus previous, even if a source value was present and even if negative |
| `GapFill.FillFallsBack` | utils.py:48-49 | for the first row of a country, or where either cumulative value is missing, the filled daily value is the source daily value, or 0 when that is missing too |
| `GapFill.FillIndependent` | utils.py:53-58 | deaths are filled by the same rule independently of cases: filling one metric first does not change the other's filled column |
| `GapFill.FullSeriesDaily` | utils.py:44-58 | in the cleaned series each daily column is the fill of its own metric over the raw table |
| `GapFill.ExampleSourceValueOverwritten` | utils.py:45-50 | cumulative 100, 150, 150, 200 with source daily (none, none, 5, none) fill to 0, 50, 0, 50 |
| `GapFill.ExampleNegativeDifferenceKept` | utils.py:53-58 | a cumulative count falling from 100 to 80 gives a daily value of -20, not clamped |
| `GapFill.ExampleTableOrder` | utils.py:41-50 | the difference is taken in table order, not date order: a row listed after a later-dated row of its country is differenced against it |
| `GapFill.LastIndexOfCountriesOnly` | utils.py:46 | the previous row within a country depends only on the country column |
| `Snapshot.KeepLastPerCountry` | utils.py:34-35 | `groupby("country").tail(1)` returns only rows of its input |
| `Snapshot.KeepLastOnePerCountry` | utils.py:34-35 | `tail(1)` per country keeps exactly one row of every country and no country twice |
| `Snapshot.KeepLastSorted` | utils.py:33-35 | keeping the last row per country preserves the sorted order |
| `Snapshot.KeepLastIsLatest` | utils.py:33-35 | on a date-sorted table, each kept row's date is the largest among its country's rows |
| `Snapshot.Latest` | utils.py:33-35 | the latest rows have exactly the input's countries, no country twice, and every row comes from the input (`LatestSpec` adds the maximum date and the order) |
| `Snapshot.GetLatestData` | utils.py:29-37 | `get_latest_data` returns one row for every country of the raw table and no country twice, so it has as many rows as there are countries |
| `Snapshot.LatestSpec` | utils.py:29-37 | the latest snapshot has one row per distinct country (as many rows as countries), each an input row with its country's maximum date, in ascending date order |
| `Partition.DropCountry` | utils.py:22 | dropping the `country` column keeps the row count and order and each row's other columns unchanged |
| `Partition.ByCountry` | utils.py:21-24 | the dictionary has one key per distinct country |
| `Partition.GetDataframe` | utils.py:6-26 | `get_dataframe` is the country dictionary of the same cleaned series as `get_full_dataframe` |
| `Partition.ByCountryMembers` | utils.py:21-24 | a country's sub-table is non-empty and holds exactly the observations of that country's rows, without the country column |
| `Partition.ByCountryAppend` | utils.py:21-24 | appending a row appends its observation to the end of its own country's sub-table and changes no other sub-table, so each sub-table keeps the original relative order |
| `Table.RowsOf` | main.py:103 | the country filter returns no more rows than its input, each an input row of that country (`RowsOfMembers` gives the converse) |
| `Table.RowsOfMembers` | main.py:103 | `df[df["country"] == c]` keeps exactly the rows of country c |
| `Table.RowsOfAppend` | main.py:103 | the country filter distributes over concatenation, so it keeps the relative row order |
| `DailyAggregate.AddRow` | main.py:14-20 | accounting one row adds its values to the totals of its date only, and adds its date to the set of dates |
| `DailyAggregate.AddRowAscending` | main.py:21 | accounting a row keeps the per-date totals in strictly ascending date order |
| `DailyAggregate.Aggregate` | main.py:13-23 | the aggregate is in strictly ascending date order, has exactly the input's dates, and its totals for any date equal the sums over the input rows of that date |
| `DailyAggregate.AggregateSpec` | main.py:13-23 | `df_daily` has one row per distinct date, in strictly ascending date order, and each of the four metrics equals the sum of that metric over all rows with that date, a missing value counting 0 |
| `DailyAggregate.DailyTotals` | main.py:12-23 | `df_daily` of the raw table is in strictly ascending date order and has exactly the raw table's dates (`AggregateSpec` gives the per-date sums) |
| `DailyAggregate.ExampleSameDateSummed` | main.py:14-16 | two countries with 10 and 25 new cases on one date give a single row with 35 |
| `Selection.MetricColumn` | main.py:107-118 | a column is returned exactly when the metric type is "new" or "cumulative" and the measure is "cases" or "deaths"; otherwise nothing |
| `Selection.MetricColumnInverse` | main.py:111-118 | each of the four (type, measure) pairs selects its own column and no other pair selects it |
| `Selection.ColumnNamesDistinct` | main.py:112-118 | the four returned column names are pairwise distinct |
| `Selection.FilteredDaily` | main.py:99-103 | with no country selected the chart gets the global daily aggregate; otherwise it gets that country's rows, sorted by date, as a permutation of the filtered rows |
| `Selection.FilteredDailyRows` | main.py:103 | with a country selected, the rows shown are exactly the table's rows of that country |
| `Selection.TopN` | main.py:240-243 | the top `n` rows number min(n, rows), are in non-increasing order of the chosen metric (missing last), and are drawn from the snapshot |
| `Selection.Top20` | main.py:240-243 | the bar chart gets min(20, countries) rows of the snapshot, in non-increasing order of the chosen metric, missing last (`TopNLeftOut` shows no larger row was left out) |
| `Selection.TopNLeftOut` | main.py:240-243 | every snapshot row left out of the top rows has a metric no larger than each row included (missing counting as smallest) |
| `Selection.MarkerValue` | main.py:163 | the value behind a marker's size is never negative: a missing value becomes 0, a negative value is clipped to 0, and other values are kept |
| `Selection.MarkerValueMonotone` | main.py:163 | clipping keeps the order of values, so a larger count never yields a smaller marker value |

## Left out

- Reading the CSV files (utils.py:7, utils.py:41) is not modelled. The table arrives as a
  parameter `raw`.
- Date parsing with `pd.to_datetime` (utils.py:42) is not modelled. Dates are already-parsed
  integers. `get_dataframe` never parses its dates (utils.py:6-26). It only copies them, so the
  model treats them the same way.
- Rows with a missing country or date are not modelled: the model assumes every row has a
  country and a date. So the `dropna()` of `df_daily` (main.py:22) changes nothing: every sum is
  present, because pandas sums an all-missing group to 0. The model does not capture what the
  code does with such rows:
  - a row with a missing date sorts last in `sort_values("date")`, so `tail(1)` keeps it as its
    country's latest row (utils.py:33-35);
  - a row with a missing country gets no group difference and is filled with its source daily
    value or 0 (utils.py:45-58);
  - that row is still summed into its date's totals of `df_daily` (main.py:14-20).
- Float column types are not modelled. pandas turns the filled daily columns into floats. The
  model keeps exact integers.
- Sort stability is not modelled. `Sorting.SortBy` is one stable insertion sort, but pandas'
  default `sort_values` is not stable (utils.py:33, main.py:103, main.py:241). Every property
  proved of a sorted result uses only that it is ordered and a permutation of its input. It
  therefore holds for any arrangement pandas may choose among equal keys.
- Row order and index labels of pandas `groupby` output and `reset_index` (utils.py:22) are not
  modelled. A sub-table is a sequence in table order.
- The coordinate join is not part of this model. In this code the latitude and longitude come
  with the table itself, and they are carried through unchanged as columns.
- `Selection.MetricColumn` returns the column as a `Column` value, not the header string. `Name()`
  gives the header string.
- The Shiny UI, Plotly figures, geo styling and layout are not modelled (main.py:27-88,
  main.py:121-273). The click handlers and the `selected_country` reactive value are not modelled
  either (main.py:96, main.py:222-230, main.py:261-271). The selected country is a parameter of
  `Selection.FilteredDaily`.
- Marker size arithmetic is not modelled. This covers the square root, the scaling by 5 and 30,
  and the substring tests on the column name (main.py:164-168). It is floating-point and only
  cosmetic.
- Hover-text HTML is not modelled (main.py:171-182). It is presentation formatting.
- App start-up is not modelled (main.py:276-278).
- Z_test.py, dashboard.py and folioMap_test.py are not modelled. They are demo UI scripts with
  hard-coded data.
