# Covid-19 economic impact dashboard: the data pipeline

This project models the data pipeline of the Streamlit dashboard in
`covid_impact_dashboard.py`, and proves properties of that model. The pipeline
joins the Johns Hopkins time series of confirmed Covid-19 cases with a table of
yearly economic indicators. It then picks out the rows the trend chart plots
for one selected year:

1. **Reshape** (lines 20-24). The pipeline drops Province/State, Lat and Long.
   It unpivots the table so that each date column becomes one record per row.
   It parses each column header as a date, derives Year from it, and keeps the
   years 2020, 2021 and 2022.
2. **Reconcile** (lines 26-27). The pipeline inner-joins the tidy records with
   the economic table on the exact pair (country name, year). Country/Region is
   matched against Country.
3. **View** (lines 31-35). The pipeline keeps the joined rows of the selected
   year. It groups them by country and takes each country's largest Confirmed
   count. It chooses the five countries with the largest counts, then keeps
   those countries' rows.

The code is pure table transformation. The model therefore follows its form:
- one datatype per table shape (`Tables`);
- one function per stage (`Reshape`, `Reconcile`, `View`);
- the composition of the stages (`Dashboard`);
- lemmas about those functions (`ReshapeFacts` and the lemmas beside each
  stage);
- generic facts about masks, subsequences and distinctness (`Seqs`).

Modelling choices:
- The table library's date parser is a parameter, `toDate: string ->
  Option<Date>`, where `None` means the header does not parse.
  - Parsing fails as a whole and names the first header that does not parse.
  - Parsing can fail only when the table has at least one row, because
    unpivoting zero rows produces no Date values to parse.
- Unpivoting emits records column by column: every row of the first date
  column, then every row of the next.
- The join emits rows in the order of the tidy records. For each tidy record,
  the matching economic rows follow in the economic table's order.
  - Cardinality and membership are proved with no reliance on this order.
- Every table is rectangular: each row has one count per date column. A data
  frame is always rectangular, so `RawRectangular` states a property of every
  loaded table rather than a demand on callers.
- Confirmed is an unbounded integer. GDP and Unemployment are carried as
  `real`, and the pipeline never computes with them.

## Model

| member | source | states |
|---|---|---|
| Reshape.DropColumns | covid_impact_dashboard.py:20 | Dropping Province/State, Lat and Long keeps the date headers, the number of rows, and each row's country and counts, in order. |
| Reshape.MeltLength | covid_impact_dashboard.py:21 | Unpivoting C rows and D date columns yields exactly C×D records. |
| Reshape.MeltAt | covid_impact_dashboard.py:21 | The record of row i and date column j exists. It carries row i's country, column j's header and the cell at (i, j) verbatim. |
| Reshape.MeltProvenance | covid_impact_dashboard.py:21 | Every unpivoted record is the record of some row and date column: nothing is invented. |
| Reshape.FirstUnparsed | covid_impact_dashboard.py:22 | Gives the first position, from a start point, whose header fails to parse. Every header before it parses. |
| Reshape.ToDatetime | covid_impact_dashboard.py:22 | Parsing fails exactly when some header does not parse, and it reports the first such header. Otherwise every record gets its own header's date, with country and count unchanged. |
| Reshape.AddYear | covid_impact_dashboard.py:23 | Each record's Year is the year of its Date, and all other fields are kept, position by position. |
| Reshape.FilterYears | covid_impact_dashboard.py:24 | A record is kept exactly when its Year is 2020, 2021 or 2022. The kept records keep their relative order. |
| Reshape.FilterYearsMultiplicity | covid_impact_dashboard.py:24 | A record with Year 2020, 2021 or 2022 is kept as many times as it occurs, and a record of any other year is not kept. |
| Reshape.SupportedHeaderCount | covid_impact_dashboard.py:22-24 | Counts the date headers that parse to a kept year. The count is at most the number of headers. |
| Reshape.ColumnMaskCount | covid_impact_dashboard.py:21-24 | The year mask keeps either a whole date column of records or none of it. |
| Reshape.MeltFromMaskCount | covid_impact_dashboard.py:21-24 | Over the columns from j on, the year mask keeps one block of \|rows\| records per header that parses to a kept year. |
| ReshapeFacts.FailureHasBadHeader | covid_impact_dashboard.py:20-24 | A failed reshape implies that the table has a row and that some date header does not parse. |
| ReshapeFacts.BadHeaderFails | covid_impact_dashboard.py:20-24 | When the table has a row, any unparseable date header makes the reshape fail. |
| ReshapeFacts.ReshapeFails | covid_impact_dashboard.py:20-24 | The reshape fails if and only if there is at least one row and some date header does not parse. |
| ReshapeFacts.ReshapeCount | covid_impact_dashboard.py:20-24 | A successful reshape keeps exactly (rows) × (headers that parse to 2020-2022) records. |
| ReshapeFacts.SurvivorHasCell | covid_impact_dashboard.py:20-24 | Every kept record is the record of some row and some date column whose header parses to a kept year. |
| ReshapeFacts.TidyAt | covid_impact_dashboard.py:22-23 | After a successful parse, position k holds the record built from unpivoted record k, with its date and that date's year. |
| ReshapeFacts.CellSurvives | covid_impact_dashboard.py:20-24 | The record of every row and every date column whose header parses to a kept year is in the result. |
| ReshapeFacts.ReshapeMembership | covid_impact_dashboard.py:20-24 | A record is in the reshaped table if and only if it is the record of some (row, supported date column): that row's country and count, that column's date and that date's year. |
| Reconcile.CountKey | covid_impact_dashboard.py:27 | Counts the rows with a given key. The count never exceeds the table's length. |
| Reconcile.MatchesCount | covid_impact_dashboard.py:27 | One tidy record joins with as many rows as the economic table has rows with its key, and with none under any other key. |
| Reconcile.MergeCardinality | covid_impact_dashboard.py:27 | A key with m tidy rows and n economic rows gives exactly m×n joined rows with that key. |
| Reconcile.UnmatchedKeyDropped | covid_impact_dashboard.py:27 | A key that is missing on either side gives no joined row, not even a null-filled one. |
| Reconcile.CountKeyZero | covid_impact_dashboard.py:27 | A key counted zero times occurs in no row. |
| Reconcile.MatchesProvenance | covid_impact_dashboard.py:27 | The joined rows of one tidy record are exactly its combinations with the economic rows that have the same key. |
| Reconcile.MergeProvenance | covid_impact_dashboard.py:27 | A row is joined if and only if it combines a tidy record and an economic record with the same (country, year). It copies Country/Region, Date, Confirmed and Year from the first, and Country, GDP and Unemployment from the second. |
| Reconcile.MergeKeyAgrees | covid_impact_dashboard.py:27 | In every joined row, Country/Region equals Country, and the (country, year) key occurs on both sides. |
| Reconcile.MergedYearsSupported | covid_impact_dashboard.py:24-27 | Every joined row has Year 2020, 2021 or 2022, because the year filter runs before the join. |
| Reconcile.MergedTableFails | covid_impact_dashboard.py:20-27 | Reshape followed by the join fails exactly when the reshape fails. |
| View.SelectYear | covid_impact_dashboard.py:31 | filtered_df holds exactly the joined rows of the selected year, in their original order. Each such row is kept as many times as it occurs, and no other row is kept. It is empty when no joined row has that year. |
| View.CountryMax | covid_impact_dashboard.py:34 | The per-country maximum is the Confirmed count of one of that country's rows, and no row of that country has more. |
| View.GroupKeys | covid_impact_dashboard.py:34 | Lists every country of the rows exactly once, and no other value. |
| View.GroupMax | covid_impact_dashboard.py:34 | The group-by gives one group per distinct country and no other. Each group holds that country's maximum Confirmed count. |
| View.ArgMax | covid_impact_dashboard.py:34 | Finds a group with the largest peak; every group before it has a strictly smaller peak. |
| View.RemoveAt | covid_impact_dashboard.py:34 | Removing one group keeps every other group, adds none, and keeps the countries distinct. |
| View.TopK | covid_impact_dashboard.py:34 | nlargest(k) returns min(k, groups) of the groups. No group left out has a larger peak than a group chosen, and the countries stay distinct. |
| View.Names | covid_impact_dashboard.py:34 | The index of the chosen groups lists their countries in order. It is duplicate-free when the groups name distinct countries. |
| View.TopCountries | covid_impact_dashboard.py:34 | top_countries has min(5, number of countries in filtered_df) members, all distinct and all present in filtered_df. No country left out has a larger maximum Confirmed count than a country included. |
| View.LineData | covid_impact_dashboard.py:35 | line_data holds exactly the rows of filtered_df whose Country/Region is a top country, in their original order. Each such row is kept as many times as it occurs in filtered_df, and no other row is kept. |
| Dashboard.TrendOf | covid_impact_dashboard.py:31-35 | Every plotted row is a joined row of the selected year whose country is one of at most five chosen countries. filtered_df is an order-preserving subsequence of the joined table, and line_data is one of filtered_df. |
| Dashboard.Pipeline | covid_impact_dashboard.py:20-35 | The whole pipeline fails if and only if the case table has a row and some date header does not parse. |
| Dashboard.PlottedCountryAgrees | covid_impact_dashboard.py:27-35 | In every plotted row, Country/Region equals Country. |
| Dashboard.UnsupportedYearSelectsNothing | covid_impact_dashboard.py:24-35 | A selected year outside 2020-2022 yields an empty filtered_df and nothing to plot. |
| Seqs.Filter | covid_impact_dashboard.py:24 | A boolean mask keeps exactly the elements it accepts, and never lengthens the table. |
| Seqs.FilterMultiplicity | covid_impact_dashboard.py:24 | A mask keeps each accepted row as many times as it occurs, and drops every rejected row. |
| Seqs.FilterIsSubseq | covid_impact_dashboard.py:31 | A mask keeps the relative order of the rows it keeps. |

## Left out

- The user interface is not modelled. This covers the page setup, the sidebar, the headers and every chart (lines 2-9, 29, 33, 36-37, 39-56). The selected year enters the model as a parameter.
- The GDP bar data (top 10 by mean GDP, line 40), the unemployment pie data (top 6 by mean unemployment, line 45) and the correlation matrix (line 50) are not modelled. They are floating-point aggregates that feed only the charts.
- Loading and caching (lines 11-18) are left out, because they are network and file I/O. The two loaded tables are the model's inputs.
- The date parser itself is a parameter, because it is the table library's code and is not part of this repository.
- Reconcile: line 26 converts Year to int. The model's economic Year is already an integer, so a non-numeric Year, which would raise an error, is not modelled.
- A missing column would raise a key error at lines 20-27. This cannot occur in the model, because the records' fields are fixed by their types.
- Province/State, Lat and Long are carried by the raw rows only to be dropped. No property refers to their values.
- View.TopK: when peaks tie, the model keeps the group that comes first in first-appearance order. The library sorts the group-by keys by name before nlargest, so on ties the model may choose a different country. The count, distinctness and "no larger excluded peak" properties hold either way.
- View.GroupKeys: the groups come in first-appearance order, not in the library's sorted key order. No property depends on this order.
- The order of the joined rows is not proved. Only counts and membership are proved about Reconcile.Merge, although it builds rows in the order described above.
- Integer width: the library stores Confirmed as 64-bit integers. The model does not bound them, because the pipeline only compares counts and never adds them.
