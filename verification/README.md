# Uber data analytics dashboard — verified model of the data pipeline

The dashboard (`app.py`) is a Streamlit script over a table of ride bookings.
Beneath its page layout and charts there is a small pipeline, and this project
models it in Dafny:

1. **Load-time normalisation** (`load_data`). `Year` and `Month` are derived
   from `DateTime` only when the file lacks those columns. A read failure
   becomes an error screen.
2. **Selection filter.** If the year selection or the month selection is
   empty, the filtered table is deliberately empty. Otherwise it keeps exactly
   the rows whose `Year` and `Month` are both selected, in table order. An
   empty filtered table halts the page before any aggregation runs.
3. **Per-page aggregations** over the filtered rows:
   - the KPI tiles: trip count, total booking value with missing counted as 0,
     and distinct customers;
   - `value_counts` of booking status;
   - customer and driver rating distributions, with missing and sentinel (≤ 0)
     ratings removed;
   - mean VTAT/CTAT per vehicle type, with groups that have no value dropped;
   - booking-value sum per vehicle type;
   - the daily revenue series.

The table is a `seq<Trip>`. A cell that may be missing (a NaN) is a
`Cells.Cell<T>`. A selection is a pair of `set<int>`. Group-by results are maps.
`value_counts` and the daily series are sequences, because their order is part
of what they promise. Every pandas call is modelled by its plain meaning:
- `isin` is set membership.
- `dropna` removes missing cells.
- `fillna(0).sum()` and `groupby(...).sum()` count a missing value as 0.
- `groupby(...).mean()` skips missing values and yields a missing mean for a
  group with no values.
- `nunique` and `value_counts` ignore missing keys.
- `groupby` puts rows with a missing key in no group.

Amounts and ratings are `real`, so sums and means are exact.

Modules, leaf first: `Cells` (missing cells, sums, means), `Trips` (the record),
`Loader`, `Selection`, `Columns` (dropna, totals, distinct keys, one group),
`Ratings`, `GroupBy`, `Counts` (`value_counts`), `Daily` (revenue trend), and
`Dashboard` (one render of the page).

Each group-by and count aggregation is computed in one pass over the rows,
building up a map or an association list. Its contract then relates the result
to a declarative reference: a key's group (`Columns.Group`), the present values
of that group (`Columns.PresentValues`), or the rows of one date
(`Daily.OnDate`). The proofs show that the one-pass results agree with those
references.

## Model

| member | source | states |
|---|---|---|
| `Loader.Normalise` | app.py:96-101 | Afterwards the table has both a Year and a Month column and the same number of rows. A column the file already had keeps its values. A column it lacked takes each row's DateTime year or month. No other field of any row changes. |
| `Loader.NormaliseKeepsNormalised` | app.py:98-101 | A table that already has both Year and Month comes out unchanged. |
| `Loader.NormaliseIdempotent` | app.py:98-101 | Normalising an already normalised table changes nothing. |
| `Loader.Load` | app.py:92-108 | A read failure (file not found, or any other read or parse error) comes out as the same error. A successful read comes out normalised, with the same number of rows. Each row is the row read, with every field other than Year and Month unchanged. Year and Month keep the file's values when it has those columns; otherwise they are the row's DateTime year and month. |
| `Selection.SelectedIndices` | app.py:145-148 | The positions of the rows that the mask `Year.isin(years) & Month.isin(months)` keeps. They are strictly increasing, each one names a selected row, and every selected row's position is among them. |
| `Selection.Keep` | app.py:145-148 | Boolean-mask indexing: the k-th result row is the input row at the k-th selected position. Rows keep their order; no row is dropped and no row is added. |
| `Selection.Filter` | app.py:144-150 | An empty year or month selection gives zero rows, whatever the table. Otherwise the result is exactly the selected rows in their original order. Every result row has a selected year and a selected month, and every such input row appears. |
| `Selection.FilterShrinks` | app.py:144-150 | The filtered table never has more rows than the table. |
| `Columns.Keys` | app.py:203 | There are never more distinct non-missing keys than rows. |
| `Columns.KeysArePresentValues` | app.py:203 | A value is among the distinct keys exactly when some row holds it in that column; missing cells contribute nothing. |
| `Columns.Group` | app.py:313 | A group is empty exactly when its key occurs in no row; it never has more rows than the table. |
| `Columns.GroupMembers` | app.py:313 | Every row of a group is a row of the table and carries the group's key. |
| `Columns.PresentValues` | app.py:244 | `dropna` keeps each value as many times as rows hold it. The result is empty exactly when every cell is missing. |
| `Columns.TotalSkipsMissing` | app.py:194 | The `fillna(0).sum()` total equals the sum of the present values. |
| `Columns.PresentCount` | app.py:220 | The number of rows with a present key is at most the number of rows. It is 0 exactly when no key is present. |
| `Ratings.Rated` | app.py:245 | The `> 0` mask keeps only positive values, and keeps every positive value as many times as it occurs. |
| `Ratings.Distribution` | app.py:244-245 | The plotted customer ratings (and, for the other column, the driver ratings at lines 267-268) contain no missing value and no value ≤ 0. Each positive rating appears exactly as often as rows hold it. |
| `GroupBy.GroupSums` | app.py:364 | There is one entry per vehicle type present in the rows. Each entry is its group's booking total, with a missing value counted as 0. |
| `GroupBy.AllMissingGroupSumsToZero` | app.py:364 | A vehicle type whose booking values are all missing is still listed, with sum 0, so the `.dropna()` removes nothing. |
| `GroupBy.GroupSumSkipsMissing` | app.py:364 | Each group sum equals the sum of that group's present values. |
| `GroupBy.Accumulate` | app.py:313 | The one-pass accumulation holds, for each present key, the sum and the count of that group's present values. |
| `GroupBy.GroupMeans` | app.py:313 | `groupby.mean()` has one entry per present key. The entry is missing exactly when the group has no present value. Otherwise it is the arithmetic mean of those values. |
| `GroupBy.DropMissing` | app.py:313 | `.dropna()` keeps exactly the present entries, with their values. |
| `GroupBy.MeansBy` | app.py:313 | The mean VTAT (and, at line 336, CTAT) per vehicle type omits every type with no present value. Each emitted mean is its group's mean, so mean × count = sum, and it lies between the group's smallest and largest value. |
| `GroupBy.MeanWithinGroup` | app.py:313 | Every present group mean lies between the group's minimum and maximum value. |
| `Cells.MeanBetweenMinAndMax` | app.py:313 | The mean of a non-empty sequence lies between its minimum and maximum. |
| `Counts.Bump` | app.py:220 | Recording one more occurrence of a key raises that key's count by 1. It leaves every other count alone and keeps keys unique. |
| `Counts.Tally` | app.py:220 | The one-pass tally has unique keys, exactly the present statuses. Each count is the number of rows with that status, and the counts add up to the rows that have a status. |
| `Counts.SortByCount` | app.py:220 | The sort returns a permutation of its input ordered by count, largest first. Keys, per-key counts and the total are unchanged. |
| `Counts.ValueCounts` | app.py:220 | `value_counts` (here and, for the pie chart, at line 296) has one entry per distinct non-missing status, ordered by count, largest first. Each count is at least 1 and equals the number of rows with that status. The counts add up to the rows that have a status, which is at most the number of rows. |
| `Trips.BeforeIsStrictTotal` | app.py:411 | Calendar dates are strictly and totally ordered, which is the order of the grouped dates. |
| `Daily.AddOnKeepsAscending` | app.py:411 | Folding one more row into the series keeps it in strictly ascending date order. |
| `Daily.AddOnRevenue` | app.py:411 | Folding a value into a date adds it to that date's revenue, and that date only. The series gains that date if it was absent. |
| `Daily.DailySeries` | app.py:411 | Dates are strictly ascending and are exactly the rows' calendar dates. Each date's revenue is its rows' booking total, with missing counted as 0. |
| `Daily.AscendingPointRevenue` | app.py:411 | In an ascending series a date occurs once, so the revenue looked up for a point's date is that point's value. |
| `Daily.RevenueTrend` | app.py:409-411 | The trend is drawn exactly when some booking value is present. It then has one point per distinct date, dates strictly ascending. Each point is the sum of that date's present booking values. |
| `Dashboard.KeyFigures` | app.py:185-203 | Total trips is the row count. Total booking value is the sum of the present values. Unique customers is the number of distinct non-missing Customer IDs, never more than total trips, and 0 exactly when every Customer ID is missing. |
| `Dashboard.PageView` | app.py:176-411 | A non-empty filtered table renders exactly the chosen page, with these values. Overview: total trips is the row count (at least 1). Total value is the sum of the present booking values. Unique customers is the number of distinct non-missing Customer IDs, at most the trips. The status counts are ordered largest first and cover exactly the statuses present, each once. Each count is the number of rows with that status, and the counts add up to the rows that have a status. Each rating list holds only positive ratings, each as often as rows hold it. Trip Experience: the same status counts, and the VTAT and CTAT means exist exactly for vehicle types with a present value, each equal to its group's mean. Revenue: one sum per vehicle type present, each its group's booking total with missing counted as 0. The trend is absent exactly when every booking value is missing. Otherwise its dates are strictly ascending and are exactly the rows' dates, and each point is the sum of that date's present booking values. |
| `Dashboard.Render` | app.py:143-173 | The page halts with no data exactly when the filtered table is empty. This covers any empty year or month selection and any selection that no row meets. Otherwise the chosen page is shown, summarising the filtered rows. Its trip count is the number of filtered rows, and its status counts cover exactly the statuses among them. Its per-vehicle means and sums are keyed by the vehicle types among them. |
| `Dashboard.Show` | app.py:111-113 | A failed load shows only its error. A successful one renders the dashboard on the normalised table. |

## Left out

- Page configuration, CSS, markdown, KPI HTML and every Plotly/Streamlit chart (app.py:10-88 and the chart code throughout) are left out: they are presentation only.
- The sidebar widgets (app.py:117-141, 161-168) are left out. Their option lists (sorted unique years and months) and defaults are UI. The model takes the selections and the page as plain inputs.
- The sidebar's record count and date range (app.py:152-159) are left out: they only format the filtered table for display.
- Reading the CSV from its fixed path and mapping exceptions to messages (app.py:92-94, 103-108, 442-453) are left out as file I/O and a foreign parser. The outcome of the read is an input (`Loader.Loaded`), and the error text is an opaque string.
- `@st.cache_data` memoisation (app.py:91) is left out: it is framework behaviour, and the model loads once per call.
- Parsing `DateTime` strings (app.py:96) is left out: a timestamp is an already-parsed date and time of day. A string that cannot be parsed makes `pd.to_datetime` raise, and the exception is a load failure (app.py:106-108), which `Loader.ReadFailed` covers.
- A missing DateTime cell (NaT) is not modelled, because `Trips.Trip.dateTime` is not a `Cells.Cell`. A NaT row is in the filtered table when its Year is selected. That happens through the file's Year column, or, when Year is derived, through the NaN year that the year widget lists (app.py:122) and that `isin` matches. The model's selections are sets of integers, so they cannot hold that NaN year. A selected NaT row is dropped by the date groupby at app.py:411, but its booking value counts in the guard at app.py:409 and in the KPI total at app.py:194.
- Year and Month cells in a column the file already has are modelled as present integers. A NaN inside such a column is not modelled.
- Floating-point rounding is left out: sums and means use exact `real` arithmetic.
- Histogram binning (`nbins=20`), colour palettes and colour slicing (app.py:368) are left out as presentation only.
- Columns the pipeline never reads (Booking ID, locations, ride distance, payment method, DayOfWeek, IsWeekend, Reason) are left out of `Trips.Trip`.
- The `'Booking Value' in filtered_df.columns` half of the guard at app.py:409 is always true in the model, because that column is part of the record.
- GroupBy.GroupSums: returns a map. The ascending key order in which pandas lists the groups is not modelled; only the bar order depends on it.
- GroupBy.MeansBy: returns a map, so the key order of the groups is not modelled, for the same reason.
- Counts.ValueCounts: the order among statuses with equal counts is not specified. pandas sorts with an unstable sort, so the model promises only that counts descend.
