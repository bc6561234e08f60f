# COVID-19 dashboard query core, in Dafny

The dashboard in `app.py` loads the Philippine Department of Health case ledger. It answers
each change of the filter panel with three tables:

- the cumulative, per-100,000 time series of confirmed cases per group (`cases`);
- the death rate per group (`deaths`);
- the Cases / Deaths / Recoveries aggregate table (`aggs`).

This project models the computation behind those tables:

- `case_aggregates` and `clean_dates`;
- the `filter_query` callback;
- the METRO MANILA view computed at start-up;
- the `set_province_options` callback, which keeps the province dropdown in step with the
  chosen regions.

It then proves what each step promises.

The modules follow the steps of the program:

| module | file | what it holds |
|---|---|---|
| `Wrappers` | `wrappers.dfy` | `Option`, `Result` |
| `Ledger` | `ledger.dfy` | the case record; `clean_dates` and its column-wide apply over an `array` |
| `Aggregates` | `aggregates.dfy` | `case_aggregates` |
| `Grouping` | `grouping.dfy` | pandas `groupby(...).apply(case_aggregates)` |
| `Selection` | `selection.dfy` | the region/province query; the `"<n> PROVINCES"` merge and its pooled `pop_2015` |
| `Series` | `series.dfy` | the count table, the calendar merge, `cumsum`, `Per100k`, `dropna` |
| `SeriesFacts`, `SeriesLedger` | `series_facts.dfy`, `series_ledger.dfy` | what the series means in terms of the ledger |
| `Rates` | `rates.dfy` | the totals/deaths inner merge and the `Rate` column |
| `Query` | `query.dfy` | `filter_query`; the default view |
| `QueryFacts` | `query_facts.dfy` | properties of the whole callback |
| `ProvinceOptions` | `provinces.dfy` | `set_province_options` and the dropdown stores |
| `Scenario` | `scenario.dfy` | a worked example: three cases of one province, computed end to end |

Conventions of the model:

- A pandas NaN is `None`.
- Dates are integer day numbers.
- pandas `groupby` is a list of distinct keys in order of first appearance. A record with a
  missing key cell belongs to no group.
- Each step that Python performs with a loop over a frame has two forms:
  - a recursive specification function;
  - a `method` with a `while` loop, proved equal to that function (`GroupBy`, `Select`,
    `MergeCalendar`, `CumulativeTotals`, `DropMissing`, `ComputeRates`, `FilterQuery`, …).
- The program's errors are modelled as values, not preconditions:
  - `PreventUpdate` on another tab is `Reply.Prevented`;
  - the `IndexError` at `dates[0]` on an empty count table is `Reply.NoDates`;
  - the `ValueError`, `KeyError` and `UnboundLocalError` of `set_province_options` are
    `Failure` values.

Where the code's behaviour is easy to misread, the model follows the code:

- Zero-filled calendar rows do not survive. The code merges the calendar, then `fillna(0)`
  fills only `Cases`. The filler rows keep a NaN `Per100k` and are removed by `dropna()`.
  So the series is contiguous only over dates with records (`Series.DropNa`,
  `SeriesLedger.SeriesSpec`).
- The merged "N PROVINCES" population is the sum of the DISTINCT `pop_2015` values of the
  kept records (`unique().sum()`). Two provinces with the same population count once. One
  record without a population makes the whole sum NaN (`Selection.PooledPopSpec`).
- The rates frame has a row only for the groups with at least one `Died` record, because the
  merge is an inner merge (`Rates.RateKeySpec`).
- An empty selection is not an empty result:
  - with the national box unticked and an empty region or province list, the code falls back
    to the whole ledger (`QueryFacts.SelectionIgnored`);
  - a selection that keeps no dated record raises `IndexError` at `dates[0]`
    (`SeriesLedger.SeriesMissing`, `Reply.NoDates`).
- The breakdown columns keep the order in which the user chose them. Only `HealthStatus` is
  removed from the series and rates keys (`QueryFacts.WithoutHealthSpec`).

## Model

| member | source | states |
|---|---|---|
| Ledger.CleanDates | app.py:24-29 | The removal date is the death date for a Died record that has one, and the recovery date for a Recovered record that has one. In every other case, including a Died or Recovered record without that date, it is the reported DateRepRem. |
| Ledger.CleanDatesIdempotent | app.py:24-29 | Cleaning changes only DateRepRem. Cleaning twice is cleaning once. |
| Ledger.CleanLedger | app.py:63 | Every ledger entry is replaced by its cleaned record, in place. |
| Aggregates.CaseAggregates | app.py:16-22 | Deaths + Recoveries <= Cases <= the number of records. |
| Aggregates.CaseAggregatesCounts | app.py:16-22 | Each count equals the number of rows counted: coded rows; coded Died rows; coded Recovered rows. |
| Aggregates.CaseAggregatesAppend | app.py:16-22 | The aggregates of two partitions together are the sum of their aggregates. |
| Grouping.KeyOfCells | app.py:464-470 | A record has a group key exactly when every key cell is present, and the key lists those cells. |
| Grouping.KeyOfAppend | app.py:464 | The key over two column lists together (as in `['Province'] + filters`) is the key over the first followed by the key over the second, and is missing when either is. |
| Grouping.MembersHaveKey | app.py:464-470 | A group's members are exactly the records whose key is the group's key. |
| Grouping.GroupKeysSpec | app.py:464-470 | The group keys are distinct, and they are exactly the keys of the records that have one. |
| Grouping.GroupAggregateSnocDropped | app.py:464-470 | A record with a missing key cell changes no group. |
| Grouping.GroupAggregateSnocKnown | app.py:464-470 | A record of an existing group adds its contribution to that group alone. |
| Grouping.GroupAggregateSnocNew | app.py:464-470 | A record of a new key appends one group holding its contribution. |
| Grouping.CasesWhereSnocRecord | app.py:464-470 | Over any set of keys, one more record adds exactly its coded contribution to their total Cases. |
| Grouping.GroupedCasesWhere | app.py:464-470 | Over any set of keys, the Cases of the groups sum to the coded count of the records in those groups. |
| Grouping.AggregateTableSpec | app.py:464-470 | The table holds one row per distinct key that some record has. Each row is `case_aggregates` of exactly that key's records. The total of Cases is the coded count of the grouped records. |
| Grouping.Absorb | app.py:464-470 | One record folded into the table and its key index gives the aggregate of the records seen so far. The index stays exact. |
| Grouping.GroupBy | app.py:464-470 | The dictionary pass over the records computes the aggregate table. |
| Selection.SelectedSpec | app.py:459 | A record is kept exactly when its region and its province are both selected. A NaN cell matches no list. |
| Selection.Select | app.py:459 | The loop computes the selection, in ledger order. |
| Selection.NatToString | app.py:461 | The count in `"<n> PROVINCES"` is written as a non-empty string of decimal digits, with no leading zero. |
| Selection.NatToStringValue | app.py:461 | The digits read back as the count: `format` writes n in decimal. |
| Selection.ProvincesLabelInjective | app.py:461 | Two different province counts give two different labels. |
| Selection.UniquePopsSpec | app.py:462 | `unique()` holds exactly the population cells that occur, NaN included. |
| Selection.DistinctPopsSpec | app.py:462 | The distinct populations are duplicate-free, and are exactly the populations that occur. |
| Selection.PooledPopSpec | app.py:462 | One kept record without a population makes the pooled population NaN. Otherwise it is the sum of the distinct populations, which is positive when all of them are. |
| Selection.MergeProvinces | app.py:460-462 | Every kept record is relabelled `"<n> PROVINCES"` and given the pooled population. |
| Series.MinDate | app.py:485-486 | `dates[0]` of the sorted dates is a date of the count table, and no date is earlier. |
| Series.MaxDate | app.py:485-487 | `dates[-1]` is a date of the count table, and no date is later. |
| Series.FirstDate | app.py:485-486 | The scan finds the earliest count date. |
| Series.LastDate | app.py:485-487 | The scan finds the latest count date. |
| Series.CollectHits | app.py:489-490 | The count rows of one date are collected in count-table order. |
| Series.MergeCalendar | app.py:488-492 | The left merge of `date_range(start, end)` with the count table, built date by date. |
| Series.CumulativeTotals | app.py:493-499 | The running totals and Per100k column, built row by row. |
| Series.DropMissing | app.py:501 | `dropna()` keeps the complete rows, in order. |
| Series.BuildSeries | app.py:476-501 | The series steps in order. None when the count table is empty. |
| SeriesFacts.HitsOnSpec | app.py:489-490 | The rows merged onto a date are exactly the count rows of that date. |
| SeriesFacts.HitsOnEmpty | app.py:489-492 | A date gets no count row exactly when no count has that date. |
| SeriesFacts.CalendarRows | app.py:488-492 | The merged frame holds every count row, and a filler row for each date in range without counts. It holds nothing else. |
| SeriesFacts.CalendarCovers | app.py:488 | Every date from start to end has a row. |
| SeriesFacts.CalendarSorted | app.py:488-492 | The merged frame is in date order. |
| SeriesFacts.CumulateSpec | app.py:493-499 | Row i's Total is its group's running sum up to and including row i, and its Per100k follows from that Total. |
| SeriesFacts.TotalsNondecreasing | app.py:494-498 | Within one group, later rows never have a smaller Total. |
| SeriesFacts.DropNaSpec | app.py:501 | The points are exactly the complete rows. |
| SeriesFacts.DropNaSorted | app.py:501 | `dropna()` keeps date order. |
| SeriesFacts.CalendarSum | app.py:488-494 | A group's Cases summed over the merged frame equal its counts summed over the date range. |
| SeriesFacts.DaySumIsCasesWhere | app.py:477-483 | A group's counts over the date range sum to the Cases of its count-table groups. |
| SeriesFacts.DaySumUpTo | app.py:477-483 | A group's counts from the first date up to a date sum to the Cases of its count-table groups dated no later. |
| SeriesFacts.DaySumMono | app.py:493-498 | A group's counts summed up to a later date are no smaller. |
| SeriesFacts.DaySumOnDate | app.py:477-483 | When a group has one count row on a date, summing up to that date adds exactly that row's count. |
| SeriesFacts.CalendarPrefixSum | app.py:488-494 | The running sum up to a row of the merged frame lies between the group's counts summed before the row's date plus its Cases, and those summed up to its date. |
| SeriesLedger.CountKeyDecodes | app.py:477-483 | A record has a count key exactly when it is dated and has a group key. The count key decodes to its date, its group and its population. |
| SeriesLedger.CountRow | app.py:477-483 | Each count row counts exactly its records, and there is at least one. |
| SeriesLedger.CountRowOf | app.py:477-483 | Every dated, grouped record is counted in some count row. |
| SeriesLedger.CountRowsDistinct | app.py:477-483 | No two count rows share date, group and population. |
| SeriesLedger.CountTableSpec | app.py:477-483 | The three facts above, for the whole count table. |
| SeriesLedger.DayMembersSpec | app.py:477-483 | The records of a count row are exactly the ledger records matching its date, its group and its population. |
| SeriesLedger.GroupRecordsSpec | app.py:494-498 | A group's records are exactly its dated ledger records. |
| SeriesLedger.TotalledHit | app.py:495-499 | A count row survives `dropna` exactly when its rate is defined, and it then reports its count and its Total. |
| SeriesLedger.MergedTotal | app.py:488-498 | A group's Cases summed over the merged frame equal its number of coded, dated records. |
| SeriesLedger.PointReports | app.py:476-501 | Every point reports a count row, whose index it returns: date, group, count, and Per100k from its Total. |
| SeriesLedger.PointRow | app.py:488-501 | Every point comes from a row of the merged calendar with its group, date and Cases, and its Total is the group's running sum up to that row. |
| SeriesLedger.PointBounds | app.py:476-501 | Every point has Cases <= Total <= the group's number of coded, dated records. |
| SeriesLedger.CasesUpToSpec | app.py:477-494 | The records counted for a group up to a date are exactly its dated ledger records reported on or before that date. |
| SeriesLedger.DaysUpTo | app.py:477-494 | A group's daily counts from the first count date up to a date add up to its records reported up to that date. |
| SeriesLedger.GroupPop | app.py:73 | Nationally, or when every province has one population, two count rows of one group have one population. |
| SeriesLedger.OneRowPerDay | app.py:477-483 | Nationally, or when every province has one population, a group has at most one count row per date. |
| SeriesLedger.PointTotal | app.py:476-501 | Every point's Total is cumulative: at least its group's records reported before its date plus its Cases, and at most those reported up to its date. |
| SeriesLedger.PointTotalExact | app.py:476-501 | Nationally, or when every province has one population, every point's Total is exactly its group's records reported up to its date. |
| SeriesLedger.CasesUpToGrows | app.py:493-498 | A group has at least as many records reported up to a later date. |
| SeriesLedger.PointsAccumulate | app.py:493-501 | Of two points of one group, the later has at least the earlier's Total; on the same date too, nationally or when every province has one population. |
| SeriesLedger.GroupTotalDays | app.py:477-494 | A group's daily counts over the whole date range add up to its number of coded, dated records. |
| SeriesLedger.LastPointTotal | app.py:476-501 | Nationally, or when every province has one population, the last point of a group has the group's whole count as its Total. |
| SeriesLedger.SeriesSorted | app.py:476-501 | The points are in date order. |
| SeriesLedger.RatedReported | app.py:476-501 | Every count row whose rate is defined is reported by some point. |
| SeriesLedger.SeriesSpec | app.py:476-501 | The series is in date order. Each point reports a count row, and its Total is cumulative: between its group's records reported before its date plus its Cases and those reported up to its date, and exactly the latter nationally or when every province has one population. Of two points of one group, the later never has the smaller Total. Each count row with a defined rate is reported. |
| SeriesLedger.SeriesMissing | app.py:485-486 | `dates[0]` raises exactly when no record is both dated and grouped. |
| Rates.SelectDied | app.py:504 | The loop keeps exactly the Died records, in order. |
| Rates.IndexDeaths | app.py:512-520 | The index holds exactly the death-table keys, each with its first Deaths. |
| Rates.MergeRates | app.py:512-520 | The loop computes the inner merge. |
| Rates.ComputeRates | app.py:504-521 | The rates frame, step by step. |
| Rates.DiedSpec | app.py:504 | A record is in the deaths frame exactly when its status is Died. |
| Rates.DiedCounts | app.py:504-519 | The coded count of the Died records is the Deaths aggregate. |
| Rates.DiedMembers | app.py:504-519 | Grouping the Died records gives each group's Died members. |
| Rates.FindSpec | app.py:512-520 | In a key-distinct table, lookup finds exactly the keys present, with their Cases. |
| Rates.InnerMergeRows | app.py:512-520 | Each merged row is a totals row whose key the deaths table has, joined with its Deaths. |
| Rates.InnerMergeDistinct | app.py:512-520 | The merge keeps keys distinct. |
| Rates.RateRowSpec | app.py:504-521 | Each rates row:<br>- has its group's Cases and Deaths;<br>- hangs on a key of some Died record;<br>- has Rate = Deaths / Cases. |
| Rates.RateKeySpec | app.py:504-520 | A key has a rates row exactly when some Died record has it. |
| Rates.RatesSpec | app.py:504-521 | The rates keys are distinct. Every row has its group's Cases and Deaths, with Deaths <= Cases and a Rate between 0 and 1 that is defined exactly when Cases > 0. The rows are exactly the groups with a Died record. |
| Rates.RatioBounds | app.py:521 | Deaths / Cases is defined exactly when Cases > 0, and then lies in [0, 1]. |
| Rates.RatesCountDeaths | app.py:504-521 | When every record has a code, each rates row has 1 <= Deaths <= Cases and a defined Rate. |
| Rates.CountsCoded | app.py:18 | When every record has a code, Cases is the number of records. |
| Query.DropHealth | app.py:475 | The loop drops HealthStatus from the filters. |
| Query.FilterQuery | app.py:451-528 | The callback, step by step: prevented on another tab; NoDates on an empty count table; otherwise the three tables. |
| Query.DefaultData | app.py:78-105 | The start-up METRO MANILA tables, step by step. |
| QueryFacts.PreventedExactly | app.py:454-455 | No update is sent exactly when the active tab is not `cases`. |
| QueryFacts.SelectionIgnored | app.py:458-470 | Without a province selection, the region, province and summed inputs change nothing. The whole ledger is used. |
| QueryFacts.WithoutHealthSpec | app.py:475 | HealthStatus is gone. Every other filter stays. Filters without it are unchanged. |
| QueryFacts.WithoutHealthIdempotent | app.py:475 | Dropping HealthStatus twice is dropping it once. |
| QueryFacts.HealthOnlyInAggs | app.py:464-521 | HealthStatus in the filters affects only the aggregate table, never the series or the rates. |
| QueryFacts.QueryLineOnePop | app.py:458-462 | When every province has one population, so do the records the query uses. |
| QueryFacts.QueryLineSpec | app.py:458-469 | The records used are: the selected records; or, when summed, each selected record relabelled `"<n> PROVINCES"` with the pooled population; or, without a selection, every record. |
| QueryFacts.RelabelledUniform | app.py:460-462 | After the merge, every record has the same province and population. |
| QueryFacts.UniformAggKeys | app.py:464 | Over records of one province, every aggregate-table key starts with that province. |
| QueryFacts.UniformDay | app.py:481-483 | Over records of one province, every count row has that province and its population. |
| QueryFacts.UniformSeries | app.py:497-501 | Over records of one province, every point has that province, and Per100k is Total over its population times 100,000. |
| QueryFacts.UniformRates | app.py:514-520 | Over records of one province, every rates key starts with that province. |
| QueryFacts.SummedKeys | app.py:460-521 | With the provinces summed, every series, rates and aggregate key starts with `"<n> PROVINCES"`. |
| QueryFacts.SummedPer100k | app.py:462-499 | With the provinces summed, every point's Per100k is Total over the sum of the distinct populations times 100,000. |
| QueryFacts.SummedMissingPopulation | app.py:462-501 | With the provinces summed, one selected record without a population leaves no point, and `dates[0]` raises. |
| QueryFacts.MetroManilaIsSelected | app.py:78 | The METRO MANILA query equals the selection of province METRO MANILA when its region is selected. |
| QueryFacts.ProvincialIgnoresNationalPop | app.py:497-499 | Outside the national view, NATIONAL_POP plays no part. |
| QueryFacts.DefaultIsQuery | app.py:78-105 | The start-up data is what `filter_query` gives for province METRO MANILA, with its region, no breakdown, not summed. |
| ProvinceOptions.SetProvinceOptions | app.py:405-430 | An empty region list clears all three stores. A successful update stores the input regions. |
| ProvinceOptions.ExtraSpec | app.py:408 | The set difference holds each region of one list missing from the other exactly once; its size is that of the set difference. |
| ProvinceOptions.ExtraLast | app.py:408 | A region added to the stored list is the only difference. |
| ProvinceOptions.OptionsOfSpec | app.py:410-413 | The options exist exactly when every province has a display name. The options list the provinces in order, each with its name. |
| ProvinceOptions.RegionOptionsSpec | app.py:419-423 | The regions' options exist exactly when every region is known and every province in them has a name. They list exactly those regions' provinces. |
| ProvinceOptions.FilterOutSpec | app.py:424-427 | A chosen province stays exactly when it is not one of the removed region's provinces. |
| ProvinceOptions.FilterOutAppend | app.py:424-427 | Filtering distributes over concatenation. |
| ProvinceOptions.AddRegion | app.py:407-415 | Adding a known region, wherever the dropdown puts it in the input list, stores the input regions, appends the region's options and selects its provinces. |
| ProvinceOptions.RemoveRegion | app.py:416-427 | Removing a region rebuilds the options from the remaining regions. It deselects exactly the removed region's provinces. |
| ProvinceOptions.InitialConsistent | app.py:430 | The empty stores agree with each other. |
| ProvinceOptions.AddKeepsConsistent | app.py:407-415 | Adding a region keeps the stores in agreement: every option and every chosen province belongs to a stored region. |
| ProvinceOptions.RemoveKeepsConsistent | app.py:416-427 | Removing a region keeps the stores in agreement. |
| ProvinceOptions.AddThenRemove | app.py:405-427 | Adding a region and then removing it restores the options. It keeps the other chosen provinces. When none of the region's provinces had been chosen, it restores every store. |
| Scenario.CountRows | app.py:481-483 | Example: the count table has (day 1, A, 2) and (day 2, A, 1). |
| Scenario.Frame | app.py:485-492 | Example: the calendar runs from day 1 to day 2, with one count row each. |
| Scenario.Points | app.py:492-501 | Example: Totals 2 and 3, and Per100k 0.2 and 0.3 for a population of 1,000,000. |
| Scenario.RatesA | app.py:504-521 | Example: one rates row (A, 3 cases, 1 death, rate 1/3). |
| Scenario.ScenarioResult | app.py:451-528 | Example: the whole callback for province A gives those series and rates rows, and the aggregate row (A, 3, 1, 1). |

## Left out

- The Dash layout, the figures and every other callback besides `set_province_options` and `filter_query` (`store_provinces` only copies its inputs). They are presentation.
- Reading the CSV files, the region and province lookup tables, and the column drops, renames and date parsing (app.py:34-62). The model starts from the parsed ledger, and takes the lookup tables as parameters.
- The population merge (app.py:72-74). Each record carries its province's population, and NATIONAL_POP is a parameter.
- The summary strings (app.py:118-125) and the data drop's testing aggregates. They are display text.
- Floating point: Per100k and Rate are exact reals.
- Dates are day numbers, and `date_range` steps one day.
- Group order: pandas sorts group keys, while the model lists keys in order of first appearance. The contracts say which rows there are and what they hold, not their order, except for the series, whose date order is proved.
- A zero population: pandas divides by zero and gives inf (or NaN for 0/0), and `dropna()` keeps an inf row. The model leaves Per100k missing for a zero population, so it drops that row (`Series.Per100k`).
- The in-place column overwrites of pandas (`table_df['Province'] = ...`, `cases_df['Total'] = ...`) are modelled as new sequences. Only `Ledger.CleanLedger` updates an array in place.
- n_clicks only triggers the callback, and is not an input of the model.
- `reset_index` and `to_dict('records')` are layout changes, and are not modelled.
- The dropdown's `None` value is modelled as the empty list.
- ProvinceOptions.AddKeepsConsistent: assumes that the new region is appended at the end of the input list, as the dropdown does when a value is picked. The options are built in the order of the stored regions followed by the new one, so they follow the input order only for an appended region. `ProvinceOptions.AddRegion` is stated for the region anywhere in the list.
- SeriesLedger.PointTotalExact, SeriesLedger.LastPointTotal: in the provincial view they assume that every province has one `pop_2015`, which the merge of the population table by province name (app.py:73) gives. Without it, one group can have two count rows on one date, and a point's Total may then stop short of the day's full count (`SeriesLedger.PointTotal` still holds).
- QueryFacts.DefaultIsQuery: needs every METRO MANILA record's region to be among the selected regions. The start-up query does not look at regions.
