# Warehouse movement analyser: a Dafny model of its data engine

The application (a Streamlit wizard in `app.py`) takes one or more uploaded
spreadsheets or CSV files of warehouse movements. It lets the user map the
files' columns onto eight canonical fields (Depósito, SKU, Pedido, Caixa,
Data, Hora, Quantidade, Rota/Destino), optionally splitting a combined
date/time column. Every file is normalised into those eight columns and the
files are concatenated. The result is optionally enriched with SKU and
Depósito descriptions from dimension tables. Quantities are summed per
(Depósito, SKU, Data). Per (Depósito, SKU) it computes the mean, maximum,
standard deviation, 95th percentile and three alert thresholds of the daily
sums. A dashboard then filters by "code - description" labels, drills down on
one statistics row and shows big-number indicators.

This project models that data engine:

- `etl.dfy` (`Etl`) covers `process_etl_batch`. `BuildPlan` is a method that
  builds the per-file expression list step by step, as the source's loops do.
  Evaluating the plan against one file is `FileTable`. `ProcessBatch` is a
  method for the loop over files, with its two `continue`s.
- `stats.dfy` (`Stats`) covers `enrich_and_calculate_stats`. It models:
  - the left joins with the dimension tables;
  - the daily sums;
  - the statistics rows;
  - the descriptions;
  - the output column list.
- `wizard.dfy` (`Wizard`) covers the logic the wizard runs between widgets:
  - the default drop-down index, a method with a search loop that breaks;
  - labels and the codes read back from them;
  - the global filters and the drill-down;
  - the indicators.
- The supporting modules are:
  - `grouping.dfy` (`Grouping`): distinct keys in first-occurrence order, sums, per-key sums, mean, max, filter.
  - `text.dfy` (`Text`): lower-casing, substring test, first-match replace, `split(sep)[0]`, decimal numerals.
  - `wrappers.dfy` (`Wrappers`): `Option`.

Modelling choices:

- **Cells and nulls.** A file is a list of named columns, each flagged as text
  or typed, plus rows of optional text cells. A null is `None`.
- **Parsers.** The polars parsers are abstract functions that return `Option`.
  These are `str.to_datetime`, `str.to_time` and the cast to Float64. Under
  `strict=False`, a cell that does not parse becomes null.
- **Format inference.** `str.to_datetime` and `str.to_time` are called without
  a format. Polars infers one pattern from the column's cells
  (`datetimeFormat`, `timeFormat`, abstract functions of the whole column)
  and parses every cell of that column with it, so a cell's date depends on
  its text and on the rest of its column. When no pattern can be inferred,
  evaluation raises and the file is dropped.
- **Typed columns.** A `.str` parse raises on evaluation when applied to a
  non-text column, and so does any reference to a missing column. Such an
  error drops the whole file.
- **Dead fallbacks.** The `try/except` fallbacks around building an expression
  never fire, because polars expressions are lazy, so they are not modelled.
- **Literals only.** A plan that reads no column at all selects literals only,
  and polars then yields a single row of nulls.
- **Mapping values.** The empty string counts as "unmapped". "--- Ignorar ---"
  is an ordinary column name that no file has.
- **Grouping.** Groups are listed in first-occurrence order. The source sorts
  nothing before the output, so this order is unspecified there.
- **Left joins.** They are modelled with polars' row multiplication on
  duplicate dimension keys. A null key matches nothing.
- **Join that raises.** Choosing the key column itself as the description
  column makes the rename drop the join key, and the join raises. This is
  modelled as no result.
- **Numerics.** Standard deviation and the 95% quantile are abstract
  (`Numerics`). A pair with fewer than two days gets `Desvio` 0, because the
  sample deviation is null there and is then filled with 0.
- **Drill-down codes.** The drill-down compares against the code as pandas
  prints it, so a null code becomes the text "None".

What the code does with missing values and descriptions:

- An unparseable or missing quantity stays null; nothing turns it into a
  number. It is parsed as a 64-bit float.
- An unmapped text field is null.
- `Desvio` is the sample deviation (ddof = 1).
- A code with no matching dimension row gets a null description.
- Each description column is the literal "" when its own description column
  is absent; a code with no match gives null.

Functions that only compute are characterised by the lemmas beside them:
`FileTable` and `Normalize` by `FileSkippedIff`, `FileTableHeight` and the
`Mapped…`/`…DatetimeFields` lemmas; `QuantityOf` by `QuantityDecimalComma`;
`Batch` by `ProcessBatch` and `BatchAppend`; `LeftJoin` by `LeftJoinKeepsRows`
and `LeftJoinUniqueKeys`; `Enrich` by `EnrichKeepsRecords`; `Stat` and
`DescFor` by `StatRowFacts`, `StatRowCodes` and the description lemmas;
`StatsColumns` by the `Columns…` lemmas and `OutputColumnsFixed`.

## Model

| member | source | states |
|---|---|---|
| Etl.BuildPlan | app.py:129-157 | The expression list built by the branches and loops is exactly the plan. Each field comes from the combined date/time column when the split applies. Otherwise it comes from its own non-empty mapped column present in the file, or is a null literal. |
| Etl.ProcessBatch | app.py:116-168 | The batch loop returns the surviving files' tables concatenated in file order. A file survives when it is non-empty and its plan evaluates without error. |
| Etl.PlanOrderIsRequired | app.py:118 | The plan's order lists each of the eight required columns exactly once. |
| Etl.PlanCoversRequired | app.py:159-163 | Every plan names exactly the eight canonical fields, so the fill of missing columns adds nothing. |
| Etl.LookupPlan | app.py:159-163 | Selecting a required column yields the expression the plan derived for that field. |
| Etl.ReadsColumnsIff | app.py:159 | The plan reads a column of the file if and only if some field is derived from a column. |
| Etl.FileSkippedIff | app.py:125-164 | A file is skipped if and only if it is empty or one of its eight field expressions raises on evaluation: a missing column, a `.str` parse of a non-text column, or a temporal parse for whose column no format can be inferred. |
| Etl.TextFileSkippedIff | app.py:128-164 | A non-empty file whose columns are all text, such as every CSV, is skipped if and only if format inference fails for the column of one of its temporal fields. |
| Etl.UninferableDateSkipsFile | app.py:130-164 | When Data is parsed from a column for which no datetime format can be inferred, the file is skipped. |
| Etl.FileTableHeight | app.py:159-163 | A surviving file contributes one row per input row when some field is read from a column. Otherwise it contributes exactly one row, all of whose eight fields are null. It never contributes zero rows. |
| Etl.MappedKeyFields | app.py:149-155 | Depósito, SKU and Pedido of every row are the text of the cell in the field's mapped column. They are null when the field is unmapped. |
| Etl.MappedOtherFields | app.py:149-157 | Caixa and Rota/Destino are the text of the mapped cell. Quantidade is the float parse of the mapped cell after its first comma becomes a point. |
| Etl.SplitDatetimeFields | app.py:130-133 | With the split on and the combined column present, a surviving file has a datetime format inferred for that column. Data and Hora are the date and the time of each cell parsed with that format. |
| Etl.OwnDatetimeFields | app.py:136-147 | Otherwise a mapped Data or Hora column of a surviving file has an inferred format. Data is the date of the cell's datetime parse and Hora the cell's time parse, each with the format inferred for its own mapped column. |
| Etl.SameFormatSameDate | app.py:136-141 | Equal Data text under the same inferred column format gives the same date, whichever files the cells come from. |
| Etl.ColumnFormatDecidesDate | app.py:136-141 | Equal Data text gives a date in one file and null in another when the formats inferred for the two columns disagree on it. |
| Etl.SplitIgnoresTemporalMapping | app.py:130-147 | When the split applies, changing the Data/Hora mappings leaves the plan unchanged. |
| Etl.UnmappedFieldIsNull | app.py:137-157 | A field is null in every row when it is unmapped, mapped to "", or mapped to a column absent from the file ("--- Ignorar ---" in particular). This holds for Data and Hora only when the split does not apply. |
| Etl.QuantityDecimalComma | app.py:153 | For any decimal parser, `[-]digits,digits` reads as the number `[-]digits.digits`. |
| Etl.QuantityExamples | app.py:153 | "12,5" reads as 12.5 and "1,5" as 1.5. A cell the parser rejects ("abc", "") is null, not 0. |
| Etl.BatchAppend | app.py:123-168 | Processing two lists of files gives the concatenation of their results. |
| Etl.BatchOfOne | app.py:123-168 | A single file gives its own table, or the empty table when it is skipped. |
| Etl.SurvivorsEmptyIff | app.py:123-164 | No table survives if and only if every file is skipped. Every surviving table has at least one row. |
| Etl.BatchEmptyIff | app.py:167-168 | The batch is empty if and only if every file is skipped. |
| Stats.Expand | app.py:174-188 | One left row gives one row per dimension row whose key equals its code, or one row when nothing matches. Each carries its record unchanged and changes only this side's description. With no match the description is null. A non-null description is the renamed description of a dimension row whose key equals the code. |
| Stats.ExpandOnce | app.py:174-188 | With unique dimension keys, every left row comes out of the join exactly once. |
| Stats.ExpandUniqueKey | app.py:174-188 | With unique dimension keys, a row whose code is the key of a dimension row comes out once, with that row's description. |
| Stats.LeftJoinKeepsRows | app.py:174-188 | A left join keeps every left record and never shrinks the table. |
| Stats.LeftJoinUniqueKeys | app.py:174-188 | With unique dimension keys, the join neither drops, adds nor reorders records. |
| Stats.EnrichKeepsRecords | app.py:171-188 | Enrichment gives no result exactly when a join raises. Otherwise it flags each renamed description column and keeps every record of the batch. |
| Stats.EnrichUniqueKeys | app.py:171-188 | With unique keys in every joined dimension, enrichment keeps the records exactly, in order. |
| Stats.EnrichWithoutDimensions | app.py:171-188 | Without a usable dimension file, the detail table is the batch table and has no description columns. |
| Stats.DailyAgg | app.py:191-195 | The daily table has one entry per distinct (Depósito, SKU, Data) key. |
| Stats.DailyAggValues | app.py:191-195 | Each entry of the daily table holds the total quantity of the dated rows with its key, with a null quantity adding nothing. |
| Stats.DailyAggOfPair | app.py:191-197 | A pair's daily values are the daily-table entries whose key has that pair, in order. |
| Stats.PairDayKeys | app.py:191-197 | A pair's daily groups are the pair's distinct dates, in first-occurrence order. |
| Stats.DaysOfDates | app.py:191-197 | A pair has one daily value per distinct date of its dated rows, and each is the total quantity of that date. |
| Stats.PairDatesExact | app.py:191-197 | A pair's dates are distinct and are exactly the dates of its rows that have a non-null Data. |
| Stats.DailyEntriesKeys | app.py:191-195 | The daily groups are exactly the keys of the rows with a non-null Data. |
| Stats.StatPairsExact | app.py:191-197 | There is exactly one statistics group per distinct (Depósito, SKU) among the rows with a non-null Data. |
| Stats.DailyAggTotal | app.py:191-195 | The daily sums add up to the total quantity of the dated rows, with a null quantity adding nothing. |
| Stats.DaysOfPair | app.py:191-197 | A pair's daily values add up to that pair's dated quantity. A pair with a statistics row has at least one day. |
| Stats.Statistics | app.py:197-208 | The statistics table has one row per (Depósito, SKU) group. |
| Stats.EnrichAndCalculateStatsResult | app.py:170-239 | The function raises exactly when a join does. Otherwise it returns the enriched detail table, in which every batch record appears and the renamed description columns are flagged, together with its statistics table of one row per (Depósito, SKU) group. |
| Stats.StatRowFacts | app.py:197-208 | Máximo is one of the daily values and at least each of them, hence at least Média. A single day gives Desvio 0. When Desvio ≥ 0, Média ≤ Média + 1 Desv ≤ Média + 2 Desv ≤ Média + 3 Desv. |
| Stats.ThreeDaysScenario | app.py:191-202 | Quantities 10, 20 and 30 of one (Depósito, SKU) on three distinct days give a single statistics row with those codes, Média 20 and Máximo 30. |
| Stats.DesvioNonNegative | app.py:200 | A standard deviation that is never negative makes every Desvio non-negative. |
| Stats.FirstDescIsEarliest | app.py:211-217 | The description of a code comes from the earliest detail row carrying that code. |
| Stats.FirstDescAbsent | app.py:211-217 | A code that no detail row carries gets no description. |
| Stats.StatRowCodes | app.py:219-226 | The code columns hold the group's codes. Without a description column, the description is "". With one, a null code gets a null description. |
| Stats.SkuDescription | app.py:211-226 | The SKU description of a statistics row is the SKU_DESC of the earliest detail row with that SKU. |
| Stats.DepDescription | app.py:215-226 | The Depósito description of a statistics row is the DEP_DESC of the earliest detail row with that Depósito. |
| Stats.ColumnsBothDesc | app.py:219-227 | With both description columns, the renamed columns end in SKU, Depósito. |
| Stats.ColumnsSkuDesc | app.py:219-227 | With only SKU_DESC, the renamed columns end in SKU, Depósito. |
| Stats.ColumnsDepDesc | app.py:219-227 | With only DEP_DESC, the renamed columns end in Depósito, SKU. |
| Stats.ColumnsNoDesc | app.py:219-227 | With no description column, the two literal columns are appended as SKU, Depósito. |
| Stats.FinalColumnsOnly | app.py:229-239 | Both possible endings contain every final column exactly once and no extra column. |
| Stats.OutputColumnsFixed | app.py:219-239 | Whatever descriptions exist, `stats` has all eleven final columns, each once, and no extra column. The output is therefore exactly the fixed column order. |
| Wizard.DefaultMappingIndex | app.py:336-339 | The pre-selected index is the first source column whose lower-cased name occurs in the lower-cased target, or 0 when none does. |
| Wizard.IgnoreNeverSuggested | app.py:303-339 | "--- Ignorar ---" is never suggested for a target without '-', which covers every canonical field. |
| Wizard.SameNameSuggested | app.py:338-339 | A column named like the target in any letter case is suggested. |
| Wizard.EmptyNameSuggested | app.py:338-339 | A column with an empty name is suggested for every target. |
| Wizard.LongerNameNotSuggested | app.py:338-339 | A column name longer than the target is never suggested, because the test runs from column into target. |
| Wizard.Label | app.py:426-427 | The label is null exactly when the code is null. |
| Text.SplitHeadPrefix | app.py:437-442 | Cutting `code + sep + rest` at the first `sep` gives back `code` if and only if no occurrence of `sep` starts inside `code`. |
| Wizard.CodeOfLabel | app.py:426-442 | Splitting `code + " - " + desc` at the first " - " gives back the code if and only if the code neither contains " - " nor ends with " -". The description plays no part. |
| Wizard.CodeOfLabelCounterexample | app.py:437 | The code "A -" is read back as "A". |
| Wizard.StatsBySku | app.py:436-438 | With SKU labels selected, exactly the statistics rows whose non-null label was selected are kept, each as often as in the input. With none selected, the table is unchanged. |
| Wizard.StatsByDep | app.py:441-443 | The same for the Depósito labels. |
| Wizard.DetailBySku | app.py:436-439 | With SKU labels selected, exactly the detail rows whose non-null SKU is a code read back from a selected label are kept, each as often as in the input. With none selected, the table is unchanged. |
| Wizard.DetailByDep | app.py:441-444 | The same for Depósito. |
| Wizard.SkuFiltersAgree | app.py:426-439 | If a statistics row survives the SKU filter and its code reads back cleanly, every detail row with that code passes the detail filter. |
| Wizard.DepFiltersAgree | app.py:427-444 | The same for Depósito. |
| Wizard.DrillDown | app.py:466-477 | The drill-down keeps exactly the detail rows whose SKU and Depósito equal the selected row's codes as printed, each as often as in the input. A null code prints as "None". |
| Wizard.Dashboard | app.py:434-477 | The statistics shown are exactly the rows that pass both label filters. The detail shown is exactly the rows that pass both code filters and, with a selection, carry the selected row's codes as printed; each row appears as often as in the input. |
| Wizard.DashboardCleanCodes | app.py:426-477 | When the selected row's codes are present and read back cleanly from their labels, the detail shown is exactly the drill-down of the whole detail table. |
| Wizard.DailyTotals | app.py:493-494 | There is one daily sum per distinct Data value, and a null date forms a group of its own. |
| Wizard.DailyTotalsPerDay | app.py:493-494 | The days are distinct and are exactly the Data values of the rows, and each daily sum is the total quantity of its day. |
| Wizard.Kpis | app.py:482 | Indicators exist exactly when the detail table is non-empty. |
| Wizard.DailyTotalsSum | app.py:486-494 | The daily sums add up to the units of the table, with a null quantity counting 0. There are at least one and at most |rows| days. |
| Wizard.KpiDays | app.py:482-500 | Lines is the row count and days is between 1 and that count. The daily sums add up to the units. The peak is one of the daily sums and at least the daily mean. |
| Wizard.KpiAverage | app.py:494-497 | The daily mean is the units divided by the number of days, which is at least 1. |
| Wizard.DailyMeanTimesDays | app.py:493-497 | The mean of the daily sums times the number of days gives back the units. |
| Wizard.KpiCounts | app.py:489-491 | The distinct counts of orders, SKUs and depots lie between 1 and the row count, with null counted as a value. |

## Left out

- File reading (`load_sample`, `load_full_safe`, `load_dim_full`) goes through the polars and pandas readers; a file is given as an already-read table, the empty table standing for a read error.
- The cell text a reader produces (CSV read all-as-text versus typed spreadsheet cells) and the text form `cast(Utf8)` gives a typed cell are taken as given in the table.
- Which pattern polars infers from a column (`datetimeFormat`, `timeFormat`), how a pattern reads a cell (`toDatetime`, `toTime`) and the Float64 parse are abstract functions; only the comma replacement in front of the number parse is modelled.
- Floating point is modelled as exact reals; rounding in sums and means is not captured.
- Standard deviation and `quantile(0.95)` are abstract functions of the daily values (`Numerics`).
- Stats.StatRowFacts: the threshold ordering is stated under the hypothesis that Desvio is non-negative, because the deviation itself is abstract.
- Wizard.KpiDays: the mean-times-days identity is stated as the quotient (Wizard.KpiAverage) and at the level of the daily list (Wizard.DailyMeanTimesDays), rather than on the indicator record itself.
- Column data types and the schema check of `pl.concat` (a null-typed column next to a typed one) are not modelled; concatenation is row-wise.
- Columns of a dimension table other than its key and description, which the join copies into the detail table, are not modelled.
- Sort orders (`unique().sort()` of the filter options, `sort("Data")` of the daily table) and the order of polars group-by output are not modelled; groups appear in first-occurrence order.
- Selecting a null label in a filter (which would make `split` raise) is not modelled; selections are lists of text labels.
- `str.lower` is modelled for ASCII and Latin-1 capitals only.
- `get_bytes` (Excel/CSV export), page setup, the wizard's step flow in the session state, widget rendering, the progress bar, the Plotly charts and the heatmap's date formatting are user interface and library formatting.
