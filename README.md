# snd-forecast: supply-and-demand table cleaning and ARIMA forecast bookkeeping, in Dafny

This project models the two computational files of snd-forecast. The
repository turns a monthly supply-and-demand report into tables and
forecasts three series from it: imports, area harvested and yield per acre.

- `functions/clean_data.py` normalises the scraped table:
  - `clean_cols` drops filler columns and renames the report's labels;
  - `convert_numerical` turns value cells into numbers;
  - `convert_to_date` parses labels such as `2023/24 Proj. Mar`;
  - `adjust_month_to_marketing_year` rotates the month so the marketing year starts in May;
  - `new_date_cols` adds the marketing-year date columns.
- `functions/arima_models.py` runs three forecasts that differ only in the series and the differencing order:
  - `prepare_for_modelling` splits off the most recent report;
  - each of `imports_model`, `harvest_model` and `yield_model` sorts its series by date and, for imports only, differences it once;
  - it then fits a preliminary ARIMA(1, d, 1) and searches the nine orders (p, d, q) with p, q in 0..2;
  - the search keeps a candidate only when it is strictly better on both AIC and BIC;
  - the chosen model forecasts five steps, which are reintegrated for imports and dated at the next five month ends.

Statistical fitting, numeric parsing and date coercion are oracles passed in as function parameters:
- `fit: (seq<Obs>, Order) -> FitOutcome` gives `FitFailed`, or the AIC, the BIC and the five forecast steps (mean, lower, upper);
- `toNumeric: string -> Option<real>` is `pd.to_numeric`, with `None` for a ValueError;
- `toDatetime: Cell -> Option<CalendarDate>` is `pd.to_datetime(errors='coerce')`, with `None` for NaT.

Everything else is modelled: the control flow, the error points, the constants, the ordering and the date arithmetic.

Files and modules:

- `wrappers.dfy` (`Wrappers`): `Option` and `Result`.
- `calendar.dfy` (`Calendar`): Gregorian dates, leap years, month ends, and `MonthEndsAfter` (what `date_range(start=last, periods=n + 1, freq='M')[1:]` yields: the range starts with the month end of `last`'s own month, and the slice drops it).
- `text.dfy` (`Text`): the Python string operations the cleaning uses. These are `str.strip` with Python's whitespace set, `str.replace(c, '')`, `in` and `str.split(sep)`.
- `frames.dfy` (`Frames`): a column-major table of cells, and a `DataFrame` class whose column list is updated in place. A lookup finds the first column with the name. An assignment replaces that column or appends a new one at the right.
- `clean_data.dfy` (`CleanData`): the five cleaning operations.
- `arima_series.dfy` (`ArimaSeries`): column extraction, the sort by date with NaT last, `diff().dropna()` and `prepare_for_modelling`.
- `arima_selection.dfy` (`ArimaSelection`): the nine-candidate order search, as a fold (`Select`) and as the nested loop (`GridSearch`).
- `arima_forecast.dfy` (`ArimaForecast`): one run of a model function (`RunSpec`, and the method `RunModel`), reintegration and the forecast dates.

Behaviours of the code worth knowing:

- Rows whose date does not parse are not dropped. `errors='coerce'` makes them NaT, and `sort_values` puts them last. A run whose last row is NaT then fails in `date_range` (`NoStartDate`), so a successful run never had a NaT row (`ArimaForecast.RunForecastDates`).
- The sort is not stable: `sort_values` defaults to quicksort. The model fixes one order for tied dates and proves that the sorted dates do not depend on that choice (`ArimaSeries.SortedStampsUnique`).
- The selection is not independent of the visiting order. Improving on both criteria is not a total order, so of two incomparable fits the first one visited wins (`ArimaSelection.SelectionDependsOnOrder`).
- There is no guard against short series. A series with fewer than three observations goes straight to the preliminary fit, and it fails only if the fit does.

## Model

| member | source | states |
|---|---|---|
| CleanData.KeepColumns | functions/clean_data.py:7-8 | the kept columns are exactly the input columns whose name neither contains `Unnamed` nor is empty |
| CleanData.RenameTargetsKept | functions/clean_data.py:10-27 | no new name in the rename map is itself a name that would be dropped |
| CleanData.CleanCols | functions/clean_data.py:5-28 | no contract of its own; `CleanColsSpec` and `CleanColsPreservesOrder` state what it keeps, renames and orders |
| CleanData.CleanColsSpec | functions/clean_data.py:5-28 | rows kept; no output name contains `Unnamed` or is empty; every kept column appears under its mapped name, or its own name if unmapped, with its cells; every output column is such a renamed kept column |
| CleanData.CleanColsPreservesOrder | functions/clean_data.py:7-10 | cleaning distributes over concatenation of the column list, so surviving columns keep their relative order |
| Text.Strip | functions/clean_data.py:52 | the result is a contiguous slice of the input that neither starts nor ends with Python whitespace |
| Text.RemoveAll | functions/clean_data.py:52 | no `*` remains and every other character keeps its number of occurrences |
| Text.RemoveAllAppend | functions/clean_data.py:52 | removal distributes over concatenation, so the remaining characters keep their order; a text without the character is unchanged |
| Text.Split | functions/clean_data.py:69-71 | always at least one part |
| Text.SplitFirstCut | functions/clean_data.py:69-71 | with one part the separator does not occur; otherwise the first part is the text before the separator's leftmost occurrence, and the other parts are the split of the text after that occurrence |
| Text.JoinSplit | functions/clean_data.py:69-71 | joining the parts with the separator gives back the string |
| Text.SplitPartsAvoidSeparator | functions/clean_data.py:69-71 | no part contains the separator |
| Text.SplitAfter | functions/clean_data.py:69-71 | a prefix that cannot start the separator is split off as the first part |
| CleanData.CleanNumeric | functions/clean_data.py:48-56 | no contract of its own; `ConvertedTableSpec` states its effect on every cell |
| CleanData.ConvertedTable | functions/clean_data.py:46-64 | no contract of its own; `ConvertedTableSpec` and `ConvertNumerical` state it |
| CleanData.ConvertedTableSpec | functions/clean_data.py:46-64 | the conversion fails exactly when a column other than `Date` holds a timestamp (the uncaught TypeError); otherwise rows and names are kept, the `Date` column is untouched, every other string cell becomes the number its text parses to once every `*` is removed and it is stripped, or NA when it does not parse, and numbers, integers and NA are unchanged |
| CleanData.ConvertNumerical | functions/clean_data.py:46-64 | the in-place column loop succeeds exactly when the conversion does and then leaves the converted table; when a column's `apply` raises, the columns before it are converted and the rest are untouched; the frame stays rectangular |
| CleanData.MonthFromAbbrev | functions/clean_data.py:73 | a month is returned exactly when the text is one of the twelve abbreviations, ignoring ASCII case, and it is that abbreviation's month |
| CleanData.StrptimeYearMonth | functions/clean_data.py:73 | a parsed date has a year in 1..9999 and day 1 |
| CleanData.StrptimeYearMonthSpec | functions/clean_data.py:73 | parsing gives year y and month m exactly when the text is four digits worth y (not 0), a non-empty run of whitespace and the name of month m in any case, with nothing around them |
| CleanData.ConvertToDate | functions/clean_data.py:68-74 | a label converts only if splitting on " Proj. " yields exactly two parts; the date has day 1 and a year in 1..9999 |
| CleanData.ConvertToDateOfLabel | functions/clean_data.py:68-74 | `"YYYY/xx Proj. Mon"` converts to (YYYY, month of Mon, 1): the year is the text before the first `/` |
| CleanData.AdjustMonth | functions/clean_data.py:77-79 | every result is a month 1..12 |
| CleanData.AdjustMonthBijective | functions/clean_data.py:77-79 | the rotation is a bijection of 1..12 with an explicit inverse; May goes to 1, June to 2, December to 8, January to 9 and April to 12 |
| CleanData.ProjectedDates | functions/clean_data.py:83 | succeeds exactly when every label is a string that converts; the dates agree with the labels row by row |
| CleanData.WithDateColumns | functions/clean_data.py:83-92 | rows kept; the four new columns hold the projected dates, their years, their rotated months and the marketing-year dates; every other column is unchanged |
| CleanData.MarketingColumnRows | functions/clean_data.py:86-92 | in each row, `Marketing_Year_Month` is the date built from that row's `Adjusted_Year` and `Adjusted_Month` with day 1 |
| CleanData.NewDateCols | functions/clean_data.py:81-94 | succeeds exactly when the table has rows and a `Date` column whose labels all convert; without the column or with a label that does not convert the frame is unchanged; with no rows only an empty `projected_dates` is written before the `.dt` accessor fails; on success the frame is the one with the four date columns |
| Frames.Get | functions/arima_models.py:18 | no column is found exactly when no column has the name; a found column is one with that name, with one cell per row |
| Frames.SetColumn | functions/clean_data.py:83-90 | the assigned column reads back; every other name reads as before; names are unchanged when the column existed, otherwise the new name is appended |
| Calendar.MonthEndsAfter | functions/arima_models.py:95 | no contract of its own; `MonthEndsAfterSpec` states it |
| Calendar.MonthEndsAfterSpec | functions/arima_models.py:95 | n dates, each the last day of its month, in the n consecutive months after the given one |
| ArimaSeries.ExtractSeries | functions/arima_models.py:18-20 | a missing date or value column is a KeyError naming it; otherwise one observation per row (the coerced date, the numeric value) or a failure on a non-numeric cell |
| ArimaSeries.StampLeTotalOrder | functions/arima_models.py:22 | the date order with NaT last is a total order |
| ArimaSeries.SortByStamp | functions/arima_models.py:22 | the result is sorted by date, NaT last, and is a permutation of the rows |
| ArimaSeries.SortSortedIsIdentity | functions/arima_models.py:22 | sorting an already sorted series changes nothing |
| ArimaSeries.SortedStampsUnique | functions/arima_models.py:22 | any two sorted permutations of the same rows have the same dates in the same order |
| ArimaSeries.SortedEndsOnLatest | functions/arima_models.py:92 | if a sorted series ends on a date, no row is NaT and no row is later |
| ArimaSeries.Differenced | functions/arima_models.py:28 | no contract of its own; `DiffSeriesOfComplete` states what differencing and `dropna` give |
| ArimaSeries.DropMissing | functions/arima_models.py:31 | only rows with a value remain, each from the input |
| ArimaSeries.DropMissingKeepsValues | functions/arima_models.py:31 | every row with a value is kept, as often as it occurs in the input |
| ArimaSeries.DropMissingAppend | functions/arima_models.py:31 | `dropna` distributes over concatenation, so the surviving rows keep their order |
| ArimaSeries.DiffSeries | functions/arima_models.py:28-31 | no contract of its own; `DiffSeriesOfComplete` and `ArimaForecast.IntegrateUndoesDiff` state it |
| ArimaSeries.DiffSeriesOfComplete | functions/arima_models.py:28-31 | without missing values, the differenced series has n-1 rows, the input's dates from the second on, and `v[i+1] - v[i]` as values |
| ArimaSeries.SplitMostRecent | functions/arima_models.py:11-14 | fails exactly on an empty table; otherwise the first row, and the rest with one row fewer, the same names and every later row in order |
| ArimaSeries.PrepareForModelling | functions/arima_models.py:6-14 | `projected_dates` is coerced in place, and a missing one raises with the frame untouched; then the first row is split off the coerced frame |
| ArimaSelection.CandidatesSpec | functions/arima_models.py:49-50 | nine distinct orders: entry i is (i / 3, d, i % 3), so p is the outer loop; an order is a candidate exactly when it has this d and p, q < 3 |
| ArimaSelection.Improve | functions/arima_models.py:51-63 | no contract of its own; `SelectStep` states each case of one step |
| ArimaSelection.Select | functions/arima_models.py:43-63 | no contract of its own; the lemmas below state what it selects |
| ArimaSelection.SelectNoneIffAllFailed | functions/arima_models.py:43-63 | nothing is selected exactly when every fit failed |
| ArimaSelection.SelectIsAFit | functions/arima_models.py:54-61 | the selected model is one of the successful fits, with its own order, criteria and forecast |
| ArimaSelection.SelectNotDominated | functions/arima_models.py:43-63 | no successful fit has both a strictly lower AIC and a strictly lower BIC than the selected one |
| ArimaSelection.FirstFitIsTaken | functions/arima_models.py:43-61 | the first successful fit becomes the best |
| ArimaSelection.SelectStep | functions/arima_models.py:51-63 | a failed fit is skipped; with no best yet a fit is taken; otherwise a fit replaces the best exactly when it is strictly lower on both criteria, so a tie keeps the earlier one |
| ArimaSelection.SelectionDependsOnOrder | functions/arima_models.py:57 | two incomparable fits give different choices in the two visiting orders |
| ArimaSelection.GridSearch | functions/arima_models.py:43-63 | the nested loop's final best is the fold of the nine attempts in visiting order |
| ArimaForecast.IntegrateFrom | functions/arima_models.py:84 | no contract of its own; `IntegrateIsCumulativeSum` and `IntegrateSteps` state it |
| ArimaForecast.IntegrateIsCumulativeSum | functions/arima_models.py:84 | entry i of the reintegration is the last value plus the sum of the first i+1 steps |
| ArimaForecast.IntegrateSteps | functions/arima_models.py:84 | the first entry is last value plus first step; consecutive entries differ by the step |
| ArimaForecast.IntegrateMonotone | functions/arima_models.py:84-87 | reintegration keeps a pointwise order between two step sequences |
| ArimaForecast.IntegrateUndoesDiff | functions/arima_models.py:81-84 | reintegrating the differences from the first value rebuilds the rest of the series |
| ArimaForecast.DiffTelescopes | functions/arima_models.py:28-31 | the first value plus all the differences is the last value |
| ArimaForecast.Integrated | functions/arima_models.py:81-87 | no contract of its own; `IntegratedSpec` states it |
| ArimaForecast.IntegratedSpec | functions/arima_models.py:81-87 | a NaN last value makes every entry NaN; otherwise entry i is last value plus the first i+1 steps summed |
| ArimaForecast.ForecastFrom | functions/arima_models.py:79-99 | no contract of its own; `ForecastFromSpec` states its columns |
| ArimaForecast.ForecastFromSpec | functions/arima_models.py:81-87 | imports: mean, lower and upper are each reintegrated separately from the last value; harvest and yield: the steps as they are |
| ArimaForecast.ReintegratedBandIsOrdered | functions/arima_models.py:84-87 | if lower <= mean <= upper at every step, the reintegrated band keeps that order |
| ArimaForecast.ForecastDates | functions/arima_models.py:92-95 | no contract of its own; `ForecastDatesSpec` states it |
| ArimaForecast.ForecastDatesSpec | functions/arima_models.py:95 | five month ends, one in each of the five months after the last date's month, strictly increasing and all after it |
| ArimaForecast.Finish | functions/arima_models.py:71-99 | no contract of its own; `FinishDates` states its success case |
| ArimaForecast.FinishDates | functions/arima_models.py:71-99 | after the search, success on a sorted series means it ends on a date, every forecast column has five entries, and the forecast dates are the five month ends after that date, later than every observed date |
| ArimaForecast.RunForecastDates | functions/arima_models.py:92-99 | a successful run on an extracted series has no NaT observation, five entries in every forecast column, and forecast dates that are the month ends after the last observation and later than every observed date |
| ArimaForecast.ForecastUsesUndominatedFit | functions/arima_models.py:43-77 | a successful run on an extracted series forecasts, from its last observation, the five steps of a successful candidate that no candidate beats on both criteria |
| ArimaForecast.ChosenFitSpec | functions/arima_models.py:43-63 | a selected model is a successful candidate order of the grid that no candidate beats on both criteria |
| ArimaForecast.PreliminaryFitGuaranteesAModel | functions/arima_models.py:37-71 | a run on any extracted series never ends with "no model": either the preliminary (1, d, 1) fit fails first, or that order also succeeds in the grid |
| ArimaForecast.RunOnSeries | functions/arima_models.py:22-99 | no contract of its own; `RunForecastDates`, `ForecastUsesUndominatedFit` and `PreliminaryFitGuaranteesAModel` state it |
| ArimaForecast.RunSpec | functions/arima_models.py:16-101 | no contract of its own; `RunModel` computes it and `ArimaSeries.ExtractSeries` states its column errors |
| ArimaForecast.RunModel | functions/arima_models.py:16-101 | the model function returns exactly `RunSpec` of its table, while searching with the nested loop |

## Left out

- ArimaForecast.IntegrateUndoesDiff, ArimaForecast.DiffTelescopes, ArimaForecast.IntegrateSteps, ArimaForecast.IntegrateIsCumulativeSum and ArimaForecast.IntegratedSpec: values, differences (`diff`) and cumulative sums (`cumsum`, `last_value + ...`, the interval sums) are exact reals in the model. In the program they are float64 and hold only up to rounding: for imports [1e16, 1.0] the difference rounds to -1e16, and reintegration gives 0.0, not 1.0. Infinite values (`pd.to_numeric("inf")`, and `inf - inf` giving NaN in `diff`) are not modelled either: a `Number` cell and an observation value are always finite.
- The statsmodels ARIMA fit, `get_forecast` and `conf_int` are floating-point numerics in a foreign library. `fit` stands for them, so the steps' values and the 95% interval width come from outside.
- `warnings.filterwarnings("ignore")` is a process-wide side effect with no effect on results.
- `plot_imports`, `plot_harvest` and `plot_yield` are matplotlib rendering.
- functions/extract_data.py (HTTP, HTML scraping, spreadsheet reads) is not part of this model. Neither is app.py (the Streamlit UI and a CSV read).
- `pd.to_numeric` and `pd.to_datetime(errors='coerce')` are parameters, not parsers.
- Frames.Get: duplicate column names are not modelled anywhere. A lookup reads the first column of that name, where pandas returns all of them as a DataFrame. `CleanData.ConvertNumerical` converts by position, where pandas would hand `clean_numeric` whole columns.
- ArimaSeries.SortByStamp: fixes one order for rows with equal dates, where pandas' quicksort may pick another. The dates are the same either way (`SortedStampsUnique`). The order of the values is not: it is what `fit` receives and, for imports, what is differenced, so the tie order can change the chosen model order, every forecast value, and the imports base value. The run lemmas hold for the model's tie order only.
- ArimaSeries.ExtractSeries: any text or timestamp cell in the value column counts as a failure. In pandas, `diff` on timestamps would give timedeltas that fail later, in the fit.
- ArimaForecast.Finish: the oracle's steps are not forced to number five. A different length is the ValueError of the index assignment (`LengthMismatch`), although `get_forecast(steps=5)` always gives five.
- ArimaSelection.Dominates: the criteria are reals. NaN criteria, which compare false in Python, and an infinite AIC or BIC, which cannot beat the +inf start, are not modelled.
- CleanData.StrptimeYearMonth: digits and month-name case folding are ASCII only. Python's `\d` and `re.IGNORECASE` also accept other Unicode digits and case variants. Month names are those of the C locale.
- CleanData.ProjectedDates: the pandas Timestamp range (years 1677 to 2262) is not modelled. Dates are plain (year, month, day) values without a time of day.
- CleanData.CleanNumeric: pd.NA and NaN are the same `Missing` cell. Numbers, integers and NA are returned unchanged, which is what `pd.to_numeric` does for them, and a timestamp is the TypeError. Other Python objects a cell might hold (lists, booleans) are not modelled.
- `set_index(inplace=True)` and the index reassignments (functions/arima_models.py:25, 98-99) are modelled as values: the observations carry their dates, and the forecast carries its dates. The model function's copy of the two columns never aliases the caller's frame.
