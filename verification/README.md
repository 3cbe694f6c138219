# Student dashboard data pipeline, modelled in Dafny

`app.py` is a Streamlit dashboard for a university's student data. It runs top to bottom each time the page is drawn:

1. It loads a wide CSV file with one row per year and term and one enrollment column per department.
2. It reshapes that file into a long table with one row per year, term and department.
3. It warns about expected columns that are absent.
4. It coerces the integer columns, turning unparsable cells into missing values.
5. It offers sorted option lists for Year, Department and Term, and filters the table by the user's three selections. It stops when no row is left.
6. It computes the enrollment KPI total and the enrollment totals per term behind the pie chart.

This project models that pipeline on values, stage by stage, and proves what each stage promises:

| file | module | stage |
|---|---|---|
| `cells.dfy` | `Cells` | Cell values and the per-cell integer coercion |
| `ordering.dfy` | `Ordering` | Python's string order and `sorted(unique(...))` |
| `reshape.dfy` | `Reshaper` | Melt, label stripping, renaming, the derived `Enrollments` column |
| `schema.dfy` | `Schema` | The missing-column warning |
| `coercion.dfy` | `Coercion` | The coercion loop, as a method |
| `filters.dfy` | `Filters` | Option lists, the filter rule, the filter chain as a method |
| `aggregates.dfy` | `Aggregates` | `sum(min_count=1)`, the per-term groupby sum, the KPI |
| `dashboard.dfy` | `Dashboard` | One run, with its two early stops |

A cell is `Missing`, `Int(i)` or `Text(s)`; a term is `Option<string>`.

pandas' `melt` is department-major: long row `k*R + r` comes from wide row `r` and department `k`, where `R` is the number of wide rows.

The code removes every occurrence of " Enrolled" from a department label, not just a trailing one. `StripLabel` proves the two agree on the four labels the file has.

The order of the per-term totals follows `groupby`'s default: keys sorted and missing keys dropped.

## Model

| member | source | states |
|---|---|---|
| Cells.ParseInt | app.py:73 | Text parses to an integer exactly when it is a decimal literal (optional sign, at least one digit), with the sign its text shows |
| Cells.ParseDecimalText | app.py:73 | Round trip: the decimal text of any integer parses back to that integer |
| Cells.ToInt | app.py:73 | A coerced cell is missing or an integer: integers are kept, missing stays missing, and text becomes an integer exactly when it is a decimal literal, namely the integer it parses to; no cell aborts its row |
| Cells.DigitsValueLeadingZero | app.py:73 | A leading '0' does not change the value of a digit string |
| Cells.ParseLeadingZero | app.py:73 | Unsigned text with a leading zero ("007") parses to the same integer as without it |
| Cells.ParsePlus | app.py:73 | A '+' sign ("+5") does not change the parsed integer |
| Cells.ParseNegative | app.py:73 | A '-' sign negates the parsed integer of the digits after it ("-0" parses to 0). With the round trip and the two lemmas above, this fixes the value of every decimal literal |
| Cells.ToIntOfText | app.py:73 | A text cell holding an integer's decimal text coerces to that integer |
| Cells.ToIntIdempotent | app.py:70-75 | Coercing a cell twice gives the same result as coercing it once |
| Ordering.StrLt | app.py:89-90 | Python's `<` on strings: a string is never below itself, and a proper prefix comes before the longer string |
| Ordering.StrLtIrreflexive | app.py:88-90 | Python's string order: no string is below itself |
| Ordering.StrLtTransitive | app.py:88-90 | Python's string order is transitive |
| Ordering.StrLtConnected | app.py:88-90 | Of two different strings, one is below the other |
| Ordering.StrLtIsStrictTotalOrder | app.py:88-90 | Python's string order is a strict total order, so sorting by it is well defined |
| Ordering.IntLtIsStrictTotalOrder | app.py:88 | Integer `<` is a strict total order |
| Ordering.AscendingIsDistinct | app.py:88-90 | A strictly ascending list has no duplicates |
| Ordering.Insert | app.py:88-90 | Inserting into an ascending list gives an ascending list holding exactly the old elements plus the new one |
| Ordering.SortedDistinct | app.py:88-90 | `sorted(set(xs))`: the same set of values, strictly ascending under any strict total order |
| Reshaper.ValueVarsLabels | app.py:42-48 | The four value columns are "Engineering Enrolled", "Business Enrolled", "Arts Enrolled", "Science Enrolled", in that order |
| Reshaper.RemoveAll | app.py:51 | `str.replace(pat, "")` never lengthens a string |
| Reshaper.RemoveAllAbsent | app.py:51 | A label in which the pattern occurs nowhere is left unchanged |
| Reshaper.RemoveAllSuffix | app.py:51 | Removing a pattern that occurs only as a suffix (at no earlier position) leaves the stem |
| Reshaper.OnlySuffixMatch | app.py:51 | A stem that lacks the pattern's first character (a department name has no space) holds no occurrence of the pattern before the suffix |
| Reshaper.StripLabel | app.py:42-51 | Each of the four column labels strips to its department name |
| Reshaper.ReshapedColumnsSpelled | app.py:42-60 | The reshaped table's columns: the five kept id columns, the two renamed ones, Department, EnrollmentsDept, Enrollments |
| Reshaper.Melt | app.py:42-48 | `melt` yields four rows per wide row (row contents: `Reshaper.MeltAt`) |
| Reshaper.StripDepartments | app.py:51 | Only the Department label changes, and it never grows; its value on the four labels is `Reshaper.StripLabel` |
| Reshaper.Rename | app.py:54-57 | Each renamed column takes its new name, every other column keeps its own, in the same positions |
| Reshaper.AddEnrollments | app.py:60 | The new Enrollments column is a copy of EnrollmentsDept; every other field is kept |
| Reshaper.Reshape | app.py:42-60 | The long table has four rows per wide row, and in each Enrollments equals EnrollmentsDept (row contents: `Reshaper.ReshapeAt`) |
| Reshaper.MeltAt | app.py:42-48 | `melt` yields 4R rows; row k·R+r carries wide row r's id fields, department k's column label and that row's count for department k |
| Reshaper.ReshapeAt | app.py:42-60 | After the reshape, row k·R+r carries wide row r's id fields, the bare department name, and the count in both EnrollmentsDept and Enrollments |
| Reshaper.ReshapeDepartmentNames | app.py:42-60 | Every long row is labelled with one of the four department names, and its Enrollments equals its EnrollmentsDept |
| Schema.Absent | app.py:65 | The expected names not among the columns, and no others |
| Schema.MissingColumns | app.py:63-67 | `sorted(expected - set(columns))`: exactly the expected names that are absent, each once, in ascending order |
| Schema.ReshapedSchemaComplete | app.py:42-67 | After the reshape every expected column is present, so the warning never fires |
| Coercion.CoerceRow | app.py:70-75 | After the loop has handled the columns in `names`: each such column the table has holds only integers or missing values, every other field is kept, and with no column handled the row is unchanged |
| Coercion.CoerceFrame | app.py:70-75 | Coercion keeps the columns, the row count and every other field. In each integer column the table has, every cell becomes `ToInt` of the old cell, so only integers or missing values remain; an integer column the table lacks is left as it was |
| Coercion.CoerceIntColumns | app.py:70-75 | The loop over the three integer columns, each coerced only when present, yields exactly `CoerceFrame` of its input |
| Coercion.CoerceFrameIdempotent | app.py:70-75 | Running the coercion on an already coerced table changes nothing |
| Coercion.CoercedReshapeAt | app.py:42-75 | After reshape and coercion, row k·R+r holds wide row r's coerced Year and Applications, and department k's raw and coerced counts |
| Coercion.CoercedEnrollmentsAt | app.py:42-75 | The coerced Enrollments of long row k·R+r is department k's coerced count in wide row r |
| Coercion.CoercedReshapeKeepsRowCounts | app.py:42-75 | The four coerced long rows of wide row r sum to the sum of that row's coercible department counts |
| Filters.Where | app.py:98-102 | Boolean indexing keeps each value as often as the input has it when the mask holds, and never otherwise; the result is no longer than the input |
| Filters.WhereMonotone | app.py:98-102 | A weaker mask keeps everything a stronger one keeps, in the same order |
| Filters.WhereAll | app.py:96-102 | A mask that holds everywhere keeps the whole table |
| Filters.WhereSame | app.py:96-102 | Masks that agree on the table keep the same rows |
| Filters.WhereFuse | app.py:96-102 | Filtering twice in a row is filtering once by the conjunction |
| Filters.Keep | app.py:96-102 | A row that passes has a Year when years are selected and a Term when terms are selected; with nothing selected every row passes |
| Filters.Filter | app.py:96-102 | A row is kept exactly when it passes every non-empty selection. A missing Year or Term never passes a non-empty selection. Each kept row is kept as often as it occurs |
| Filters.ApplyFilters | app.py:96-102 | The three guarded reassignments of `df_f` yield exactly `Filter` |
| Filters.FilterIsSubsequence | app.py:96-102 | The filtered table is an order-preserving subsequence of the table |
| Filters.FilterNoSelection | app.py:96-102 | With all three selections empty, every row stays, in order |
| Filters.FilterNarrowing | app.py:96-102 | Deselecting values (without emptying a selection) keeps a subsequence of what was kept before |
| Filters.ClearingSelectionWidens | app.py:97-98 | Emptying a selection can add rows, because an empty selection means "no filter" |
| Filters.PresentYears | app.py:88 | The integer years present in the Year column, and no others |
| Filters.PresentTerms | app.py:90 | The terms present in the Term column, and no others |
| Filters.YearOptions | app.py:88 | The present years, strictly ascending, each once |
| Filters.DepartmentOptions | app.py:89 | The department names present, strictly ascending, each once |
| Filters.TermOptions | app.py:90 | The present terms, strictly ascending, each once |
| Filters.DefaultSelection | app.py:92-94 | The default selections are every present year, department and term; the department selection is non-empty exactly when the table has a row |
| Filters.DefaultSelectionKeeps | app.py:88-102 | Under the default selections, a row is shown exactly when its Year is present (or the column has none) and its Term is present (or the column has none) |
| Filters.DefaultSelectionKeepsAll | app.py:88-102 | On a table where every Year and Term is present, the default selections show every row, in order |
| Filters.DefaultSelectionCanEmpty | app.py:88-107 | The default selections can leave no row: one row lacks a Term, the other a Year |
| Aggregates.EnrollmentSum | app.py:115 | The sum that skips missing Enrollments cells. Its properties: additive over concatenation (`EnrollmentSumAppend`), 0 when no cell is present (`NoEnrollmentSumsToZero`), and the value of `sum(min_count=1)` whenever that is defined (`TotalEnrollments`) |
| Aggregates.EnrollmentSumNonNegative | app.py:115 | The sum that skips missing Enrollments cells (`Aggregates.EnrollmentSum`) is never negative when no present count is negative |
| Aggregates.EnrollmentSumAppend | app.py:115 | The skipping sum of a concatenation is the sum of the parts |
| Aggregates.NoEnrollmentSumsToZero | app.py:115 | With no present Enrollments cell the skipping sum is 0 |
| Aggregates.TotalEnrollments | app.py:115 | `sum(min_count=1)` is undefined exactly when no Enrollments cell is present, and otherwise is the sum of the present cells |
| Aggregates.EnrollmentKpiAsWritten | app.py:115 | `int(total or 0)` fails exactly when no Enrollments cell is present, and otherwise shows the sum of the present cells |
| Aggregates.EnrollmentKpi | app.py:115 | The intended KPI is the sum of the present Enrollments cells, and 0 when none is present |
| Aggregates.AllMissingEnrollmentsFailKpi | app.py:115 | A one-row table whose Enrollments is missing makes the code fail where 0 was intended |
| Aggregates.EnrollmentKpiAgrees | app.py:115 | Whenever some Enrollments cell is present, the code and the intended KPI show the same total |
| Aggregates.TermSum | app.py:148 | A term whose Enrollments cells are all missing sums to 0 |
| Aggregates.Groups | app.py:148 | One (term, total) pair per key, in key order, each with that term's sum |
| Aggregates.TermTotals | app.py:148 | One pair per distinct present term, terms strictly ascending, each with the sum of its present Enrollments cells. Rows with a missing Term are in no group |
| Aggregates.SplitKey | app.py:148 | Adding a new key to a key set adds exactly that key's term sum |
| Aggregates.GroupsPartition | app.py:148 | Over distinct keys, the group totals add up to the sum over rows whose term is a key |
| Aggregates.KeysSumCovering | app.py:148 | When the keys cover every present term, the sum over keyed rows is the sum over rows with a term |
| Aggregates.TermTotalsAddUp | app.py:148 | The per-term totals add up to the sum over the rows that have a term: grouping loses only the rows with a missing Term |
| Aggregates.TermedSumAll | app.py:148 | When every row has a term, the sum over termed rows is the whole sum |
| Aggregates.TermTotalsMatchTotal | app.py:115-148 | When every filtered row has a term, the pie chart's totals add up to the KPI total. `sum(min_count=1)` is then defined exactly when some cell is present |
| Aggregates.WideSumByColumns | app.py:42-48 | Summing the wide table row by row equals summing it department column by column |
| Aggregates.BlockSum | app.py:42-75 | A block of long rows built from department k sums to that department column's coerced sum |
| Aggregates.CoercedBlock | app.py:42-75 | The k-th block of the coerced long table sums to department k's coerced column sum |
| Aggregates.SplitSum | app.py:115 | The skipping sum of a table is the sum of its two halves, split at any position |
| Aggregates.FourBlocks | app.py:42-48 | A table of four equal blocks sums to the sum of the blocks |
| Aggregates.ReshapeKeepsGrandTotal | app.py:42-75 | Before filtering, the enrollment total of the coerced long table equals the sum of every department count in the CSV that coerces to an integer |
| Dashboard.Run | app.py:36-148 | A run stops with an error exactly when the load fails. Otherwise: no missing-column warning; the options are the sorted present values; the run stops exactly when the filtered table is empty; else it reports the filtered rows, the KPI as line 115 computes it (failing exactly when no filtered Enrollments cell is present), the intended enrollment total (which the KPI shows whenever it does not fail), and the per-term totals |

## Left out

- The page itself is not modelled: titles, `st.dataframe` previews, the row/column count line and the sidebar widgets. The user's three selections are an input to `Dashboard.Run`.
- The loader `load_data` (the two candidate paths, `read_csv`, the 600-second cache) is not modelled. `Dashboard.Run` takes its result as an `Option`, with `None` for "no file could be read".
- A CSV file that lacks one of the melt's columns is not modelled. There `melt` raises before the schema check, so the model's wide row has all eleven fields.
- The float columns are not modelled: RetentionRate and SatisfactionScore (lines 77-79), their KPI means (113-114) and the two per-year mean charts (125, 137). They are carried through as raw cells and never coerced.
- The plotting calls (matplotlib figures and `st.pyplot`) are not modelled.
- The float fallback of the integer coercion (line 75) is not modelled. It is taken when `astype("Int64")` raises, on a non-integral number or on an integer outside the 64-bit range.
- Cells.ToInt: does not model the 64-bit width of `Int64`. An integer outside [-2^63, 2^63) makes `astype("Int64")` raise and sends the whole column to the line-75 fallback; the model coerces it like any other integer.
- Aggregates.EnrollmentSum: does not model the 64-bit wrap-around of the sums at lines 115 and 148; the model's sums are unbounded and agree with the code while the totals stay within 64 bits.
- Cells.ToInt: the forms of `to_numeric` that are not decimal integer text are not modelled. These are surrounding whitespace, decimal points, exponents, "inf" and "nan". Under the model they become missing.
- The exception flow of the guarded sections is not modelled, apart from the KPI failure that `EnrollmentKpiAsWritten` models. Each guarded section is modelled on the inputs for which it does not raise.
- Aggregates.EnrollmentSum: a `Text` cell contributes 0. On the coerced table no Enrollments cell is text, so this is never used.

## Findings

| source | as written | input that shows it | evidently intended | confidence | as-written member | corrected member |
|---|---|---|---|---|---|---|
| app.py:115 | `int(df_f["Enrollments"].sum(min_count=1) or 0)`: when every Enrollments cell of the filtered rows is missing, the sum is NA; `NA or 0` raises (and, in the float fallback, `int(NaN)` raises), so the whole KPI block shows an error | a filtered table of one row whose Enrollments cell is missing (e.g. an empty "Arts Enrolled" cell, with Department = Arts selected) | the `or 0` fallback: show a total of 0 | high; not executed | Aggregates.EnrollmentKpiAsWritten (counterexample: Aggregates.AllMissingEnrollmentsFailKpi) | Aggregates.EnrollmentKpi |
