# Data analysis engine, chart shaping and CSV reading — a Dafny model

This project models the in-memory core of a browser-based data-analysis dashboard:

- **The analysis engine.** `analyzeData` refuses an empty dataset. Otherwise it dispatches a query to one of four processors:
  - the formula processor: `OP(col) [GROUP BY g]` with column validation;
  - the filter processor: equality, `>`, `<`, `IN` and `BETWEEN` passes, then `ORDER BY`;
  - the keyword-driven natural-language processor;
  - custom code.

  The engine also includes the aggregation primitives: sum, average, max, min, count, their grouped variants, and percentage by group.
- **Chart data shaping.** `processChartData` turns rows into the arrays a chart library draws:
  - pie slices;
  - scatter points;
  - a pivot table with one record per x value and one cell per group, for grouped bar and line charts;
  - `{name, [y]}` records for ungrouped bar and line charts.
- **CSV text to rows.** This is the body of `parseCSV`. It splits the text into lines, takes trimmed headers from the first line, skips blank lines and lines of the wrong width, and turns numeric fields into numbers. It also covers `getSampleData`'s fixed twelve rows.

## How values are represented

- A cell value is a `JsValues.Value`: `Num(int)`, `Str(string)`, or `Missing` for `undefined`.
- A row is a `Row(columns, cells)`. `columns` is the keys in the order they were first assigned, which the natural-language column search walks. `Object.keys` lists integer-like keys first; the model does not (see "Left out"). `cells` is the map.
- `String(v)` is `JsValues.ToStr`. `Number(v)` is `JsValues.JsNumber`, where `None` stands for NaN.
- `Number(v || 0)` and `Number(v) || 0` are `JsValues.Coerce`.
- A numeric result is a `JsValues.Number`, which is one of:
  - an integer;
  - an exact quotient `Div(num, den)`, for averages and percentages;
  - `NegInfinity` or `PosInfinity`, which are what `Math.max()` and `Math.min()` return for an empty list.
- `String.prototype.includes`, `trim` and `split` (with its inverse `Join`) are spelled out in `Strings`. `toLowerCase` is modelled for ASCII letters only (see "Left out").
- An error the engine throws is an `Outcomes.Failure`. `Outcomes.Message` gives the exact text of each error.
- A successful answer is an `Outcomes.Outcome`:
  - `Scalar`;
  - `Groups`, a key-to-number record;
  - `Filtered`, the `{count, data}` result;
  - `Text`, one of the fixed explanatory strings;
  - `Summary`, the `{result, description, formula}` object.

## How the model is organised

The model follows the source's own form:

- **Pure folds** are functions, proved by lemmas. These are `calculateSum` and `calculateAverage`, the formula processor, the natural-language processor and the dispatcher.
- **Code that updates a dictionary or an array step by step** is a method with a loop, proved to compute the function that specifies it. This covers:
  - the reduce accumulators and `groups` dictionaries of the grouped primitives;
  - the filter passes;
  - the in-place sort;
  - the pie buckets;
  - the zero-initialised pivot table and its fill loop;
  - the line and field loops of `parseCSV`.

The modules, in dependency order:

| module | file | what it holds |
|---|---|---|
| **Wrappers** | `wrappers.dfy` | `Option` and `Result` |
| **Strings** | `strings.dfy` | the string operations used |
| **JsValues** | `js_values.dfy` | values, rows and JavaScript's conversions |
| **Outcomes** | `outcomes.dfy` | answers and errors |
| **Aggregates** | `aggregates.dfy` | the `calculate*` primitives |
| **Sorting** | `sorting.dfy` | `Array.prototype.sort` as a stable insertion sort |
| **Formula** | `formula.dfy` | `processFormulaQuery` |
| **Filter** | `filter.dfy` | `processFilterQuery` |
| **Natural** | `natural.dfy` | `processNaturalLanguageQuery` |
| **Analysis** | `analysis.dfy` | `analyzeData` |
| **Charts** | `chart_utils.dfy` | `processChartData` |
| **CsvText** | `csv_text.dfy` | what `parseCSV` computes from the text |
| **DataUtils** | `data_utils.dfy` | `parseCSV`'s loops |
| **SampleFacts** | `sample_facts.dfy` | the sample dataset and facts about it |

## Notes on the code's behaviour

These consequences of the code are easy to miss; the model states each as the code behaves.

- **Multi-column `GROUP BY`.** The code checks each comma-separated column against the first row. It then groups by the whole trimmed text, for example `Region, Month`. No row has a key spelled like that, so every row lands under `"undefined"`. `Formula.WholeGroupText` states this for `COUNT`.
- **`Sales > 60` on the sample data.** This filter keeps six of the twelve sample rows: September's 60 is not greater than 60. `SampleFacts.SalesOverSixtyCount` states the count of six.
- **Non-numeric values.** The code's `Number(row[c] || 0)` gives NaN for a non-numeric string. In `calculateSum`, `calculateAverage`, the grouped average, maximum, minimum and percentage, that NaN spreads into the result. In `calculateSumByGroup` it does not: `(acc[groupValue] || 0)` turns a NaN running sum back into 0 at the group's next row, so that group's sum silently restarts after the last non-numeric cell. The model reads NaN as 0 in all of them (see "Left out").

## Model

| member | source | states |
|---|---|---|
| Strings.TrimStartSpaces | src/utils/dataUtils.ts:23 | the start trim removes exactly a leading run of white space, and the result's first character is not white space |
| Strings.TrimEndSpaces | src/utils/dataUtils.ts:23 | the end trim removes exactly a trailing run of white space, and the result's last character is not white space |
| Strings.TrimUnchanged | src/utils/dataUtils.ts:35 | a string with no white space at either end is its own trim |
| Strings.SplitPieces | src/utils/dataUtils.ts:26 | no piece of `split(sep)` contains the separator |
| Strings.JoinSplit | src/utils/dataUtils.ts:16 | joining the pieces of `split(sep)` with `sep` gives back the text |
| Strings.SplitJoin | src/utils/dataUtils.ts:26 | splitting pieces joined with a separator none of them contains gives back the pieces |
| Strings.SplitNoSeparator | src/utils/dataUtils.ts:16 | a text without the separator splits into itself alone |
| Strings.ContainsAt | src/utils/analysisUtils.ts:50 | `includes` finds a substring wherever it occurs |
| Strings.OccurrenceOf | src/utils/analysisUtils.ts:50 | when `includes` holds, the substring occurs at the returned position |
| Strings.DigitsOfNat | src/utils/dataUtils.ts:38-39 | a natural number prints as decimal digits whose value is that number |
| Strings.NumberOfString | src/utils/dataUtils.ts:38-39 | `Number(String(i))` is `i` for every integer |
| Strings.StrLessAsymmetric | src/utils/analysisUtils.ts:355-356 | the string order standing for `localeCompare` never puts `a` both before and after `b` |
| Strings.StrLessTotal | src/utils/analysisUtils.ts:355-356 | any two different strings are ordered one way or the other |
| Strings.StrLessTransitive | src/utils/analysisUtils.ts:355-356 | the string order is transitive |
| JsValues.Assign | src/utils/dataUtils.ts:42 | `row[k] = v` sets the cell and appends `k` to the key order only when it is new |
| JsValues.AssignWellFormed | src/utils/dataUtils.ts:42 | assigning keeps the key order and the cells in step, with each key listed once |
| Aggregates.ColumnAt | src/utils/analysisUtils.ts:394 | entry `i` of `data.map(row => Number(row[c] \|\| 0))` is row `i`'s coerced value |
| Aggregates.MaxOf | src/utils/analysisUtils.ts:394 | `Math.max` of a list is an element at least as large as every element; of no elements it is `-Infinity` |
| Aggregates.MinOf | src/utils/analysisUtils.ts:398 | `Math.min` of a list is an element at most as large as every element; of no elements it is `Infinity` |
| Aggregates.AverageBetweenMinAndMax | src/utils/analysisUtils.ts:384-399 | on non-empty data the average is the sum over the count, and it lies between the minimum and the maximum |
| Aggregates.SumBounded | src/utils/analysisUtils.ts:389-391 | a sum of `n` values each between `lo` and `hi` lies between `n·lo` and `n·hi` |
| Aggregates.MembersMeaning | src/utils/analysisUtils.ts:405-406 | the members of group `k` are exactly the rows whose `String(row[g])` is `k` |
| Aggregates.GroupKeysMeaning | src/utils/analysisUtils.ts:416 | the keys in insertion order are exactly the keys some row has |
| Aggregates.GroupKeysDistinct | src/utils/analysisUtils.ts:416 | each key is listed once |
| Aggregates.GroupFoldsOverMembers | src/utils/analysisUtils.ts:405-412 | the running count and sum of a group are the number and the sum of its members |
| Aggregates.GroupFoldsAbsent | src/utils/analysisUtils.ts:405-412 | a key no row has gets count 0, sum 0 and no members |
| Aggregates.GroupCountPositive | src/utils/analysisUtils.ts:407-411 | a key some row has is counted at least once |
| Aggregates.GroupCountsAt | src/utils/analysisUtils.ts:473-479 | calculateCountByGroup has an entry for `k` exactly when some row has key `k`, holding that group's count |
| Aggregates.GroupSumsAt | src/utils/analysisUtils.ts:423-429 | calculateSumByGroup has an entry for `k` exactly when some row has key `k`, holding that group's sum |
| Aggregates.GroupTalliesAt | src/utils/analysisUtils.ts:402-412 | the `{sum, count}` dictionary has an entry exactly for the occurring keys, holding the group's sum and count |
| Aggregates.GroupValuesAt | src/utils/analysisUtils.ts:432-441 | the per-group value lists hold, for each occurring key, its members' values in row order |
| Aggregates.GroupCountsMeaning | src/utils/analysisUtils.ts:473-479 | the grouped count's key set is the set of `String(row[g])`, and each value is the group's size, at least 1 |
| Aggregates.GroupSumsMeaning | src/utils/analysisUtils.ts:423-429 | the grouped sum's key set is the set of occurring keys, and each value is calculateSum over that group |
| Aggregates.GroupAveragesMeaning | src/utils/analysisUtils.ts:401-421 | every averaged group has count at least 1, and its value is the group's sum over its count |
| Aggregates.ColumnMax | src/utils/analysisUtils.ts:394 | the maximum of a non-empty group's values is at least every member's value and is some member's value |
| Aggregates.ColumnMin | src/utils/analysisUtils.ts:398 | the minimum of a non-empty group's values is at most every member's value and is some member's value |
| Aggregates.GroupListAt | src/utils/analysisUtils.ts:432-441 | a collected list belongs to a non-empty group and holds its members' values |
| Aggregates.GroupMaximaMeaning | src/utils/analysisUtils.ts:431-450 | calculateMaxByGroup has one entry per occurring key, at least every member's value and attained by a member |
| Aggregates.GroupMinimaMeaning | src/utils/analysisUtils.ts:452-471 | calculateMinByGroup has one entry per occurring key, at most every member's value and attained by a member |
| Aggregates.GroupCountsTotal | src/utils/analysisUtils.ts:473-479 | calculateCountByGroup's values add up to the number of rows |
| Aggregates.GroupSumsTotal | src/utils/analysisUtils.ts:423-429 | calculateSumByGroup's values add up to calculateSum over all rows |
| Aggregates.GroupCountsKeys | src/utils/analysisUtils.ts:473-479 | the grouped count has an entry for exactly the keys listed in insertion order |
| Aggregates.GroupSumsKeys | src/utils/analysisUtils.ts:423-429 | the grouped sum has an entry for exactly the keys listed in insertion order |
| Aggregates.UndefinedGroup | src/utils/analysisUtils.ts:473-479 | when no row has the group column, every row counts under `"undefined"` |
| Aggregates.PercentEntries | src/utils/analysisUtils.ts:481-488 | each group's percentage pairs its group sum with the overall total, as `100·sum / total` |
| Aggregates.PercentagesAddUpTo100 | src/utils/analysisUtils.ts:481-491 | when the overall sum is not 0, every percentage is a finite quotient and they add up to exactly 100 |
| Aggregates.CalculateCountByGroup | src/utils/analysisUtils.ts:473-479 | the reduce over the rows builds the grouped count |
| Aggregates.CalculateSumByGroup | src/utils/analysisUtils.ts:423-429 | the reduce over the rows builds the grouped sum |
| Aggregates.TallyGroups | src/utils/analysisUtils.ts:402-412 | the first pass of calculateAverageByGroup builds the `{sum, count}` dictionary |
| Aggregates.QuotientsOf | src/utils/analysisUtils.ts:415-418 | the second pass gives every entry its sum over its count |
| Aggregates.CalculateAverageByGroup | src/utils/analysisUtils.ts:401-421 | the two passes compute the grouped averages |
| Aggregates.CollectGroupValues | src/utils/analysisUtils.ts:432-441 | pushing each row's value onto its group's list builds the per-group lists |
| Aggregates.MaximaOf | src/utils/analysisUtils.ts:444-447 | every list is replaced by its `Math.max` |
| Aggregates.CalculateMaxByGroup | src/utils/analysisUtils.ts:431-450 | the two passes compute the grouped maxima |
| Aggregates.MinimaOf | src/utils/analysisUtils.ts:465-468 | every list is replaced by its `Math.min` |
| Aggregates.CalculateMinByGroup | src/utils/analysisUtils.ts:452-471 | the two passes compute the grouped minima |
| Aggregates.SharesOf | src/utils/analysisUtils.ts:485-488 | every group sum becomes its share of the total times 100 |
| Aggregates.CalculatePercentageByGroup | src/utils/analysisUtils.ts:481-491 | the overall sum, the grouped sums and the shares compute the grouped percentages |
| Sorting.InsertPermutes | src/utils/analysisUtils.ts:346-358 | inserting one element adds exactly that element |
| Sorting.SortPermutes | src/utils/analysisUtils.ts:346-358 | the sort returns a permutation of its input |
| Sorting.InsertSorted | src/utils/analysisUtils.ts:346-358 | inserting into sorted elements keeps them sorted when the comparator is antisymmetric on them |
| Sorting.SortSorted | src/utils/analysisUtils.ts:346-358 | with a comparator antisymmetric on the elements, the result is sorted |
| Sorting.InsertPosition | src/utils/analysisUtils.ts:346-358 | the inserted element lands where the shifting stops |
| Sorting.ShiftUp | src/utils/analysisUtils.ts:346 | the shifting loop moves every element that compares above the new one one place right, and nothing else |
| Sorting.InsertAt | src/utils/analysisUtils.ts:346 | one step of the in-place sort inserts `a[i]` into the sorted prefix and leaves the rest alone |
| Sorting.InsertionSort | src/utils/analysisUtils.ts:346-358 | the in-place sort leaves the array holding the sorted contents |
| Formula.ParseOp | src/utils/analysisUtils.ts:221 | an operation is recognised exactly when the query opens with its name, in any letter case |
| Formula.SpaceRun | src/utils/analysisUtils.ts:221 | `\s+` matches a maximal run of white space |
| Formula.IndexOf | src/utils/analysisUtils.ts:221 | `[^)]+` ends at the first `)`; there is none exactly when the text has no `)` |
| Formula.GroupName | src/utils/analysisUtils.ts:221 | the `(.+)` group is a non-empty text with no line terminator |
| Formula.ParseGroupTail | src/utils/analysisUtils.ts:221 | a `GROUP BY` tail yields a non-empty group text with no line terminator |
| Formula.ParseArgument | src/utils/analysisUtils.ts:221 | the argument is non-empty and has no `)` |
| Formula.ParseFormula | src/utils/analysisUtils.ts:221-228 | a match opens with the operation name, has a non-empty argument without `)`, and has a non-empty one-line group text when present |
| Formula.ParseOpOfName | src/utils/analysisUtils.ts:221 | a text that opens with an operation's name reads as that operation |
| Formula.ArgumentOfRender | src/utils/analysisUtils.ts:221 | `(c)` followed by any text reads back as `c` |
| Formula.GroupTailOfRender | src/utils/analysisUtils.ts:221 | ` GROUP BY g` reads back as `g` |
| Formula.ParseRender | src/utils/analysisUtils.ts:221-228 | every formula written out in canonical form parses back to itself |
| Formula.FirstAbsent | src/utils/analysisUtils.ts:242-247 | the check finds no missing group column exactly when every listed column is a key, and otherwise names one that is missing |
| Formula.TrimAll | src/utils/analysisUtils.ts:242 | `map(g => g.trim())` trims each piece in place |
| Formula.InvalidFormatExactly | src/utils/analysisUtils.ts:221-226 | the formula fails with "Invalid formula format" exactly when the pattern does not match |
| Formula.StarOnlyWithCount | src/utils/analysisUtils.ts:231-233 | a `*` argument fails with the COUNT-only error exactly when the operation is not COUNT |
| Formula.ColumnValidated | src/utils/analysisUtils.ts:231-238 | a successful formula uses `*` only with COUNT and otherwise names a key of the first row |
| Formula.GroupColumnsValidated | src/utils/analysisUtils.ts:241-248 | a successful grouped formula's comma-separated group columns are all keys of the first row |
| Formula.UnknownColumnReported | src/utils/analysisUtils.ts:236-238 | a column missing from the first row fails with the error naming that column |
| Formula.EvaluatedAfterValidation | src/utils/analysisUtils.ts:250-273 | a successful formula's value is the operation's primitive applied to the trimmed column and the trimmed group text |
| Formula.WholeGroupText | src/utils/analysisUtils.ts:241-261 | a grouped COUNT whose trimmed group text no row has as a key counts every row under `"undefined"` |
| Formula.ParseCountStar | src/utils/analysisUtils.ts:221 | `COUNT(*)` parses as COUNT of `*` with no group |
| Formula.CountStarIsLength | src/utils/analysisUtils.ts:259-262 | `COUNT(*)` returns the number of rows, on any data |
| Formula.GroupedFormula | src/utils/analysisUtils.ts:250-270 | a well-formed grouped formula over existing columns evaluates with its primitive |
| Formula.PlainFormula | src/utils/analysisUtils.ts:250-270 | a well-formed ungrouped formula over an existing column evaluates with its primitive |
| Filter.KeepMeaning | src/utils/analysisUtils.ts:286-338 | a row survives the filters exactly when it is an input row satisfying every clause |
| Filter.KeepIsSubsequence | src/utils/analysisUtils.ts:280-338 | filtering keeps a subsequence of the input in its original order, so never more rows |
| Filter.KeepCounts | src/utils/analysisUtils.ts:286-338 | each satisfying row survives the filters as often as it occurs in the input, and no other row survives |
| Filter.KeepThen | src/utils/analysisUtils.ts:288-292 | filtering by one list of clauses and then another is filtering by both |
| Filter.KeepSameDemands | src/utils/analysisUtils.ts:286-338 | only the set of filtering clauses matters, not their order or repetition |
| Filter.OfPass | src/utils/analysisUtils.ts:286-338 | a pass takes exactly the clauses of its kind |
| Filter.RunPass | src/utils/analysisUtils.ts:288-292 | one `forEach` pass of `filteredData = filteredData.filter(...)` keeps the rows satisfying that pass's clauses |
| Filter.KeepNothing | src/utils/analysisUtils.ts:280 | with no clauses the copy is the input |
| Filter.FirstOrderBy | src/utils/analysisUtils.ts:341 | the ORDER BY used is one of the clauses, and there is none only when no clause is an ORDER BY |
| Filter.CompareFlip | src/utils/analysisUtils.ts:346-358 | on keys of the same kind, swapping the rows flips the comparator's sign |
| Filter.UniformAntisymmetric | src/utils/analysisUtils.ts:346-358 | when all keys are numbers or all are not, the comparator is antisymmetric |
| Filter.SortedNumbers | src/utils/analysisUtils.ts:346-350 | sorted numeric keys ascend, or descend with DESC |
| Filter.FilterOutcome | src/utils/analysisUtils.ts:361-364 | `count` is the number of returned rows |
| Filter.ProcessFilterQuery | src/utils/analysisUtils.ts:279-365 | the passes run in order on a copy, then the first ORDER BY sorts it |
| Filter.UnorderedFilter | src/utils/analysisUtils.ts:280-338 | without ORDER BY the result is a subsequence of the input holding every satisfying row as often as the input does, and no other row |
| Filter.OrderedFilter | src/utils/analysisUtils.ts:341-358 | with ORDER BY the result holds every satisfying row as often as the input does and no other, and is sorted by the key when its values are of one kind |
| Filter.FilteredRowsSatisfy | src/utils/analysisUtils.ts:291-336 | every returned row is an input row satisfying every clause |
| Natural.MentionsAnyMeaning | src/utils/analysisUtils.ts:49 | a keyword family is mentioned exactly when one of its words occurs in the query |
| Natural.IntentOf | src/utils/analysisUtils.ts:49-214 | the family chosen is mentioned, and no family tried before it is |
| Natural.ColumnIndex | src/utils/analysisUtils.ts:50 | `columns.find` returns the first column whose lower-cased name occurs in the query |
| Natural.FindColumn | src/utils/analysisUtils.ts:50-54 | the column found is one of the columns, non-empty and named in the query; none is found exactly when every matching column comes at or after an empty-named one, which `!columnMatch` rejects |
| Natural.CuedIndex | src/utils/analysisUtils.ts:58-62 | the group column is the first one named after a grouping cue |
| Natural.FindGroup | src/utils/analysisUtils.ts:57-64 | a group column is found only when the query has a grouping cue; it is one of the columns, non-empty and cued; with a cue and none found, every cued column comes at or after an empty-named one |
| Natural.MissingColumnAnswersText | src/utils/analysisUtils.ts:50-54 | an aggregate family answers with its message, not an error, when no column is named or the first matching column has the empty name |
| Natural.CountAlwaysAnswers | src/utils/analysisUtils.ts:167-188 | the count family always answers: grouped counts, or the row count with formula `COUNT(*)` |
| Natural.PercentageNeedsGroup | src/utils/analysisUtils.ts:191-214 | a percentage query without a grouping cue falls through to a string |
| Natural.NoKeywordNotUnderstood | src/utils/analysisUtils.ts:213-214 | a query with no keyword gets the "couldn't understand" string |
| Natural.SummaryFormulaAgrees | src/utils/analysisUtils.ts:70-74 | a summary's result is what the formula it reports computes |
| Natural.GroupedAnswerAgreesWithFormula | src/utils/analysisUtils.ts:64-65 | a grouped aggregate answer is what `OP(col) GROUP BY g` computes |
| Natural.GroupedCountAgreesWithFormula | src/utils/analysisUtils.ts:177-178 | a grouped count answer is what `COUNT(*) GROUP BY g` computes |
| Analysis.AnalyzeData | src/utils/analysisUtils.ts:13-39 | empty data fails with "No data", and an unknown mode fails naming it; custom code fails exactly when it throws |
| Analysis.FormulaFailures | src/utils/analysisUtils.ts:220-273 | the formula processor fails only for its own four reasons |
| Analysis.FormulaPassesThrough | src/utils/analysisUtils.ts:26-27 | on non-empty data the formula mode's outcome, error included, is the processor's |
| Analysis.NaturalAndFiltersSucceed | src/utils/analysisUtils.ts:24-29 | on non-empty data the natural and filter modes raise none of the engine's errors and pass their answers through |
| Charts.SlicesOfAt | src/utils/chartUtils.ts:28-31 | slice `i` is `{name: key i, value: its sum}` |
| Charts.PieOf | src/utils/chartUtils.ts:15-31 | there is one slice per distinct key |
| Charts.PieSlices | src/utils/chartUtils.ts:15-31 | the reduce and the `map` over the entries build the pie |
| Charts.Bucket | src/utils/chartUtils.ts:15-25 | the pie reduce builds the per-key sums in key insertion order |
| Charts.PieNames | src/utils/chartUtils.ts:15-31 | the slice names are exactly the distinct `String(row[x])`, each once |
| Charts.PieValues | src/utils/chartUtils.ts:15-25 | each slice's value is the sum of `Number(row[y]) \|\| 0` over its bucket |
| Charts.PieTotal | src/utils/chartUtils.ts:15-31 | the slice values total the y column's sum |
| Charts.ScatterPoints | src/utils/chartUtils.ts:36-48 | the scatter output has one point per row in order, with coerced `x` and `y`, and a `category` exactly when the group is set and the row has it defined |
| Charts.Pivot | src/utils/chartUtils.ts:84-87 | there is one record per distinct x value |
| Charts.DistinctKeys | src/utils/chartUtils.ts:54-57 | `Array.from(new Set(...))` lists each key once, in first-appearance order |
| Charts.ZeroCells | src/utils/chartUtils.ts:67-69 | a record starts with every group at 0 |
| Charts.ZeroTable | src/utils/chartUtils.ts:63-70 | every x value gets a record with every group at 0 |
| Charts.FillStep | src/utils/chartUtils.ts:73-81 | one row adds its y to its own cell, unless its group stringifies to `""` |
| Charts.FillTable | src/utils/chartUtils.ts:73-81 | the fill loop leaves each cell holding the sum over its rows |
| Charts.TableCells | src/utils/chartUtils.ts:73-81 | a filled record's cells are the per-group sums for its x value |
| Charts.GroupedSeries | src/utils/chartUtils.ts:52-87 | the grouped branch builds the pivot |
| Charts.RecordCells | src/utils/chartUtils.ts:84-87 | `{name, ...values}` carries the name and every group's cell |
| Charts.PivotShape | src/utils/chartUtils.ts:54-87 | every pivot record is well formed and carries every group key, and its name is its x value |
| Charts.PivotCells | src/utils/chartUtils.ts:73-81 | each cell is the sum of y over the rows with that x and that group, and 0 for the group `""` |
| Charts.EmptyGroupCell | src/utils/chartUtils.ts:78 | rows whose group stringifies to `""` add nothing |
| Charts.GroupColumnTotal | src/utils/chartUtils.ts:73-81 | a named group's cells over all x values add up to that group's y sum |
| Charts.PlainRecords | src/utils/chartUtils.ts:90-95 | the ungrouped branch maps each row, in order, to `{name: String(row[x]), [y]: Number(row[y]) \|\| 0}` |
| Charts.ChartSpec | src/utils/chartUtils.ts:5-10 | the result is empty exactly when the data is empty or an axis is unset |
| Charts.ProcessChartData | src/utils/chartUtils.ts:5-96 | `processChartData` picks the branch for the chart type |
| CsvText.CellOf | src/utils/dataUtils.ts:35-40 | a field becomes a number exactly when it is non-empty and numeric, and otherwise stays the trimmed text |
| CsvText.CellsAt | src/utils/dataUtils.ts:35 | value `j` comes from trimmed field `j` |
| CsvText.DataRowsSnoc | src/utils/dataUtils.ts:22-46 | each line adds its row or nothing, after the rows of the lines before it |
| CsvText.DataRowsAppend | src/utils/dataUtils.ts:22-46 | rows keep the line order |
| CsvText.CsvRowsBound | src/utils/dataUtils.ts:22 | there are at most as many rows as lines after the first |
| CsvText.SkippedLine | src/utils/dataUtils.ts:23-30 | a blank line, or one of the wrong width, adds no row and changes nothing else |
| CsvText.BlankLine | src/utils/dataUtils.ts:23-24 | a line of white space alone is skipped |
| CsvText.RecordKeys | src/utils/dataUtils.ts:32-43 | a record is well formed and keyed by the headers |
| CsvText.RecordCell | src/utils/dataUtils.ts:42 | header `j` maps to value `j` unless a later header of the same name overwrote it |
| CsvText.RecordColumns | src/utils/dataUtils.ts:42 | with distinct headers the key order is the header order |
| CsvText.LineRowKeys | src/utils/dataUtils.ts:32-45 | every emitted row is keyed by exactly the headers |
| CsvText.DataRowsKeys | src/utils/dataUtils.ts:22-46 | every row of the file is keyed by exactly the headers |
| CsvText.CsvRowsKeys | src/utils/dataUtils.ts:16-46 | every parsed row is keyed by the trimmed headers of the first line |
| CsvText.LineOfFields | src/utils/dataUtils.ts:26-45 | a line of plain fields, as many as the headers, reads as the record of those fields |
| CsvText.TableRows | src/utils/dataUtils.ts:22-46 | lines written from a table of plain fields read back as the table's records |
| CsvText.HeaderLine | src/utils/dataUtils.ts:17 | a header line written from plain names reads back as those names |
| CsvText.WrittenLines | src/utils/dataUtils.ts:16 | written lines split back into themselves |
| CsvText.ParseWrittenTable | src/utils/dataUtils.ts:15-48 | a CSV text written from plain headers and fields parses back to the table's records |
| CsvText.NumericField | src/utils/dataUtils.ts:38-39 | a printed integer field becomes that number |
| DataUtils.ParseCsv | src/utils/dataUtils.ts:15-48 | `parseCSV` on a text returns the rows its lines describe |
| DataUtils.ReadLines | src/utils/dataUtils.ts:22-46 | the line loop collects the rows of the lines after the first |
| DataUtils.ReadLine | src/utils/dataUtils.ts:23-45 | one pass of the loop skips a blank or malformed line and otherwise gives its record |
| DataUtils.ReadRecord | src/utils/dataUtils.ts:32-43 | the field loop builds the record of the trimmed values |
| SampleFacts.SampleRows | src/utils/dataUtils.ts:81-94 | the sample has twelve rows |
| SampleFacts.SampleShape | src/utils/dataUtils.ts:81-94 | every sample row has the keys Month, Sales, Expenses, Profit and Region, in that order |
| SampleFacts.RegionCounts | src/utils/dataUtils.ts:82-93 | there are exactly three rows for each of North, East, West and South |
| SampleFacts.CountByRegion | src/utils/dataUtils.ts:82-93 | `COUNT(*) GROUP BY Region` on the sample gives three per region |
| SampleFacts.NorthSales | src/utils/dataUtils.ts:82-84 | North's sales add up to 204 |
| SampleFacts.NorthAverage | src/utils/dataUtils.ts:82-84 | North's average sales are 204 / 3, which is 68 |
| SampleFacts.KeptOverSixty | src/utils/dataUtils.ts:82-93 | six sample rows have sales over 60 |
| SampleFacts.SalesOverSixtyCount | src/utils/dataUtils.ts:82-93 | the filter `Sales > 60 ORDER BY Sales DESC` reports a count of six |
| SampleFacts.SalesOverSixtyRows | src/utils/dataUtils.ts:82-93 | every row that filter returns has sales over 60 |
| SampleFacts.SalesOverSixtySorted | src/utils/dataUtils.ts:82-93 | that filter's rows come in descending order of sales |

## Left out

- **`processCustomCode`.** It evaluates arbitrary host code with `new Function`. The dispatcher receives its outcome as a parameter, where `None` means the code threw.
- **The regular expressions of the filter processor.** This covers global matching, captures, splitting and quote stripping. `processFilterQuery` receives the clauses its patterns found, already read. Quirks such as a bare equality value swallowing the rest of the query are not modelled.
- **The formula pattern.** It is written as a hand-made reader of the same shape: a case-insensitive operation name, `(`, text up to the first `)`, then an optional white-space `GROUP BY` white-space tail, and nothing else.
- **Floating point.** Values are integers, and averages and percentages are exact quotients. NaN and the infinities appear only as `Div` with denominator 0 and as `NegInfinity` / `PosInfinity`.
- **Numeric text.** `Number()` is modelled only for optionally signed decimal integers and for blank text. Decimals, exponents, hexadecimal and `Infinity` read as NaN.
- JsValues.Coerce: `Number(row[c] || 0)` on a non-numeric string is NaN in the source, and it poisons the sum, the average, the grouped averages, maxima, minima and percentages. The model reads it as 0. For the chart code's `Number(row[y]) || 0` this is exact.
- Aggregates.CalculateSumByGroup: in the source `(acc[groupValue] || 0)` resets a NaN running sum to 0, so a group's sum counts only the rows after its last non-numeric cell (Sales 5, "abc", 3 give 3); the model, reading NaN as 0, gives the sum of all its numeric cells (8). This also holds for `Aggregates.GroupSums`, `SUM(c) GROUP BY g` and the natural-language sum-by-group answer.
- **`localeCompare`.** It is modelled as code-point lexicographic order (a Dafny `char` is a Unicode scalar value, so this differs from UTF-16 code-unit order above U+FFFF). The locale's collation is not modelled.
- **`Object.entries` and `Object.keys` order.** JavaScript lists integer-like keys first, in ascending order, and then the other keys in insertion order. The model lists every key in insertion order, for the grouped dictionaries, for `Row.columns` and so for the natural-language column search (with headers `Region,2023`, "sum 2023 by region" finds `2023` first in the source, `Region` in the model).
- JsValues.Assign: appends every new key to `columns`, including integer-like ones that `Object.keys` would list first.
- CsvText.RecordColumns: the key order is the header order, which is `Object.keys`' order only when no header is integer-like.
- Natural.ColumnIndex: lower-casing is ASCII-only; `toLowerCase` also folds other letters (a column "Café" is found by "AVERAGE CAFÉ" in the source and not in the model).
- Natural.CuedIndex: lower-casing is ASCII-only, as for `ColumnIndex`, so a cued non-ASCII column name can be missed.
- Analysis.NaturalAndFiltersSucceed: `Math.max(...)` and `Math.min(...)` spread the whole column into one call, and the host throws a RangeError past its argument limit, which `analyzeData` rethrows; that limit is not modelled, so on very large data the source can fail where the model answers.
- **Inherited properties.** Prototype keys such as `toString`, which `in` and `groups[key]` would find on a plain object, are not modelled.
- **`Array.prototype.sort`.** It is modelled as a stable insertion sort. The engine's own algorithm is not modelled.
- Filter.OrderedFilter: the result is proved sorted only when the key values are all numbers or all not numbers. With mixed kinds, the source's comparator tests only the left operand and is not a consistent order. For that case only the permutation is stated.
- Formula.FirstAbsent: states that the reported column is missing, but not that it is the first missing one in the list.
- Aggregates.PercentagesAddUpTo100: states that the percentages add up to 100 only when the overall sum is not 0. With a zero total the source produces NaN or infinities.
- Charts.ChartSpec: the empty result is `Records([])` for every chart type. The source returns the same untyped empty array.
- **I/O and timing.** This covers the FileReader and Promise plumbing of `parseCSV`, `parseExcel` (which always rejects), the one-second delay of `getSampleData`, toasts, `console.warn` / `console.error`, and the `async` wrapper of `analyzeData`.
