# Ayvo comparison dashboards in Dafny

This project models the browser-side core of the Ayvo model-comparison
pages. Both classes read one workbook, the model comparison report. Each
sheet of it is a list of rows, and each row is an ordered list of column
headers with their cells.

- `ExcelChartsManager` (`view/js/charts.js`) turns the sheets into chart
  data. It builds:
  - an overall bar chart from the first OVERALL row;
  - a line chart per metric over the rows that are not OVERALL rows;
  - a radar chart with one five-score polygon per model that has an
    OVERALL category row.
- `ExcelComparisonDashboard` (`view/js/compare.js`) shows one sheet as a
  table. It:
  - prettifies the column headers;
  - flags the OVERALL rows;
  - styles the first column as a model or category name;
  - colours each score by its band (8.5 and 6.5 are the edges);
  - prints each score with two decimals.

The JavaScript semantics these pages rely on are written out concretely,
not assumed:
- `String(v)`, `parseFloat`, `|| 0`, `===` and `toFixed(2)` on exact reals;
- `toUpperCase`, `includes` and `trim`;
- JavaScript white space.

A number cell holds its shortest decimal form, so `String` of it is
defined and `parseFloat` reads it back to its own value
(`JsNumber.ParseNumberText`).

Files, one module each:
- `js_text.dfy` (`JsText`): characters, case mapping, `includes`, `trim`.
- `js_number.dfy` (`JsNumber`): decimal values, `parseFloat`,
  `Number.prototype.toString` and `toFixed(2)`.
- `js_values.dfy` (`JsValues`): cell values, `String`, truthiness and
  `||`, `===`, `parseFloat(v) || 0`, and the OVERALL test on one cell.
- `sheets.dfy` (`Sheets`): rows, `row[key]`, `Object.keys` and
  `Object.values`, the OVERALL row test, and the `forEach` that loads the
  sheets.
- `charts.dfy` (`Charts`): the three chart views, the `displayChart`
  switch and the `ExcelChartsManager` class.
- `compare.dfy` (`Compare`): cell classes, formatting, column names, the
  table and the `ExcelComparisonDashboard` class.

Pure code is written as functions with lemmas. The state the two classes
update in place is written as imperative Dafny:
- the `data`, `currentChart`/`currentSheet`, chart, header and table-body
  fields;
- the sheet-loading loops;
- the nested loops of `createTableBody`.

Each method is proved against a function that specifies it.

Behaviour of the code that the model keeps:
- Key lookup tries fixed spellings, never a case-insensitive match:
  - the radar chart reads the camelCase key, then the Title Case one
    (`row.faithfulness || row.Faithfulness`), so an empty or 0 camelCase
    cell falls through to the Title Case cell;
  - the category and model fields are `Category || category` and
    `Model || model`.
- A cell counts as a score when `parseFloat` of it is finite and within
  0..10. `parseFloat` reads a number from the front of the text and
  ignores what follows, so `parseFloat("7abc")` is 7 and "7abc" is a score.
- The chart page can throw:
  - a metric sheet with no rows makes `createMetricChart` read
    `metricData[0]` of an empty array (modelled as `Threw`);
  - a Model Comparison row whose category is not a string makes
    `toUpperCase` throw (also `Threw`).
- When the workbook fails to load on a fresh comparison page, `init`
  still displays the Model Comparison sheet. The load error is then
  replaced by "Sheet not found: Model Comparison"
  (`Compare.FailedLoadShowsMissingSheet`).

## Model

| member | source | states |
|---|---|---|
| JsText.ToUpper | view/js/charts.js:107 | `toUpperCase` keeps the length, leaves no lower-case letter, keeps every character that is not one, and gives the same text as the input once both are lower-cased |
| JsText.UpperForgetsCase | view/js/charts.js:107 | upper-casing is idempotent and forgets whether the text was lower-cased first |
| JsText.Trim | view/js/compare.js:145 | `trim` leaves neither leading nor trailing white space, keeps only characters of the input and is no longer than it |
| JsText.TrimRemovesOnlyWhitespace | view/js/compare.js:145 | what `trim` keeps is one contiguous piece of the input with only white space around it |
| JsText.TrimExact | view/js/compare.js:145 | a text whose white space is exactly its first `i` characters trims to the rest |
| JsNumber.ParseNumberText | view/js/compare.js:157 | `parseFloat(String(n))` reads back exactly the value of the number `n` |
| JsNumber.FixedTwoShape | view/js/compare.js:150-151 | `toFixed(2)` of a score is digits, a point and exactly two digits |
| JsNumber.FixedTwoRoundTrip | view/js/compare.js:150-151 | `toFixed(2)` reads back as the nearest hundredth, within 0.005 of the score |
| JsValues.Or | view/js/charts.js:187 | `a \|\| b` is one of its operands, truthy exactly when `a` or `b` is, and `a` whenever `a` is truthy |
| JsValues.StrictEqualsIsEquivalence | view/js/charts.js:264 | `===` on cells is reflexive, symmetric and transitive, so the model grouping is well defined |
| JsValues.ScoreOrZero | view/js/charts.js:116 | `parseFloat(v) \|\| 0` is never NaN; NaN and 0 become 0 and every other result, infinities included, is kept |
| JsValues.ParseNum | view/js/charts.js:116 | a number cell parses to its own value |
| JsValues.ParseBlanks | view/js/charts.js:116 | the empty cell, an absent key and "n/a" parse to NaN |
| JsValues.ScoreOfNum | view/js/charts.js:116 | on the chart paths a number cell keeps its value unless it is 0, with no 0..10 range check |
| JsValues.ScoreOfBlanks | view/js/charts.js:195 | on the chart paths unparsable cells (empty, absent, "n/a") become 0 |
| JsValues.OnlyStringsMentionOverall | view/js/charts.js:107 | only a string cell can contain OVERALL once upper-cased: numbers and "undefined" never do |
| JsValues.MentionsOverallIgnoresCase | view/js/compare.js:106-108 | whether a string cell mentions OVERALL does not depend on its case |
| Sheets.KeyIndex | view/js/compare.js:117 | the lookup finds the first column headed by the key, and only columns with other headers come before it |
| Sheets.Get | view/js/compare.js:117 | `row[key]` is undefined when no column is headed by the key |
| Sheets.GetColumn | view/js/compare.js:114-117 | in a row with distinct headers, `row[col]` for a column `col` of `Object.keys(row)` is that column's cell |
| Sheets.OverallRowHasOverallText | view/js/compare.js:106-108 | a row is an OVERALL row exactly when one of its string cells contains "overall" in some mix of cases |
| Sheets.LoadedContents | view/js/compare.js:30-34 | after loading, a sheet name is present iff it was present or loaded; a loaded name holds the rows of its last occurrence and any other name keeps its old rows |
| Charts.FilterMembers | view/js/charts.js:115 | `filter` keeps exactly the elements that pass the test |
| Charts.FilterAppend | view/js/charts.js:296 | `filter` keeps the order: filtering a concatenation concatenates the filtered parts |
| Charts.FilterKeepsAll | view/js/charts.js:186 | when every element passes, `filter` changes nothing |
| Charts.FirstOverall | view/js/charts.js:106-108 | `find` returns the first OVERALL row: every earlier row is not one |
| Charts.ScoresOf | view/js/charts.js:116 | one score per key, never NaN, and 0 for a key the row does not have |
| Charts.OverallChart | view/js/charts.js:98-116 | the overall view either draws a chart or shows an error |
| Charts.OverallChartSpec | view/js/charts.js:99-116 | without the sheet it shows "Overall Score Comparison data not found"; without an OVERALL row it shows "Overall scores not found"; a chart is drawn exactly when the sheet has an OVERALL row, and it is the bar chart of the first one |
| Charts.OverallChartDrawsFirst | view/js/charts.js:106-116 | when row `k` is the first OVERALL row, the chart is drawn with its keys other than Category as labels, in key order, each score `parseFloat \|\| 0` of that row's cell |
| Charts.OverallBarsMatchLabels | view/js/charts.js:115-116 | the bar chart has as many scores as labels, no score is NaN, and "Category" is not a label |
| Charts.CategoryLabel | view/js/charts.js:187 | a metric label is one of the row's own cells or undefined; it is truthy iff `row.Category` or the first value is, and it is `row.Category` whenever that is truthy |
| Charts.MetricChart | view/js/charts.js:177-211 | a metric view never ends without drawing, showing an error or throwing |
| Charts.MetricChartSpec | view/js/charts.js:178-195 | without the sheet it shows "<sheet> data not found"; an empty sheet throws; otherwise there is one label per non-OVERALL row in row order, one series per non-Category key of the first row in key order, and every series is as long as the labels, its i-th value `parseFloat \|\| 0` of the i-th kept row |
| Charts.MetricLeavesOutOverall | view/js/charts.js:185-186 | the rows plotted are exactly the sheet's rows that are not OVERALL rows |
| Charts.RadarModels | view/js/charts.js:260 | the models searched are exactly the rows' `Model \|\| model` values: each row's value equals a searched model, and each searched model equals some row's |
| Charts.DistinctSeen | view/js/charts.js:260 | `[...new Set(models)]` loses no model: every model equals one in the result, and nothing else is in it |
| Charts.DistinctPairwise | view/js/charts.js:260 | no two models of the result are equal |
| Charts.DistinctFirst | view/js/charts.js:260 | each model of the result is the first occurrence of its kind among the models |
| Charts.DistinctOrder | view/js/charts.js:260 | the result is in order of first occurrence: wherever a later model of the result occurs, an earlier one has already occurred |
| Charts.DistinctPrefix | view/js/charts.js:260 | models met later never reorder those met earlier: the result for a prefix is a prefix of the result |
| Charts.FindMissing | view/js/charts.js:265-267 | the search of a model's rows finds nothing exactly when every category from there on is text without OVERALL |
| Charts.FindFound | view/js/charts.js:265-267 | a found row is the first whose category is not plain text, and it mentions OVERALL |
| Charts.FindThrows | view/js/charts.js:265-267 | the search throws at the first row whose category is not plain text when that category is not a string |
| Charts.FindOverallCategorySpec | view/js/charts.js:264-269 | the search of a model's rows ends at the first category that is not plain text: found when it mentions OVERALL, a TypeError when it is no string, nothing only when every category is plain text |
| Charts.RadarVector | view/js/charts.js:273-279 | a radar vector has exactly five values, one per axis, none NaN |
| Charts.RadarVectorSpec | view/js/charts.js:274-278 | each radar value reads the camelCase cell when it is truthy, and the Title Case cell otherwise: when the camelCase column is missing, empty or 0 |
| Charts.RadarFallsThrough | view/js/charts.js:274 | an empty `faithfulness` cell next to a `Faithfulness` cell of 9 gives the score 9 |
| Charts.SearchesFindOwnRows | view/js/charts.js:263-269 | a model's search only finds one of the sheet's rows whose `Model \|\| model` equals that model, and whose category mentions OVERALL |
| Charts.PolygonsAppend | view/js/charts.js:263-296 | the datasets of consecutive runs of models follow one another |
| Charts.PolygonsThrow | view/js/charts.js:263-296 | building the datasets throws exactly when the search of some model throws |
| Charts.DatasetsOfCons | view/js/charts.js:271-279 | the datasets of a list are the first model's dataset followed by the rest's |
| Charts.PolygonsOfFound | view/js/charts.js:269-296 | when nothing throws, the datasets are those of the models whose search found a row, in order (`DatasetsOf` of the found ones): models without one are dropped, not filled with zeros |
| Charts.RadarChart | view/js/charts.js:251-303 | a drawn radar chart has the five fixed axes |
| Charts.RadarChartSpec | view/js/charts.js:252-302 | without the sheet it shows "Model Comparison data not found"; it throws iff some model's search throws; otherwise it draws one polygon per distinct model with an OVERALL category row, in first-occurrence order, holding that row's radar vector |
| Charts.RadarPolygonsFound | view/js/charts.js:269-279 | every polygon belongs to a model whose search found its row, carries that model's name and has five values |
| Charts.ChartForKnownTypes | view/js/charts.js:76-95 | `displayChart` draws nothing exactly for types outside its six cases |
| Charts.ChartForEmpty | view/js/charts.js:76-95 | before any workbook is loaded every chart type shows a not-found error |
| Charts.CorrectnessSheetName | view/js/charts.js:89-90 | the correctness view reads the sheet "correctness Comparison", in lower case |
| Charts.ExcelChartsManager.constructor | view/js/charts.js:2-5 | no data, the overall chart selected, no chart drawn |
| Charts.ExcelChartsManager.LoadExcelFile | view/js/charts.js:29-33 | the loop assigns each sheet's rows to its name in order; on failure the data is unchanged |
| Charts.ExcelChartsManager.DisplayChart | view/js/charts.js:68-96 | the outcome is the one the switch selects for the current data; a drawn chart replaces the stored one, and the old one is destroyed either way |
| Charts.ExcelChartsManager.SwitchChart | view/js/charts.js:56-66 | the chosen type becomes `currentChart` and is displayed |
| Charts.ExcelChartsManager.Init | view/js/charts.js:9-13 | the workbook is loaded, then the current chart is displayed: the outcome is the switch's for the loaded data, a drawn chart is stored and live, otherwise the old chart is kept and not live |
| Compare.NumericScoreOfNum | view/js/compare.js:156-159 | a number cell is a score iff its value lies in 0..10 |
| Compare.BlanksAreNotScores | view/js/compare.js:156-159 | empty cells, absent keys and "n/a" are not scores |
| Compare.ClassOf | view/js/compare.js:161-166 | the class of a parsed score is always one of the three score bands |
| Compare.ScoreBands | view/js/compare.js:161-166 | a score is excellent iff at least 8.5, good iff in [6.5, 8.5), fair iff below 6.5 |
| Compare.ClassOfMonotone | view/js/compare.js:161-166 | a higher score never gets a lower band |
| Compare.BandEdges | view/js/compare.js:163-165 | 8.5 is excellent, 8.49 and 6.5 are good, 6.49 and NaN are fair |
| Compare.FormatScore | view/js/compare.js:148-152 | a score is shown as digits, a point and two digits, reading back within 0.005 of the score |
| Compare.FixedTwoText | view/js/compare.js:150-151 | the same facts for any text known to be `toFixed(2)` of a non-negative number |
| Compare.FormatNonScore | view/js/compare.js:153 | anything not a score is shown as `String(value)`, so "n/a" is shown as "n/a" |
| Compare.FormatIdempotent | view/js/compare.js:148-154 | the shown text of a score is itself a score and is shown unchanged |
| Compare.FixedTwoStable | view/js/compare.js:148-154 | `toFixed(2)` of a score is a score that formats to itself |
| Compare.SpaceBeforeCapitals | view/js/compare.js:143 | inserting spaces never shortens the text |
| Compare.CapitalizeFirst | view/js/compare.js:144 | upper-casing the first character keeps the length |
| Compare.FormatColumnName | view/js/compare.js:140-146 | a formatted name has no white space at either end |
| Compare.SpacesAreInserted | view/js/compare.js:143 | taking the spaces out again gives back a name that had none |
| Compare.InsertedSpacesPrecedeCapitals | view/js/compare.js:143 | in a name without white space, every white space after inserting is an inserted space right before a capital |
| Compare.SpaceBeforeCapitalsAppend | view/js/compare.js:143 | the replacement works character by character: it distributes over concatenation |
| Compare.FormatColumnNameOfWord | view/js/compare.js:140-146 | a name that neither starts nor ends with white space is shown with its first letter upper-cased and a space before each later capital |
| Compare.FormatColumnNameRoundTrip | view/js/compare.js:140-146 | for a name that neither starts nor ends with white space, removing the spaces from the formatted name gives the name with its first letter upper-cased, spaces removed; a name without white space comes back exactly |
| Compare.FormatTitleWords | view/js/compare.js:140-146 | two capitalised words joined by a space are shown with two spaces between them |
| Compare.FormatCamelPair | view/js/compare.js:140-146 | a camelCase pair of lower-case words becomes two Title Case words |
| Compare.FormatCamelCase | view/js/compare.js:140-146 | "answerRelevance" is shown as "Answer Relevance" |
| Compare.FormatTitlePair | view/js/compare.js:140-146 | two capitalised lower-case words joined by one space keep their letters and get a second space |
| Compare.FormatTitleCase | view/js/compare.js:140-146 | "Overall Score" is shown as "Overall  Score" |
| Compare.CreateTableBody | view/js/compare.js:102-137 | the outer loop appends exactly the table rows `TableBody` specifies, one per sheet row in order, whose properties `TableRows` states |
| Compare.CreateRow | view/js/compare.js:103-136 | a row carries the OVERALL flag of its row and one cell per column, in column order |
| Compare.CreateCell | view/js/compare.js:116-132 | each cell gets the class and text the per-column rules give |
| Compare.TableRows | view/js/compare.js:102-114 | the table keeps every row, OVERALL rows included, flags exactly the OVERALL rows and gives each row one cell per column |
| Compare.FirstColumnClass | view/js/compare.js:120-126 | the first cell is a model name iff the sheet is Model Comparison, and a category name otherwise |
| Compare.ScoreCellClass | view/js/compare.js:127-132 | a later cell is coloured iff it holds a score, by that score's band and never as a name; its text is its own formatted cell |
| Compare.HeaderOf | view/js/compare.js:87-95 | one heading per key of the first row, in key order; no heading starts or ends with white space, and a key without white space at its ends keeps its characters, spaces aside, with the first upper-cased |
| Compare.SheetBodySpec | view/js/compare.js:66-85 | a sheet is shown as a table iff it is loaded and has rows, the table has one row per sheet row, and both errors end in the sheet's name |
| Compare.FailedLoadShowsMissingSheet | view/js/compare.js:2-12 | a fresh dashboard whose load fails ends `init` showing "Sheet not found: Model Comparison", not the load error, and with no header |
| Compare.ExcelComparisonDashboard.constructor | view/js/compare.js:2-4 | no data and the Model Comparison sheet selected |
| Compare.ExcelComparisonDashboard.LoadExcelFile | view/js/compare.js:14-43 | the loading message is shown; the loop assigns each sheet's rows to its name in order; a failure leaves the data and shows the load error |
| Compare.ExcelComparisonDashboard.DisplaySheet | view/js/compare.js:66-85 | the body is the error or table `SheetBody` gives; the header changes only for a sheet with rows, to that sheet's header |
| Compare.ExcelComparisonDashboard.SwitchTab | view/js/compare.js:54-64 | the chosen sheet becomes `currentSheet` and is displayed |
| Compare.ExcelComparisonDashboard.Init | view/js/compare.js:8-12 | the workbook is loaded, then the current sheet is displayed: its body is `SheetBody` of the loaded data, and the header is that sheet's when it has rows, else unchanged |

## Left out

- Fetching the workbook and decoding it are not modelled (`fetch`, `XLSX.read`, `sheet_to_json`). `LoadExcelFile` takes the decoded sheets in `SheetNames` order, with missing cells already `""`, or `None` for any failure.
- Asynchrony is not modelled: `init` runs its load and its display one after the other.
- Not modelled because they are I/O or presentation:
  - the DOM writes, the loading/visible toggles of the chart page, and where `showError` writes its message;
  - Chart.js options, titles, colours and `updateChartInfo`;
  - console logging and `setupEventListeners`.
- Because the DOM is out of the model, `switchChart` and `switchTab` do not style the active tab. When no tab matches the chosen name, `document.querySelector` returns null and the source throws before it changes the current chart or sheet. The model does not capture that throw.
- `Charts.ExcelChartsManager.DisplayChart`: `Chart` construction is abstracted to the chart data it receives. `chart.destroy()` is modelled as clearing the `live` flag.
- The `categories` value computed in `createCategoryChart` is never used, so it is not modelled.
- Only strings, numbers and absent keys are modelled as cells. Booleans and dates from the decoder are left out.
- Row headers are assumed to be distinct, as the keys of a JavaScript object are. Several lemmas require this (`Sheets.GetColumn`, `Compare.ScoreCellClass`).
- Key order is the decoder's column order. JavaScript's own ordering of integer-like keys is not modelled.
- Keys inherited from the object prototype are not modelled.
- Numbers are modelled as exact decimals:
  - `parseFloat` is evaluated on exact reals, without IEEE-754 rounding to the nearest double;
  - `toFixed(2)` rounds halves up on exact reals, so cases like 1.005, where double rounding differs, follow the exact value.
- `JsNumber.FixedTwo`: requires a non-negative number. It is only applied to scores, which lie in 0..10.
- `JsText.ToUpper`: upper-cases ASCII letters only, while `toUpperCase` maps all of Unicode. The OVERALL tests and column names only depend on ASCII letters.
- The chart page's HTML is not part of this model. `showError` replaces the contents of `#chart-container`; the model assumes the `main-chart` canvas that `displayChart` draws on is still there afterwards.
- A load that fails part-way through the sheets after changing `data` is not modelled; a failure is all-or-nothing.
