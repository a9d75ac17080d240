# Dataset explorer: import, store, charts, search and statistics

This project models the data-handling core of a small single-page dataset
explorer. A user uploads a CSV file. The import page splits it naively on
newlines and commas, infers a type for every column (number, date, boolean
or string) and coerces the first ten rows into typed row objects. The
resulting dataset goes into a persisted store, which keeps a list of datasets
and a current one. Three pages read that store:

- the visualisation page offers axis columns by type and shapes the preview
  rows for a bar, line, pie or scatter chart (counting rows per category for
  a pie);
- the dataset list filters datasets by a case-insensitive search and deletes
  them behind a confirmation dialog;
- the analysis page computes mean, median, minimum, maximum and spread of
  every numeric column.

Modules:

- `Common`: sequence helpers shared by every module: `filter`, `map`, `every`, `slice(0, n)`.
- `JsString`: the JavaScript string operations the pages use: `split`, `join`, `trim`, `toLowerCase`, `includes`, `endsWith`, the first-match `replace`.
- `JsNumber`: `Number(text)` and `parseFloat(text)` over the decimal literal grammar, and `0x`/`0o`/`0b` literals.
- `DataModel`: the store's records, and the values a typed cell can hold.
- `DatasetStore`: the store itself, a class whose methods replace its fields.
- `CsvImport`: the import page.
- `Chart`: the chart component's data shaping.
- `Visualizations`, `DatasetList` and `Analysis`: the three pages of the same names.

Page state that React keeps in `useState` hooks is a class per page. Each
event handler is a method on that class that changes only the fields the
handler sets.

## Model

| member | source | states |
|---|---|---|
| JsString.Split | src/pages/DataImport.tsx:30 | splitting on a separator gives one piece per separator plus one; no piece holds the separator; joining the pieces gives the text back |
| JsString.SplitJoin | src/pages/DataImport.tsx:30 | splitting a join of separator-free pieces gives the pieces back |
| JsString.Trim | src/pages/DataImport.tsx:33 | the result has no leading or trailing white space; it is empty exactly when the text is blank; trimmed text is left alone; which text is removed is stated by `JsString.TrimStripsBlankEnds` |
| JsString.TrimStripsBlankEnds | src/pages/DataImport.tsx:33 | the trimmed text is the original with a blank prefix and a blank suffix removed, and nothing else changed |
| JsString.TrimIdempotent | src/pages/DataImport.tsx:33 | trimming twice is trimming once |
| JsString.ToLower | src/pages/DatasetList.tsx:46-47 | lower-casing keeps the length and maps every upper-case ASCII letter to lower case, leaving other characters unchanged |
| JsString.ToLowerIdempotent | src/pages/DatasetList.tsx:46-47 | lower-casing twice is lower-casing once |
| JsString.ReplaceFirst | src/pages/DataImport.tsx:97 | text without the pattern is unchanged; otherwise the first occurrence, and only it, is replaced: the result is the text before it, the replacement, and the text after it |
| JsString.ReplaceFirstDeletes | src/pages/DataImport.tsx:97 | replacing by the empty string deletes the first occurrence of the pattern and keeps the rest of the text |
| JsNumber.ToNumber | src/pages/DataImport.tsx:48 | `Number(v)`: the trimmed text is zero when empty, else a hexadecimal, octal or binary literal or a signed decimal literal as a whole; its meaning is stated by `JsNumber.DigitsAreNumeric`, `JsNumber.SingleDigitIsNumeric`, `JsNumber.NotNumericByFirstChar` and `JsNumber.NumberOfTrimmedDecimal` |
| JsNumber.ParseFloatText | src/pages/Analysis.tsx:55 | `parseFloat` on text: leading white space skipped, then the longest decimal prefix; its meaning is stated by `JsNumber.ParseFloatTextMeaning` |
| JsNumber.LongestPrefixMeaning | src/pages/Analysis.tsx:55 | the value read is that of an accepted prefix of which no longer prefix is accepted, and nothing is read when no prefix is accepted |
| JsNumber.ParseFloatTextMeaning | src/pages/Analysis.tsx:55 | `parseFloat` reads the longest prefix of the text after its leading white space that is a decimal literal, and is `NaN` when no prefix is one |
| JsNumber.DigitsAreNumeric | src/pages/DataImport.tsx:48 | a non-empty run of decimal digits is numeric and converts to its decimal value |
| JsNumber.SingleDigitIsNumeric | src/pages/DataImport.tsx:48 | one digit converts to its own value |
| JsNumber.NotNumericByFirstChar | src/pages/DataImport.tsx:48 | text starting with anything other than a digit, a sign, a point or white space is not numeric |
| JsNumber.NumberOfTrimmedDecimal | src/pages/DataImport.tsx:48 | trimmed text that is not a `0x`/`0o`/`0b` literal converts as a signed decimal literal |
| DataModel.WithId | src/stores/datasetStore.ts:40-43 | the stored record is the submitted one with the id added and every other field kept |
| DataModel.ParseFloat | src/components/VisualizationChart.tsx:60 | `parseFloat` on a cell value: a number reads as itself, a string through `JsNumber.ParseFloatText`, anything else as `NaN`; used by `Chart.PlotNumber` and `Analysis.ParsedValues` |
| DataModel.ColumnNames | src/pages/Visualizations.tsx:54-56 | the names of exactly the columns of the asked type, or of all columns when no type is asked, never more names than columns; order and multiplicity are stated by `DataModel.ColumnNamesOrder` |
| DataModel.NamesOfFilter | src/pages/Visualizations.tsx:54-56 | the names of the kept columns are, in order, the names of the columns passing the filter, one per column |
| DataModel.ColumnNamesOrder | src/pages/Visualizations.tsx:54-56 | the k-th name is the name of the k-th column of the asked type in schema order, and each such column gives exactly one name, repeated names included |
| DatasetStore.FindById | src/stores/datasetStore.ts:52 | nothing is found exactly when no record has the id; otherwise the first record with that id is found |
| DatasetStore.FindByUniqueId | src/stores/datasetStore.ts:51-54 | with unique ids, looking up a stored record's id finds that record |
| DatasetStore.RemoveId | src/stores/datasetStore.ts:60 | the records left are exactly those whose id differs, in their original order |
| DatasetStore.RemoveIdOrder | src/stores/datasetStore.ts:60 | the k-th record left is the k-th record with another id, and each such record is left exactly once, duplicates included |
| DatasetStore.RemoveAbsent | src/stores/datasetStore.ts:60 | deleting an id no record has changes nothing |
| DatasetStore.RemoveTwice | src/stores/datasetStore.ts:60 | deleting twice is deleting once |
| DatasetStore.RemoveUndoesAppend | src/stores/datasetStore.ts:39-60 | deleting the id just added restores the earlier list |
| DatasetStore.SubseqKeepsIdsUnique | src/stores/datasetStore.ts:60 | removing records keeps ids unique |
| DatasetStore.Store.constructor | src/stores/datasetStore.ts:34-37 | the store starts with no datasets, no current dataset, not loading and no error |
| DatasetStore.Store.Rehydrate | src/stores/datasetStore.ts:65-67 | a store restored from saved state holds the saved datasets and nothing else |
| DatasetStore.Store.Partialize | src/stores/datasetStore.ts:66-67 | only the dataset list is persisted |
| DatasetStore.Store.AddDataset | src/stores/datasetStore.ts:39-49 | exactly one record, under the fresh id, is appended after the earlier ones; it becomes current; ids stay unique |
| DatasetStore.Store.SetCurrentDataset | src/stores/datasetStore.ts:51-56 | a present id makes its first record current; an absent id changes nothing; the list never changes |
| DatasetStore.Store.DeleteDataset | src/stores/datasetStore.ts:58-63 | every record with the id is removed, the others keep their order; the current dataset is cleared exactly when it has that id |
| DatasetStore.Reload | src/stores/datasetStore.ts:65-67 | saving and restoring keeps the datasets and forgets the current one |
| CsvImport.ParseCsv | src/pages/DataImport.tsx:29-40 | `parseCSV`: the first line split into trimmed headers, every later non-blank line split into trimmed cells; its meaning is stated by `CsvImport.ParseCsvShape`, `CsvImport.RowsAreContentLines` and `CsvImport.ParseRender` |
| CsvImport.SplitFields | src/pages/DataImport.tsx:33-37 | a line gives one trimmed field per comma plus one |
| CsvImport.ParseCsvShape | src/pages/DataImport.tsx:29-40 | one trimmed header per comma of the first line plus one; every cell trimmed; at most one data row per line break |
| CsvImport.EmptyText | src/pages/DataImport.tsx:30-33 | splitting never yields zero lines, so the empty guard cannot fire; empty text is one empty header and no rows |
| Common.FilterPositions | src/pages/DataImport.tsx:35-37 | `filter` keeps, in order and once each, exactly the elements that pass the test: there are increasing positions covering every passing element, and the k-th result is the element at the k-th position |
| Common.MapFilterPositions | src/pages/DataImport.tsx:35-37 | `filter` then `map`: the k-th result is the mapped k-th passing element |
| Common.PresentOfMap | src/pages/Analysis.tsx:54-56 | `map` then dropping failures: the k-th result is the value of the k-th element whose mapping succeeds |
| CsvImport.RowsAreContentLines | src/pages/DataImport.tsx:35-37 | the k-th row is the k-th non-blank line after the first, split and trimmed; every such line gives exactly one row, so repeated lines give repeated rows |
| CsvImport.NoBlankLines | src/pages/DataImport.tsx:35-37 | without blank lines after the header there is one row per line break |
| CsvImport.ParseRender | src/pages/DataImport.tsx:29-40 | a table of trimmed fields free of commas and newlines is parsed back from its text unchanged |
| CsvImport.DetectColumnType | src/pages/DataImport.tsx:43-62 | `detectColumnType` on a column's texts: number, then date, then boolean, then string, over the non-empty values; its meaning is stated by `CsvImport.DetectedTypeMeaning` |
| CsvImport.IsDate | src/pages/DataImport.tsx:52 | the date regex: four digits, dash, two, dash, two, or two, slash, two, slash, four; related facts in `CsvImport.DateIsNotNumeric` and `CsvImport.BooleanWordIsNotDate` |
| CsvImport.DetectedTypeMeaning | src/pages/DataImport.tsx:43-62 | the type is number iff every non-empty value is numeric, date iff every one is a date, boolean iff every one is a boolean word and not all are numeric, and string otherwise or when all values are empty |
| CsvImport.AllEmptyIsString | src/pages/DataImport.tsx:44-45 | a column of empty values is a string column |
| CsvImport.ZeroOneColumnIsNumber | src/pages/DataImport.tsx:47-59 | a column of `0`s and `1`s is typed number, not boolean |
| CsvImport.OneOddValueDemotes | src/pages/DataImport.tsx:47-61 | one value that is neither numeric, a date nor a boolean word makes the column a string column |
| CsvImport.DateIsNotNumeric | src/pages/DataImport.tsx:48-54 | a date-shaped value is never numeric, so the date check is reachable |
| CsvImport.BooleanWordIsNotDate | src/pages/DataImport.tsx:52-58 | a boolean word is never date-shaped |
| CsvImport.MoreValuesLoosen | src/pages/DataImport.tsx:43-62 | more values can only loosen a column's type: to the same type, from number to boolean, or to string |
| CsvImport.DetectCells | src/pages/DataImport.tsx:43-62 | `detectColumnType` on the cells of a column, where a short row gives an `undefined` cell that throws in `toLowerCase`; its meaning is stated by `CsvImport.DetectFullColumn`, `CsvImport.MissingCellColumn` and `CsvImport.MissingCellThrows` |
| CsvImport.DetectFullColumn | src/pages/DataImport.tsx:141-142 | a column without missing cells never throws and gets the type its values give |
| CsvImport.MissingCellColumn | src/pages/DataImport.tsx:141-142 | a column that reaches past a short row is a string column, or its detection throws |
| CsvImport.MissingCellThrows | src/pages/DataImport.tsx:56-58 | detection throws when the first cell that is neither empty nor a boolean word is missing |
| CsvImport.InferColumns | src/pages/DataImport.tsx:140-144 | column `i` is named `headers[i]` and typed by the detection of its cells; inference throws exactly when some column's detection does |
| CsvImport.RectangularColumns | src/pages/DataImport.tsx:140-144 | when every row reaches every header, inference succeeds and types each column from its values |
| CsvImport.FindType | src/pages/DataImport.tsx:151 | the type of the first column with that name, or none when no column has it |
| CsvImport.CoerceCell | src/pages/DataImport.tsx:151-158 | one cell under its column's type; its meaning is stated by `CsvImport.BooleanCellMeaning`, `CsvImport.NumberCellMeaning`, `CsvImport.TextCellMeaning` and `CsvImport.MissingCellMeaning` |
| CsvImport.RowObject | src/pages/DataImport.tsx:147-161 | the row object built header by header; its meaning is stated by `CsvImport.RowObjectEntries` and `CsvImport.RowObjectThrows`, and `CsvImport.CoerceRow` is its loop |
| CsvImport.BooleanCellMeaning | src/pages/DataImport.tsx:155-156 | a boolean cell is true exactly for `true`, `1` and `yes` in any case, false for the other boolean words |
| CsvImport.NumberCellMeaning | src/pages/DataImport.tsx:153-154 | an empty number cell is `null`; a numeric one is its value |
| CsvImport.TextCellMeaning | src/pages/DataImport.tsx:157-158 | string and date cells keep their text |
| CsvImport.MissingCellMeaning | src/pages/DataImport.tsx:150-159 | a missing cell throws only in a boolean column; it is `null` in a number column and `undefined` elsewhere |
| CsvImport.CoerceRow | src/pages/DataImport.tsx:148-161 | the loop builds the row object, or stops at the first cell that throws |
| CsvImport.RowObjects | src/pages/DataImport.tsx:147-162 | one row object per row, in order; the whole map throws exactly when some row does |
| CsvImport.CoerceRows | src/pages/DataImport.tsx:147-162 | the loop over rows gives the row objects, or the throw |
| CsvImport.RowObjectThrows | src/pages/DataImport.tsx:148-160 | a row throws exactly when the coercion of one of its cells throws |
| CsvImport.RowObjectEntries | src/pages/DataImport.tsx:148-160 | a row object that does not throw has exactly the headers as keys; under each is the last same-named column's cell, coerced under the first same-named column's type |
| CsvImport.FullRowObject | src/pages/DataImport.tsx:150-159 | a row that reaches every header never throws |
| CsvImport.RowObjectDistinct | src/pages/DataImport.tsx:149-160 | with distinct headers, each cell is coerced under its own column's type |
| CsvImport.RowObjectDuplicate | src/pages/DataImport.tsx:149-160 | with a repeated header, the later column's cell is kept and coerced under the earlier column's type |
| CsvImport.ImportDraft | src/pages/DataImport.tsx:137-173 | the dataset has the typed name and description, the count of all rows, the inferred schema (one column per header, typed by the detection over all of that column's cells), and the first min(10, n) typed rows; it fails exactly when inference or coercion throws |
| CsvImport.RectangularImports | src/pages/DataImport.tsx:134-182 | a file whose rows all reach every header always imports |
| CsvImport.ShortRowUnderBooleansFails | src/pages/DataImport.tsx:141-178 | a row too short for a column whose earlier values are all boolean words or empty makes the import fail |
| CsvImport.BuildDraft | src/pages/DataImport.tsx:134-173 | the handler computes exactly the dataset above, or the throw |
| CsvImport.AddImported | src/pages/DataImport.tsx:134-182 | the dataset is appended and made current iff building it succeeded; otherwise the store is untouched |
| CsvImport.TruncatePreview | src/pages/DataImport.tsx:104-108 | the preview keeps the headers and the first min(10, n) rows |
| CsvImport.CheckFile | src/pages/DataImport.tsx:83-94 | a file is accepted iff its name ends in `.csv` and it is at most 5·1024·1024 bytes; the suffix is checked first |
| CsvImport.DefaultName | src/pages/DataImport.tsx:97 | a name without `.csv` is kept; otherwise its first `.csv` is removed and the rest kept, so a `.csv` file name loses exactly four characters |
| CsvImport.DefaultNameDropsExtension | src/pages/DataImport.tsx:97 | a file name whose only `.csv` is its extension proposes the name without the extension |
| CsvImport.DataImportPage.constructor | src/pages/DataImport.tsx:70-74 | the page starts with empty name and description, no file, no preview, not loading |
| CsvImport.DataImportPage.HandleFileChange | src/pages/DataImport.tsx:76-98 | without a file nothing happens; a rejected file changes nothing; an accepted one is selected and names the dataset |
| CsvImport.DataImportPage.PreviewLoaded | src/pages/DataImport.tsx:100-112 | the preview becomes the parsed file cut to ten rows, and nothing else changes |
| CsvImport.DataImportPage.SetDatasetName | src/pages/DataImport.tsx:70 | only the name changes |
| CsvImport.DataImportPage.SetDatasetDescription | src/pages/DataImport.tsx:71 | only the description changes |
| CsvImport.DataImportPage.HandleSubmit | src/pages/DataImport.tsx:116-133 | refuses iff there is no file or preview, then iff the trimmed name is empty, touching nothing; otherwise enters the loading state |
| CsvImport.DataImportPage.SubmitLoaded | src/pages/DataImport.tsx:134-182 | adds the built dataset iff building succeeded, leaves the store untouched otherwise, and always leaves the loading state |
| CsvImport.DataImportPage.ClearSelection | src/pages/DataImport.tsx:190-196 | file and preview are forgotten; name and description stay |
| Chart.SliceKey | src/components/VisualizationChart.tsx:50 | the pie key of a row: its x-value as text, or `Unknown` when falsy; its meaning is stated by `Chart.FalsyIsUnknown` and `Chart.TextIsOwnSlice` |
| Chart.FalsyIsUnknown | src/components/VisualizationChart.tsx:50 | a falsy x-value is counted under `Unknown` |
| Chart.TextIsOwnSlice | src/components/VisualizationChart.tsx:50 | a non-empty string x-value is its own slice name |
| Chart.CountKey | src/components/VisualizationChart.tsx:49-52 | a slice never counts more rows than there are |
| Chart.CountKeyPositive | src/components/VisualizationChart.tsx:49-52 | a slice count is at least one iff some row falls in that slice |
| Chart.PieTotal | src/components/VisualizationChart.tsx:46-55 | the slice counts add up to the number of rows |
| Chart.PieAggregationUnique | src/components/VisualizationChart.tsx:46-55 | any two aggregations of the same rows hold the same slices, up to order |
| Chart.AggregatePie | src/components/VisualizationChart.tsx:46-55 | the loop gives one slice per distinct key, counting exactly its rows, each count at least one, the counts summing to the number of rows |
| Chart.PlotNumber | src/components/VisualizationChart.tsx:60-62 | a y-value that does not parse plots as 0, otherwise as its parsed value |
| Chart.Point | src/components/VisualizationChart.tsx:58-63 | the point has exactly the keys x, y, `name` and `value`; `name` is the row's x-value and `value` its plotted y-value |
| Chart.Points | src/components/VisualizationChart.tsx:58-63 | one point per row, in order, `name` being the row's x-value |
| Chart.SliceRow | src/components/VisualizationChart.tsx:54 | a slice becomes an object with just `name` and `value` |
| Chart.ProcessedData | src/components/VisualizationChart.tsx:42-64 | empty without an x key; the points for non-pie charts; a pie aggregation for pie charts |
| Chart.UnparsedIsZero | src/components/VisualizationChart.tsx:60-62 | a y-value that does not parse gives the value 0 |
| Chart.SliceColor | src/components/VisualizationChart.tsx:30-33 | every slice colour is one of the eleven colours, the first eleven slices taking them in order |
| Chart.ColorsCycle | src/components/VisualizationChart.tsx:122 | slice `i + 11` has the colour of slice `i` |
| Chart.AggregateAsWritten | src/components/VisualizationChart.tsx:47-52 | the pie loop as written, over a plain object with inherited properties; its meaning is stated by `Chart.AsWrittenCountsOrdinaryKeys`, `Chart.ProtoRowIsLost` and `Chart.ConstructorRowIsText` |
| Chart.StoreAsWritten | src/components/VisualizationChart.tsx:51 | a key that is not an inherited object property always ends up in the dictionary |
| Chart.AsWrittenCountsOrdinaryKeys | src/components/VisualizationChart.tsx:47-52 | when no x-value names an inherited property, the plain-object dictionary holds exactly the correct counts |
| Chart.ProtoRowIsLost | src/components/VisualizationChart.tsx:47-52 | a row whose x-value is `__proto__` is counted by the correct aggregation but is lost from the dictionary |
| Chart.ConstructorRowIsText | src/components/VisualizationChart.tsx:47-52 | a row whose x-value is `constructor` yields a text value instead of the count 1 |
| Visualizations.ColumnOptions | src/pages/Visualizations.tsx:51-57 | empty without a current dataset; otherwise exactly the names of the columns of the asked type, or all names in order; for a typed kind the order is stated by `Visualizations.ColumnOptionsOrder` |
| Visualizations.ColumnOptionsOrder | src/pages/Visualizations.tsx:51-57 | with a current dataset, the k-th option is the k-th column of the asked type in schema order, one option per such column |
| Visualizations.CategoricalOptions | src/pages/Visualizations.tsx:63 | the string columns' options followed by the boolean columns' options, as `Visualizations.XCandidatesOrder` states |
| Visualizations.XCandidates | src/pages/Visualizations.tsx:135-139 | the x-axis choices per chart type; their meaning is stated by `Visualizations.XCandidatesMeaning` and `Visualizations.XCandidatesOrder` |
| Visualizations.XCandidatesMeaning | src/pages/Visualizations.tsx:135-139 | the x-axis offers exactly the columns whose type suits the chart: categorical for bar and pie, dates for line when any exist and categorical otherwise, numeric for scatter |
| Visualizations.XCandidatesOrder | src/pages/Visualizations.tsx:60-66 | the categorical choices are the string columns' options followed by the boolean columns' options; a line chart with date columns offers the date options, a scatter chart the number options |
| Visualizations.YCandidates | src/pages/Visualizations.tsx:150-158 | no y-axis for pie; the numeric columns otherwise |
| Visualizations.RendersChart | src/pages/Visualizations.tsx:187 | a chart is drawn when the x-axis is chosen and the y-axis too unless the chart is a pie; used by `Visualizations.HintIffNoChart` and `Visualizations.VisualizationsPage.ChartData` |
| Visualizations.HintIffNoChart | src/pages/Visualizations.tsx:177-187 | the "select columns" hint shows exactly when no chart is drawn |
| Visualizations.VisualizationsPage.constructor | src/pages/Visualizations.tsx:21-23 | a bar chart with no axes chosen |
| Visualizations.VisualizationsPage.HandleChartTypeChange | src/pages/Visualizations.tsx:44-48 | the new type is set and both axes are cleared, so no chart is drawn |
| Visualizations.VisualizationsPage.HandleDatasetChange | src/pages/Visualizations.tsx:36-41 | the dataset is selected in the store and both axes are cleared |
| Visualizations.VisualizationsPage.SetXAxis | src/pages/Visualizations.tsx:130 | only the x-axis changes |
| Visualizations.VisualizationsPage.SetYAxis | src/pages/Visualizations.tsx:153 | only the y-axis changes |
| Visualizations.VisualizationsPage.ChartData | src/pages/Visualizations.tsx:187-193 | a chart is drawn iff a dataset is current, the x-axis is chosen, and the y-axis is chosen or the chart is a pie; it shows the shaped preview rows |
| DatasetList.Matches | src/pages/DatasetList.tsx:45-48 | the search test on lower-cased name and non-empty description; its meaning is stated by `DatasetList.EmptyTermShowsAll`, `DatasetList.TermCaseIgnored` and `DatasetList.NameMatchShown` |
| DatasetList.FilterDatasets | src/pages/DatasetList.tsx:45-48 | exactly the matching datasets, in their original order, never more than all of them |
| DatasetList.FilterDatasetsOrder | src/pages/DatasetList.tsx:45-48 | the k-th listed dataset is the k-th matching one in store order, and each matching dataset is listed exactly once, duplicates included |
| DatasetList.EmptyTermShowsAll | src/pages/DatasetList.tsx:45-48 | an empty search shows every dataset |
| DatasetList.TermCaseIgnored | src/pages/DatasetList.tsx:46-47 | the case of the search term does not matter |
| DatasetList.NameMatchShown | src/pages/DatasetList.tsx:46 | a dataset whose name holds the term is shown |
| DatasetList.DatasetListPage.constructor | src/pages/DatasetList.tsx:42-43 | empty search, no deletion pending |
| DatasetList.DatasetListPage.Visible | src/pages/DatasetList.tsx:45-48 | the shown datasets are exactly the stored ones matching the search, in order |
| DatasetList.DatasetListPage.SetSearchTerm | src/pages/DatasetList.tsx:42 | only the search term changes |
| DatasetList.DatasetListPage.ConfirmDelete | src/pages/DatasetList.tsx:50-52 | the id is remembered and the dialog opens for a non-empty id |
| DatasetList.DatasetListPage.CancelDelete | src/pages/DatasetList.tsx:195 | the id is forgotten and the dialog closes |
| DatasetList.DatasetListPage.HandleDelete | src/pages/DatasetList.tsx:54-60 | without a remembered id nothing changes; with one, that id's datasets are deleted, the current one is cleared if it had the id and kept otherwise, and the dialog closes |
| Analysis.Mean | src/pages/Analysis.tsx:70-71 | the sum over the count; its meaning is stated by `Analysis.MeanBetween` and `Analysis.ConstantValues` |
| Analysis.Median | src/pages/Analysis.tsx:74-78 | the middle of the sorted values, or the average of the two middle ones for an even count; its meaning is stated by `Analysis.MedianBetween` and `Analysis.ConstantValues` |
| Analysis.MinOf | src/pages/Analysis.tsx:81 | the minimum is one of the values and no value is below it |
| Analysis.MaxOf | src/pages/Analysis.tsx:82 | the maximum is one of the values and no value is above it |
| Analysis.SortAscending | src/pages/Analysis.tsx:74 | the same values in ascending order |
| Analysis.SquaredDeviations | src/pages/Analysis.tsx:85-86 | the sum of squared deviations is never negative |
| Analysis.Variance | src/pages/Analysis.tsx:86 | the population variance is never negative |
| Analysis.SortedEnds | src/pages/Analysis.tsx:74-82 | a sorted arrangement starts with the minimum and ends with the maximum |
| Analysis.MedianBetween | src/pages/Analysis.tsx:74-82 | min ≤ median ≤ max |
| Analysis.SumBounds | src/pages/Analysis.tsx:70 | n values between two bounds sum to between n times each bound |
| Analysis.MeanBetween | src/pages/Analysis.tsx:70-82 | min ≤ mean ≤ max |
| Analysis.ConstantValues | src/pages/Analysis.tsx:70-86 | equal values have themselves as mean and variance zero |
| Analysis.ParsedValues | src/pages/Analysis.tsx:54-56 | the working set is exactly the preview values that parse, empty iff none does |
| Analysis.ParsedValuesOrder | src/pages/Analysis.tsx:54-56 | the k-th value is the parse of the k-th row whose cell parses, so every such row contributes once, in row order, and repeated values are kept |
| Analysis.Summarize | src/pages/Analysis.tsx:58-97 | `N/A` exactly when nothing parsed; otherwise the statistics are the mean, the median of the sorted values, the minimum, the maximum and the variance of the values, with min and max among the values and every value between them, min ≤ median ≤ max, min ≤ mean ≤ max, variance ≥ 0 |
| Analysis.AnalyzeColumns | src/pages/Analysis.tsx:40-97 | one result per numeric column, in schema order, each summarising that column's parsed preview values |
| Analysis.AnalysisPage.constructor | src/pages/Analysis.tsx:26 | no results at first |
| Analysis.AnalysisPage.AnalyzeData | src/pages/Analysis.tsx:37-105 | with no current dataset, or no numeric column, nothing changes; otherwise the results become the analysis of every numeric column |
| Analysis.AnalysisPage.HandleDatasetChange | src/pages/Analysis.tsx:30-34 | the dataset is selected in the store and the results are cleared |

## Left out

- Rendering, toasts, navigation, and the effect that picks a dataset from the URL (`src/pages/Visualizations.tsx:27-34`): they are UI over libraries outside this model.
- The pages `Dashboard`, `Index`, `App`, `AppLayout`, `AppSidebar` and `DatasetSelector`: presentation, routing and an authentication redirect, with no data logic.
- `FileReader`: reading is asynchronous. Each handler is split into the part that runs at once (`HandleFileChange`, `HandleSubmit`) and the `onload` callback, which receives the file's text as a parameter (`PreviewLoaded`, `SubmitLoaded`).
- `SubmitLoaded` takes the name and description the callback captured when the user submitted, as the React closure does.
- `crypto.randomUUID`: the id is a parameter, required not to be in use already.
- Persistence beyond the projection `partialize` makes: the local-storage round trip is `Rehydrate` from the saved state.
- `createdAt` and `createdBy`: dates and user ids carry no logic here.
- Floating point. Numbers are exact reals and there is no `Infinity`: a cell such as `1e999` is numeric both here and in JavaScript, but its value is 10^999 here where JavaScript overflows to `Infinity`, which changes the statistics of such a column; the text `Infinity` itself, which JavaScript reads as a number, is not numeric here.
- CsvImport.RowObjectEntries: a header named `__proto__` is kept here as an ordinary key of the row object; in JavaScript the assignment goes to the object's prototype setter instead, so such a column does not become an own property of the row.
- Analysis.Summarize: states the spread as the population variance; `Math.sqrt` and `toFixed(2)` are not modelled.
- Analysis.Variance: only non-negativity and the constant case are proved, not that a zero variance implies equal values.
- JsString.ReplaceFirst: `$&`, `$1`, `` $` `` and `$'` in the replacement are copied literally rather than expanded; the only replacement used is the empty string.
- JsString.ToLower: ASCII letters only; JavaScript lower-cases all of Unicode, which matters only for non-ASCII search terms.
- `String(number)` for a numeric pie key is the parameter `numText`.
- Chart.AggregatePie: the order of pie slices is left unspecified; `Object.entries` moves integer-like keys first.
- The `!data` guard of `processedData`: the chart only ever receives a dataset's preview, which is present.
- The chart type is a four-value datatype, so the chart component never sees a string outside bar, line, pie and scatter.
- The `catch` around `setIsLoading(true)` in `handleSubmit` (`src/pages/DataImport.tsx:184-187`): nothing in its `try` block throws.

## Findings

| source | as written | input that shows it | evidently intended | confidence | as-written member | corrected member |
|---|---|---|---|---|---|---|
| src/components/VisualizationChart.tsx:47-52 | pie counts are kept in a plain object, so keys that name inherited `Object.prototype` properties read those properties instead of `undefined` | one row whose x-value is `__proto__`: the count read is the inherited prototype, so the value assigned is the string `[object Object]1`, which the `__proto__` setter ignores, and the slice disappears; one row whose x-value is `constructor`: the slice value is the function's source text followed by `1` | every row is counted under its own key | not executed | Chart.AggregateAsWritten, Chart.ProtoRowIsLost, Chart.ConstructorRowIsText | Chart.AggregatePie, Chart.PieTotal |
