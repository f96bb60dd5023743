# CSV table and chart window: a Dafny model of its data reshaping

The application is a small desktop window. It loads a CSV file into an editable
table widget. Three buttons then plot the selected cells as a line chart, a
scatter chart or a scatter chart with a joining line. Nearly all of the program is
widget and plotting-library wiring. This project models the three pieces of it
that are plain data reshaping. They are written as pure functions over the parsed
file (`seq<seq<string>>`) and the widget selection (a sequence of
`Index(row, column)` in the order `selectedIndexes()` yields it):

- **Table population** (`initTable`, module `Table`). The table has one row per data row
  and one column per header cell. Grid cell (r, c) shows file cell (r + 1, c).
- **Selection grouping** (the loop in `plot_chart`, module `Grouping`). Selected
  cells are read from the file and collected per column. They go into an
  insertion-ordered Python `dict`, modelled as an association list in module
  `InsertionMap`. The header of each newly met column is collected as an
  annotation label.
- **Series assembly and annotation** (`_plot_chart`, module `Chart`). The first dict
  entry becomes the X series. Every later entry goes into `yLst`, followed by the
  format string of the chart kind (`"b"`, `'bo'` or `'bo-'`). Each Y column gets
  one annotation.
- **One button press** (`plot_chart` end to end, module `Plot`). An empty
  selection does nothing. Otherwise the file is grouped, assembled and
  annotated. `PlotChart` uses the code's annotation index. `PlotChartCorrected`
  uses the index the code's comment describes; see Findings.

Python raises `IndexError` when a read falls outside a list. Here that is a
`Result.Failure` naming where it happened: the first short data row, the first
selected cell outside the file, or the first annotation whose index falls
outside `yLst`.

Three behaviours of the program are worth stating up front:
- Ragged rows are not rejected at load time. Filling the table fails only on a data
  row *narrower* than the header. Cells beyond the header's width are ignored.
- The empty-selection test looks at `selectedRanges()`. A selected range always
  holds at least one cell, so this is modelled as "the selection is empty".
- The annotation is not always placed at its own column's first value; see Findings.

## Model

| member | source | states |
|---|---|---|
| `Table.InitTable` | test.py:85-96 | Filling succeeds exactly when there is a header and no data row is narrower than it. On success the grid has `len(csv)-1` rows and the header's width, its titles are the header, and item (r, c) is file cell (r+1, c). An empty file fails with `NoHeader`. Otherwise the failure names the first data row narrower than the header. |
| `InsertionMap.Find` | test.py:156 | `str(c) in selectedItemsByCols`: the result is the first position holding the key, and it is absent exactly when the key is not among the dict's keys. |
| `InsertionMap.Append` | test.py:156-160 | Appending under an existing key keeps the key sequence. A new key is added last. Distinct keys stay distinct. Every other key's list is unchanged. The total number of stored values grows by one. |
| `InsertionMap.AppendValues` | test.py:157-160 | The list under the key gains the value at its end. Every entry keeps its list or has the value appended. A new key starts with the one-element list. |
| `Grouping.Step` | test.py:154-160 | One loop iteration. It has no contract of its own; its behaviour is stated by `Grouping.StepSucceedsIffReadable` and `Grouping.StepKeepsWellGrouped`. |
| `Grouping.StepSucceedsIffReadable` | test.py:154-160 | Once the loop's invariant holds, an iteration fails exactly when the selected cell is outside the file: its row + 1 or its column is out of range. A column already in the dict is inside the header's width, so for it only the data read can fail. |
| `Grouping.StepKeepsWellGrouped` | test.py:156-160 | One iteration keeps the invariant: keys distinct, one label per key equal to that column's header `csv[0][c]`, and no empty list. |
| `Grouping.GroupBy` | test.py:152-160 | Grouping succeeds exactly when every selected cell reads inside the file. Otherwise it fails at the first cell that does not. On success the invariant above holds and the list lengths add up to the number of selected cells. |
| `Grouping.GroupByCollectsColumns` | test.py:153-160 | The list stored under each column is exactly that column's selected cells, taken from file row r+1, in selection order. This is stated against an independent filter definition. An unselected column has no list. |
| `Grouping.FirstEncounterSnoc` | test.py:156-160 | Meeting one more column keeps the keys in first-encounter order. A new column goes last; a known one changes nothing. |
| `Grouping.GroupByKeysInFirstEncounterOrder` | test.py:152-160 | The dict's keys are the distinct selected columns, each exactly once. They are ordered by where each column first occurs in the selection. |
| `Grouping.FirstKeyIsFirstSelectedColumn` | test.py:153-160 | The first key, which becomes the X series, is the column of the first selected cell. |
| `Grouping.SelectionInGridReadsShownCells` | test.py:91-96 | A selection inside a table filled from the same file never reads outside the file. Every value read is the text the table shows in that cell. |
| `Chart.Assemble` | test.py:187-200 | With non-empty lists, X is the first entry's list. `yLst` has one slot per later entry: `2*(k-1)` elements for a known kind, `k-1` otherwise. Y series i sits at its slot, and for a known kind the kind's format string follows each series. |
| `Chart.SeriesAndMarkersAlternate` | test.py:194-200 | For a known kind, `yLst` has `2*(k-1)` elements and holds a series exactly at its even positions. |
| `Chart.Annotations` | test.py:215-217 | For an index rule `at`, the loop succeeds exactly when every `yLst[at(an)][0]` is in bounds. Annotation `an` then carries label `an` at that value. Otherwise the loop stops at the first annotation whose read is out of bounds. |
| `Chart.AnnotateAsWritten` | test.py:215-217 | The loop with the code's index: it succeeds exactly when every `yLst[an if an%2==0 else an+1][0]` can be read. On success there is one annotation per label, carrying that label at the first item of the element it indexes. On failure the reported label is the first whose read is out of bounds. |
| `Chart.AsWrittenIndexReadsSeries` | test.py:215-216 | For a known kind and every annotation `an < k-1`, the index `an if an%2==0 else an+1` is even and inside `yLst`. It therefore reads a series, never a format string: Y column `(an+1)/2`. |
| `Chart.AnnotateAsWrittenPlacement` | test.py:215-217 | For a known kind, the annotation loop as written never fails. Annotation `an` sits at the first value of Y column `(an+1)/2`. |
| `Chart.AsWrittenMatchesIntentOnlyForFirstTwo` | test.py:215-217 | The index as written equals the intended `2*an` exactly when `an < 2`. |
| `Chart.AsWrittenMisplacesThirdAnnotation` | test.py:215-217 | With three Y columns drawn as lines, the third annotation sits at the second Y column's first value ("20"), not its own ("30"). |
| `Chart.AnnotateAsWrittenWithoutMarkers` | test.py:193-200 | For a kind with no format string, `yLst` holds only series. The loop as written then fails exactly when the number of Y columns is even and non-zero, on the last annotation. |
| `Chart.AnnotateMarksOwnColumn` | test.py:174-177 | The corrected loop places annotation `an` at the first value of Y column `an`, for every chart kind, when there are no more labels than Y columns. |
| `Chart.AnnotateReportsMissingSeries` | test.py:215-216 | With more labels than Y columns, the corrected loop reports an error at the first label that has no column. |
| `Chart.AnnotateSucceedsIffEnoughSeries` | test.py:215-216 | The corrected loop succeeds exactly when every label has a Y column. |
| `Chart.AnnotateAgreesWithAsWrittenOnFirstTwo` | test.py:215-217 | For a known kind with one label per Y column, annotations 0 and 1 of the loop as written are the same annotations as the corrected loop's. |
| `Chart.AnnotateAsWrittenOutcome` | test.py:187-217 | The loop as written, for every kind, with one label per Y column: it fails only for a kind without a format string and an even, non-zero number of Y columns, on the last label. When it succeeds, annotation `an` sits at the first value of Y column `(an+1)/2` for a known kind and of Y column `an` or `an+1` otherwise. |
| `Chart.Render` | test.py:183-217 | For an index rule `at`: `_plot_chart` gets through the annotation loop exactly when every `yLst[at(an)][0]` can be read, and otherwise fails at the first label whose read cannot. `ax.plot` is called exactly for a known kind, and the axes carry the given labels. With non-empty lists, X is the first entry and every Y series sits at its slot. Annotation `an` carries label `an` at `yLst[at(an)][0]`. |
| `Plot.Draw` | test.py:164 | `_plot_chart` called with the axis labels "X-values" and "Y values" and every collected header but the first. On success the axes carry those labels and, when a header was collected, annotation `an` carries header `an+1`, one per Y header. A failure names a Y header's position. |
| `Plot.PlotWith` | test.py:145-164 | One button press for an index rule. An empty selection gives `NothingSelected` and nothing else does. Grouping fails exactly when a selected cell is outside the file, at the first such cell. Otherwise the grouping comes from the selection and the outcome is exactly `Plot.Draw`'s: a figure on success, its error wrapped on failure. |
| `Plot.DrawAsWritten` | test.py:164-217 | For a grouping of `n` columns handed to `_plot_chart` with the code's index: the annotation loop fails only for a kind without a format string when `n` is odd and at least 3, at label `n-2`. Otherwise the call gets through the annotation loop, after `ax.plot` for the three button kinds (other kinds skip `ax.plot`); the figure has X as the first column and each Y series at its slot. Annotation `an` carries the header of column `an+1` but sits at the first value of column `(an+1)/2+1` for a known kind. For any other kind it is column `an+1` or `an+2`, whichever has an odd position. |
| `Plot.DrawCorrected` | test.py:174-177 | With the intended index, every grouping gets through the annotation loop, after `ax.plot` for the three button kinds (other kinds skip `ax.plot`), with the same layout. Annotation `an` carries the header of column `an+1` at that column's own first value. |
| `Plot.PlotChart` | test.py:145-217 | The code's button press. An empty selection returns early and `_plot_chart` is not called. A non-empty selection inside the file reaches `ax.plot` and the annotation loop for the three button kinds. Any other kind skips `ax.plot`, and it fails in the annotation loop exactly when the number of distinct selected columns is odd and at least 3. A selection reaching outside the file fails at its first such cell. |
| `Plot.PlotChartCorrected` | test.py:145-164 | With the intended annotation index, a non-empty selection gets through the annotation loop exactly when every selected cell lies inside the file, whatever the kind; `ax.plot` is called before it only for the three button kinds. Otherwise the model's only failure is the first cell outside it. |
| `Plot.GroupingReadsColumns` | test.py:152-160 | For a non-empty selection inside the file, the first key is the first selected cell's column. Every key's list is that column's selected cells, and its label is the column's header `csv[0][c]`. |
| `Plot.PlotChartShowsSelectedColumns` | test.py:145-217 | End to end for a figure the code builds and annotates; it is handed to `ax.plot` only for the three button kinds, as `plotted` records. X is the first selected cell's column, and every other distinct column is a Y series at its slot, in first-encounter order. Y column `an` is annotated with its own header `csv[0][c]`, but at the first selected value of key `(an+1)/2+1` for the three button kinds. For any other kind it is key `an+1` or `an+2`, whichever has an odd position. |
| `Plot.PlotChartCorrectedShowsSelectedColumns` | test.py:174-177 | End to end with the intended index, for a non-empty selection inside the file: the call gets through the annotation loop (after `ax.plot` for the three button kinds) with the same layout, and Y column `an` is annotated with its header at its own first selected value. |

## Left out

- Qt widget construction, layouts, menus (the unwired "Load CSV" action included), stylesheets, window geometry and the event loop: GUI plumbing with no data logic.
- Opening the file and `csv.reader` parsing: I/O plus a library parser; the parsed rows are a parameter.
- The second file read in `plot_chart`: plotting re-reads the file, not the edited widget. The model uses the same parsed rows for the table and the plot.
- The matplotlib figure, canvas, toolbar, fonts, the fixed 0.1 x position of annotations and `canvas.draw()`: a foreign plotting library and floating point. `Figure` records only what is passed to it.
- Numeric interpretation of cells: matplotlib does that; cells stay text here.
- `print` statements: debugging output only.
- The order in which Qt enumerates `selectedIndexes()`: it is an arbitrary input sequence here.
- The dict key `str(c)`: modelled as the column number itself, because `str` is injective on non-negative integers.
- Table items set before an `IndexError` in `initTable`: the exception leaves no table behind, so a failure carries no grid.
- `Chart.Render`: `ax.plot`'s own checks are not modelled. matplotlib raises `ValueError` when X and the first Y series differ in length (for instance a file `[["A","B"],["1","2"],["3","4"]]` with cells (0,0), (1,0), (0,1) selected), so success means the arguments were assembled and every annotation read succeeded.
- `Plot.Draw`: same as `Chart.Render`; a successful result does not promise that `ax.plot` accepts its arguments.
- `Plot.DrawAsWritten`: same as `Chart.Render`; success is stated up to `ax.plot`'s own length check.
- `Plot.DrawCorrected`: same as `Chart.Render`; success is stated up to `ax.plot`'s own length check.
- `Plot.PlotWith`: same as `Chart.Render`; `Drawn` means the arguments were assembled and every annotation read succeeded, not that matplotlib accepted them.
- `Plot.PlotChart`: `ax.plot`'s own checks are not modelled. matplotlib raises `ValueError` when X and the first Y series differ in length, so `Drawn` means the arguments were assembled and every annotation read succeeded.
- `Plot.PlotChartCorrected`: same as `Plot.PlotChart`; the first cell outside the file is the only failure the model reports, not the only one matplotlib can raise.
- `Plot.PlotChartShowsSelectedColumns`: same as `Plot.PlotChart`; for the three button kinds the figure described is what is passed to `ax.plot`, which may still reject series of unequal length.
- `Plot.PlotChartCorrectedShowsSelectedColumns`: same as `Plot.PlotChart`; `Drawn` does not promise that matplotlib accepts series of unequal length.

## Findings

| source | as written | input that shows it | evidently intended | confidence | as-written member | corrected member |
|---|---|---|---|---|---|---|
| test.py:215-217 | annotation `an` is placed at `yLst[an if an % 2 == 0 else an + 1][0]`, which is the first value of Y column `(an+1)/2` | three Y columns with first values 10, 20, 30 plotted as lines: the third annotation lands at 20 | the comment at test.py:217 and the docstring at test.py:174-177: annotation `an` at the first value of its own column, `yLst[2*an][0]` | not executed; high, the index arithmetic is exact | `Chart.AsWrittenMisplacesThirdAnnotation` | `Chart.AnnotateMarksOwnColumn` |
