/**
 The loaded CSV data and the table widget filled from it (`initTable`).
 The file is taken as already parsed: row 0 holds the column names, the
 remaining rows hold data cells, all as text.
 */
module Table {
  import opened Wrappers

  type Cell = string
  type Row = seq<Cell>

  /** The parsed file, header row first. */
  type Csv = seq<Row>

  /** Why filling the table fails; in Python both are an `IndexError`. */
  datatype TableError =
    | NoHeader            // the file has no rows, so there is no `csv_data[0]`
    | ShortRow(row: nat)  // file row `row` has fewer cells than the header

  /** The table widget: its column titles and the text of every item, row by row. */
  datatype Grid = Grid(headers: seq<Cell>, items: seq<Row>)

  /** A cell of the table widget, as `selectedIndexes()` reports it. */
  datatype Index = Index(row: nat, column: nat)

  /** There is a header and every data row has at least as many cells as the header. */
  predicate WideEnough(csv: Csv)
  {
    |csv| > 0 && forall i :: 1 <= i < |csv| ==> |csv[i]| >= |csv[0]|
  }

  /** `i` is the first data row of the file that is narrower than the header. */
  predicate FirstShortRow(csv: Csv, i: nat)
  {
    && 1 <= i < |csv|
    && |csv[i]| < |csv[0]|
    && forall j :: 1 <= j < i ==> |csv[j]| >= |csv[0]|
  }

  /**
   The grid shows the file: the header gives the column titles, there is one
   grid row per data row, and grid cell (r, c) holds file cell (r + 1, c).
   */
  predicate Shows(g: Grid, csv: Csv)
  {
    && |csv| > 0
    && g.headers == csv[0]
    && |g.items| == |csv| - 1
    && forall r :: 0 <= r < |g.items| ==>
         && |g.items[r]| == |csv[0]|
         && |csv[r + 1]| >= |csv[0]|
         && forall c :: 0 <= c < |csv[0]| ==> g.items[r][c] == csv[r + 1][c]
  }

  /** `index` names a cell of the grid. */
  predicate InGrid(g: Grid, index: Index)
  {
    index.row < |g.items| && index.column < |g.headers|
  }

  /**
   Fills the table: `len(csv) - 1` rows, `len(csv[0])` columns, item (r, c)
   taken from file row r + 1. Cells beyond the header's width are ignored;
   a missing header or a data row narrower than the header fails the way
   the Python indexing does.
   */
  method InitTable(csv: Csv) returns (res: Result<Grid, TableError>)
    ensures res.Success? <==> WideEnough(csv)
    ensures res.Success? ==> Shows(res.value, csv)
    ensures |csv| == 0 ==> res == Failure(NoHeader)
    ensures res.Failure? && |csv| > 0 ==> res.error.ShortRow? && FirstShortRow(csv, res.error.row)
  {
    if |csv| == 0 {
      return Failure(NoHeader);
    }
    var width := |csv[0]|;
    var items: seq<Row> := [];
    var row := 0;
    while row < |csv| - 1
      invariant 0 <= row <= |csv| - 1
      invariant |items| == row
      invariant forall j :: 1 <= j <= row ==> |csv[j]| >= width
      invariant forall r :: 0 <= r < row ==>
                  |items[r]| == width && forall c :: 0 <= c < width ==> items[r][c] == csv[r + 1][c]
    {
      var source := csv[row + 1];
      var line: Row := [];
      var col := 0;
      while col < width
        invariant 0 <= col <= width
        invariant col <= |source|
        invariant |line| == col
        invariant forall c :: 0 <= c < col ==> line[c] == source[c]
      {
        if col >= |source| {
          return Failure(ShortRow(row + 1));
        }
        line := line + [source[col]];
        col := col + 1;
      }
      items := items + [line];
      row := row + 1;
    }
    return Success(Grid(csv[0], items));
  }
}
