/**
 The grouping loop of `plot_chart`: the selected cells are read from the file
 and collected per column into an insertion-ordered dict, and the header of
 every newly met column is collected as an annotation label.
 */
module Grouping {
  import opened Wrappers
  import opened Table
  import opened InsertionMap

  /**
   `selectedItemsByCols` and `anotationLabel`. The Python dict is keyed by
   `str(c)`; that is injective on columns, so the column itself is the key here.
   */
  datatype Grouped = Grouped(byColumn: Dict<nat, Cell>, labels: seq<Cell>)

  /** The selection entry at `position` reads outside the file (an `IndexError`). */
  datatype GroupError = IndexOutOfRange(position: nat)

  /** The file cell a selected grid cell stands for: grid row r is file row r + 1. */
  predicate Readable(csv: Csv, index: Index)
  {
    index.row + 1 < |csv| && index.column < |csv[0]| && index.column < |csv[index.row + 1]|
  }

  predicate AllReadable(csv: Csv, sel: seq<Index>)
  {
    forall k :: 0 <= k < |sel| ==> Readable(csv, sel[k])
  }

  /** `k` is the first selection entry that reads outside the file. */
  predicate FirstUnreadable(csv: Csv, sel: seq<Index>, k: nat)
  {
    k < |sel| && !Readable(csv, sel[k]) && forall j :: 0 <= j < k ==> Readable(csv, sel[j])
  }

  function CellAt(csv: Csv, index: Index): Cell
    requires Readable(csv, index)
  {
    csv[index.row + 1][index.column]
  }

  /** The selected columns, in selection order, repeats included. */
  function Columns(sel: seq<Index>): seq<nat>
  {
    seq(|sel|, k requires 0 <= k < |sel| => sel[k].column)
  }

  /** Reference definition: the cells of column `c` among the selection, in selection order. */
  function ColumnValues(csv: Csv, sel: seq<Index>, c: nat): seq<Cell>
    requires AllReadable(csv, sel)
  {
    if |sel| == 0 then []
    else (if sel[0].column == c then [CellAt(csv, sel[0])] else []) + ColumnValues(csv, sel[1..], c)
  }

  /** `ks` after meeting `c`: unchanged if `c` is already there, else `c` goes last. */
  function AddKey(ks: seq<nat>, c: nat): seq<nat>
  {
    if c in ks then ks else ks + [c]
  }

  /**
   What the loop keeps true: keys are distinct, there is one label per key and
   it is that column's header, and no key has an empty list.
   */
  predicate WellGrouped(csv: Csv, g: Grouped)
  {
    && Distinct(Keys(g.byColumn))
    && |g.labels| == |g.byColumn|
    && (forall i :: 0 <= i < |g.byColumn| ==>
          |csv| > 0 && g.byColumn[i].0 < |csv[0]| && g.labels[i] == csv[0][g.byColumn[i].0])
    && (forall i :: 0 <= i < |g.byColumn| ==> |g.byColumn[i].1| > 0)
  }

  /**
   One iteration for the selected grid cell `index`. A known column only reads
   the data cell; a new column reads its header first, then the data cell.
   */
  function Step(csv: Csv, g: Grouped, index: Index): Option<Grouped>
  {
    var r := index.row + 1;
    var c := index.column;
    if c in Keys(g.byColumn) then
      if r < |csv| && c < |csv[r]| then Some(Grouped(Append(g.byColumn, c, csv[r][c]), g.labels))
      else None
    else
      if |csv| > 0 && c < |csv[0]| && r < |csv| && c < |csv[r]|
      then Some(Grouped(Append(g.byColumn, c, csv[r][c]), g.labels + [csv[0][c]]))
      else None
  }

  /**
   The whole loop over `selectedIndexes()`, taken in the order given. Every
   selected cell ends up in exactly one list, so the list lengths add up to the
   number of selected cells.
   */
  function GroupBy(csv: Csv, sel: seq<Index>): (res: Result<Grouped, GroupError>)
    ensures res.Success? <==> AllReadable(csv, sel)
    ensures res.Failure? ==> FirstUnreadable(csv, sel, res.error.position)
    ensures res.Success? ==> WellGrouped(csv, res.value)
    ensures res.Success? ==> Size(res.value.byColumn) == |sel|
  {
    if |sel| == 0 then Success(Grouped([], []))
    else
      var n := |sel| - 1;
      var p := sel[..n];
      ReadablePrefix(csv, sel);
      match GroupBy(csv, p)
      case Failure(e) => Failure(e)
      case Success(g) =>
        StepSucceedsIffReadable(csv, g, sel[n]);
        match Step(csv, g, sel[n])
        case None => Failure(IndexOutOfRange(n))
        case Some(g') =>
          StepKeepsWellGrouped(csv, g, sel[n]);
          Success(g')
  }

  /** How readability of a selection follows from its prefix and its last cell. */
  lemma ReadablePrefix(csv: Csv, sel: seq<Index>)
    requires |sel| > 0
    ensures var n := |sel| - 1;
            && (AllReadable(csv, sel) <==> AllReadable(csv, sel[..n]) && Readable(csv, sel[n]))
            && (forall k :: FirstUnreadable(csv, sel[..n], k) ==> FirstUnreadable(csv, sel, k))
            && (AllReadable(csv, sel[..n]) && !Readable(csv, sel[n]) ==> FirstUnreadable(csv, sel, n))
  {
    var n := |sel| - 1;
    assert forall j :: 0 <= j < n ==> sel[j] == sel[..n][j];
  }

  /** One iteration keeps the loop's invariant. */
  lemma StepKeepsWellGrouped(csv: Csv, g: Grouped, index: Index)
    requires WellGrouped(csv, g)
    requires Step(csv, g, index).Some?
    ensures WellGrouped(csv, Step(csv, g, index).value)
  {
    var c := index.column;
    var m := g.byColumn;
    var r := Append(m, c, csv[index.row + 1][c]);
    AppendValues(m, c, csv[index.row + 1][c]);
    if c in Keys(m) {
      assert Keys(r) == Keys(m);
      forall i | 0 <= i < |r|
        ensures r[i].0 == m[i].0
      {
        assert r[i].0 == Keys(r)[i];
      }
    } else {
      assert Keys(r) == Keys(m) + [c];
      forall i | 0 <= i < |m|
        ensures r[i].0 == m[i].0
      {
        assert r[i].0 == Keys(r)[i];
      }
    }
  }

  /** Once the loop's invariant holds, one iteration fails exactly on a cell outside the file. */
  lemma StepSucceedsIffReadable(csv: Csv, g: Grouped, index: Index)
    requires WellGrouped(csv, g)
    ensures Step(csv, g, index).Some? <==> Readable(csv, index)
  {
    var c := index.column;
    if c in Keys(g.byColumn) {
      var i :| 0 <= i < |g.byColumn| && Keys(g.byColumn)[i] == c;
      assert g.byColumn[i].0 < |csv[0]|;
    }
  }

  /** Appending one cell to the selection extends the column it belongs to. */
  lemma {:induction false} ColumnValuesSnoc(csv: Csv, sel: seq<Index>, c: nat)
    requires |sel| > 0 && AllReadable(csv, sel)
    ensures AllReadable(csv, sel[..|sel| - 1])
    ensures ColumnValues(csv, sel, c)
         == ColumnValues(csv, sel[..|sel| - 1], c)
            + (if sel[|sel| - 1].column == c then [CellAt(csv, sel[|sel| - 1])] else [])
    decreases |sel|
  {
    var n := |sel| - 1;
    if n > 0 {
      assert sel[1..][..n - 1] == sel[..n][1..];
      ColumnValuesSnoc(csv, sel[1..], c);
    }
  }

  /**
   The list stored under each column holds exactly that column's selected cells,
   in selection order; a column that was not selected has no list.
   */
  lemma {:induction false} GroupByCollectsColumns(csv: Csv, sel: seq<Index>)
    requires GroupBy(csv, sel).Success?
    ensures AllReadable(csv, sel)
    ensures forall c :: Get(GroupBy(csv, sel).value.byColumn, c) == ColumnValues(csv, sel, c)
  {
    if |sel| > 0 {
      var n := |sel| - 1;
      var p := sel[..n];
      GroupByCollectsColumns(csv, p);
      var g := GroupBy(csv, p).value;
      var m := GroupBy(csv, sel).value.byColumn;
      assert m == Append(g.byColumn, sel[n].column, CellAt(csv, sel[n]));
      AppendValues(g.byColumn, sel[n].column, CellAt(csv, sel[n]));
      forall c
        ensures Get(m, c) == ColumnValues(csv, sel, c)
      {
        ColumnValuesSnoc(csv, sel, c);
      }
    }
  }

  /**
   `ks` lists each element of `cols` exactly once, ordered by where it first
   occurs in `cols`: wherever a later element of `ks` occurs in `cols`, every
   earlier element of `ks` has already occurred.
   */
  predicate InFirstEncounterOrder(ks: seq<nat>, cols: seq<nat>)
  {
    && Distinct(ks)
    && (forall c :: c in ks ==> c in cols)
    && (forall c :: c in cols ==> c in ks)
    && (forall i, j, q :: 0 <= i < j < |ks| && 0 <= q < |cols| && cols[q] == ks[j] ==> ks[i] in cols[..q])
  }

  /** Meeting one more column keeps the order: a new column goes last, a known one changes nothing. */
  lemma FirstEncounterSnoc(ks: seq<nat>, cols: seq<nat>, c: nat)
    requires InFirstEncounterOrder(ks, cols)
    ensures InFirstEncounterOrder(AddKey(ks, c), cols + [c])
  {
    var cols' := cols + [c];
    var ks' := AddKey(ks, c);
    assert cols'[..|cols|] == cols;
    forall i, j, q | 0 <= i < j < |ks'| && 0 <= q < |cols'| && cols'[q] == ks'[j]
      ensures ks'[i] in cols'[..q]
    {
      assert ks'[i] == ks[i];
      if q < |cols| {
        assert cols'[..q] == cols[..q];
        assert cols[q] == ks'[j];
      } else {
        assert ks[i] in cols;
      }
    }
  }

  lemma ColumnsSnoc(sel: seq<Index>)
    requires |sel| > 0
    ensures Columns(sel) == Columns(sel[..|sel| - 1]) + [sel[|sel| - 1].column]
  {
  }

  /** The keys after one more cell: its column is added at the end if it is new. */
  lemma GroupByKeysSnoc(csv: Csv, sel: seq<Index>)
    requires |sel| > 0 && GroupBy(csv, sel).Success?
    ensures GroupBy(csv, sel[..|sel| - 1]).Success?
    ensures Keys(GroupBy(csv, sel).value.byColumn)
         == AddKey(Keys(GroupBy(csv, sel[..|sel| - 1]).value.byColumn), sel[|sel| - 1].column)
  {
  }

  /**
   The keys are the distinct selected columns, each once, ordered by where the
   column is first met in the selection.
   */
  lemma {:induction false} GroupByKeysInFirstEncounterOrder(csv: Csv, sel: seq<Index>)
    requires GroupBy(csv, sel).Success?
    ensures InFirstEncounterOrder(Keys(GroupBy(csv, sel).value.byColumn), Columns(sel))
  {
    if |sel| > 0 {
      var n := |sel| - 1;
      var p := sel[..n];
      var c := sel[n].column;
      GroupByKeysSnoc(csv, sel);
      GroupByKeysInFirstEncounterOrder(csv, p);
      ColumnsSnoc(sel);
      FirstEncounterSnoc(Keys(GroupBy(csv, p).value.byColumn), Columns(p), c);
    }
  }

  /** The first key is the column of the first selected cell. */
  lemma FirstKeyIsFirstSelectedColumn(csv: Csv, sel: seq<Index>)
    requires |sel| > 0 && GroupBy(csv, sel).Success?
    ensures |GroupBy(csv, sel).value.byColumn| > 0
    ensures GroupBy(csv, sel).value.byColumn[0].0 == sel[0].column
  {
    GroupByKeysInFirstEncounterOrder(csv, sel);
    var ks := Keys(GroupBy(csv, sel).value.byColumn);
    var cols := Columns(sel);
    assert cols[0] == sel[0].column;
    assert sel[0].column in ks;
    var j :| 0 <= j < |ks| && ks[j] == cols[0];
    assert forall i :: 0 <= i < j ==> ks[i] in cols[..0];
  }

  /**
   A selection made in a table filled from the same file never reads outside
   it, and every value read is the text the table shows in that cell.
   */
  lemma SelectionInGridReadsShownCells(csv: Csv, g: Grid, sel: seq<Index>)
    requires Shows(g, csv)
    requires forall k :: 0 <= k < |sel| ==> InGrid(g, sel[k])
    ensures GroupBy(csv, sel).Success?
    ensures AllReadable(csv, sel)
    ensures forall k :: 0 <= k < |sel| ==> CellAt(csv, sel[k]) == g.items[sel[k].row][sel[k].column]
  {
    forall k | 0 <= k < |sel|
      ensures Readable(csv, sel[k])
    {
      assert InGrid(g, sel[k]);
      assert |g.items[sel[k].row]| == |csv[0]|;
    }
  }
}
