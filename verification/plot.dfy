/**
 `plot_chart` end to end: an empty selection does nothing; otherwise the
 selected cells are grouped by column and handed to the chart with fixed axis
 labels and every collected header except the first as annotation labels.
 */
module Plot {
  import opened Wrappers
  import opened Table
  import opened InsertionMap
  import opened Grouping
  import opened Chart

  /** What `plot_chart` can raise. */
  datatype PlotError = GroupingFailed(grouping: GroupError) | RenderingFailed(rendering: ChartError)

  /** The outcome of one button press. */
  datatype PlotOutcome =
    | NothingSelected        // the early `return False`: nothing is read or drawn
    | Failed(error: PlotError)
    | Drawn(figure: Figure)  // every annotation read succeeded (`figure.plotted` says whether `ax.plot` was called)

  /** `s[1:]`: the list without its first element, empty for an empty list. */
  function DropFirst<T>(s: seq<T>): (r: seq<T>)
    ensures |s| > 0 ==> |r| == |s| - 1 && forall i :: 0 <= i < |r| ==> r[i] == s[i + 1]
    ensures |s| == 0 ==> r == []
  {
    if |s| == 0 then [] else s[1..]
  }

  /** A grouping produced from a non-empty selection inside the file. */
  predicate FromSelection(g: Grouped)
  {
    |g.byColumn| > 0 && |g.labels| == |g.byColumn| && NonEmptyValues(g.byColumn)
  }

  /**
   `_plot_chart` called with the grouping, the fixed axis labels and every
   collected header but the first as annotation labels.
   */
  function Draw(g: Grouped, kind: string, at: nat -> nat): (r: Result<Figure, ChartError>)
    ensures r.Success? ==> r.value.xLabel == "X-values" && r.value.yLabel == "Y values"
    ensures r.Success? && |g.labels| > 0 ==>
              && |r.value.annotations| == |g.labels| - 1
              && forall an :: 0 <= an < |g.labels| - 1 ==> r.value.annotations[an].text == g.labels[an + 1]
    ensures r.Failure? ==> |g.labels| > 0 && r.error.an < |g.labels| - 1
  {
    Render(g.byColumn, "X-values", "Y values", DropFirst(g.labels), kind, at)
  }

  /**
   `f` lays out grouping `g`: X is the first column's list, Y series `i` is the
   list of column `i + 1` at its slot, the axes carry the fixed labels, and there
   is one annotation per column after the first.
   */
  predicate LaysOut(f: Figure, g: Grouped, kind: string)
    requires |g.byColumn| > 0
  {
    && f.plotted == MarkerFor(kind).Some?
    && f.xLabel == "X-values" && f.yLabel == "Y values"
    && f.x == g.byColumn[0].1
    && |f.ys| == Slot(kind, |g.byColumn| - 1)
    && (forall i :: 0 <= i < |g.byColumn| - 1 ==> f.ys[Slot(kind, i)] == Series(g.byColumn[i + 1].1))
    && |f.annotations| == |g.byColumn| - 1
  }

  /**
   `f` annotates grouping `g` by rule `pick`: annotation `an` carries the
   header of column `an + 1` and sits at the first value of column `pick(an) + 1`.
   */
  predicate Places(f: Figure, g: Grouped, pick: nat -> nat)
    requires FromSelection(g)
  {
    && |f.annotations| == |g.byColumn| - 1
    && forall an :: 0 <= an < |g.byColumn| - 1 ==>
         && pick(an) < |g.byColumn| - 1
         && f.annotations[an] == Annotation(g.labels[an + 1], g.byColumn[pick(an) + 1].1[0])
  }

  /** The Y column the code's index reads for each annotation. */
  function AsWrittenColumns(kind: string): nat -> nat
  {
    (an: nat) => ColumnReadAsWritten(kind, an)
  }

  /** The intended rule: each annotation at its own Y column. */
  function OwnColumns(): nat -> nat
  {
    (an: nat) => an
  }

  /** Whatever the index rule, a drawn grouping is laid out column by column. */
  lemma DrawLaysOut(g: Grouped, kind: string, at: nat -> nat)
    requires FromSelection(g) && Draw(g, kind, at).Success?
    ensures LaysOut(Draw(g, kind, at).value, g, kind)
  {
  }

  /**
   With the code's index, `_plot_chart` on a grouping with `n` columns fails
   only for a kind without a format string when `n` is odd and at least three,
   on the last label. Otherwise it gets through the annotation loop, after
   `ax.plot` for the three button kinds (other kinds skip `ax.plot`), and
   annotation `an` carries the header of column `an + 1` but sits at the first
   value of column `ColumnReadAsWritten(kind, an) + 1`.
   */
  lemma DrawAsWritten(g: Grouped, kind: string)
    requires FromSelection(g)
    ensures var d := Draw(g, kind, AnnotationIndexAsWritten);
            var n := |g.byColumn|;
            && (d.Success? <==> MarkerFor(kind).Some? || n % 2 == 0 || n == 1)
            && (d.Failure? ==> d.error.an + 2 == n)
            && (d.Success? ==> LaysOut(d.value, g, kind) && Places(d.value, g, AsWrittenColumns(kind)))
  {
    AnnotateAsWrittenOutcome(g.byColumn, kind, DropFirst(g.labels));
    var d := Draw(g, kind, AnnotationIndexAsWritten);
    if d.Success? {
      DrawLaysOut(g, kind, AnnotationIndexAsWritten);
    }
  }

  /**
   With the corrected index, `_plot_chart` always gets through the annotation
   loop, after `ax.plot` for the three button kinds (other kinds skip
   `ax.plot`), and annotation `an` sits at the first value of its own column
   `an + 1`.
   */
  lemma DrawCorrected(g: Grouped, kind: string)
    requires FromSelection(g)
    ensures var d := Draw(g, kind, SeriesIndex(kind));
            && d.Success?
            && LaysOut(d.value, g, kind)
            && Places(d.value, g, OwnColumns())
  {
    AnnotateMarksOwnColumn(g.byColumn, kind, DropFirst(g.labels));
    DrawLaysOut(g, kind, SeriesIndex(kind));
  }

  /**
   One press of a plot button with chart kind `kind`, annotating with index rule
   `at`. The file read for plotting is taken to be the same `csv` the table was
   filled from.
   */
  function PlotWith(csv: Csv, sel: seq<Index>, kind: string, at: nat -> nat): (r: PlotOutcome)
    ensures r.NothingSelected? <==> |sel| == 0
    ensures (r.Failed? && r.error.GroupingFailed?) <==> |sel| > 0 && !AllReadable(csv, sel)
    ensures r.Failed? && r.error.GroupingFailed? ==> FirstUnreadable(csv, sel, r.error.grouping.position)
    ensures |sel| > 0 && AllReadable(csv, sel) ==>
              && FromSelection(GroupBy(csv, sel).value)
              && var d := Draw(GroupBy(csv, sel).value, kind, at);
                 && (r.Drawn? <==> d.Success?)
                 && (r.Drawn? ==> r.figure == d.value)
                 && (r.Failed? ==> r.error == RenderingFailed(d.error))
  {
    if |sel| == 0 then NothingSelected
    else
      match GroupBy(csv, sel)
      case Failure(e) => Failed(GroupingFailed(e))
      case Success(g) =>
        assert |g.byColumn| > 0;
        match Draw(g, kind, at)
        case Failure(e) => Failed(RenderingFailed(e))
        case Success(f) => Drawn(f)
  }

  /**
   `plot_chart` as written. For the three kinds the buttons pass, every
   selection that lies inside the file reaches `ax.plot` and then the
   annotation loop. Any other kind skips `ax.plot`, and its annotation index
   runs off the end of `yLst` when the number of distinct selected columns is
   odd and at least three.
   */
  function PlotChart(csv: Csv, sel: seq<Index>, kind: string): (r: PlotOutcome)
    ensures r.NothingSelected? <==> |sel| == 0
    ensures r.Drawn? <==>
              && |sel| > 0 && AllReadable(csv, sel)
              && (MarkerFor(kind).Some?
                  || |GroupBy(csv, sel).value.byColumn| % 2 == 0
                  || |GroupBy(csv, sel).value.byColumn| == 1)
    ensures r.Failed? && r.error.GroupingFailed? ==> FirstUnreadable(csv, sel, r.error.grouping.position)
    ensures r.Failed? && r.error.RenderingFailed? ==>
              && |sel| > 0 && AllReadable(csv, sel) && MarkerFor(kind).None?
              && r.error.rendering.an + 2 == |GroupBy(csv, sel).value.byColumn|
  {
    var r := PlotWith(csv, sel, kind, AnnotationIndexAsWritten);
    if |sel| > 0 && AllReadable(csv, sel) then
      DrawAsWritten(GroupBy(csv, sel).value, kind);
      r
    else r
  }

  /**
   `plot_chart` with the annotation index its comment describes: every selection
   that lies inside the file gets through the annotation loop, whatever the
   kind; `ax.plot` is called before it only for the three button kinds.
   */
  function PlotChartCorrected(csv: Csv, sel: seq<Index>, kind: string): (r: PlotOutcome)
    ensures r.NothingSelected? <==> |sel| == 0
    ensures r.Drawn? <==> |sel| > 0 && AllReadable(csv, sel)
    ensures r.Failed? ==> r.error.GroupingFailed? && FirstUnreadable(csv, sel, r.error.grouping.position)
  {
    var r := PlotWith(csv, sel, kind, SeriesIndex(kind));
    if |sel| > 0 && AllReadable(csv, sel) then
      DrawCorrected(GroupBy(csv, sel).value, kind);
      r
    else r
  }

  /**
   The grouping of a selection inside the file, in terms of the file: the keys
   are the distinct selected columns with the first selected cell's column
   first; each key's list is that column's selected cells and its label is the
   column's header.
   */
  lemma GroupingReadsColumns(csv: Csv, sel: seq<Index>)
    requires |sel| > 0 && AllReadable(csv, sel)
    ensures var g := GroupBy(csv, sel).value;
            var ks := Keys(g.byColumn);
            && ReadsColumns(csv, sel, g)
            && ks[0] == sel[0].column
  {
    assert Readable(csv, sel[0]);
    var g := GroupBy(csv, sel).value;
    var ks := Keys(g.byColumn);
    assert WellGrouped(csv, g);
    FirstKeyIsFirstSelectedColumn(csv, sel);
    assert NonEmptyValues(g.byColumn);
    GroupByCollectsColumns(csv, sel);
    forall i | 0 <= i < |ks|
      ensures ks[i] < |csv[0]| && g.labels[i] == csv[0][ks[i]]
      ensures g.byColumn[i].1 == ColumnValues(csv, sel, ks[i])
    {
      assert ks[i] == g.byColumn[i].0;
      GetAt(g.byColumn, i);
    }
    assert SelectedColumns(csv, sel, ks);
  }

  /** Every key is a column of the file with at least one selected cell. */
  predicate SelectedColumns(csv: Csv, sel: seq<Index>, ks: seq<nat>)
    requires AllReadable(csv, sel)
  {
    |csv| > 0 && forall i :: 0 <= i < |ks| ==> ks[i] < |csv[0]| && |ColumnValues(csv, sel, ks[i])| > 0
  }

  /**
   `g` reads the selected columns of `csv`: every key is a selected column of
   the file, its list is that column's selected cells and its label the
   column's header.
   */
  predicate ReadsColumns(csv: Csv, sel: seq<Index>, g: Grouped)
    requires AllReadable(csv, sel)
  {
    && FromSelection(g)
    && SelectedColumns(csv, sel, Keys(g.byColumn))
    && (forall i :: 0 <= i < |g.byColumn| ==> g.labels[i] == csv[0][Keys(g.byColumn)[i]])
    && (forall i :: 0 <= i < |g.byColumn| ==> g.byColumn[i].1 == ColumnValues(csv, sel, Keys(g.byColumn)[i]))
  }

  /**
   `f` lays out the selected columns `ks` of `csv`: X is the first key's
   selected cells and every other key's selected cells form a Y series at its
   slot in `yLst`.
   */
  predicate ShowsColumns(f: Figure, csv: Csv, sel: seq<Index>, ks: seq<nat>, kind: string)
    requires AllReadable(csv, sel) && |ks| > 0
  {
    && f.x == ColumnValues(csv, sel, ks[0])
    && |f.ys| == Slot(kind, |ks| - 1)
    && (forall i :: 0 <= i < |ks| - 1 ==> f.ys[Slot(kind, i)] == Series(ColumnValues(csv, sel, ks[i + 1])))
  }

  /**
   `f` annotates the selected columns `ks`: there is one annotation per key
   after the first, and annotation `an` carries the header of key `an + 1` but
   sits at the first selected value of key `pick(an) + 1`.
   */
  predicate AnnotatesColumns(f: Figure, csv: Csv, sel: seq<Index>, ks: seq<nat>, pick: nat -> nat)
    requires AllReadable(csv, sel) && SelectedColumns(csv, sel, ks)
  {
    && |f.annotations| == |ks| - 1
    && forall an :: 0 <= an < |ks| - 1 ==>
         && pick(an) < |ks| - 1
         && f.annotations[an] == Annotation(csv[0][ks[an + 1]], ColumnValues(csv, sel, ks[pick(an) + 1])[0])
  }

  /** A grouping whose lists are the selected cells of its keys lays out exactly those columns. */
  lemma LaysOutColumns(csv: Csv, sel: seq<Index>, g: Grouped, f: Figure, kind: string)
    requires AllReadable(csv, sel) && ReadsColumns(csv, sel, g) && LaysOut(f, g, kind)
    ensures ShowsColumns(f, csv, sel, Keys(g.byColumn), kind)
  {
  }

  /**
   Annotations placed on a grouping whose lists are the selected cells of its
   keys, and whose labels are their headers, annotate those columns.
   */
  lemma AnnotationsReadColumns(csv: Csv, sel: seq<Index>, g: Grouped, f: Figure, pick: nat -> nat)
    requires AllReadable(csv, sel) && ReadsColumns(csv, sel, g) && Places(f, g, pick)
    ensures AnnotatesColumns(f, csv, sel, Keys(g.byColumn), pick)
  {
  }

  /**
   End to end, for a figure `f` the code builds (handed to `ax.plot` only for
   the three button kinds, as `f.plotted` records): with the keys `ks` in
   first-encounter order (`GroupByKeysInFirstEncounterOrder`), the first
   selected cell's column is X and every other column is a Y series at its
   slot. Y column `an` is annotated with its own header, but at the first
   selected value of Y column `ColumnReadAsWritten(kind, an)`.
   */
  lemma PlotChartShowsSelectedColumns(csv: Csv, sel: seq<Index>, kind: string, f: Figure)
    requires |sel| > 0 && AllReadable(csv, sel) && PlotChart(csv, sel, kind) == Drawn(f)
    ensures var ks := Keys(GroupBy(csv, sel).value.byColumn);
            && |ks| > 0 && ks[0] == sel[0].column
            && SelectedColumns(csv, sel, ks)
            && ShowsColumns(f, csv, sel, ks, kind)
            && AnnotatesColumns(f, csv, sel, ks, AsWrittenColumns(kind))
  {
    GroupingReadsColumns(csv, sel);
    var g := GroupBy(csv, sel).value;
    DrawAsWritten(g, kind);
    assert f == Draw(g, kind, AnnotationIndexAsWritten).value;
    LaysOutColumns(csv, sel, g, f, kind);
    AnnotationsReadColumns(csv, sel, g, f, AsWrittenColumns(kind));
  }

  /**
   End to end with the corrected index: for a selection inside the file, Y
   column `an` is annotated with its header at its own first selected value.
   */
  lemma PlotChartCorrectedShowsSelectedColumns(csv: Csv, sel: seq<Index>, kind: string)
    requires |sel| > 0 && AllReadable(csv, sel)
    ensures var ks := Keys(GroupBy(csv, sel).value.byColumn);
            var r := PlotChartCorrected(csv, sel, kind);
            && r.Drawn?
            && |ks| > 0 && ks[0] == sel[0].column
            && SelectedColumns(csv, sel, ks)
            && ShowsColumns(r.figure, csv, sel, ks, kind)
            && AnnotatesColumns(r.figure, csv, sel, ks, OwnColumns())
  {
    GroupingReadsColumns(csv, sel);
    var g := GroupBy(csv, sel).value;
    DrawCorrected(g, kind);
    var r := PlotChartCorrected(csv, sel, kind);
    assert r.figure == Draw(g, kind, SeriesIndex(kind)).value;
    LaysOutColumns(csv, sel, g, r.figure, kind);
    AnnotationsReadColumns(csv, sel, g, r.figure, OwnColumns());
  }
}
