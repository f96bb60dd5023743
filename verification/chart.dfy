/**
 The data reshaping inside `_plot_chart`: the first dict entry becomes the X
 series, every later entry is appended to `yLst` followed by the format string
 of the chart kind, and each Y column gets an annotation at a value read from
 `yLst`. Drawing itself (the checks `ax.plot` makes on its arguments, axes,
 fonts, the 0.1 x position, the canvas) is not modelled.
 */
module Chart {
  import opened Wrappers
  import opened Table
  import opened InsertionMap

  /** An element of `yLst`: a column's values, or the format string that follows them. */
  datatype PlotArg = Series(values: seq<Cell>) | Marker(format: string)

  /** The format string for each chart kind the buttons use; any other kind has none. */
  function MarkerFor(kind: string): Option<string>
  {
    if kind == "line" then Some("b")
    else if kind == "scatter" then Some("bo")
    else if kind == "sline" then Some("bo-")
    else None
  }

  /**
   Where Y series `i` sits in `yLst`: every series is followed by a format
   string when the kind is known, and stands alone otherwise.
   */
  function Slot(kind: string, i: nat): nat
  {
    if MarkerFor(kind).Some? then 2 * i else i
  }

  /** `xLst` and `yLst` once the loop over the dict is done. */
  datatype Assembled = Assembled(x: seq<Cell>, ys: seq<PlotArg>)

  /** No column's list is empty (grouping never produces an empty list). */
  predicate NonEmptyValues(data: Dict<nat, Cell>)
  {
    forall i :: 0 <= i < |data| ==> |data[i].1| > 0
  }

  /**
   The loop over `plot_data.items()`. An entry becomes X while `xLst` is still
   the empty list; afterwards each entry is appended to `yLst` followed by the
   kind's format string. With non-empty lists this makes the first entry X and
   lays the rest out as series, format, series, format, ...
   */
  function Assemble(data: Dict<nat, Cell>, kind: string): (a: Assembled)
    ensures NonEmptyValues(data) && |data| > 0 ==> a.x == data[0].1
    ensures NonEmptyValues(data) && |data| > 0 ==> |a.ys| == Slot(kind, |data| - 1)
    ensures NonEmptyValues(data) ==>
              forall i :: 0 <= i < |data| - 1 ==> a.ys[Slot(kind, i)] == Series(data[i + 1].1)
    ensures NonEmptyValues(data) && MarkerFor(kind).Some? ==>
              forall i :: 0 <= i < |data| - 1 ==> a.ys[2 * i + 1] == Marker(MarkerFor(kind).value)
  {
    if |data| == 0 then Assembled([], [])
    else
      var n := |data| - 1;
      var before := Assemble(data[..n], kind);
      var value := data[n].1;
      if before.x == [] then Assembled(value, before.ys)
      else
        var marker := match MarkerFor(kind) case Some(m) => [Marker(m)] case None => [];
        Assembled(before.x, before.ys + [Series(value)] + marker)
  }

  /** With a known kind, `yLst` holds a series exactly at its even positions. */
  lemma SeriesAndMarkersAlternate(data: Dict<nat, Cell>, kind: string)
    requires NonEmptyValues(data) && |data| > 0 && MarkerFor(kind).Some?
    ensures var ys := Assemble(data, kind).ys;
            |ys| == 2 * (|data| - 1) && forall j :: 0 <= j < |ys| ==> (ys[j].Series? <==> j % 2 == 0)
  {
    var ys := Assemble(data, kind).ys;
    forall j | 0 <= j < |ys|
      ensures ys[j].Series? <==> j % 2 == 0
    {
      var i := j / 2;
      if j % 2 == 0 {
        assert ys[Slot(kind, i)] == Series(data[i + 1].1);
      } else {
        assert ys[2 * i + 1] == Marker(MarkerFor(kind).value);
      }
    }
  }

  /** `yLst[i][0]`: a series' first value, or a format string's first character. */
  function First(arg: PlotArg): Option<Cell>
  {
    match arg
    case Series(v) => if |v| > 0 then Some(v[0]) else None
    case Marker(m) => if |m| > 0 then Some([m[0]]) else None
  }

  /** `yLst[i][0]` can be evaluated without an `IndexError`. */
  predicate CanRead(ys: seq<PlotArg>, i: nat)
  {
    i < |ys| && First(ys[i]).Some?
  }

  /** An annotation: its label and the y coordinate it is placed at. */
  datatype Annotation = Annotation(text: Cell, y: Cell)

  /** The annotation loop hit an index outside `yLst` (an `IndexError`). */
  datatype ChartError = AnnotationOutOfRange(an: nat)

  /**
   The annotation loop, for an index rule `at`: annotation `an` carries label
   `an` and is placed at `yLst[at(an)][0]`. It succeeds when every read is in
   bounds and otherwise stops at the first annotation whose read is not.
   */
  function Annotations(labels: seq<Cell>, ys: seq<PlotArg>, at: nat -> nat): (r: Result<seq<Annotation>, ChartError>)
    ensures r.Success? <==> forall an :: 0 <= an < |labels| ==> CanRead(ys, at(an))
    ensures r.Success? ==>
              && |r.value| == |labels|
              && forall an :: 0 <= an < |labels| ==> r.value[an] == Annotation(labels[an], First(ys[at(an)]).value)
    ensures r.Failure? ==>
              && r.error.an < |labels|
              && !CanRead(ys, at(r.error.an))
              && forall an :: 0 <= an < r.error.an ==> CanRead(ys, at(an))
  {
    if |labels| == 0 then Success([])
    else
      var n := |labels| - 1;
      match Annotations(labels[..n], ys, at)
      case Failure(e) => Failure(e)
      case Success(done) =>
        if CanRead(ys, at(n)) then Success(done + [Annotation(labels[n], First(ys[at(n)]).value)])
        else Failure(AnnotationOutOfRange(n))
  }

  /** The index the code reads for annotation `an`: `an` when even, `an + 1` when odd. */
  function AnnotationIndexAsWritten(an: nat): nat
  {
    if an % 2 == 0 then an else an + 1
  }

  /**
   The annotation loop as written: it gets through exactly when every index
   `an if an % 2 == 0 else an + 1` names an element of `yLst` with a first item,
   and then annotation `an` carries label `an` at that element's first item.
   Otherwise it stops at the first annotation whose read is out of bounds.
   */
  function AnnotateAsWritten(labels: seq<Cell>, ys: seq<PlotArg>): (r: Result<seq<Annotation>, ChartError>)
    ensures r.Success? <==> forall an :: 0 <= an < |labels| ==> CanRead(ys, AnnotationIndexAsWritten(an))
    ensures r.Success? ==>
              && |r.value| == |labels|
              && forall an :: 0 <= an < |labels| ==>
                   r.value[an] == Annotation(labels[an], First(ys[AnnotationIndexAsWritten(an)]).value)
    ensures r.Failure? ==>
              && r.error.an < |labels|
              && !CanRead(ys, AnnotationIndexAsWritten(r.error.an))
              && forall an :: 0 <= an < r.error.an ==> CanRead(ys, AnnotationIndexAsWritten(an))
  {
    Annotations(labels, ys, AnnotationIndexAsWritten)
  }

  /**
   The annotation loop as its comment describes it: annotation `an` is placed at
   the first value of Y column `an`, wherever that series sits in `yLst`.
   */
  function Annotate(labels: seq<Cell>, ys: seq<PlotArg>, kind: string): Result<seq<Annotation>, ChartError>
  {
    Annotations(labels, ys, SeriesIndex(kind))
  }

  /** The corrected index rule: annotation `an` reads Y series `an`. */
  function SeriesIndex(kind: string): nat -> nat
  {
    (an: nat) => Slot(kind, an)
  }

  /**
   With a known kind, the index as written is even and inside `yLst` for every
   Y column, so it always reads a series and never a format string; the series
   it reads is Y column `(an + 1) / 2`.
   */
  lemma AsWrittenIndexReadsSeries(data: Dict<nat, Cell>, kind: string, an: nat)
    requires NonEmptyValues(data) && |data| > 0 && MarkerFor(kind).Some?
    requires an < |data| - 1
    ensures var ys := Assemble(data, kind).ys;
            var i := AnnotationIndexAsWritten(an);
            && i % 2 == 0
            && i < |ys|
            && ys[i] == Series(data[(an + 1) / 2 + 1].1)
  {
    var k := (an + 1) / 2;
    assert AnnotationIndexAsWritten(an) == Slot(kind, k);
  }

  /**
   With a known kind the annotation loop as written never fails, and annotation
   `an` is placed at the first value of Y column `(an + 1) / 2`.
   */
  lemma AnnotateAsWrittenPlacement(data: Dict<nat, Cell>, kind: string, labels: seq<Cell>)
    requires NonEmptyValues(data) && |data| > 0 && MarkerFor(kind).Some?
    requires |labels| == |data| - 1
    ensures var r := AnnotateAsWritten(labels, Assemble(data, kind).ys);
            && r.Success?
            && forall an :: 0 <= an < |labels| ==> r.value[an] == Annotation(labels[an], data[(an + 1) / 2 + 1].1[0])
  {
    var ys := Assemble(data, kind).ys;
    forall an | 0 <= an < |labels|
      ensures CanRead(ys, AnnotationIndexAsWritten(an))
      ensures First(ys[AnnotationIndexAsWritten(an)]).value == data[(an + 1) / 2 + 1].1[0]
    {
      AsWrittenIndexReadsSeries(data, kind, an);
    }
  }

  /** The index as written equals the intended `2 * an` only for the first two Y columns. */
  lemma AsWrittenMatchesIntentOnlyForFirstTwo(an: nat)
    ensures AnnotationIndexAsWritten(an) == 2 * an <==> an < 2
  {
  }

  /**
   Three Y columns drawn as lines: the third annotation lands on the second Y
   column's first value instead of its own.
   */
  lemma AsWrittenMisplacesThirdAnnotation()
    ensures var data := [(0, ["0"]), (1, ["10"]), (2, ["20"]), (3, ["30"])];
            var r := AnnotateAsWritten(["B", "C", "D"], Assemble(data, "line").ys);
            && r.Success?
            && r.value[2] == Annotation("D", "20")
            && r.value[2] != Annotation("D", "30")
  {
    var data := [(0, ["0"]), (1, ["10"]), (2, ["20"]), (3, ["30"])];
    AnnotateAsWrittenPlacement(data, "line", ["B", "C", "D"]);
  }

  /**
   With an unknown kind `yLst` holds only series and the index as written runs
   past its end exactly when the number of Y columns is even and non-zero,
   failing on the last annotation.
   */
  lemma AnnotateAsWrittenWithoutMarkers(data: Dict<nat, Cell>, kind: string, labels: seq<Cell>)
    requires NonEmptyValues(data) && |data| > 0 && MarkerFor(kind).None?
    requires |labels| == |data| - 1
    ensures var r := AnnotateAsWritten(labels, Assemble(data, kind).ys);
            && (r.Success? <==> |labels| % 2 == 1 || |labels| == 0)
            && (r.Failure? ==> r.error == AnnotationOutOfRange(|labels| - 1))
  {
    var ys := Assemble(data, kind).ys;
    var n := |labels|;
    forall an | 0 <= an < n && AnnotationIndexAsWritten(an) < n
      ensures CanRead(ys, AnnotationIndexAsWritten(an))
    {
      var i := AnnotationIndexAsWritten(an);
      assert ys[Slot(kind, i)] == Series(data[i + 1].1);
    }
    if n % 2 == 0 && n > 0 {
      assert !CanRead(ys, AnnotationIndexAsWritten(n - 1));
    }
  }

  /**
   The corrected loop places annotation `an` at the first value of Y column
   `an`, for every chart kind, provided there are no more labels than Y columns.
   */
  lemma AnnotateMarksOwnColumn(data: Dict<nat, Cell>, kind: string, labels: seq<Cell>)
    requires NonEmptyValues(data) && |data| > 0
    requires |labels| <= |data| - 1
    ensures var r := Annotate(labels, Assemble(data, kind).ys, kind);
            && r.Success?
            && forall an :: 0 <= an < |labels| ==> r.value[an] == Annotation(labels[an], data[an + 1].1[0])
  {
    var ys := Assemble(data, kind).ys;
    var at := SeriesIndex(kind);
    forall an | 0 <= an < |labels|
      ensures CanRead(ys, at(an)) && First(ys[at(an)]).value == data[an + 1].1[0]
    {
      assert ys[Slot(kind, an)] == Series(data[an + 1].1);
    }
  }

  /** More labels than Y columns is reported as an error at the first label without a column. */
  lemma AnnotateReportsMissingSeries(data: Dict<nat, Cell>, kind: string, labels: seq<Cell>)
    requires NonEmptyValues(data) && |data| > 0
    requires |labels| > |data| - 1
    ensures Annotate(labels, Assemble(data, kind).ys, kind) == Failure(AnnotationOutOfRange(|data| - 1))
  {
    var ys := Assemble(data, kind).ys;
    var at := SeriesIndex(kind);
    forall an | 0 <= an < |data| - 1
      ensures CanRead(ys, at(an))
    {
      assert ys[Slot(kind, an)] == Series(data[an + 1].1);
    }
    var n := |data| - 1;
    assert !CanRead(ys, at(n));
    var r := Annotations(labels, ys, at);
    assert r.Failure?;
    assert r.error.an == n;
  }

  /** The corrected loop succeeds exactly when every label has a Y column. */
  lemma AnnotateSucceedsIffEnoughSeries(data: Dict<nat, Cell>, kind: string, labels: seq<Cell>)
    ensures NonEmptyValues(data) && |data| > 0 ==>
              (Annotate(labels, Assemble(data, kind).ys, kind).Success? <==> |labels| <= |data| - 1)
  {
    if NonEmptyValues(data) && |data| > 0 {
      if |labels| <= |data| - 1 {
        AnnotateMarksOwnColumn(data, kind, labels);
      } else {
        AnnotateReportsMissingSeries(data, kind, labels);
      }
    }
  }

  /**
   For a known kind, the first two annotations of the loop as written and of
   the corrected loop are the same annotation.
   */
  lemma AnnotateAgreesWithAsWrittenOnFirstTwo(data: Dict<nat, Cell>, kind: string, labels: seq<Cell>, an: nat)
    requires NonEmptyValues(data) && |data| > 0 && MarkerFor(kind).Some?
    requires |labels| == |data| - 1 && an < 2 && an < |labels|
    ensures var ys := Assemble(data, kind).ys;
            && AnnotateAsWritten(labels, ys).Success?
            && Annotate(labels, ys, kind).Success?
            && AnnotateAsWritten(labels, ys).value[an] == Annotate(labels, ys, kind).value[an]
  {
    AnnotateAsWrittenPlacement(data, kind, labels);
    AnnotateMarksOwnColumn(data, kind, labels);
    assert (an + 1) / 2 == an;
  }

  /**
   The Y column whose first value the code's index reads for annotation `an`:
   with format strings in `yLst` the even index `i` is series `i / 2`, without
   them index `i` is series `i`.
   */
  function ColumnReadAsWritten(kind: string, an: nat): nat
  {
    if MarkerFor(kind).Some? then (an + 1) / 2 else AnnotationIndexAsWritten(an)
  }

  /**
   The loop as written, for every kind: it fails only for a kind without a
   format string and an even, non-zero number of Y columns, on the last label;
   when it succeeds, annotation `an` sits at the first value of Y column
   `ColumnReadAsWritten(kind, an)`.
   */
  lemma {:induction false} AnnotateAsWrittenOutcome(data: Dict<nat, Cell>, kind: string, labels: seq<Cell>)
    requires NonEmptyValues(data) && |data| > 0
    requires |labels| == |data| - 1
    ensures var r := AnnotateAsWritten(labels, Assemble(data, kind).ys);
            && (r.Success? <==> MarkerFor(kind).Some? || |labels| % 2 == 1 || |labels| == 0)
            && (r.Failure? ==> r.error == AnnotationOutOfRange(|labels| - 1))
            && (r.Success? ==>
                  forall an :: 0 <= an < |labels| ==>
                    && ColumnReadAsWritten(kind, an) < |labels|
                    && r.value[an] == Annotation(labels[an], data[ColumnReadAsWritten(kind, an) + 1].1[0]))
  {
    var ys := Assemble(data, kind).ys;
    var r := AnnotateAsWritten(labels, ys);
    if MarkerFor(kind).Some? {
      AnnotateAsWrittenPlacement(data, kind, labels);
    } else {
      AnnotateAsWrittenWithoutMarkers(data, kind, labels);
      if r.Success? {
        forall an | 0 <= an < |labels|
          ensures ColumnReadAsWritten(kind, an) < |labels|
          ensures r.value[an] == Annotation(labels[an], data[ColumnReadAsWritten(kind, an) + 1].1[0])
        {
          var i := AnnotationIndexAsWritten(an);
          assert CanRead(ys, i);
          assert ys[Slot(kind, i)] == Series(data[i + 1].1);
        }
      }
    }
  }

  /** The drawn chart: whether `ax.plot` ran, its arguments, the axis labels and the annotations. */
  datatype Figure = Figure(
    plotted: bool,
    x: seq<Cell>,
    ys: seq<PlotArg>,
    xLabel: string,
    yLabel: string,
    annotations: seq<Annotation>)

  /**
   `_plot_chart` with annotation index rule `at`: assemble the series, plot
   them when the kind is known, label the axes and annotate each label at
   `yLst[at(an)][0]`. The code's rule is `AnnotationIndexAsWritten`.
   */
  function Render(
    data: Dict<nat, Cell>, xLabel: string, yLabel: string, labels: seq<Cell>, kind: string, at: nat -> nat
  ): (r: Result<Figure, ChartError>)
    ensures r.Success? <==> forall an :: 0 <= an < |labels| ==> CanRead(Assemble(data, kind).ys, at(an))
    ensures var notes := Annotations(labels, Assemble(data, kind).ys, at);
            && (r.Success? <==> notes.Success?)
            && (r.Success? ==> r.value.annotations == notes.value)
            && (r.Failure? ==> r.error == notes.error)
    ensures r.Failure? ==>
              && r.error.an < |labels|
              && !CanRead(Assemble(data, kind).ys, at(r.error.an))
              && forall an :: 0 <= an < r.error.an ==> CanRead(Assemble(data, kind).ys, at(an))
    ensures r.Success? ==>
              && (r.value.plotted <==> MarkerFor(kind).Some?)
              && r.value.xLabel == xLabel && r.value.yLabel == yLabel
              && (NonEmptyValues(data) && |data| > 0 ==>
                    && r.value.x == data[0].1
                    && |r.value.ys| == Slot(kind, |data| - 1)
                    && forall i :: 0 <= i < |data| - 1 ==> r.value.ys[Slot(kind, i)] == Series(data[i + 1].1))
    ensures r.Success? ==>
              && |r.value.annotations| == |labels|
              && forall an :: 0 <= an < |labels| ==>
                   && CanRead(r.value.ys, at(an))
                   && r.value.annotations[an] == Annotation(labels[an], First(r.value.ys[at(an)]).value)
  {
    var a := Assemble(data, kind);
    match Annotations(labels, a.ys, at)
    case Failure(e) => Failure(e)
    case Success(notes) => Success(Figure(MarkerFor(kind).Some?, a.x, a.ys, xLabel, yLabel, notes))
  }
}
