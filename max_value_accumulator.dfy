/**
 * The running-maximum aggregate: a state machine over a fixed series data
 * type, a running value and a flag that says whether any value has been
 * folded in. Its entry points are the windowed batch scan, the merge of a
 * peer's partial result, the chunk-statistics shortcut, the wholesale
 * overwrite, the two outputs and reset.
 */
module Aggregation {
  import opened Wrappers
  import opened TsFile
  import opened Windows
  import opened MaxFold
  import opened Scan

  class MaxValueAccumulator {
    const seriesDataType: DataType
    var maxResult: int
    var initResult: bool

    /**
     * The object invariant: the floating-point types are not part of this
     * model, and a folded value is always a value of the series type.
     */
    ghost predicate Valid()
      reads this
    {
      !seriesDataType.IsFloating() && (initResult ==> Fits(seriesDataType, maxResult))
    }

    /** The running value as the outputs see it: absent until something has been folded in. */
    function State(): Option<int>
      reads this
    {
      if initResult then Some(maxResult) else None
    }

    /** The error every entry point raises for a type the maximum does not support. */
    function Unsupported(): UnsupportedDataType {
      UnsupportedDataType("MaxValue", seriesDataType)
    }

    constructor (seriesDataType: DataType)
      requires !seriesDataType.IsFloating()
      ensures Valid() && this.seriesDataType == seriesDataType && State() == None
    {
      this.seriesDataType := seriesDataType;
      // the type's default value; it is never read while initResult is false
      maxResult := 0;
      initResult := false;
    }

    /**
     * Scans a batch of aligned `[control, time, value]` columns from position 0
     * and returns the position of the first row that is not skipped and that
     * the window rejects, or the position count when there is none. Every
     * row before it that is not skipped goes to the window, in order; its
     * value, when non-null, is folded.
     */
    method AddInput(columns: seq<Column>, curWindow: Window, ignoringNull: bool)
      returns (r: Result<nat, UnsupportedDataType>)
      requires Valid()
      requires |columns| == 3 && |columns[1]| == |columns[0]| && |columns[2]| == |columns[0]|
      requires ColumnFits(seriesDataType, columns[2])
      modifies this, curWindow
      ensures Valid()
      ensures !seriesDataType.IsIntegral() ==>
        r == Failure(Unsupported()) && unchanged(this) && unchanged(curWindow)
      ensures seriesDataType.IsIntegral() ==> r.Success? && r.value <= |columns[0]|
      ensures r.Success? ==> forall j :: 0 <= j < r.value && !Skipped(columns[0], ignoringNull, j) ==>
        curWindow.Satisfy(columns[0], j)
      ensures r.Success? && r.value < |columns[0]| ==>
        !Skipped(columns[0], ignoringNull, r.value) && !curWindow.Satisfy(columns[0], r.value)
      ensures r.Success? ==> curWindow.merged == old(curWindow.merged) + Kept(columns[0], ignoringNull, r.value)
      ensures r.Success? ==> State() == FoldAll(old(State()), Folded(columns[0], columns[2], ignoringNull, r.value))
    {
      if !seriesDataType.IsIntegral() {
        return Failure(Unsupported());
      }
      var stop := AddIntegralInput(columns, curWindow, ignoringNull);
      return Success(stop);
    }

    /** The scan of the INT32 and INT64 paths, which differ only in the Java type of the values. */
    method AddIntegralInput(columns: seq<Column>, curWindow: Window, ignoringNull: bool) returns (stop: nat)
      requires Valid() && seriesDataType.IsIntegral()
      requires |columns| == 3 && |columns[1]| == |columns[0]| && |columns[2]| == |columns[0]|
      requires ColumnFits(seriesDataType, columns[2])
      modifies this, curWindow
      ensures Valid()
      ensures stop <= |columns[0]|
      ensures forall j :: 0 <= j < stop && !Skipped(columns[0], ignoringNull, j) ==> curWindow.Satisfy(columns[0], j)
      ensures stop < |columns[0]| ==> !Skipped(columns[0], ignoringNull, stop) && !curWindow.Satisfy(columns[0], stop)
      ensures curWindow.merged == old(curWindow.merged) + Kept(columns[0], ignoringNull, stop)
      ensures State() == FoldAll(old(State()), Folded(columns[0], columns[2], ignoringNull, stop))
    {
      var control, value := columns[0], columns[2];
      var curPositionCount := |control|;
      for i := 0 to curPositionCount
        invariant Valid()
        invariant forall j :: 0 <= j < i && !Skipped(control, ignoringNull, j) ==> curWindow.Satisfy(control, j)
        invariant curWindow.merged == old(curWindow.merged) + Kept(control, ignoringNull, i)
        invariant State() == FoldAll(old(State()), Folded(control, value, ignoringNull, i))
      {
        // skip a row whose control value is null
        if ignoringNull && control[i].None? {
          assert Kept(control, ignoringNull, i + 1) == Kept(control, ignoringNull, i);
          assert Folded(control, value, ignoringNull, i + 1) == Folded(control, value, ignoringNull, i);
          continue;
        }
        if !curWindow.Satisfy(control, i) {
          return i;
        }
        assert Kept(control, ignoringNull, i + 1) == Kept(control, ignoringNull, i) + [i];
        curWindow.MergeOnePoint(columns, i);
        assert curWindow.merged == old(curWindow.merged) + Kept(control, ignoringNull, i + 1);
        ghost var before := Folded(control, value, ignoringNull, i);
        if value[i].Some? {
          UpdateResult(value[i].value);
          FoldAllSnoc(old(State()), before, value[i].value);
        } else {
          assert Folded(control, value, ignoringNull, i + 1) == before;
        }
      }
      return curPositionCount;
    }

    /** The fold step of the INT32 and INT64 paths: a strict comparison, so a tie keeps the old value. */
    method UpdateResult(maxVal: int)
      requires Valid() && Fits(seriesDataType, maxVal)
      modifies this
      ensures Valid()
      ensures State() == Fold(old(State()), maxVal)
    {
      if !initResult || maxVal > maxResult {
        initResult := true;
        maxResult := maxVal;
      }
    }

    /** Merges a peer's partial result, a one-column, one-row artifact. */
    method AddIntermediate(partialResult: seq<Column>) returns (out: Outcome<UnsupportedDataType>)
      requires Valid()
      requires |partialResult| == 1 && |partialResult[0]| >= 1
      requires partialResult[0][0].Some? ==> Fits(seriesDataType, partialResult[0][0].value)
      modifies this
      ensures Valid()
      ensures partialResult[0][0].None? ==> unchanged(this)
      ensures out.Fail? <==> partialResult[0][0].Some? && !seriesDataType.IsIntegral()
      ensures out.Pass? ==> State() == Merge(old(State()), partialResult[0][0])
      ensures out.Fail? ==> out.error == Unsupported() && unchanged(this)
    {
      if partialResult[0][0].None? {
        return Pass;
      }
      if !seriesDataType.IsIntegral() {
        return Fail(Unsupported());
      }
      UpdateResult(partialResult[0][0].value);
      return Pass;
    }

    /** Folds a chunk's precomputed maximum instead of its rows; no statistics is a no-op. */
    method AddStatistics(statistics: Option<Statistics>) returns (out: Outcome<UnsupportedDataType>)
      requires Valid()
      requires statistics.Some? ==> Fits(seriesDataType, statistics.value.maxValue)
      modifies this
      ensures Valid()
      ensures statistics.None? ==> unchanged(this)
      ensures out.Fail? <==> statistics.Some? && !seriesDataType.IsIntegral()
      ensures out.Pass? && statistics.Some? ==> State() == Fold(old(State()), statistics.value.maxValue)
      ensures out.Fail? ==> out.error == Unsupported() && unchanged(this)
    {
      if statistics.None? {
        return Pass;
      }
      if !seriesDataType.IsIntegral() {
        return Fail(Unsupported());
      }
      UpdateResult(statistics.value.maxValue);
      return Pass;
    }

    /**
     * Overwrites the running value with an externally supplied one, without
     * comparing, so it may lower it. A null entry leaves the state as it is.
     * For an unsupported type the flag is set before the error is raised.
     */
    method SetFinal(finalResult: Column) returns (out: Outcome<UnsupportedDataType>)
      requires Valid()
      requires |finalResult| >= 1
      requires finalResult[0].Some? ==> Fits(seriesDataType, finalResult[0].value)
      modifies this
      ensures Valid()
      ensures finalResult[0].None? ==> out.Pass? && unchanged(this)
      ensures out.Fail? <==> finalResult[0].Some? && !seriesDataType.IsIntegral()
      ensures finalResult[0].Some? ==> initResult
      ensures finalResult[0].Some? && out.Pass? ==> State() == finalResult[0]
      ensures out.Fail? ==> out.error == Unsupported() && maxResult == old(maxResult)
    {
      if finalResult[0].None? {
        return Pass;
      }
      initResult := true;
      if !seriesDataType.IsIntegral() {
        return Fail(Unsupported());
      }
      maxResult := finalResult[0].value;
      return Pass;
    }

    /** Appends the partial result, null when nothing has been folded, to the one builder. */
    method OutputIntermediate(columnBuilders: seq<ColumnBuilder>) returns (out: Outcome<UnsupportedDataType>)
      requires Valid()
      requires |columnBuilders| == 1
      modifies columnBuilders[0]
      ensures out.Fail? <==> initResult && !seriesDataType.IsIntegral()
      ensures out.Pass? ==> columnBuilders[0].entries == old(columnBuilders[0].entries) + [State()]
      ensures out.Fail? ==> out.error == Unsupported() && unchanged(columnBuilders[0])
    {
      if !initResult {
        columnBuilders[0].AppendNull();
        return Pass;
      }
      if !seriesDataType.IsIntegral() {
        return Fail(Unsupported());
      }
      columnBuilders[0].Write(maxResult);
      return Pass;
    }

    /** Appends the final result, null when nothing has been folded, to the builder. */
    method OutputFinal(columnBuilder: ColumnBuilder) returns (out: Outcome<UnsupportedDataType>)
      requires Valid()
      modifies columnBuilder
      ensures out.Fail? <==> initResult && !seriesDataType.IsIntegral()
      ensures out.Pass? ==> columnBuilder.entries == old(columnBuilder.entries) + [State()]
      ensures out.Fail? ==> out.error == Unsupported() && unchanged(columnBuilder)
    {
      if !initResult {
        columnBuilder.AppendNull();
        return Pass;
      }
      if !seriesDataType.IsIntegral() {
        return Fail(Unsupported());
      }
      columnBuilder.Write(maxResult);
      return Pass;
    }

    /** Makes the accumulator reusable for the next window: nothing is folded any more. */
    method Reset()
      requires Valid()
      modifies this
      ensures Valid() && State() == None
    {
      initResult := false;
      maxResult := 0;
    }

    /** A maximum can never be known before all data has been seen. */
    function HasFinalResult(): (r: bool)
      ensures !r
    {
      false
    }
  }
}
