/**
 * The two-phase aggregation protocol driven through the accumulator itself:
 * data-local accumulators scan their partitions and emit one-row partial
 * columns, and a merge accumulator folds the partials in arrival order.
 */
module TwoPhaseProtocol {
  import opened Wrappers
  import opened TsFile
  import opened Windows
  import opened MaxFold
  import opened Scan
  import opened Aggregation

  /**
   * A data-local fragment: one INT32 accumulator scans the whole partition
   * in a window that accepts every row, then emits its partial result, which
   * is null for a partition without non-null values and their maximum otherwise.
   */
  method PartialResult(values: Column) returns (partial: Column)
    requires ColumnFits(INT32, values)
    ensures partial == [FoldAll(None, Present(values))]
  {
    var times := seq(|values|, i requires 0 <= i < |values| => Some(i));
    var everyRow := new Window((control: Column, pos: nat) => true);
    var acc := new MaxValueAccumulator(INT32);
    var scanned := acc.AddInput([times, times, values], everyRow, false);
    assert scanned.value == |values|;
    FoldedWithoutSkipping(times, values, |values|);
    assert values[..|values|] == values;
    var builder := new ColumnBuilder();
    var _ := acc.OutputIntermediate([builder]);
    partial := builder.entries;
  }

  /**
   * A merge fragment: one INT32 accumulator merges the partial results of
   * the partitions, arriving in any order, through its intermediate-result
   * path, and emits the maximum of all values of all partitions, or null
   * when there is none.
   */
  method MergeFragment(parts: seq<seq<int>>, arrivals: seq<Option<int>>) returns (finalColumn: Column)
    requires forall i, x :: 0 <= i < |parts| && x in parts[i] ==> Fits(INT32, x)
    requires multiset(arrivals) == multiset(Partials(parts))
    ensures finalColumn == [FoldAll(None, Concat(parts))]
  {
    var merger := new MaxValueAccumulator(INT32);
    for i := 0 to |arrivals|
      invariant merger.Valid() && merger.seriesDataType == INT32
      invariant merger.State() == MergeAll(None, arrivals[..i])
    {
      ArrivalFits(parts, arrivals, i);
      var _ := merger.AddIntermediate([[arrivals[i]]]);
      assert arrivals[..i + 1][..i] == arrivals[..i];
    }
    assert arrivals[..|arrivals|] == arrivals;
    TwoPhaseAnyOrder(parts, arrivals);
    var builder := new ColumnBuilder();
    var _ := merger.OutputFinal(builder);
    finalColumn := builder.entries;
  }

  /** A partial result of INT32 partitions is itself an INT32 value or null. */
  lemma ArrivalFits(parts: seq<seq<int>>, arrivals: seq<Option<int>>, i: nat)
    requires forall j, x :: 0 <= j < |parts| && x in parts[j] ==> Fits(INT32, x)
    requires multiset(arrivals) == multiset(Partials(parts))
    requires i < |arrivals|
    ensures arrivals[i].Some? ==> Fits(INT32, arrivals[i].value)
  {
    assert arrivals[i] in multiset(Partials(parts));
    var j :| 0 <= j < |parts| && Partials(parts)[j] == arrivals[i];
    FoldAllIsMax(None, parts[j]);
  }

  /** The data-local fragments of the scenario: partitions {5, null, 9}, {} and {3, 12}. */
  method ScenarioPartials() returns (partials: seq<Column>)
    ensures partials == [[Some(9)], [None], [Some(12)]]
  {
    var first, third := [Some(5), None, Some(9)], [Some(3), Some(12)];
    assert ColumnFits(INT32, first) && ColumnFits(INT32, []) && ColumnFits(INT32, third);
    var p1 := PartialResult(first);
    var p2 := PartialResult([]);
    var p3 := PartialResult(third);
    PartialsOfScenario();
    partials := [p1, p2, p3];
  }

  /**
   * The merge fragment of the scenario: the partials 9, null and 12, merged
   * in reverse arrival order, give 12, the maximum of all values.
   */
  method ReverseOrderScenario() returns (finalColumn: Column)
    ensures finalColumn == [Some(12)]
  {
    var partials := ScenarioPartials();
    var merger := new MaxValueAccumulator(INT32);
    var _ := merger.AddIntermediate([partials[2]]);
    var _ := merger.AddIntermediate([partials[1]]);
    var _ := merger.AddIntermediate([partials[0]]);
    var builder := new ColumnBuilder();
    var _ := merger.OutputFinal(builder);
    finalColumn := builder.entries;
  }

  /**
   * The partial results of the three partitions of the scenario. The
   * step-by-step assertions here and in the two lemmas below keep the
   * evaluation of these literal sequences cheap on every solver seed.
   */
  lemma PartialsOfScenario()
    ensures FoldAll(None, Present([Some(5), None, Some(9)])) == Some(9)
    ensures FoldAll(None, Present([])) == None
    ensures FoldAll(None, Present([Some(3), Some(12)])) == Some(12)
  {
    PresentOfFirstPartition();
    PresentOfThirdPartition();
    assert [5, 9][..1] == [5] && [5][..0] == [];
    assert [3, 12][..1] == [3] && [3][..0] == [];
  }

  lemma PresentOfFirstPartition()
    ensures Present([Some(5), None, Some(9)]) == [5, 9]
  {
    assert [Some(5)][..0] == [];
    assert Present([Some(5)]) == [5];
    assert [Some(5), None][..1] == [Some(5)];
    assert Present([Some(5), None]) == [5];
    assert [Some(5), None, Some(9)][..2] == [Some(5), None];
  }

  lemma PresentOfThirdPartition()
    ensures Present([Some(3), Some(12)]) == [3, 12]
  {
    assert [Some(3)][..0] == [];
    assert Present([Some(3)]) == [3];
    assert [Some(3), Some(12)][..1] == [Some(3)];
  }
}
