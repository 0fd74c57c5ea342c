/**
 * What one windowed scan over a batch of aligned `[control, time, value]`
 * columns does, up to the position where it stops: which rows it skips,
 * which rows it hands to the window, and which values it folds.
 */
module Scan {
  import opened Wrappers
  import opened TsFile
  import MaxFold

  /** A row is skipped entirely when nulls are ignored and its control value is null. */
  predicate Skipped(control: Column, ignoringNull: bool, j: nat)
    requires j < |control|
  {
    ignoringNull && control[j].None?
  }

  /** The positions before k that the scan does not skip. */
  function Kept(control: Column, ignoringNull: bool, k: nat): seq<nat>
    requires k <= |control|
  {
    if k == 0 then []
    else Kept(control, ignoringNull, k - 1) + if Skipped(control, ignoringNull, k - 1) then [] else [k - 1]
  }

  /** The values the scan folds from the rows before k. */
  function Folded(control: Column, value: Column, ignoringNull: bool, k: nat): seq<int>
    requires k <= |control| && k <= |value|
  {
    if k == 0 then []
    else
      Folded(control, value, ignoringNull, k - 1) +
      if !Skipped(control, ignoringNull, k - 1) && value[k - 1].Some? then [value[k - 1].value] else []
  }

  /**
   * The window sees every position before k that is not skipped, each
   * exactly once and in increasing order, and no other position.
   */
  lemma {:induction false} KeptIsEveryAcceptedRowInOrder(control: Column, ignoringNull: bool, k: nat)
    requires k <= |control|
    ensures forall j: nat :: j in Kept(control, ignoringNull, k) <==> j < k && !Skipped(control, ignoringNull, j)
    ensures forall a, b :: 0 <= a < b < |Kept(control, ignoringNull, k)| ==>
      Kept(control, ignoringNull, k)[a] < Kept(control, ignoringNull, k)[b]
  {
    if k > 0 {
      var init := Kept(control, ignoringNull, k - 1);
      KeptIsEveryAcceptedRowInOrder(control, ignoringNull, k - 1);
      assert forall a :: 0 <= a < |init| ==> init[a] in init;
    }
  }

  /**
   * The values folded from the rows before k are exactly the non-null values
   * of the rows that are not skipped.
   */
  lemma {:induction false} FoldedIsNonNullAcceptedValues(control: Column, value: Column, ignoringNull: bool, k: nat)
    requires k <= |control| && k <= |value|
    ensures |Folded(control, value, ignoringNull, k)| <= k
    ensures forall x :: x in Folded(control, value, ignoringNull, k) <==>
      exists j :: 0 <= j < k && !Skipped(control, ignoringNull, j) && value[j] == Some(x)
  {
    if k > 0 {
      FoldedIsNonNullAcceptedValues(control, value, ignoringNull, k - 1);
    }
  }

  /**
   * The non-null values at the given positions, in the order of the
   * positions; a position outside the column carries no value.
   */
  function NonNullAt(value: Column, positions: seq<nat>): seq<int>
    decreases |positions|
  {
    if positions == [] then []
    else
      var last := positions[|positions| - 1];
      NonNullAt(value, positions[..|positions| - 1]) +
      if last < |value| && value[last].Some? then [value[last].value] else []
  }

  /**
   * Row by row: the folded values are the non-null values of the rows handed
   * to the window, one for each such row, in position order.
   */
  lemma {:induction false} FoldedIsValuesOfKeptRows(control: Column, value: Column, ignoringNull: bool, k: nat)
    requires k <= |control| && k <= |value|
    ensures Folded(control, value, ignoringNull, k) == NonNullAt(value, Kept(control, ignoringNull, k))
  {
    if k > 0 {
      FoldedIsValuesOfKeptRows(control, value, ignoringNull, k - 1);
      var init := Kept(control, ignoringNull, k - 1);
      if !Skipped(control, ignoringNull, k - 1) {
        var kept := init + [k - 1];
        assert kept[..|kept| - 1] == init;
      } else {
        assert Kept(control, ignoringNull, k) == init;
        assert Folded(control, value, ignoringNull, k) == Folded(control, value, ignoringNull, k - 1);
      }
    }
  }

  /**
   * The rows at or after the position where the scan stops play no part:
   * columns that agree on the first k rows give the same kept positions and
   * the same folded values.
   */
  lemma {:induction false} ScanReadsOnlyPrefix(control: Column, value: Column, control': Column, value': Column,
                                                 ignoringNull: bool, k: nat)
    requires k <= |control| && k <= |value| && k <= |control'| && k <= |value'|
    requires control[..k] == control'[..k] && value[..k] == value'[..k]
    ensures Kept(control, ignoringNull, k) == Kept(control', ignoringNull, k)
    ensures Folded(control, value, ignoringNull, k) == Folded(control', value', ignoringNull, k)
  {
    if k > 0 {
      assert control[..k - 1] == control[..k][..k - 1] && control'[..k - 1] == control'[..k][..k - 1];
      assert value[..k - 1] == value[..k][..k - 1] && value'[..k - 1] == value'[..k][..k - 1];
      assert control[k - 1] == control[..k][k - 1] && control'[k - 1] == control'[..k][k - 1];
      assert value[k - 1] == value[..k][k - 1] && value'[k - 1] == value'[..k][k - 1];
      ScanReadsOnlyPrefix(control, value, control', value', ignoringNull, k - 1);
    }
  }

  /**
   * When nulls in the control column are not ignored, the scan folds the
   * non-null values of the first k rows, as a peer's partial results would
   * be merged.
   */
  lemma {:induction false} FoldedWithoutSkipping(control: Column, value: Column, k: nat)
    requires k <= |control| && k <= |value|
    ensures Folded(control, value, false, k) == MaxFold.Present(value[..k])
  {
    if k > 0 {
      FoldedWithoutSkipping(control, value, k - 1);
      assert value[..k][..k - 1] == value[..k - 1];
    }
  }
}
