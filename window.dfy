/**
 * The grouping window as the accumulator sees it: a boundary test and a
 * per-row merge step. The concrete windows (time windows, count windows) are
 * not part of this model; the boundary test is a fixed predicate of the
 * control column and the position, and the window-local state is a log of the
 * positions merged into it.
 */
module Windows {
  import opened TsFile

  class Window {
    /** The boundary test: is this row still inside the current window? */
    const accepts: (Column, nat) -> bool
    /** The positions passed to MergeOnePoint, oldest first. */
    ghost var merged: seq<nat>

    constructor (accepts: (Column, nat) -> bool)
      ensures this.accepts == accepts && merged == []
    {
      this.accepts := accepts;
      merged := [];
    }

    predicate Satisfy(control: Column, pos: nat) {
      accepts(control, pos)
    }

    /** Folds one row into the window-local state. */
    method MergeOnePoint(columns: seq<Column>, pos: nat)
      modifies this
      ensures merged == old(merged) + [pos]
    {
      merged := merged + [pos];
    }
  }
}
