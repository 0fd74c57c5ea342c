/**
 * The storage-format collaborators of the accumulator, seen only through the
 * interface it uses: series data types, read-only columns, append-only column
 * builders, per-chunk statistics and the unsupported-data-type error.
 */
module TsFile {
  import opened Wrappers

  /** The series data types; the order is that of the switch statements in the accumulator. */
  datatype DataType = INT32 | INT64 | FLOAT | DOUBLE | TEXT | BOOLEAN {
    /** The types whose values are Java integers (`int` and `long`). */
    predicate IsIntegral() {
      this == INT32 || this == INT64
    }

    /** The types whose values are Java floating-point numbers. */
    predicate IsFloating() {
      this == FLOAT || this == DOUBLE
    }
  }

  /**
   * Whether an integer is a value of the given type: INT32 is a Java `int`,
   * INT64 a Java `long`. Values of the other types are never read as integers.
   */
  predicate Fits(dt: DataType, v: int) {
    match dt
    case INT32 => -0x8000_0000 <= v < 0x8000_0000
    case INT64 => -0x8000_0000_0000_0000 <= v < 0x8000_0000_0000_0000
    case _ => true
  }

  /** A column: one nullable value per position; its length is the position count. */
  type Column = seq<Option<int>>

  /** Every non-null entry of the column is a value of the given type. */
  predicate ColumnFits(dt: DataType, c: Column) {
    forall j :: 0 <= j < |c| && c[j].Some? ==> Fits(dt, c[j].value)
  }

  /** The part of a chunk's precomputed statistics that a maximum reads. */
  datatype Statistics = Statistics(maxValue: int)

  /** The error raised by an aggregate function for a data type it does not support. */
  datatype UnsupportedDataType = UnsupportedDataType(aggregation: string, dataType: DataType)

  /** An append-only builder of one output column. */
  class ColumnBuilder {
    var entries: seq<Option<int>>

    constructor ()
      ensures entries == []
    {
      entries := [];
    }

    method AppendNull()
      modifies this
      ensures entries == old(entries) + [None]
    {
      entries := entries + [None];
    }

    /** Stands for `writeInt` and `writeLong`. */
    method Write(v: int)
      modifies this
      ensures entries == old(entries) + [Some(v)]
    {
      entries := entries + [Some(v)];
    }
  }
}
