# MaxValueAccumulator — a Dafny model

This project models `MaxValueAccumulator`, the running-maximum aggregate of the
distributed query engine. The accumulator is a small state machine. Its series
data type is fixed at construction. It keeps a running value (`maxResult`) and
a flag (`initResult`) that says some value has been folded in. It is fed in four
ways:

- a windowed scan over aligned `[control, time, value]` columns (`addInput`);
- a peer's partial result (`addIntermediate`);
- a storage chunk's precomputed maximum (`addStatistics`);
- a wholesale overwrite (`setFinal`).

It writes its value, or null when nothing was folded, to a partial-result
column or a final-result column. `reset` makes it reusable for the next window.

Layout:

- `wrappers.dfy` (`Wrappers`): `Option` for Java nulls, `Result`/`Outcome` for calls that may raise.
- `tsfile.dfy` (`TsFile`): the series data types, the `Fits` range of a Java `int`/`long`,
  columns as `seq<Option<int>>`, the append-only `ColumnBuilder`, chunk `Statistics`
  and the `UnsupportedDataType` error.
- `window.dfy` (`Windows`): the window contract, a boundary test `Satisfy` and a
  `MergeOnePoint` step that records each merged position in a ghost log.
- `max_fold.dfy` (`MaxFold`): the fold step and its repetition, the merge of
  partial results, and the lemmas behind two-phase aggregation.
- `scan.dfy` (`Scan`): which rows a scan skips, hands to the window and folds.
- `max_value_accumulator.dfy` (`Aggregation`): the accumulator class. Each entry
  point is a method whose contract ties the new state (`State()`, the running value
  as an `Option`) to the old one through the functions of `MaxFold` and `Scan`.
- `two_phase.dfy` (`TwoPhaseProtocol`): data-local accumulators emit partial
  columns; a merge accumulator folds them in any arrival order, and a worked
  scenario merges three partials in reverse order.

The INT32 and INT64 paths differ only in the Java type of the values. One scan
(`AddIntegralInput`) and one fold step (`UpdateResult`) model both pairs. The
object invariant `Valid()` keeps every folded value inside the range of the series type.

A null `setFinal` entry returns at MaxValueAccumulator.java:120-121 before the
flag is touched, so an accumulator that already holds a value keeps it;
`SetFinal`'s contract says the state is unchanged.

## Model

| member | source | states |
|---|---|---|
| `Aggregation.MaxValueAccumulator.constructor` | server/src/main/java/org/apache/iotdb/db/mpp/aggregation/MaxValueAccumulator.java:38-41 | the data type is fixed and nothing is folded yet (`State() == None`) |
| `Aggregation.MaxValueAccumulator.AddInput` | server/src/main/java/org/apache/iotdb/db/mpp/aggregation/MaxValueAccumulator.java:45-61 | TEXT/BOOLEAN raise the unsupported-type error and change neither the accumulator nor the window; INT32/INT64 return the position of the first row that is not skipped and that the window rejects, or the position count; the window receives exactly the kept rows before it, and the running value becomes the fold of the old value with the folded values before it |
| `Aggregation.MaxValueAccumulator.AddIntegralInput` | server/src/main/java/org/apache/iotdb/db/mpp/aggregation/MaxValueAccumulator.java:222-239 | the scan loop: every row before the returned position is skipped or satisfies the window; the row at it is not skipped and is rejected; the window log grows by `Kept` and the running value by the fold of `Folded` up to that position |
| `Aggregation.MaxValueAccumulator.UpdateResult` | server/src/main/java/org/apache/iotdb/db/mpp/aggregation/MaxValueAccumulator.java:241-246 | the new running value is `Fold(old, v)`: `v` if nothing was folded, otherwise the larger, the old one on a tie (the INT64 copy at lines 267-272 is the same) |
| `Aggregation.MaxValueAccumulator.AddIntermediate` | server/src/main/java/org/apache/iotdb/db/mpp/aggregation/MaxValueAccumulator.java:65-89 | a null partial changes nothing and raises nothing; a value is merged by the same fold on INT32/INT64 and raises the unsupported-type error, leaving the state as it was, on TEXT/BOOLEAN |
| `Aggregation.MaxValueAccumulator.AddStatistics` | server/src/main/java/org/apache/iotdb/db/mpp/aggregation/MaxValueAccumulator.java:92-115 | absent statistics change nothing; otherwise the chunk maximum is folded like a raw value, or the unsupported-type error is raised with the state unchanged |
| `Aggregation.MaxValueAccumulator.SetFinal` | server/src/main/java/org/apache/iotdb/db/mpp/aggregation/MaxValueAccumulator.java:119-143 | a null entry changes nothing; otherwise the flag is set and, on INT32/INT64, the running value becomes the entry without comparison (so it may go down); on TEXT/BOOLEAN the flag is set before the error and the value is kept |
| `Aggregation.MaxValueAccumulator.OutputIntermediate` | server/src/main/java/org/apache/iotdb/db/mpp/aggregation/MaxValueAccumulator.java:147-172 | with exactly one builder: appends exactly one entry, null when nothing was folded and the running value otherwise; an initialised TEXT/BOOLEAN accumulator raises the error and appends nothing |
| `Aggregation.MaxValueAccumulator.OutputFinal` | server/src/main/java/org/apache/iotdb/db/mpp/aggregation/MaxValueAccumulator.java:175-199 | the same contract for the final-result builder |
| `Aggregation.MaxValueAccumulator.Reset` | server/src/main/java/org/apache/iotdb/db/mpp/aggregation/MaxValueAccumulator.java:202-205 | afterwards nothing is folded (`State() == None`), so the next output is null |
| `Aggregation.MaxValueAccumulator.HasFinalResult` | server/src/main/java/org/apache/iotdb/db/mpp/aggregation/MaxValueAccumulator.java:208-210 | a maximum never has its final result early |
| `MaxFold.Fold` | server/src/main/java/org/apache/iotdb/db/mpp/aggregation/MaxValueAccumulator.java:241-246 | a fold step always leaves a value, at least the folded value and the old value, and equal to one of them |
| `MaxFold.FoldAllIsMax` | server/src/main/java/org/apache/iotdb/db/mpp/aggregation/MaxValueAccumulator.java:267-272 | after any sequence of folds the running value is absent exactly when it started absent and nothing was folded; otherwise it is the maximum of the starting value and all folded values |
| `MaxFold.FoldAllFromNothing` | server/src/main/java/org/apache/iotdb/db/mpp/aggregation/MaxValueAccumulator.java:174-185 | from a fresh state the result is null for no values and the maximum of the values otherwise |
| `MaxFold.FoldAllOrderIndependent` | server/src/main/java/org/apache/iotdb/db/mpp/aggregation/MaxValueAccumulator.java:241-246 | folding any permutation of the same values gives the same result |
| `MaxFold.FoldAllAppend` | server/src/main/java/org/apache/iotdb/db/mpp/aggregation/MaxValueAccumulator.java:222-238 | scanning two batches one after the other equals folding their concatenation |
| `MaxFold.Present` | server/src/main/java/org/apache/iotdb/db/mpp/aggregation/MaxValueAccumulator.java:67-69 | the values carried by a sequence of partials are exactly those of its non-null entries |
| `MaxFold.PartialThenMerge` | server/src/main/java/org/apache/iotdb/db/mpp/aggregation/MaxValueAccumulator.java:65-75 | merging the partial result of some values equals folding those values directly |
| `MaxFold.MergeAllIsFoldAll` | server/src/main/java/org/apache/iotdb/db/mpp/aggregation/MaxValueAccumulator.java:66-72 | merging partials is folding the values they carry; null partials contribute nothing |
| `MaxFold.MergeAllOrderIndependent` | server/src/main/java/org/apache/iotdb/db/mpp/aggregation/MaxValueAccumulator.java:70-75 | partials merged in any arrival order give the same running value |
| `MaxFold.TwoPhase` | server/src/main/java/org/apache/iotdb/db/mpp/aggregation/MaxValueAccumulator.java:147-158 | merging every partition's partial result equals one pass over all values of all partitions |
| `MaxFold.TwoPhaseAnyOrder` | server/src/main/java/org/apache/iotdb/db/mpp/aggregation/MaxValueAccumulator.java:63-72 | the same holds whatever the arrival order of the partials |
| `MaxFold.StatisticsShortcut` | server/src/main/java/org/apache/iotdb/db/mpp/aggregation/MaxValueAccumulator.java:92-101 | folding a chunk's precomputed maximum equals folding every value of the chunk |
| `Scan.KeptIsEveryAcceptedRowInOrder` | server/src/main/java/org/apache/iotdb/db/mpp/aggregation/MaxValueAccumulator.java:225-233 | the rows handed to the window are every row before the stop that is not skipped, each once, in increasing position order, null values included |
| `Scan.FoldedIsNonNullAcceptedValues` | server/src/main/java/org/apache/iotdb/db/mpp/aggregation/MaxValueAccumulator.java:226-236 | a value is folded exactly when some row before the stop that is not skipped carries it, and no more values are folded than rows are scanned |
| `Scan.FoldedIsValuesOfKeptRows` | server/src/main/java/org/apache/iotdb/db/mpp/aggregation/MaxValueAccumulator.java:233-236 | row by row, the folded values are the non-null values of the rows handed to the window, one per such row, in position order |
| `Scan.ScanReadsOnlyPrefix` | server/src/main/java/org/apache/iotdb/db/mpp/aggregation/MaxValueAccumulator.java:230-232 | rows at or after the stop affect neither the window nor the result |
| `Scan.FoldedWithoutSkipping` | server/src/main/java/org/apache/iotdb/db/mpp/aggregation/MaxValueAccumulator.java:251-263 | without null skipping, a scan folds exactly the non-null values of the scanned rows |
| `TwoPhaseProtocol.PartialResult` | server/src/main/java/org/apache/iotdb/db/mpp/aggregation/MaxValueAccumulator.java:147-155 | a data-local accumulator that scans a whole partition emits `[null]` for a partition without values and `[its maximum]` otherwise |
| `TwoPhaseProtocol.MergeFragment` | server/src/main/java/org/apache/iotdb/db/mpp/aggregation/MaxValueAccumulator.java:65-75 | an INT32 accumulator that merges the partials of any partitions through `AddIntermediate`, in any arrival order, then calls `OutputFinal`, emits the single-pass maximum of all values of all partitions, or null when there is none |
| `TwoPhaseProtocol.ReverseOrderScenario` | server/src/main/java/org/apache/iotdb/db/mpp/aggregation/MaxValueAccumulator.java:174-183 | partitions {5, null, 9}, {} and {3, 12}, merged in reverse order, give the final result 12 |

## Left out

- The FLOAT and DOUBLE paths (MaxValueAccumulator.java lines 274-324) are not modelled. Java's `>` on floating point is not a total order once NaN appears, so the maximum and order-independence properties do not hold for them. The data-type enum keeps both values, but the constructor does not accept them.
- `getIntermediateType` and `getFinalType` are not modelled. They only echo `TsPrimitiveType.getByType`, whose behaviour is not part of this model.
- The initial and reset value of `maxResult` comes from `TsPrimitiveType`, which is not part of this model. The model uses 0. No operation reads it while `initResult` is false.
- Column, ColumnBuilder, Statistics, IWindow and TsPrimitiveType are modelled only through the interface the accumulator uses. Columns are sequences of optional integers. A builder is an append-only sequence; its write-once use is not enforced. The statistic is an already-typed integer, so the `(int)`/`(long)` unboxing casts are not modelled.
- The window's `satisfy` is a fixed predicate of the control column and the position; the window's own state is a log of merged positions. A window whose boundary test depends on its merged rows is not covered.
- Guava `checkArgument` failures and out-of-bounds reads are caller errors. They are `requires` clauses: one partial column, one output builder, at least one row, three aligned columns. The values in a column must fit the series type.
- The unsupported-type error carries the function name and the type; the formatted message string is not modelled.
- PlanFragment.java is a holder whose only logic is a `toString` that depends on a type not part of this model. JvmThreadMetrics.java is JVM monitoring plumbing made of foreign calls. Neither is modelled.
