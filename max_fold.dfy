/**
 * The running maximum as a value: the fold step shared by every entry point
 * of the accumulator, its repetition over a sequence of values, the merge of
 * a peer's partial result, and the two-phase (partial, then merge) protocol.
 * A running value of None means "nothing has been folded yet".
 */
module MaxFold {
  import opened Wrappers

  /**
   * One fold step: the value replaces the running one when nothing was folded
   * before or when it is strictly greater, so a tie keeps the old value.
   */
  function Fold(acc: Option<int>, v: int): (r: Option<int>)
    ensures r.Some? && v <= r.value
    ensures acc.Some? ==> acc.value <= r.value
    ensures r == Some(v) || r == acc
  {
    if acc.None? || v > acc.value then Some(v) else acc
  }

  /** Folds the values one after another, first to last, into a running value. */
  function FoldAll(acc: Option<int>, xs: seq<int>): Option<int>
    decreases |xs|
  {
    if xs == [] then acc else Fold(FoldAll(acc, xs[..|xs| - 1]), xs[|xs| - 1])
  }

  /** Folding one more value is one more fold step. */
  lemma FoldAllSnoc(acc: Option<int>, xs: seq<int>, v: int)
    ensures FoldAll(acc, xs + [v]) == Fold(FoldAll(acc, xs), v)
  {
  }

  /** m is the largest of the starting value (when there is one) and the values xs. */
  ghost predicate IsMaxWith(m: int, acc: Option<int>, xs: seq<int>) {
    && (acc == Some(m) || m in xs)
    && (acc.Some? ==> acc.value <= m)
    && (forall x :: x in xs ==> x <= m)
  }

  /** m is the largest of the values xs. */
  ghost predicate IsMaxOf(m: int, xs: seq<int>) {
    IsMaxWith(m, None, xs)
  }

  /**
   * After any sequence of folds the running value is absent exactly when it
   * started absent and nothing was folded, and otherwise it is the maximum of
   * the starting value and all folded values.
   */
  lemma {:induction false} FoldAllIsMax(acc: Option<int>, xs: seq<int>)
    ensures FoldAll(acc, xs).None? <==> acc.None? && xs == []
    ensures FoldAll(acc, xs).Some? ==> IsMaxWith(FoldAll(acc, xs).value, acc, xs)
  {
    if xs != [] {
      var init, last := xs[..|xs| - 1], xs[|xs| - 1];
      FoldAllIsMax(acc, init);
      assert xs == init + [last];
    }
  }

  /** Starting from nothing, the fold yields null for no values and their maximum otherwise. */
  lemma FoldAllFromNothing(xs: seq<int>)
    ensures FoldAll(None, xs) == None <==> xs == []
    ensures xs != [] ==> FoldAll(None, xs).Some? && IsMaxOf(FoldAll(None, xs).value, xs)
  {
    FoldAllIsMax(None, xs);
  }

  lemma MaxWithUnique(m: int, n: int, acc: Option<int>, xs: seq<int>, ys: seq<int>)
    requires IsMaxWith(m, acc, xs) && IsMaxWith(n, acc, ys)
    requires forall x :: x in xs <==> x in ys
    ensures m == n
  {
  }

  /** The fold depends only on which values were folded, not on their order or repetition. */
  lemma FoldAllDependsOnMembers(acc: Option<int>, xs: seq<int>, ys: seq<int>)
    requires forall x :: x in xs <==> x in ys
    ensures FoldAll(acc, xs) == FoldAll(acc, ys)
  {
    FoldAllIsMax(acc, xs);
    FoldAllIsMax(acc, ys);
    if xs != [] {
      assert xs[0] in xs;
    }
    if ys != [] {
      assert ys[0] in ys;
    }
    if FoldAll(acc, xs).Some? {
      MaxWithUnique(FoldAll(acc, xs).value, FoldAll(acc, ys).value, acc, xs, ys);
    }
  }

  /** Folding any permutation of the same values gives the same result. */
  lemma FoldAllOrderIndependent(acc: Option<int>, xs: seq<int>, ys: seq<int>)
    requires multiset(xs) == multiset(ys)
    ensures FoldAll(acc, xs) == FoldAll(acc, ys)
  {
    forall x
      ensures x in xs <==> x in ys
    {
      assert x in xs <==> x in multiset(xs);
      assert x in ys <==> x in multiset(ys);
    }
    FoldAllDependsOnMembers(acc, xs, ys);
  }

  /** Folding two batches one after the other is folding their concatenation. */
  lemma {:induction false} FoldAllAppend(acc: Option<int>, xs: seq<int>, ys: seq<int>)
    ensures FoldAll(acc, xs + ys) == FoldAll(FoldAll(acc, xs), ys)
    decreases |ys|
  {
    if ys == [] {
      assert xs + ys == xs;
    } else {
      var init := ys[..|ys| - 1];
      FoldAllAppend(acc, xs, init);
      assert (xs + ys)[..|xs + ys| - 1] == xs + init;
    }
  }

  /** Merges a peer's partial result: a null partial changes nothing, a value is folded. */
  function Merge(acc: Option<int>, partial: Option<int>): Option<int> {
    match partial
    case None => acc
    case Some(v) => Fold(acc, v)
  }

  /** Merges partial results one after another, in arrival order. */
  function MergeAll(acc: Option<int>, partials: seq<Option<int>>): Option<int>
    decreases |partials|
  {
    if partials == [] then acc
    else Merge(MergeAll(acc, partials[..|partials| - 1]), partials[|partials| - 1])
  }

  /** The non-null entries of a sequence of partial results, in order. */
  function Present(partials: seq<Option<int>>): (vs: seq<int>)
    ensures forall v :: v in vs <==> Some(v) in partials
    decreases |partials|
  {
    if partials == [] then []
    else
      var init := partials[..|partials| - 1];
      assert partials == init + [partials[|partials| - 1]];
      Present(init) + match partials[|partials| - 1] case None => [] case Some(v) => [v]
  }

  /** Computing a partial result and merging it equals folding its values directly. */
  lemma {:induction false} PartialThenMerge(acc: Option<int>, ys: seq<int>)
    ensures Merge(acc, FoldAll(None, ys)) == FoldAll(acc, ys)
  {
    FoldAllIsMax(None, ys);
    FoldAllIsMax(acc, ys);
    if ys != [] {
      var m := FoldAll(None, ys).value;
      assert IsMaxWith(Fold(acc, m).value, acc, ys);
      MaxWithUnique(Fold(acc, m).value, FoldAll(acc, ys).value, acc, ys, ys);
    }
  }

  /** Merging partial results is folding the values they carry; null partials vanish. */
  lemma {:induction false} MergeAllIsFoldAll(acc: Option<int>, partials: seq<Option<int>>)
    ensures MergeAll(acc, partials) == FoldAll(acc, Present(partials))
    decreases |partials|
  {
    if partials != [] {
      var init := partials[..|partials| - 1];
      MergeAllIsFoldAll(acc, init);
      match partials[|partials| - 1]
      case None =>
        assert Present(partials) == Present(init);
      case Some(v) =>
        assert Present(partials) == Present(init) + [v];
        assert Present(partials)[..|Present(partials)| - 1] == Present(init);
    }
  }

  /** Partial results merged in any arrival order give the same running value. */
  lemma MergeAllOrderIndependent(acc: Option<int>, ps: seq<Option<int>>, qs: seq<Option<int>>)
    requires multiset(ps) == multiset(qs)
    ensures MergeAll(acc, ps) == MergeAll(acc, qs)
  {
    MergeAllIsFoldAll(acc, ps);
    MergeAllIsFoldAll(acc, qs);
    forall v
      ensures v in Present(ps) <==> v in Present(qs)
    {
      assert Some(v) in ps <==> Some(v) in multiset(ps);
      assert Some(v) in qs <==> Some(v) in multiset(qs);
    }
    FoldAllDependsOnMembers(acc, Present(ps), Present(qs));
  }

  /** All partitions' values, partition after partition. */
  function Concat(parts: seq<seq<int>>): seq<int>
    decreases |parts|
  {
    if parts == [] then [] else Concat(parts[..|parts| - 1]) + parts[|parts| - 1]
  }

  /** The partial result each partition emits: the fold of its values from nothing. */
  function Partials(parts: seq<seq<int>>): (ps: seq<Option<int>>)
    ensures |ps| == |parts|
    ensures forall i :: 0 <= i < |parts| ==> ps[i] == FoldAll(None, parts[i])
  {
    seq(|parts|, i requires 0 <= i < |parts| => FoldAll(None, parts[i]))
  }

  /**
   * Two-phase aggregation: merging every partition's partial result, in
   * partition order, equals one pass over all values.
   */
  lemma {:induction false} TwoPhase(acc: Option<int>, parts: seq<seq<int>>)
    ensures MergeAll(acc, Partials(parts)) == FoldAll(acc, Concat(parts))
    decreases |parts|
  {
    if parts != [] {
      var init, last := parts[..|parts| - 1], parts[|parts| - 1];
      TwoPhase(acc, init);
      assert Partials(parts)[..|parts| - 1] == Partials(init);
      PartialThenMerge(FoldAll(acc, Concat(init)), last);
      FoldAllAppend(acc, Concat(init), last);
    }
  }

  /** Two-phase aggregation gives the single-pass result whatever the arrival order of the partials. */
  lemma TwoPhaseAnyOrder(parts: seq<seq<int>>, arrivals: seq<Option<int>>)
    requires multiset(arrivals) == multiset(Partials(parts))
    ensures MergeAll(None, arrivals) == FoldAll(None, Concat(parts))
  {
    MergeAllOrderIndependent(None, arrivals, Partials(parts));
    TwoPhase(None, parts);
  }

  /** Folding a chunk's precomputed maximum equals folding every value of the chunk. */
  lemma StatisticsShortcut(acc: Option<int>, chunk: seq<int>, chunkMax: int)
    requires IsMaxOf(chunkMax, chunk)
    ensures Fold(acc, chunkMax) == FoldAll(acc, chunk)
  {
    FoldAllIsMax(None, chunk);
    MaxWithUnique(FoldAll(None, chunk).value, chunkMax, None, chunk, chunk);
    PartialThenMerge(acc, chunk);
  }
}
