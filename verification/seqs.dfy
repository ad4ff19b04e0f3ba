/** Small facts about sequences shared by the rest of the model. */
module Seqs {

  /** No value occurs twice in `xs`: the array-used-as-a-set discipline. */
  predicate Distinct<T(==)>(xs: seq<T>) {
    forall i, j :: 0 <= i < j < |xs| ==> xs[i] != xs[j]
  }

  /** Appending a value that is not yet present keeps a sequence duplicate-free. */
  lemma DistinctAppend<T>(xs: seq<T>, x: T)
    requires x !in xs
    ensures Distinct(xs) ==> Distinct(xs + [x])
  {
    var ys := xs + [x];
    forall i, j | Distinct(xs) && 0 <= i < j < |ys|
      ensures ys[i] != ys[j]
    {
      if j == |xs| {
        assert ys[i] == xs[i];
      }
    }
  }

  /** The last entry of a duplicate-free sequence occurs nowhere before it. */
  lemma LastNotEarlier<T>(xs: seq<T>)
    requires Distinct(xs) && |xs| > 0
    ensures xs[|xs| - 1] !in xs[..|xs| - 1]
  {
    var m := |xs| - 1;
    forall k | 0 <= k < m
      ensures xs[..m][k] != xs[m]
    {
      assert xs[k] != xs[m];
    }
  }
}
