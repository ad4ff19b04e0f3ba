/** The "Mark as Completed / Incomplete" toggle over the list of completed day
    indices, an array that the application uses as a set. */
module Completion {
  import opened Seqs

  /** `completed.filter(d => d !== x)`: every occurrence of `x` dropped, the
      other entries kept with their multiplicities. */
  function RemoveAll(xs: seq<int>, x: int): (r: seq<int>)
    ensures forall y :: y in r <==> y in xs && y != x
    ensures multiset(r) == multiset(xs)[x := 0]
    ensures x !in xs ==> r == xs
    ensures Distinct(xs) ==> Distinct(r)
  {
    if |xs| == 0 then []
    else
      var rest := RemoveAll(xs[1..], x);
      assert xs == [xs[0]] + xs[1..];
      if xs[0] == x then
        rest
      else
        assert Distinct(xs) ==> xs[0] !in xs[1..] && xs[0] !in rest;
        [xs[0]] + rest
  }

  /** Filtering distributes over concatenation: the order of the surviving
      entries is exactly their order in the input. */
  lemma {:induction false} RemoveAllAppend(a: seq<int>, b: seq<int>, x: int)
    ensures RemoveAll(a + b, x) == RemoveAll(a, x) + RemoveAll(b, x)
  {
    if |a| > 0 {
      assert (a + b)[1..] == a[1..] + b;
      RemoveAllAppend(a[1..], b, x);
    } else {
      assert a + b == b;
    }
  }

  /** `toggleCompletion(i)`: drop every copy of `i` when it is listed,
      otherwise append it at the end. */
  function Toggle(xs: seq<int>, i: int): (r: seq<int>)
    ensures i in r <==> i !in xs
    ensures forall j :: j != i ==> (j in r <==> j in xs)
    ensures i in xs ==> r == RemoveAll(xs, i) && multiset(r) == multiset(xs)[i := 0]
    ensures i !in xs ==> multiset(r) == multiset(xs) + multiset{i}
    ensures i !in xs ==> |r| == |xs| + 1 && r[..|xs|] == xs
    ensures Distinct(xs) ==> Distinct(r)
  {
    if i in xs then
      RemoveAll(xs, i)
    else
      DistinctAppend(xs, i);
      xs + [i]
  }

  /** Toggling twice restores the membership of every index. */
  lemma ToggleTwiceSameMembers(xs: seq<int>, i: int)
    ensures forall j :: j in Toggle(Toggle(xs, i), i) <==> j in xs
  {
  }

  /** Toggling an index that is not listed, and then toggling it again,
      gives back the identical list. */
  lemma ToggleTwiceAbsent(xs: seq<int>, i: int)
    requires i !in xs
    ensures Toggle(Toggle(xs, i), i) == xs
  {
    RemoveAllAppend(xs, [i], i);
  }

  /** Toggling a listed index twice keeps the other entries in order and moves
      the index to the end; the list comes back unchanged exactly when the
      index was already last. */
  lemma ToggleTwicePresent(xs: seq<int>, i: int)
    requires Distinct(xs) && i in xs
    ensures Toggle(Toggle(xs, i), i) == RemoveAll(xs, i) + [i]
    ensures Toggle(Toggle(xs, i), i) == xs <==> xs[|xs| - 1] == i
  {
    var once := RemoveAll(xs, i);
    assert Toggle(xs, i) == once;
    assert i !in once;
    assert Toggle(once, i) == once + [i];
    if xs[|xs| - 1] == i {
      LastRemoved(xs, i);
    }
  }

  /** In a duplicate-free list whose last entry is `i`, filtering out `i`
      leaves exactly the entries before it. */
  lemma LastRemoved(xs: seq<int>, i: int)
    requires Distinct(xs) && |xs| > 0 && xs[|xs| - 1] == i
    ensures RemoveAll(xs, i) + [i] == xs
  {
    var init := xs[..|xs| - 1];
    assert xs == init + [i];
    LastNotEarlier(xs);
    assert RemoveAll(init, i) == init;
    RemoveAllAppend(init, [i], i);
    assert RemoveAll([i], i) == [] by {
      assert [i][1..] == [];
    }
  }

  /** The list order is not restored in general: `[0, 1]` becomes `[1, 0]`. */
  lemma ToggleTwiceReorders()
    ensures Toggle(Toggle([0, 1], 0), 0) == [1, 0]
  {
    assert [0, 1][1..] == [1];
  }
}
