/** The Previous / Next buttons: cyclic movement over `n` day indices. */
module Navigation {

  /** JavaScript's `%` for a positive divisor: the remainder truncates toward
      zero, so it takes the sign of the dividend (unlike Dafny's `%`). The
      contract pins the result down uniquely. */
  function JsRem(a: int, n: int): (r: int)
    requires n > 0
    ensures (a - r) % n == 0
    ensures a >= 0 ==> 0 <= r < n
    ensures a < 0 ==> -n < r <= 0
  {
    if a >= 0 then
      ModUnique(a - a % n, a / n, 0, n);
      a % n
    else
      ModUnique(a + (-a) % n, -((-a) / n), 0, n);
      -((-a) % n)
  }

  /** "Next": `(day + 1) % n`. From a valid index it moves one step forward,
      wrapping from the last index to the first. */
  function Next(day: int, n: int): (r: int)
    requires n > 0
    ensures 0 <= day < n ==> 0 <= r < n
    ensures 0 <= day < n - 1 ==> r == day + 1
    ensures day == n - 1 ==> r == 0
  {
    JsRemNearRange(day + 1, n);
    JsRem(day + 1, n)
  }

  /** "Previous": `(day - 1 + n) % n`. From a valid index it moves one step
      back, wrapping from the first index to the last. */
  function Prev(day: int, n: int): (r: int)
    requires n > 0
    ensures 0 <= day < n ==> 0 <= r < n
    ensures 0 < day < n ==> r == day - 1
    ensures day == 0 ==> r == n - 1
  {
    JsRemNearRange(day - 1 + n, n);
    JsRem(day - 1 + n, n)
  }

  /** On `[0, 2n)` the remainder either keeps its operand or subtracts `n` once. */
  lemma JsRemNearRange(a: int, n: int)
    requires n > 0
    ensures 0 <= a < n ==> JsRem(a, n) == a
    ensures n <= a < 2 * n ==> JsRem(a, n) == a - n
  {
    if 0 <= a < n {
      ModUnique(a, 0, a, n);
    } else if n <= a < 2 * n {
      ModUnique(a, 1, a - n, n);
    }
  }

  /** Previous and Next undo each other on every valid index. */
  lemma PrevNextInverse(day: int, n: int)
    requires 0 <= day < n
    ensures Next(Prev(day, n), n) == day
    ensures Prev(Next(day, n), n) == day
  {
  }

  /** `k` presses of Next. */
  function Forward(day: int, n: int, k: nat): int
    requires n > 0
  {
    if k == 0 then day else Next(Forward(day, n, k - 1), n)
  }

  /** `k` presses of Previous. */
  function Backward(day: int, n: int, k: nat): int
    requires n > 0
  {
    if k == 0 then day else Prev(Backward(day, n, k - 1), n)
  }

  /** Any number of Next presses from a valid index lands on the index shifted
      cyclically by that number. */
  lemma {:induction false} ForwardIsShift(day: int, n: int, k: nat)
    requires 0 <= day < n
    ensures Forward(day, n, k) == (day + k) % n
  {
    if k > 0 {
      var x := day + (k - 1);
      ForwardIsShift(day, n, k - 1);
      assert Forward(day, n, k) == Next(x % n, n);
      ShiftStep(x, n);
      assert x + 1 == day + k;
    }
  }

  /** Any number of Previous presses from a valid index lands on the index
      shifted cyclically backwards by that number. */
  lemma {:induction false} BackwardIsShift(day: int, n: int, k: nat)
    requires 0 <= day < n
    ensures Backward(day, n, k) == (day - k) % n
  {
    if k > 0 {
      var x := day - (k - 1);
      BackwardIsShift(day, n, k - 1);
      assert Backward(day, n, k) == Prev(x % n, n);
      ShiftBackStep(x, n);
      assert x - 1 == day - k;
    }
  }

  /** One Next step applied to `x % n` is `(x + 1) % n`. */
  lemma ShiftStep(x: int, n: int)
    requires n > 0
    ensures Next(x % n, n) == (x + 1) % n
  {
    var q, r := x / n, x % n;
    if r == n - 1 {
      ModUnique(x + 1, q + 1, 0, n);
    } else {
      ModUnique(x + 1, q, r + 1, n);
    }
  }

  /** One Previous step applied to `x % n` is `(x - 1) % n`. */
  lemma ShiftBackStep(x: int, n: int)
    requires n > 0
    ensures Prev(x % n, n) == (x - 1) % n
  {
    var q, r := x / n, x % n;
    if r == 0 {
      ModUnique(x - 1, q - 1, n - 1, n);
    } else {
      ModUnique(x - 1, q, r - 1, n);
    }
  }

  /** A full round of `n` presses in either direction returns to the start. */
  lemma FullCycle(day: int, n: int)
    requires 0 <= day < n
    ensures Forward(day, n, n) == day
    ensures Backward(day, n, n) == day
  {
    ForwardIsShift(day, n, n);
    BackwardIsShift(day, n, n);
    ModUnique(day + n, 1, day, n);
    ModUnique(day - n, -1, day, n);
  }

  /** `k * n` is at least `n` for every positive `k`. */
  lemma MulAtLeast(k: int, n: int)
    requires k >= 1 && n > 0
    ensures k * n >= n
  {
    if k > 1 {
      MulAtLeast(k - 1, n);
      assert k * n == (k - 1) * n + n;
    }
  }

  /** Euclidean division is unique: quotient and remainder are determined by
      any decomposition with the remainder in `[0, n)`. */
  lemma ModUnique(x: int, q: int, r: int, n: int)
    requires n > 0 && 0 <= r < n && x == q * n + r
    ensures x % n == r && x / n == q
  {
    var q', r' := x / n, x % n;
    assert (q - q') * n == r' - r;
    if q - q' >= 1 {
      MulAtLeast(q - q', n);
      assert false;
    }
    if q' - q >= 1 {
      MulAtLeast(q' - q, n);
      assert false;
    }
  }
}
