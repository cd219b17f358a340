/** The Fibonacci example (example/fibonacci.cc) and the test header with the same functions
    (include/test/fibonacci.h): an iterative reference, the textbook recursion, and a
    recursion that hands its two sub-problems to child operations above a threshold.
    Awaiting a child's future yields the child's return value, so the asynchronous recursion
    is modelled by the values it combines. */
module FibonacciExample {
  /** The largest `int`. */
  const Int32Max: int := 0x7fff_ffff

  /** The threshold below which `recfib_async` computes synchronously. */
  const AsyncThreshold: nat := 20

  /** `recfib_sync`, the textbook recursion; it is also the reference every other function
      here is proved against. */
  function RecFibSync(i: nat): (r: nat)
    ensures i >= 1 ==> r >= 1
    ensures i >= 2 ==> r >= i - 1
  {
    if i == 0 then 0
    else if i == 1 then 1
    else RecFibSync(i - 1) + RecFibSync(i - 2)
  }

  /** `n` steps of `(a, b) := (b, a + b)`, then `a`: the iteration `iterfib` performs. */
  function FibFrom(a: nat, b: nat, n: nat): nat
    decreases n
  {
    if n == 0 then a else FibFrom(b, a + b, n - 1)
  }

  lemma {:induction false} FibFromAgrees(k: nat, n: nat)
    ensures FibFrom(RecFibSync(k), RecFibSync(k + 1), n) == RecFibSync(k + n)
    decreases n
  {
    if n > 0 {
      FibFromAgrees(k + 1, n - 1);
    }
  }

  lemma {:induction false} FibMonotone(m: nat, n: nat)
    requires m <= n
    ensures RecFibSync(m) <= RecFibSync(n)
    decreases n - m
  {
    if m < n {
      FibMonotone(m, n - 1);
      assert n >= 2 ==> RecFibSync(n) == RecFibSync(n - 1) + RecFibSync(n - 2);
    }
  }

  /** fib(46) = 1836311903 is the largest Fibonacci number an `int` holds; the steps below
      evaluate the iteration two at a time. */
  lemma Fib46()
    ensures FibFrom(0, 1, 46) == 1836311903
  {
    assert FibFrom(1, 2, 44) == FibFrom(0, 1, 46);
    assert FibFrom(3, 5, 42) == FibFrom(0, 1, 46);
    assert FibFrom(8, 13, 40) == FibFrom(0, 1, 46);
    assert FibFrom(21, 34, 38) == FibFrom(0, 1, 46);
    assert FibFrom(55, 89, 36) == FibFrom(0, 1, 46);
    assert FibFrom(144, 233, 34) == FibFrom(0, 1, 46);
    assert FibFrom(377, 610, 32) == FibFrom(0, 1, 46);
    assert FibFrom(987, 1597, 30) == FibFrom(0, 1, 46);
    assert FibFrom(2584, 4181, 28) == FibFrom(0, 1, 46);
    assert FibFrom(6765, 10946, 26) == FibFrom(0, 1, 46);
    assert FibFrom(17711, 28657, 24) == FibFrom(0, 1, 46);
    assert FibFrom(46368, 75025, 22) == FibFrom(0, 1, 46);
    assert FibFrom(121393, 196418, 20) == FibFrom(0, 1, 46);
    assert FibFrom(317811, 514229, 18) == FibFrom(0, 1, 46);
    assert FibFrom(832040, 1346269, 16) == FibFrom(0, 1, 46);
    assert FibFrom(2178309, 3524578, 14) == FibFrom(0, 1, 46);
    assert FibFrom(5702887, 9227465, 12) == FibFrom(0, 1, 46);
    assert FibFrom(14930352, 24157817, 10) == FibFrom(0, 1, 46);
    assert FibFrom(39088169, 63245986, 8) == FibFrom(0, 1, 46);
    assert FibFrom(102334155, 165580141, 6) == FibFrom(0, 1, 46);
    assert FibFrom(267914296, 433494437, 4) == FibFrom(0, 1, 46);
    assert FibFrom(701408733, 1134903170, 2) == FibFrom(0, 1, 46);
    assert FibFrom(1836311903, 2971215073, 0) == FibFrom(0, 1, 46);
  }

  lemma FibFitsInInt32(n: nat)
    requires n <= 46
    ensures RecFibSync(n) <= Int32Max
  {
    Fib46();
    FibFromAgrees(0, 46);
    FibMonotone(n, 46);
  }

  /** `iterfib(count)`: 0 and 1 for counts 0 and 1; otherwise `count - 1` steps of
      `(i, j) := (j, i + j)` from (0, 1), returning `j`. A negative count skips the loop and
      returns 1. Counts above 46 overflow `int`, which the source leaves undefined. */
  method IterFib(count: int) returns (r: int)
    requires count <= 46
    ensures count >= 0 ==> r == RecFibSync(count)
    ensures count < 0 ==> r == 1
    ensures 0 <= r <= Int32Max
  {
    if count == 0 {
      return 0;
    }
    if count == 1 {
      return 1;
    }
    var i, j := 0, 1;
    var c := 0;
    while c < count - 1
      invariant count >= 2 ==> 0 <= c <= count - 1
      invariant count < 2 ==> c == 0
      invariant i == RecFibSync(c) && j == RecFibSync(c + 1)
    {
      FibFitsInInt32(c + 2);
      var tmp := j;
      j := i + j;
      i := tmp;
      c := c + 1;
    }
    FibFitsInInt32(c + 1);
    r := j;
  }

  /** `recfib_async(i)` (threshold `AsyncThreshold`) and the test header's `recfib(i)`
      (threshold 2, where the direct answers are its base cases 0 and 1): below the threshold
      the synchronous recursion; from it on, the sum of the results of two child operations
      computing `i - 1` and `i - 2`. It agrees with the reference for every threshold. */
  function RecFibAsync(threshold: nat, i: nat): (r: nat)
    requires threshold >= 2
    ensures r == RecFibSync(i)
  {
    if i < threshold then RecFibSync(i)
    else RecFibAsync(threshold, i - 1) + RecFibAsync(threshold, i - 2)
  }

  /** `check(n, expected)`: whether the result of the recursion run as a child operation
      matches `expected`; it matches exactly when `expected` is fib(n). */
  function Check(threshold: nat, n: nat, expected: int): (matched: bool)
    requires threshold >= 2
    ensures matched <==> expected == RecFibSync(n)
  {
    RecFibAsync(threshold, n) == expected
  }

  /** The table `main` fills with `iterfib(0)`, ..., `iterfib(count - 1)` before it posts one
      `check(i, expected[i])` per entry: every one of those checks matches. */
  method ExpectedValues(count: nat) returns (expected: seq<int>)
    requires count <= 47
    ensures |expected| == count
    ensures forall i {:trigger expected[i]} :: 0 <= i < count ==> expected[i] == RecFibSync(i)
    ensures forall i {:trigger expected[i]} :: 0 <= i < count ==> Check(AsyncThreshold, i, expected[i])
  {
    expected := [];
    for i := 0 to count
      invariant |expected| == i
      invariant forall k {:trigger expected[k]} :: 0 <= k < i ==> expected[k] == RecFibSync(k)
    {
      var f := IterFib(i);
      expected := expected + [f];
    }
    forall i | 0 <= i < count
      ensures Check(AsyncThreshold, i, expected[i])
    {
      assert expected[i] == RecFibSync(i);
    }
  }
}
