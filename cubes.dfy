/** `sum_of_cubes(a, b)`: the sum of `i ** 3` for `i` from `a` up to `b`. */
module Cubes {

  /**
   * Sum of the cubes of the integers `a..b`, both included. Nicomachus:
   * four times it is `(b(b+1))^2 - ((a-1)a)^2`, for negative bounds too.
   */
  function CubeSum(a: int, b: int): (sum: int)
    requires a <= b
    ensures 4 * sum == (b * (b + 1)) * (b * (b + 1)) - ((a - 1) * a) * ((a - 1) * a)
    decreases b - a
  {
    CubeStep(b);
    if a == b then a * a * a else CubeSum(a, b - 1) + b * b * b
  }

  /**
   * The loop only stops when `i` reaches `b` by counting up from `a`, so with
   * `a > b` the source never returns; `a <= b` is what it needs.
   */
  method SumOfCubes(a: int, b: int) returns (result: int)
    requires a <= b
    ensures result == CubeSum(a, b)
    ensures a == b ==> result == a * a * a
  {
    var i := a;
    result := i * i * i;
    while i != b
      invariant a <= i <= b
      invariant result == CubeSum(a, i)
      decreases b - i
    {
      i := i + 1;
      result := result + i * i * i;
    }
  }

  /** `(n(n+1))^2 - ((n-1)n)^2 == 4n^3`, the step of the closed form. */
  lemma CubeStep(n: int)
    ensures (n * (n + 1)) * (n * (n + 1)) - ((n - 1) * n) * ((n - 1) * n) == 4 * (n * n * n)
  {
    calc {
      (n * (n + 1)) * (n * (n + 1)) - ((n - 1) * n) * ((n - 1) * n);
      (n * n) * ((n + 1) * (n + 1)) - (n * n) * ((n - 1) * (n - 1));
      (n * n) * ((n + 1) * (n + 1) - (n - 1) * (n - 1));
      { assert (n + 1) * (n + 1) - (n - 1) * (n - 1) == 4 * n; }
      (n * n) * (4 * n);
    }
  }

  /** Splitting the range at any point splits the sum. */
  lemma {:induction false} CubeSumSplit(a: int, m: int, b: int)
    requires a <= m < b
    ensures CubeSum(a, b) == CubeSum(a, m) + CubeSum(m + 1, b)
    decreases b - a
  {
    if m + 1 < b {
      CubeSumSplit(a, m, b - 1);
    }
  }
}
