/**
 * `kaprekar?(k)`: with `n` the length of the decimal text of `k`, split `k*k`
 * into its last `n` digits and the rest, and compare their sum with `k`.
 */
module Kaprekar {

  function Pow10(n: nat): (p: nat)
    ensures p >= 1
  {
    if n == 0 then 1 else 10 * Pow10(n - 1)
  }

  /** Number of decimal digits of a non-negative integer (0 has one). */
  function DigitCount(k: nat): (d: nat)
    ensures d >= 1
  {
    if k < 10 then 1 else 1 + DigitCount(k / 10)
  }

  /** `"#{k}".length`: the digits, plus one for the minus sign of a negative number. */
  function DecimalLength(k: int): (n: nat)
    ensures n >= 1
  {
    if k < 0 then 1 + DigitCount(-k) else DigitCount(k)
  }

  /**
   * `k2 % 10**n + k2 / 10**n == k`. Ruby's `%` and `/` agree with Dafny's on
   * the non-negative `k2` and positive `10**n`. The source also computes the
   * length of `k2`'s text and never uses it.
   */
  predicate IsKaprekar(k: int)
    ensures IsKaprekar(k) ==> 0 <= k
  {
    var k2 := k * k;
    var p := Pow10(DecimalLength(k));
    k == k2 % p + k2 / p
  }

  /** `DigitCount(k)` is the `d` with `10^(d-1) <= k < 10^d`; `0` has the single digit `d = 1`. */
  lemma {:induction false} DigitCountBounds(k: nat)
    ensures k == 0 || Pow10(DigitCount(k) - 1) <= k
    ensures k < Pow10(DigitCount(k))
    ensures DigitCount(k) == 1 <==> k < 10
  {
    if k >= 10 {
      var q, d := k / 10, DigitCount(k / 10);
      DigitCountBounds(q);
      assert q >= Pow10(d - 1) && q + 1 <= Pow10(d);
      assert 10 * q <= k < 10 * q + 10;
      assert Pow10(d) == 10 * Pow10(d - 1);
    }
  }

  lemma {:induction false} Pow10Add(a: nat, b: nat)
    ensures Pow10(a + b) == Pow10(a) * Pow10(b)
  {
    if a > 0 {
      Pow10Add(a - 1, b);
    }
  }

  lemma {:induction false} DigitCountOfPow10(j: nat)
    ensures DigitCount(Pow10(j)) == j + 1
  {
    if j > 0 {
      DigitCountOfPow10(j - 1);
    }
  }

  /**
   * Kaprekar's divisibility property: if `k` passes, `k*k - k` is a multiple of
   * `10^n - 1`, the quotient being the left part of the split.
   */
  lemma KaprekarDivisibility(k: int)
    requires IsKaprekar(k)
    ensures var p := Pow10(DecimalLength(k));
      k * k - k == (k * k / p) * (p - 1)
  {
    var p := Pow10(DecimalLength(k));
    SplitDivisibility(k, k * k, p);
  }

  /** If `k` is the sum of the two parts of `k2` split at `p`, the left part times `p - 1` is `k2 - k`. */
  lemma SplitDivisibility(k: int, k2: int, p: int)
    requires p > 0 && k == k2 % p + k2 / p
    ensures k2 - k == (k2 / p) * (p - 1)
  {
    var left, right := k2 / p, k2 % p;
    assert k2 == p * left + right;
    assert left * (p - 1) == p * left - left;
  }

  /** `10^j` for `j >= 1` fails: its square splits into `0` and `10^(j-1)`. */
  lemma PowerOfTenIsNotKaprekar(j: nat)
    requires j >= 1
    ensures !IsKaprekar(Pow10(j))
  {
    var k, p, left := Pow10(j), Pow10(j + 1), Pow10(j - 1);
    DigitCountOfPow10(j);
    assert DecimalLength(k) == j + 1;
    Pow10Add(j, j);
    Pow10Add(j + 1, j - 1);
    assert k == 10 * left;
    ShiftedSplitFails(k, k * k, p, left);
  }

  /** When `k2 == p * left` and `k == 10 * left`, the split at `p` sums to `left`, not `k`. */
  lemma ShiftedSplitFails(k: int, k2: int, p: nat, left: nat)
    requires p > 0 && left >= 1 && k2 == p * left && k == 10 * left
    ensures k != k2 % p + k2 / p
  {
    ExactDivision(p, left);
  }

  lemma ExactDivision(p: nat, q: nat)
    requires p > 0
    ensures (p * q) % p == 0 && (p * q) / p == q
  {
    var d, m := (p * q) / p, (p * q) % p;
    assert p * (q - d) == m;
    MultipleBelowDivisor(q - d, p, m);
  }

  /** The only multiple of `p` in `[0, p)` is `0 * p`. */
  lemma MultipleBelowDivisor(x: int, p: nat, m: int)
    requires p > 0 && p * x == m && 0 <= m < p
    ensures x == 0
  {
  }

  /** 45 passes: `45 * 45 == 2025` and `20 + 25 == 45`. */
  lemma FortyFiveIsKaprekar()
    ensures IsKaprekar(45)
  {
    assert DigitCount(45) == 2;
  }

  /** 297 passes: `297 * 297 == 88209` and `88 + 209 == 297`. */
  lemma TwoNinetySevenIsKaprekar()
    ensures IsKaprekar(297)
  {
    assert DigitCount(297) == 3;
  }

  /** 0 passes too, since `0 % 10 + 0 / 10 == 0`. */
  lemma ZeroIsKaprekar()
    ensures IsKaprekar(0)
  {
  }
}
