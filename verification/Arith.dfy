/** Arithmetic of the C source on mathematical integers and reals, and prefix sums of histories. */
module Arith {

  function Abs(x: int): nat {
    if x < 0 then -x else x
  }

  function AbsR(x: real): real {
    if x < 0.0 then -x else x
  }

  function Min(a: int, b: int): int {
    if a < b then a else b
  }

  /** C's `round`: the nearest integer, halves away from zero. */
  function Round(x: real): int {
    if x >= 0.0 then (x + 0.5).Floor else -((0.5 - x).Floor)
  }

  /** Exactly when rounding reaches k; for k <= 0 the half below k rounds away from it. */
  lemma RoundAtLeast(x: real, k: int)
    ensures Round(x) >= k <==> if k >= 1 then x >= k as real - 0.5 else x > k as real - 0.5
  {
  }

  /** C's integer division: the quotient is truncated toward zero. */
  function TruncDiv(n: int, d: int): int
    requires d >= 1
  {
    if n >= 0 then n / d else -(-n / d)
  }

  /** Truncation by either proportional gain keeps the sign, never grows the magnitude and loses less than the divisor. */
  lemma TruncDivBounds(n: int, d: int)
    requires d == 1 || d == 4
    ensures TruncDiv(-n, d) == -TruncDiv(n, d)
    ensures n >= 0 ==> 0 <= TruncDiv(n, d) <= n && n - d < d * TruncDiv(n, d) <= n
    ensures d == 1 ==> TruncDiv(n, d) == n
  {
    if d == 1 {
      assert n / d == n && -n / d == -n;
    }
  }

  function Sum(s: seq<int>): int {
    if s == [] then 0 else Sum(s[..|s| - 1]) + s[|s| - 1]
  }

  /** The sum of the first k elements. */
  function Prefix(s: seq<int>, k: nat): int
    requires k <= |s|
  {
    if k == 0 then 0 else Prefix(s, k - 1) + s[k - 1]
  }

  lemma {:induction false} PrefixExtend(s: seq<int>, x: int, k: nat)
    requires k <= |s|
    ensures Prefix(s + [x], k) == Prefix(s, k)
  {
    if k > 0 {
      PrefixExtend(s, x, k - 1);
    }
  }

  /** Prefix sums give the sum of any slice. */
  lemma {:induction false} PrefixSlice(s: seq<int>, i: nat, j: nat)
    requires i <= j <= |s|
    ensures Prefix(s, j) - Prefix(s, i) == Sum(s[i..j])
    decreases j - i
  {
    if i < j {
      PrefixSlice(s, i, j - 1);
      assert s[i..j][..j - 1 - i] == s[i..j - 1];
    }
  }

  lemma MulMonotone(a: nat, b: nat, c: nat)
    requires a <= b
    ensures a * c <= b * c
  {
  }

  /** The last m of n elements, each bounded by b, sum to at most m times b. */
  lemma {:induction false} PrefixBound(s: seq<int>, n: nat, m: nat, b: nat)
    requires m <= n <= |s|
    requires forall k :: n - m <= k < n ==> Abs(s[k]) <= b
    ensures Abs(Prefix(s, n) - Prefix(s, n - m)) <= m * b
    decreases m
  {
    if m > 0 {
      PrefixBound(s, n - 1, m - 1, b);
      assert m * b == (m - 1) * b + b;
    }
  }

  /** A constant slice sums to its length times the constant. */
  lemma {:induction false} PrefixConstant(s: seq<int>, i: nat, j: nat, c: int)
    requires i <= j <= |s|
    requires forall k :: i <= k < j ==> s[k] == c
    ensures Prefix(s, j) - Prefix(s, i) == (j - i) * c
    decreases j - i
  {
    if i < j {
      PrefixConstant(s, i, j - 1, c);
      assert (j - i) * c == (j - 1 - i) * c + c;
    }
  }
}
