/**
 * JavaScript number operations used by the game, written out on Dafny's
 * unbounded `real` and `int`: `Math.trunc`, the `%` operator (truncated
 * remainder, not Dafny's Euclidean one), `Math.abs`, the `rand(min, max)`
 * helper and the decimal rendering of integers inside template strings.
 */
module JsNum {

  function Abs(x: real): real { if x < 0.0 then -x else x }

  /** `Math.trunc`: rounds toward zero. */
  function Trunc(x: real): (t: int)
    ensures x >= 0.0 ==> t as real <= x < t as real + 1.0
    ensures x < 0.0 ==> t as real - 1.0 < x <= t as real
  {
    if x >= 0.0 then x.Floor else -((-x).Floor)
  }

  lemma TruncNeg(x: real)
    ensures Trunc(-x) == -Trunc(x)
  {
  }

  /** JavaScript's `x % m` for a positive modulus: the remainder has the sign of `x`. */
  function Rem(x: real, m: real): (r: real)
    requires m > 0.0
    ensures x >= 0.0 ==> 0.0 <= r < m
    ensures x < 0.0 ==> -m < r <= 0.0
  {
    RemBounds(x, m);
    x - m * Trunc(x / m) as real
  }

  lemma RemBounds(x: real, m: real)
    requires m > 0.0
    ensures x >= 0.0 ==> 0.0 <= x - m * Trunc(x / m) as real < m
    ensures x < 0.0 ==> -m < x - m * Trunc(x / m) as real <= 0.0
  {
    var q := x / m;
    var t := Trunc(q) as real;
    assert x == m * q;
    if x >= 0.0 {
      ScaledFraction(m, q - t, x - m * t);
    } else {
      ScaledFraction(m, t - q, m * t - x);
    }
  }

  /** `m * d` for a fraction `d` in [0, 1) lies in [0, m). */
  lemma ScaledFraction(m: real, d: real, e: real)
    requires m > 0.0 && 0.0 <= d < 1.0 && e == m * d
    ensures 0.0 <= e < m
  {
    MulNonNegative(m, d);
    MulStrict(m, d, 1.0);
  }

  lemma MulStrict(m: real, a: real, b: real)
    requires m > 0.0 && a < b
    ensures m * a < m * b
  {
    assert m * b - m * a == m * (b - a);
  }

  /** A supply of `Math.random()` results: the n-th call returns `rand(n)`, always in [0, 1). */
  ghost predicate RandomStream(rand: nat -> real)
  {
    forall n: nat :: 0.0 <= rand(n) < 1.0
  }

  /** `rand(min, max)` = `Math.random() * (max - min) + min`, with the draw `r` supplied. */
  function Rand(r: real, lo: real, hi: real): (v: real)
    requires 0.0 <= r < 1.0 && lo < hi
    ensures lo <= v < hi
  {
    RandBounds(r, lo, hi);
    r * (hi - lo) + lo
  }

  lemma RandBounds(r: real, lo: real, hi: real)
    requires 0.0 <= r < 1.0 && lo < hi
    ensures lo <= r * (hi - lo) + lo < hi
  {
    var x := r * (hi - lo);
    var y := (1.0 - r) * (hi - lo);
    MulNonNegative(r, hi - lo);
    MulPositive(1.0 - r, hi - lo);
    assert x >= 0.0;
    assert y > 0.0;
    assert y == (hi - lo) - x;
    assert x < hi - lo;
  }

  lemma MulNonNegative(a: real, b: real)
    requires a >= 0.0 && b >= 0.0
    ensures a * b >= 0.0
  {
  }

  lemma MulPositive(a: real, b: real)
    requires a > 0.0 && b > 0.0
    ensures a * b > 0.0
  {
  }

  /** `(Math.random() - 0.5) * w`: a centred offset in the half-open range [-w/2, w/2). */
  function Offset(r: real, w: real): (v: real)
    requires 0.0 <= r < 1.0 && w >= 0.0
    ensures -w / 2.0 <= v <= w / 2.0
    ensures w > 0.0 ==> v < w / 2.0
  {
    MulBounds(r - 0.5, w);
    (r - 0.5) * w
  }

  lemma MulBounds(a: real, w: real)
    requires -0.5 <= a < 0.5 && w >= 0.0
    ensures -w / 2.0 <= a * w <= w / 2.0
    ensures w > 0.0 ==> a * w < w / 2.0
  {
    if w > 0.0 {
      MulStrict(w, a, 0.5);
    }
    assert w / 2.0 - a * w == (0.5 - a) * w;
    assert a * w + w / 2.0 == (a + 0.5) * w;
  }

  /** Decimal digits of a natural number, as a template literal renders it. */
  function NatToString(n: nat): (s: string)
    ensures |s| >= 1
    ensures forall i :: 0 <= i < |s| ==> '0' <= s[i] <= '9'
    decreases n
  {
    if n < 10 then [Digit(n)] else NatToString(n / 10) + [Digit(n % 10)]
  }

  function Digit(d: nat): (c: char)
    requires d < 10
    ensures '0' <= c <= '9' && DigitValue(c) == d
  {
    ('0' as int + d) as char
  }

  function DigitValue(c: char): int
  {
    c as int - '0' as int
  }

  /** Reading a string of decimal digits left to right: `parseInt` on its digits. */
  function DigitsValue(s: string): int
  {
    if s == [] then 0 else 10 * DigitsValue(s[..|s| - 1]) + DigitValue(s[|s| - 1])
  }

  /** Reading the rendered digits back gives the number: the rendering is faithful. */
  lemma {:induction false} NatToStringValue(n: nat)
    ensures DigitsValue(NatToString(n)) == n
    decreases n
  {
    var s := NatToString(n);
    if n < 10 {
      assert s[..0] == [];
    } else {
      NatToStringValue(n / 10);
      assert s[..|s| - 1] == NatToString(n / 10);
    }
  }

  /** Distinct numbers render as distinct strings. */
  lemma NatToStringInjective(n: nat, m: nat)
    ensures NatToString(n) == NatToString(m) ==> n == m
  {
    NatToStringValue(n);
    NatToStringValue(m);
  }

  /** `${i}` for an integer: a leading minus for negative values. */
  function IntToString(i: int): string
  {
    if i < 0 then "-" + NatToString(-i) else NatToString(i)
  }
}
