/** The scalar arithmetic the scripts rely on: Unity's `Mathf.Round` / `Mathf.RoundToInt`
    (round half to even), `Mathf.Max`, `Mathf.Clamp`, and the 360-degree wrap that makes
    a yaw of `a` and `a + 360` the same orientation. Floats are modelled as exact reals. */
module Numerics {

  function Abs(r: real): real {
    if r < 0.0 then -r else r
  }

  function Max(a: int, b: int): (m: int)
    ensures m >= a && m >= b
    ensures m == a || m == b
  {
    if a >= b then a else b
  }

  /** `Mathf.Clamp(value, min, max)` on ints: below `min` gives `min`, otherwise above
      `max` gives `max`; with `min > max` the second test wins. */
  function Clamp(value: int, min: int, max: int): (r: int)
    ensures min <= max ==> min <= r <= max
    ensures min <= value <= max ==> r == value
  {
    if value < min then min else if value > max then max else value
  }

  /** `n` is the integer nearest to `x`, and when `x` lies exactly half-way between two
      integers, `n` is the even one. This is the independent description of rounding. */
  ghost predicate IsRoundHalfEven(x: real, n: int) {
    && Abs(x - n as real) <= 0.5
    && (Abs(x - n as real) == 0.5 ==> n % 2 == 0)
  }

  /** `Mathf.Round` / `Mathf.RoundToInt`: .NET's `Math.Round`, which rounds half to even. */
  function RoundHalfEven(x: real): (n: int)
    ensures IsRoundHalfEven(x, n)
  {
    var f := x.Floor;
    var frac := x - f as real;
    if frac < 0.5 then f
    else if frac > 0.5 then f + 1
    else if f % 2 == 0 then f
    else f + 1
  }

  /** The rounded value is at least as close to `x` as any other integer. */
  lemma RoundIsNearest(x: real, m: int)
    ensures Abs(x - RoundHalfEven(x) as real) <= Abs(x - m as real)
  {
    var n := RoundHalfEven(x);
    if m < n {
      assert m as real <= n as real - 1.0;
    } else if m > n {
      assert m as real >= n as real + 1.0;
    }
  }

  /** The description pins down exactly one integer, so `RoundHalfEven` is the only
      function that meets it. */
  lemma RoundHalfEvenUnique(x: real, n: int)
    ensures IsRoundHalfEven(x, n) <==> n == RoundHalfEven(x)
  {
  }

  /** An angle in degrees brought into [0, 360). */
  function WrapDegrees(a: real): (w: real)
    ensures 0.0 <= w < 360.0
    ensures 0.0 <= a < 360.0 ==> w == a
  {
    a - 360.0 * (a / 360.0).Floor as real
  }

  /** Adding whole turns does not change the wrapped angle. */
  lemma WrapWholeTurns(a: real, k: int)
    ensures WrapDegrees(a + 360.0 * k as real) == WrapDegrees(a)
  {
    var t := a / 360.0;
    assert (a + 360.0 * k as real) / 360.0 == t + k as real;
    assert (t + k as real).Floor == t.Floor + k;
  }

  /** Wrapping the sum is the same as wrapping after wrapping one summand. */
  lemma WrapOfSum(a: real, d: real)
    ensures WrapDegrees(WrapDegrees(a) + d) == WrapDegrees(a + d)
  {
    var k := (a / 360.0).Floor;
    assert WrapDegrees(a) + d == (a + d) + 360.0 * (-k) as real;
    WrapWholeTurns(a + d, -k);
  }
}
