/**
 * The two pieces of JavaScript arithmetic the valuation relies on, over exact reals:
 * `Math.round` and the `**` operator with an integer exponent.
 */
module JsMath {
  import opened Wrappers

  /**
   * `Math.round(x)`: the nearest integer, a half being rounded towards +infinity
   * (so `Math.round(-2.5) == -2`).
   */
  function Round(x: real): (r: int)
    ensures r as real - 0.5 <= x < r as real + 0.5
  {
    (x + 0.5).Floor
  }

  /** The nearest-integer characterisation determines `Round` completely. */
  lemma RoundUnique(x: real, k: int)
    requires k as real - 0.5 <= x < k as real + 0.5
    ensures Round(x) == k
  {
  }

  /** `b` raised to a natural power, by repeated multiplication. */
  function Pow(b: real, k: nat): (r: real)
    ensures b != 0.0 ==> r != 0.0
    ensures b > 0.0 ==> r > 0.0
    ensures b >= 1.0 ==> r >= 1.0
    ensures b > 1.0 && k > 0 ==> r > 1.0
    decreases k
  {
    if k == 0 then 1.0 else b * Pow(b, k - 1)
  }

  /**
   * JavaScript's `b ** e` for an integer exponent `e`. A zero base with a negative
   * exponent gives `Infinity` there and `None` here.
   */
  function IntPow(b: real, e: int): (r: Option<real>)
    ensures r.None? <==> b == 0.0 && e < 0
    ensures e >= 0 ==> r == Some(Pow(b, e))
    ensures r.Some? && e < 0 ==> r.value * Pow(b, -e) == 1.0
  {
    if e >= 0 then Some(Pow(b, e))
    else if b == 0.0 then None
    else Some(1.0 / Pow(b, -e))
  }
}
