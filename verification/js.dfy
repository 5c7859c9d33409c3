/**
 * The few JavaScript value rules the application's branches depend on:
 * truthiness of an optional number, the `a || b` default, and the
 * remainder operator `%`, which truncates toward zero. `NaN` is not a
 * value of the model: where the source may produce it, the model uses
 * `None`.
 */
module Js {
  import opened Wrappers

  /** `!!n` for a number that may be `undefined` or `null`: only a missing value and 0 are falsy. */
  predicate Truthy(n: Option<int>) {
    n.Some? && n.value != 0
  }

  /** `n || fallback`. */
  function Or(n: Option<int>, fallback: int): int {
    if Truthy(n) then n.value else fallback
  }

  /** `!!s` for a string that may be missing: only a missing value and "" are falsy. */
  predicate NonEmpty(s: Option<string>) {
    s.Some? && s.value != ""
  }

  /**
   * `a % b`: the remainder carries the sign of the dividend, unlike Dafny's
   * Euclidean `%`, whose remainder is never negative. Only positive
   * divisors occur in the application.
   */
  function Rem(a: int, b: int): (r: int)
    requires b > 0
    ensures a >= 0 ==> 0 <= r < b
    ensures a < 0 ==> -b < r <= 0
  {
    if a >= 0 then a % b else -((-a) % b)
  }
}
