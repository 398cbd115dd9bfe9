/** The two double-to-int conversions of the benchmark, on exact reals:
    `Math.ceil` followed by an `(int)` cast, and a plain `(int)` cast, which
    Java defines as truncation toward zero. */
module Numerics {

  function Max(a: int, b: int): (r: int)
    ensures r >= a && r >= b && (r == a || r == b)
  {
    if a >= b then a else b
  }

  /** `(int) Math.ceil(x)`: the least integer not below `x`. */
  function Ceil(x: real): (r: int)
    ensures x <= r as real < x + 1.0
  {
    -((-x).Floor)
  }

  /** `(int) x` for a double `x`: rounds toward zero. */
  function Trunc(x: real): (r: int)
    ensures x >= 0.0 ==> 0 <= r && r as real <= x < r as real + 1.0
    ensures x < 0.0 ==> r <= 0 && r as real - 1.0 < x <= r as real
  {
    if x >= 0.0 then x.Floor else -((-x).Floor)
  }

  /** The ceiling is the only integer in the half-open unit interval
      `[x, x + 1)`. */
  lemma CeilUnique(x: real, k: int)
    requires x <= k as real < x + 1.0
    ensures Ceil(x) == k
  {
    var c := Ceil(x);
    assert c as real - k as real < 1.0 && k as real - c as real < 1.0;
  }
}
