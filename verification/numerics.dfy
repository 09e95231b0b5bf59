/** The float helpers the game code relies on, stated over `real`.
    Floating-point rounding error is not modelled. */
module Numerics {

  /** `abs` on a float. */
  function Abs(r: real): (a: real)
    ensures a >= 0.0
    ensures a == r || a == -r
  {
    if r < 0.0 then -r else r
  }

  /** The `sign` macro of graphics.h: -1 below zero, 1 above, 0 at zero. */
  function Sign(r: real): (s: int)
    ensures -1 <= s <= 1
    ensures s < 0 <==> r < 0.0
    ensures s > 0 <==> r > 0.0
  {
    if r < 0.0 then -1 else if r > 0.0 then 1 else 0
  }

  /** C `round`: nearest integer, halves rounded away from zero. */
  function Round(r: real): (n: int)
    ensures Abs(r - n as real) <= 0.5
    ensures Abs(r - n as real) == 0.5 ==> Abs(n as real) > Abs(r)
  {
    if r >= 0.0 then (r + 0.5).Floor else -((-r + 0.5).Floor)
  }

  /** A C cast `(int)` of a float: truncation toward zero. */
  function Trunc(r: real): (n: int)
    ensures r >= 0.0 ==> 0 <= n && n as real <= r < n as real + 1.0
    ensures r < 0.0 ==> n <= 0 && n as real - 1.0 < r <= n as real
  {
    if r >= 0.0 then r.Floor else -((-r).Floor)
  }
}
