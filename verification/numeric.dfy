/** Numeric helpers shared by the DP maker model.

    JavaScript has a single number type; the model separates exact integers
    (pixel coordinates, sizes) from exact reals (zoom, offsets) and writes
    Math.round and the clamp helper out for each. */
module Numeric {

  /** One channel of an RGBA pixel buffer (a Uint8ClampedArray element). */
  newtype byte = x: int | 0 <= x < 256

  function MinInt(a: int, b: int): (r: int)
    ensures r <= a && r <= b && (r == a || r == b)
  {
    if a <= b then a else b
  }

  function MaxReal(a: real, b: real): (r: real)
    ensures a <= r && b <= r && (r == a || r == b)
  {
    if a >= b then a else b
  }

  /** clamp(v, a, b) = Math.max(a, Math.min(b, v)) on numbers that are reals. */
  function Clamp(v: real, lo: real, hi: real): (r: real)
    ensures lo <= hi ==> lo <= r <= hi
    ensures lo <= v <= hi ==> r == v
    ensures v < lo ==> r == lo
    ensures lo <= hi < v ==> r == hi
    ensures hi < lo ==> r == lo
  {
    var capped := if v <= hi then v else hi;
    if capped >= lo then capped else lo
  }

  /** clamp on integers (pixel coordinates): Math.max(lo, Math.min(hi, v)),
      which agrees with Clamp on the same values. */
  function ClampInt(v: int, lo: int, hi: int): (r: int)
    ensures r as real == Clamp(v as real, lo as real, hi as real)
    ensures lo <= hi ==> lo <= r <= hi
    ensures lo <= v <= hi ==> r == v
    ensures v < lo ==> r == lo
    ensures lo <= hi < v ==> r == hi
  {
    var capped := if v <= hi then v else hi;
    if capped >= lo then capped else lo
  }

  /** Math.round: the nearest integer, halves rounded up (towards +infinity). */
  function Round(x: real): (r: int)
    ensures r as real - 0.5 <= x < r as real + 0.5
  {
    (x + 0.5).Floor
  }
}
