/**
 * Python's `round(x, 2)` on an exact real.
 *
 * Python rounds the exact value of its argument to the nearest multiple of
 * 0.01 and breaks an exact tie towards the even hundredth. The binary
 * floating-point representation that Python applies this to is not modelled:
 * here the argument is the real number itself.
 */
module PyRound {

  /** `x` is a whole number of hundredths. */
  predicate IsHundredths(x: real) {
    (x * 100.0).Floor as real == x * 100.0
  }

  /** `round(x, 2)`: nearest hundredth, ties to the even hundredth. */
  function Round2(x: real): (r: real)
    ensures IsHundredths(r)
    ensures -0.005 <= r - x <= 0.005
  {
    var y := x * 100.0;
    var f := y.Floor;
    var frac := y - f as real;
    var n := if frac < 0.5 then f
             else if frac > 0.5 then f + 1
             else if f % 2 == 0 then f else f + 1;
    var r := n as real / 100.0;
    assert r * 100.0 == n as real;
    assert (n as real).Floor == n;
    assert -0.5 <= n as real - y <= 0.5;
    assert r - x == (n as real - y) / 100.0;
    r
  }

  /** A value that already is a whole number of hundredths is left as it is. */
  lemma Round2OfHundredths(x: real)
    requires IsHundredths(x)
    ensures Round2(x) == x
  {
    var y := x * 100.0;
    assert y.Floor as real == y;
    assert (y.Floor as real) / 100.0 == x;
  }
}
