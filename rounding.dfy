/** Python's `round(x, 2)` on exact reals: the nearest multiple of 1/100,
    with an exact half going to the even neighbour (Python rounds halves to even). */
module Rounding {

  function Abs(x: real): real { if x < 0.0 then -x else x }

  /** The hundredths count that `round(x, 2)` picks: the nearest integer to x*100, halves to even. */
  function RoundedHundredths(x: real): int
  {
    var n := x * 100.0;
    var f := n.Floor;
    var d := n - f as real;
    if d < 0.5 then f
    else if d > 0.5 then f + 1
    else if f % 2 == 0 then f
    else f + 1
  }

  function Round2(x: real): real
  {
    RoundedHundredths(x) as real / 100.0
  }

  /** The rounded value is never more than half a hundredth away from the input. */
  lemma Round2Near(x: real)
    ensures -0.005 <= Round2(x) - x <= 0.005
  {
    var n := x * 100.0;
    var k := RoundedHundredths(x);
    assert -0.5 <= k as real - n <= 0.5;
  }

  /** `round(x, 2) == 0` exactly when x lies within half a hundredth of 0 (both ends included). */
  lemma Round2ZeroIff(x: real)
    ensures Round2(x) == 0.0 <==> -0.005 <= x <= 0.005
  {
    Round2Near(x);
    var n := x * 100.0;
    if -0.5 <= n < 0.0 {
      assert n.Floor == -1;
    } else if 0.0 <= n <= 0.5 {
      assert n.Floor == 0;
    }
  }

  /** `round(x, 2) == 1` exactly when x lies within half a hundredth of 1 (both ends included). */
  lemma Round2OneIff(x: real)
    ensures Round2(x) == 1.0 <==> 0.995 <= x <= 1.005
  {
    Round2Near(x);
    var n := x * 100.0;
    if 99.5 <= n < 100.0 {
      assert n.Floor == 99;
    } else if 100.0 <= n <= 100.5 {
      assert n.Floor == 100;
    }
  }

  /** Rounding never reverses an order. */
  lemma Round2Monotone(x: real, y: real)
    requires x <= y
    ensures Round2(x) <= Round2(y)
  {
    var nx, ny := x * 100.0, y * 100.0;
    assert nx <= ny;
    var fx, fy := nx.Floor, ny.Floor;
    assert fx <= fy;
    var kx, ky := RoundedHundredths(x), RoundedHundredths(y);
    assert fx <= kx <= fx + 1 && fy <= ky <= fy + 1;
    if fx == fy && kx == fx + 1 {
      assert ky == fy + 1;
    }
    assert kx <= ky;
  }

  /** A factor at most `c` away from 0 scales to at most `c` times the other factor's size. */
  lemma AbsMulBound(a: real, b: real, c: real, p: real)
    requires Abs(a) <= c && p == a * b
    ensures Abs(p) <= c * Abs(b)
  {
    if b >= 0.0 {
      assert -c * b <= a * b <= c * b;
    } else {
      assert c * b <= a * b <= -c * b;
    }
  }

  /** Multiples of a hundredth are left alone. */
  lemma Round2Exact(k: int)
    ensures Round2(k as real / 100.0) == k as real / 100.0
  {
    var n := (k as real / 100.0) * 100.0;
    assert n == k as real;
    assert n.Floor == k;
  }
}
