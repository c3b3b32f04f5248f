/** Python's round(x, 2) on reals: to the nearest hundredth, ties to the even one. */
module Rounding {
  function Round2(x: real): real {
    var scaled := x * 100.0;
    var low := scaled.Floor;
    var rest := scaled - low as real;
    var n := if rest < 0.5 || (rest == 0.5 && low % 2 == 0) then low else low + 1;
    n as real / 100.0
  }

  /** Rounding moves a value by at most half a hundredth, and never across a hundredth. */
  lemma Round2Stays(x: real, low: int, high: int)
    requires low as real / 100.0 <= x <= high as real / 100.0
    ensures low as real / 100.0 <= Round2(x) <= high as real / 100.0
    ensures -0.005 <= Round2(x) - x <= 0.005
  {
    var f := (x * 100.0).Floor;
    assert low <= f <= high;
    assert f == high ==> x * 100.0 == f as real;
  }

  /** The hundredths of a value that is not negative: none, or at least one. */
  lemma Round2IsWhole(x: real)
    requires x >= 0.0
    ensures Round2(x) == 0.0 || Round2(x) >= 0.01
  {
    assert (x * 100.0).Floor >= 0;
  }

  /** An even hundredth is reached from half a hundredth below on, because a tie goes to it. */
  lemma Round2Reaches(x: real, h: int)
    requires h % 2 == 0
    ensures Round2(x) >= h as real / 100.0 <==> x >= (h as real - 0.5) / 100.0
  {
    var scaled := x * 100.0;
    var low := scaled.Floor;
    assert low as real <= scaled < low as real + 1.0;
    if low == h - 1 {
      assert low % 2 == 1;
    }
  }

  /** A tie goes to the even hundredth, and everything else to the nearest one. */
  lemma Round2Nearest(n: int, offset: real)
    requires -0.5 <= offset <= 0.5
    requires -0.5 < offset < 0.5 || n % 2 == 0
    ensures Round2((n as real + offset) / 100.0) == n as real / 100.0
  {
    var scaled := (n as real + offset) / 100.0 * 100.0;
    assert scaled == n as real + offset;
    assert scaled.Floor == if offset < 0.0 then n - 1 else n;
    assert n % 2 == 0 ==> (n - 1) % 2 == 1;
  }
}
