/**
 Python's `round`, on exact reals: to the nearest multiple, ties to the even one.
 */
module Rounding {

  /** `round(y)`. */
  function RoundHalfEven(y: real): int {
    var below := y.Floor;
    var frac := y - below as real;
    if frac < 0.5 then below
    else if frac > 0.5 then below + 1
    else if below % 2 == 0 then below
    else below + 1
  }

  /** `round(x, 2)`. */
  function Round2(x: real): real {
    RoundHalfEven(x * 100.0) as real / 100.0
  }

  /** The nearest integer, and of two equally near the even one. */
  lemma RoundNear(y: real)
    ensures -0.5 <= RoundHalfEven(y) as real - y <= 0.5
    ensures RoundHalfEven(y) as real - y in {-0.5, 0.5} ==> RoundHalfEven(y) % 2 == 0
  {
  }

  lemma RoundMonotone(y: real, z: real)
    requires y <= z
    ensures RoundHalfEven(y) <= RoundHalfEven(z)
  {
    assert y.Floor <= z.Floor;
  }

  lemma Round2Near(x: real)
    ensures -0.005 <= Round2(x) - x <= 0.005
  {
    RoundNear(x * 100.0);
  }

  /** To whole hundredths: the nearest, and of two equally near the even one. */
  lemma Round2Is(x: real)
    ensures var r := (Round2(x) * 100.0).Floor;
            && r as real == Round2(x) * 100.0
            && -0.5 <= r as real - x * 100.0 <= 0.5
            && (r as real - x * 100.0 in {-0.5, 0.5} ==> r % 2 == 0)
  {
    RoundNear(x * 100.0);
    Hundredths(RoundHalfEven(x * 100.0), Round2(x));
  }

  lemma Hundredths(r: int, y: real)
    requires y == r as real / 100.0
    ensures (y * 100.0).Floor == r && y * 100.0 == r as real
  {
    assert y * 100.0 == r as real;
  }

  lemma Round2Monotone(x: real, y: real)
    requires x <= y
    ensures Round2(x) <= Round2(y)
  {
    RoundMonotone(x * 100.0, y * 100.0);
  }

  /** A number with at most two decimals is its own rounding. */
  lemma Round2Exact(k: int)
    ensures Round2(k as real / 100.0) == k as real / 100.0
  {
    assert k as real / 100.0 * 100.0 == k as real;
  }
}
