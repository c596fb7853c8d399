/**
 Python's `round`: to the nearest integer, halves to the even neighbour.
 */
module Rounding {

  function Round(x: real): int {
    var f := x.Floor;
    var d := x - f as real;
    if d < 0.5 then f
    else if d > 0.5 then f + 1
    else if f % 2 == 0 then f
    else f + 1
  }

  /** The result is within one half, and on a tie it is even: no other integer is both. */
  lemma RoundIsNearestEven(x: real, r: int)
    ensures r == Round(x) <==>
            && -0.5 <= r as real - x <= 0.5
            && ((r as real - x == 0.5 || r as real - x == -0.5) ==> r % 2 == 0)
  {
    var f := x.Floor;
    if -0.5 <= r as real - x <= 0.5 {
      assert r == f || r == f + 1;
    }
  }

  /** Rounding keeps a separation by an even number of pixels. */
  lemma RoundKeepsEvenGap(x: real, y: real, gap: int)
    requires gap % 2 == 0 && y - x >= gap as real
    ensures Round(y) - Round(x) >= gap
  {
  }

  /** An odd gap can be lost: 1.5 and 2.5 are one apart and both round to 2. */
  lemma RoundLosesOddGap()
    ensures Round(1.5) == 2 && Round(2.5) == 2
  {
    assert 2.5.Floor == 2 && 1.5.Floor == 1;
  }

}
