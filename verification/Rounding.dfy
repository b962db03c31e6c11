/** Decimal's round-half-even on reals. */
module Rounding {

  function RoundHalfEven(x: real): int {
    var below := x.Floor;
    var part := x - below as real;
    if part < 0.5 then below
    else if 0.5 < part then below + 1
    else if below % 2 == 0 then below else below + 1
  }

  /** Rounding moves a number by at most a half, and by a half only to an even number; it leaves integers alone and keeps order. */
  lemma RoundingMonotone(x: real, y: real)
    ensures -0.5 <= RoundHalfEven(x) as real - x <= 0.5
    ensures RoundHalfEven(x) as real - x == 0.5 || RoundHalfEven(x) as real - x == -0.5 ==> RoundHalfEven(x) % 2 == 0
    ensures x == x.Floor as real ==> RoundHalfEven(x) == x.Floor
    ensures x <= y ==> RoundHalfEven(x) <= RoundHalfEven(y)
  {
    if x <= y {
      assert x.Floor <= y.Floor;
    }
  }
}
