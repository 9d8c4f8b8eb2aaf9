/**
 Python's built-in `round` on exact reals: the nearest integer multiple of the
 unit, a tie going to the even neighbour.  Binary floating point is not modelled.
 */
module Rounding {

  function RoundHalfEven(x: real): (n: int)
    ensures -0.5 <= n as real - x <= 0.5
    ensures n as real - x == 0.5 || x - n as real == 0.5 ==> n % 2 == 0
  {
    var f := x.Floor;
    var fraction := x - f as real;
    if fraction < 0.5 || (fraction == 0.5 && f % 2 == 0) then f else f + 1
  }

  /** `round(x, 4)` */
  function Round4(x: real): (r: real)
    ensures x - 0.00005 <= r <= x + 0.00005
    ensures r * 10000.0 == RoundHalfEven(x * 10000.0) as real
  {
    RoundHalfEven(x * 10000.0) as real / 10000.0
  }

  /** `round(x, 2)`, counted in hundredths. */
  function Cents(x: real): (c: int)
    ensures x - 0.005 <= c as real / 100.0 <= x + 0.005
    ensures c == RoundHalfEven(x * 100.0)
  {
    RoundHalfEven(x * 100.0)
  }

  function Round2(x: real): (r: real)
    ensures x - 0.005 <= r <= x + 0.005
  {
    Cents(x) as real / 100.0
  }

  lemma RoundHalfEvenMonotone(x: real, y: real)
    requires x <= y
    ensures RoundHalfEven(x) <= RoundHalfEven(y)
  {
  }

  /** Rounding to four decimals keeps the order, so it keeps the unit interval. */
  lemma Round4Monotone(x: real, y: real)
    requires x <= y
    ensures Round4(x) <= Round4(y)
  {
    RoundHalfEvenMonotone(x * 10000.0, y * 10000.0);
  }

  lemma Round4Range(x: real)
    ensures 0.0 <= x ==> 0.0 <= Round4(x)
    ensures x <= 1.0 ==> Round4(x) <= 1.0
  {
    if 0.0 <= x { Round4Monotone(0.0, x); }
    if x <= 1.0 { Round4Monotone(x, 1.0); }
  }

  lemma Round4OfRound4(x: real)
    ensures Round4(Round4(x)) == Round4(x)
  {
    assert Round4(x) * 10000.0 == RoundHalfEven(x * 10000.0) as real;
  }

  /** Rounding an already rounded amount changes nothing. */
  lemma CentsOfRound2(x: real)
    ensures Cents(Round2(x)) == Cents(x)
  {
    assert Round2(x) * 100.0 == Cents(x) as real;
  }
}
