/**
 * Python's built-in `round` on one argument: the nearest integer, ties
 * going to the even neighbour ("banker's rounding"). Pixels and hours are
 * modelled as exact reals, so there is no binary floating point here.
 */
module PyRound {

  /** Half of one. */
  const Half: real := 0.5

  /** `round(x)`. */
  function Round(x: real): (r: int)
    ensures -Half <= r as real - x <= Half
    ensures (r as real - x == Half || x - r as real == Half) ==> r % 2 == 0
  {
    var f := x.Floor;
    var frac := x - f as real;
    if frac < Half then f
    else if frac > Half then f + 1
    else if f % 2 == 0 then f
    else f + 1
  }

  /**
   * `Round` is the unique nearest integer: any integer strictly closer than
   * one half is the result, and on a tie the even candidate is.
   */
  lemma RoundUnique(x: real, n: int)
    ensures -Half < n as real - x < Half ==> Round(x) == n
    ensures (n as real - x == Half || x - n as real == Half) && n % 2 == 0 ==> Round(x) == n
  {
  }

  /** Integers round to themselves. */
  lemma RoundInt(n: int)
    ensures Round(n as real) == n
  {
    RoundUnique(n as real, n);
  }

  /** Rounding never reverses the order of two values. */
  lemma RoundMonotone(x: real, y: real)
    requires x <= y
    ensures Round(x) <= Round(y)
  {
  }

  /** `round(2.5) == 2`, `round(3.5) == 4`, `round(-0.5) == 0`, `round(8.6) == 9`. */
  lemma RoundExamples()
    ensures Round(2.5) == 2 && Round(3.5) == 4 && Round(-0.5) == 0 && Round(8.6) == 9
  {
    RoundUnique(2.5, 2);
    RoundUnique(3.5, 4);
    RoundUnique(-0.5, 0);
    RoundUnique(8.6, 9);
  }
}
