/** Rounding of a rupee amount to two decimal places (whole paise), as the
    exit engine does before it stores a stop-loss. Prices are exact reals;
    `round(x, 2)` is rounding to the nearest paisa with ties to the even
    paisa (banker's rounding). */
module Rounding {

  /** `x` is a whole number of paise: `100 * x` has no fractional part. */
  predicate Aligned(x: real) {
    (100.0 * x).Floor as real == 100.0 * x
  }

  /** The number of paise nearest to `x` rupees, ties going to the even one. */
  function Paise(x: real): (c: int)
    ensures 100.0 * x - 0.5 <= c as real <= 100.0 * x + 0.5
    ensures c as real - 100.0 * x == 0.5 || 100.0 * x - c as real == 0.5 ==> c % 2 == 0
    ensures Aligned(x) ==> c as real == 100.0 * x
  {
    var y := 100.0 * x;
    var f := y.Floor;
    var d := y - f as real;
    if d < 0.5 then f
    else if d > 0.5 then f + 1
    else if f % 2 == 0 then f
    else f + 1
  }

  /** `round(x, 2)`: the result is a whole number of paise, within half a
      paisa of `x`, and leaves an already aligned amount as it is. */
  function Round2(x: real): (r: real)
    ensures Aligned(r)
    ensures x - 0.005 <= r <= x + 0.005
    ensures Aligned(x) ==> r == x
  {
    Paise(x) as real / 100.0
  }

  /** Rounding to paise never reverses the order of two amounts. */
  lemma Round2Monotone(x: real, y: real)
    requires x <= y
    ensures Round2(x) <= Round2(y)
  {
    if Paise(x) > Paise(y) {
      assert Paise(x) as real >= Paise(y) as real + 1.0;
      assert x == y;
    }
  }

  /** Rounding an amount that is at least an aligned amount `a` gives at
      least `a`: this is why a raised stop never ends below the old one. */
  lemma Round2AtLeast(a: real, x: real)
    requires Aligned(a) && a <= x
    ensures a <= Round2(x)
  {
    Round2Monotone(a, x);
  }
}
