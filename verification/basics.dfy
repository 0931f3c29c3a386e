/** Vocabulary shared by both generations of the countdown engine:
    the two phases, time units in milliseconds, progress fractions and
    C#'s integer operators. */
module Basics {

  const SecondMs: int := 1000
  const MinuteMs: int := 60 * SecondMs

  /** EyeshadeStates and AlarmClockStates: both enums list Work, then Resting. */
  datatype Phase = Work | Resting

  /** The phase a completed countdown switches to. */
  function Flip(p: Phase): (q: Phase)
    ensures q != p
  {
    if p == Work then Resting else Work
  }

  function Min(a: int, b: int): (m: int)
    ensures m <= a && m <= b
    ensures m == a || m == b
  {
    if a <= b then a else b
  }

  function Max(a: int, b: int): (m: int)
    ensures m >= a && m >= b
    ensures m == a || m == b
  {
    if a >= b then a else b
  }

  /** C#'s `/` on integers, which truncates toward zero (Dafny's `/`
      rounds toward negative infinity for a positive divisor). */
  function TruncDiv(a: int, b: int): (q: int)
    requires b > 0
    ensures a >= 0 ==> q * b <= a < q * b + b
    ensures a < 0 ==> q * b - b < a <= q * b
    ensures a >= 0 ==> q >= 0
    ensures a < 0 ==> q <= 0
  {
    if a >= 0 then a / b else -((-a) / b)
  }

  /** Math.Ceiling(a / b) for a positive divisor. */
  function CeilDiv(a: int, b: int): (q: int)
    requires b > 0
    ensures q * b - b < a <= q * b
  {
    (a + b - 1) / b
  }

  /** A progress fraction num / den. Floating-point progress is modelled
      exactly by this ratio; every comparison with a constant fraction is
      stated by cross-multiplication. */
  datatype Ratio = Ratio(num: int, den: int) {

    /** The fraction lies in [0, 1] and has a positive denominator. */
    predicate InUnit() {
      den > 0 && 0 <= num <= den
    }

    /** num / den > n / d, for a positive denominator. */
    predicate Exceeds(n: int, d: int)
      requires den > 0 && d > 0
    {
      num * d > n * den
    }
  }

  const One: Ratio := Ratio(1, 1)

  /** Multiplying by a positive factor preserves strict order. */
  lemma MulCompare(a: int, b: int, c: int)
    requires c > 0
    ensures a < b <==> a * c < b * c
  {
    MulSign(b - a, c);
    assert (b - a) * c == b * c - a * c;
  }

  lemma MulSign(x: int, c: int)
    requires c > 0
    ensures x > 0 ==> x * c > 0
    ensures x <= 0 ==> x * c <= 0
  {
  }
}
