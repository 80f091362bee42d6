/**
 * Java's integer division and remainder. Both round the quotient toward
 * zero, so the remainder takes the sign of the dividend; Dafny's own `/`
 * and `%` are Euclidean instead. Only positive divisors occur in the
 * calendar code, so only those are modelled.
 */
module JavaInt {

  /** Java `a / b` for b > 0: the quotient rounded toward zero. */
  function Div(a: int, b: int): int
    requires b > 0
  {
    if a >= 0 then a / b else -((-a) / b)
  }

  /** Java `a % b` for b > 0: what `Div` leaves over, carrying the sign of `a`. */
  function Rem(a: int, b: int): int
    requires b > 0
  {
    if a >= 0 then a % b else -((-a) % b)
  }

  /**
   * What Java promises of `/` and `%`: `a == b * (a / b) + a % b`, the
   * remainder is smaller than the divisor in magnitude and has the sign of
   * the dividend, so the quotient is rounded toward zero.
   */
  lemma Truncation(a: int, b: int)
    requires b > 0
    ensures a == b * Div(a, b) + Rem(a, b)
    ensures -b < Rem(a, b) < b
    ensures a >= 0 ==> Rem(a, b) >= 0
    ensures a <= 0 ==> Rem(a, b) <= 0
  {
  }

  /** For a non-negative dividend Java and Dafny agree. */
  lemma NonNegative(a: int, b: int)
    requires a >= 0 && b > 0
    ensures Div(a, b) == a / b && Rem(a, b) == a % b
  {
  }

  /**
   * `Rem(a, b) == 0` exactly when b divides a, whatever the sign of a; stated
   * for the divisors of the leap-year rule.
   */
  lemma RemZero(a: int, b: int)
    requires b == 4 || b == 100 || b == 400
    ensures Rem(a, b) == 0 <==> a % b == 0
  {
    if b == 4 {
      NegMultiple4(a);
    } else if b == 100 {
      NegMultiple100(a);
    } else {
      NegMultiple400(a);
    }
  }

  /** A number and its negation are multiples of 4 together. */
  lemma NegMultiple4(a: int)
    ensures (-a) % 4 == 0 <==> a % 4 == 0
  {
  }

  /** A number and its negation are multiples of 100 together. */
  lemma NegMultiple100(a: int)
    ensures (-a) % 100 == 0 <==> a % 100 == 0
  {
  }

  /** A number and its negation are multiples of 400 together. */
  lemma NegMultiple400(a: int)
    ensures (-a) % 400 == 0 <==> a % 400 == 0
  {
  }

  /**
   * Shifting a Java remainder by 7 and taking the remainder again gives the
   * Euclidean remainder: `(a % 7 + 7) % 7` in Java is `a mod 7`.
   */
  lemma Normalize(a: int)
    ensures Rem(Rem(a, 7) + 7, 7) == a % 7
  {
  }
}
