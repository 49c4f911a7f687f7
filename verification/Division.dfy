/** Integer quotients by their bounds. */
module Division {

  lemma MulMonotone(a: int, b: int, d: int)
    requires a <= b && 0 <= d
    ensures a * d <= b * d
  {
    assert (b - a) * d >= 0;
  }

  /** The quotient is the number whose multiple is next below. */
  lemma QuotientBounds(n: int, d: int, q: int)
    requires d > 0
    ensures q <= n / d <==> q * d <= n
  {
    var p := n / d;
    assert p * d <= n < p * d + d;
    if q <= p {
      MulMonotone(q, p, d);
    } else {
      MulMonotone(p + 1, q, d);
    }
  }
}
