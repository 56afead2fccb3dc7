/** Elementary facts about products and quotients of reals, each over plain variables. */
module RealArith {

  lemma {:induction false} Scale(a: real, b: real, c: real)
    requires c > 0.0
    ensures a <= b <==> a * c <= b * c
    ensures a < b <==> a * c < b * c
  {
    if a < b {
      assert (b - a) * c > 0.0;
    } else {
      assert (a - b) * c >= 0.0;
    }
  }

  lemma {:induction false} ScaleLe(a: real, b: real, c: real)
    requires c >= 0.0 && a <= b
    ensures a * c <= b * c
  {
    assert (b - a) * c >= 0.0;
  }

  lemma {:induction false} ProductSign(a: real, b: real)
    requires a >= 0.0 && b >= 0.0
    ensures a * b >= 0.0
  {
  }

  lemma {:induction false} QuotientTimes(a: real, b: real)
    requires b > 0.0
    ensures a / b * b == a
  {
  }

  lemma {:induction false} QuotientSign(a: real, b: real)
    requires b > 0.0 && a >= 0.0
    ensures a / b >= 0.0
  {
  }

  lemma {:induction false} SumTimes(a: real, b: real, c: real)
    ensures (a + b) * c == a * c + b * c
    ensures (a - b) * c == a * c - b * c
  {
  }

  /** A quotient bounds what its divisor times stays below. */
  lemma {:induction false} BelowQuotient(a: real, b: real, c: real)
    requires b > 0.0
    ensures a <= c / b <==> a * b <= c
    ensures a < c / b <==> a * b < c
  {
    QuotientTimes(c, b);
    Scale(a, c / b, b);
  }
}
