/** Floor division and products of natural numbers, one step at a time. */
module Arithmetic {

  /** Floor division of amounts. */
  function Quotient(a: nat, b: nat): (q: nat)
    requires b > 0
    ensures q * b <= a < (q + 1) * b
  {
    assert a == (a / b) * b + a % b;
    a / b
  }

  /** A floor quotient is the largest multiplier that fits. */
  lemma FloorIsGreatest(a: nat, b: nat, q: nat)
    requires b > 0 && q * b <= a
    ensures q <= Quotient(a, b)
  {
    if q > Quotient(a, b) {
      MulMonotone(Quotient(a, b) + 1, q, b);
    }
  }

  lemma FloorAtMost(a: nat, b: nat, q: nat)
    requires b > 0 && a <= q * b
    ensures Quotient(a, b) <= q
  {
    if Quotient(a, b) > q {
      MulMonotone(q + 1, Quotient(a, b), b);
    }
  }

  lemma MulMonotone(a: nat, b: nat, c: nat)
    requires a <= b
    ensures a * c <= b * c
  {
    assert b * c - a * c == (b - a) * c;
  }

  lemma MulBoth(a: nat, b: nat, c: nat, d: nat)
    requires a <= b && c <= d
    ensures a * c <= b * d
  {
    MulMonotone(a, b, c);
    MulMonotone(c, d, b);
  }

  lemma MulCancel(a: nat, b: nat, c: nat)
    requires c > 0 && a * c <= b * c
    ensures a <= b
  {
    if a > b {
      assert a * c - b * c == (a - b) * c;
      MulMonotone(1, a - b, c);
    }
  }

  lemma SquareMonotone(a: nat, b: nat)
    requires a <= b
    ensures a * a <= b * b
  {
    assert b * b - a * a == (b - a) * (b + a);
  }

  /** `n` rounded down to a multiple of `u`. */
  function RoundDown(n: nat, u: nat): (m: nat)
    requires u > 0
    ensures m <= n < m + u
  {
    Quotient(n, u) * u
  }

  lemma {:induction false} RoundDownIs(q: nat, u: nat, r: nat)
    requires r < u
    ensures RoundDown(q * u + r, u) == q * u
  {
    FloorIsGreatest(q * u + r, u, q);
    if Quotient(q * u + r, u) > q {
      MulMonotone(q + 1, Quotient(q * u + r, u), u);
    }
  }
}
