/** The inequalities behind the pool: what floor division and floor square roots
    leave of the constant-product argument. Amounts only, no state. */
module PoolMath {
  import opened BigNum
  import opened Arithmetic

  /** (a * b)^2 regrouped. */
  lemma SquareOfProduct(a: nat, b: nat)
    ensures (a * b) * (a * b) == (a * a) * (b * b)
  {
    calc {
      (a * b) * (a * b);
      a * (b * (a * b));
      { assert b * (a * b) == a * (b * b); }
      a * (a * (b * b));
      (a * a) * (b * b);
    }
  }

  lemma Exchange(a: nat, b: nat, c: nat, d: nat)
    ensures (a * b) * (c * d) == (a * c) * (b * d)
  {
    calc {
      (a * b) * (c * d);
      a * (b * (c * d));
      { assert b * (c * d) == c * (b * d); }
      a * (c * (b * d));
      (a * c) * (b * d);
    }
  }

  // ---- value of a share

  /** If both reserves shrink or grow at least as well as the supply does, then
      so does the product against the square of the supply. */
  lemma {:induction false} ProportionalShare(r0: nat, r1: nat, s: nat, r0': nat, r1': nat, s': nat)
    requires r0' * s >= r0 * s' && r1' * s >= r1 * s'
    ensures (r0' * r1') * (s * s) >= (r0 * r1) * (s' * s')
  {
    MulBoth(r0 * s', r0' * s, r1 * s', r1' * s);
    Exchange(r0, s', r1, s');
    Exchange(r0', s, r1', s);
  }

  /** Comparing three (product, supply) pairs is transitive. */
  lemma ShareTransitive(k1: nat, s1: nat, k2: nat, s2: nat, k3: nat, s3: nat)
    requires s2 > 0
    requires k2 * (s1 * s1) >= k1 * (s2 * s2)
    requires k3 * (s2 * s2) >= k2 * (s3 * s3)
    ensures k3 * (s1 * s1) >= k1 * (s3 * s3)
  {
    var a, b, c := s1 * s1, s2 * s2, s3 * s3;
    MulMonotone(k2 * c, k3 * b, a);
    MulMonotone(k1 * b, k2 * a, c);
    assert (k3 * b) * a == (k3 * a) * b;
    assert (k2 * c) * a == (k2 * a) * c;
    assert (k1 * b) * c == (k1 * c) * b;
    assert b > 0;
    MulCancel(k1 * c, k3 * a, b);
  }

  /** Supply under the square root of k stays there when the share value does not fall. */
  lemma SupplyUnderRoot(k: nat, s: nat, k': nat, s': nat)
    requires s > 0 && s * s <= k
    requires k' * (s * s) >= k * (s' * s')
    ensures s' * s' <= k'
  {
    MulMonotone(s * s, k, s' * s');
    MulCancel(s' * s', k', s * s);
  }

  // ---- protocol fee

  /** The fee minted for growth of the floored root from `rl` to `rk` on supply `s`. */
  function Fee(s: nat, rk: nat, rl: nat): nat
    requires rk > rl
  {
    Quotient(s * (rk - rl), rk * 5 + rl)
  }

  /** The minted liquidity is at most one sixth of the growth, and never lifts the
      supply above the new root. */
  lemma {:induction false} FeeBound(s: nat, rk: nat, rl: nat)
    requires rk > rl
    ensures var f := Fee(s, rk, rl); 6 * rk * f <= (s + f) * (rk - rl)
    ensures s <= rl ==> s + Fee(s, rk, rl) <= rk
  {
    var f := Fee(s, rk, rl);
    var d := rk - rl;
    assert f * (rk * 5 + rl) == f * (6 * rk - d);
    assert f * (6 * rk - d) == 6 * rk * f - f * d;
    assert (s + f) * d == s * d + f * d;
    if s <= rl {
      MulMonotone(s, rl, d);
      // f * (5 rk + rl) <= rl * d <= d * (5 rk + rl)
      MulMonotone(rl, rk * 5 + rl, d);
      MulCancel(f, d, rk * 5 + rl);
    }
  }

  lemma NoFeeOnNothing(rk: nat, rl: nat)
    requires rk > rl
    ensures Fee(0, rk, rl) == 0
  {
    assert 0 * (rk - rl) == 0;
    FloorAtMost(0, rk * 5 + rl, 0);
  }

  /** A growth of one in the floored root is too small to mint anything. */
  lemma NoFeeForGapOne(s: nat, rl: nat)
    requires s <= rl
    ensures Fee(s, rl + 1, rl) == 0
  {
    assert s * (rl + 1 - rl) == s;
    assert s < (rl + 1) * 5 + rl;
  }

  /** The floored roots hide up to one unit on each side, and still the fee never
      takes back more than the growth since the last liquidity event. */
  lemma {:induction false} FeeKeepsShare(s: nat, k: nat, kl: nat)
    requires s * s <= kl <= k
    requires Sqrt(k) > Sqrt(kl)
    ensures var f := Fee(s, Sqrt(k), Sqrt(kl)); k * (s * s) >= kl * ((s + f) * (s + f))
  {
    var rk, rl := Sqrt(k), Sqrt(kl);
    var f := Fee(s, rk, rl);
    SqrtIsGreatest(kl, s);
    if rk == rl + 1 {
      NoFeeForGapOne(s, rl);
      MulMonotone(kl, k, s * s);
    } else {
      FeeLinear(s, f, rk, rl);
      SquaredComparison(kl, rl + 1, s + f, k, rk, s);
    }
  }

  lemma SquaredComparison(kl: nat, l: nat, t: nat, k: nat, rk: nat, s: nat)
    requires kl <= l * l && rk * rk <= k
    requires l * t <= rk * s
    ensures kl * (t * t) <= k * (s * s)
  {
    SquareMonotone(l * t, rk * s);
    SquareOfProduct(l, t);
    SquareOfProduct(rk, s);
    MulMonotone(kl, l * l, t * t);
    MulMonotone(rk * rk, k, s * s);
  }

  lemma {:induction false} FeeLinear(s: nat, f: nat, rk: nat, rl: nat)
    requires rk >= rl + 2
    requires f * (rk * 5 + rl) <= s * (rk - rl)
    ensures (rl + 1) * (s + f) <= rk * s
  {
    var d, den := rk - rl, rk * 5 + rl;
    assert d * (rl + 1) <= (d - 1) * den by {
      GapArithmetic(rl, d);
      assert den == 6 * rl + 5 * d;
    }
    CancelFee(s, f, rl + 1, d, den);
    assert (rl + 1) * (s + f) == rl * s + s + (rl + 1) * f;
    assert rk * s == rl * s + d * s;
    assert s * (d - 1) == d * s - s;
  }

  lemma GapArithmetic(rl: nat, d: nat)
    requires d >= 2
    ensures d * (rl + 1) <= (d - 1) * (6 * rl + 5 * d)
  {
    MulMonotone(d, 6 * (d - 1), rl);
    MulMonotone(1, 5 * (d - 1), d);
    assert (d - 1) * (6 * rl + 5 * d) == (6 * (d - 1)) * rl + (5 * (d - 1)) * d;
  }

  lemma CancelFee(s: nat, f: nat, l: nat, d: nat, den: nat)
    requires d >= 2
    requires d * l <= (d - 1) * den
    requires f * den <= s * d
    ensures l * f <= s * (d - 1)
  {
    MulMonotone(d * l, (d - 1) * den, f);
    MulMonotone(f * den, s * d, d - 1);
    assert (l * f) * d == (d * l) * f;
    assert (d - 1) * den * f == (f * den) * (d - 1);
    assert (s * d) * (d - 1) == (s * (d - 1)) * d;
    MulCancel(l * f, s * (d - 1), d);
  }

  // ---- swap pricing; `g` is 1000 minus the fee rate

  /** Output for an exact input. */
  function OutFor(rin: nat, rout: nat, g: nat, x: nat): nat
    requires rin > 0
  {
    Quotient(x * g * rout, rin * 1000 + x * g)
  }

  /** Input for an exact output. */
  function InFor(rin: nat, rout: nat, g: nat, y: nat): nat
    requires y < rout && g > 0
  {
    PositiveProduct(rout - y, g);
    Quotient(rin * y * 1000, (rout - y) * g) + 1
  }

  /** The curve that both prices respect: the fee-weighted product never falls. */
  predicate OnCurve(rin: nat, rout: nat, g: nat, x: nat, y: nat) {
    y <= rout && (rin * 1000 + x * g) * (rout - y) >= 1000 * rin * rout
  }

  /** `OutFor` is the largest output on the curve. */
  lemma {:induction false} OutIsLargest(rin: nat, rout: nat, g: nat, x: nat, y: nat)
    requires rin > 0 && rout > 0
    ensures OutFor(rin, rout, g, x) < rout
    ensures OnCurve(rin, rout, g, x, y) <==> y <= OutFor(rin, rout, g, x)
  {
    var a := x * g;
    var den := rin * 1000 + a;
    var out := OutFor(rin, rout, g, x);
    assert den * rout == 1000 * rin * rout + a * rout;
    assert 1000 * rin * rout > 0;
    if out >= rout {
      MulMonotone(rout, out, den);
    }
    if y <= rout {
      assert den * (rout - y) == den * rout - y * den;
      // so the curve says exactly y * den <= a * rout
      if y <= out {
        MulMonotone(y, out, den);
      } else {
        MulMonotone(out + 1, y, den);
      }
    }
  }

  /** The curve in terms of the input: x has to be at least num / den. */
  lemma CurveByInput(rin: nat, rout: nat, g: nat, x: nat, y: nat)
    requires y < rout && g > 0
    ensures OnCurve(rin, rout, g, x, y) <==> x * ((rout - y) * g) >= rin * y * 1000
  {
    calc {
      (rin * 1000 + x * g) * (rout - y);
      rin * 1000 * (rout - y) + x * g * (rout - y);
      { assert x * g * (rout - y) == x * ((rout - y) * g); }
      rin * 1000 * (rout - y) + x * ((rout - y) * g);
      { assert rin * 1000 * (rout - y) == 1000 * rin * rout - rin * y * 1000; }
      1000 * rin * rout - rin * y * 1000 + x * ((rout - y) * g);
    }
  }

  /** The inputs that buy at least `y`, by the number `InFor` divides. */
  lemma EnoughInput(rin: nat, rout: nat, g: nat, y: nat, x: nat)
    requires rin > 0 && 0 < y < rout && g > 0
    ensures y <= OutFor(rin, rout, g, x) <==> x * ((rout - y) * g) >= rin * y * 1000
  {
    OutIsLargest(rin, rout, g, x, y);
    CurveByInput(rin, rout, g, x, y);
  }

  lemma PositiveProduct(a: nat, b: nat)
    requires a > 0 && b > 0
    ensures a * b > 0
  {
  }

  /** Whether the division inside `InFor` leaves no remainder. */
  predicate ExactInput(rin: nat, rout: nat, g: nat, y: nat)
    requires y < rout && g > 0
  {
    PositiveProduct(rout - y, g);
    Quotient(rin * y * 1000, (rout - y) * g) * ((rout - y) * g) == rin * y * 1000
  }

  /** `InFor` buys at least the output asked for, and overcharges by at most one:
      exactly one when the division is exact, and nothing otherwise. */
  lemma InIsLeast(rin: nat, rout: nat, g: nat, y: nat, x: nat)
    requires rin > 0 && 0 < y < rout && g > 0
    ensures y <= OutFor(rin, rout, g, x) <==>
            x >= InFor(rin, rout, g, y) - (if ExactInput(rin, rout, g, y) then 1 else 0)
  {
    PositiveProduct(rout - y, g);
    EnoughInput(rin, rout, g, y, x);
    CeilingTest(rin * y * 1000, (rout - y) * g, x);
  }

  lemma CeilingTest(num: nat, den: nat, x: nat)
    requires den > 0
    ensures x * den >= num <==> x >= Quotient(num, den) + (if Quotient(num, den) * den == num then 0 else 1)
  {
    var q := Quotient(num, den);
    if x >= q + 1 {
      MulMonotone(q + 1, x, den);
    } else if x < q {
      MulMonotone(x + 1, q, den);
      assert (x + 1) * den == x * den + den;
    }
  }

  /** On the curve with a fee, the plain product of the reserves does not fall. */
  lemma {:induction false} CurveKeepsProduct(rin: nat, rout: nat, g: nat, x: nat, y: nat)
    requires g <= 1000 && OnCurve(rin, rout, g, x, y)
    ensures (rin + x) * (rout - y) >= rin * rout
  {
    MulMonotone(g, 1000, x);
    MulMonotone(rin * 1000 + x * g, 1000 * (rin + x), rout - y);
    assert 1000 * (rin + x) * (rout - y) == 1000 * ((rin + x) * (rout - y));
    assert 1000 * rin * rout == 1000 * (rin * rout);
  }

  /** Two curve steps in a row stay on the curve of the summed input. */
  lemma CurveComposes(rin: nat, rout: nat, g: nat, a: nat, y: nat, b: nat, z: nat)
    requires g <= 1000
    requires OnCurve(rin, rout, g, a, y)
    requires OnCurve(rin + a, rout - y, g, b, z)
    ensures OnCurve(rin, rout, g, a + b, y + z)
  {
    var p, q := rin * 1000 + a * g, 1000 * (rin + a);
    MulMonotone(g, 1000, a);
    MulMonotone(g, 1000, b);
    assert (rin + a) * 1000 + b * g == q + b * g;
    assert rin * 1000 + (a + b) * g == p + b * g;
    FlatterStep(p, q, b * g, rout - y, z);
  }

  /** A step that pays off against the larger base pays off against a smaller one. */
  lemma FlatterStep(p: nat, q: nat, c: nat, left: nat, z: nat)
    requires p <= q && z <= left
    requires (q + c) * (left - z) >= q * left
    ensures (p + c) * (left - z) >= p * left
  {
    assert (q + c) * (left - z) == q * left - q * z + c * (left - z);
    assert (p + c) * (left - z) == p * left - p * z + c * (left - z);
    MulMonotone(p, q, z);
  }

  // ---- minting and burning shares

  /** Liquidity minted for a deposit, as the smaller of the two proportional shares. */
  lemma MintKeepsShare(r0: nat, r1: nat, s: nat, a0: nat, a1: nat, lp: nat)
    requires r0 > 0 && r1 > 0
    requires lp <= Quotient(a0 * s, r0) && lp <= Quotient(a1 * s, r1)
    ensures (r0 + a0) * s >= r0 * (s + lp)
    ensures (r1 + a1) * s >= r1 * (s + lp)
  {
    MulMonotone(lp, Quotient(a0 * s, r0), r0);
    MulMonotone(lp, Quotient(a1 * s, r1), r1);
    assert (r0 + a0) * s == r0 * s + a0 * s && r0 * (s + lp) == r0 * s + lp * r0;
    assert (r1 + a1) * s == r1 * s + a1 * s && r1 * (s + lp) == r1 * s + lp * r1;
  }

  /** What a burn of `lp` out of `s` shares pays from a reserve `r`. */
  lemma BurnKeepsShare(r: nat, s: nat, lp: nat)
    requires s > 0 && lp <= s
    ensures Quotient(lp * r, s) <= r
    ensures (r - Quotient(lp * r, s)) * s >= r * (s - lp)
  {
    MulMonotone(lp, s, r);
    FloorAtMost(lp * r, s, r);
    var q := Quotient(lp * r, s);
    assert (r - q) * s == r * s - q * s;
    assert r * (s - lp) == r * s - lp * r;
  }

  /** Shares just minted for `a` pay back at most `a`. */
  lemma MintThenBurn(r: nat, s: nat, a: nat, lp: nat)
    requires r > 0 && s > 0 && lp <= Quotient(a * s, r)
    ensures Quotient(lp * (r + a), s + lp) <= a
  {
    MulMonotone(lp, Quotient(a * s, r), r);
    assert lp * (r + a) == lp * r + lp * a;
    assert a * (s + lp) == a * s + lp * a;
    FloorAtMost(lp * (r + a), s + lp, a);
  }
}
