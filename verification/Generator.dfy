/** The generator polynomial of getErrorCorrectPolynomial, assets/js/qrcode.js:966-972. */
module Generator {
  import opened GF256
  import opened Polynomials

  // (x + 1)(x + a)(x + a^2) ... , n factors, a being the generator of the field.
  ghost function Gen(n: nat): (g: Coeffs)
    ensures |g| == n + 1
  {
    if n == 0 then [1] else Product(Gen(n - 1), [1, Exp(n - 1)])
  }

  lemma {:induction false} GenRoot(n: nat, i: nat)
    requires i < n
    ensures Eval(Gen(n), Exp(i)) == 0
  {
    hide Mul, Xor, Shift;
    var (g, f) := (Gen(n - 1), [1, Exp(n - 1)]);
    EvalProduct(g, f, Exp(i));
    if i < n - 1 {
      GenRoot(n - 1, i);
    } else {
      assert f[..1] == [1] && [1 as bv8][..0] == [];
      LinearRoot(Exp(i));
    }
    MulZero(Eval(g, Exp(i)), Eval(f, Exp(i)));
  }

  lemma LinearRoot(r: bv8)
    ensures Eval([1, r], r) == 0
  {
    hide Mul, Xor;
    EvalSnoc([], 1, r);
    EvalSnoc([1], r, r);
    assert [] + [1 as bv8] == [1] && [1, r] == [1] + [r];
    MulZero(0, r);
    XorLaws(1, 0, 0);
    MulOne(r);
    XorLaws(r, 0, 0);
  }

  // ----- no coefficient vanishes up to degree 254

  // Pascal's rule for the coefficients: of the product with (x + c), the k-th is p[k] + c p[k-1].
  ghost function At(p: Coeffs, k: int): bv8 {
    if 0 <= k < |p| then p[k] else 0
  }

  lemma {:induction false} TimesLinear(p: Coeffs, c: bv8, k: nat)
    requires k <= |p|
    ensures Product(p, [1, c])[k] == Xor(At(p, k), Mul(c, At(p, k - 1)))
  {
    hide Mul, Xor;
    if p == [] {
      MulZero(c, 0);
      XorLaws(0, 0, 0);
    } else {
      var n := |p| - 1;
      var (q, e) := (p[..n], [1, c]);
      var (s, t) := (Product(q, e) + [0], Zeros(n) + Scale(p[n], e));
      assert Product(p, e) == Add(s, t);
      MulOne(p[n]); MulCommutes(p[n], c); MulZero(c, 0);
      if k < n {
        TimesLinear(q, c, k);
        XorLaws(s[k], 0, 0);
      } else if k == n {
        TimesLinear(q, c, n);
        assert t[n] == p[n];
        XorLaws(0, Mul(c, At(p, n - 1)), 0); XorLaws(Mul(c, At(p, n - 1)), p[n], 0);
        XorLaws(Mul(c, At(p, n - 1)), 0, 0);
      } else {
        assert t[n + 1] == Mul(p[n], c);
        XorLaws(Mul(c, p[n]), 0, 0);
      }
    }
  }

  ghost function Coef(n: nat, k: int): bv8 {
    At(Gen(n), k)
  }

  lemma CoefPascal(n: nat, k: int)
    ensures Coef(n + 1, k) == Xor(Coef(n, k), Mul(Exp(n), Coef(n, k - 1)))
  {
    hide Mul, Xor, Shift;
    MulZero(Exp(n), 0);
    XorLaws(0, 0, 0);
    if 0 <= k <= n + 1 { TimesLinear(Gen(n), Exp(n), k); }
  }

  lemma ExpProduct(m: nat, n: nat)
    ensures Mul(Exp(m), Exp(n)) == Exp(m + n)
  {
    hide Shift;
    ExpNonzero(m);
    MulIsShift(Exp(m), Exp(n));
    ShiftAdds(Log(Exp(m)), n, 1);
    ShiftAdds(n, Log(Exp(m)), 1);
    ShiftAdds(n, m, 1);
  }

  // Neighbouring coefficients: c(k) (a^k + 1) = c(k-1) (a^n + a^(k-1)), as for Gaussian binomials.
  lemma {:induction false} Neighbours(n: nat, k: nat)
    requires k >= 1
    ensures Mul(Coef(n, k), Xor(Exp(k), 1)) == Mul(Coef(n, k - 1), Xor(Exp(n), Exp(k - 1)))
  {
    hide Mul, Xor, Shift, At;
    if n == 0 {
      NeighboursBase(k);
    } else {
      Neighbours(n - 1, k);
      if k >= 2 { Neighbours(n - 1, k - 1); }
      NeighboursLeft(n - 1, k);
      NeighboursRight(n - 1, k);
    }
  }

  lemma NeighboursBase(k: nat)
    requires k >= 1
    ensures Mul(Coef(0, k), Xor(Exp(k), 1)) == Mul(Coef(0, k - 1), Xor(Exp(0), Exp(k - 1)))
  {
    hide Mul, Xor, Shift;
    MulZero(Coef(0, k), Xor(Exp(k), 1));
    XorLaws(Exp(0), Exp(k - 1), 0);
    MulZero(Coef(0, k - 1), Xor(Exp(0), Exp(k - 1)));
  }

  // The value both sides reach: c(n, k-1) a^(k-1) + c(n, k-1) a^(n+k).
  ghost function Middle(n: nat, k: nat): bv8
    requires k >= 1
  {
    Xor(Mul(Coef(n, k - 1), Exp(k - 1)), Mul(Coef(n, k - 1), Exp(n + k)))
  }

  lemma NeighboursLeft(n: nat, k: nat)
    requires k >= 1
    requires Mul(Coef(n, k), Xor(Exp(k), 1)) == Mul(Coef(n, k - 1), Xor(Exp(n), Exp(k - 1)))
    ensures Mul(Coef(n + 1, k), Xor(Exp(k), 1)) == Middle(n, k)
  {
    hide Mul, Xor, Shift, Coef, At;
    var (c, d, f) := (Coef(n, k), Coef(n, k - 1), Xor(Exp(k), 1));
    CoefPascal(n, k);
    MulDistributes(f, c, Mul(Exp(n), d));
    MulDistributes(d, Exp(n), Exp(k - 1));
    // the second summand, d a^n (a^k + 1) = d a^(n+k) + d a^n
    MulCommutes(Exp(n), d); MulAssociates(d, Exp(n), f);
    MulDistributes(Exp(n), Exp(k), 1); MulOne(Exp(n)); ExpProduct(n, k);
    MulDistributes(d, Exp(n + k), Exp(n));
    var (x, y, z) := (Mul(d, Exp(n)), Mul(d, Exp(k - 1)), Mul(d, Exp(n + k)));
    assert Mul(Coef(n + 1, k), f) == Xor(Xor(x, y), Xor(z, x));
    XorCancelOuter(x, y, z);
  }

  lemma XorCancelOuter(x: bv8, y: bv8, z: bv8)
    ensures Xor(Xor(x, y), Xor(z, x)) == Xor(y, z)
  {
    hide Xor;
    XorLaws(x, y, 0); XorLaws(z, x, 0);
    XorSwap(y, x, z, x);
    XorLaws(x, x, 0);
    XorLaws(Xor(y, z), 0, 0);
  }

  lemma NeighboursRight(n: nat, k: nat)
    requires k >= 1
    requires k >= 2 ==> Mul(Coef(n, k - 1), Xor(Exp(k - 1), 1)) == Mul(Coef(n, k - 2), Xor(Exp(n), Exp(k - 2)))
    ensures Mul(Coef(n + 1, k - 1), Xor(Exp(n + 1), Exp(k - 1))) == Middle(n, k)
  {
    hide Mul, Xor, Shift, Coef, At;
    var (d, e, f) := (Coef(n, k - 1), Coef(n, k - 2), Xor(Exp(n + 1), Exp(k - 1)));
    CoefPascal(n, k - 1);
    MulDistributes(f, d, Mul(Exp(n), e));
    MulDistributes(d, Exp(n + 1), Exp(k - 1));
    var (x, y, z) := (Mul(d, Exp(n + 1)), Mul(d, Exp(k - 1)), Mul(d, Exp(n + k)));
    if k == 1 {
      NoCoefBelow(n);
      MulZero(Exp(n), 0); MulZero(0, f);
      XorLaws(Xor(x, y), 0, 0); XorLaws(x, y, 0);
    } else {
      RightSummand(n, k, d, e);
      MulDistributes(d, Exp(n + k), Exp(n + 1));
      XorCancelOuter(x, y, z);
    }
  }

  lemma NoCoefBelow(n: nat)
    ensures Coef(n, -1) == 0
  {
  }

  // a^n e (a^(n+1) + a^(k-1)) = d (a^(n+k) + a^(n+1)), given d (a^(k-1) + 1) = e (a^n + a^(k-2)).
  lemma RightSummand(n: nat, k: nat, d: bv8, e: bv8)
    requires k >= 2
    requires Mul(d, Xor(Exp(k - 1), 1)) == Mul(e, Xor(Exp(n), Exp(k - 2)))
    ensures Mul(Mul(Exp(n), e), Xor(Exp(n + 1), Exp(k - 1))) == Mul(d, Xor(Exp(n + k), Exp(n + 1)))
  {
    hide Mul, Xor, Shift;
    var (a, g, h) := (Exp(1), Xor(Exp(n), Exp(k - 2)), Xor(Exp(k - 1), 1));
    MulDistributes(a, Exp(n), Exp(k - 2)); ExpProduct(1, n); ExpProduct(1, k - 2);
    assert Xor(Exp(n + 1), Exp(k - 1)) == Mul(a, g);
    MulDistributes(Exp(n + 1), Exp(k - 1), 1); MulOne(Exp(n + 1)); ExpProduct(n + 1, k - 1);
    assert Xor(Exp(n + k), Exp(n + 1)) == Mul(Exp(n + 1), h);
    calc {
      Mul(Mul(Exp(n), e), Mul(a, g));
      { MulAssociates(Exp(n), e, Mul(a, g)); MulAssociates(e, a, g); MulCommutes(e, a); MulAssociates(a, e, g); }
      Mul(Exp(n), Mul(a, Mul(e, g)));
      { MulAssociates(Exp(n), a, Mul(d, h)); ExpProduct(n, 1); }
      Mul(Exp(n + 1), Mul(d, h));
      { MulAssociates(Exp(n + 1), d, h); MulCommutes(Exp(n + 1), d); MulAssociates(d, Exp(n + 1), h); }
      Mul(d, Mul(Exp(n + 1), h));
    }
  }

  ghost predicate AllNonzero(s: Coeffs) {
    forall k :: 0 <= k < |s| ==> s[k] != 0
  }

  lemma {:induction false} CoefNonzero(n: nat, k: nat)
    requires k <= n <= 254
    ensures Coef(n, k) != 0
  {
    hide Mul, Xor, Shift;
    if k == 0 {
      LeadingOne(n);
    } else {
      CoefNonzero(n, k - 1);
      Neighbours(n, k);
      XorLaws(Exp(n), Exp(k - 1), 0);
      if Exp(n) == Exp(k - 1) { ExpInjective(n, k - 1); }
      MulZero(Coef(n, k - 1), Xor(Exp(n), Exp(k - 1)));
      MulZero(Coef(n, k), Xor(Exp(k), 1));
    }
  }

  lemma {:induction false} LeadingOne(n: nat)
    ensures Coef(n, 0) == 1
  {
    hide Mul, Xor, Shift;
    if n > 0 {
      LeadingOne(n - 1);
      CoefPascal(n - 1, 0);
      NoCoefBelow(n - 1);
      MulZero(Exp(n - 1), 0);
      XorLaws(1, 0, 0);
    }
  }

  /** The logarithm of every coefficient of the generator exists up to degree 254, and at degree
      255, where the generator is x^255 + 1, it does not. */
  lemma LogsExistIff(n: nat)
    requires n <= 255
    ensures AllNonzero(Gen(n)) <==> n <= 254
  {
    hide Mul, Xor, Shift;
    if n <= 254 {
      forall k | 0 <= k < |Gen(n)| ensures Gen(n)[k] != 0 { CoefNonzero(n, k); }
    } else {
      Neighbours(255, 1);
      ExpAt255(); ExpStart();
      XorLaws(1, 1, 0);
      MulZero(Coef(255, 0), 0);
      NoEarlyOne(1);
      XorLaws(Exp(1), 1, 0);
      MulZero(Coef(255, 1), Xor(Exp(1), 1));
      assert Gen(255)[1] == 0;
    }
  }
}
