/** Polynomials over GF(256) as coefficient sequences, highest power first. */
module Polynomials {
  import opened GF256

  type Coeffs = seq<bv8>

  function Zeros(n: nat): (s: Coeffs)
    ensures |s| == n && forall k :: 0 <= k < n ==> s[k] == 0
  {
    seq(n, _ => 0)
  }

  // Coefficient by coefficient.
  function Add(s: Coeffs, t: Coeffs): (r: Coeffs)
    requires |s| == |t|
    ensures |r| == |s| && forall k :: 0 <= k < |s| ==> r[k] == Xor(s[k], t[k])
  {
    seq(|s|, k requires 0 <= k < |s| => Xor(s[k], t[k]))
  }

  ghost function Scale(c: bv8, s: Coeffs): (r: Coeffs)
    ensures |r| == |s| && forall k :: 0 <= k < |s| ==> r[k] == Mul(c, s[k])
  {
    seq(|s|, k requires 0 <= k < |s| => Mul(c, s[k]))
  }

  ghost function Product(p: Coeffs, e: Coeffs): (r: Coeffs)
    requires |e| > 0
    ensures |r| == |p| + |e| - 1
  {
    if p == [] then Zeros(|e| - 1)
    else
      var n := |p| - 1;
      Add(Product(p[..n], e) + [0], Zeros(n) + Scale(p[n], e))
  }

  // Horner's rule.
  ghost function Eval(s: Coeffs, x: bv8): bv8 {
    if s == [] then 0 else Xor(Mul(Eval(s[..|s| - 1], x), x), s[|s| - 1])
  }

  lemma EvalSnoc(s: Coeffs, c: bv8, x: bv8)
    ensures Eval(s + [c], x) == Xor(Mul(Eval(s, x), x), c)
  {
    hide Mul, Xor;
    assert (s + [c])[..|s + [c]| - 1] == s;
  }

  lemma EvalTimesX(s: Coeffs, x: bv8)
    ensures Eval(s + [0], x) == Mul(Eval(s, x), x)
  {
    hide Mul, Xor;
    EvalSnoc(s, 0, x);
    XorLaws(Mul(Eval(s, x), x), 0, 0);
  }

  lemma {:induction false} EvalAdd(s: Coeffs, t: Coeffs, x: bv8)
    requires |s| == |t|
    ensures Eval(Add(s, t), x) == Xor(Eval(s, x), Eval(t, x))
  {
    hide Mul, Xor;
    if s == [] {
      XorLaws(0, 0, 0);
    } else {
      var n := |s| - 1;
      EvalAdd(s[..n], t[..n], x);
      assert Add(s, t)[..n] == Add(s[..n], t[..n]);
      MulDistributes(x, Eval(s[..n], x), Eval(t[..n], x));
      XorSwap(Mul(Eval(s[..n], x), x), Mul(Eval(t[..n], x), x), s[n], t[n]);
    }
  }

  lemma {:induction false} EvalScale(c: bv8, s: Coeffs, x: bv8)
    ensures Eval(Scale(c, s), x) == Mul(c, Eval(s, x))
  {
    hide Mul, Xor;
    if s == [] {
      MulZero(c, 0);
    } else {
      var n := |s| - 1;
      EvalScale(c, s[..n], x);
      assert Scale(c, s)[..n] == Scale(c, s[..n]);
      MulAssociates(c, Eval(s[..n], x), x);
      MulDistributes(c, Mul(Eval(s[..n], x), x), s[n]);
    }
  }

  lemma {:induction false} EvalLeadingZeros(n: nat, s: Coeffs, x: bv8)
    ensures Eval(Zeros(n) + s, x) == Eval(s, x)
  {
    hide Mul, Xor;
    if s == [] {
      assert Zeros(n) + s == Zeros(n);
      if n > 0 {
        EvalLeadingZeros(n - 1, [], x);
        assert Zeros(n)[..n - 1] == Zeros(n - 1) + [];
        MulZero(0, x);
        XorLaws(0, 0, 0);
      }
    } else {
      var k := |s| - 1;
      EvalLeadingZeros(n, s[..k], x);
      assert (Zeros(n) + s)[..n + k] == Zeros(n) + s[..k];
    }
  }

  // A root stays a root when the polynomial is multiplied by a power of x.
  lemma {:induction false} EvalTrailingZeros(s: Coeffs, n: nat, x: bv8)
    requires Eval(s, x) == 0
    ensures Eval(s + Zeros(n), x) == 0
  {
    hide Mul, Xor;
    if n > 0 {
      EvalTrailingZeros(s, n - 1, x);
      assert s + Zeros(n) == s + Zeros(n - 1) + [0];
      EvalTimesX(s + Zeros(n - 1), x);
      MulZero(0, x);
    } else {
      assert s + Zeros(0) == s;
    }
  }

  lemma {:induction false} EvalProduct(p: Coeffs, e: Coeffs, x: bv8)
    requires |e| > 0
    ensures Eval(Product(p, e), x) == Mul(Eval(p, x), Eval(e, x))
  {
    hide Mul, Xor;
    if p == [] {
      EvalLeadingZeros(|e| - 1, [], x);
      assert Zeros(|e| - 1) + [] == Zeros(|e| - 1);
      MulZero(0, Eval(e, x));
    } else {
      var n := |p| - 1;
      var (f, g) := (Eval(p[..n], x), Eval(e, x));
      EvalProduct(p[..n], e, x);
      EvalAdd(Product(p[..n], e) + [0], Zeros(n) + Scale(p[n], e), x);
      EvalTimesX(Product(p[..n], e), x);
      EvalLeadingZeros(n, Scale(p[n], e), x);
      EvalScale(p[n], e, x);
      MulAssociates(f, g, x); MulCommutes(g, x); MulAssociates(f, x, g);
      MulDistributes(g, Mul(f, x), p[n]);
    }
  }

  // ----- a polynomial with more roots than its degree is zero

  // The quotient by (x - r), by synthetic division; the remainder is the value at r.
  ghost function Deflate(s: Coeffs, r: bv8): (q: Coeffs)
    requires s != []
    ensures |q| == |s| - 1
  {
    if |s| == 1 then [] else Deflate(s[..|s| - 1], r) + [Eval(s[..|s| - 1], r)]
  }

  lemma {:induction false} DeflateEval(s: Coeffs, r: bv8, x: bv8)
    requires s != []
    ensures Eval(s, x) == Xor(Mul(Eval(Deflate(s, r), x), Xor(x, r)), Eval(s, r))
  {
    hide Mul, Xor;
    var n := |s| - 1;
    var (c, t) := (s[n], s[..n]);
    if n == 0 {
      MulZero(0, x); MulZero(0, r); MulZero(0, Xor(x, r));
      XorLaws(c, 0, 0);
      assert t == [] && Deflate(s, r) == [];
    } else {
      DeflateEval(t, r, x);
      var (q, v) := (Eval(Deflate(t, r), x), Eval(t, r));
      EvalSnoc(Deflate(t, r), v, x);
      SyntheticStep(q, v, c, x, r);
    }
  }

  // One step of synthetic division: (q(x-r) + v)x + c = (qx + v)(x-r) + (vr + c).
  lemma SyntheticStep(q: bv8, v: bv8, c: bv8, x: bv8, r: bv8)
    ensures Xor(Mul(Xor(Mul(q, Xor(x, r)), v), x), c)
         == Xor(Mul(Xor(Mul(q, x), v), Xor(x, r)), Xor(Mul(v, r), c))
  {
    hide Mul, Xor;
    var d := Xor(x, r);
    var (qdx, vx, vr) := (Mul(Mul(q, d), x), Mul(v, x), Mul(v, r));
    MulDistributes(x, Mul(q, d), v);
    MulDistributes(d, Mul(q, x), v);
    MulAssociates(q, d, x); MulCommutes(d, x); MulAssociates(q, x, d);
    MulDistributes(v, x, r);
    assert Mul(Xor(Mul(q, d), v), x) == Xor(qdx, vx);
    assert Mul(Xor(Mul(q, x), v), d) == Xor(qdx, Xor(vx, vr));
    XorLaws(qdx, vx, vr); XorLaws(Xor(qdx, vx), vr, Xor(vr, c)); XorLaws(vr, vr, c); XorLaws(c, 0, 0);
  }

  lemma {:induction false} DeflateZero(s: Coeffs, r: bv8)
    requires s != [] && Eval(s, r) == 0
    requires forall k :: 0 <= k < |s| - 1 ==> Deflate(s, r)[k] == 0
    ensures forall k :: 0 <= k < |s| ==> s[k] == 0
  {
    hide Mul, Xor;
    var n := |s| - 1;
    var t := s[..n];
    if n > 0 {
      assert Deflate(s, r)[n - 1] == Eval(t, r);
      forall k | 0 <= k < n - 1 ensures Deflate(t, r)[k] == 0 { assert Deflate(s, r)[k] == Deflate(t, r)[k]; }
      DeflateZero(t, r);
    }
    MulZero(0, r);
    XorLaws(0, s[n], 0);
    forall k | 0 <= k < n ensures s[k] == 0 { assert s[k] == t[k]; }
  }

  /** A polynomial of degree below n that vanishes at n distinct points is the zero polynomial. */
  lemma {:induction false} TooManyRoots(s: Coeffs, roots: seq<bv8>)
    requires |s| <= |roots|
    requires forall i, j :: 0 <= i < j < |roots| ==> roots[i] != roots[j]
    requires forall i :: 0 <= i < |roots| ==> Eval(s, roots[i]) == 0
    ensures forall k :: 0 <= k < |s| ==> s[k] == 0
    decreases |s|
  {
    hide Mul, Xor, Eval;
    if s != [] {
      var n := |roots| - 1;
      var r := roots[n];
      forall i | 0 <= i < n ensures Eval(Deflate(s, r), roots[i]) == 0 {
        DeflateEval(s, r, roots[i]);
        var q := Eval(Deflate(s, r), roots[i]);
        XorLaws(Mul(q, Xor(roots[i], r)), 0, 0);
        XorLaws(roots[i], r, 0);
        MulZero(q, Xor(roots[i], r));
      }
      TooManyRoots(Deflate(s, r), roots[..n]);
      DeflateZero(s, r);
    }
  }
}
