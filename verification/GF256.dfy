/** QRMath of assets/js/qrcode.js: the field GF(256) through its exponent and logarithm tables.

    The field is GF(2)[x] modulo x^8 + x^4 + x^3 + x^2 + 1, an element being the byte of its
    coefficients; XTime multiplies by x, whose powers are all the nonzero elements. */
module GF256 {
  import opened Prelude

  function Xor(a: bv8, b: bv8): bv8 {
    a ^ b
  }

  // The bit shifted out comes back as x^4 + x^3 + x^2 + 1.
  function XTime(a: bv8): bv8 {
    var out := a >> 7;
    (a << 1) ^ out ^ (out << 2) ^ (out << 3) ^ (out << 4)
  }

  // a times x to the n.
  function Shift(n: nat, a: bv8): bv8 {
    if n == 0 then a else XTime(Shift(n - 1, a))
  }

  function Exp(n: nat): bv8 {
    Shift(n, 1)
  }

  lemma XorLaws(a: bv8, b: bv8, c: bv8)
    ensures Xor(a, b) == Xor(b, a)
    ensures Xor(a, Xor(b, c)) == Xor(Xor(a, b), c)
    ensures Xor(a, a) == 0 && Xor(a, 0) == a == Xor(0, a)
    ensures Xor(a, b) == 0 <==> a == b
  {
  }

  // Terms regrouped two by two.
  lemma XorSwap(a: bv8, b: bv8, c: bv8, d: bv8)
    ensures Xor(Xor(a, b), Xor(c, d)) == Xor(Xor(a, c), Xor(b, d))
  {
    hide Xor;
    XorLaws(a, b, Xor(c, d)); XorLaws(b, c, d); XorLaws(c, b, d); XorLaws(a, c, Xor(b, d));
  }

  lemma XTimeLinear(a: bv8, b: bv8)
    ensures XTime(Xor(a, b)) == Xor(XTime(a), XTime(b))
  {
  }

  lemma XTimeInjective(a: bv8, b: bv8)
    ensures XTime(a) == XTime(b) ==> a == b
  {
  }

  lemma XTimeZero()
    ensures XTime(0) == 0
  {
  }

  // The recurrence that fills EXP_TABLE from index 8.
  lemma TableRecurrence(n: nat)
    requires n >= 8
    ensures Exp(n) == Xor(Xor(Xor(Exp(n - 4), Exp(n - 5)), Exp(n - 6)), Exp(n - 8))
  {
    hide Shift, XTime, Xor;
    Unroll(n - 8);
    EightTimes(Exp(n - 8));
  }

  lemma EightTimes(a: bv8)
    ensures XTime(XTime(XTime(XTime(XTime(XTime(XTime(XTime(a))))))))
            == Xor(Xor(Xor(XTime(XTime(XTime(XTime(a)))), XTime(XTime(XTime(a)))), XTime(XTime(a))), a)
  {
  }

  lemma Unroll(n: nat)
    ensures Exp(n + 1) == XTime(Exp(n)) && Exp(n + 2) == XTime(XTime(Exp(n)))
    ensures Exp(n + 3) == XTime(XTime(XTime(Exp(n)))) && Exp(n + 4) == XTime(XTime(XTime(XTime(Exp(n)))))
    ensures Exp(n + 8) == XTime(XTime(XTime(XTime(XTime(XTime(XTime(XTime(Exp(n))))))))) 
  {
    hide XTime;
    assert Exp(n + 2) == XTime(Exp(n + 1)) && Exp(n + 3) == XTime(Exp(n + 2)) && Exp(n + 4) == XTime(Exp(n + 3));
    assert Exp(n + 6) == XTime(XTime(Exp(n + 4))) by { assert Exp(n + 5) == XTime(Exp(n + 4)); }
    assert Exp(n + 8) == XTime(XTime(Exp(n + 6))) by { assert Exp(n + 7) == XTime(Exp(n + 6)); }
  }

  lemma {:induction false} ShiftLinear(n: nat, a: bv8, b: bv8)
    ensures Shift(n, Xor(a, b)) == Xor(Shift(n, a), Shift(n, b))
  {
    hide XTime, Xor;
    if n > 0 {
      ShiftLinear(n - 1, a, b);
      XTimeLinear(Shift(n - 1, a), Shift(n - 1, b));
    }
  }

  lemma {:induction false} ShiftAdds(m: nat, n: nat, a: bv8)
    ensures Shift(m, Shift(n, a)) == Shift(m + n, a)
  {
    hide XTime;
    if m > 0 { ShiftAdds(m - 1, n, a); }
  }

  lemma {:induction false} ShiftInjective(n: nat, a: bv8, b: bv8)
    requires Shift(n, a) == Shift(n, b)
    ensures a == b
  {
    hide XTime;
    if n > 0 {
      XTimeInjective(Shift(n - 1, a), Shift(n - 1, b));
      ShiftInjective(n - 1, a, b);
    }
  }

  lemma {:induction false} ShiftOfZero(n: nat)
    ensures Shift(n, 0) == 0
  {
    hide XTime;
    XTimeZero();
    if n > 0 { ShiftOfZero(n - 1); }
  }

  lemma ExpNonzero(n: nat)
    ensures Exp(n) != 0
  {
    hide XTime;
    ShiftOfZero(n);
    if Exp(n) == 0 { ShiftInjective(n, 1, 0); }
  }

  // ----- x has order 255

  function Shift8(a: bv8): bv8 {
    XTime(XTime(XTime(XTime(XTime(XTime(XTime(XTime(a))))))))
  }

  lemma ExpPlus8(n: nat)
    ensures Exp(n + 8) == Shift8(Exp(n))
  {
    hide XTime;
    Unroll(n);
  }

  lemma ExpPlus32(n: nat)
    ensures Exp(n + 32) == Shift8(Shift8(Shift8(Shift8(Exp(n)))))
  {
    hide XTime, Shift8, Shift;
    ExpPlus8(n); ExpPlus8(n + 8); ExpPlus8(n + 16); ExpPlus8(n + 24);
  }

  lemma ExpStart()
    ensures Exp(0) == 1
  {
  }

  lemma ExpAt64()
    ensures Exp(32) == 0x9d && Exp(64) == 0x5f
  {
    hide Shift;
    ExpStart(); ExpPlus32(0); ExpPlus32(32);
  }

  lemma ExpAt255()
    ensures Exp(255) == 1
  {
    ExpAt64();
    ExpPlus32(64); ExpPlus32(96);
    assert Exp(128) == 0x85;
    ExpPlus32(128); ExpPlus32(160);
    assert Exp(192) == 0x82;
    ExpPlus32(192); ExpPlus32(224);
    assert Exp(256) == 2 == XTime(1);
    assert Exp(256) == XTime(Exp(255));
    XTimeInjective(1, Exp(255));
  }

  // Were any of these 1, so would be the power named beside it.
  lemma ExpMilestones()
    ensures Exp(15) != 1 && Exp(51) != 1 && Exp(85) != 1
  {
    ExpAt64();
    ExpStart(); ExpPlus8(0); ExpPlus8(8);
    assert Exp(16) == 0x4c != XTime(1);
    assert Exp(16) == XTime(Exp(15));
    ExpPlus8(32); ExpPlus8(40);
    Unroll(48);
    assert Exp(48) == 0x46;
    ExpPlus8(64); ExpPlus8(72);
    assert Exp(80) == 0xfd;
    Unroll(80);
    assert Exp(85) == XTime(Exp(84));
  }

  lemma {:induction false} ExpTimes(d: nat, k: nat)
    requires Exp(d) == 1
    ensures Exp(d * k) == 1
  {
    hide Shift;
    if k == 0 {
      ExpStart();
    } else {
      ExpTimes(d, k - 1);
      ShiftAdds(d, d * (k - 1), 1);
      assert d + d * (k - 1) == d * k;
    }
  }

  // A proper divisor of 255 divides 85, 51 or 15.
  lemma Divisors(d: nat, k: nat)
    requires d * k == 255 && d < 255
    ensures k % 3 == 0 || k % 5 == 0 || k % 17 == 0
  {
    if k >= 16 {
      if d >= 16 {
        MulMonotone(16, d, 16, k);
        assert false;
      }
      assert d == 1 || d == 2 || d == 3 || d == 4 || d == 5 || d == 6 || d == 7 || d == 8
          || d == 9 || d == 10 || d == 11 || d == 12 || d == 13 || d == 14 || d == 15;
    } else {
      assert k == 1 || k == 2 || k == 3 || k == 4 || k == 5 || k == 6 || k == 7 || k == 8
          || k == 9 || k == 10 || k == 11 || k == 12 || k == 13 || k == 14 || k == 15;
    }
  }

  lemma MulMonotone(a: nat, b: nat, c: nat, d: nat)
    requires a <= b && c <= d
    ensures a * c <= b * d
  {
    assert a * c <= b * c <= b * d;
  }

  lemma {:induction false} NoEarlyOne(d: nat)
    requires 0 < d < 255
    ensures Exp(d) != 1
  {
    hide Shift;
    if Exp(d) == 1 {
      var k, r := 255 / d, 255 % d;
      ExpAt255();
      ExpTimes(d, k);
      ShiftAdds(r, d * k, 1);
      assert r + d * k == 255;
      if r > 0 {
        NoEarlyOne(r);
        assert false;
      }
      Divisors(d, k);
      if k % 3 == 0 {
        assert d * (k / 3) == 85;
        ExpTimes(d, k / 3);
      } else if k % 5 == 0 {
        assert d * (k / 5) == 51;
        ExpTimes(d, k / 5);
      } else {
        assert d * (k / 17) == 15;
        ExpTimes(d, k / 17);
      }
      ExpMilestones();
    }
  }

  lemma ExpInjective(i: nat, j: nat)
    requires i < 255 && j < 255 && Exp(i) == Exp(j)
    ensures i == j
  {
    hide Shift;
    if i != j {
      var (lo, hi) := if i < j then (i, j) else (j, i);
      ShiftAdds(lo, hi - lo, 1);
      ShiftInjective(lo, Exp(hi - lo), 1);
      NoEarlyOne(hi - lo);
    }
  }

  // n distinct numbers between 1 and n are all of them.
  lemma {:induction false} Pigeonhole(n: nat, s: seq<int>, x: int)
    requires Distinct(s) && |s| == n && forall y :: y in s ==> 1 <= y <= n
    requires 1 <= x <= n
    ensures x in s
  {
    if n !in s {
      var t := s[..n - 1];
      assert s[n - 1] in s;
      forall k | 0 <= k < n - 1 ensures 1 <= t[k] <= n - 1 { assert t[k] == s[k] && s[k] in s; }
      Pigeonhole(n - 1, t, s[n - 1]);
      assert false;
    } else if x < n {
      var k := IndexOf(s, n);
      SpliceDistinct(s, k);
      Pigeonhole(n - 1, Splice(s, k), x);
    }
  }

  // The number the tables are indexed with.
  function Code(v: bv8): int {
    v as int
  }

  lemma CodeIsInjective(a: bv8, b: bv8)
    ensures 0 <= Code(a) < 256 && (Code(a) == 0 <==> a == 0)
    ensures Code(a) == Code(b) <==> a == b
  {
  }

  /** Every nonzero element is a power of x. */
  lemma ExpOnto(v: bv8)
    requires v != 0
    ensures exists i: nat :: i < 255 && Exp(i) == v
  {
    hide Shift, Code;
    var powers := seq(255, i requires 0 <= i < 255 => Code(Exp(i)));
    forall i, j | 0 <= i < j < 255 ensures powers[i] != powers[j] {
      CodeIsInjective(Exp(i), Exp(j));
      if powers[i] == powers[j] { ExpInjective(i, j); }
    }
    forall y | y in powers ensures 1 <= y <= 255 {
      var i :| 0 <= i < 255 && powers[i] == y;
      ExpNonzero(i);
      CodeIsInjective(Exp(i), 0);
    }
    CodeIsInjective(v, v);
    Pigeonhole(255, powers, Code(v));
    var i :| 0 <= i < 255 && powers[i] == Code(v);
    CodeIsInjective(Exp(i), v);
  }

  // The discrete logarithm, LOG_TABLE's entry for v.
  ghost function Log(v: bv8): (i: nat)
    requires v != 0
    ensures i < 255 && Exp(i) == v
  {
    ExpOnto(v);
    var i: nat :| i < 255 && Exp(i) == v;
    i
  }

  lemma LogOfExp(n: nat)
    requires n < 255
    ensures Exp(n) != 0 && Log(Exp(n)) == n
  {
    hide Shift;
    ExpNonzero(n);
    ExpInjective(Log(Exp(n)), n);
  }

  lemma {:induction false} ExpPeriodic(n: nat)
    ensures Exp(n) == Exp(n % 255)
  {
    hide Shift;
    if n >= 255 {
      ExpAt255();
      ShiftAdds(n - 255, 255, 1);
      ExpPeriodic(n - 255);
    }
  }

  // ----- the product the code computes through its tables

  ghost function Mul(a: bv8, b: bv8): bv8 {
    if a == 0 || b == 0 then 0 else Exp(Log(a) + Log(b))
  }

  lemma MulIsShift(a: bv8, b: bv8)
    requires a != 0
    ensures Mul(a, b) == Shift(Log(a), b)
  {
    hide Shift;
    if b == 0 { ShiftOfZero(Log(a)); } else { ShiftAdds(Log(a), Log(b), 1); }
  }

  lemma MulZero(a: bv8, b: bv8)
    ensures Mul(a, b) == 0 <==> a == 0 || b == 0
  {
    hide Shift;
    if a != 0 && b != 0 { ExpNonzero(Log(a) + Log(b)); }
  }

  lemma MulCommutes(a: bv8, b: bv8)
    ensures Mul(a, b) == Mul(b, a)
  {
    hide Shift;
  }

  lemma MulOne(a: bv8)
    ensures Mul(1, a) == a == Mul(a, 1)
  {
    hide Shift;
    ExpStart();
    LogOfExp(0);
  }

  lemma MulDistributes(a: bv8, b: bv8, c: bv8)
    ensures Mul(a, Xor(b, c)) == Xor(Mul(a, b), Mul(a, c))
    ensures Mul(Xor(b, c), a) == Xor(Mul(b, a), Mul(c, a))
  {
    hide Shift, Xor;
    if a == 0 {
      XorLaws(0, 0, 0);
    } else {
      MulIsShift(a, b); MulIsShift(a, c); MulIsShift(a, Xor(b, c));
      ShiftLinear(Log(a), b, c);
    }
    MulCommutes(a, b); MulCommutes(a, c); MulCommutes(a, Xor(b, c));
  }

  lemma MulAssociates(a: bv8, b: bv8, c: bv8)
    ensures Mul(Mul(a, b), c) == Mul(a, Mul(b, c))
  {
    hide Shift;
    MulZero(a, b); MulZero(b, c);
    if a != 0 && b != 0 && c != 0 {
      MulCommutes(Mul(a, b), c);
      MulIsShift(c, Mul(a, b));
      MulIsShift(a, Mul(b, c));
      ShiftAdds(Log(c), Log(a) + Log(b), 1);
      ShiftAdds(Log(a), Log(b) + Log(c), 1);
    }
  }

  // e times a over b, as the long division computes it.
  lemma RatioIsProduct(e: bv8, a: bv8, b: bv8)
    requires e != 0 && a != 0 && b != 0
    ensures Mul(e, Exp((Log(a) - Log(b)) % 255)) == Exp((Log(e) + Log(a) - Log(b)) % 255)
    ensures Mul(b, Exp((Log(a) - Log(b)) % 255)) == a
  {
    hide Shift;
    RemainderAdds(Log(e), Log(a), Log(b));
    RemainderAdds(Log(b), Log(a), Log(b));
    var r := (Log(a) - Log(b)) % 255;
    LogOfExp(r);
    ExpPeriodic(Log(e) + r);
    ExpPeriodic(Log(b) + r);
  }

  lemma RemainderAdds(e: nat, a: nat, b: nat)
    requires a < 255 && b < 255
    ensures (e + (a - b) % 255) % 255 == (e + a - b) % 255
    ensures e == b ==> (e + a - b) % 255 == a
  {
  }

  // ----- the tables

  class QRMath {
    var expTable: array<bv8>
    var logTable: array<Option<int>>   // None is a hole

    ghost predicate Valid()
      reads this, expTable, logTable
    {
      && expTable.Length == 256 && logTable.Length == 256
      && (forall i :: 0 <= i < 256 ==> expTable[i] == Exp(i))
      && (forall i :: 0 <= i < 255 ==> logTable[Code(Exp(i))] == Some(i))
    }

    constructor ()
      ensures Valid() && fresh(expTable) && fresh(logTable)
    {
      hide Shift;
      var e := new bv8[256];
      var l := new Option<int>[256](_ => None);
      FillExp(e);
      FillLog(e, l);
      expTable, logTable := e, l;
    }

    static method FillExp(e: array<bv8>)
      requires e.Length == 256
      modifies e
      ensures forall i :: 0 <= i < 256 ==> e[i] == Exp(i)
    {
      hide Shift;
      for i := 0 to 8
        invariant forall k :: 0 <= k < i ==> e[k] == Exp(k)
      {
        PowerOfTwo(i);
        e[i] := PowerOf2(i);
      }
      for i := 8 to 256
        invariant forall k :: 0 <= k < i ==> e[k] == Exp(k)
      {
        TableRecurrence(i);
        e[i] := Xor(Xor(Xor(e[i - 4], e[i - 5]), e[i - 6]), e[i - 8]);
      }
    }

    static method FillLog(e: array<bv8>, l: array<Option<int>>)
      requires e.Length == 256 && l.Length == 256 && e != (l as object)
      requires forall i :: 0 <= i < 256 ==> e[i] == Exp(i)
      modifies l
      ensures forall i :: 0 <= i < 255 ==> l[Code(Exp(i))] == Some(i)
    {
      for i := 0 to 255
        invariant forall k :: 0 <= k < i ==> l[Code(Exp(k))] == Some(k)
      {
        hide Shift;
        forall k | 0 <= k < i ensures Code(Exp(k)) != Code(Exp(i)) {
          CodeIsInjective(Exp(k), Exp(i));
          if Code(Exp(k)) == Code(Exp(i)) { ExpInjective(k, i); }
        }
        l[Code(e[i])] := Some(i);
      }
    }

    // glog throws on 0.
    method Glog(n: bv8) returns (r: Option<int>)
      requires Valid()
      ensures n == 0 ==> r == None
      ensures n != 0 ==> r == Some(Log(n))
    {
      hide Shift;
      if n < 1 { return None; }
      assert Exp(Log(n)) == n;
      return logTable[Code(n)];
    }

    method Gexp(n: int) returns (r: bv8)
      requires Valid()
      ensures r == Exp(n % 255)
    {
      hide Shift;
      var m := n;
      while m < 0
        invariant m % 255 == n % 255 && (m < 256 || m == n)
        decreases -m
      {
        m := m + 255;
      }
      while m >= 256
        invariant 0 <= m && m % 255 == n % 255
      {
        m := m - 255;
      }
      ExpPeriodic(m);
      return expTable[m];
    }
  }

  // 1 << n
  function PowerOf2(n: nat): bv8
    requires n < 8
  {
    1 << n
  }

  lemma PowerOfTwo(i: nat)
    requires i < 8
    ensures PowerOf2(i) == Exp(i)
  {
    ExpStart();
    Unroll(0);
    assert Exp(5) == XTime(Exp(4)) && Exp(6) == XTime(Exp(5)) && Exp(7) == XTime(Exp(6));
    assert i == 0 || i == 1 || i == 2 || i == 3 || i == 4 || i == 5 || i == 6 || i == 7;
  }
}
