/** Numbers as bit sequences, low bit first as GIF packs them or high bit first as QR does. */
module Bits {

  function Pow2(n: nat): (p: nat)
    ensures p >= 1
  {
    if n == 0 then 1 else 2 * Pow2(n - 1)
  }

  lemma {:induction false} Pow2Monotone(m: nat, n: nat)
    requires m <= n
    ensures Pow2(m) <= Pow2(n)
  {
    if m < n { Pow2Monotone(m, n - 1); }
  }

  lemma Powers()
    ensures Pow2(2) == 4 && Pow2(3) == 8 && Pow2(4) == 16 && Pow2(5) == 32 && Pow2(6) == 64 && Pow2(7) == 128
    ensures Pow2(8) == 256 && Pow2(9) == 512 && Pow2(10) == 1024 && Pow2(11) == 2048 && Pow2(12) == 4096
    ensures Pow2(13) == 8192 && Pow2(14) == 16384 && Pow2(16) == 65536
  {
    assert Pow2(2) == 4;
    assert Pow2(4) == 16;
    assert Pow2(6) == 64;
    assert Pow2(8) == 256;
    assert Pow2(10) == 1024;
    assert Pow2(12) == 4096;
    assert Pow2(14) == 16384;
  }

  function Falses(n: nat): (s: seq<bool>)
    ensures |s| == n && forall i :: 0 <= i < n ==> !s[i]
  {
    seq(n, _ => false)
  }

  // How many bits n bits lack to whole bytes.
  function ByteGap(n: nat): (z: nat)
    ensures z < 8 && (n + z) % 8 == 0
  {
    (8 - n % 8) % 8
  }

  lemma GapLeft(n: nat, z: nat)
    requires z <= ByteGap(n)
    ensures (n + z) % 8 == 0 <==> z == ByteGap(n)
  {
  }

  // The shifts of the source, on numbers that fit its 32 bits before and after.
  function Shr(n: nat, k: nat): nat {
    if k == 0 then n else Shr(n / 2, k - 1)
  }

  function Shl(n: nat, k: nat): nat {
    if k == 0 then n else 2 * Shl(n, k - 1)
  }

  lemma {:induction false} ShrZero(n: nat, k: nat)
    ensures Shr(n, k) == 0 <==> n < Pow2(k)
  {
    if k > 0 { ShrZero(n / 2, k - 1); }
  }

  // ----- low bit first

  function LowFirst(n: nat, len: nat): (s: seq<bool>)
    ensures |s| == len
  {
    if len == 0 then [] else [n % 2 == 1] + LowFirst(n / 2, len - 1)
  }

  function LowValue(s: seq<bool>): nat {
    if s == [] then 0 else (if s[0] then 1 else 0) + 2 * LowValue(s[1..])
  }

  lemma {:induction false} LowRoundTrip(n: nat, len: nat)
    requires n < Pow2(len)
    ensures LowValue(LowFirst(n, len)) == n
  {
    if len > 0 {
      LowRoundTrip(n / 2, len - 1);
      assert LowFirst(n, len)[1..] == LowFirst(n / 2, len - 1);
    }
  }

  lemma {:induction false} LowZeros(len: nat)
    ensures LowFirst(0, len) == Falses(len)
  {
    if len > 0 {
      LowZeros(len - 1);
      assert Falses(len) == [false] + Falses(len - 1);
    }
  }

  // The low k bits, then the bits above them.
  lemma {:induction false} LowSplit(n: nat, k: nat, len: nat)
    ensures LowFirst(n, k + len) == LowFirst(n, k) + LowFirst(Shr(n, k), len)
  {
    if k > 0 { LowSplit(n / 2, k - 1, len); }
  }

  // a below, b above.
  lemma {:induction false} LowJoin(a: nat, b: nat, k: nat, len: nat)
    requires a < Pow2(k)
    ensures LowFirst(Shl(b, k) + a, k + len) == LowFirst(a, k) + LowFirst(b, len)
  {
    if k > 0 {
      LowJoin(a / 2, b, k - 1, len);
      assert (Shl(b, k) + a) / 2 == Shl(b, k - 1) + a / 2;
      assert (Shl(b, k) + a) % 2 == a % 2;
    }
  }

  lemma {:induction false} ShrJoin(a: nat, b: nat, k: nat, m: nat)
    requires a < Pow2(k)
    ensures Shr(Shl(b, k) + a, k + m) == Shr(b, m)
  {
    if k > 0 {
      assert (Shl(b, k) + a) / 2 == Shl(b, k - 1) + a / 2;
      ShrJoin(a / 2, b, k - 1, m);
    }
  }

  lemma Shl8(n: nat)
    ensures Shl(n, 8) == 256 * n && Pow2(8) == 256
  {
    assert Shl(n, 1) == 2 * n && Pow2(1) == 2;
    assert Shl(n, 2) == 4 * n && Pow2(2) == 4;
    assert Shl(n, 3) == 8 * n && Pow2(3) == 8;
    assert Shl(n, 4) == 16 * n && Pow2(4) == 16;
    assert Shl(n, 5) == 32 * n && Pow2(5) == 32;
    assert Shl(n, 6) == 64 * n && Pow2(6) == 64;
    assert Shl(n, 7) == 128 * n && Pow2(7) == 128;
  }

  // A byte keeps the low eight bits.
  lemma LowByte(n: nat)
    ensures LowFirst(n % 256, 8) == LowFirst(n, 8)
  {
    Shl8(n / 256);
    LowJoin(n % 256, n / 256, 8, 0);
  }

  // ----- high bit first

  function HighFirst(n: nat, len: nat): (s: seq<bool>)
    ensures |s| == len
  {
    if len == 0 then [] else HighFirst(n / 2, len - 1) + [n % 2 == 1]
  }

  function HighValue(s: seq<bool>): nat {
    if s == [] then 0 else 2 * HighValue(s[..|s| - 1]) + if s[|s| - 1] then 1 else 0
  }

  lemma {:induction false} HighRoundTrip(n: nat, len: nat)
    requires n < Pow2(len)
    ensures HighValue(HighFirst(n, len)) == n
  {
    if len > 0 {
      HighRoundTrip(n / 2, len - 1);
      assert HighFirst(n, len)[..len - 1] == HighFirst(n / 2, len - 1);
    }
  }

  lemma {:induction false} HighValueBound(s: seq<bool>)
    ensures HighValue(s) < Pow2(|s|)
    ensures HighFirst(HighValue(s), |s|) == s
  {
    if s != [] { HighValueBound(s[..|s| - 1]); }
  }

  // The i-th of len bits is the one the shift by len - i - 1 brings down.
  lemma {:induction false} HighAt(n: nat, len: nat, i: nat)
    requires i < len
    ensures HighFirst(n, len)[i] == (Shr(n, len - i - 1) % 2 == 1)
  {
    if i < len - 1 { HighAt(n / 2, len - 1, i); }
  }
}
