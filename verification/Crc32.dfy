/** CRC_TABLE and crc32 of scripts/pack-source.mjs:70-83, against the bit-at-a-time register. */
module Crc32 {

  function Xor(a: bv32, b: bv32): bv32 {
    a ^ b
  }

  // One step of the reflected register: shift right, and feed back the polynomial on a one.
  function Step(c: bv32): bv32 {
    if c & 1 != 0 then 0xedb88320 ^ (c >> 1) else c >> 1
  }

  function Steps(c: bv32, k: nat): bv32
    decreases k
  {
    if k == 0 then c else Steps(Step(c), k - 1)
  }

  // ----- the reference: one message bit at a time, lowest bit of each byte first

  function LowBit(r: bv32): bv32 {
    r & 1
  }

  function Half(r: bv32): bv32 {
    r >> 1
  }

  // The register after the k low bits of r.
  function FeedBits(c: bv32, r: bv32, k: nat): bv32
    decreases k
  {
    if k == 0 then c else FeedBits(Step(Xor(c, LowBit(r))), Half(r), k - 1)
  }

  function FeedBytes(c: bv32, message: seq<bv8>): bv32 {
    if message == [] then c
    else FeedBits(FeedBytes(c, message[..|message| - 1]), message[|message| - 1] as bv32, 8)
  }

  function BitwiseCrc(message: seq<bv8>): bv32 {
    Xor(FeedBytes(0xffff_ffff, message), 0xffff_ffff)
  }

  // ----- one byte through the table

  lemma XorAssociates(a: bv32, b: bv32, c: bv32)
    ensures Xor(Xor(a, b), c) == Xor(a, Xor(b, c))
  {
  }

  lemma XorCommutes(a: bv32, b: bv32)
    ensures Xor(a, b) == Xor(b, a)
  {
  }

  lemma XorCancels(a: bv32)
    ensures Xor(a, a) == 0 && Xor(a, 0) == a
  {
  }

  const POLY: bv32 := 0xedb88320

  lemma StepEven(a: bv32)
    requires LowBit(a) == 0
    ensures Step(a) == Half(a)
  {
  }

  lemma StepOdd(a: bv32)
    requires LowBit(a) != 0
    ensures Step(a) == Xor(POLY, Half(a))
  {
  }

  lemma HalfLinear(a: bv32, b: bv32)
    ensures Half(Xor(a, b)) == Xor(Half(a), Half(b))
  {
  }

  lemma LowBitLinear(a: bv32, b: bv32)
    ensures LowBit(Xor(a, b)) == Xor(LowBit(a), LowBit(b))
  {
  }

  lemma LowBitIsBit(a: bv32)
    ensures LowBit(a) == 0 || LowBit(a) == 1
    ensures Xor(0, 0) == 0 && Xor(0, 1) == 1 && Xor(1, 0) == 1 && Xor(1, 1) == 0
  {
  }

  lemma StepLinear(a: bv32, b: bv32)
    ensures Step(Xor(a, b)) == Xor(Step(a), Step(b))
  {
    hide Step, Xor, LowBit, Half;
    HalfLinear(a, b); LowBitLinear(a, b);
    LowBitIsBit(a); LowBitIsBit(b);
    var (x, y) := (Half(a), Half(b));
    if LowBit(a) == 0 { StepEven(a); } else { StepOdd(a); }
    if LowBit(b) == 0 { StepEven(b); } else { StepOdd(b); }
    if LowBit(Xor(a, b)) == 0 { StepEven(Xor(a, b)); } else { StepOdd(Xor(a, b)); }
    // both odd: (p ^ x) ^ (p ^ y) = x ^ y
    XorAssociates(Xor(POLY, x), POLY, y); XorCommutes(POLY, x); XorAssociates(x, POLY, POLY);
    XorCancels(POLY); XorCancels(x);
    // one odd: (p ^ x) ^ y = p ^ (x ^ y) = x ^ (p ^ y)
    XorAssociates(POLY, x, y); XorAssociates(x, POLY, y);
  }

  lemma {:induction false} StepsLinear(a: bv32, b: bv32, k: nat)
    ensures Steps(Xor(a, b), k) == Xor(Steps(a, k), Steps(b, k))
    decreases k
  {
    hide Step, Xor;
    if k > 0 {
      StepLinear(a, b);
      StepsLinear(Step(a), Step(b), k - 1);
    }
  }

  // A number's low bit and its other bits, moved down by one step.
  lemma LowAndHalf(r: bv32)
    ensures Xor(LowBit(r), Half(r) << 1) == r
    ensures Step(Half(r) << 1) == Half(r)
  {
  }

  // Feeding bits one by one is xoring them in at once and stepping.
  lemma {:induction false} FeedAtOnce(c: bv32, r: bv32, k: nat)
    requires Small(r, k)
    ensures FeedBits(c, r, k) == Steps(Xor(c, r), k)
    decreases k
  {
    hide Step, Xor, LowBit, Half;
    if k == 0 {
      XorCancels(c);
    } else {
      var (b, h) := (LowBit(r), Half(r));
      SmallHalf(r, k);
      FeedAtOnce(Step(Xor(c, b)), h, k - 1);
      LowAndHalf(r);
      XorAssociates(c, b, h << 1);
      StepLinear(Xor(c, b), h << 1);
    }
  }

  // r has no bit at k or above.
  predicate Small(r: bv32, k: nat)
    decreases k
  {
    if k == 0 then r == 0 else Small(Half(r), k - 1)
  }

  lemma SmallHalf(r: bv32, k: nat)
    requires k > 0 && Small(r, k)
    ensures Small(Half(r), k - 1)
  {
  }

  // A byte as a number, and the numbers it combines with.
  function Wide(b: bv8): bv32 {
    b as bv32
  }

  lemma ByteSmall(b: bv8)
    ensures Small(Wide(b), 8)
  {
    assert Wide(b) >> 8 == 0;
    var r := Wide(b);
    assert Half(Half(Half(Half(Half(Half(Half(Half(r)))))))) == r >> 8;
    assert Small(Half(Half(Half(Half(Half(Half(r)))))), 2) by {
      assert Small(Half(Half(Half(Half(Half(Half(Half(r))))))), 1);
    }
    assert Small(Half(Half(Half(Half(r)))), 4) by { assert Small(Half(Half(Half(Half(Half(r))))), 3); }
    assert Small(Half(Half(r)), 6) by { assert Small(Half(Half(Half(r))), 5); }
    assert Small(Half(r), 7);
  }

  function Low8(c: bv32): bv32 {
    c & 0xff
  }

  function High24(c: bv32): bv32 {
    c >> 8
  }

  lemma Split8(c: bv32)
    ensures Xor(Low8(c), High24(c) << 8) == c
  {
  }

  function Double(y: bv32): bv32 {
    y << 1
  }

  lemma StepDouble(y: bv32)
    requires y >> 31 == 0
    ensures Step(Double(y)) == y
  {
  }

  lemma Doubles(h: bv32)
    requires h >> 24 == 0
    ensures Double(h) >> 25 == 0 && Double(h << 1) == h << 2 && Double(h << 2) == h << 3 && Double(h << 3) == h << 4
    ensures Double(h << 4) == h << 5 && Double(h << 5) == h << 6 && Double(h << 6) == h << 7 && Double(h << 7) == h << 8
    ensures h >> 31 == 0 && (h << 1) >> 31 == 0 && (h << 2) >> 31 == 0 && (h << 3) >> 31 == 0
    ensures (h << 4) >> 31 == 0 && (h << 5) >> 31 == 0 && (h << 6) >> 31 == 0 && (h << 7) >> 31 == 0
  {
  }

  // Eight steps of a number whose low byte is zero only shift it.
  lemma EightSteps(h: bv32)
    requires h >> 24 == 0
    ensures Steps(h << 8, 8) == h
  {
    hide Step, Steps;
    Doubles(h);
    StepDouble(h); StepDouble(h << 1); StepDouble(h << 2); StepDouble(h << 3);
    StepDouble(h << 4); StepDouble(h << 5); StepDouble(h << 6); StepDouble(h << 7);
    StepsEight(h << 8);
  }

  lemma StepsEight(c: bv32)
    ensures Steps(c, 8) == Step(Step(Step(Step(Step(Step(Step(Step(c))))))))
  {
    hide Step;
    var d := Step(Step(c));
    StepsTwo(c, 6);
    var e := Step(Step(d));
    StepsTwo(d, 4);
    var f := Step(Step(e));
    StepsTwo(e, 2);
    StepsTwo(f, 0);
  }

  lemma StepsTwo(c: bv32, k: nat)
    ensures Steps(c, k + 2) == Steps(Step(Step(c)), k)
    ensures Steps(c, 0) == c
  {
    hide Step;
    assert Steps(c, k + 2) == Steps(Step(c), k + 1);
  }

  lemma High24Small(c: bv32)
    ensures High24(c) >> 24 == 0
  {
  }

  lemma XorByte(c: bv32, b: bv8)
    ensures High24(Xor(c, Wide(b))) == High24(c)
  {
  }

  /** One table look-up does what feeding the eight bits of the byte does. */
  lemma TableStep(c: bv32, b: bv8)
    ensures FeedBits(c, Wide(b), 8) == Xor(Steps(Low8(Xor(c, Wide(b))), 8), High24(c))
  {
    hide Step, Xor, Steps, FeedBits, Small, Low8, High24, Wide;
    var x := Xor(c, Wide(b));
    ByteSmall(b);
    FeedAtOnce(c, Wide(b), 8);
    Split8(x);
    StepsLinear(Low8(x), High24(x) << 8, 8);
    High24Small(x);
    EightSteps(High24(x));
    XorByte(c, b);
  }

  // ----- what the value is worth to a receiver

  // The four bytes of a word, low byte first, as an archive stores it.
  function LittleEndian(x: bv32): seq<bv8> {
    [Byte(x), Byte(High24(x)), Byte(High24(High24(x))), Byte(High24(High24(High24(x))))]
  }

  function Byte(x: bv32): bv8 {
    Low8(x) as bv8
  }

  lemma WideByte(x: bv32)
    ensures Wide(Byte(x)) == Low8(x)
  {
  }

  lemma Exhausted(x: bv32)
    ensures High24(High24(High24(High24(x)))) == 0
  {
  }

  // Feeding the low byte of x leaves the register that eight steps of both leave, less what is left of x.
  lemma FeedLowByte(c: bv32, x: bv32)
    ensures Steps(Xor(c, x), 8) == Xor(FeedBits(c, Wide(Byte(x)), 8), High24(x))
  {
    hide Step, Xor, Steps, FeedBits, Small, Low8, High24, Wide, Byte;
    WideByte(x);
    ByteSmall(Byte(x));
    FeedAtOnce(c, Wide(Byte(x)), 8);
    Split8(x);
    XorAssociates(c, Low8(x), High24(x) << 8);
    StepsLinear(Xor(c, Low8(x)), High24(x) << 8, 8);
    High24Small(x);
    EightSteps(High24(x));
  }

  lemma {:induction false} StepsAdd(c: bv32, j: nat, k: nat)
    ensures Steps(c, j + k) == Steps(Steps(c, j), k)
    decreases j
  {
    hide Step;
    if j > 0 { StepsAdd(Step(c), j - 1, k); }
  }

  lemma FeedSnoc(c: bv32, message: seq<bv8>, b: bv8)
    ensures FeedBytes(c, message + [b]) == FeedBits(FeedBytes(c, message), Wide(b), 8)
  {
    hide FeedBits;
    assert (message + [b])[..|message + [b]| - 1] == message;
  }

  lemma FourBytes(c: bv32, m: seq<bv8>, a: bv8, b: bv8, d: bv8, e: bv8)
    ensures FeedBytes(c, m + [a, b, d, e])
         == FeedBits(FeedBits(FeedBits(FeedBits(FeedBytes(c, m), Wide(a), 8), Wide(b), 8), Wide(d), 8), Wide(e), 8)
  {
    hide FeedBits, FeedBytes, Wide;
    FeedSnoc(c, m, a); FeedSnoc(c, m + [a], b); FeedSnoc(c, m + [a] + [b], d); FeedSnoc(c, m + [a] + [b] + [d], e);
    assert m + [a, b, d, e] == m + [a] + [b] + [d] + [e];
  }

  // A word fed byte by byte onto the register is 32 steps of the two together.
  lemma FeedWord(c: bv32, message: seq<bv8>, x: bv32)
    ensures FeedBytes(c, message + LittleEndian(x)) == Steps(Xor(FeedBytes(c, message), x), 32)
  {
    hide Step, Xor, Steps, FeedBits, FeedBytes, High24, Wide, Byte;
    var (x1, x2, x3) := (High24(x), High24(High24(x)), High24(High24(High24(x))));
    FourBytes(c, message, Byte(x), Byte(x1), Byte(x2), Byte(x3));
    var c0 := FeedBytes(c, message);
    var c1 := FeedBits(c0, Wide(Byte(x)), 8);
    var c2 := FeedBits(c1, Wide(Byte(x1)), 8);
    var c3 := FeedBits(c2, Wide(Byte(x2)), 8);
    var c4 := FeedBits(c3, Wide(Byte(x3)), 8);
    FeedLowByte(c0, x); FeedLowByte(c1, x1); FeedLowByte(c2, x2); FeedLowByte(c3, x3);
    Exhausted(x);
    XorCancels(c4);
    var y := Xor(c0, x);
    StepsAdd(y, 8, 24); StepsAdd(Steps(y, 8), 8, 16); StepsAdd(Xor(c2, x2), 8, 8);
  }

  lemma FirstEight()
    ensures Steps(0xffffffff, 8) == 0x2dfd1072
  {
    hide Steps;
    StepsEight(0xffffffff);
    assert Step(0xffffffff) == 0x92477cdf && Step(0x92477cdf) == 0xa49b3d4f;
    assert Step(0xa49b3d4f) == 0xbff51d87 && Step(0xbff51d87) == 0xb2420de3;
    assert Step(0xb2420de3) == 0xb49985d1 && Step(0xb49985d1) == 0xb7f441c8;
    assert Step(0xb7f441c8) == 0x5bfa20e4 && Step(0x5bfa20e4) == 0x2dfd1072;
  }

  lemma SecondEight()
    ensures Steps(0x2dfd1072, 8) == 0xbe26ed00
  {
    hide Steps;
    StepsEight(0x2dfd1072);
    assert Step(0x2dfd1072) == 0x16fe8839 && Step(0x16fe8839) == 0xe6c7c73c;
    assert Step(0xe6c7c73c) == 0x7363e39e && Step(0x7363e39e) == 0x39b1f1cf;
    assert Step(0x39b1f1cf) == 0xf1607bc7 && Step(0xf1607bc7) == 0x9508bec3;
    assert Step(0x9508bec3) == 0xa73cdc41 && Step(0xa73cdc41) == 0xbe26ed00;
  }

  lemma ThirdEight()
    ensures Steps(0xbe26ed00, 8) == 0xbe26ed
  {
    hide Steps;
    StepsEight(0xbe26ed00);
    assert Step(0xbe26ed00) == 0x5f137680 && Step(0x5f137680) == 0x2f89bb40;
    assert Step(0x2f89bb40) == 0x17c4dda0 && Step(0x17c4dda0) == 0xbe26ed0;
    assert Step(0xbe26ed0) == 0x5f13768 && Step(0x5f13768) == 0x2f89bb4;
    assert Step(0x2f89bb4) == 0x17c4dda && Step(0x17c4dda) == 0xbe26ed;
  }

  lemma FourthEight()
    ensures Steps(0xbe26ed, 8) == 0xdebb20e3
  {
    hide Steps;
    StepsEight(0xbe26ed);
    assert Step(0xbe26ed) == 0xede79056 && Step(0xede79056) == 0x76f3c82b;
    assert Step(0x76f3c82b) == 0xd6c16735 && Step(0xd6c16735) == 0x86d830ba;
    assert Step(0x86d830ba) == 0x436c185d && Step(0x436c185d) == 0xcc0e8f0e;
    assert Step(0xcc0e8f0e) == 0x66074787 && Step(0x66074787) == 0xdebb20e3;
  }

  lemma AllOnesGone()
    ensures Steps(0xffff_ffff, 32) == 0xdebb20e3
  {
    hide Steps;
    FirstEight(); SecondEight(); ThirdEight(); FourthEight();
    StepsAdd(0xffff_ffff, 8, 24); StepsAdd(0x2dfd1072, 8, 16); StepsAdd(0xbe26ed00, 8, 8);
  }

  /** Any message followed by its own value has the same value, the residue of the CRC-32 of
      IEEE 802.3, and nothing has the value 0: no other polynomial, first value or last xor will do. */
  lemma Residue(message: seq<bv8>)
    ensures BitwiseCrc(message + LittleEndian(BitwiseCrc(message))) == 0x2144df1c
    ensures BitwiseCrc([]) == 0
  {
    hide Steps, FeedBytes, LittleEndian;
    var (c, x) := (FeedBytes(0xffff_ffff, message), BitwiseCrc(message));
    FeedWord(0xffff_ffff, message, x);
    hide Xor;
    XorAssociates(c, c, 0xffff_ffff);
    XorCancels(c);
    XorCommutes(0, 0xffff_ffff);
    XorCancels(0xffff_ffff);
    AllOnesGone();
    Complement();
    NothingFed();
  }

  lemma Complement()
    ensures Xor(0xdebb20e3, 0xffff_ffff) == 0x2144df1c && Xor(0xffff_ffff, 0xffff_ffff) == 0
  {
  }

  lemma NothingFed()
    ensures FeedBytes(0xffff_ffff, []) == 0xffff_ffff
  {
  }

  // ----- as it runs

  class CrcTable {
    var entries: array<bv32>

    ghost predicate Valid()
      reads this, entries
    {
      entries.Length == 256 && forall n :: 0 <= n < 256 ==> entries[n] == Steps(n as bv32, 8)
    }

    constructor ()
      ensures Valid() && fresh(entries)
    {
      hide Steps;
      var t := new bv32[256];
      for n := 0 to 256
        invariant forall m :: 0 <= m < n ==> t[m] == Steps(m as bv32, 8)
      {
        var c := Entry(n);
        t[n] := c;
      }
      entries := t;
    }

    // The inner loop: eight steps of n.
    static method Entry(n: nat) returns (c: bv32)
      requires n < 256
      ensures c == Steps(n as bv32, 8)
    {
      hide Step, Steps;
      c := n as bv32;
      for k := 0 to 8
        invariant Steps(c, 8 - k) == Steps(n as bv32, 8)
      {
        StepsUnfold(c, 8 - k);
        c := if c & 1 != 0 then 0xedb88320 ^ (c >> 1) else c >> 1;
      }
      StepsUnfold(c, 0);
    }

    /** For every byte sequence the table-driven value is the bit-at-a-time CRC; the value of the
        sequence with it appended is the residue, and that of the empty sequence is 0. */
    method Crc(buf: seq<bv8>) returns (crc: bv32)
      requires Valid()
      ensures crc == BitwiseCrc(buf)
      ensures BitwiseCrc(buf + LittleEndian(crc)) == 0x2144df1c && (buf == [] ==> crc == 0)
    {
      hide Step, Steps, FeedBits, Low8, High24, Wide;
      var c: bv32 := 0xffff_ffff;
      for i := 0 to |buf|
        invariant c == FeedBytes(0xffff_ffff, buf[..i])
      {
        TableStep(c, buf[i]);
        assert buf[..i + 1][..i] == buf[..i];
        IndexIs(Xor(c, Wide(buf[i])));
        c := Xor(entries[Low8(Xor(c, Wide(buf[i]))) as int], High24(c));
        FeedNext(buf, i);
      }
      assert buf[..|buf|] == buf;
      crc := Xor(c, 0xffff_ffff);
      Residue(buf);
    }
  }

  lemma FeedNext(buf: seq<bv8>, i: nat)
    requires i < |buf|
    ensures FeedBytes(0xffff_ffff, buf[..i + 1]) == FeedBits(FeedBytes(0xffff_ffff, buf[..i]), Wide(buf[i]), 8)
  {
    hide FeedBits;
    assert buf[..i + 1][..i] == buf[..i];
  }

  lemma StepsUnfold(c: bv32, k: nat)
    ensures k == 0 ==> Steps(c, k) == c
    ensures k > 0 ==> Steps(c, k) == Steps(if c & 1 != 0 then 0xedb88320 ^ (c >> 1) else c >> 1, k - 1)
  {
  }

  // The index is a byte, and the entry there is the one for that number.
  lemma IndexIs(c: bv32)
    ensures 0 <= Low8(c) as int < 256
    ensures (Low8(c) as int) as bv32 == Low8(c)
  {
  }
}
