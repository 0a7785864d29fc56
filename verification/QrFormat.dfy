/** The format and version words of a QR symbol and its masks: QRUtil of
    assets/js/qrcode.js:903-964 and the levels of 835-844, against annexes C and D and tables 10, 12
    and 25 of ISO/IEC 18004. */
module QrFormat {
  import opened RsBlocks

  const G15: bv32 := 0x537
  const G18: bv32 := 0x1f25
  const G15_MASK: bv32 := 0x5412

  // QRErrorCorrectionLevel
  function LevelCode(level: Level): bv32 {
    match level
    case L => 1
    case M => 0
    case Q => 3
    case H => 2
  }

  // ----- remainders

  function Digits(d: bv32): nat
    decreases d
  {
    if d == 0 then 0 else 1 + Digits(d >> 1)
  }

  // The remainder of a polynomial of fifteen bits by G15, and of one of eighteen by G18: from the
  // highest bit down, each that is set is cleared by the generator shifted under it.
  function Cut15at14(d: bv32): bv32 {
    if d & 0x4000 != 0 then d ^ 0x5370 else d
  }

  function Cut15at13(d: bv32): bv32 {
    if d & 0x2000 != 0 then d ^ 0x29b8 else d
  }

  function Cut15at12(d: bv32): bv32 {
    if d & 0x1000 != 0 then d ^ 0x14dc else d
  }

  function Cut15at11(d: bv32): bv32 {
    if d & 0x800 != 0 then d ^ 0xa6e else d
  }

  function Cut15at10(d: bv32): bv32 {
    if d & 0x400 != 0 then d ^ 0x537 else d
  }

  function Rem15(d: bv32): bv32 {
    Cut15at10(Cut15at11(Cut15at12(Cut15at13(Cut15at14(d)))))
  }

  function Cut18at17(d: bv32): bv32 {
    if d & 0x20000 != 0 then d ^ 0x3e4a0 else d
  }

  function Cut18at16(d: bv32): bv32 {
    if d & 0x10000 != 0 then d ^ 0x1f250 else d
  }

  function Cut18at15(d: bv32): bv32 {
    if d & 0x8000 != 0 then d ^ 0xf928 else d
  }

  function Cut18at14(d: bv32): bv32 {
    if d & 0x4000 != 0 then d ^ 0x7c94 else d
  }

  function Cut18at13(d: bv32): bv32 {
    if d & 0x2000 != 0 then d ^ 0x3e4a else d
  }

  function Cut18at12(d: bv32): bv32 {
    if d & 0x1000 != 0 then d ^ 0x1f25 else d
  }

  function Rem18(d: bv32): bv32 {
    Cut18at12(Cut18at13(Cut18at14(Cut18at15(Cut18at16(Cut18at17(d))))))
  }

  function FormatWord(data: bv32): bv32 {
    ((data << 10) | Rem15(data << 10)) ^ G15_MASK
  }

  function VersionWord(version: bv32): bv32 {
    (version << 12) | Rem18(version << 12)
  }

  // ----- as they are computed

  function Sum(d: bv32, e: bv32): bv32 {
    d ^ e
  }

  predicate Fits15(d: bv32) {
    d >> 15 == 0
  }

  predicate Fits18(d: bv32) {
    d >> 18 == 0
  }

  // The highest bit of d is this one.
  predicate Top10(d: bv32) {
    d >> 10 == 1
  }

  predicate Top11(d: bv32) {
    d >> 11 == 1
  }

  predicate Top12(d: bv32) {
    d >> 12 == 1
  }

  predicate Top13(d: bv32) {
    d >> 13 == 1
  }

  predicate Top14(d: bv32) {
    d >> 14 == 1
  }

  predicate Top15(d: bv32) {
    d >> 15 == 1
  }

  predicate Top16(d: bv32) {
    d >> 16 == 1
  }

  predicate Top17(d: bv32) {
    d >> 17 == 1
  }

  method GetBCHDigit(data: bv32) returns (digit: nat)
    ensures digit == Digits(data)
  {
    digit := 0;
    var d := data;
    while d != 0
      invariant digit + Digits(d) == Digits(data)
      decreases d
    {
      digit := digit + 1;
      d := d >> 1;
    }
  }

  // Digits below a bit that is not the highest.
  lemma Below1(d: bv32)
    ensures d != 0 ==> Digits(d) == 1 + Digits(d >> 1)
  {
  }

  lemma Shifts(d: bv32)
    ensures (d >> 1) >> 1 == d >> 2 && (d >> 2) >> 2 == d >> 4 && (d >> 4) >> 4 == d >> 8 && (d >> 8) >> 2 == d >> 10
    ensures (d >> 8) >> 4 == d >> 12
    ensures d >> 1 != 0 ==> d != 0
    ensures d >> 2 != 0 ==> d >> 1 != 0
    ensures d >> 4 != 0 ==> d >> 2 != 0
    ensures d >> 8 != 0 ==> d >> 4 != 0
  {
  }

  lemma Below2(d: bv32)
    ensures d >> 1 != 0 ==> Digits(d) == 2 + Digits(d >> 2)
  {
    hide Digits;
    Shifts(d);
    Below1(d); Below1(d >> 1);
  }

  lemma Below4(d: bv32)
    ensures d >> 3 != 0 ==> Digits(d) == 4 + Digits(d >> 4)
  {
    hide Digits;
    Shifts(d);
    Below2(d); Below2(d >> 2);
    assert (d >> 2) >> 1 == d >> 3 && (d >> 3 != 0 ==> d >> 1 != 0);
  }

  lemma Below8(d: bv32)
    ensures d >> 7 != 0 ==> Digits(d) == 8 + Digits(d >> 8)
  {
    hide Digits;
    Shifts(d);
    Below4(d); Below4(d >> 4);
    assert (d >> 4) >> 3 == d >> 7 && (d >> 7 != 0 ==> d >> 3 != 0);
  }

  lemma Few(d: bv32)
    requires d >> 6 == 0
    ensures Digits(d) <= 6
    ensures Digits(d) == if d == 0 then 0 else if d == 1 then 1 else if d >> 1 == 1 then 2 else if d >> 2 == 1 then 3
                         else if d >> 3 == 1 then 4 else if d >> 4 == 1 then 5 else 6
  {
    assert Digits(0) == 0;
    assert Digits(d >> 6) == 0;
    assert Digits(d >> 5) <= 1;
    assert Digits(d >> 4) <= 2 by { assert (d >> 4) >> 1 == d >> 5; }
  }

  lemma Digits15(d: bv32)
    requires Fits15(d)
    ensures Digits(d) < 11 <==> d >> 10 == 0
    ensures Digits(d) == 11 <==> Top10(d)
    ensures Digits(d) == 12 <==> Top11(d)
    ensures Digits(d) == 13 <==> Top12(d)
    ensures Digits(d) == 14 <==> Top13(d)
    ensures Digits(d) == 15 <==> Top14(d)
    ensures Digits(d) <= 15
  {
    hide Digits;
    var h := d >> 10;
    assert (d >> 8) >> 2 == h && h >> 5 == 0 && h >> 1 == d >> 11 && h >> 2 == d >> 12 && h >> 3 == d >> 13
        && h >> 4 == d >> 14;
    if h != 0 {
      assert d >> 7 != 0 && (d >> 8) >> 1 != 0 && h >> 6 == 0;
      Below8(d);
      Below2(d >> 8);
      Few(h);
    } else {
      AtMost10(d);
      assert h >> 1 == 0 && h >> 2 == 0 && h >> 3 == 0 && h >> 4 == 0;
    }
  }

  lemma AtMost10(d: bv32)
    requires d >> 10 == 0
    ensures Digits(d) <= 10
  {
    hide Digits;
    if d >> 7 != 0 {
      Below8(d);
      assert (d >> 8) >> 2 == 0 && (d >> 8) >> 6 == 0;
      Few(d >> 8);
      AtMost2(d >> 8);
    } else {
      assert d >> 8 == 0;
      AtMost8(d);
    }
  }

  lemma AtMost2(d: bv32)
    requires d >> 2 == 0
    ensures Digits(d) <= 2
  {
    hide Digits;
    assert d >> 6 == 0 && d >> 3 == 0 && d >> 4 == 0 && d >> 2 != 1 && d >> 3 != 1 && d >> 4 != 1 && d <= 3;
    assert d == 0 || d == 1 || d >> 1 == 1;
    Few(d);
  }

  lemma AtMost8(d: bv32)
    requires d >> 8 == 0
    ensures Digits(d) <= 8
  {
    hide Digits;
    if d >> 1 != 0 {
      Below2(d);
      assert (d >> 2) >> 6 == 0;
      Few(d >> 2);
    } else {
      assert d >> 6 == 0;
      Few(d);
    }
  }

  lemma AtMost12(d: bv32)
    requires d >> 12 == 0
    ensures Digits(d) <= 12
  {
    hide Digits;
    if d >> 3 != 0 {
      Below4(d);
      assert (d >> 4) >> 8 == 0;
      AtMost8(d >> 4);
    } else {
      assert d >> 8 == 0;
      AtMost8(d);
    }
  }

  lemma Digits18(d: bv32)
    requires Fits18(d)
    ensures Digits(d) < 13 <==> d >> 12 == 0
    ensures Digits(d) == 13 <==> Top12(d)
    ensures Digits(d) == 14 <==> Top13(d)
    ensures Digits(d) == 15 <==> Top14(d)
    ensures Digits(d) == 16 <==> Top15(d)
    ensures Digits(d) == 17 <==> Top16(d)
    ensures Digits(d) == 18 <==> Top17(d)
    ensures Digits(d) <= 18
  {
    hide Digits;
    var h := d >> 12;
    assert (d >> 8) >> 4 == h && h >> 6 == 0 && h >> 1 == d >> 13 && h >> 2 == d >> 14 && h >> 3 == d >> 15
        && h >> 4 == d >> 16 && h >> 5 == d >> 17;
    if h != 0 {
      assert d >> 7 != 0 && (d >> 8) >> 3 != 0;
      Below8(d);
      Below4(d >> 8);
      Few(h);
    } else {
      AtMost12(d);
      assert h >> 1 == 0 && h >> 2 == 0 && h >> 3 == 0 && h >> 4 == 0 && h >> 5 == 0;
    }
  }

  lemma GeneratorDigits()
    ensures Digits(G15) == 11 && Digits(G18) == 13
  {
    hide Digits;
    assert Fits15(G15) && Top10(G15) && Fits18(G18) && Top12(G18);
    Digits15(G15);
    Digits18(G18);
  }

  // A smaller number with the same remainder.
  predicate Lower15(d: bv32, e: bv32) {
    e < d && Fits15(e) && Rem15(e) == Rem15(d)
  }

  predicate Lower18(d: bv32, e: bv32) {
    e < d && Fits18(e) && Rem18(e) == Rem18(d)
  }

  function Multiple15(k: nat): bv32
    requires k <= 4
  {
    G15 << k
  }

  function Multiple18(k: nat): bv32
    requires k <= 5
  {
    G18 << k
  }

  lemma ShiftedG15(k: nat)
    requires k <= 4
    ensures Multiple15(k) == if k == 0 then 0x537 else if k == 1 then 0xa6e else if k == 2 then 0x14dc
                        else if k == 3 then 0x29b8 else 0x5370
  {
  }

  lemma ShiftedG18(k: nat)
    requires k <= 5
    ensures Multiple18(k) == if k == 0 then 0x1f25 else if k == 1 then 0x3e4a else if k == 2 then 0x7c94
                        else if k == 3 then 0xf928 else if k == 4 then 0x1f250 else 0x3e4a0
  {
  }

  lemma Clear15at10(d: bv32)
    requires Top10(d)
    ensures Lower15(d, Sum(d, 0x537))
  {
  }

  lemma Clear15at11(d: bv32)
    requires Top11(d)
    ensures Lower15(d, Sum(d, 0xa6e))
  {
    hide Cut15at10;
  }

  lemma Clear15at12(d: bv32)
    requires Top12(d)
    ensures Lower15(d, Sum(d, 0x14dc))
  {
    hide Cut15at10, Cut15at11;
  }

  lemma Clear15at13(d: bv32)
    requires Top13(d)
    ensures Lower15(d, Sum(d, 0x29b8))
  {
    hide Cut15at10, Cut15at11, Cut15at12;
  }

  lemma Clear15at14(d: bv32)
    requires Top14(d)
    ensures Lower15(d, Sum(d, 0x5370))
  {
    hide Cut15at10, Cut15at11, Cut15at12, Cut15at13;
  }

  lemma Clear18at12(d: bv32)
    requires Top12(d)
    ensures Lower18(d, Sum(d, 0x1f25))
  {
  }

  lemma Clear18at13(d: bv32)
    requires Top13(d)
    ensures Lower18(d, Sum(d, 0x3e4a))
  {
    hide Cut18at12;
  }

  lemma Clear18at14(d: bv32)
    requires Top14(d)
    ensures Lower18(d, Sum(d, 0x7c94))
  {
    hide Cut18at12, Cut18at13;
  }

  lemma Clear18at15(d: bv32)
    requires Top15(d)
    ensures Lower18(d, Sum(d, 0xf928))
  {
    hide Cut18at12, Cut18at13, Cut18at14;
  }

  lemma Clear18at16(d: bv32)
    requires Top16(d)
    ensures Lower18(d, Sum(d, 0x1f250))
  {
    hide Cut18at12, Cut18at13, Cut18at14, Cut18at15;
  }

  lemma Clear18at17(d: bv32)
    requires Top17(d)
    ensures Lower18(d, Sum(d, 0x3e4a0))
  {
    hide Cut18at12, Cut18at13, Cut18at14, Cut18at15, Cut18at16;
  }

  // Clearing the highest bit leaves the remainder as it is.
  lemma ClearTop15(d: bv32, k: nat)
    requires k <= 4 && Fits15(d) && Digits(d) == 11 + k
    ensures Lower15(d, Sum(d, Multiple15(k)))
  {
    hide Digits, Rem15, Multiple15, Lower15, Sum, Fits15, Top10, Top11, Top12, Top13, Top14;
    Digits15(d);
    ShiftedG15(k);
    if k == 0 {
      Clear15at10(d);
    } else if k == 1 {
      Clear15at11(d);
    } else if k == 2 {
      Clear15at12(d);
    } else if k == 3 {
      Clear15at13(d);
    } else {
      Clear15at14(d);
    }
  }

  lemma ClearTop18(d: bv32, k: nat)
    requires k <= 5 && Fits18(d) && Digits(d) == 13 + k
    ensures Lower18(d, Sum(d, Multiple18(k)))
  {
    hide Digits, Rem18, Multiple18, Lower18, Sum, Fits18, Top12, Top13, Top14, Top15, Top16, Top17;
    Digits18(d);
    ShiftedG18(k);
    if k == 0 {
      Clear18at12(d);
    } else if k == 1 {
      Clear18at13(d);
    } else if k == 2 {
      Clear18at14(d);
    } else if k == 3 {
      Clear18at15(d);
    } else if k == 4 {
      Clear18at16(d);
    } else {
      Clear18at17(d);
    }
  }

  lemma NothingToClear15(d: bv32)
    requires d >> 10 == 0
    ensures Rem15(d) == d
  {
  }

  // The loop of GetBCHTypeInfo.
  method Divide15(start: bv32) returns (d: bv32)
    requires Fits15(start)
    ensures d == Rem15(start)
  {
    hide Digits, Rem15, Multiple15, Sum, Fits15, Lower15, Top10, Top11, Top12, Top13, Top14;
    d := start;
    GeneratorDigits();
    var digits := GetBCHDigit(d);
    var own := GetBCHDigit(G15);
    while digits >= own
      invariant Fits15(d) && digits == Digits(d) && Rem15(d) == Rem15(start)
      decreases d
    {
      Digits15(d);
      ClearTop15(d, digits - own);
      LowerIs15(d, Sum(d, Multiple15(digits - own)));
      d := Sum(d, Multiple15(digits - own));
      digits := GetBCHDigit(d);
    }
    Digits15(d);
    NothingToClear15(d);
  }

  lemma LowerIs15(d: bv32, e: bv32)
    requires Lower15(d, e)
    ensures e < d && Fits15(e) && Rem15(e) == Rem15(d)
  {
    hide Rem15;
  }

  method GetBCHTypeInfo(data: bv32) returns (bits: bv32)
    requires data < 32
    ensures bits == FormatWord(data)
  {
    hide Rem15;
    assert Fits15(data << 10);
    var d := Divide15(data << 10);
    bits := ((data << 10) | d) ^ G15_MASK;
  }

  lemma NothingToClear18(d: bv32)
    requires d >> 12 == 0
    ensures Rem18(d) == d
  {
  }

  // The loop of GetBCHTypeNumber.
  method Divide18(start: bv32) returns (d: bv32)
    requires Fits18(start)
    ensures d == Rem18(start)
  {
    hide Digits, Rem18, Multiple18, Sum, Fits18, Lower18, Top12, Top13, Top14, Top15, Top16, Top17;
    d := start;
    GeneratorDigits();
    var digits := GetBCHDigit(d);
    var own := GetBCHDigit(G18);
    while digits >= own
      invariant Fits18(d) && digits == Digits(d) && Rem18(d) == Rem18(start)
      decreases d
    {
      Digits18(d);
      ClearTop18(d, digits - own);
      LowerIs18(d, Sum(d, Multiple18(digits - own)));
      d := Sum(d, Multiple18(digits - own));
      digits := GetBCHDigit(d);
    }
    Digits18(d);
    NothingToClear18(d);
  }

  lemma LowerIs18(d: bv32, e: bv32)
    requires Lower18(d, e)
    ensures e < d && Fits18(e) && Rem18(e) == Rem18(d)
  {
    hide Rem18;
  }

  method GetBCHTypeNumber(data: bv32) returns (bits: bv32)
    requires data < 64
    ensures bits == VersionWord(data)
  {
    hide Rem18;
    assert Fits18(data << 12);
    var d := Divide18(data << 12);
    bits := (data << 12) | d;
  }

  // ----- against the tables of the standard

  // (_errorCorrectionLevel << 3) | maskPattern
  function FormatData(level: Level, mask: bv32): bv32 {
    (LevelCode(level) << 3) | mask
  }

  // Table C.1: the masked words by level and mask.
  function FormatTable(level: Level, mask: bv32): bv32
    requires mask < 8
  {
    match level
    case L =>
      if mask == 0 then 0x77c4 else if mask == 1 then 0x72f3 else if mask == 2 then 0x7daa
      else if mask == 3 then 0x789d else if mask == 4 then 0x662f else if mask == 5 then 0x6318
      else if mask == 6 then 0x6c41 else 0x6976
    case M =>
      if mask == 0 then 0x5412 else if mask == 1 then 0x5125 else if mask == 2 then 0x5e7c
      else if mask == 3 then 0x5b4b else if mask == 4 then 0x45f9 else if mask == 5 then 0x40ce
      else if mask == 6 then 0x4f97 else 0x4aa0
    case Q =>
      if mask == 0 then 0x355f else if mask == 1 then 0x3068 else if mask == 2 then 0x3f31
      else if mask == 3 then 0x3a06 else if mask == 4 then 0x24b4 else if mask == 5 then 0x2183
      else if mask == 6 then 0x2eda else 0x2bed
    case H =>
      if mask == 0 then 0x1689 else if mask == 1 then 0x13be else if mask == 2 then 0x1ce7
      else if mask == 3 then 0x19d0 else if mask == 4 then 0x0762 else if mask == 5 then 0x0255
      else if mask == 6 then 0x0d0c else 0x083b
  }

  /** The word computed for a level and a mask is the one of the standard. */
  lemma FormatWordIs(level: Level, mask: bv32)
    requires mask < 8
    ensures FormatWord(FormatData(level, mask)) == FormatTable(level, mask)
  {
    assert mask == 0 || mask == 1 || mask == 2 || mask == 3 || mask == 4 || mask == 5 || mask == 6 || mask == 7;
  }

  // Table D.1.
  function VersionTable(version: bv32): bv32
    requires 7 <= version <= 40
  {
    if version == 7 then 0x07c94
    else if version == 8 then 0x085bc
    else if version == 9 then 0x09a99
    else if version == 10 then 0x0a4d3
    else if version == 11 then 0x0bbf6
    else if version == 12 then 0x0c762
    else if version == 13 then 0x0d847
    else if version == 14 then 0x0e60d
    else if version == 15 then 0x0f928
    else if version == 16 then 0x10b78
    else if version == 17 then 0x1145d
    else if version == 18 then 0x12a17
    else if version == 19 then 0x13532
    else if version == 20 then 0x149a6
    else if version == 21 then 0x15683
    else if version == 22 then 0x168c9
    else if version == 23 then 0x177ec
    else if version == 24 then 0x18ec4
    else if version == 25 then 0x191e1
    else if version == 26 then 0x1afab
    else if version == 27 then 0x1b08e
    else if version == 28 then 0x1cc1a
    else if version == 29 then 0x1d33f
    else if version == 30 then 0x1ed75
    else if version == 31 then 0x1f250
    else if version == 32 then 0x209d5
    else if version == 33 then 0x216f0
    else if version == 34 then 0x228ba
    else if version == 35 then 0x2379f
    else if version == 36 then 0x24b0b
    else if version == 37 then 0x2542e
    else if version == 38 then 0x26a64
    else if version == 39 then 0x27541
    else 0x28c69
  }

  lemma VersionWords7(version: bv32)
    requires 7 <= version <= 18
    ensures VersionWord(version) == VersionTable(version)
  {
  }

  lemma VersionWords19(version: bv32)
    requires 19 <= version <= 30
    ensures VersionWord(version) == VersionTable(version)
  {
  }

  lemma VersionWords31(version: bv32)
    requires 31 <= version <= 40
    ensures VersionWord(version) == VersionTable(version)
  {
  }

  /** The word computed for a version is the one of the standard. */
  lemma VersionWordIs(version: bv32)
    requires 7 <= version <= 40
    ensures VersionWord(version) == VersionTable(version)
  {
    hide VersionWord, VersionTable;
    if version <= 18 {
      VersionWords7(version);
    } else if version <= 30 {
      VersionWords19(version);
    } else {
      VersionWords31(version);
    }
  }

  // ----- what errors they stand

  // How many bits are set.
  function Weight(d: bv32): bv32 {
    ((d >> 0) & 1) + ((d >> 1) & 1) + ((d >> 2) & 1) + ((d >> 3) & 1) + ((d >> 4) & 1)
    + ((d >> 5) & 1) + ((d >> 6) & 1) + ((d >> 7) & 1) + ((d >> 8) & 1) + ((d >> 9) & 1)
    + ((d >> 10) & 1) + ((d >> 11) & 1) + ((d >> 12) & 1) + ((d >> 13) & 1) + ((d >> 14) & 1)
    + ((d >> 15) & 1) + ((d >> 16) & 1) + ((d >> 17) & 1)
  }

  /** Two format words differ in at least seven of their fifteen bits, so three errors are corrected. */
  lemma FormatDistance(a: bv32, b: bv32)
    requires a < 32 && b < 32 && a != b
    ensures Weight(FormatWord(a) ^ FormatWord(b)) >= 7
  {
  }

  // ----- masks

  // getMaskFunction
  function MaskOf(pattern: nat): (int, int) -> bool
    requires pattern < 8
  {
    if pattern == 0 then (i: int, j: int) => (i + j) % 2 == 0
    else if pattern == 1 then (i: int, j: int) => i % 2 == 0
    else if pattern == 2 then (i: int, j: int) => j % 3 == 0
    else if pattern == 3 then (i: int, j: int) => (i + j) % 3 == 0
    else if pattern == 4 then (i: int, j: int) => (i / 2 + j / 3) % 2 == 0
    else if pattern == 5 then (i: int, j: int) => i * j % 2 + i * j % 3 == 0
    else if pattern == 6 then (i: int, j: int) => (i * j % 2 + i * j % 3) % 2 == 0
    else (i: int, j: int) => (i * j % 3 + (i + j) % 2) % 2 == 0
  }

  // The same as tiles of two, three or six modules, as a scanner keeps them.
  predicate Inverted(pattern: nat, i: int, j: int) {
    match pattern
    case 0 => i % 2 == j % 2
    case 1 => i % 2 == 0
    case 2 => j % 3 == 0
    case 3 => (i % 3 + j % 3) in {0, 3}
    case 4 => (i % 4 < 2) == (j % 6 < 3)
    case 5 => i * j % 6 == 0
    case 6 => i * j % 6 < 3
    case _ => (i % 2 == j % 2) == (i * j % 3 != 1)
  }

  lemma SixthsOf(q: int, r: int)
    requires 0 <= r < 6
    ensures (6 * q + r) % 2 == r % 2 && (6 * q + r) % 3 == r % 3
  {
  }

  lemma TwoAndThree(p: int)
    ensures p % 2 + p % 3 == 0 <==> p % 6 == 0
    ensures (p % 2 + p % 3) % 2 == 0 <==> p % 6 < 3
  {
    var (q, r) := (p / 6, p % 6);
    assert p == 6 * q + r;
    SixthsOf(q, r);
    assert r == 0 || r == 1 || r == 2 || r == 3 || r == 4 || r == 5;
  }

  lemma InTwos(q: int, r: int)
    requires 0 <= r < 4
    ensures (2 * q + r) % 2 == r % 2
  {
    assert (2 * q + r) / 2 == q + r / 2;
  }

  lemma InThrees(q: int, r: int)
    requires 0 <= r < 6
    ensures (3 * q + r) % 3 == r % 3
  {
    assert (3 * q + r) / 3 == q + r / 3;
  }

  lemma Tiles(i: int, j: int)
    ensures (i + j) % 2 == 0 <==> i % 2 == j % 2
    ensures (i + j) % 3 == 0 <==> i % 3 + j % 3 == 0 || i % 3 + j % 3 == 3
  {
    InTwos(i / 2 + j / 2, i % 2 + j % 2);
    assert 2 * (i / 2 + j / 2) + (i % 2 + j % 2) == i + j;
    InThrees(i / 3 + j / 3, i % 3 + j % 3);
    assert 3 * (i / 3 + j / 3) + (i % 3 + j % 3) == i + j;
  }

  lemma InFours(q: int, r: int)
    requires 0 <= r < 4
    ensures (4 * q + r) / 2 % 2 == 0 <==> r < 2
  {
    assert (4 * q + r) / 2 == 2 * q + r / 2;
  }

  lemma InSixes(q: int, r: int)
    requires 0 <= r < 6
    ensures (6 * q + r) / 3 % 2 == 0 <==> r < 3
  {
    assert (6 * q + r) / 3 == 2 * q + r / 3;
  }

  lemma Halves(i: int, j: int)
    ensures (i / 2 + j / 3) % 2 == 0 <==> ((i % 4 < 2) == (j % 6 < 3))
  {
    var (a, b) := (i / 2, j / 3);
    assert i == 4 * (i / 4) + i % 4 && j == 6 * (j / 6) + j % 6;
    InFours(i / 4, i % 4);
    InSixes(j / 6, j % 6);
    Tiles(a, b);
  }

  lemma ThirdsAndHalves(p: int, i: int, j: int)
    ensures (p % 3 + (i + j) % 2) % 2 == 0 <==> ((i % 2 == j % 2) == (p % 3 != 1))
  {
    Tiles(i, j);
    assert p % 3 == 0 || p % 3 == 1 || p % 3 == 2;
    assert (i + j) % 2 == 0 || (i + j) % 2 == 1;
  }

  lemma MaskIs(pattern: nat, i: int, j: int)
    requires pattern < 8
    ensures MaskOf(pattern)(i, j) <==> Inverted(pattern, i, j)
  {
    var p := i * j;
    assert pattern == 0 || pattern == 1 || pattern == 2 || pattern == 3 || pattern == 4 || pattern == 5 || pattern == 6
        || pattern == 7;
    TwoAndThree(p);
    Tiles(i, j);
    Halves(i, j);
    ThirdsAndHalves(p, i, j);
  }
}
