/** The blocks of a QR symbol as ISO/IEC 18004 lets a reader work them out: the number of codewords
    follows from the size of the symbol, table 9 gives the number of blocks and of check codewords. */
module QrStandard {
  import opened RsBlocks

  // ----- how many check codewords each block has

  function ChecksL(version: nat): nat
    requires 1 <= version <= 40
  {
    match version
    case 1 => 7
    case 2 => 10
    case 3 => 15
    case 4 => 20
    case 5 => 26
    case 6 => 18
    case 7 => 20
    case 8 => 24
    case 10 => 18
    case 11 => 20
    case 12 => 24
    case 13 => 26
    case 15 => 22
    case 16 => 24
    case 17 => 28
    case 19 => 28
    case 20 => 28
    case 21 => 28
    case 22 => 28
    case 25 => 26
    case 26 => 28
    case _ => 30
  }

  function ChecksM(version: nat): nat
    requires 1 <= version <= 40
  {
    match version
    case 1 => 10
    case 2 => 16
    case 3 => 26
    case 4 => 18
    case 5 => 24
    case 6 => 16
    case 7 => 18
    case 8 => 22
    case 9 => 22
    case 10 => 26
    case 11 => 30
    case 12 => 22
    case 13 => 22
    case 14 => 24
    case 15 => 24
    case 18 => 26
    case 19 => 26
    case 20 => 26
    case 21 => 26
    case _ => 28
  }

  function ChecksQ(version: nat): nat
    requires 1 <= version <= 40
  {
    match version
    case 1 => 13
    case 2 => 22
    case 3 => 18
    case 4 => 26
    case 5 => 18
    case 6 => 24
    case 7 => 18
    case 8 => 22
    case 9 => 20
    case 10 => 24
    case 11 => 28
    case 12 => 26
    case 13 => 24
    case 14 => 20
    case 16 => 24
    case 17 => 28
    case 18 => 28
    case 19 => 26
    case 21 => 28
    case 26 => 28
    case _ => 30
  }

  function ChecksH(version: nat): nat
    requires 1 <= version <= 40
  {
    match version
    case 1 => 17
    case 2 => 28
    case 3 => 22
    case 4 => 16
    case 5 => 22
    case 6 => 28
    case 7 => 26
    case 8 => 26
    case 9 => 24
    case 10 => 28
    case 11 => 24
    case 12 => 28
    case 13 => 22
    case 14 => 24
    case 15 => 24
    case 17 => 28
    case 18 => 28
    case 19 => 26
    case 20 => 28
    case 22 => 24
    case _ => 30
  }

  function CheckCodewords(version: nat, level: Level): nat
    requires 1 <= version <= 40
  {
    match level
    case L => ChecksL(version)
    case M => ChecksM(version)
    case Q => ChecksQ(version)
    case H => ChecksH(version)
  }

  // ----- how many blocks there are

  function BlocksL(version: nat): nat
    requires 1 <= version <= 40
  {
    match version
    case 6 => 2
    case 7 => 2
    case 8 => 2
    case 9 => 2
    case 10 => 4
    case 11 => 4
    case 12 => 4
    case 13 => 4
    case 14 => 4
    case 15 => 6
    case 16 => 6
    case 17 => 6
    case 18 => 6
    case 19 => 7
    case 20 => 8
    case 21 => 8
    case 22 => 9
    case 23 => 9
    case 24 => 10
    case 25 => 12
    case 26 => 12
    case 27 => 12
    case 28 => 13
    case 29 => 14
    case 30 => 15
    case 31 => 16
    case 32 => 17
    case 33 => 18
    case 34 => 19
    case 35 => 19
    case 36 => 20
    case 37 => 21
    case 38 => 22
    case 39 => 24
    case 40 => 25
    case _ => 1
  }

  function BlocksM(version: nat): nat
    requires 1 <= version <= 40
  {
    match version
    case 4 => 2
    case 5 => 2
    case 6 => 4
    case 7 => 4
    case 8 => 4
    case 9 => 5
    case 10 => 5
    case 11 => 5
    case 12 => 8
    case 13 => 9
    case 14 => 9
    case 15 => 10
    case 16 => 10
    case 17 => 11
    case 18 => 13
    case 19 => 14
    case 20 => 16
    case 21 => 17
    case 22 => 17
    case 23 => 18
    case 24 => 20
    case 25 => 21
    case 26 => 23
    case 27 => 25
    case 28 => 26
    case 29 => 28
    case 30 => 29
    case 31 => 31
    case 32 => 33
    case 33 => 35
    case 34 => 37
    case 35 => 38
    case 36 => 40
    case 37 => 43
    case 38 => 45
    case 39 => 47
    case 40 => 49
    case _ => 1
  }

  function BlocksQ(version: nat): nat
    requires 1 <= version <= 40
  {
    match version
    case 1 => 1
    case 2 => 1
    case 3 => 2
    case 4 => 2
    case 5 => 4
    case 6 => 4
    case 7 => 6
    case 8 => 6
    case 12 => 10
    case 13 => 12
    case 14 => 16
    case 15 => 12
    case 16 => 17
    case 17 => 16
    case 18 => 18
    case 19 => 21
    case 20 => 20
    case 21 => 23
    case 22 => 23
    case 23 => 25
    case 24 => 27
    case 25 => 29
    case 26 => 34
    case 27 => 34
    case 28 => 35
    case 29 => 38
    case 30 => 40
    case 31 => 43
    case 32 => 45
    case 33 => 48
    case 34 => 51
    case 35 => 53
    case 36 => 56
    case 37 => 59
    case 38 => 62
    case 39 => 65
    case 40 => 68
    case _ => 8
  }

  function BlocksH(version: nat): nat
    requires 1 <= version <= 40
  {
    match version
    case 1 => 1
    case 2 => 1
    case 3 => 2
    case 7 => 5
    case 8 => 6
    case 9 => 8
    case 10 => 8
    case 11 => 11
    case 12 => 11
    case 13 => 16
    case 14 => 16
    case 15 => 18
    case 16 => 16
    case 17 => 19
    case 18 => 21
    case 19 => 25
    case 20 => 25
    case 21 => 25
    case 22 => 34
    case 23 => 30
    case 24 => 32
    case 25 => 35
    case 26 => 37
    case 27 => 40
    case 28 => 42
    case 29 => 45
    case 30 => 48
    case 31 => 51
    case 32 => 54
    case 33 => 57
    case 34 => 60
    case 35 => 63
    case 36 => 66
    case 37 => 70
    case 38 => 74
    case 39 => 77
    case 40 => 81
    case _ => 4
  }

  function BlockCount(version: nat, level: Level): nat
    requires 1 <= version <= 40
  {
    match level
    case L => BlocksL(version)
    case M => BlocksM(version)
    case Q => BlocksQ(version)
    case H => BlocksH(version)
  }

  // ----- how many codewords there are

  // The modules left for data and remainder bits: the square, less finders, timing, format, the
  // alignment patterns of a version, and the version blocks from 7 on.
  function DataModules(version: nat): int
    requires 1 <= version <= 40
  {
    var whole := (16 * version + 128) * version + 64;
    var n := version / 7 + 2;
    var aligned := if version == 1 then whole else whole - ((25 * n - 10) * n - 55);
    if version < 7 then aligned else aligned - 36
  }

  function SymbolCodewords(version: nat): int
    requires 1 <= version <= 40
  {
    DataModules(version) / 8
  }

  function CodewordTable(version: nat): nat
    requires 1 <= version <= 40
  {
    match version
    case 1 => 26
    case 2 => 44
    case 3 => 70
    case 4 => 100
    case 5 => 134
    case 6 => 172
    case 7 => 196
    case 8 => 242
    case 9 => 292
    case 10 => 346
    case 11 => 404
    case 12 => 466
    case 13 => 532
    case 14 => 581
    case 15 => 655
    case 16 => 733
    case 17 => 815
    case 18 => 901
    case 19 => 991
    case 20 => 1085
    case 21 => 1156
    case 22 => 1258
    case 23 => 1364
    case 24 => 1474
    case 25 => 1588
    case 26 => 1706
    case 27 => 1828
    case 28 => 1921
    case 29 => 2051
    case 30 => 2185
    case 31 => 2323
    case 32 => 2465
    case 33 => 2611
    case 34 => 2761
    case 35 => 2876
    case 36 => 3034
    case 37 => 3196
    case 38 => 3362
    case 39 => 3532
    case _ => 3706
  }

  lemma CodewordsAre1(version: nat)
    requires 1 <= version <= 8
    ensures SymbolCodewords(version) == CodewordTable(version)
  {
    assert version == 1 || version == 2 || version == 3 || version == 4
        || version == 5 || version == 6 || version == 7 || version == 8;
  }

  lemma CodewordsAre9(version: nat)
    requires 9 <= version <= 16
    ensures SymbolCodewords(version) == CodewordTable(version)
  {
    assert version == 9 || version == 10 || version == 11 || version == 12
        || version == 13 || version == 14 || version == 15 || version == 16;
  }

  lemma CodewordsAre17(version: nat)
    requires 17 <= version <= 24
    ensures SymbolCodewords(version) == CodewordTable(version)
  {
    assert version == 17 || version == 18 || version == 19 || version == 20
        || version == 21 || version == 22 || version == 23 || version == 24;
  }

  lemma CodewordsAre25(version: nat)
    requires 25 <= version <= 32
    ensures SymbolCodewords(version) == CodewordTable(version)
  {
    assert version == 25 || version == 26 || version == 27 || version == 28
        || version == 29 || version == 30 || version == 31 || version == 32;
  }

  lemma CodewordsAre33(version: nat)
    requires 33 <= version <= 40
    ensures SymbolCodewords(version) == CodewordTable(version)
  {
    assert version == 33 || version == 34 || version == 35 || version == 36
        || version == 37 || version == 38 || version == 39 || version == 40;
  }

  lemma CodewordsAre(version: nat)
    requires 1 <= version <= 40
    ensures SymbolCodewords(version) == CodewordTable(version)
  {
    hide SymbolCodewords, CodewordTable;
    if version <= 8 {
      CodewordsAre1(version);
    } else if version <= 16 {
      CodewordsAre9(version);
    } else if version <= 24 {
      CodewordsAre17(version);
    } else if version <= 32 {
      CodewordsAre25(version);
    } else {
      CodewordsAre33(version);
    }
  }

  // The shorter blocks first, then those with one more data codeword; all have the same number of
  // check codewords.
  ghost predicate RowStandard(r: Row, codewords: int, blocks: nat, checks: nat) {
    && r.count > 0 && r.count + r.count2 == blocks && r.total == r.data + checks
    && codewords == r.total * blocks + r.count2
    && (r.count2 > 0 ==> r.total2 == r.total + 1 && r.data2 == r.data + 1)
  }

  lemma RowL1(version: nat)
    requires 1 <= version <= 10
    ensures RowStandard(RowL(version), CodewordTable(version), BlocksL(version), ChecksL(version))
  {
  }

  lemma RowL11(version: nat)
    requires 11 <= version <= 20
    ensures RowStandard(RowL(version), CodewordTable(version), BlocksL(version), ChecksL(version))
  {
  }

  lemma RowL21(version: nat)
    requires 21 <= version <= 30
    ensures RowStandard(RowL(version), CodewordTable(version), BlocksL(version), ChecksL(version))
  {
  }

  lemma RowL31(version: nat)
    requires 31 <= version <= 40
    ensures RowStandard(RowL(version), CodewordTable(version), BlocksL(version), ChecksL(version))
  {
  }

  lemma RowM1(version: nat)
    requires 1 <= version <= 10
    ensures RowStandard(RowM(version), CodewordTable(version), BlocksM(version), ChecksM(version))
  {
  }

  lemma RowM11(version: nat)
    requires 11 <= version <= 20
    ensures RowStandard(RowM(version), CodewordTable(version), BlocksM(version), ChecksM(version))
  {
  }

  lemma RowM21(version: nat)
    requires 21 <= version <= 30
    ensures RowStandard(RowM(version), CodewordTable(version), BlocksM(version), ChecksM(version))
  {
  }

  lemma RowM31(version: nat)
    requires 31 <= version <= 40
    ensures RowStandard(RowM(version), CodewordTable(version), BlocksM(version), ChecksM(version))
  {
  }

  lemma RowQ1(version: nat)
    requires 1 <= version <= 10
    ensures RowStandard(RowQ(version), CodewordTable(version), BlocksQ(version), ChecksQ(version))
  {
  }

  lemma RowQ11(version: nat)
    requires 11 <= version <= 20
    ensures RowStandard(RowQ(version), CodewordTable(version), BlocksQ(version), ChecksQ(version))
  {
  }

  lemma RowQ21(version: nat)
    requires 21 <= version <= 30
    ensures RowStandard(RowQ(version), CodewordTable(version), BlocksQ(version), ChecksQ(version))
  {
  }

  lemma RowQ31(version: nat)
    requires 31 <= version <= 40
    ensures RowStandard(RowQ(version), CodewordTable(version), BlocksQ(version), ChecksQ(version))
  {
  }

  lemma RowH1(version: nat)
    requires 1 <= version <= 10
    ensures RowStandard(RowH(version), CodewordTable(version), BlocksH(version), ChecksH(version))
  {
  }

  lemma RowH11(version: nat)
    requires 11 <= version <= 20
    ensures RowStandard(RowH(version), CodewordTable(version), BlocksH(version), ChecksH(version))
  {
  }

  lemma RowH21(version: nat)
    requires 21 <= version <= 30
    ensures RowStandard(RowH(version), CodewordTable(version), BlocksH(version), ChecksH(version))
  {
  }

  lemma RowH31(version: nat)
    requires 31 <= version <= 40
    ensures RowStandard(RowH(version), CodewordTable(version), BlocksH(version), ChecksH(version))
  {
  }

  lemma RowsStandard(version: nat, level: Level)
    requires 1 <= version <= 40
    ensures RowStandard(TableRow(version, level), SymbolCodewords(version), BlockCount(version, level),
                        CheckCodewords(version, level))
  {
    hide RowStandard, SymbolCodewords, CodewordTable, RowL, RowM, RowQ, RowH,
      BlocksL, BlocksM, BlocksQ, BlocksH, ChecksL, ChecksM, ChecksQ, ChecksH;
    CodewordsAre(version);
    match level
    case L =>
      if version <= 10 {
        RowL1(version);
      } else if version <= 20 {
        RowL11(version);
      } else if version <= 30 {
        RowL21(version);
      } else {
        RowL31(version);
      }
    case M =>
      if version <= 10 {
        RowM1(version);
      } else if version <= 20 {
        RowM11(version);
      } else if version <= 30 {
        RowM21(version);
      } else {
        RowM31(version);
      }
    case Q =>
      if version <= 10 {
        RowQ1(version);
      } else if version <= 20 {
        RowQ11(version);
      } else if version <= 30 {
        RowQ21(version);
      } else {
        RowQ31(version);
      }
    case H =>
      if version <= 10 {
        RowH1(version);
      } else if version <= 20 {
        RowH11(version);
      } else if version <= 30 {
        RowH21(version);
      } else {
        RowH31(version);
      }
  }

  lemma AtLeastOnce(d: int, n: int)
    requires d >= 1 && n >= 0
    ensures d * n >= n
  {
  }

  lemma NoMultiple(d: int, n: int)
    requires 0 < n && -n < d * n < n
    ensures d == 0
  {
    if d > 0 {
      AtLeastOnce(d, n);
    } else if d < 0 {
      AtLeastOnce(-d, n);
    }
  }

  lemma Quotient(q: int, n: nat, m: nat, size: nat, longer: nat)
    requires q * n + m == size * n + longer && m < n && longer < n
    ensures q == size && m == longer
  {
    assert (q - size) * n == q * n - size * n;
    NoMultiple(q - size, n);
  }

  lemma Division(all: nat, n: nat, size: nat, longer: nat)
    requires all == size * n + longer && longer < n
    ensures all / n == size && all % n == longer
  {
    var (q, m) := (all / n, all % n);
    assert all == q * n + m && m < n;
    Quotient(q, n, m, size, longer);
  }

  lemma BlocksDivide(version: nat, level: Level)
    requires 1 <= version <= 40
    ensures var (r, n, all) := (TableRow(version, level), BlockCount(version, level), SymbolCodewords(version));
      && n > 0 && all / n == r.total && all % n == r.count2 && r.count == n - r.count2
      && r.total == r.data + CheckCodewords(version, level)
      && (r.count2 > 0 ==> r.total2 == r.total + 1 && r.data2 == r.data + 1)
  {
    hide TableRow, SymbolCodewords, BlockCount, CheckCodewords;
    RowsStandard(version, level);
    var r := TableRow(version, level);
    Division(SymbolCodewords(version), BlockCount(version, level), r.total, r.count2);
  }

  // The blocks a reader reckons with.
  function StandardBlocks(version: nat, level: Level): seq<Block>
    requires 1 <= version <= 40
  {
    var (n, checks, all) := (BlockCount(version, level), CheckCodewords(version, level), SymbolCodewords(version));
    BlocksDivide(version, level);
    var (size, longer) := (all / n, all % n);
    Repeat(Block(size, size - checks), n - longer) + Repeat(Block(size + 1, size + 1 - checks), longer)
  }

  /** All 160 rows of the table are the blocks of the standard, which in one symbol have one number
      of check codewords. */
  lemma BlocksAreStandard(version: nat, level: Level)
    requires 1 <= version <= 40
    ensures BlockList(TableRow(version, level)) == StandardBlocks(version, level)
    ensures forall i :: 0 <= i < |StandardBlocks(version, level)| ==>
      StandardBlocks(version, level)[i].totalCount
      == StandardBlocks(version, level)[i].dataCount + CheckCodewords(version, level)
  {
    hide TableRow, SymbolCodewords, BlockCount, CheckCodewords;
    BlocksDivide(version, level);
  }
}
