/** A QR code from its segments to its modules, assets/js/qrcode.js:43-73 with the format words of
    179-182 and 903-964, and a scanner that is given the modules and nothing else. */
module QrCode {
  import opened Bits
  import opened GF256
  import opened CreateData
  import opened Patterns
  import opened Placement
  import opened Prelude
  import opened QrFormat
  import opened QrStandard
  import opened QrSymbol
  import opened RsBlocks
  import opened Scanner
  import opened Segments

  // ----- the bits of a word

  function BitAt(word: bv32, i: nat): bool
    requires i < 32
  {
    (word >> i) & 1 == 1
  }

  function BitsUp(word: bv32, n: nat): (s: seq<bool>)
    requires n <= 32
    ensures |s| == n && forall i :: 0 <= i < n ==> s[i] == BitAt(word, i)
  {
    seq(n, i requires 0 <= i < n => BitAt(word, i))
  }

  function PatternCode(pattern: nat): (mask: bv32)
    requires pattern < 8
    ensures mask < 8
  {
    if pattern == 0 then 0 else if pattern == 1 then 1 else if pattern == 2 then 2 else if pattern == 3 then 3
    else if pattern == 4 then 4 else if pattern == 5 then 5 else if pattern == 6 then 6 else 7
  }

  // ----- the scanner

  predicate Dark(modules: Snapshot, x: Cell) {
    x in modules && modules[x] == Some(true)
  }

  // The five data bits of the format information, high first, with the mask 10101 taken off.
  function FormatDigits(modules: Snapshot): (bool, bool, bool, bool, bool) {
    (!Dark(modules, FormatCell(14)), Dark(modules, FormatCell(13)), !Dark(modules, FormatCell(12)),
     Dark(modules, FormatCell(11)), !Dark(modules, FormatCell(10)))
  }

  // Table 12: 01 is L, 00 is M, 11 is Q, 10 is H.
  function ReadLevel(high: bool, low: bool): Level {
    if high then (if low then Q else H) else if low then L else M
  }

  function ReadPattern(four: bool, two: bool, one: bool): (pattern: nat)
    ensures pattern < 8
  {
    (if four then 4 else 0) + (if two then 2 else 0) + (if one then 1 else 0)
  }

  function ReadMask(pattern: nat): Mask {
    (i: int, j: int) => Inverted(pattern, i, j)
  }

  // The version follows from the size, level and mask from the format information; which modules
  // are function patterns does not depend on what those hold.
  function Scan(modules: Snapshot, n: nat): Option<seq<Segment>> {
    if n < 21 || n > 177 || (n - 17) % 4 != 0 then None
    else
      var (high, low, four, two, one) := FormatDigits(modules);
      var pattern := ReadPattern(four, two, one);
      ReadModules(Bare((n - 17) / 4), modules, ReadMask(pattern), ReadLevel(high, low))
  }

  function Bare(version: nat): (f: Fixed)
    requires 1 <= version <= 40
    ensures FixedOk(f)
  {
    Fixed(version, Falses(15), Falses(18), false)
  }

  // ----- what it reads

  lemma WordTells(level: Level, mask: bv32)
    requires mask < 8
    ensures var w := FormatWord(FormatData(level, mask));
      && ReadLevel(w & 0x4000 == 0, w & 0x2000 != 0) == level
      && (w & 0x1000 == 0 <==> mask & 4 != 0) && (w & 0x800 != 0 <==> mask & 2 != 0)
      && (w & 0x400 == 0 <==> mask & 1 != 0)
  {
  }

  lemma HighBits(w: bv32)
    ensures BitAt(w, 14) <==> w & 0x4000 != 0
    ensures BitAt(w, 13) <==> w & 0x2000 != 0
    ensures BitAt(w, 12) <==> w & 0x1000 != 0
    ensures BitAt(w, 11) <==> w & 0x800 != 0
    ensures BitAt(w, 10) <==> w & 0x400 != 0
  {
  }

  lemma CodeTells(pattern: nat)
    requires pattern < 8
    ensures var mask := PatternCode(pattern); ReadPattern(mask & 4 != 0, mask & 2 != 0, mask & 1 != 0) == pattern
  {
  }

  lemma WordBits(level: Level, pattern: nat)
    requires pattern < 8
    ensures var w := FormatWord(FormatData(level, PatternCode(pattern)));
      && ReadLevel(!BitAt(w, 14), BitAt(w, 13)) == level
      && ReadPattern(!BitAt(w, 12), BitAt(w, 11), !BitAt(w, 10)) == pattern
  {
    hide FormatWord, FormatData, PatternCode, BitAt, ReadLevel, ReadPattern;
    WordTells(level, PatternCode(pattern));
    HighBits(FormatWord(FormatData(level, PatternCode(pattern))));
    CodeTells(pattern);
  }

  ghost predicate Shows(f: Fixed, modules: Snapshot)
    requires FixedOk(f) && Square(modules, f.version * 4 + 17)
  {
    forall x :: x in modules && PatternModule(f, x) != None ==> modules[x] == PatternModule(f, x)
  }

  lemma FormatBitFound(f: Fixed, modules: Snapshot, word: bv32, i: nat)
    requires FixedOk(f) && !f.test && Square(modules, f.version * 4 + 17) && i < 15
    requires f.typeInfo == BitsUp(word, 15) && Shows(f, modules)
    ensures Dark(modules, FormatCell(i)) <==> BitAt(word, i)
  {
    hide PatternModule, BitAt, FormatCell;
    FormatReads(f, i);
  }

  // Level and mask are found where the patterns put them.
  lemma FormatFound(f: Fixed, modules: Snapshot, level: Level, pattern: nat)
    requires FixedOk(f) && !f.test && pattern < 8 && Square(modules, f.version * 4 + 17)
    requires f.typeInfo == BitsUp(FormatWord(FormatData(level, PatternCode(pattern))), 15) && Shows(f, modules)
    ensures var (high, low, four, two, one) := FormatDigits(modules);
      ReadLevel(high, low) == level && ReadPattern(four, two, one) == pattern
  {
    hide PatternModule, FormatWord, FormatData, BitAt, PatternCode, ReadLevel, ReadPattern, Dark, FormatCell, Shows;
    var w := FormatWord(FormatData(level, PatternCode(pattern)));
    FormatBitFound(f, modules, w, 14); FormatBitFound(f, modules, w, 13); FormatBitFound(f, modules, w, 12);
    FormatBitFound(f, modules, w, 11); FormatBitFound(f, modules, w, 10);
    WordBits(level, pattern);
  }

  // Whether a module belongs to the patterns does not depend on the bits they hold.
  lemma SameUnset(f: Fixed, x: Cell)
    requires FixedOk(f) && !f.test && x in Probed(f.version * 4 + 17)
    ensures PatternModule(f, x) == None <==> PatternModule(Bare(f.version), x) == None
  {
    hide PositionModule, VerticalBit, HorizontalBit, VersionBit, Probed;
  }

  lemma {:induction false} SameReading(
    a: Snapshot, b: Snapshot, now: Snapshot, m: Mask, w: Mask, order: seq<Cell>)
    requires forall x :: Unset(a, x) <==> Unset(b, x)
    requires forall i, j :: m(i, j) == w(i, j)
    ensures ReadBack(a, now, m, order) == ReadBack(b, now, w, order)
  {
    hide Unset;
    if order != [] { SameReading(a, b, now, m, w, order[..|order| - 1]); }
  }

  lemma SamePatternsUnset(f: Fixed)
    requires FixedOk(f) && !f.test
    ensures forall x :: Unset(PatternsOf(f), x) <==> Unset(PatternsOf(Bare(f.version)), x)
  {
    hide PatternModule, Probed;
    forall x ensures Unset(PatternsOf(f), x) <==> Unset(PatternsOf(Bare(f.version)), x) {
      if x in Probed(f.version * 4 + 17) { SameUnset(f, x); }
    }
  }

  lemma SameModules(f: Fixed, modules: Snapshot, level: Level, pattern: nat)
    requires FixedOk(f) && !f.test && pattern < 8
    ensures ReadModules(Bare(f.version), modules, ReadMask(pattern), level)
         == ReadModules(f, modules, MaskOf(pattern), level)
  {
    hide PatternsOf, MaskOf, Inverted, ReadBack, Order, SymbolCodewords, ReadSymbol, BytesOf;
    forall i, j ensures MaskOf(pattern)(i, j) == ReadMask(pattern)(i, j) { MaskIs(pattern, i, j); }
    SamePatternsUnset(f);
    SameReading(PatternsOf(f), PatternsOf(Bare(f.version)), modules, MaskOf(pattern), ReadMask(pattern),
                Order(f.version * 4 + 17));
  }

  lemma Scanned(f: Fixed, modules: Snapshot, level: Level, pattern: nat)
    requires FixedOk(f) && !f.test && pattern < 8 && Square(modules, f.version * 4 + 17)
    requires f.typeInfo == BitsUp(FormatWord(FormatData(level, PatternCode(pattern))), 15) && Shows(f, modules)
    ensures Scan(modules, f.version * 4 + 17) == ReadModules(f, modules, MaskOf(pattern), level)
  {
    hide FormatDigits, ReadLevel, ReadPattern, ReadModules, Shows, BitsUp, Bare, MaskOf, ReadMask;
    FormatFound(f, modules, level, pattern);
    SameModules(f, modules, level, pattern);
    assert (f.version * 4 + 17 - 17) / 4 == f.version;
  }

  // ----- the whole

  /** The modules made for any segments, version, level and mask are all set, and a scanner that is
      given nothing else recovers the segments; it fails exactly on a character the mode has not,
      or on more bits than the standard's blocks hold. */
  method MakeCode(symbol: Symbol, math: QRMath, segments: seq<Segment>, version: nat, level: Level, pattern: nat)
    returns (failure: Option<Failure>)
    requires math.Valid() && 1 <= version <= 40 && pattern < 8 && symbol.moduleCount == version * 4 + 17
    requires Square(symbol.modules, symbol.moduleCount) && forall x :: x in symbol.modules ==> symbol.modules[x] == None
    modifies symbol
    ensures failure == Some(IllegalCharacter) <==> !AllLegal(segments)
    ensures failure == Some(Overflow) <==>
      AllLegal(segments) && |AllBits(segments, version)| > 8 * DataCount(StandardBlocks(version, level))
    ensures failure.None? ==>
      && (forall x :: x in symbol.modules ==> symbol.modules[x] != None)
      && Scan(symbol.modules, symbol.moduleCount) == Some(segments)
  {
    hide Scan, ReadModules, PatternModule, FormatWord, VersionWord, MaskOf, AllBits, TableRow, StandardBlocks,
      BlockList, DataCount, BitAt;
    var info := GetBCHTypeInfo(FormatData(level, PatternCode(pattern)));
    var number: bv32 := 0;
    if version >= 7 { number := GetBCHTypeNumber(version as bv32); }
    var f := Fixed(version, BitsUp(info, 15), BitsUp(number, 18), false);
    BlocksAreStandard(version, level);
    failure := MakeSymbol(symbol, math, segments, level, f, MaskOf(pattern));
    if failure.None? { Scanned(f, symbol.modules, level, pattern); }
  }
}
