/** A whole QR symbol, from segments to modules and back: makeImpl of assets/js/qrcode.js:43-73 with
    createData (332-384), and a scanner without errors that knows version, level and mask. */
module QrSymbol {
  import opened GF256
  import opened Capacity
  import opened CreateData
  import opened Interleave
  import opened Placement
  import opened Prelude
  import opened QrBuffer
  import opened QrStandard
  import opened RsBlocks
  import opened Segments

  // ----- how many codewords there are

  function TotalCount(blocks: seq<Block>): nat {
    if blocks == [] then 0 else TotalCount(blocks[..|blocks| - 1]) + blocks[|blocks| - 1].totalCount
  }

  lemma {:induction false} TotalCountRepeat(s: seq<Block>, b: Block, n: nat)
    ensures TotalCount(s + Repeat(b, n)) == TotalCount(s) + n * b.totalCount
  {
    if n == 0 {
      assert s + Repeat(b, 0) == s;
    } else {
      TotalCountRepeat(s, b, n - 1);
      assert (s + Repeat(b, n))[..|s| + n - 1] == s + Repeat(b, n - 1);
      assert n * b.totalCount == (n - 1) * b.totalCount + b.totalCount;
    }
  }

  lemma TotalOfRow(r: Row)
    ensures TotalCount(BlockList(r)) == RowTotal(r)
  {
    TotalCountRepeat([], Block(r.total, r.data), r.count);
    assert [] + Repeat(Block(r.total, r.data), r.count) == Repeat(Block(r.total, r.data), r.count);
    TotalCountRepeat(Repeat(Block(r.total, r.data), r.count), Block(r.total2, r.data2), r.count2);
  }

  // The codewords of the first r blocks that are among the first n of theirs.
  function Clipped(blocks: seq<Codewords>, n: nat, r: nat): nat
    requires r <= |blocks|
  {
    if r == 0 then 0 else Clipped(blocks, n, r - 1) + if n < |blocks[r - 1]| then n else |blocks[r - 1]|
  }

  lemma {:induction false} ColumnCount(blocks: seq<Codewords>, n: nat, r: nat)
    requires r <= |blocks|
    ensures Clipped(blocks, n + 1, r) == Clipped(blocks, n, r) + |Column(blocks, n, r)|
  {
    if r > 0 { ColumnCount(blocks, n, r - 1); }
  }

  lemma {:induction false} NothingClipped(blocks: seq<Codewords>, r: nat)
    requires r <= |blocks|
    ensures Clipped(blocks, 0, r) == 0
  {
    if r > 0 { NothingClipped(blocks, r - 1); }
  }

  lemma {:induction false} InterleavedCount(blocks: seq<Codewords>, n: nat)
    ensures |Interleaved(blocks, n)| == Clipped(blocks, n, |blocks|)
  {
    hide Column;
    if n > 0 {
      InterleavedCount(blocks, n - 1);
      ColumnCount(blocks, n - 1, |blocks|);
    } else {
      NothingClipped(blocks, |blocks|);
    }
  }

  lemma {:induction false} AllClipped(blocks: seq<Codewords>, n: nat, r: nat)
    requires r <= |blocks| && forall i :: 0 <= i < r ==> |blocks[i]| <= n
    ensures Clipped(blocks, n, r) == |Flatten(blocks[..r])|
  {
    if r > 0 {
      AllClipped(blocks, n, r - 1);
      assert blocks[..r][..r - 1] == blocks[..r - 1];
    }
  }

  lemma InterleavedWhole(blocks: seq<Codewords>)
    ensures |Interleaved(blocks, Longest(Sizes(blocks)))| == |Flatten(blocks)|
  {
    var n := Longest(Sizes(blocks));
    InterleavedCount(blocks, n);
    forall i | 0 <= i < |blocks| ensures |blocks[i]| <= n { LongestBounds(Sizes(blocks), i); }
    AllClipped(blocks, n, |blocks|);
    assert blocks[..|blocks|] == blocks;
  }

  lemma {:induction false} SharesTotal(dc: seq<Codewords>, ec: seq<Codewords>, blocks: seq<Block>)
    requires |dc| == |ec| == |blocks|
    requires forall r :: 0 <= r < |blocks| ==> |dc[r]| + |ec[r]| == blocks[r].totalCount
    ensures |Flatten(dc)| + |Flatten(ec)| == TotalCount(blocks)
  {
    if blocks != [] {
      var n := |blocks| - 1;
      SharesTotal(dc[..n], ec[..n], blocks[..n]);
    }
  }

  lemma CodewordCount(dc: seq<Codewords>, ec: seq<Codewords>, row: Row, codewords: Codewords)
    requires BlocksEncode(dc, ec, BlockList(row))
    requires codewords == Interleaved(dc, Longest(Sizes(dc))) + Interleaved(ec, Longest(Sizes(ec)))
    ensures |codewords| == RowTotal(row)
  {
    hide Interleaved, Longest, Flatten, TotalCount, RowTotal, BlockList;
    InterleavedWhole(dc);
    InterleavedWhole(ec);
    SharesTotal(dc, ec, BlockList(row));
    TotalOfRow(row);
  }

  // ----- bytes from bits

  // The byte whose first k bits are these, and whose others are zero.
  function ByteOf(bits: seq<bool>, k: nat): bv8
    requires k <= 8 && k <= |bits|
  {
    if k == 0 then 0 else if bits[k - 1] then SetBit(ByteOf(bits, k - 1), k - 1) else ByteOf(bits, k - 1)
  }

  lemma {:induction false} ByteOfHas(bits: seq<bool>, k: nat, j: nat)
    requires k <= 8 && k <= |bits| && j < 8
    ensures BitOf(ByteOf(bits, k), j) <==> j < k && bits[j]
  {
    hide BitOf, SetBit;
    if k > 0 {
      ByteOfHas(bits, k - 1, j);
      SetBitOf(ByteOf(bits, k - 1), k - 1, j);
    } else {
      SetBitOf(0, 0, j);
    }
  }

  lemma SameByte(a: bv8, b: bv8)
    requires forall j :: 0 <= j < 8 ==> BitOf(a, j) == BitOf(b, j)
    ensures a == b
  {
    assert BitOf(a, 0) == BitOf(b, 0) && BitOf(a, 1) == BitOf(b, 1) && BitOf(a, 2) == BitOf(b, 2)
        && BitOf(a, 3) == BitOf(b, 3) && BitOf(a, 4) == BitOf(b, 4) && BitOf(a, 5) == BitOf(b, 5)
        && BitOf(a, 6) == BitOf(b, 6) && BitOf(a, 7) == BitOf(b, 7);
  }

  function BytesOf(bits: seq<bool>, n: nat): (s: seq<bv8>)
    requires 8 * n <= |bits|
    ensures |s| == n
  {
    seq(n, i requires 0 <= i < n => ByteOf(bits[8 * i..8 * i + 8], 8))
  }

  lemma BitPlace(i: nat, j: nat, n: nat)
    requires i < n && j < 8
    ensures 8 * i + j < 8 * n && (8 * i + j) / 8 == i && (8 * i + j) % 8 == j
  {}

  lemma BitsOfAt(data: seq<bv8>, i: nat, j: nat)
    requires i < |data| && j < 8
    ensures 8 * i + j < 8 * |data| && BitsOf(data, 8 * |data|)[8 * i + j] == BitOf(data[i], j)
  {
    hide BitOf;
    BitPlace(i, j, |data|);
  }

  lemma ByteBack(data: seq<bv8>, bits: seq<bool>, i: nat)
    requires i < |data| && 8 * |data| <= |bits|
    requires forall k :: 0 <= k < 8 * |data| ==> bits[k] == BitsOf(data, 8 * |data|)[k]
    ensures ByteOf(bits[8 * i..8 * i + 8], 8) == data[i]
  {
    hide BitOf, ByteOf, BitsOf;
    var slice := bits[8 * i..8 * i + 8];
    forall j | 0 <= j < 8 ensures BitOf(ByteOf(slice, 8), j) == BitOf(data[i], j) {
      ByteOfHas(slice, 8, j);
      BitsOfAt(data, i, j);
    }
    SameByte(ByteOf(slice, 8), data[i]);
  }

  lemma AllBytesBack(data: seq<bv8>, bits: seq<bool>)
    requires 8 * |data| <= |bits|
    requires forall k :: 0 <= k < 8 * |data| ==> bits[k] == BitsOf(data, 8 * |data|)[k]
    ensures BytesOf(bits, |data|) == data
  {
    hide BitOf, ByteOf, BitsOf;
    var bytes := BytesOf(bits, |data|);
    forall i | 0 <= i < |data| ensures bytes[i] == data[i] { ByteBack(data, bits, i); }
  }

  lemma StreamBack(data: seq<bv8>, bits: seq<bool>)
    requires 8 * |data| <= |bits| && bits == StreamBits(data, |bits|)
    ensures BytesOf(bits, |data|) == data
  {
    hide BitOf, StreamBits, BytesOf, BitsOf;
    StreamHoldsCodewords(data, |bits|);
    AllBytesBack(data, bits);
  }

  // ----- the scanner

  // The modules as the patterns leave them.
  function PatternsOf(f: Fixed): Snapshot
    requires FixedOk(f)
  {
    map x | x in Probed(f.version * 4 + 17) :: PatternModule(f, x)
  }

  lemma SamePatterns(f: Fixed, s: Snapshot)
    requires FixedOk(f) && Square(s, f.version * 4 + 17) && forall x :: x in s ==> s[x] == PatternModule(f, x)
    ensures s == PatternsOf(f)
  {
    hide PatternModule, Probed;
  }

  // The segments a symbol's modules spell.
  function ReadModules(f: Fixed, modules: Snapshot, mask: Mask, level: Level): Option<seq<Segment>>
    requires FixedOk(f)
  {
    var bits := ReadBack(PatternsOf(f), modules, mask, Order(f.version * 4 + 17));
    var count := SymbolCodewords(f.version);
    if count < 0 || 8 * count > |bits| then None else ReadSymbol(BytesOf(bits, count), f.version, level)
  }

  // The patterns, the codewords and the zigzag together; the codewords are made first, as they are
  // when the source has them cached.
  method MakeSymbol(symbol: Symbol, math: QRMath, segments: seq<Segment>, level: Level, f: Fixed, mask: Mask)
    returns (failure: Option<Failure>)
    requires math.Valid() && FixedOk(f) && symbol.moduleCount == f.version * 4 + 17
    requires Square(symbol.modules, symbol.moduleCount) && forall x :: x in symbol.modules ==> symbol.modules[x] == None
    modifies symbol
    ensures failure == Some(IllegalCharacter) <==> !AllLegal(segments)
    ensures failure == Some(Overflow) <==>
      AllLegal(segments) && |AllBits(segments, f.version)| > 8 * DataCount(BlockList(TableRow(f.version, level)))
    ensures failure.None? ==>
      && Square(symbol.modules, symbol.moduleCount)
      && (forall x :: x in symbol.modules ==> symbol.modules[x] != None)
      && (forall x :: x in symbol.modules && PatternModule(f, x) != None ==> symbol.modules[x] == PatternModule(f, x))
      && ReadModules(f, symbol.modules, mask, level) == Some(segments)
  {
    hide TableRow, ReadSymbol, ReadBack, Order, StreamBits, PatternModule, BlocksEncode, Interleaved, AllBits,
      BlockList, Flatten, Longest, RowTotal, BytesOf, PatternsOf;
    var r, dc, ec := CreateCodewords(math, segments, f.version, level);
    if r.Err? { return Some(r.error); }
    ghost var patterns := symbol.MakeImpl(f, r.value, mask);
    CodewordCount(dc, ec, TableRow(f.version, level), r.value);
    SymbolReads(f, patterns, symbol.modules, mask, level, r.value);
    return None;
  }

  lemma SymbolReads(f: Fixed, patterns: Snapshot, modules: Snapshot, mask: Mask, level: Level, codewords: seq<bv8>)
    requires FixedOk(f) && Square(patterns, f.version * 4 + 17)
    requires forall x :: x in patterns ==> patterns[x] == PatternModule(f, x)
    requires |codewords| == RowTotal(TableRow(f.version, level))
    requires var bits := ReadBack(patterns, modules, mask, Order(f.version * 4 + 17));
             bits == StreamBits(codewords, |bits|)
    ensures ReadModules(f, modules, mask, level) == ReadSymbol(codewords, f.version, level)
  {
    hide TableRow, ReadSymbol, ReadBack, Order, StreamBits, PatternModule, RowTotal, TakenSize, SymbolCodewords,
      CodewordTable;
    assert patterns == PatternsOf(f) by { SamePatterns(f, patterns); }
    BitsLeft(f, patterns, modules, mask);
    RoomForCodewords(f.version, level);
    TableRowTotal(f.version, level);
    CodewordsAre(f.version);
    StreamBack(codewords, ReadBack(patterns, modules, mask, Order(f.version * 4 + 17)));
  }
}
