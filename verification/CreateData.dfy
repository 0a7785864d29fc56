/** createData of assets/js/qrcode.js:332-384: segments to codewords, and a reader for the result. */
module CreateData {
  import opened Prelude
  import opened Bits
  import opened GF256
  import opened QrBuffer
  import opened Segments
  import opened QrStandard
  import opened RsBlocks
  import opened Interleave

  datatype Failure = IllegalCharacter | Overflow

  // ----- writing the segments

  // strToNum; None where an illegal character throws.
  method StrToNum(s: string) returns (num: Option<nat>)
    ensures num.Some? <==> Legal(Numeric(s))
    ensures num.Some? ==> num.value == Number(s)
  {
    var n := 0;
    for i := 0 to |s|
      invariant Legal(Numeric(s[..i])) && n == Number(s[..i])
    {
      if !IsDigit(s[i]) { return None; }
      assert s[..i + 1][..i] == s[..i];
      n := n * 10 + DigitValue(s[i]);
    }
    assert s[..|s|] == s;
    return Some(n);
  }

  // The write methods below return false where the source throws.
  method WriteNumber(buffer: BitBuffer, data: string) returns (ok: bool)
    requires buffer.Valid()
    modifies buffer
    ensures buffer.Valid() && (ok <==> Legal(Numeric(data)))
    ensures ok ==> buffer.Contents() == old(buffer.Contents()) + NumericBits(data)
  {
    hide BitBuffer.Valid, BitBuffer.Contents, HighFirst, Number, Legal, NumericBits;
    ghost var was := buffer.Contents();
    var i := 0;
    LastGroup([], was);
    assert data[..0] == [] && data[0..] == data;
    while i + 2 < |data|
      invariant i <= |data| && buffer.Valid() && Legal(Numeric(data[..i]))
      invariant Legal(Numeric(data)) <==> Legal(Numeric(data[i..]))
      invariant Legal(Numeric(data)) ==>
                  buffer.Contents() + NumericBits(data[i..]) == was + NumericBits(data)
    {
      var n := StrToNum(data[i..i + 3]);
      GroupNext(data, i, buffer.Contents());
      if n == None { return false; }
      buffer.Put(n.value, 10);
      i := i + 3;
    }
    LastGroup(data[i..], buffer.Contents());
    if i < |data| {
      var n := StrToNum(data[i..]);
      if n == None { return false; }
      buffer.Put(n.value, if |data| - i == 1 then 4 else 7);
    }
    return true;
  }

  lemma DigitsSplit(data: string, i: nat)
    requires i <= |data|
    ensures Legal(Numeric(data)) <==> Legal(Numeric(data[..i])) && Legal(Numeric(data[i..]))
  {
    hide IsDigit;
    assert forall k :: 0 <= k < |data| ==> data[k] == if k < i then data[..i][k] else data[i..][k - i];
  }

  lemma GroupNext(data: string, i: nat, now: seq<bool>)
    requires i + 2 < |data| && Legal(Numeric(data[..i]))
    ensures Legal(Numeric(data[i..])) ==> Legal(Numeric(data[i..i + 3]))
    ensures Legal(Numeric(data[i..i + 3])) ==> Legal(Numeric(data[..i + 3]))
    ensures Legal(Numeric(data[i..i + 3])) ==> (Legal(Numeric(data[i..])) <==> Legal(Numeric(data[i + 3..])))
    ensures Legal(Numeric(data[i..])) ==>
              now + NumericBits(data[i..]) == now + HighFirst(Number(data[i..i + 3]), 10) + NumericBits(data[i + 3..])
  {
    hide HighFirst, Number, Legal, NumericBits;
    assert data[i..][..3] == data[i..i + 3] && data[i..][3..] == data[i + 3..];
    DigitsSplit(data[i..], 3);
    assert data[..i + 3][..i] == data[..i] && data[..i + 3][i..] == data[i..i + 3];
    DigitsSplit(data[..i + 3], i);
    if Legal(Numeric(data[i..])) {
      GroupUnfolds(data[i..]);
      var (group, rest) := (HighFirst(Number(data[i..i + 3]), 10), NumericBits(data[i + 3..]));
      assert now + (group + rest) == now + group + rest;
    }
  }

  lemma GroupUnfolds(d: string)
    requires |d| >= 3 && Legal(Numeric(d))
    ensures NumericBits(d) == HighFirst(Number(d[..3]), 10) + NumericBits(d[3..])
  {
    hide HighFirst, Number;
  }

  lemma LastGroup(d: string, now: seq<bool>)
    requires |d| <= 2
    ensures d == [] ==> Legal(Numeric(d)) && now + NumericBits(d) == now
    ensures d != [] && Legal(Numeric(d)) ==> NumericBits(d) == HighFirst(Number(d), if |d| == 1 then 4 else 7)
  {
    hide HighFirst, Number;
  }

  method WriteAlphaNum(buffer: BitBuffer, s: string) returns (ok: bool)
    requires buffer.Valid()
    modifies buffer
    ensures buffer.Valid() && (ok <==> Legal(Alphanumeric(s)))
    ensures ok ==> buffer.Contents() == old(buffer.Contents()) + AlphanumericBits(s)
  {
    hide BitBuffer.Valid, BitBuffer.Contents, HighFirst, GetCode, IsAlpha, Legal, AlphanumericBits;
    ghost var was := buffer.Contents();
    var i := 0;
    assert s[0..] == s;
    while i + 1 < |s|
      invariant i <= |s| && buffer.Valid()
      invariant Legal(Alphanumeric(s)) <==> Legal(Alphanumeric(s[i..]))
      invariant Legal(Alphanumeric(s)) ==>
                  buffer.Contents() + AlphanumericBits(s[i..]) == was + AlphanumericBits(s)
    {
      PairNext(s[i..], buffer.Contents());
      assert s[i..][2..] == s[i + 2..] && s[i..][0] == s[i] && s[i..][1] == s[i + 1];
      if !IsAlpha(s[i]) || !IsAlpha(s[i + 1]) { return false; }
      buffer.Put(GetCode(s[i]) * 45 + GetCode(s[i + 1]), 11);
      i := i + 2;
    }
    LastCharacter(s[i..], buffer.Contents());
    if i < |s| {
      if !IsAlpha(s[i]) { return false; }
      buffer.Put(GetCode(s[i]), 6);
    }
    return true;
  }

  lemma PairNext(c: string, now: seq<bool>)
    requires |c| >= 2
    ensures Legal(Alphanumeric(c)) <==> IsAlpha(c[0]) && IsAlpha(c[1]) && Legal(Alphanumeric(c[2..]))
    ensures Legal(Alphanumeric(c)) ==>
              now + AlphanumericBits(c)
              == now + HighFirst(GetCode(c[0]) * 45 + GetCode(c[1]), 11) + AlphanumericBits(c[2..])
  {
    hide HighFirst, GetCode, IsAlpha, Legal, AlphanumericBits;
    PairLegal(c);
    if Legal(Alphanumeric(c)) {
      PairUnfolds(c);
      var (pair, rest) := (HighFirst(GetCode(c[0]) * 45 + GetCode(c[1]), 11), AlphanumericBits(c[2..]));
      assert now + (pair + rest) == now + pair + rest;
    }
  }

  lemma PairLegal(c: string)
    requires |c| >= 2
    ensures Legal(Alphanumeric(c)) <==> IsAlpha(c[0]) && IsAlpha(c[1]) && Legal(Alphanumeric(c[2..]))
  {
    hide IsAlpha;
    assert forall k :: 2 <= k < |c| ==> c[k] == c[2..][k - 2];
  }

  lemma PairUnfolds(c: string)
    requires |c| >= 2 && Legal(Alphanumeric(c))
    ensures AlphanumericBits(c) == HighFirst(GetCode(c[0]) * 45 + GetCode(c[1]), 11) + AlphanumericBits(c[2..])
  {
    hide HighFirst, GetCode;
  }

  lemma LastCharacter(c: string, now: seq<bool>)
    requires |c| <= 1
    ensures c == [] ==> Legal(Alphanumeric(c)) && now + AlphanumericBits(c) == now
    ensures c != [] ==> (Legal(Alphanumeric(c)) <==> IsAlpha(c[0]))
    ensures c != [] && Legal(Alphanumeric(c)) ==> AlphanumericBits(c) == HighFirst(GetCode(c[0]), 6)
  {
    hide HighFirst, GetCode, IsAlpha;
  }

  method WriteBytes(buffer: BitBuffer, bytes: seq<Octet>)
    requires buffer.Valid()
    modifies buffer
    ensures buffer.Valid() && buffer.Contents() == old(buffer.Contents()) + ByteBits(bytes)
  {
    hide BitBuffer.Valid, HighFirst, BitsOf;
    ghost var done: seq<bool> := [];
    assert bytes[0..] == bytes;
    for i := 0 to |bytes|
      invariant buffer.Valid() && buffer.Contents() == old(buffer.Contents()) + done
      invariant ByteBits(bytes) == done + ByteBits(bytes[i..])
    {
      buffer.Put(bytes[i], 8);
      assert bytes[i..][1..] == bytes[i + 1..];
      done := done + HighFirst(bytes[i], 8);
    }
  }

  method WriteSegment(buffer: BitBuffer, s: Segment, version: nat) returns (ok: bool)
    requires buffer.Valid() && 1 <= version <= 40
    modifies buffer
    ensures buffer.Valid() && (ok <==> Legal(s))
    ensures ok ==> buffer.Contents() == old(buffer.Contents()) + SegmentBits(s, version)
  {
    hide BitBuffer.Valid, HighFirst, BitsOf, LengthBits;
    buffer.Put(Mode(s), 4);
    buffer.Put(Length(s), LengthBits(Mode(s), version));
    ok := true;
    match s
    case Numeric(d) => ok := WriteNumber(buffer, d);
    case Alphanumeric(c) => ok := WriteAlphaNum(buffer, c);
    case Bytes(b) => WriteBytes(buffer, b);
  }

  lemma {:induction false} AllBitsSnoc(segments: seq<Segment>, s: Segment, version: nat)
    requires AllLegal(segments) && Legal(s) && 1 <= version <= 40
    ensures AllLegal(segments + [s])
    ensures AllBits(segments + [s], version) == AllBits(segments, version) + SegmentBits(s, version)
  {
    hide SegmentBits;
    if segments == [] {
      assert [] + [s] == [s] && SegmentBits(s, version) + [] == SegmentBits(s, version);
    } else {
      AllBitsSnoc(segments[1..], s, version);
      assert (segments + [s])[1..] == segments[1..] + [s];
    }
  }

  lemma SegmentNext(segments: seq<Segment>, i: nat, version: nat)
    requires i < |segments| && AllLegal(segments[..i]) && 1 <= version <= 40
    ensures !Legal(segments[i]) ==> !AllLegal(segments)
    ensures Legal(segments[i]) ==>
              && AllLegal(segments[..i + 1])
              && AllBits(segments[..i + 1], version)
                 == AllBits(segments[..i], version) + SegmentBits(segments[i], version)
  {
    hide Legal, AllBits, SegmentBits;
    if Legal(segments[i]) {
      AllBitsSnoc(segments[..i], segments[i], version);
      assert segments[..i + 1] == segments[..i] + [segments[i]];
    }
  }

  lemma NoSegments(version: nat)
    requires 1 <= version <= 40
    ensures AllLegal([]) && AllBits([], version) == []
  {
  }

  method WriteSegments(buffer: BitBuffer, segments: seq<Segment>, version: nat) returns (ok: bool)
    requires buffer.Valid() && buffer.Contents() == [] && 1 <= version <= 40
    modifies buffer
    ensures buffer.Valid() && (ok <==> AllLegal(segments))
    ensures ok ==> buffer.Contents() == AllBits(segments, version)
  {
    hide BitBuffer.Valid, BitBuffer.Contents, SegmentBits, Legal, AllLegal, AllBits;
    NoSegments(version);
    assert segments[..0] == [];
    for i := 0 to |segments|
      invariant buffer.Valid() && AllLegal(segments[..i])
      invariant buffer.Contents() == AllBits(segments[..i], version)
    {
      SegmentNext(segments, i, version);
      ok := WriteSegment(buffer, segments[i], version);
      if !ok { return false; }
    }
    assert segments[..|segments|] == segments;
    return true;
  }

  // ----- padding to the capacity

  // The alternating pad bytes, PAD0 first.
  function PadBytes(n: nat, first: bool): (s: seq<bool>)
    ensures |s| == 8 * n
  {
    if n == 0 then [] else HighFirst(if first then 0xEC else 0x11, 8) + PadBytes(n - 1, !first)
  }

  // Terminator if it fits, zeros to the byte, pad bytes to the capacity of `bytes`.
  function Padding(used: nat, bytes: nat): (s: seq<bool>)
    requires used <= 8 * bytes
    ensures used + |s| == 8 * bytes
  {
    var t := if used + 4 <= 8 * bytes then 4 else 0;
    var z := ByteGap(used + t);
    Falses(t + z) + PadBytes(bytes - (used + t + z) / 8, true)
  }

  lemma {:induction false} FalsesValue(n: nat)
    ensures HighValue(Falses(n)) == 0
  {
    if n > 0 {
      FalsesValue(n - 1);
      assert Falses(n)[..n - 1] == Falses(n - 1);
    }
  }

  // Behind the segments a reader finds a terminator or fewer than four bits.
  lemma PaddingEndsTheList(used: nat, bytes: nat)
    requires used <= 8 * bytes
    ensures var p := Padding(used, bytes); |p| < 4 || HighValue(p[..4]) == 0
  {
    var p := Padding(used, bytes);
    if |p| >= 4 {
      assert p[..4] == Falses(4);
      FalsesValue(4);
    }
  }

  lemma {:induction false} PadByteAt(n: nat, first: bool, k: nat)
    requires k < n
    ensures PadBytes(n, first)[8 * k..8 * k + 8] == HighFirst(if (k % 2 == 0) == first then 236 else 17, 8)
  {
    hide HighFirst;
    var pad := HighFirst(if first then 0xEC else 0x11, 8);
    var rest := PadBytes(n - 1, !first);
    if k > 0 {
      PadByteAt(n - 1, !first, k - 1);
      assert (pad + rest)[8 * k..8 * k + 8] == rest[8 * (k - 1)..8 * (k - 1) + 8];
    } else {
      assert (pad + rest)[..8] == pad;
    }
  }

  // Up to eleven zeros that reach a byte boundary, four at least unless the capacity comes first,
  // then the two pad codewords in turn.
  lemma PaddingIs(used: nat, bytes: nat) returns (z: nat, n: nat)
    requires used <= 8 * bytes
    ensures z < 12 && used + z + 8 * n == 8 * bytes && (z >= 4 || used + 4 > 8 * bytes)
    ensures var p := Padding(used, bytes);
      && |p| == z + 8 * n && (forall i :: 0 <= i < z ==> !p[i])
      && forall k :: 0 <= k < n ==> p[z + 8 * k..z + 8 * k + 8] == HighFirst(if k % 2 == 0 then 236 else 17, 8)
  {
    hide HighFirst, PadBytes;
    var t := if used + 4 <= 8 * bytes then 4 else 0;
    z := t + ByteGap(used + t);
    n := PaddingParts(used, bytes, t, ByteGap(used + t));
    var (a, b) := (Falses(z), PadBytes(n, true));
    forall k | 0 <= k < n
      ensures (a + b)[z + 8 * k..z + 8 * k + 8] == HighFirst(if k % 2 == 0 then 236 else 17, 8)
    {
      PadByteAt(n, true, k);
      assert (a + b)[z + 8 * k..z + 8 * k + 8] == b[8 * k..8 * k + 8];
    }
  }

  method Pad(buffer: BitBuffer, bytes: nat)
    requires buffer.Valid() && |buffer.Contents()| <= 8 * bytes
    modifies buffer
    ensures buffer.Valid()
    ensures buffer.Contents() == old(buffer.Contents()) + Padding(|old(buffer.Contents())|, bytes)
    ensures |buffer.buffer| == bytes && buffer.length == 8 * bytes
  {
    hide HighFirst, BitBuffer.Valid, BitsOf, Padding, PadBytes, ByteGap;
    ghost var was := buffer.Contents();
    BufferLength(buffer);
    ghost var t := if |was| + 4 <= 8 * bytes then 4 else 0;
    if buffer.length + 4 <= bytes * 8 {
      ZeroBits(4);
      buffer.Put(0, 4);
    }
    assert buffer.Contents() == was + Falses(t);
    BufferLength(buffer);
    PadToByte(buffer);
    BufferLength(buffer);
    ghost var z := ByteGap(|was| + t);
    ghost var n := PaddingParts(|was|, bytes, t, z);
    assert was + Falses(t) + Falses(z) == was + Falses(t + z);
    PadTail(buffer, bytes, n);
    assert was + Falses(t + z) + PadBytes(n, true) == was + (Falses(t + z) + PadBytes(n, true));
  }

  lemma PaddingParts(used: nat, bytes: nat, t: nat, z: nat) returns (n: nat)
    requires used <= 8 * bytes && t == (if used + 4 <= 8 * bytes then 4 else 0)
    requires z == ByteGap(used + t)
    ensures used + t + z + 8 * n == 8 * bytes
    ensures Padding(used, bytes) == Falses(t + z) + PadBytes(n, true)
  {
    hide PadBytes;
    n := bytes - (used + t + z) / 8;
  }

  method PadToByte(buffer: BitBuffer)
    requires buffer.Valid()
    modifies buffer
    ensures buffer.Valid()
    ensures buffer.Contents() == old(buffer.Contents()) + Falses(ByteGap(|old(buffer.Contents())|))
  {
    hide BitBuffer.Valid, BitBuffer.Contents, Falses, ByteGap;
    ghost var was := buffer.Contents();
    ghost var z := 0;
    BufferLength(buffer);
    assert was + Falses(0) == was;
    while buffer.length % 8 != 0
      invariant buffer.Valid() && buffer.length == |was| + z
      invariant buffer.Contents() == was + Falses(z)
      invariant z <= ByteGap(|was|)
      decreases ByteGap(|was|) - z
    {
      GapLeft(|was|, z);
      buffer.PutBit(false);
      BufferLength(buffer);
      FalseNext(was, z);
      z := z + 1;
    }
    GapLeft(|was|, z);
  }

  lemma FalseNext(was: seq<bool>, z: nat)
    ensures was + Falses(z) + [false] == was + Falses(z + 1)
  {
    assert Falses(z) + [false] == Falses(z + 1);
  }

  lemma BufferLength(buffer: BitBuffer)
    requires buffer.Valid()
    ensures |buffer.Contents()| == buffer.length && |buffer.buffer| == (buffer.length + 7) / 8
  {
  }

  lemma ZeroBits(n: nat)
    ensures HighFirst(0, n) == Falses(n)
  {
    FalsesValue(n);
    HighValueBound(Falses(n));
  }

  lemma PadNext(done: seq<bool>, left: nat, first: bool)
    requires left > 0
    ensures done + PadBytes(left, first)
         == done + HighFirst(if first then 0xEC else 0x11, 8) + PadBytes(left - 1, !first)
  {
    hide HighFirst;
    var (pad, rest) := (HighFirst(if first then 0xEC else 0x11, 8), PadBytes(left - 1, !first));
    assert done + (pad + rest) == done + pad + rest;
  }

  lemma PadNone(done: seq<bool>, first: bool)
    ensures done + PadBytes(0, first) == done
  {
  }

  // while (true) with a break before each of the two pad bytes
  method PadTail(buffer: BitBuffer, bytes: nat, ghost n: nat)
    requires buffer.Valid() && buffer.length + 8 * n == 8 * bytes
    modifies buffer
    ensures buffer.Valid() && buffer.length == 8 * bytes && |buffer.buffer| == bytes
    ensures buffer.Contents() == old(buffer.Contents()) + PadBytes(n, true)
  {
    hide HighFirst, PadBytes, BitBuffer.Valid, BitBuffer.Contents;
    ghost var was := buffer.Contents();
    ghost var left := n;
    BufferLength(buffer);
    while true
      invariant buffer.Valid() && buffer.length + 8 * left == 8 * bytes
      invariant buffer.Contents() + PadBytes(left, true) == was + PadBytes(n, true)
      decreases left
    {
      if buffer.length >= bytes * 8 { break; }
      PadNext(buffer.Contents(), left, true);
      PutPad(buffer, 0xEC);
      left := left - 1;
      if buffer.length >= bytes * 8 {
        PadNone(buffer.Contents(), false);
        PadNone(buffer.Contents(), true);
        break;
      }
      PadNext(buffer.Contents(), left, false);
      PutPad(buffer, 0x11);
      left := left - 1;
    }
    PadNone(buffer.Contents(), true);
    BufferLength(buffer);
  }

  method PutPad(buffer: BitBuffer, pad: nat)
    requires buffer.Valid()
    modifies buffer
    ensures buffer.Valid() && buffer.length == old(buffer.length) + 8
    ensures buffer.Contents() == old(buffer.Contents()) + HighFirst(pad, 8)
  {
    hide HighFirst, BitBuffer.Valid, BitBuffer.Contents;
    BufferLength(buffer);
    buffer.Put(pad, 8);
    BufferLength(buffer);
  }

  // ----- the whole, and a reader

  function DataSizes(blocks: seq<Block>): seq<nat> {
    seq(|blocks|, i requires 0 <= i < |blocks| => blocks[i].dataCount)
  }

  function DataBytes(codewords: seq<bv8>, blocks: seq<Block>): seq<bv8> {
    Flatten(Deal(DataSizes(blocks), codewords, Longest(DataSizes(blocks))).0)
  }

  // What a scanner that found no errors does with the codewords of a symbol.
  function ReadSymbol(codewords: seq<bv8>, version: nat, level: Level): Option<seq<Segment>>
    requires 1 <= version <= 40
  {
    var bytes := DataBytes(codewords, StandardBlocks(version, level));
    ReadSegments(BitsOf(bytes, 8 * |bytes|), version)
  }

  // One byte segment passes the overflow test exactly when it leaves room for mode and count.
  lemma ByteCapacity(b: seq<Octet>, version: nat, level: Level)
    requires 1 <= version <= 40
    ensures AllLegal([Bytes(b)])
    ensures var data := DataCount(BlockList(TableRow(version, level)));
      |AllBits([Bytes(b)], version)| <= 8 * data <==> |b| <= data - (if version < 10 then 2 else 3)
  {
    hide SegmentBits, DataCount, BlockList, TableRow;
    SegmentLength(Bytes(b), version);
    assert [Bytes(b)][1..] == [];
    assert AllBits([Bytes(b)], version) == SegmentBits(Bytes(b), version) + [];
  }

  /** A list that fits the symbol has no segment too long for its length field. */
  lemma FittingLengthsFit(segments: seq<Segment>, version: nat, level: Level)
    requires AllLegal(segments) && 1 <= version <= 40
    requires |AllBits(segments, version)| <= 8 * DataCount(BlockList(TableRow(version, level)))
    ensures LengthsFit(segments, version)
  {
    hide TableRow, Payload, AllBits;
    BlocksWithinReach(version, level);
    Powers();
    forall i | 0 <= i < |segments| ensures Length(segments[i]) < Pow2(LengthBits(Mode(segments[i]), version)) {
      SegmentInAll(segments, version, i);
      PayloadSize(segments[i]);
    }
  }

  /** The pipeline from segments to interleaved codewords. It fails exactly on an illegal character
      or on more bits than the symbol holds. Otherwise the blocks are Reed-Solomon codewords, the
      data is the segments and the padding, and the reader recovers the segments. */
  method CreateCodewords(math: QRMath, segments: seq<Segment>, version: nat, level: Level)
    returns (r: Result<seq<bv8>, Failure>, ghost dc: seq<Codewords>, ghost ec: seq<Codewords>)
    requires math.Valid() && 1 <= version <= 40
    ensures r == Err(IllegalCharacter) <==> !AllLegal(segments)
    ensures r == Err(Overflow) <==>
              AllLegal(segments) && |AllBits(segments, version)| > 8 * DataCount(BlockList(TableRow(version, level)))
    ensures r.Ok? ==>
              && BlocksEncode(dc, ec, BlockList(TableRow(version, level)))
              && r.value == Interleaved(dc, Longest(Sizes(dc))) + Interleaved(ec, Longest(Sizes(ec)))
              && |Flatten(dc)| == DataCount(BlockList(TableRow(version, level)))
              && BitsOf(Flatten(dc), 8 * |Flatten(dc)|)
                 == AllBits(segments, version) + Padding(|AllBits(segments, version)|, |Flatten(dc)|)
              && ReadSymbol(r.value, version, level) == Some(segments)
  {
    hide TableRow, AllBits, BitBuffer.Valid, Padding, BlocksEncode, Interleaved, Flatten, ReadSymbol, Longest;
    dc, ec := [], [];
    var blocks := GetRSBlocks(version, level);
    var buffer := new BitBuffer();
    var ok := WriteSegments(buffer, segments, version);
    if !ok { return Err(IllegalCharacter), dc, ec; }
    BufferLength(buffer);
    var total := TotalData(blocks);
    if buffer.length > total * 8 { return Err(Overflow), dc, ec; }
    Pad(buffer, total);
    BlocksWithinReach(version, level);
    var d, e, maxD, maxE := EncodeBlocks(math, buffer.buffer, blocks);
    var first := InterleaveBlocks(d, maxD);
    var second := InterleaveBlocks(e, maxE);
    dc, ec := d, e;
    ReadsBack(segments, version, level, dc, ec, first + second);
    return Ok(first + second), dc, ec;
  }

  method TotalData(blocks: seq<Block>) returns (total: nat)
    ensures total == DataCount(blocks)
  {
    total := 0;
    for i := 0 to |blocks|
      invariant total == DataCount(blocks[..i])
    {
      CountNext(blocks, i);
      total := total + blocks[i].dataCount;
    }
    assert blocks[..|blocks|] == blocks;
  }

  lemma ReadsBack(segments: seq<Segment>, version: nat, level: Level,
                  dc: seq<Codewords>, ec: seq<Codewords>, codewords: seq<bv8>)
    requires AllLegal(segments) && 1 <= version <= 40
    requires var blocks := BlockList(TableRow(version, level));
             && BlocksEncode(dc, ec, blocks)
             && codewords == Interleaved(dc, Longest(Sizes(dc))) + Interleaved(ec, Longest(Sizes(ec)))
             && |AllBits(segments, version)| <= 8 * DataCount(blocks)
             && |Flatten(dc)| == DataCount(blocks)
             && BitsOf(Flatten(dc), 8 * |Flatten(dc)|)
                == AllBits(segments, version) + Padding(|AllBits(segments, version)|, |Flatten(dc)|)
    ensures ReadSymbol(codewords, version, level) == Some(segments)
  {
    hide TableRow, Padding, Flatten, Interleaved, Longest, Deal, StandardBlocks;
    var blocks := BlockList(TableRow(version, level));
    BlocksAreStandard(version, level);
    assert DataSizes(blocks) == Sizes(dc);
    DealInverts(dc, Interleaved(ec, Longest(Sizes(ec))));
    FittingLengthsFit(segments, version, level);
    PaddingEndsTheList(|AllBits(segments, version)|, |Flatten(dc)|);
    SegmentsBack(segments, version, Padding(|AllBits(segments, version)|, |Flatten(dc)|));
  }
}
