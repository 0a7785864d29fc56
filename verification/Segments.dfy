/** What a QR segment is written as, and a reader that gets it back: assets/js/qrcode.js:974-1018,
    1607-1750, and section 7.4 of ISO/IEC 18004:2015. */
module Segments {
  import opened Prelude
  import opened Bits

  // A byte segment holds what stringToBytes made of its text.
  datatype Segment = Numeric(digits: string) | Alphanumeric(chars: string) | Bytes(bytes: seq<Octet>)

  function Mode(s: Segment): nat {
    match s
    case Numeric(_) => 1
    case Alphanumeric(_) => 2
    case Bytes(_) => 4
  }

  function Length(s: Segment): nat {
    match s
    case Numeric(d) => |d|
    case Alphanumeric(c) => |c|
    case Bytes(b) => |b|
  }

  // getLengthInBits, for the modes and versions that exist; any other throws.
  function LengthBits(mode: nat, version: nat): nat
    requires mode == 1 || mode == 2 || mode == 4
    requires 1 <= version <= 40
  {
    if version < 10 then if mode == 1 then 10 else if mode == 2 then 9 else 8
    else if version < 27 then if mode == 1 then 12 else if mode == 2 then 11 else 16
    else if mode == 1 then 14 else if mode == 2 then 13 else 16
  }

  // ----- characters

  predicate IsDigit(c: char) {
    '0' <= c <= '9'
  }

  function DigitValue(c: char): (n: nat)
    requires IsDigit(c)
    ensures n < 10
  {
    c as int - '0' as int
  }

  function DigitChar(n: nat): (c: char)
    requires n < 10
    ensures IsDigit(c) && DigitValue(c) == n
  {
    ('0' as int + n) as char
  }

  predicate IsAlpha(c: char) {
    IsDigit(c) || 'A' <= c <= 'Z' || c in {' ', '$', '%', '*', '+', '-', '.', '/', ':'}
  }

  function GetCode(c: char): (n: nat)
    requires IsAlpha(c)
    ensures n < 45
  {
    if IsDigit(c) then DigitValue(c)
    else if 'A' <= c <= 'Z' then c as int - 'A' as int + 10
    else if c == ' ' then 36 else if c == '$' then 37 else if c == '%' then 38 else if c == '*' then 39
    else if c == '+' then 40 else if c == '-' then 41 else if c == '.' then 42 else if c == '/' then 43 else 44
  }

  lemma DigitCharOf(c: char)
    requires IsDigit(c)
    ensures DigitChar(DigitValue(c)) == c
  {
  }

  // Any other character makes the segment throw when it is written.
  predicate Legal(s: Segment) {
    match s
    case Numeric(d) => forall i :: 0 <= i < |d| ==> IsDigit(d[i])
    case Alphanumeric(c) => forall i :: 0 <= i < |c| ==> IsAlpha(c[i])
    case Bytes(_) => true
  }

  // ----- payloads

  // strToNum
  function Number(d: string): nat
    requires Legal(Numeric(d))
  {
    if d == "" then 0 else Number(d[..|d| - 1]) * 10 + DigitValue(d[|d| - 1])
  }

  function NumericBits(d: string): seq<bool>
    requires Legal(Numeric(d))
  {
    if |d| >= 3 then HighFirst(Number(d[..3]), 10) + NumericBits(d[3..])
    else if |d| == 2 then HighFirst(Number(d), 7)
    else if |d| == 1 then HighFirst(Number(d), 4)
    else []
  }

  function AlphanumericBits(c: string): seq<bool>
    requires Legal(Alphanumeric(c))
  {
    if |c| >= 2 then HighFirst(GetCode(c[0]) * 45 + GetCode(c[1]), 11) + AlphanumericBits(c[2..])
    else if |c| == 1 then HighFirst(GetCode(c[0]), 6)
    else []
  }

  function ByteBits(b: seq<Octet>): seq<bool> {
    if b == [] then [] else HighFirst(b[0], 8) + ByteBits(b[1..])
  }

  function Payload(s: Segment): seq<bool>
    requires Legal(s)
  {
    match s
    case Numeric(d) => NumericBits(d)
    case Alphanumeric(c) => AlphanumericBits(c)
    case Bytes(b) => ByteBits(b)
  }

  function SegmentBits(s: Segment, version: nat): seq<bool>
    requires Legal(s) && 1 <= version <= 40
  {
    HighFirst(Mode(s), 4) + (HighFirst(Length(s), LengthBits(Mode(s), version)) + Payload(s))
  }

  predicate AllLegal(segments: seq<Segment>) {
    forall i :: 0 <= i < |segments| ==> Legal(segments[i])
  }

  function AllBits(segments: seq<Segment>, version: nat): seq<bool>
    requires AllLegal(segments) && 1 <= version <= 40
  {
    if segments == [] then [] else SegmentBits(segments[0], version) + AllBits(segments[1..], version)
  }

  // ----- a reader

  // It has its own tables. The width of a count field: table 3 of the standard.
  function CountWidth(mode: nat, version: nat): nat {
    if version <= 9 then
      if mode == 1 then 10 else if mode == 2 then 9 else 8
    else if version <= 26 then
      if mode == 1 then 12 else if mode == 2 then 11 else 16
    else
      if mode == 1 then 14 else if mode == 2 then 13 else 16
  }

  // The characters of alphanumeric mode by value: table 5.
  const CHARACTERS := "0123456789" + "ABCDEFGHIJKLMNOPQRSTUVWXYZ" + " $%*+-./:"

  function CodeChar(n: nat): char
    requires n < 45
  {
    CHARACTERS[n]
  }

  lemma DigitsStand(i: nat)
    requires i < 10
    ensures CHARACTERS[i] as int == '0' as int + i
  {
    assert i == 0 || i == 1 || i == 2 || i == 3 || i == 4 || i == 5 || i == 6 || i == 7 || i == 8 || i == 9;
  }

  lemma LettersStand(i: nat)
    requires i < 26
    ensures CHARACTERS[10 + i] as int == 'A' as int + i
  {
    assert i == 0 || i == 1 || i == 2 || i == 3 || i == 4 || i == 5 || i == 6 || i == 7 || i == 8
        || i == 9 || i == 10 || i == 11 || i == 12 || i == 13 || i == 14 || i == 15 || i == 16 || i == 17
        || i == 18 || i == 19 || i == 20 || i == 21 || i == 22 || i == 23 || i == 24 || i == 25;
  }

  lemma OthersStand()
    ensures CHARACTERS[36] == ' ' && CHARACTERS[37] == '$' && CHARACTERS[38] == '%' && CHARACTERS[39] == '*'
    ensures CHARACTERS[40] == '+' && CHARACTERS[41] == '-' && CHARACTERS[42] == '.' && CHARACTERS[43] == '/'
    ensures CHARACTERS[44] == ':'
  {
  }

  lemma CodeCharOf(c: char)
    requires IsAlpha(c)
    ensures CodeChar(GetCode(c)) == c
  {
    OthersStand();
    if IsDigit(c) {
      DigitsStand(GetCode(c));
    } else if 'A' <= c <= 'Z' {
      LettersStand(GetCode(c) - 10);
    }
  }

  lemma CodeIsAlpha(n: nat)
    requires n < 45
    ensures IsAlpha(CodeChar(n))
  {
    OthersStand();
    if n < 10 {
      DigitsStand(n);
    } else if n < 36 {
      LettersStand(n - 10);
    } else {
      assert n == 36 || n == 37 || n == 38 || n == 39 || n == 40 || n == 41 || n == 42 || n == 43 || n == 44;
    }
  }

  // The writer refuses exactly the characters the table has not.
  lemma AlphaIff(c: char)
    ensures IsAlpha(c) <==> exists n: nat :: n < 45 && CodeChar(n) == c
  {
    hide IsAlpha, CodeChar;
    if IsAlpha(c) {
      CodeCharOf(c);
    } else {
      forall n: nat | n < 45 ensures CodeChar(n) != c { CodeIsAlpha(n); }
    }
  }

  lemma WidthsAgree(s: Segment, version: nat)
    requires 1 <= version <= 40
    ensures CountWidth(Mode(s), version) == LengthBits(Mode(s), version)
  {
  }

  // The next n bits as a number, and the bits after them.
  function Take(bits: seq<bool>, n: nat): (nat, seq<bool>)
    requires n <= |bits|
  {
    (HighValue(bits[..n]), bits[n..])
  }

  lemma TakeBack(n: nat, len: nat, later: seq<bool>)
    requires n < Pow2(len)
    ensures Take(HighFirst(n, len) + later, len) == (n, later)
  {
    HighRoundTrip(n, len);
    assert (HighFirst(n, len) + later)[..len] == HighFirst(n, len);
  }

  datatype Read<T> = Bad | Read(value: T, left: seq<bool>)

  // The width of a group of k digits, one past the largest number it holds, and its characters.
  function GroupWidth(k: nat): nat {
    if k == 3 then 10 else if k == 2 then 7 else 4
  }

  function GroupLimit(k: nat): nat {
    if k == 3 then 1000 else if k == 2 then 100 else 10
  }

  function GroupChars(n: nat, k: nat): string
    requires 1 <= k <= 3 && n < GroupLimit(k)
  {
    if k == 3 then [DigitChar(n / 100), DigitChar(n / 10 % 10), DigitChar(n % 10)]
    else if k == 2 then [DigitChar(n / 10), DigitChar(n % 10)]
    else [DigitChar(n)]
  }

  function ReadNumeric(bits: seq<bool>, count: nat): Read<string>
    decreases count
  {
    if count == 0 then Read("", bits)
    else
      var k := if count >= 3 then 3 else count;
      if |bits| < GroupWidth(k) then Bad
      else
        var (n, left) := Take(bits, GroupWidth(k));
        if n >= GroupLimit(k) then Bad
        else
          match ReadNumeric(left, count - k)
          case Bad => Bad
          case Read(d, rest) => Read(GroupChars(n, k) + d, rest)
  }

  function ReadAlphanumeric(bits: seq<bool>, count: nat): Read<string> {
    if count == 0 then Read("", bits)
    else if count == 1 then
      if |bits| < 6 then Bad
      else
        var (n, left) := Take(bits, 6);
        if n >= 45 then Bad else Read([CodeChar(n)], left)
    else
      if |bits| < 11 then Bad
      else
        var (n, left) := Take(bits, 11);
        if n >= 2025 then Bad
        else
          match ReadAlphanumeric(left, count - 2)
          case Bad => Bad
          case Read(c, rest) => Read([CodeChar(n / 45), CodeChar(n % 45)] + c, rest)
  }

  function ReadBytes(bits: seq<bool>, count: nat): Read<seq<Octet>> {
    if count == 0 then Read([], bits)
    else if |bits| < 8 then Bad
    else
      var (n, left) := Take(bits, 8);
      if n >= 256 then Bad
      else
        match ReadBytes(left, count - 1)
        case Bad => Bad
        case Read(b, rest) => Read([n] + b, rest)
  }

  function ReadPayload(mode: nat, count: nat, bits: seq<bool>): Read<Segment> {
    if mode == 1 then
      match ReadNumeric(bits, count) { case Bad => Bad case Read(d, rest) => Read(Numeric(d), rest) }
    else if mode == 2 then
      match ReadAlphanumeric(bits, count) { case Bad => Bad case Read(c, rest) => Read(Alphanumeric(c), rest) }
    else
      match ReadBytes(bits, count) { case Bad => Bad case Read(b, rest) => Read(Bytes(b), rest) }
  }

  // Segments up to a terminator of four zeros, or until fewer than four bits are left.
  function ReadSegments(bits: seq<bool>, version: nat): Option<seq<Segment>>
    requires 1 <= version <= 40
    decreases |bits|
  {
    if |bits| < 4 then Some([])
    else
      var (mode, b1) := Take(bits, 4);
      if mode == 0 then Some([])
      else if mode != 1 && mode != 2 && mode != 4 then None
      else if |b1| < CountWidth(mode, version) then None
      else
        var (count, b2) := Take(b1, CountWidth(mode, version));
        match ReadPayload(mode, count, b2)
        case Bad => None
        case Read(s, left) =>
          if |left| >= |bits| then None
          else match ReadSegments(left, version)
            case None => None
            case Some(more) => Some([s] + more)
  }

  // ----- the reader undoes the writer

  lemma {:induction false} NumericBack(d: string, later: seq<bool>)
    requires Legal(Numeric(d))
    ensures ReadNumeric(NumericBits(d) + later, |d|) == Read(d, later)
  {
    hide HighFirst, Take, GroupChars, Number;
    if d == "" {
      assert [] + later == later;
    } else {
      var k := if |d| >= 3 then 3 else |d|;
      var (g, rest) := (d[..k], d[k..]);
      GroupBack(g);
      NumericBack(rest, later);
      TakeBack(Number(g), GroupWidth(k), NumericBits(rest) + later);
      assert d[..k] == d || k == 3;
      assert NumericBits(d) + later == HighFirst(Number(g), GroupWidth(k)) + (NumericBits(rest) + later);
      assert d == g + rest;
    }
  }

  lemma GroupBack(g: string)
    requires Legal(Numeric(g)) && 1 <= |g| <= 3
    ensures Number(g) < GroupLimit(|g|) && Number(g) < Pow2(GroupWidth(|g|))
    ensures GroupChars(Number(g), |g|) == g
  {
    Powers();
    if |g| == 3 { ThreeDigits(g); } else if |g| == 2 { TwoDigits(g); } else { OneDigit(g); }
  }

  lemma OneDigit(d: string)
    requires Legal(Numeric(d)) && |d| == 1
    ensures Number(d) == DigitValue(d[0]) && DigitChar(Number(d)) == d[0]
  {
    assert d[..0] == "";
    DigitCharOf(d[0]);
  }

  lemma TwoDigits(d: string)
    requires Legal(Numeric(d)) && |d| == 2
    ensures Number(d) == 10 * DigitValue(d[0]) + DigitValue(d[1])
    ensures DigitChar(Number(d) / 10) == d[0] && DigitChar(Number(d) % 10) == d[1]
  {
    OneDigit(d[..1]);
    DigitCharOf(d[0]); DigitCharOf(d[1]);
  }

  lemma ThreeDigits(d: string)
    requires Legal(Numeric(d)) && |d| == 3
    ensures Number(d) == 100 * DigitValue(d[0]) + 10 * DigitValue(d[1]) + DigitValue(d[2])
    ensures Number(d) < 1000
    ensures DigitChar(Number(d) / 100) == d[0] && DigitChar(Number(d) / 10 % 10) == d[1]
    ensures DigitChar(Number(d) % 10) == d[2]
  {
    TwoDigits(d[..2]);
    DigitCharOf(d[0]); DigitCharOf(d[1]); DigitCharOf(d[2]);
  }

  lemma {:induction false} AlphanumericBack(c: string, later: seq<bool>)
    requires Legal(Alphanumeric(c))
    ensures ReadAlphanumeric(AlphanumericBits(c) + later, |c|) == Read(c, later)
  {
    hide HighFirst, Take, GetCode, CodeChar;
    Powers();
    if |c| >= 2 {
      var n := GetCode(c[0]) * 45 + GetCode(c[1]);
      CodeCharOf(c[0]); CodeCharOf(c[1]);
      assert n / 45 == GetCode(c[0]) && n % 45 == GetCode(c[1]);
      AlphanumericBack(c[2..], later);
      TakeBack(n, 11, AlphanumericBits(c[2..]) + later);
      assert AlphanumericBits(c) + later == HighFirst(n, 11) + (AlphanumericBits(c[2..]) + later);
      assert c == [c[0], c[1]] + c[2..];
    } else if |c| == 1 {
      CodeCharOf(c[0]);
      TakeBack(GetCode(c[0]), 6, later);
      assert c == [c[0]];
    } else {
      assert [] + later == later;
    }
  }

  lemma {:induction false} BytesBack(b: seq<Octet>, later: seq<bool>)
    ensures ReadBytes(ByteBits(b) + later, |b|) == Read(b, later)
  {
    hide HighFirst, Take;
    Powers();
    if b == [] {
      assert [] + later == later;
    } else {
      BytesBack(b[1..], later);
      TakeBack(b[0], 8, ByteBits(b[1..]) + later);
      assert ByteBits(b) + later == HighFirst(b[0], 8) + (ByteBits(b[1..]) + later);
      assert b == [b[0]] + b[1..];
    }
  }

  // Segments whose length fields do not truncate.
  predicate LengthsFit(segments: seq<Segment>, version: nat)
    requires 1 <= version <= 40
  {
    forall i :: 0 <= i < |segments| ==> Length(segments[i]) < Pow2(LengthBits(Mode(segments[i]), version))
  }

  /** The reader recovers every legal segment list whose length fields do not truncate, whether a
      terminator or the end of the bits follows. */
  lemma {:induction false} SegmentsBack(segments: seq<Segment>, version: nat, tail: seq<bool>)
    requires AllLegal(segments) && 1 <= version <= 40 && LengthsFit(segments, version)
    requires |tail| < 4 || HighValue(tail[..4]) == 0
    ensures ReadSegments(AllBits(segments, version) + tail, version) == Some(segments)
  {
    hide ReadSegments, SegmentBits;
    if segments == [] {
      assert [] + tail == tail;
      NothingLeft(tail, version);
    } else {
      var rest := AllBits(segments[1..], version) + tail;
      SegmentsBack(segments[1..], version, tail);
      SegmentBack(segments[0], version, rest);
      assert AllBits(segments, version) + tail == SegmentBits(segments[0], version) + rest;
      assert segments == [segments[0]] + segments[1..];
    }
  }

  lemma NothingLeft(tail: seq<bool>, version: nat)
    requires 1 <= version <= 40 && (|tail| < 4 || HighValue(tail[..4]) == 0)
    ensures ReadSegments(tail, version) == Some([])
  {
  }

  lemma SegmentBack(s: Segment, version: nat, rest: seq<bool>)
    requires Legal(s) && 1 <= version <= 40 && Length(s) < Pow2(LengthBits(Mode(s), version))
    ensures ReadSegments(SegmentBits(s, version) + rest, version)
         == match ReadSegments(rest, version)
            case None => None
            case Some(more) => Some([s] + more)
  {
    hide HighFirst, Payload, LengthBits, CountWidth, ReadPayload, Pow2, Take;
    WidthsAgree(s, version);
    var l := LengthBits(Mode(s), version);
    var counted := HighFirst(Length(s), l) + (Payload(s) + rest);
    var bits := SegmentBits(s, version) + rest;
    assert Mode(s) < Pow2(4) by { Powers(); }
    TakeBack(Mode(s), 4, counted);
    TakeBack(Length(s), l, Payload(s) + rest);
    PayloadBack(s, rest);
    assert bits == HighFirst(Mode(s), 4) + counted;
    assert Take(bits, 4) == (Mode(s), counted) && Take(counted, l) == (Length(s), Payload(s) + rest);
  }

  lemma PayloadBack(s: Segment, later: seq<bool>)
    requires Legal(s)
    ensures ReadPayload(Mode(s), Length(s), Payload(s) + later) == Read(s, later)
  {
    match s
    case Numeric(d) => NumericBack(d, later);
    case Alphanumeric(c) => AlphanumericBack(c, later);
    case Bytes(b) => BytesBack(b, later);
  }

  // ----- payload sizes

  lemma {:induction false} PayloadSize(s: Segment)
    requires Legal(s)
    ensures match s
            case Numeric(d) => 3 * |Payload(s)| >= 10 * |d|
            case Alphanumeric(c) => 2 * |Payload(s)| >= 11 * |c|
            case Bytes(b) => |Payload(s)| == 8 * |b|
    decreases Length(s)
  {
    match s
    case Numeric(d) => if |d| >= 3 { PayloadSize(Numeric(d[3..])); }
    case Alphanumeric(c) => if |c| >= 2 { PayloadSize(Alphanumeric(c[2..])); }
    case Bytes(b) => if b != [] { PayloadSize(Bytes(b[1..])); }
  }

  // The length of a payload, as section 7.4 of the standard gives it.
  function PayloadLength(mode: nat, count: nat): nat {
    if mode == 1 then 10 * (count / 3) + (if count % 3 == 0 then 0 else if count % 3 == 1 then 4 else 7)
    else if mode == 2 then 11 * (count / 2) + 6 * (count % 2)
    else 8 * count
  }

  lemma {:induction false} PayloadLengthIs(s: Segment)
    requires Legal(s)
    ensures |Payload(s)| == PayloadLength(Mode(s), Length(s))
    decreases Length(s)
  {
    hide HighFirst, Number, GetCode;
    match s
    case Numeric(d) => if |d| >= 3 { PayloadLengthIs(Numeric(d[3..])); }
    case Alphanumeric(c) => if |c| >= 2 { PayloadLengthIs(Alphanumeric(c[2..])); }
    case Bytes(b) => if b != [] { PayloadLengthIs(Bytes(b[1..])); }
  }

  // A segment takes its mode, its count and its payload.
  lemma SegmentLength(s: Segment, version: nat)
    requires Legal(s) && 1 <= version <= 40
    ensures |SegmentBits(s, version)| == 4 + CountWidth(Mode(s), version) + PayloadLength(Mode(s), Length(s))
  {
    hide Payload, HighFirst;
    WidthsAgree(s, version);
    PayloadLengthIs(s);
  }

  lemma {:induction false} SegmentInAll(segments: seq<Segment>, version: nat, i: nat)
    requires AllLegal(segments) && 1 <= version <= 40 && i < |segments|
    ensures |Payload(segments[i])| <= |AllBits(segments, version)|
  {
    if i > 0 { SegmentInAll(segments[1..], version, i - 1); }
  }
}
