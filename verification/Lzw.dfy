/** The LZW code stream of assets/js/qrcode.js:2127-2217, against a GIF89a Appendix F decoder.

    A key is the string of pixels (or of the two reserved codes) a table entry stands for. */
module Lzw {
  import opened Prelude
  import opened Bits

  type Key = seq<nat>

  const CLEAR := 4
  const END := 5
  const FULL := 0xfff

  const INITIAL: seq<Key> := [[0], [1], [2], [3], [CLEAR], [END]]

  // A code and the width it is written at.
  datatype Emit = Emit(code: nat, width: nat)

  datatype Encoded = Encoded(emits: seq<Emit>, size: nat, width: nat)

  // The table after `s + c` was not found in it, and the width from then on.
  function Grow(keys: seq<Key>, width: nat, key: Key): (seq<Key>, nat) {
    if |keys| < FULL then (keys + [key], if |keys| == Pow2(width) then width + 1 else width)
    else (keys, width)
  }

  // The loop over the pixels still to come, s being the string matched so far.
  function Encode(keys: seq<Key>, width: nat, s: Key, rest: seq<nat>): Encoded
    decreases |rest|
  {
    if rest == [] then Encoded([Emit(IndexOf(keys, s), width)], |keys|, width)
    else
      var c := rest[0];
      if s + [c] in keys then Encode(keys, width, s + [c], rest[1..])
      else
        var (grown, wider) := Grow(keys, width, s + [c]);
        var e := Encode(grown, wider, [c], rest[1..]);
        e.(emits := [Emit(IndexOf(keys, s), width)] + e.emits)
  }

  // ----- what the encoder keeps

  ghost predicate TableOk(keys: seq<Key>) {
    && Distinct(keys)
    && 6 <= |keys| <= FULL
    && keys[..6] == INITIAL
    && forall k :: k in keys ==> k != []
  }

  // The narrowest width whose codes reach the table's last entry.
  ghost predicate WidthOk(size: nat, width: nat) {
    && 3 <= width <= 12
    && size <= Pow2(width)
    && (width > 3 ==> Pow2(width - 1) < size)
  }

  ghost predicate Pixels(data: seq<nat>) {
    forall k :: 0 <= k < |data| ==> data[k] < 4
  }

  lemma GrowOk(keys: seq<Key>, width: nat, key: Key)
    requires TableOk(keys) && WidthOk(|keys|, width) && key !in keys && key != []
    ensures var (grown, wider) := Grow(keys, width, key); TableOk(grown) && WidthOk(|grown|, wider)
  {
    Powers();
    if |keys| == Pow2(width) && width == 12 { assert false; }
  }

  lemma SingletonIn(keys: seq<Key>, c: nat)
    requires TableOk(keys) && c < 4
    ensures [c] in keys
  {
    assert keys[c] == keys[..6][c] == INITIAL[c];
  }

  /** Every code fits the width it is written at and names an entry, no width exceeds 12, and the
      end code fits the last width. */
  lemma {:induction false} CodesFit(keys: seq<Key>, width: nat, s: Key, rest: seq<nat>)
    requires TableOk(keys) && WidthOk(|keys|, width) && s in keys && Pixels(rest)
    ensures var e := Encode(keys, width, s, rest);
            && WidthOk(e.size, e.width) && 6 <= e.size <= FULL
            && forall k :: 0 <= k < |e.emits| ==>
                 e.emits[k].code < Pow2(e.emits[k].width) && 3 <= e.emits[k].width <= 12
    decreases |rest|
  {
    if rest != [] {
      var c := rest[0];
      if s + [c] in keys {
        CodesFit(keys, width, s + [c], rest[1..]);
      } else {
        GrowOk(keys, width, s + [c]);
        var (grown, wider) := Grow(keys, width, s + [c]);
        SingletonIn(grown, c);
        CodesFit(grown, wider, [c], rest[1..]);
      }
    }
  }

  // ----- the reference decoder, which knows the minimum code size m of its image block

  // The clear code, the end of information and the first table, as Appendix F of GIF89a has them.
  function ClearCode(m: nat): nat {
    Pow2(m)
  }

  function EndOfInformation(m: nat): nat {
    Pow2(m) + 1
  }

  function FirstTable(m: nat): (t: seq<Key>)
    ensures |t| == Pow2(m) + 2
  {
    seq(Pow2(m), i requires 0 <= i < Pow2(m) => [i]) + [[ClearCode(m)], [EndOfInformation(m)]]
  }

  // The width it reads next with so many entries: one more than m, until the table outgrows it.
  function CodeWidth(m: nat, size: nat): nat {
    WidthFrom(size, m + 1)
  }

  function WidthFrom(size: nat, width: nat): nat
    decreases 12 - width
  {
    if width >= 12 || size < Pow2(width) then width else WidthFrom(size, width + 1)
  }

  // That width for two-bit pixels.
  function ReadWidth(size: nat): nat {
    if size < 8 then 3 else if size < 16 then 4 else if size < 32 then 5 else if size < 64 then 6
    else if size < 128 then 7 else if size < 256 then 8 else if size < 512 then 9
    else if size < 1024 then 10 else if size < 2048 then 11 else 12
  }

  lemma {:induction false} WidthFromIs(size: nat, width: nat)
    requires 3 <= width <= 12 && (width > 3 ==> size >= Pow2(width - 1))
    ensures WidthFrom(size, width) == ReadWidth(size)
    decreases 12 - width
  {
    Powers();
    assert width == 3 || width == 4 || width == 5 || width == 6 || width == 7 || width == 8
        || width == 9 || width == 10 || width == 11 || width == 12;
    hide Pow2;
    if width < 12 && size >= Pow2(width) { WidthFromIs(size, width + 1); }
  }

  lemma CodeWidthIs(size: nat)
    ensures CodeWidth(2, size) == ReadWidth(size)
  {
    WidthFromIs(size, 3);
  }

  // The encoder starts from the same table and uses the same two codes.
  lemma SameCodes()
    ensures FirstTable(2) == INITIAL && ClearCode(2) == CLEAR && EndOfInformation(2) == END
  {
    Powers();
  }

  // The string a code stands for: an entry, or the one being defined by this very code.
  function Entry(m: nat, table: seq<Key>, prev: Key, code: nat): Option<Key> {
    if code == ClearCode(m) || code == EndOfInformation(m) then None
    else if code < |table| then Some(table[code])
    else if code == |table| && prev != [] then Some(prev + [prev[0]])
    else None
  }

  function Learn(table: seq<Key>, prev: Key, entry: Key): seq<Key>
    requires entry != []
  {
    if prev == [] || |table| >= 4096 then table else table + [prev + [entry[0]]]
  }

  datatype Decoded = Decoded(pixels: seq<nat>, table: seq<Key>, left: seq<bool>)

  // Reads codes until `want` pixels came out. prev is empty before the first code.
  function Decode(m: nat, bits: seq<bool>, table: seq<Key>, prev: Key, want: nat): Option<Decoded>
    decreases want
  {
    if want == 0 then Some(Decoded([], table, bits))
    else
      var w := CodeWidth(m, |table|);
      if |bits| < w then None
      else
        match Entry(m, table, prev, LowValue(bits[..w]))
        case None => None
        case Some(entry) =>
          if entry == [] || |entry| > want then None
          else
            match Decode(m, bits[w..], Learn(table, prev, entry), entry, want - |entry|)
            case None => None
            case Some(d) => Some(d.(pixels := entry + d.pixels))
  }

  // The bits a list of codes is written as.
  function Written(emits: seq<Emit>): seq<bool> {
    if emits == [] then [] else LowFirst(emits[0].code, emits[0].width) + Written(emits[1..])
  }

  // The decoder is one entry behind: it has yet to learn the last string the encoder added, whose
  // final pixel c is the first of the string being matched now.
  ghost predicate InStep(keys: seq<Key>, table: seq<Key>, prev: Key, c: nat) {
    && |table| <= 4096
    && if prev == [] then table == keys == INITIAL
       else if |keys| <= |table| then |keys| == FULL && keys == table[..|keys|]
       else keys == table + [prev + [c]]
  }

  lemma ReadWidthIs(size: nat, width: nat)
    requires 3 <= width <= 12 && size < Pow2(width) && (width > 3 ==> Pow2(width - 1) <= size)
    ensures ReadWidth(size) == width
  {
    Powers();
    assert width == 3 || width == 4 || width == 5 || width == 6 || width == 7 || width == 8
        || width == 9 || width == 10 || width == 11 || width == 12;
  }

  lemma WidthsAgree(keys: seq<Key>, width: nat, table: seq<Key>, prev: Key, c: nat)
    requires TableOk(keys) && WidthOk(|keys|, width) && InStep(keys, table, prev, c)
    ensures ReadWidth(|table|) == width
  {
    Powers();
    if |keys| == FULL && width < 12 { Pow2Monotone(width, 11); }
    if |table| < 4096 { ReadWidthIs(|table|, width); }
  }

  // The decoder reads back the string the encoder matched, including the one it has not learnt yet.
  lemma EntryIs(keys: seq<Key>, table: seq<Key>, prev: Key, s: Key)
    requires TableOk(keys) && s in keys && s[0] < 4 && InStep(keys, table, prev, s[0])
    ensures Entry(2, table, prev, IndexOf(keys, s)) == Some(s)
  {
    var k := IndexOf(keys, s);
    assert keys[4] == keys[..6][4] == [CLEAR] && keys[5] == keys[..6][5] == [END];
    if k < |table| {
      assert table[k] == keys[k];
    } else {
      assert s == prev + [s[0]];
    }
  }

  lemma StaysInStep(keys: seq<Key>, width: nat, table: seq<Key>, prev: Key, s: Key, c: nat)
    requires TableOk(keys) && s != [] && InStep(keys, table, prev, s[0])
    ensures InStep(Grow(keys, width, s + [c]).0, Learn(table, prev, s), s, c)
  {
  }

  // When the pixels are complete the decoder would read next at the width the end code was written
  // at, or one more if the table ended exactly full for that width.
  lemma LastWidth(keys: seq<Key>, width: nat, table: seq<Key>, prev: Key, s: Key)
    requires TableOk(keys) && WidthOk(|keys|, width) && s != [] && InStep(keys, table, prev, s[0])
    ensures ReadWidth(|Learn(table, prev, s)|) == if |keys| == Pow2(width) then width + 1 else width
  {
    Powers();
    var n := |Learn(table, prev, s)|;
    if |keys| == FULL {
      if width < 12 { Pow2Monotone(width, 11); }
    } else if |keys| == Pow2(width) {
      if width == 12 { assert false; }
      ReadWidthIs(n, width + 1);
    } else {
      ReadWidthIs(n, width);
    }
  }

  function Prepend(s: Key, d: Option<Decoded>): Option<Decoded> {
    match d
    case None => None
    case Some(d) => Some(d.(pixels := s + d.pixels))
  }

  // Reading one code written at the width the decoder expects.
  lemma DecodeOne(s: Key, code: nat, width: nat, later: seq<bool>, table: seq<Key>, prev: Key, want: nat)
    requires s != [] && |s| <= want && code < Pow2(width) && ReadWidth(|table|) == width
    requires Entry(2, table, prev, code) == Some(s)
    ensures Decode(2, LowFirst(code, width) + later, table, prev, want)
         == Prepend(s, Decode(2, later, Learn(table, prev, s), s, want - |s|))
  {
    hide CodeWidth, ReadWidth, Entry, Learn, Pow2, LowFirst, LowValue;
    var bits := LowFirst(code, width) + later;
    CodeWidthIs(|table|);
    LowRoundTrip(code, width);
    assert bits[..width] == LowFirst(code, width) && bits[width..] == later;
  }

  // Pixels complete, `tail` unread, and the next width off by one when the table is exactly full.
  ghost predicate Recovered(d: Option<Decoded>, pixels: seq<nat>, tail: seq<bool>, e: Encoded) {
    && d.Some? && d.value.pixels == pixels && d.value.left == tail
    && ReadWidth(|d.value.table|) == if e.size == Pow2(e.width) then e.width + 1 else e.width
  }

  /** From any point of the encoding the decoder recovers the string in hand and the pixels still
      to come, and stops in front of what follows. */
  lemma {:induction false} DecodeInverts(
    keys: seq<Key>, width: nat, s: Key, rest: seq<nat>, table: seq<Key>, prev: Key, tail: seq<bool>)
    requires TableOk(keys) && WidthOk(|keys|, width) && s in keys && Pixels(s) && Pixels(rest)
    requires InStep(keys, table, prev, s[0])
    ensures var e := Encode(keys, width, s, rest);
            Recovered(Decode(2, Written(e.emits) + tail, table, prev, |s| + |rest|), s + rest, tail, e)
    decreases |rest|
  {
    hide Decode, Written, InStep, ReadWidth, CodeWidth, Entry, Learn, Pow2, IndexOf;
    if rest == [] {
      WidthsAgree(keys, width, table, prev, s[0]);
      EntryIs(keys, table, prev, s);
      LastInverts(keys, width, s, table, prev, tail);
      assert s + [] == s;
    } else if s + [rest[0]] in keys {
      DecodeInverts(keys, width, s + [rest[0]], rest[1..], table, prev, tail);
      assert s + [rest[0]] + rest[1..] == s + rest;
    } else {
      var c := rest[0];
      var (grown, wider) := Grow(keys, width, s + [c]);
      GrowOk(keys, width, s + [c]);
      SingletonIn(grown, c);
      StaysInStep(keys, width, table, prev, s, c);
      DecodeInverts(grown, wider, [c], rest[1..], Learn(table, prev, s), s, tail);
      WidthsAgree(keys, width, table, prev, s[0]);
      EntryIs(keys, table, prev, s);
      MissInverts(keys, width, s, rest, table, prev, tail);
    }
  }

  // A string that ends here, given that the rest is recovered after it.
  lemma MissInverts(keys: seq<Key>, width: nat, s: Key, rest: seq<nat>, table: seq<Key>, prev: Key, tail: seq<bool>)
    requires s != [] && IndexOf(keys, s) < Pow2(width)
    requires rest != [] && s + [rest[0]] !in keys
    requires ReadWidth(|table|) == width && Entry(2, table, prev, IndexOf(keys, s)) == Some(s)
    requires var (grown, wider) := Grow(keys, width, s + [rest[0]]);
             var later := Encode(grown, wider, [rest[0]], rest[1..]);
             Recovered(Decode(2, Written(later.emits) + tail, Learn(table, prev, s), s, |rest|), rest, tail, later)
    ensures var e := Encode(keys, width, s, rest);
            Recovered(Decode(2, Written(e.emits) + tail, table, prev, |s| + |rest|), s + rest, tail, e)
  {
    hide Decode, ReadWidth, Entry, Learn, Pow2, IndexOf, Grow, LowFirst;
    var (grown, wider) := Grow(keys, width, s + [rest[0]]);
    var later := Encode(grown, wider, [rest[0]], rest[1..]);
    var e := Encode(keys, width, s, rest);
    DecodeOne(s, IndexOf(keys, s), width, Written(later.emits) + tail, table, prev, |s| + |rest|);
    assert e.emits[1..] == later.emits;
    assert Written(e.emits) + tail == LowFirst(IndexOf(keys, s), width) + (Written(later.emits) + tail);
  }

  lemma LastInverts(keys: seq<Key>, width: nat, s: Key, table: seq<Key>, prev: Key, tail: seq<bool>)
    requires TableOk(keys) && WidthOk(|keys|, width) && s in keys && InStep(keys, table, prev, s[0])
    requires ReadWidth(|table|) == width && Entry(2, table, prev, IndexOf(keys, s)) == Some(s)
    ensures var e := Encode(keys, width, s, []);
            Recovered(Decode(2, Written(e.emits) + tail, table, prev, |s|), s, tail, e)
  {
    var code := IndexOf(keys, s);
    LastWidth(keys, width, table, prev, s);
    DecodeOne(s, code, width, tail, table, prev, |s|);
    assert Written([Emit(code, width)]) == LowFirst(code, width) + Written([]);
    assert LowFirst(code, width) + [] == LowFirst(code, width);
    assert s + [] == s;
  }

  // ----- the whole raster

  function Stream(data: seq<nat>): seq<bool>
    requires data != []
  {
    var e := Encode(INITIAL, 3, [data[0]], data[1..]);
    LowFirst(CLEAR, 3) + Written(e.emits) + LowFirst(END, e.width)
  }

  // What a GIF reader does with the bits of a raster when it knows the image's pixel count.
  function DecodeRaster(m: nat, bits: seq<bool>, want: nat): Option<seq<nat>> {
    if |bits| < m + 1 || LowValue(bits[..m + 1]) != ClearCode(m) then None
    else match Decode(m, bits[m + 1..], FirstTable(m), [], want)
      case None => None
      case Some(d) => Some(d.pixels)
  }

  // And one that insists on finding the end of information where its own width says it is.
  function EndsWell(m: nat, bits: seq<bool>, want: nat): bool {
    |bits| >= m + 1 &&
    match Decode(m, bits[m + 1..], FirstTable(m), [], want)
    case None => false
    case Some(d) =>
      var w := CodeWidth(m, |d.table|);
      |d.left| >= w && LowValue(d.left[..w]) == EndOfInformation(m)
  }

  lemma InitialOk()
    ensures TableOk(INITIAL) && WidthOk(|INITIAL|, 3)
  {
    Powers();
  }

  /** Decoding the raster gives the pixels back, whatever the flush pads it with. */
  lemma RasterRoundTrip(data: seq<nat>, padding: seq<bool>)
    requires data != [] && Pixels(data)
    ensures DecodeRaster(2, Stream(data) + padding, |data|) == Some(data)
  {
    InitialOk();
    SingletonIn(INITIAL, data[0]);
    var e := Encode(INITIAL, 3, [data[0]], data[1..]);
    var tail := LowFirst(END, e.width) + padding;
    DecodeInverts(INITIAL, 3, [data[0]], data[1..], INITIAL, [], tail);
    SameCodes();
    StreamParts(data, padding);
    assert [data[0]] + data[1..] == data;
  }

  lemma StreamParts(data: seq<nat>, padding: seq<bool>)
    requires data != []
    ensures var e := Encode(INITIAL, 3, [data[0]], data[1..]);
            var bits := Stream(data) + padding;
            |bits| >= 3 && LowValue(bits[..3]) == CLEAR
            && bits[3..] == Written(e.emits) + (LowFirst(END, e.width) + padding)
  {
    Powers();
    LowRoundTrip(CLEAR, 3);
    var e := Encode(INITIAL, 3, [data[0]], data[1..]);
    AfterThree(LowFirst(CLEAR, 3), Written(e.emits), LowFirst(END, e.width), padding);
  }

  lemma AfterThree(a: seq<bool>, b: seq<bool>, c: seq<bool>, d: seq<bool>)
    requires |a| == 3
    ensures (a + b + c + d)[..3] == a && (a + b + c + d)[3..] == b + (c + d)
  {
  }

  // ----- the end code

  // How many entries the encoder's table ends with.
  function TableSize(data: seq<nat>): nat
    requires data != []
  {
    Encode(INITIAL, 3, [data[0]], data[1..]).size
  }

  // A stream and the zero bits that flush fills its last byte with.
  function Flushed(bits: seq<bool>): seq<bool> {
    bits + Falses(ByteGap(|bits|))
  }

  // When the table ends at a power of two the decoder, which has learnt an entry that the encoder
  // never used to widen its codes, reads one bit more than the end code was written with. A zero
  // bit behind it, if there is one, leaves the value as it is.
  lemma EndsWellIff(data: seq<nat>, zeros: nat)
    requires data != [] && Pixels(data)
    ensures var e := Encode(INITIAL, 3, [data[0]], data[1..]);
            EndsWell(2, Stream(data) + Falses(zeros), |data|) <==> e.size != Pow2(e.width) || zeros > 0
  {
    hide TableOk, Encode, Stream, Pow2, Decode, Written, ReadWidth, CodeWidth, FirstTable, ClearCode, EndOfInformation,
      LowFirst, LowValue;
    InitialOk();
    SingletonIn(INITIAL, data[0]);
    var e := Encode(INITIAL, 3, [data[0]], data[1..]);
    CodesFit(INITIAL, 3, [data[0]], data[1..]);
    var tail := LowFirst(END, e.width) + Falses(zeros);
    StartsInStep(data[0]);
    DecodeInverts(INITIAL, 3, [data[0]], data[1..], INITIAL, [], tail);
    SameCodes();
    CodeWidthIs(|Decode(2, Written(e.emits) + tail, INITIAL, [], |data|).value.table|);
    StreamParts(data, Falses(zeros));
    assert |[data[0]]| + |data[1..]| == |data|;
    EndCodeBits(e.width, zeros);
  }

  lemma StartsInStep(c: nat)
    ensures InStep(INITIAL, INITIAL, [], c)
  {
  }

  // The end code read at its own width, and one bit wider over the zeros of the flush.
  lemma EndCodeBits(width: nat, zeros: nat)
    requires width >= 3
    ensures var tail := LowFirst(END, width) + Falses(zeros);
      LowValue(tail[..width]) == END && (zeros > 0 ==> LowValue(tail[..width + 1]) == END)
  {
    Powers();
    Pow2Monotone(3, width);
    Pow2Monotone(3, width + 1);
    LowRoundTrip(END, width);
    LowRoundTrip(END, width + 1);
    LowSplit(END, width, 1);
    ShrZero(END, width);
    LowZeros(1);
    hide LowFirst, LowValue;
    var tail := LowFirst(END, width) + Falses(zeros);
    assert tail[..width] == LowFirst(END, width);
    if zeros > 0 { assert tail[..width + 1] == LowFirst(END, width) + Falses(1); }
  }

  // ----- how long the stream is

  // The width of the code written while the table holds n entries: the decoder is one behind.
  function WidthAt(n: nat): nat
    requires n > 0
  {
    ReadWidth(n - 1)
  }

  // The bits of one code for each table size from 6 to n.
  function BitsUpTo(n: nat): nat {
    if n <= 5 then 0 else BitsUpTo(n - 1) + WidthAt(n)
  }

  lemma WidthAtIs(size: nat, width: nat)
    requires size >= 6 && WidthOk(size, width)
    ensures WidthAt(size) == width
  {
    Powers();
    ReadWidthIs(size - 1, width);
  }

  // A code is written at each table size once, for as long as the table grows.
  lemma {:induction false} WrittenLength(keys: seq<Key>, width: nat, s: Key, rest: seq<nat>)
    requires TableOk(keys) && WidthOk(|keys|, width) && s in keys && Pixels(rest)
    ensures var e := Encode(keys, width, s, rest);
            |keys| <= e.size && (e.size < FULL ==> |Written(e.emits)| == BitsUpTo(e.size) - BitsUpTo(|keys| - 1))
    decreases |rest|
  {
    hide TableOk, WidthOk, IndexOf, LowFirst, Grow, ReadWidth;
    var e := Encode(keys, width, s, rest);
    OneCode(keys, width, s);
    if rest == [] {
    } else if s + [rest[0]] in keys {
      WrittenLength(keys, width, s + [rest[0]], rest[1..]);
    } else {
      var (grown, wider) := Grow(keys, width, s + [rest[0]]);
      NextKeys(keys, width, s, rest[0]);
      WrittenLength(grown, wider, [rest[0]], rest[1..]);
      var later := Encode(grown, wider, [rest[0]], rest[1..]);
      assert e.emits[1..] == later.emits;
    }
  }

  // Taking a new string in: the table stays as it should be and holds one entry more unless full.
  lemma NextKeys(keys: seq<Key>, width: nat, s: Key, c: nat)
    requires TableOk(keys) && WidthOk(|keys|, width) && s + [c] !in keys && c < 4
    ensures var (grown, wider) := Grow(keys, width, s + [c]);
      && TableOk(grown) && WidthOk(|grown|, wider) && [c] in grown
      && |grown| == if |keys| < FULL then |keys| + 1 else |keys|
  {
    GrowOk(keys, width, s + [c]);
    SingletonIn(Grow(keys, width, s + [c]).0, c);
  }

  lemma OneCode(keys: seq<Key>, width: nat, s: Key)
    requires TableOk(keys) && WidthOk(|keys|, width)
    ensures |keys| >= 6 && BitsUpTo(|keys|) == BitsUpTo(|keys| - 1) + width
    ensures Written([Emit(IndexOf(keys, s), width)]) == LowFirst(IndexOf(keys, s), width)
  {
    WidthAtIs(|keys|, width);
    hide LowFirst;
    assert [Emit(IndexOf(keys, s), width)][1..] == [];
    assert LowFirst(IndexOf(keys, s), width) + [] == LowFirst(IndexOf(keys, s), width);
  }

  lemma {:induction false} SameWidths(a: nat, b: nat, width: nat)
    requires 5 <= a <= b && (a < b ==> ReadWidth(a) == width && ReadWidth(b - 1) == width)
    ensures BitsUpTo(b) == BitsUpTo(a) + (b - a) * width
  {
    if a < b {
      SameWidths(a, b - 1, width);
      assert (b - a) * width == (b - 1 - a) * width + width;
    }
  }

  // Clear code, data codes and end code, when the table ends full for its width.
  lemma FullTableLengths()
    ensures 6 + BitsUpTo(8) == 15 && 7 + BitsUpTo(16) == 48 && 8 + BitsUpTo(32) == 129 && 9 + BitsUpTo(64) == 322
    ensures 10 + BitsUpTo(128) == 771 && 11 + BitsUpTo(256) == 1796 && 12 + BitsUpTo(512) == 4101
    ensures 13 + BitsUpTo(1024) == 9222 && 14 + BitsUpTo(2048) == 20487
  {
    assert BitsUpTo(5) == 0;
    SameWidths(5, 8, 3);
    SameWidths(8, 16, 4);
    SameWidths(16, 32, 5);
    SameWidths(32, 64, 6);
    SameWidths(64, 128, 7);
    SameWidths(128, 256, 8);
    SameWidths(256, 512, 9);
    SameWidths(512, 1024, 10);
    SameWidths(1024, 2048, 11);
  }

  lemma StreamLength(data: seq<nat>)
    requires data != [] && Pixels(data) && TableSize(data) < FULL
    ensures |Stream(data)| == 3 + BitsUpTo(TableSize(data)) + Encode(INITIAL, 3, [data[0]], data[1..]).width
  {
    InitialOk();
    SingletonIn(INITIAL, data[0]);
    assert BitsUpTo(5) == 0;
    WrittenLength(INITIAL, 3, [data[0]], data[1..]);
  }

  // Of the streams whose table ends at a power of two only the one of 16 entries ends with a byte.
  lemma EndsWithByte(size: nat, width: nat)
    requires WidthOk(size, width) && size == Pow2(width) < FULL
    ensures (3 + BitsUpTo(size) + width) % 8 == 0 <==> size == 16
  {
    hide BitsUpTo;
    FullTableLengths();
    Powers();
    assert width == 3 || width == 4 || width == 5 || width == 6 || width == 7 || width == 8
        || width == 9 || width == 10 || width == 11 || width == 12;
  }

  /** Read on from the flushed bytes, the end code is where a decoder that goes on counting table
      entries looks for it, exactly when the encoder's table did not end with 16 entries. */
  lemma EndCodeReadableIff(data: seq<nat>)
    requires data != [] && Pixels(data)
    ensures EndsWell(2, Flushed(Stream(data)), |data|) <==> TableSize(data) != 16
  {
    hide EndsWell, Stream, Encode, BitsUpTo, TableOk, Pow2;
    var e := Encode(INITIAL, 3, [data[0]], data[1..]);
    var n := |Stream(data)|;
    EndsWellIff(data, ByteGap(n));
    InitialOk();
    SingletonIn(INITIAL, data[0]);
    CodesFit(INITIAL, 3, [data[0]], data[1..]);
    Powers();
    if e.size == Pow2(e.width) {
      if e.width == 12 { assert false; }
      Pow2Monotone(e.width, 11);
      StreamLength(data);
      EndsWithByte(e.size, e.width);
    } else if e.size == 16 {
      Sixteen(e.width);
    }
  }

  lemma Sixteen(width: nat)
    requires WidthOk(16, width)
    ensures 16 == Pow2(width)
  {
    Powers();
    if width > 4 { Pow2Monotone(4, width - 1); }
  }

  // ----- when that is

  // The most pixels the codes written at table sizes 6 to n can stand for: the k-th at most k.
  function PixelsUpTo(n: nat): nat {
    if n <= 5 then 0 else PixelsUpTo(n - 1) + n - 5
  }

  ghost predicate ShortKeys(keys: seq<Key>) {
    forall k :: k in keys ==> |k| <= |keys| - 5
  }

  lemma {:induction false} PixelsCovered(keys: seq<Key>, width: nat, s: Key, rest: seq<nat>)
    requires TableOk(keys) && WidthOk(|keys|, width) && s in keys && Pixels(rest) && ShortKeys(keys)
    ensures var e := Encode(keys, width, s, rest);
            |keys| <= e.size && (e.size < FULL ==> |s| + |rest| <= PixelsUpTo(e.size) - PixelsUpTo(|keys| - 1))
    decreases |rest|
  {
    hide TableOk, WidthOk, IndexOf, Grow;
    OneCode(keys, width, s);
    if rest == [] {
    } else if s + [rest[0]] in keys {
      PixelsCovered(keys, width, s + [rest[0]], rest[1..]);
    } else {
      var (grown, wider) := Grow(keys, width, s + [rest[0]]);
      NextKeys(keys, width, s, rest[0]);
      StaysShort(keys, width, s + [rest[0]]);
      PixelsCovered(grown, wider, [rest[0]], rest[1..]);
    }
  }

  lemma StaysShort(keys: seq<Key>, width: nat, key: Key)
    requires ShortKeys(keys) && |key| <= |keys| - 4
    ensures ShortKeys(Grow(keys, width, key).0)
  {
  }

  /** Eleven codes stand for at most 66 pixels, so the end code of every larger raster is found;
      the smallest symbol, of version 1 without a margin, has 441. */
  lemma LargeRastersEndWell(data: seq<nat>)
    requires Pixels(data) && |data| > 66
    ensures EndsWell(2, Flushed(Stream(data)), |data|)
  {
    hide EndsWell, Encode, TableOk;
    InitialOk();
    SingletonIn(INITIAL, data[0]);
    PixelsCovered(INITIAL, 3, [data[0]], data[1..]);
    EndCodeReadableIff(data);
    MostPixels();
  }

  lemma MostPixels()
    ensures PixelsUpTo(5) == 0 && PixelsUpTo(16) == 66
  {
    assert PixelsUpTo(8) == 6;
    assert PixelsUpTo(11) == 21;
    assert PixelsUpTo(14) == 45;
  }

  // ----- a raster whose end code is missed

  // Two neighbouring pixels as a key.
  function Pair(data: seq<nat>, i: nat): Key
    requires i + 1 < |data|
  {
    [data[i], data[i + 1]]
  }

  // No two neighbours come twice, and none are in the table.
  ghost predicate NewPairs(keys: seq<Key>, data: seq<nat>) {
    && (forall i :: 0 <= i < |data| - 1 ==> Pair(data, i) !in keys)
    && (forall i, j :: 0 <= i < j < |data| - 1 ==> Pair(data, i) != Pair(data, j))
  }

  lemma {:induction false} OneCodeEach(keys: seq<Key>, width: nat, data: seq<nat>)
    requires data != [] && NewPairs(keys, data) && |keys| + |data| <= FULL
    ensures Encode(keys, width, [data[0]], data[1..]).size == |keys| + |data| - 1
    decreases |data|
  {
    hide NewPairs, IndexOf;
    if |data| > 1 {
      assert Pair(data, 0) == [data[0]] + [data[1]];
      PairsLeft(keys, data);
      var (grown, wider) := Grow(keys, width, Pair(data, 0));
      OneCodeEach(grown, wider, data[1..]);
    }
  }

  lemma PairsLeft(keys: seq<Key>, data: seq<nat>)
    requires |data| > 1 && NewPairs(keys, data)
    ensures Pair(data, 0) !in keys && NewPairs(keys + [Pair(data, 0)], data[1..])
  {
    var rest := data[1..];
    assert forall i :: 0 <= i < |rest| - 1 ==> Pair(rest, i) == Pair(data, i + 1);
    hide Pair;
  }

  const ELEVEN: seq<nat> := [0, 0, 1, 1, 2, 2, 3, 3, 0, 2, 0]

  /** No two neighbours of these come twice, so eleven codes are written and the table ends at 16. */
  lemma ElevenPixels()
    ensures Pixels(ELEVEN) && !EndsWell(2, Flushed(Stream(ELEVEN)), |ELEVEN|)
  {
    hide EndsWell, Encode, Stream, Flushed;
    OneCodeEach(INITIAL, 3, ELEVEN) by { ElevenPairs(); }
    EndCodeReadableIff(ELEVEN);
  }

  lemma ElevenPairs()
    ensures NewPairs(INITIAL, ELEVEN)
  {
  }
}
