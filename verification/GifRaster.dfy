/** lzwTable, bitOutputStream and getLZWRaster of assets/js/qrcode.js:2092-2217, as they run. */
module GifRaster {
  import opened Prelude
  import opened Bits
  import opened Lzw

  class LzwTable {
    var entries: map<Key, nat>
    var count: nat
    ghost var keys: seq<Key>   // by code

    ghost predicate Valid()
      reads this
    {
      && count == |keys| && Distinct(keys)
      && (forall k :: k in entries <==> k in keys)
      && forall i :: 0 <= i < |keys| ==> keys[i] in entries && entries[keys[i]] == i
    }

    constructor ()
      ensures Valid() && keys == []
    {
      entries, count, keys := map[], 0, [];
    }

    // False where the source throws 'dup key'.
    method Add(key: Key) returns (ok: bool)
      requires Valid()
      modifies this
      ensures Valid()
      ensures ok <==> key !in old(keys)
      ensures keys == if ok then old(keys) + [key] else old(keys)
    {
      if key in entries { return false; }
      entries := entries[key := count];
      count := count + 1;
      keys := keys + [key];
      return true;
    }

    method CodeOf(key: Key) returns (code: nat)
      requires Valid() && key in keys
      ensures code == IndexOf(keys, key)
    {
      code := entries[key];
    }
  }

  ghost function BytesLow(bytes: seq<nat>): (s: seq<bool>)
    ensures |s| == 8 * |bytes|
  {
    if bytes == [] then [] else BytesLow(bytes[..|bytes| - 1]) + LowFirst(bytes[|bytes| - 1], 8)
  }

  lemma BytesLowSnoc(bytes: seq<nat>, b: nat)
    ensures BytesLow(bytes + [b]) == BytesLow(bytes) + LowFirst(b, 8)
  {
    assert (bytes + [b])[..|bytes + [b]| - 1] == bytes;
  }

  class BitOutputStream {
    var bytes: seq<nat>   // what reached the byte stream
    var bitLength: nat
    var bitBuffer: nat

    ghost predicate Valid()
      reads this
    {
      && bitLength < 8 && bitBuffer < Pow2(bitLength)
      && forall k :: 0 <= k < |bytes| ==> bytes[k] < 256
    }

    // Every bit written so far, in order.
    ghost function Written(): seq<bool>
      reads this
    {
      BytesLow(bytes) + LowFirst(bitBuffer, bitLength)
    }

    constructor ()
      ensures Valid() && Written() == []
    {
      bytes, bitLength, bitBuffer := [], 0, 0;
    }

    // False where the source throws 'length over'.
    method Write(data: nat, length: nat) returns (ok: bool)
      requires Valid()
      modifies this
      ensures Valid()
      ensures ok <==> data < Pow2(length)
      ensures Written() == if ok then old(Written()) + LowFirst(data, length) else old(Written())
    {
      ShrZero(data, length);
      if Shr(data, length) != 0 { return false; }
      var d, left := data, length;
      while bitLength + left >= 8
        invariant Valid() && Shr(d, left) == 0
        invariant Written() + LowFirst(d, left) == old(Written()) + LowFirst(data, length)
        decreases left, bitLength
      {
        d, left := WriteByte(d, left);
      }
      Keep(d, left);
      return true;
    }

    // The body of write's loop: a full byte goes out, made of the buffer and the low bits of d.
    method WriteByte(d: nat, left: nat) returns (d': nat, left': nat)
      requires Valid() && bitLength + left >= 8 && Shr(d, left) == 0
      modifies this
      ensures Valid() && bitLength == 0
      ensures left' == left - (8 - old(bitLength)) && Shr(d', left') == 0
      ensures Written() + LowFirst(d', left') == old(Written()) + LowFirst(d, left)
    {
      hide Shl, Shr, LowFirst, BytesLow;
      ghost var before := bytes;
      var byte := (Shl(d, bitLength) + bitBuffer) % 256;
      ByteOut(d, bitLength, bitBuffer, left);
      BytesLowSnoc(bytes, byte);
      bytes := bytes + [byte];
      left' := left - (8 - bitLength);
      d' := Shr(d, 8 - bitLength);
      Reassociate(BytesLow(before), LowFirst(bitBuffer, bitLength), LowFirst(d, left),
                  LowFirst(byte, 8), LowFirst(d', left'));
      bitBuffer, bitLength := 0, 0;
      assert LowFirst(0, 0) == [];
      assert BytesLow(bytes) + [] == BytesLow(bytes);
    }

    // The last statements of write: fewer than eight bits stay in the buffer.
    method Keep(d: nat, left: nat)
      requires Valid() && bitLength + left < 8 && Shr(d, left) == 0
      modifies this
      ensures Valid() && Written() == old(Written()) + LowFirst(d, left)
    {
      ShrZero(d, left);
      ShlFits(d, bitLength, bitBuffer, left);
      LowJoin(bitBuffer, d, bitLength, left);
      assert BytesLow(bytes) + (LowFirst(bitBuffer, bitLength) + LowFirst(d, left))
          == BytesLow(bytes) + LowFirst(bitBuffer, bitLength) + LowFirst(d, left);
      bitBuffer := Shl(d, bitLength) + bitBuffer;
      bitLength := bitLength + left;
    }

    // Fewer than eight zero bits fill the last byte.
    method Flush()
      requires Valid()
      modifies this
      ensures forall k :: 0 <= k < |bytes| ==> bytes[k] < 256
      ensures BytesLow(bytes) == Flushed(old(Written()))
    {
      hide Shr, LowFirst, BytesLow, Shl;
      assert |Written()| % 8 == bitLength;
      if bitLength > 0 {
        PaddedByte(BytesLow(bytes), bitBuffer, bitLength);
        Pow2Monotone(bitLength, 8);
        Shl8(0);
        BytesLowSnoc(bytes, bitBuffer);
        bytes := bytes + [bitBuffer];
      } else {
        assert Written() + Falses(0) == BytesLow(bytes) + LowFirst(bitBuffer, 0) + [] == BytesLow(bytes);
      }
    }
  }

  // A whole byte of a buffer that holds k bits: they, then zeros.
  lemma PaddedByte(head: seq<bool>, buffer: nat, k: nat)
    requires k <= 8 && buffer < Pow2(k)
    ensures head + LowFirst(buffer, 8) == head + LowFirst(buffer, k) + Falses(8 - k)
  {
    hide LowFirst, Shr;
    LowSplit(buffer, k, 8 - k);
    ShrZero(buffer, k);
    LowZeros(8 - k);
    assert head + (LowFirst(buffer, k) + Falses(8 - k)) == head + LowFirst(buffer, k) + Falses(8 - k);
  }

  lemma Reassociate(a: seq<bool>, b: seq<bool>, c: seq<bool>, d: seq<bool>, e: seq<bool>)
    requires b + c == d + e
    ensures a + b + c == a + d + e
  {
    assert a + b + c == a + (b + c) == a + (d + e);
  }

  // The byte completed from the buffer and the low bits of d, and what is left of d.
  lemma ByteOut(d: nat, k: nat, buffer: nat, left: nat)
    requires k < 8 && buffer < Pow2(k) && k + left >= 8
    ensures LowFirst(buffer, k) + LowFirst(d, left)
         == LowFirst((Shl(d, k) + buffer) % 256, 8) + LowFirst(Shr(d, 8 - k), left - (8 - k))
    ensures Shr(Shr(d, 8 - k), left - (8 - k)) == Shr(d, left)
  {
    var n := Shl(d, k) + buffer;
    LowJoin(buffer, d, k, left);
    LowSplit(n, 8, k + left - 8);
    LowByte(n);
    ShrJoin(buffer, d, k, 8 - k);
    ShrShr(d, 8 - k, left - (8 - k));
  }

  lemma {:induction false} ShrShr(n: nat, a: nat, b: nat)
    ensures Shr(Shr(n, a), b) == Shr(n, a + b)
  {
    if a > 0 { ShrShr(n / 2, a - 1, b); }
  }

  lemma {:induction false} ShlFits(d: nat, k: nat, a: nat, left: nat)
    requires a < Pow2(k) && d < Pow2(left)
    ensures Shl(d, k) + a < Pow2(k + left)
  {
    if k > 0 { ShlFits(d, k - 1, a / 2, left); }
  }

  // What the loop of the encoder has done and still has to do.
  ghost predicate Underway(
    table: LzwTable, bitOut: BitOutputStream, width: nat, s: Key, rest: seq<nat>, emitted: seq<Emit>, all: Encoded)
    reads table, bitOut
  {
    && table.Valid() && bitOut.Valid() && TableOk(table.keys) && WidthOk(|table.keys|, width)
    && s in table.keys
    && bitOut.Written() == LowFirst(CLEAR, 3) + Lzw.Written(emitted)
    && var e := Encode(table.keys, width, s, rest);
       all == Encoded(emitted + e.emits, e.size, e.width)
  }

  // Writes the code of the string matched so far.
  method WriteCode(table: LzwTable, bitOut: BitOutputStream, width: nat, s: Key, ghost emitted: seq<Emit>)
    requires table.Valid() && bitOut.Valid() && TableOk(table.keys) && WidthOk(|table.keys|, width) && s in table.keys
    requires bitOut.Written() == LowFirst(CLEAR, 3) + Lzw.Written(emitted)
    modifies bitOut
    ensures bitOut.Valid()
    ensures bitOut.Written() == LowFirst(CLEAR, 3) + Lzw.Written(emitted + [Emit(IndexOf(table.keys, s), width)])
  {
    var code := table.CodeOf(s);
    var ok := bitOut.Write(code, width);
    assert ok;   // never 'length over'
    WrittenSnoc(emitted, Emit(code, width), LowFirst(CLEAR, 3));
  }

  // The else branch: the string plus c is new.
  method Miss(table: LzwTable, bitOut: BitOutputStream, width: nat, s: Key, c: nat,
              ghost rest: seq<nat>, ghost emitted: seq<Emit>, ghost all: Encoded)
    returns (wider: nat, ghost emitted': seq<Emit>)
    requires Underway(table, bitOut, width, s, [c] + rest, emitted, all)
    requires s + [c] !in table.keys && c < 4
    modifies table, bitOut
    ensures Underway(table, bitOut, wider, [c], rest, emitted', all)
  {
    hide TableOk, WidthOk, Pow2, IndexOf, Lzw.Written, BytesLow, LowFirst;
    emitted' := emitted + [Emit(IndexOf(table.keys, s), width)];
    ghost var e := Encode(table.keys, width, s, [c] + rest);
    assert ([c] + rest)[1..] == rest;
    GrowOk(table.keys, width, s + [c]);
    WriteCode(table, bitOut, width, s, emitted);
    ghost var (grown, w) := Grow(table.keys, width, s + [c]);
    SingletonIn(grown, c);
    ghost var later := Encode(grown, w, [c], rest);
    assert emitted + e.emits == emitted' + later.emits;
    wider := AddKey(table, width, s + [c]);
  }

  method AddKey(table: LzwTable, width: nat, key: Key) returns (wider: nat)
    requires table.Valid() && key !in table.keys
    modifies table
    ensures table.Valid() && (table.keys, wider) == Grow(old(table.keys), width, key)
  {
    wider := width;
    if table.count < FULL {
      if table.count == Pow2(width) { wider := width + 1; }
      var ok := table.Add(key);
      assert ok;   // never 'dup key'
    }
  }

  lemma Hit(table: LzwTable, bitOut: BitOutputStream, width: nat, s: Key, c: nat,
            rest: seq<nat>, emitted: seq<Emit>, all: Encoded)
    requires Underway(table, bitOut, width, s, [c] + rest, emitted, all) && s + [c] in table.keys
    ensures Underway(table, bitOut, width, s + [c], rest, emitted, all)
  {
    assert ([c] + rest)[1..] == rest;
  }

  // The table with its six entries, and the clear code.
  method Begin(data: seq<nat>) returns (table: LzwTable, bitOut: BitOutputStream)
    requires data != [] && Pixels(data)
    ensures fresh(table) && fresh(bitOut)
    ensures Underway(table, bitOut, 3, [data[0]], data[1..], [], Encode(INITIAL, 3, [data[0]], data[1..]))
  {
    hide BytesLow, LowFirst;
    table := new LzwTable();
    FillTable(table);
    bitOut := new BitOutputStream();
    InitialOk();
    Powers();
    var ok := bitOut.Write(CLEAR, 3);
    SingletonIn(INITIAL, data[0]);
    ghost var all := Encode(INITIAL, 3, [data[0]], data[1..]);
    assert [] + all.emits == all.emits;
    assert [] + LowFirst(CLEAR, 3) == LowFirst(CLEAR, 3) + [];
  }

  /** The encoder never throws, and what it returns decodes to the pixels it was given, with the end
      code found behind them exactly when the table did not end with 16 entries. */
  method GetLZWRaster(data: seq<nat>) returns (raster: seq<nat>)
    requires data != [] && Pixels(data)
    ensures forall k :: 0 <= k < |raster| ==> raster[k] < 256
    ensures DecodeRaster(2, BytesLow(raster), |data|) == Some(data)
    ensures EndsWell(2, BytesLow(raster), |data|) <==> TableSize(data) != 16
  {
    hide TableOk, WidthOk, BytesLow, LowFirst, DecodeRaster, EndsWell, TableSize, Encode, Lzw.Written,
      BitOutputStream.Written;
    var table, bitOut := Begin(data);
    var bitLength := 3;
    ghost var all := Encode(INITIAL, 3, [data[0]], data[1..]);
    ghost var emitted: seq<Emit> := [];
    var s := [data[0]];
    var dataIndex := 1;
    while dataIndex < |data|
      invariant 1 <= dataIndex <= |data| && fresh(table) && fresh(bitOut)
      invariant Underway(table, bitOut, bitLength, s, data[dataIndex..], emitted, all)
    {
      var c := data[dataIndex];
      dataIndex := dataIndex + 1;
      assert data[dataIndex - 1..] == [c] + data[dataIndex..];
      if s + [c] in table.entries {
        Hit(table, bitOut, bitLength, s, c, data[dataIndex..], emitted, all);
        s := s + [c];
      } else {
        bitLength, emitted := Miss(table, bitOut, bitLength, s, c, data[dataIndex..], emitted, all);
        s := [c];
      }
    }
    assert data[dataIndex..] == [];
    raster := Finish(table, bitOut, bitLength, s, emitted, all, data);
  }

  // The two codes after the loop, and the flush.
  method Finish(table: LzwTable, bitOut: BitOutputStream, width: nat, s: Key,
                ghost emitted: seq<Emit>, ghost all: Encoded, ghost data: seq<nat>)
    returns (raster: seq<nat>)
    requires Underway(table, bitOut, width, s, [], emitted, all)
    requires data != [] && Pixels(data) && all == Encode(INITIAL, 3, [data[0]], data[1..])
    modifies bitOut
    ensures forall k :: 0 <= k < |raster| ==> raster[k] < 256
    ensures DecodeRaster(2, BytesLow(raster), |data|) == Some(data)
    ensures EndsWell(2, BytesLow(raster), |data|) <==> TableSize(data) != 16
  {
    hide BytesLow, LowFirst, DecodeRaster, EndsWell, TableSize, Lzw.Written;
    WriteCode(table, bitOut, width, s, emitted);
    assert all.emits == emitted + [Emit(IndexOf(table.keys, s), width)] && all.width == width;
    Powers();
    Pow2Monotone(3, width);
    var ok := bitOut.Write(END, width);
    assert ok;
    assert bitOut.Written() == Stream(data);
    bitOut.Flush();
    raster := bitOut.bytes;
    RasterRoundTrip(data, Falses(ByteGap(|Stream(data)|)));
    EndCodeReadableIff(data);
  }

  method FillTable(table: LzwTable)
    requires table.Valid() && table.keys == []
    modifies table
    ensures table.Valid() && table.keys == INITIAL
  {
    for i := 0 to 6
      invariant table.Valid() && table.keys == INITIAL[..i]
    {
      assert INITIAL[..i + 1] == INITIAL[..i] + [[i]];
      var ok := table.Add([i]);
    }
  }

  lemma {:induction false} WrittenAppend(emits: seq<Emit>, e: Emit)
    ensures Lzw.Written(emits + [e]) == Lzw.Written(emits) + LowFirst(e.code, e.width)
  {
    hide LowFirst;
    if emits == [] {
      assert emits + [e] == [e];
    } else {
      WrittenAppend(emits[1..], e);
      assert (emits + [e])[1..] == emits[1..] + [e];
    }
  }

  lemma WrittenSnoc(emits: seq<Emit>, e: Emit, head: seq<bool>)
    ensures head + Lzw.Written(emits + [e]) == head + Lzw.Written(emits) + LowFirst(e.code, e.width)
  {
    hide LowFirst, Lzw.Written;
    WrittenAppend(emits, e);
  }
}
