/** base64EncodeOutputStream and base64DecodeInputStream of assets/js/qrcode.js:1879-2006.

    Both keep a 32-bit buffer that is shifted and never cleared between bytes. It is a number here:
    a left shift multiplies and wraps at 2^32, and or-ing into the freed low bits adds. */
module Base64Stream {
  import opened Bits
  import opened Prelude

  const WIDTH: nat := 0x1_0000_0000

  // ----- the alphabet

  function Encode(n: nat): char
    requires n < 64
  {
    if n < 26 then (0x41 + n) as char
    else if n < 52 then (0x61 + (n - 26)) as char
    else if n < 62 then (0x30 + (n - 52)) as char
    else if n == 62 then '+'
    else '/'
  }

  function Decode(c: char): (n: Option<nat>)
    ensures n.Some? ==> n.value < 64
  {
    var code := c as int;
    if 0x41 <= code <= 0x5a then Some(code - 0x41)
    else if 0x61 <= code <= 0x7a then Some(code - 0x61 + 26)
    else if 0x30 <= code <= 0x39 then Some(code - 0x30 + 52)
    else if code == 0x2b then Some(62)
    else if code == 0x2f then Some(63)
    else None
  }

  lemma DecodeEncode(n: nat)
    requires n < 64
    ensures Decode(Encode(n)) == Some(n) && Encode(n) != '=' && !IsSpace(Encode(n))
  {
  }

  // ----- section 4 of RFC 4648: three bytes are four characters, and a short group is padded

  function Rfc4648(bytes: seq<Octet>): string {
    if |bytes| == 0 then ""
    else if |bytes| == 1 then [Encode(bytes[0] / 4), Encode(bytes[0] % 4 * 16), '=', '=']
    else if |bytes| == 2 then
      [Encode(bytes[0] / 4), Encode(bytes[0] % 4 * 16 + bytes[1] / 16), Encode(bytes[1] % 16 * 4), '=']
    else Group(bytes[0], bytes[1], bytes[2]) + Rfc4648(bytes[3..])
  }

  function Group(a: Octet, b: Octet, c: Octet): string {
    [Encode(a / 4), Encode(a % 4 * 16 + b / 16), Encode(b % 16 * 4 + c / 64), Encode(c % 64)]
  }

  // The characters whose six bits are all known.
  function Complete(bytes: seq<Octet>): string {
    if |bytes| == 0 then ""
    else if |bytes| == 1 then [Encode(bytes[0] / 4)]
    else if |bytes| == 2 then [Encode(bytes[0] / 4), Encode(bytes[0] % 4 * 16 + bytes[1] / 16)]
    else Group(bytes[0], bytes[1], bytes[2]) + Complete(bytes[3..])
  }

  function Last(bytes: seq<Octet>): Octet {
    if bytes == [] then 0 else bytes[|bytes| - 1]
  }

  // What one more byte completes.
  function Completed(bytes: seq<Octet>, b: Octet): string {
    if |bytes| % 3 == 0 then [Encode(b / 4)]
    else if |bytes| % 3 == 1 then [Encode(Last(bytes) % 4 * 16 + b / 16)]
    else [Encode(Last(bytes) % 16 * 4 + b / 64), Encode(b % 64)]
  }

  lemma {:induction false} CompleteGrows(bytes: seq<Octet>, b: Octet)
    ensures Complete(bytes + [b]) == Complete(bytes) + Completed(bytes, b)
  {
    hide Encode, Group, Completed;
    if |bytes| >= 3 {
      CompleteGrows(bytes[3..], b);
      CompletedTail(bytes, b);
      assert (bytes + [b])[3..] == bytes[3..] + [b];
    } else {
      CompleteGrowsShort(bytes, b);
    }
  }

  lemma CompletedTail(bytes: seq<Octet>, b: Octet)
    requires |bytes| >= 3
    ensures Completed(bytes[3..], b) == Completed(bytes, b)
  {
    hide Encode;
    assert Last(bytes[3..]) == Last(bytes) || |bytes| % 3 == 0;
  }

  lemma CompleteGrowsShort(bytes: seq<Octet>, b: Octet)
    requires |bytes| < 3
    ensures Complete(bytes + [b]) == Complete(bytes) + Completed(bytes, b)
  {
    hide Encode, Complete, Completed;
    if |bytes| == 0 {
      assert bytes + [b] == [b];
      CompleteShort(b, b, b);
    } else if |bytes| == 1 {
      assert bytes == [bytes[0]] && bytes + [b] == [bytes[0], b];
      CompleteShort(bytes[0], b, b);
    } else {
      assert bytes == [bytes[0], bytes[1]] && bytes + [b] == [bytes[0], bytes[1], b];
      CompleteShort(bytes[0], bytes[1], b);
    }
  }

  lemma CompleteShort(x: Octet, y: Octet, z: Octet)
    ensures Complete([]) == "" && Completed([], x) == [Encode(x / 4)] == Complete([x])
    ensures Complete([x, y]) == Complete([x]) + Completed([x], y)
    ensures Complete([x, y, z]) == Complete([x, y]) + Completed([x, y], z)
  {
    hide Encode;
    assert [x, y, z][3..] == [];
  }

  // The last character of a short group, and its padding.
  function Rest(bytes: seq<Octet>): string {
    if |bytes| % 3 == 0 then ""
    else if |bytes| % 3 == 1 then [Encode(Last(bytes) % 4 * 16), '=', '=']
    else [Encode(Last(bytes) % 16 * 4), '=']
  }

  lemma {:induction false} RfcIsComplete(bytes: seq<Octet>)
    ensures Rfc4648(bytes) == Complete(bytes) + Rest(bytes)
  {
    hide Encode;
    if |bytes| >= 3 {
      RfcIsComplete(bytes[3..]);
      assert Last(bytes[3..]) == Last(bytes) || |bytes| % 3 == 0;
    }
  }

  // ----- the encoder

  lemma Split4(x: nat, q: nat, r: nat)
    requires x == 4 * q + r && r < 4
    ensures x / 4 == q && x % 4 == r && Shr(x, 2) == q
  {
    assert x / 2 == 2 * q + r / 2;
    assert Shr(x, 2) == Shr(x / 2, 1) == x / 2 / 2;
  }

  lemma Split16(x: nat, q: nat, r: nat)
    requires x == 16 * q + r && r < 16
    ensures x / 16 == q && x % 16 == r && Shr(x, 4) == q
  {
    Split4(x, 4 * q + r / 4, r % 4);
    Split4(4 * q + r / 4, q, r / 4);
    assert Shr(x, 4) == Shr(x / 2, 3) == Shr(x / 2 / 2, 2);
    assert Shr(x, 2) == Shr(x / 2, 1) == x / 2 / 2;
  }

  lemma Split64(x: nat, q: nat, r: nat)
    requires x == 64 * q + r && r < 64
    ensures x / 64 == q && x % 64 == r && Shr(x, 6) == q
  {
    Split4(x, 16 * q + r / 4, r % 4);
    Split16(16 * q + r / 4, q, r / 4);
    assert Shr(x, 6) == Shr(x / 2, 5) == Shr(x / 2 / 2, 4);
    assert Shr(x, 2) == Shr(x / 2, 1) == x / 2 / 2;
  }

  function ShiftLeft(n: nat, k: nat): nat {
    Shl(n, k) % WIDTH
  }

  lemma Wrapped(n: nat, q: nat, r: nat)
    requires n == WIDTH * q + r && r < WIDTH
    ensures n % WIDTH == r
  {
  }

  // The buffer shifted by a byte: its low bits are kept, whatever was above them.
  lemma ShiftedByte(buffer: nat) returns (r: nat)
    ensures ShiftLeft(buffer, 8) == 256 * r && r % 4 == buffer % 4 && r % 16 == buffer % 16
  {
    var q := buffer / 0x100_0000;
    r := buffer % 0x100_0000;
    Shl8(buffer);
    Wrapped(256 * buffer, q, 256 * r);
    Split4(buffer, 0x40_0000 * q + r / 4, r % 4);
    Split16(buffer, 0x10_0000 * q + r / 16, r % 16);
  }

  // The buffer after a byte.
  function Pushed(buffer: nat, n: Octet): nat {
    ShiftLeft(buffer, 8) + n
  }

  lemma PushedFirst(buffer: nat, n: Octet)
    ensures Shr(Pushed(buffer, n), 2) % 64 == n / 4 && Pushed(buffer, n) % 4 == n % 4
  {
    hide ShiftLeft, Shr;
    var r := ShiftedByte(buffer);
    Split4(256 * r + n, 64 * r + n / 4, n % 4);
    Split64(64 * r + n / 4, r, n / 4);
  }

  lemma PushedSecond(buffer: nat, n: Octet)
    ensures Shr(Pushed(buffer, n), 4) % 64 == buffer % 4 * 16 + n / 16 && Pushed(buffer, n) % 16 == n % 16
  {
    hide ShiftLeft, Shr;
    var r := ShiftedByte(buffer);
    Split16(256 * r + n, 16 * r + n / 16, n % 16);
    Split64(16 * r + n / 16, r / 4, r % 4 * 16 + n / 16);
  }

  lemma PushedThird(buffer: nat, n: Octet)
    ensures Shr(Pushed(buffer, n), 6) % 64 == buffer % 16 * 4 + n / 64 && Pushed(buffer, n) % 64 == n % 64
  {
    hide ShiftLeft, Shr;
    var r := ShiftedByte(buffer);
    Split64(256 * r + n, 4 * r + n / 64, n % 64);
    Split64(4 * r + n / 64, r / 16, r % 16 * 4 + n / 64);
  }

  lemma FlushedBits(buffer: nat)
    ensures ShiftLeft(buffer, 4) % 64 == buffer % 4 * 16
    ensures ShiftLeft(buffer, 2) % 64 == buffer % 16 * 4
  {
    hide Shl;
    Shl24(buffer);
    LowOfWrapped(16 * buffer, buffer / 4, buffer % 4 * 16);
    LowOfWrapped(4 * buffer, buffer / 16, buffer % 16 * 4);
  }

  lemma Shl24(n: nat)
    ensures Shl(n, 4) == 16 * n && Shl(n, 2) == 4 * n
  {
    assert Shl(n, 1) == 2 * n;
    assert Shl(n, 2) == 4 * n;
    assert Shl(n, 3) == 8 * n;
  }

  lemma LowOfWrapped(n: nat, q: nat, r: nat)
    requires n == 64 * q + r && r < 64
    ensures n % WIDTH % 64 == r
  {
    var h := q / 0x400_0000;
    var l := q % 0x400_0000;
    Wrapped(n, h, 64 * l + r);
    Split64(64 * l + r, l, r);
  }

  lemma CompletedCount(bytes: seq<Octet>, b: Octet)
    ensures |Completed(bytes, b)| == if |bytes| % 3 == 2 then 2 else 1
  {
  }

  ghost predicate Pending(bytes: seq<Octet>, buffer: nat, buflen: nat) {
    && buflen == |bytes| % 3 * 2
    && (buflen == 2 ==> buffer % 4 == Last(bytes) % 4)
    && (buflen == 4 ==> buffer % 16 == Last(bytes) % 16)
  }

  // The k-th character a byte completes stands in the buffer above the lowest buflen - 6 bits.
  lemma Sextet(bytes: seq<Octet>, b: Octet, buffer: nat, buflen: nat, k: nat)
    requires Pending(bytes, buffer, |bytes| % 3 * 2)
    requires buflen == |bytes| % 3 * 2 + 8 - 6 * k && buflen >= 6
    ensures k < |Completed(bytes, b)|
    ensures Completed(bytes, b)[k] == Encode(Shr(Pushed(buffer, b), buflen - 6) % 64)
  {
    hide Pushed, Encode;
    PushedFirst(buffer, b); PushedSecond(buffer, b); PushedThird(buffer, b);
    assert Shr(Pushed(buffer, b), 0) == Pushed(buffer, b);
    hide Shr;
  }

  // The bits that wait for the next byte.
  lemma Kept(bytes: seq<Octet>, b: Octet, buffer: nat)
    ensures Pending(bytes + [b], Pushed(buffer, b), |bytes + [b]| % 3 * 2)
  {
    hide Pushed;
    PushedFirst(buffer, b); PushedSecond(buffer, b);
    assert Last(bytes + [b]) == b;
  }

  class Encoder {
    var buffer: nat
    var buflen: nat
    var length: nat
    var base64: string
    ghost var written: seq<Octet>

    ghost predicate Valid()
      reads this
    {
      && length == |written|
      && base64 == Complete(written)
      && Pending(written, buffer, buflen)
    }

    constructor ()
      ensures Valid() && written == []
    {
      buffer, buflen, length, base64, written := 0, 0, 0, "", [];
    }

    // writeEncoded
    method WriteEncoded(n: nat)
      modifies this`base64
      ensures base64 == old(base64) + [Encode(n % 64)]
    {
      base64 := base64 + [Encode(n % 64)];
    }

    // The loop runs once, or twice for the third byte of a group.
    method WriteByte(n: int)
      requires Valid()
      modifies this
      ensures Valid() && written == old(written) + [n % 256]
    {
      hide Encode, Complete, Pushed, Shr, Completed;
      var b: Octet := n % 256;
      ghost var due := Completed(written, b);
      ghost var before := buffer;
      CompleteGrows(written, b);
      CompletedCount(written, b);
      buffer := Pushed(buffer, b);
      buflen := buflen + 8;
      length := length + 1;
      ghost var k: nat := 0;
      assert due[..0] == [];
      while buflen >= 6
        invariant buflen == |old(written)| % 3 * 2 + 8 - 6 * k
        invariant written == old(written) && length == |written| + 1 && buffer == Pushed(before, b)
        invariant k <= |due| && base64 == old(base64) + due[..k]
      {
        Sextet(old(written), b, before, buflen, k);
        WriteEncoded(Shr(buffer, buflen - 6));
        assert base64 == old(base64) + (due[..k] + [due[k]]);
        assert due[..k + 1] == due[..k] + [due[k]];
        buflen, k := buflen - 6, k + 1;
      }
      assert due[..k] == due;
      written := written + [b];
      Kept(old(written), b, before);
    }

    // What was written so far is then the text of RFC 4648.
    method Flush()
      requires Valid()
      modifies this
      ensures base64 == Rfc4648(written) && written == old(written) && buflen == 0
    {
      hide Encode, Complete, Rfc4648, ShiftLeft;
      RfcIsComplete(written);
      if buflen > 0 {
        FlushedBits(buffer);
        WriteEncoded(ShiftLeft(buffer, 6 - buflen));
        buffer, buflen := 0, 0;
      }
      if length % 3 != 0 {
        var padlen := 3 - length % 3;
        var i := 0;
        while i < padlen
          invariant i <= padlen <= 2
          invariant written == old(written) && buflen == 0
          invariant Complete(written) + Rest(written) == base64 + ["==", "=", ""][2 - padlen + i]
        {
          base64 := base64 + "=";
          i := i + 1;
        }
      }
    }
  }

  // The loop of createDataURL (assets/js/qrcode.js:2233-2240).
  method EncodeAll(bytes: seq<Octet>) returns (text: string)
    ensures text == Rfc4648(bytes)
  {
    var base64 := new Encoder();
    for i := 0 to |bytes|
      invariant base64.Valid() && fresh(base64) && base64.written == bytes[..i]
    {
      base64.WriteByte(bytes[i]);
    }
    assert bytes[..|bytes|] == bytes;
    base64.Flush();
    text := base64.base64;
  }

  // ----- the decoder

  datatype Outcome = Byte(n: Octet) | EndOfText | UnexpectedEnd | BadCharacter

  // The buffer after a character.
  function Next(buffer: nat, n: nat): nat
    requires n < 64
  {
    ShiftLeft(buffer, 6) + n
  }

  // What read does with the rest of the text, the buffer and the number of bits pending in it.
  datatype Reading = Reading(outcome: Outcome, rest: string, buffer: nat, buflen: nat)

  function Read(rest: string, buffer: nat, buflen: nat): (r: Reading)
    ensures |r.rest| <= |rest|
    ensures r.outcome.Byte? && buflen < 8 ==> |r.rest| < |rest| && r.buflen < 8
    decreases |rest|
  {
    if buflen >= 8 then
      Reading(Byte(Shr(buffer, buflen - 8) % 256), rest, buffer, buflen - 8)
    else if rest == "" then
      Reading(if buflen == 0 then EndOfText else UnexpectedEnd, rest, buffer, buflen)
    else if rest[0] == '=' then
      Reading(EndOfText, rest[1..], buffer, 0)
    else if IsSpace(rest[0]) then
      Read(rest[1..], buffer, buflen)
    else
      match Decode(rest[0])
      case None => Reading(BadCharacter, rest[1..], buffer, buflen)
      case Some(n) => Read(rest[1..], Next(buffer, n), buflen + 6)
  }

  class Decoder {
    const str: string
    var pos: nat
    var buffer: nat
    var buflen: nat

    constructor (str: string)
      ensures this.str == str && pos == 0 && buflen == 0
    {
      this.str, pos, buffer, buflen := str, 0, 0, 0;
    }

    method ReadByte() returns (outcome: Outcome)
      requires pos <= |str|
      modifies this
      ensures pos <= |str|
      ensures Reading(outcome, str[pos..], buffer, buflen) == old(Read(str[pos..], buffer, buflen))
    {
      hide Next, Shr, Decode, IsSpace;
      ghost var all := Read(str[pos..], buffer, buflen);
      while buflen < 8
        invariant pos <= |str| && Read(str[pos..], buffer, buflen) == all
        decreases |str| - pos
      {
        if pos >= |str| {
          return if buflen == 0 then EndOfText else UnexpectedEnd;
        }
        var c := str[pos];
        pos := pos + 1;
        assert str[pos - 1..][1..] == str[pos..];
        if c == '=' {
          buflen := 0;
          return EndOfText;
        } else if IsSpace(c) {
          continue;
        }
        var n := Decode(c);
        if n.None? { return BadCharacter; }
        buffer := Next(buffer, n.value);
        buflen := buflen + 6;
      }
      outcome := Byte(Shr(buffer, buflen - 8) % 256);
      buflen := buflen - 8;
    }
  }

  // Reading on until something other than a byte comes.
  function ReadOn(rest: string, buffer: nat, buflen: nat): (r: (seq<Octet>, Reading))
    requires buflen < 8
    decreases |rest|
  {
    var r := Read(rest, buffer, buflen);
    if r.outcome.Byte? then
      var more := ReadOn(r.rest, r.buffer, r.buflen);
      ([r.outcome.n] + more.0, more.1)
    else ([], r)
  }

  // ----- the round trip

  lemma Shl6(n: nat)
    ensures Shl(n, 6) == 64 * n
  {
    Shl24(n);
    assert Shl(n, 5) == 32 * n;
  }

  lemma ShiftedSextet(buffer: nat) returns (r: nat)
    ensures ShiftLeft(buffer, 6) == 64 * r && r % 4 == buffer % 4 && r % 16 == buffer % 16 && r % 64 == buffer % 64
  {
    hide Shl;
    var q := buffer / 0x400_0000;
    r := buffer % 0x400_0000;
    Shl6(buffer);
    Wrapped(64 * buffer, q, 64 * r);
    Split4(buffer, 0x100_0000 * q + r / 4, r % 4);
    Split16(buffer, 0x40_0000 * q + r / 16, r % 16);
    Split64(buffer, 0x10_0000 * q + r / 64, r % 64);
  }

  lemma Split256(x: nat, q: nat, r: nat)
    requires x == 256 * q + r && r < 256
    ensures x % 256 == r
  {
  }

  lemma NextLow(buffer: nat, n: nat)
    requires n < 64
    ensures Next(buffer, n) % 64 == n && Next(buffer, n) % 16 == n % 16 && Next(buffer, n) % 4 == n % 4
  {
    hide ShiftLeft, Shr;
    var r := ShiftedSextet(buffer);
    Split64(64 * r + n, r, n);
    Split16(64 * r + n, 4 * r + n / 16, n % 16);
    Split4(64 * r + n, 16 * r + n / 4, n % 4);
  }

  // The byte that twelve, ten or eight pending bits hold.
  lemma TopByte(buffer: nat, n: nat)
    requires n < 64
    ensures Shr(Next(buffer, n), 4) % 256 == buffer % 64 * 4 + n / 16
    ensures Shr(Next(buffer, n), 2) % 256 == buffer % 16 * 16 + n / 4
    ensures Next(buffer, n) % 256 == buffer % 4 * 64 + n
  {
    hide ShiftLeft, Shr;
    var r := ShiftedSextet(buffer);
    Split16(64 * r + n, 4 * r + n / 16, n % 16);
    Split256(4 * r + n / 16, r / 64, r % 64 * 4 + n / 16);
    Split4(64 * r + n, 16 * r + n / 4, n % 4);
    Split256(16 * r + n / 4, r / 16, r % 16 * 16 + n / 4);
    Split256(64 * r + n, r / 4, r % 4 * 64 + n);
  }

  lemma ReadCharacter(n: nat, rest: string, buffer: nat, buflen: nat)
    requires n < 64 && buflen < 8
    ensures Read([Encode(n)] + rest, buffer, buflen) == Read(rest, Next(buffer, n), buflen + 6)
  {
    DecodeEncode(n);
    hide Encode, Decode, IsSpace, Next, Shr;
    assert ([Encode(n)] + rest)[1..] == rest;
  }

  lemma ReadFull(rest: string, buffer: nat, buflen: nat)
    requires buflen >= 8
    ensures Read(rest, buffer, buflen) == Reading(Byte(Shr(buffer, buflen - 8) % 256), rest, buffer, buflen - 8)
  {
  }

  lemma FirstByte(a: Octet, v: nat, rest: string, buffer: nat) returns (after: nat)
    requires v < 64 && v / 16 == a % 4
    ensures Read([Encode(a / 4)] + ([Encode(v)] + rest), buffer, 0) == Reading(Byte(a), rest, after, 4)
    ensures after % 16 == v % 16
  {
    hide Encode, Read, Next, Shr;
    var middle := Next(buffer, a / 4);
    after := Next(middle, v);
    ReadCharacter(a / 4, [Encode(v)] + rest, buffer, 0);
    ReadCharacter(v, rest, middle, 6);
    ReadFull(rest, after, 12);
    NextLow(buffer, a / 4); TopByte(middle, v); NextLow(middle, v);
  }

  lemma SecondByte(b: Octet, v: nat, rest: string, buffer: nat) returns (after: nat)
    requires v < 64 && v / 4 == b % 16 && buffer % 16 == b / 16
    ensures Read([Encode(v)] + rest, buffer, 4) == Reading(Byte(b), rest, after, 2)
    ensures after % 4 == v % 4
  {
    hide Encode, Read, Next, Shr;
    after := Next(buffer, v);
    ReadCharacter(v, rest, buffer, 4);
    ReadFull(rest, after, 10);
    TopByte(buffer, v); NextLow(buffer, v);
  }

  lemma ThirdByte(c: Octet, rest: string, buffer: nat) returns (after: nat)
    requires buffer % 4 == c / 64
    ensures Read([Encode(c % 64)] + rest, buffer, 2) == Reading(Byte(c), rest, after, 0)
  {
    hide Encode, Read, Next;
    after := Next(buffer, c % 64);
    ReadCharacter(c % 64, rest, buffer, 2);
    ReadFull(rest, after, 8);
    TopByte(buffer, c % 64);
  }

  // The sextets of a group.
  lemma Sextets(a: Octet, b: Octet, c: Octet)
    ensures var (v, w) := (a % 4 * 16 + b / 16, b % 16 * 4 + c / 64);
      && v / 16 == a % 4 && v % 16 == b / 16 && w / 4 == b % 16 && w % 4 == c / 64
  {
    hide Shr;
    Split16(a % 4 * 16 + b / 16, a % 4, b / 16);
    Split4(b % 16 * 4 + c / 64, b % 16, c / 64);
  }

  lemma GroupReads(a: Octet, b: Octet, c: Octet, rest: string, buffer: nat) returns (after: nat)
    ensures var more := ReadOn(rest, after, 0);
      ReadOn(Group(a, b, c) + rest, buffer, 0) == ([a, b, c] + more.0, more.1)
  {
    hide Encode, Read, ReadOn;
    var (v, w) := (a % 4 * 16 + b / 16, b % 16 * 4 + c / 64);
    var third := [Encode(c % 64)] + rest;
    var second := [Encode(w)] + third;
    Sextets(a, b, c);
    var x := FirstByte(a, v, second, buffer);
    var y := SecondByte(b, w, third, x);
    after := ThirdByte(c, rest, y);
    assert Group(a, b, c) + rest == [Encode(a / 4)] + ([Encode(v)] + second);
    ReadOnByte(Group(a, b, c) + rest, buffer, 0);
    ReadOnByte(second, x, 4);
    ReadOnByte(third, y, 2);
    assert [a] + ([b] + ([c] + ReadOn(rest, after, 0).0)) == [a, b, c] + ReadOn(rest, after, 0).0;
  }

  lemma ReadOnByte(rest: string, buffer: nat, buflen: nat)
    requires buflen < 8 && Read(rest, buffer, buflen).outcome.Byte?
    ensures var r := Read(rest, buffer, buflen);
      var more := ReadOn(r.rest, r.buffer, r.buflen);
      ReadOn(rest, buffer, buflen) == ([r.outcome.n] + more.0, more.1)
  {
  }

  // Nothing but padding is left, and reading again says so again.
  ghost predicate AtEnd(r: Reading) {
    r.outcome == EndOfText && r.buflen == 0 && r.rest in {"", "="}
  }

  lemma StaysAtEnd(r: Reading)
    requires AtEnd(r)
    ensures AtEnd(Read(r.rest, r.buffer, r.buflen))
  {
  }

  // Whatever the buffer held before, the encoder's text reads back as its bytes, then as the end.
  lemma {:induction false} RoundTrip(bytes: seq<Octet>, buffer: nat)
    ensures var r := ReadOn(Rfc4648(bytes), buffer, 0); r.0 == bytes && AtEnd(r.1)
  {
    hide Encode, Group, Read, AtEnd;
    if |bytes| == 0 {
      Ends("", buffer, 0);
    } else if |bytes| == 1 {
      var a := bytes[0];
      Sextets(a, 0, 0);
      assert Rfc4648(bytes) == [Encode(a / 4)] + ([Encode(a % 4 * 16)] + "==");
      var x := FirstByte(a, a % 4 * 16, "==", buffer);
      Ends("==", x, 4);
    } else if |bytes| == 2 {
      var (a, b) := (bytes[0], bytes[1]);
      var (v, w) := (a % 4 * 16 + b / 16, b % 16 * 4);
      Sextets(a, b, 0);
      assert Rfc4648(bytes) == [Encode(a / 4)] + ([Encode(v)] + ([Encode(w)] + "="));
      var x := FirstByte(a, v, [Encode(w)] + "=", buffer);
      var y := SecondByte(b, w, "=", x);
      Ends("=", y, 2);
      ReadOnByte([Encode(w)] + "=", x, 4);
    } else {
      var after := GroupReads(bytes[0], bytes[1], bytes[2], Rfc4648(bytes[3..]), buffer);
      RoundTrip(bytes[3..], after);
    }
  }

  lemma Ends(text: string, buffer: nat, buflen: nat)
    requires (text == "" && buflen == 0) || text in {"=", "=="}
    requires buflen < 8
    ensures !Read(text, buffer, buflen).outcome.Byte? && AtEnd(Read(text, buffer, buflen))
  {
  }

  // ----- white space

  function Strip(text: string): string {
    if text == "" then "" else if IsSpace(text[0]) then Strip(text[1..]) else [text[0]] + Strip(text[1..])
  }

  lemma {:induction false} ReadIgnoresSpace(text: string, buffer: nat, buflen: nat)
    ensures var (r, s) := (Read(text, buffer, buflen), Read(Strip(text), buffer, buflen));
      s == r.(rest := Strip(r.rest))
    decreases |text|
  {
    hide IsSpace, Decode, Next, Shr;
    assert !IsSpace('=') by { NotSpace(); }
    if buflen < 8 && text != "" {
      if IsSpace(text[0]) {
        ReadIgnoresSpace(text[1..], buffer, buflen);
      } else {
        assert Strip(text)[1..] == Strip(text[1..]);
        match Decode(text[0])
        case None =>
        case Some(n) => ReadIgnoresSpace(text[1..], Next(buffer, n), buflen + 6);
      }
    }
  }

  lemma NotSpace()
    ensures !IsSpace('=')
  {
  }

  // The encoder's text, broken by white space anywhere, still reads back.
  lemma {:induction false} SpacedRoundTrip(text: string, bytes: seq<Octet>, buffer: nat, buflen: nat)
    requires buflen < 8
    ensures ReadOn(text, buffer, buflen).0 == ReadOn(Strip(text), buffer, buflen).0
    ensures Strip(text) == Rfc4648(bytes) && buflen == 0 ==> ReadOn(text, buffer, 0).0 == bytes
    decreases |text|
  {
    hide Read, Strip, Rfc4648;
    ReadIgnoresSpace(text, buffer, buflen);
    var r := Read(text, buffer, buflen);
    if r.outcome.Byte? { SpacedRoundTrip(r.rest, bytes, r.buffer, r.buflen); }
    RoundTrip(bytes, buffer);
  }
}
