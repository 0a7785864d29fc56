/** buildZip of scripts/pack-source.mjs:84-117, and a reader that follows the end record, the
    central directory and the local headers (PKWARE APPNOTE sections 4.3.7, 4.3.12 and 4.3.16).

    Deflate is a parameter, names are UTF-8 bytes, and times and dates are DOS words. */
module Zip {
  import opened Prelude
  import opened Crc32

  type Bytes = seq<Octet>

  datatype Entry = Entry(name: Bytes, data: Bytes, time: nat, date: nat, mode: nat)

  // ----- little-endian words

  function Low(n: nat): (b: Octet)
    ensures b == n % 256
  {
    n % 256
  }

  function U16(n: nat): (s: Bytes)
    ensures |s| == 2
  {
    [Low(n), Low(n / 256)]
  }

  function U32(n: nat): (s: Bytes)
    ensures |s| == 4
  {
    [Low(n), Low(n / 0x100), Low(n / 0x1_0000), Low(n / 0x100_0000)]
  }

  function Read16(z: Bytes, p: nat): nat
    requires p + 2 <= |z|
  {
    z[p] as nat + 256 * (z[p + 1] as nat)
  }

  function Read32(z: Bytes, p: nat): nat
    requires p + 4 <= |z|
  {
    z[p] as nat + 0x100 * (z[p + 1] as nat) + 0x1_0000 * (z[p + 2] as nat) + 0x100_0000 * (z[p + 3] as nat)
  }

  // s stands at position p of z.
  predicate Stands(z: Bytes, p: nat, s: Bytes) {
    p + |s| <= |z| && z[p..p + |s|] == s
  }

  lemma StandsParts(z: Bytes, p: nat, a: Bytes, b: Bytes)
    requires Stands(z, p, a + b)
    ensures Stands(z, p, a) && Stands(z, p + |a|, b)
  {
    assert z[p..p + |a|] == (a + b)[..|a|];
    assert z[p + |a|..p + |a| + |b|] == (a + b)[|a|..];
  }

  lemma StandsAt(z: Bytes, p: nat, s: Bytes, k: nat)
    requires Stands(z, p, s) && k < |s|
    ensures p + |s| <= |z| && z[p + k] == s[k]
  {
    assert z[p..p + |s|][k] == z[p + k];
  }

  lemma Digits16(n: nat)
    ensures n % 256 + 256 * (n / 256 % 256) == n % 0x1_0000
  {
    var q := n / 256;
    LowWord(n, q / 256, q % 256, n % 256);
  }

  lemma LowWord(n: nat, a: nat, b: nat, r: nat)
    requires n == 0x1_0000 * a + 256 * b + r && b < 256 && r < 256
    ensures n % 0x1_0000 == 256 * b + r && n / 0x1_0000 == a
  {
  }

  lemma Digits32(n: nat)
    requires n < 0x1_0000_0000
    ensures n % 256 + 0x100 * (n / 0x100 % 256) + 0x1_0000 * (n / 0x1_0000 % 256) + 0x100_0000 * (n / 0x100_0000 % 256)
         == n
  {
    var h := n / 0x1_0000;
    Digits16(n); Digits16(h);
    assert h / 256 == n / 0x100_0000 && h % 0x1_0000 == h;
  }

  lemma Word16(z: Bytes, p: nat, n: nat)
    requires Stands(z, p, U16(n))
    ensures p + 2 <= |z| && Read16(z, p) == n % 0x1_0000
  {
    hide Stands;
    StandsAt(z, p, U16(n), 0); StandsAt(z, p, U16(n), 1);
    Digits16(n);
  }

  lemma Word32(z: Bytes, p: nat, n: nat)
    requires Stands(z, p, U32(n)) && n < 0x1_0000_0000
    ensures p + 4 <= |z| && Read32(z, p) == n
  {
    hide Stands;
    StandsAt(z, p, U32(n), 0); StandsAt(z, p, U32(n), 1); StandsAt(z, p, U32(n), 2); StandsAt(z, p, U32(n), 3);
    Digits32(n);
  }

  // ----- the records

  type Deflate = Bytes -> Bytes

  predicate Stored(deflate: Deflate, e: Entry) {
    |deflate(e.data)| >= |e.data|
  }

  function Body(deflate: Deflate, e: Entry): Bytes {
    if Stored(deflate, e) then e.data else deflate(e.data)
  }

  function Method(deflate: Deflate, e: Entry): nat {
    if Stored(deflate, e) then 0 else 8
  }

  function Words(data: Bytes): seq<bv8> {
    seq(|data|, i requires 0 <= i < |data| => data[i] as bv8)
  }

  function CrcOf(data: Bytes): (n: nat)
    ensures n < 0x1_0000_0000
  {
    BitwiseCrc(Words(data)) as nat
  }

  // The fields the two headers share, in three groups.
  function Versions(deflate: Deflate, e: Entry): Bytes {
    U16(20) + (U16(0x0800) + U16(Method(deflate, e)))
  }

  function Stamps(e: Entry): Bytes {
    U16(e.time) + U16(e.date)
  }

  function Lengths(deflate: Deflate, e: Entry): Bytes {
    U32(CrcOf(e.data)) + (U32(|Body(deflate, e)|) + (U32(|e.data|) + (U16(|e.name|) + U16(0))))
  }

  function Common(deflate: Deflate, e: Entry): (s: Bytes)
    ensures |s| == 26
  {
    Versions(deflate, e) + (Stamps(e) + Lengths(deflate, e))
  }

  function Local(deflate: Deflate, e: Entry): (s: Bytes)
    ensures |s| == 30 + |e.name| + |Body(deflate, e)|
  {
    U32(0x04034b50) + (Common(deflate, e) + (e.name + Body(deflate, e)))
  }

  // Comment, disk, attributes; the Unix mode is in the high word.
  function Attributes(e: Entry): (s: Bytes)
    ensures |s| == 10
  {
    U16(0) + U16(0) + U16(0) + U32(UnixMode(e.mode))
  }

  // ((0o100000 | mode) >>> 0) * 0x10000 for the nine permission bits
  function UnixMode(mode: nat): nat {
    (0x8000 + mode % 0x8000) * 0x1_0000
  }

  function Central(deflate: Deflate, e: Entry, offset: nat): (s: Bytes)
    ensures |s| == 46 + |e.name|
  {
    U32(0x02014b50) + (U16(788) + (Common(deflate, e) + (Attributes(e) + (U32(offset) + e.name))))
  }

  function Locals(deflate: Deflate, es: seq<Entry>): Bytes {
    if es == [] then [] else Locals(deflate, es[..|es| - 1]) + Local(deflate, es[|es| - 1])
  }

  function Centrals(deflate: Deflate, es: seq<Entry>): Bytes {
    if es == [] then []
    else
      var before := es[..|es| - 1];
      Centrals(deflate, before) + Central(deflate, es[|es| - 1], |Locals(deflate, before)|)
  }

  function EndRecord(count: nat, size: nat, offset: nat): (s: Bytes)
    ensures |s| == 22
  {
    U32(0x06054b50) + (U16(0) + (U16(0) + (U16(count) + (U16(count) + (U32(size) + (U32(offset) + U16(0)))))))
  }

  function Archive(deflate: Deflate, es: seq<Entry>): Bytes {
    var (l, c) := (Locals(deflate, es), Centrals(deflate, es));
    l + c + EndRecord(|es|, |c|, |l|)
  }

  // ----- as it is written

  function Concat(parts: seq<Bytes>): Bytes {
    if parts == [] then [] else Concat(parts[..|parts| - 1]) + parts[|parts| - 1]
  }

  method BuildZip(deflate: Deflate, table: CrcTable, entries: seq<Entry>) returns (zip: Bytes)
    requires table.Valid()
    ensures zip == Archive(deflate, entries)
  {
    hide Local, Central, Common, EndRecord, BitwiseCrc, Attributes, U16, U32, Body;
    var locals: seq<Bytes>, centrals: seq<Bytes> := [], [];
    var offset := 0;
    for i := 0 to |entries|
      invariant Concat(locals) == Locals(deflate, entries[..i]) && offset == |Concat(locals)|
      invariant Concat(centrals) == Centrals(deflate, entries[..i])
    {
      var e := entries[i];
      var common := CommonFields(deflate, table, e);
      var local := U32(0x04034b50) + common + e.name + Body(deflate, e);
      var central := U32(0x02014b50) + U16(788) + common + Attributes(e) + U32(offset) + e.name;
      RecordsAre(deflate, e, offset, common, local, central);
      assert entries[..i + 1][..i] == entries[..i];
      assert (locals + [local])[..|locals|] == locals && (centrals + [central])[..|centrals|] == centrals;
      locals, centrals, offset := locals + [local], centrals + [central], offset + |local|;
    }
    assert entries[..|entries|] == entries;
    var cd := Concat(centrals);
    zip := Concat(locals) + cd + EndRecord(|entries|, |cd|, offset);
  }

  method CommonFields(deflate: Deflate, table: CrcTable, e: Entry) returns (common: Bytes)
    requires table.Valid()
    ensures common == Common(deflate, e)
  {
    hide BitwiseCrc, U16, U32, Words;
    var deflated := deflate(e.data);
    var stored := |deflated| < |e.data|;
    var body := if stored then deflated else e.data;
    var method_ := if stored then 8 else 0;
    var crc := table.Crc(Words(e.data));
    common := U16(20) + U16(0x0800) + U16(method_) + U16(e.time) + U16(e.date)
            + U32(crc as nat) + U32(|body|) + U32(|e.data|) + U16(|e.name|) + U16(0);
    TenWords(U16(20), U16(0x0800), U16(method_), U16(e.time), U16(e.date),
             U32(crc as nat), U32(|body|), U32(|e.data|), U16(|e.name|), U16(0));
  }

  lemma TenWords(a: Bytes, b: Bytes, c: Bytes, d: Bytes, e: Bytes, f: Bytes, g: Bytes, h: Bytes, i: Bytes, j: Bytes)
    ensures a + b + c + d + e + f + g + h + i + j == (a + (b + c)) + ((d + e) + (f + (g + (h + (i + j)))))
  {
  }

  lemma RecordsAre(deflate: Deflate, e: Entry, offset: nat, common: Bytes, local: Bytes, central: Bytes)
    requires common == Common(deflate, e)
    requires local == U32(0x04034b50) + common + e.name + Body(deflate, e)
    requires central == U32(0x02014b50) + U16(788) + common + Attributes(e) + U32(offset) + e.name
    ensures local == Local(deflate, e) && central == Central(deflate, e, offset)
  {
    hide Common, Attributes, U32, U16;
  }

  // ----- a reader

  // What an entry is unpacked as; utf8 says that the name is in that encoding.
  datatype Found = Found(name: Bytes, data: Bytes, time: nat, date: nat, mode: nat, utf8: bool)

  // A header it can use: needs version 2.0 or less, names the host Unix, whose mode is a regular
  // file's, and has no flag but the one for UTF-8.
  predicate Usable(z: Bytes, at: nat)
    requires at + 46 <= |z|
  {
    && Read32(z, at) == 0x02014b50 && Read16(z, at + 6) <= 20 && Read16(z, at + 4) / 256 == 3
    && Read16(z, at + 8) % 0x800 == 0 && Read16(z, at + 8) < 0x1000
    && Read32(z, at + 38) / 0x8000_0000 == 1
  }

  // The local header repeats the fields of the central one from version to lengths.
  predicate Repeats(z: Bytes, at: nat, local: nat)
    requires at + 46 <= |z|
  {
    local + 30 <= |z| && Read32(z, local) == 0x04034b50 && z[local + 4..local + 30] == z[at + 6..at + 32]
  }

  // The content a central header at `at` leads to.
  function ReadEntry(inflate: Deflate, z: Bytes, at: nat): Option<Found> {
    if at + 46 > |z| || !Usable(z, at) then None
    else
      var nameLength := Read16(z, at + 28);
      var local := Read32(z, at + 42);
      if at + 46 + nameLength > |z| || !Repeats(z, at, local) then None
      else
        var start := local + 30 + Read16(z, local + 26) + Read16(z, local + 28);
        var size := Read32(z, at + 20);
        if start + size > |z| then None
        else
          var body := z[start..start + size];
          var data := if Read16(z, at + 10) == 8 then inflate(body) else body;
          if |data| != Read32(z, at + 24) || CrcOf(data) != Read32(z, at + 16) then None
          else Some(Found(z[at + 46..at + 46 + nameLength], data, Read16(z, at + 12), Read16(z, at + 14),
                          Read32(z, at + 38) / 0x1_0000 % 0x8000, Read16(z, at + 8) / 0x800 == 1))
  }

  // The length of the central header at `at`, with its extra field and comment.
  function EntryLength(z: Bytes, at: nat): nat
    requires at + 46 <= |z|
  {
    46 + Read16(z, at + 28) + Read16(z, at + 30) + Read16(z, at + 32)
  }

  function ReadEntries(inflate: Deflate, z: Bytes, at: nat, count: nat): Option<seq<Found>>
    decreases count
  {
    if count == 0 then Some([])
    else
      match ReadEntry(inflate, z, at)
      case None => None
      case Some(f) =>
        match ReadEntries(inflate, z, at + EntryLength(z, at), count - 1)
        case None => None
        case Some(more) => Some([f] + more)
  }

  // One disk, both counts alike, and a directory that ends where the end record begins.
  function ReadZip(inflate: Deflate, z: Bytes): Option<seq<Found>> {
    if |z| < 22 then None
    else
      var end := |z| - 22;
      if Read32(z, end) != 0x06054b50 || Read16(z, end + 4) != 0 || Read16(z, end + 6) != 0 then None
      else if Read16(z, end + 8) != Read16(z, end + 10) || Read32(z, end + 16) + Read32(z, end + 12) != end then None
      else ReadEntries(inflate, z, Read32(z, end + 16), Read16(z, end + 10))
  }

  // ----- what stands where

  function LocalsSize(deflate: Deflate, es: seq<Entry>): nat {
    if es == [] then 0
    else
      var e := es[|es| - 1];
      LocalsSize(deflate, es[..|es| - 1]) + 30 + |e.name| + |Body(deflate, e)|
  }

  function CentralsSize(es: seq<Entry>): nat {
    if es == [] then 0 else CentralsSize(es[..|es| - 1]) + 46 + |es[|es| - 1].name|
  }

  lemma {:induction false} Sizes(deflate: Deflate, es: seq<Entry>)
    ensures |Locals(deflate, es)| == LocalsSize(deflate, es) && |Centrals(deflate, es)| == CentralsSize(es)
  {
    hide Local, Central, Body;
    if es != [] { Sizes(deflate, es[..|es| - 1]); }
  }

  // The limits of the 16- and 32-bit fields, apart from the number of entries.
  ghost predicate FieldsFit(deflate: Deflate, es: seq<Entry>) {
    && LocalsSize(deflate, es) < 0x1_0000_0000 && CentralsSize(es) < 0x1_0000_0000
    && forall k :: 0 <= k < |es| ==> |es[k].name| < 0x1_0000 && |es[k].data| < 0x1_0000_0000
  }

  lemma StandsBefore(a: Bytes, b: Bytes, p: nat, s: Bytes)
    ensures Stands(a, p, s) ==> Stands(a + b, p, s)
    ensures Stands(a + b, |a|, b)
  {
    if Stands(a, p, s) { assert (a + b)[p..p + |s|] == a[p..p + |s|]; }
    assert (a + b)[|a|..|a| + |b|] == b;
  }

  lemma {:induction false} LocalStands(deflate: Deflate, es: seq<Entry>, k: nat)
    requires k < |es|
    ensures Stands(Locals(deflate, es), |Locals(deflate, es[..k])|, Local(deflate, es[k]))
  {
    hide Local, Stands;
    var n := |es| - 1;
    var before := es[..n];
    StandsBefore(Locals(deflate, before), Local(deflate, es[n]), |Locals(deflate, es[..k])|, Local(deflate, es[k]));
    if k < n {
      LocalStands(deflate, before, k);
      assert before[..k] == es[..k];
    }
  }

  lemma {:induction false} CentralStands(deflate: Deflate, es: seq<Entry>, k: nat)
    requires k < |es|
    ensures Stands(Centrals(deflate, es), |Centrals(deflate, es[..k])|,
                   Central(deflate, es[k], |Locals(deflate, es[..k])|))
  {
    hide Central, Locals, Stands;
    var n := |es| - 1;
    var before := es[..n];
    StandsBefore(Centrals(deflate, before), Central(deflate, es[n], |Locals(deflate, before)|),
                 |Centrals(deflate, es[..k])|, Central(deflate, es[k], |Locals(deflate, es[..k])|));
    if k < n {
      CentralStands(deflate, before, k);
      assert before[..k] == es[..k];
    }
  }

  lemma StandsIn(z: Bytes, a: Bytes, b: Bytes, c: Bytes, p: nat, s: Bytes)
    requires z == a + b + c
    ensures Stands(a, p, s) ==> Stands(z, p, s)
    ensures Stands(b, p, s) ==> Stands(z, |a| + p, s)
    ensures Stands(z, |a| + |b|, c)
  {
    if Stands(a, p, s) { assert z[p..p + |s|] == a[p..p + |s|]; }
    if Stands(b, p, s) { assert z[|a| + p..|a| + p + |s|] == b[p..p + |s|]; }
    assert z[|a| + |b|..|a| + |b| + |c|] == c;
  }

  // The words of the shared fields.
  lemma CommonReads(deflate: Deflate, e: Entry, z: Bytes, p: nat)
    requires Stands(z, p, Common(deflate, e))
    requires |e.name| < 0x1_0000 && |e.data| < 0x1_0000_0000 && |Body(deflate, e)| < 0x1_0000_0000
    ensures p + 26 <= |z|
    ensures Read16(z, p) == 20 && Read16(z, p + 2) == 0x0800 && Read16(z, p + 4) == Method(deflate, e)
    ensures Read16(z, p + 6) == e.time % 0x1_0000 && Read16(z, p + 8) == e.date % 0x1_0000
    ensures Read32(z, p + 10) == CrcOf(e.data) && Read32(z, p + 14) == |Body(deflate, e)|
    ensures Read32(z, p + 18) == |e.data| && Read16(z, p + 22) == |e.name| && Read16(z, p + 24) == 0
  {
    hide Stands, U16, U32, Read16, Read32, CrcOf, Body;
    assert p + 26 <= |z| by { StandsFits(z, p, Common(deflate, e)); }
    StandsParts(z, p, Versions(deflate, e), Stamps(e) + Lengths(deflate, e));
    StandsParts(z, p, U16(20), U16(0x0800) + U16(Method(deflate, e)));
    StandsParts(z, p + 2, U16(0x0800), U16(Method(deflate, e)));
    Word16(z, p, 20); Word16(z, p + 2, 0x0800); Word16(z, p + 4, Method(deflate, e));
    StandsParts(z, p + 6, Stamps(e), Lengths(deflate, e));
    StandsParts(z, p + 6, U16(e.time), U16(e.date));
    Word16(z, p + 6, e.time); Word16(z, p + 8, e.date);
    LengthsRead(deflate, e, z, p + 10);
  }

  lemma StandsFits(z: Bytes, p: nat, s: Bytes)
    requires Stands(z, p, s)
    ensures p + |s| <= |z|
  {
  }

  lemma LengthsRead(deflate: Deflate, e: Entry, z: Bytes, p: nat)
    requires Stands(z, p, Lengths(deflate, e))
    requires |e.name| < 0x1_0000 && |e.data| < 0x1_0000_0000 && |Body(deflate, e)| < 0x1_0000_0000
    ensures p + 16 <= |z|
    ensures Read32(z, p) == CrcOf(e.data) && Read32(z, p + 4) == |Body(deflate, e)|
    ensures Read32(z, p + 8) == |e.data| && Read16(z, p + 12) == |e.name| && Read16(z, p + 14) == 0
  {
    hide Stands, U16, U32, Read16, Read32, CrcOf, Body;
    assert p + 16 <= |z| by { StandsFits(z, p, Lengths(deflate, e)); }
    var (b, d, n) := (U32(|Body(deflate, e)|), U32(|e.data|), U16(|e.name|));
    StandsParts(z, p, U32(CrcOf(e.data)), b + (d + (n + U16(0))));
    StandsParts(z, p + 4, b, d + (n + U16(0)));
    StandsParts(z, p + 8, d, n + U16(0));
    StandsParts(z, p + 12, n, U16(0));
    Word32(z, p, CrcOf(e.data)); Word32(z, p + 4, |Body(deflate, e)|); Word32(z, p + 8, |e.data|);
    Word16(z, p + 12, |e.name|); Word16(z, p + 14, 0);
  }

  lemma SmallerBody(deflate: Deflate, e: Entry)
    ensures var d := deflate(e.data);
      if |d| < |e.data| then Body(deflate, e) == d && Method(deflate, e) == 8
      else Body(deflate, e) == e.data && Method(deflate, e) == 0
  {
  }

  lemma LocalReads(deflate: Deflate, e: Entry, z: Bytes, p: nat)
    requires Stands(z, p, Local(deflate, e))
    requires |e.name| < 0x1_0000 && |e.data| < 0x1_0000_0000 && |Body(deflate, e)| < 0x1_0000_0000
    ensures p + 30 + |e.name| + |Body(deflate, e)| <= |z|
    ensures Read32(z, p) == 0x04034b50 && Read16(z, p + 26) == |e.name| && Read16(z, p + 28) == 0
    ensures z[p + 4..p + 30] == Common(deflate, e)
    ensures z[p + 30 + |e.name|..p + 30 + |e.name| + |Body(deflate, e)|] == Body(deflate, e)
    ensures var d := deflate(e.data);
      if |d| < |e.data| then Read16(z, p + 8) == 8 && Body(deflate, e) == d
      else Read16(z, p + 8) == 0 && Body(deflate, e) == e.data
  {
    hide Stands, U16, U32, Read16, Read32, CrcOf, Body, Common, Method;
    SmallerBody(deflate, e);
    var (c, b) := (Common(deflate, e), Body(deflate, e));
    StandsFits(z, p, Local(deflate, e));
    StandsParts(z, p, U32(0x04034b50), c + (e.name + b));
    Word32(z, p, 0x04034b50);
    StandsParts(z, p + 4, c, e.name + b);
    CommonReads(deflate, e, z, p + 4);
    StandsIs(z, p + 4, c);
    StandsParts(z, p + 30, e.name, b);
    StandsIs(z, p + 30 + |e.name|, b);
  }

  lemma StandsIs(z: Bytes, p: nat, s: Bytes)
    requires Stands(z, p, s)
    ensures p + |s| <= |z| && z[p..p + |s|] == s
  {
  }

  lemma AttributesRead(e: Entry, z: Bytes, p: nat)
    requires Stands(z, p, Attributes(e))
    ensures p + 10 <= |z| && Read16(z, p) == 0 && Read32(z, p + 6) == UnixMode(e.mode)
  {
    hide Stands, U16, U32, Read16, Read32;
    var mode := U32(UnixMode(e.mode));
    assert Attributes(e) == U16(0) + (U16(0) + (U16(0) + mode));
    StandsFits(z, p, Attributes(e));
    StandsParts(z, p, U16(0), U16(0) + (U16(0) + mode));
    StandsParts(z, p + 2, U16(0), U16(0) + mode);
    StandsParts(z, p + 4, U16(0), mode);
    Word16(z, p, 0);
    Word32(z, p + 6, UnixMode(e.mode));
  }

  lemma CentralReads(deflate: Deflate, e: Entry, offset: nat, z: Bytes, p: nat)
    requires Stands(z, p, Central(deflate, e, offset)) && offset < 0x1_0000_0000
    requires |e.name| < 0x1_0000 && |e.data| < 0x1_0000_0000 && |Body(deflate, e)| < 0x1_0000_0000
    ensures p + 46 + |e.name| <= |z|
    ensures Read32(z, p) == 0x02014b50 && Read16(z, p + 4) == 788 && Read16(z, p + 6) == 20
    ensures Read16(z, p + 8) == 0x0800 && Read16(z, p + 10) == Method(deflate, e)
    ensures Read16(z, p + 12) == e.time % 0x1_0000 && Read16(z, p + 14) == e.date % 0x1_0000
    ensures Read32(z, p + 16) == CrcOf(e.data) && Read32(z, p + 20) == |Body(deflate, e)|
    ensures Read32(z, p + 24) == |e.data| && Read16(z, p + 28) == |e.name| && Read16(z, p + 30) == 0
    ensures Read16(z, p + 32) == 0 && Read32(z, p + 38) == UnixMode(e.mode) && Read32(z, p + 42) == offset
    ensures z[p + 6..p + 32] == Common(deflate, e)
    ensures z[p + 46..p + 46 + |e.name|] == e.name
  {
    hide Stands, U16, U32, Read16, Read32, CrcOf, Body, Common;
    var (c, a) := (Common(deflate, e), Attributes(e));
    StandsFits(z, p, Central(deflate, e, offset));
    StandsParts(z, p, U32(0x02014b50), U16(788) + (c + (a + (U32(offset) + e.name))));
    Word32(z, p, 0x02014b50);
    StandsParts(z, p + 4, U16(788), c + (a + (U32(offset) + e.name)));
    Word16(z, p + 4, 788);
    StandsParts(z, p + 6, c, a + (U32(offset) + e.name));
    CommonReads(deflate, e, z, p + 6);
    StandsIs(z, p + 6, c);
    StandsParts(z, p + 32, a, U32(offset) + e.name);
    AttributesRead(e, z, p + 32);
    StandsParts(z, p + 42, U32(offset), e.name);
    Word32(z, p + 42, offset);
    StandsIs(z, p + 46, e.name);
  }

  lemma EndReads(z: Bytes, p: nat, count: nat, size: nat, offset: nat)
    requires Stands(z, p, EndRecord(count, size, offset)) && offset < 0x1_0000_0000 && size < 0x1_0000_0000
    ensures p + 22 <= |z|
    ensures Read32(z, p) == 0x06054b50 && Read16(z, p + 4) == 0 && Read16(z, p + 6) == 0
    ensures Read16(z, p + 8) == count % 0x1_0000 && Read16(z, p + 10) == count % 0x1_0000
    ensures Read32(z, p + 12) == size && Read32(z, p + 16) == offset
  {
    hide Stands, U16, U32, Read16, Read32;
    var (n, s, o) := (U16(count), U32(size), U32(offset));
    StandsFits(z, p, EndRecord(count, size, offset));
    var tail := n + (s + (o + U16(0)));
    StandsParts(z, p, U32(0x06054b50), U16(0) + (U16(0) + (n + tail)));
    Word32(z, p, 0x06054b50);
    StandsParts(z, p + 4, U16(0), U16(0) + (n + tail));
    StandsParts(z, p + 6, U16(0), n + tail);
    StandsParts(z, p + 8, n, tail);
    StandsParts(z, p + 10, n, s + (o + U16(0)));
    Word16(z, p + 4, 0); Word16(z, p + 6, 0); Word16(z, p + 8, count); Word16(z, p + 10, count);
    StandsParts(z, p + 12, s, o + U16(0));
    StandsParts(z, p + 16, o, U16(0));
    Word32(z, p + 12, size); Word32(z, p + 16, offset);
  }

  // ----- what comes back

  ghost predicate Inverts(inflate: Deflate, deflate: Deflate) {
    forall d :: inflate(deflate(d)) == d
  }

  // Stamps are 16-bit words, and the mode has 15 bits beside the one that makes it a regular file.
  function Content(e: Entry): Found {
    Found(e.name, e.data, e.time % 0x1_0000, e.date % 0x1_0000, e.mode % 0x8000, true)
  }

  function Contents(es: seq<Entry>): seq<Found> {
    seq(|es|, k requires 0 <= k < |es| => Content(es[k]))
  }

  // Where the central header of entry k stands.
  function Header(deflate: Deflate, es: seq<Entry>, k: nat): nat
    requires k <= |es|
  {
    |Locals(deflate, es)| + |Centrals(deflate, es[..k])|
  }

  lemma NextHeader(deflate: Deflate, es: seq<Entry>, k: nat)
    requires k < |es|
    ensures Header(deflate, es, k + 1) == Header(deflate, es, k) + 46 + |es[k].name|
  {
    hide Central, Locals;
    assert es[..k + 1][..k] == es[..k];
  }

  // Both records of entry k, found in the finished archive, the offset within the 32-bit range.
  lemma RecordsStand(deflate: Deflate, es: seq<Entry>, k: nat)
    requires k < |es| && FieldsFit(deflate, es)
    ensures var (z, offset) := (Archive(deflate, es), |Locals(deflate, es[..k])|);
      && Stands(z, offset, Local(deflate, es[k]))
      && Stands(z, Header(deflate, es, k), Central(deflate, es[k], offset))
      && offset < 0x1_0000_0000 && |Body(deflate, es[k])| < 0x1_0000_0000
  {
    hide Local, Central, EndRecord, Locals, Centrals, Stands, Body, LocalsSize, CentralsSize;
    var (l, c) := (Locals(deflate, es), Centrals(deflate, es));
    var (z, end) := (Archive(deflate, es), EndRecord(|es|, |c|, |l|));
    var offset := |Locals(deflate, es[..k])|;
    var (local, central) := (Local(deflate, es[k]), Central(deflate, es[k], offset));
    Sizes(deflate, es);
    LocalStands(deflate, es, k);
    StandsIn(z, l, c, end, offset, local);
    CentralStands(deflate, es, k);
    StandsIn(z, l, c, end, |Centrals(deflate, es[..k])|, central);
    StandsFits(l, offset, local);
  }

  lemma EntryReads(deflate: Deflate, inflate: Deflate, es: seq<Entry>, k: nat)
    requires k < |es| && FieldsFit(deflate, es) && Inverts(inflate, deflate)
    ensures var (z, at) := (Archive(deflate, es), Header(deflate, es, k));
      && ReadEntry(inflate, z, at) == Some(Content(es[k]))
      && at + EntryLength(z, at) == Header(deflate, es, k + 1)
  {
    hide Archive, Header, Stands, Local, Central, Common, Read16, Read32, CrcOf, Locals, Stored, LocalsSize,
      CentralsSize;
    var (z, at, e, offset) := (Archive(deflate, es), Header(deflate, es, k), es[k], |Locals(deflate, es[..k])|);
    RecordsStand(deflate, es, k);
    LocalReads(deflate, e, z, offset);
    CentralReads(deflate, e, offset, z, at);
    NextHeader(deflate, es, k);
    assert inflate(deflate(e.data)) == e.data;
  }

  lemma {:induction false} EntriesRead(deflate: Deflate, inflate: Deflate, es: seq<Entry>, k: nat, count: nat)
    requires k + count <= |es| && FieldsFit(deflate, es) && Inverts(inflate, deflate)
    ensures ReadEntries(inflate, Archive(deflate, es), Header(deflate, es, k), count)
         == Some(Contents(es[k..k + count]))
    decreases count
  {
    hide FieldsFit, Inverts, Archive, Header, ReadEntry, EntryLength, Content;
    if count > 0 {
      EntryReads(deflate, inflate, es, k);
      EntriesRead(deflate, inflate, es, k + 1, count - 1);
      assert es[k..k + count] == [es[k]] + es[k + 1..k + count];
      assert Contents(es[k..k + count]) == [Content(es[k])] + Contents(es[k + 1..k + count]);
    } else {
      assert Contents(es[k..k]) == [];
    }
  }

  lemma EndOfArchive(deflate: Deflate, es: seq<Entry>)
    requires FieldsFit(deflate, es)
    ensures var z := Archive(deflate, es);
      && |z| >= 22
      && var end := |z| - 22;
         && Read32(z, end) == 0x06054b50 && Read16(z, end + 4) == 0 && Read16(z, end + 6) == 0
         && Read16(z, end + 8) == |es| % 0x1_0000 && Read16(z, end + 10) == |es| % 0x1_0000
         && Read32(z, end + 16) == Header(deflate, es, 0) && Read32(z, end + 16) + Read32(z, end + 12) == end
  {
    hide Stands, EndRecord, Locals, Centrals, Read16, Read32, LocalsSize, CentralsSize;
    var (l, c) := (Locals(deflate, es), Centrals(deflate, es));
    var (z, end) := (Archive(deflate, es), EndRecord(|es|, |c|, |l|));
    StandsIn(z, l, c, end, 0, []);
    Sizes(deflate, es);
    EndReads(z, |l| + |c|, |es|, |c|, |l|);
    assert es[..0] == [];
    NoCentrals(deflate);
  }

  // As many entries as a 16-bit count can name.
  function Counted(es: seq<Entry>): (r: seq<Entry>)
    ensures |r| < 0x1_0000 && (|es| < 0x1_0000 ==> r == es)
  {
    var count := |es| % 0x1_0000;
    es[..count]
  }

  // The reader finds the first |es| mod 65536 entries: the end record's count is a 16-bit word.
  lemma ArchiveReads(deflate: Deflate, inflate: Deflate, es: seq<Entry>)
    requires FieldsFit(deflate, es) && Inverts(inflate, deflate)
    ensures ReadZip(inflate, Archive(deflate, es)) == Some(Contents(Counted(es)))
  {
    hide Inverts, FieldsFit, Archive, Header, ReadEntries, Contents, Read16, Read32;
    var (z, count) := (Archive(deflate, es), |es| % 0x1_0000);
    EndOfArchive(deflate, es);
    assert ReadZip(inflate, z) == ReadEntries(inflate, z, Header(deflate, es, 0), count);
    EntriesRead(deflate, inflate, es, 0, count);
    assert es[0..0 + count] == es[..count];
  }

  lemma NoCentrals(deflate: Deflate)
    ensures Centrals(deflate, []) == []
  {
  }

  // Reading an archive back gives its names and contents in order exactly when there are fewer
  // than 65536 of them.
  lemma ArchiveReadsBack(deflate: Deflate, inflate: Deflate, es: seq<Entry>)
    requires FieldsFit(deflate, es) && Inverts(inflate, deflate)
    ensures ReadZip(inflate, Archive(deflate, es)) == Some(Contents(es)) <==> |es| < 0x1_0000
  {
    hide FieldsFit, Inverts, ReadZip, Archive;
    ArchiveReads(deflate, inflate, es);
    assert |Contents(Counted(es))| == |Counted(es)|;
    assert |Contents(es)| == |es|;
  }

  // Entries without name or content, whose modification stamps are zero.
  function Empties(n: nat): (es: seq<Entry>)
    ensures |es| == n
  {
    seq(n, _ => Entry([], [], 0, 0, 0))
  }

  lemma {:induction false} EmptiesSize(deflate: Deflate, n: nat)
    ensures LocalsSize(deflate, Empties(n)) == 30 * n && CentralsSize(Empties(n)) == 46 * n
  {
    if n > 0 {
      assert Empties(n)[..n - 1] == Empties(n - 1);
      EmptiesSize(deflate, n - 1);
    }
  }

  // 65536 of them are within every other limit, and the reader finds none.
  lemma NoneOfTooMany(deflate: Deflate, inflate: Deflate)
    requires Inverts(inflate, deflate)
    ensures FieldsFit(deflate, Empties(0x1_0000))
    ensures ReadZip(inflate, Archive(deflate, Empties(0x1_0000))) == Some([])
  {
    hide ReadZip, Archive, Inverts, LocalsSize, CentralsSize;
    EmptiesSize(deflate, 0x1_0000);
    ArchiveReads(deflate, inflate, Empties(0x1_0000));
    assert Counted(Empties(0x1_0000)) == [] && Contents([]) == [];
  }
}
