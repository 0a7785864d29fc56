/** The block interleaving of createBytes, assets/js/qrcode.js:267-330, and section 7.6 of
    ISO/IEC 18004:2015. */
module Interleave {
  import opened GF256
  import opened ReedSolomon
  import opened RsBlocks

  type Codewords = seq<bv8>

  // The i-th codewords of the first r blocks that have one.
  function Column(blocks: seq<Codewords>, i: nat, r: nat): Codewords
    requires r <= |blocks|
  {
    if r == 0 then []
    else Column(blocks, i, r - 1) + if i < |blocks[r - 1]| then [blocks[r - 1][i]] else []
  }

  // The first n codewords of every block, taken in turn.
  function Interleaved(blocks: seq<Codewords>, n: nat): Codewords {
    if n == 0 then [] else Interleaved(blocks, n - 1) + Column(blocks, n - 1, |blocks|)
  }

  function Flatten(blocks: seq<Codewords>): Codewords {
    if blocks == [] then [] else Flatten(blocks[..|blocks| - 1]) + blocks[|blocks| - 1]
  }

  function Longest(sizes: seq<nat>): nat {
    if sizes == [] then 0
    else
      var m, k := Longest(sizes[..|sizes| - 1]), sizes[|sizes| - 1];
      if m < k then k else m
  }

  function Sizes(blocks: seq<Codewords>): (s: seq<nat>)
    ensures |s| == |blocks| && forall i :: 0 <= i < |s| ==> s[i] == |blocks[i]|
  {
    seq(|blocks|, i requires 0 <= i < |blocks| => |blocks[i]|)
  }

  // ----- dealing the codewords back to their blocks

  // Deals one codeword to each of the first r blocks that are longer than i.
  function DealRow(sizes: seq<nat>, dealt: seq<Codewords>, stream: Codewords, i: nat, r: nat)
    : (seq<Codewords>, Codewords)
    requires r <= |sizes| == |dealt|
    ensures |DealRow(sizes, dealt, stream, i, r).0| == |sizes|
  {
    if r == 0 then (dealt, stream)
    else
      var (d, s) := DealRow(sizes, dealt, stream, i, r - 1);
      if i < sizes[r - 1] && s != [] then (d[r - 1 := d[r - 1] + [s[0]]], s[1..]) else (d, s)
  }

  // The blocks after n rows, and what is left of the stream.
  function Deal(sizes: seq<nat>, stream: Codewords, n: nat): (seq<Codewords>, Codewords)
    ensures |Deal(sizes, stream, n).0| == |sizes|
  {
    if n == 0 then (seq(|sizes|, _ => []), stream)
    else
      var (d, s) := Deal(sizes, stream, n - 1);
      DealRow(sizes, d, s, n - 1, |sizes|)
  }

  function UpTo(b: Codewords, n: nat): Codewords {
    if n < |b| then b[..n] else b
  }

  // The first r blocks up to n + 1 codewords, the others up to n.
  function Prefixes(blocks: seq<Codewords>, n: nat, r: nat): (p: seq<Codewords>)
    ensures |p| == |blocks|
    ensures forall i :: 0 <= i < |p| ==> p[i] == UpTo(blocks[i], if i < r then n + 1 else n)
  {
    seq(|blocks|, i requires 0 <= i < |blocks| => UpTo(blocks[i], if i < r then n + 1 else n))
  }

  lemma PrefixesNext(blocks: seq<Codewords>, n: nat, r: nat)
    requires r < |blocks|
    ensures var (p, b) := (Prefixes(blocks, n, r), blocks[r]);
            Prefixes(blocks, n, r + 1) == if n < |b| then p[r := p[r] + [b[n]]] else p
  {
    var (p, q, b) := (Prefixes(blocks, n, r), Prefixes(blocks, n, r + 1), blocks[r]);
    if n < |b| {
      assert UpTo(b, n + 1) == UpTo(b, n) + [b[n]];
      assert q == p[r := p[r] + [b[n]]];
    } else {
      assert q == p;
    }
  }

  lemma {:induction false} DealRowBack(blocks: seq<Codewords>, i: nat, r: nat, tail: Codewords)
    requires r <= |blocks|
    ensures DealRow(Sizes(blocks), Prefixes(blocks, i, 0), Column(blocks, i, r) + tail, i, r)
         == (Prefixes(blocks, i, r), tail)
  {
    hide UpTo, Prefixes;
    if r == 0 {
      assert [] + tail == tail;
    } else {
      var b := blocks[r - 1];
      var own: Codewords := if i < |b| then [b[i]] else [];
      assert Column(blocks, i, r) + tail == Column(blocks, i, r - 1) + (own + tail);
      DealRowBack(blocks, i, r - 1, own + tail);
      PrefixesNext(blocks, i, r - 1);
      assert i < |b| ==> (own + tail)[1..] == tail;
      assert i >= |b| ==> own + tail == tail;
    }
  }

  lemma {:induction false} DealPrefixes(blocks: seq<Codewords>, n: nat, tail: Codewords)
    ensures Deal(Sizes(blocks), Interleaved(blocks, n) + tail, n) == (Prefixes(blocks, n, 0), tail)
  {
    hide DealRow, Column;
    if n == 0 {
      assert [] + tail == tail;
      assert Prefixes(blocks, 0, 0) == seq(|blocks|, _ => []);
    } else {
      var column := Column(blocks, n - 1, |blocks|);
      assert Interleaved(blocks, n) + tail == Interleaved(blocks, n - 1) + (column + tail);
      DealPrefixes(blocks, n - 1, column + tail);
      DealRowBack(blocks, n - 1, |blocks|, tail);
      assert Prefixes(blocks, n - 1, |blocks|) == Prefixes(blocks, n, 0);
    }
  }

  lemma {:induction false} LongestBounds(sizes: seq<nat>, i: nat)
    requires i < |sizes|
    ensures sizes[i] <= Longest(sizes)
  {
    if i < |sizes| - 1 { LongestBounds(sizes[..|sizes| - 1], i); }
  }

  /** Dealing as many rows as the longest block recovers every block, and stops right behind them. */
  lemma DealInverts(blocks: seq<Codewords>, tail: Codewords)
    ensures var n := Longest(Sizes(blocks));
            Deal(Sizes(blocks), Interleaved(blocks, n) + tail, n) == (blocks, tail)
  {
    var n := Longest(Sizes(blocks));
    DealPrefixes(blocks, n, tail);
    forall i | 0 <= i < |blocks| ensures Prefixes(blocks, n, 0)[i] == blocks[i] { LongestBounds(Sizes(blocks), i); }
    assert Prefixes(blocks, n, 0) == blocks;
  }

  // ----- createBytes

  method InterleaveBlocks(blocks: seq<Codewords>, max: nat) returns (data: Codewords)
    ensures data == Interleaved(blocks, max)
  {
    data := [];
    for i := 0 to max
      invariant data == Interleaved(blocks, i)
    {
      ghost var before := data;
      for r := 0 to |blocks|
        invariant data == before + Column(blocks, i, r)
      {
        if i < |blocks[r]| { data := data + [blocks[r][i]]; }
      }
    }
  }

  // Block r carries its share of the data and check codewords that complete it to a codeword.
  ghost predicate BlocksEncode(dc: seq<Codewords>, ec: seq<Codewords>, blocks: seq<Block>) {
    && |dc| == |ec| == |blocks|
    && forall r :: 0 <= r < |blocks| ==>
         && |dc[r]| == blocks[r].dataCount && |ec[r]| == blocks[r].totalCount - blocks[r].dataCount
         && IsCodeword(dc[r] + ec[r], |ec[r]|)
  }

  predicate Encodable(blocks: seq<Block>) {
    forall r :: 0 <= r < |blocks| ==> blocks[r].dataCount <= blocks[r].totalCount <= blocks[r].dataCount + 254
  }

  // Splits the buffer over the blocks and computes each block's check codewords.
  method EncodeBlocks(math: QRMath, buffer: Codewords, blocks: seq<Block>)
    returns (dc: seq<Codewords>, ec: seq<Codewords>, maxDc: nat, maxEc: nat)
    requires math.Valid() && Encodable(blocks) && |buffer| == DataCount(blocks)
    ensures BlocksEncode(dc, ec, blocks) && Flatten(dc) == buffer
    ensures maxDc == Longest(Sizes(dc)) && maxEc == Longest(Sizes(ec))
  {
    hide IsCodeword, Longest, BlocksEncode, Flatten, DataCount;
    StartBlocks();
    dc, ec, maxDc, maxEc := [], [], 0, 0;
    var offset := 0;
    for r := 0 to |blocks|
      invariant BlocksEncode(dc, ec, blocks[..r])
      invariant offset == DataCount(blocks[..r]) <= |buffer|
      invariant Flatten(dc) == buffer[..offset]
      invariant maxDc == Longest(Sizes(dc)) && maxEc == Longest(Sizes(ec))
    {
      var dcCount := blocks[r].dataCount;
      var ecCount := blocks[r].totalCount - dcCount;
      maxDc := if maxDc < dcCount then dcCount else maxDc;
      maxEc := if maxEc < ecCount then ecCount else maxEc;
      assert blocks[..r + 1] == blocks[..r] + [blocks[r]];
      CountPrefix(blocks, r + 1);
      CountNext(blocks, r);
      var share := buffer[offset..offset + dcCount];
      var check := ErrorCorrection(math, share, ecCount);
      LongestSnoc(dc, share); LongestSnoc(ec, check.value);
      BlocksSnoc(dc, ec, blocks[..r], share, check.value, blocks[r]);
      assert buffer[..offset] + share == buffer[..offset + dcCount];
      dc, ec, offset := dc + [share], ec + [check.value], offset + dcCount;
    }
    assert blocks[..|blocks|] == blocks;
  }

  lemma BlocksSnoc(dc: seq<Codewords>, ec: seq<Codewords>, blocks: seq<Block>, d: Codewords, e: Codewords, b: Block)
    requires BlocksEncode(dc, ec, blocks)
    requires |d| == b.dataCount && |e| == b.totalCount - b.dataCount && IsCodeword(d + e, |e|)
    ensures BlocksEncode(dc + [d], ec + [e], blocks + [b])
    ensures Flatten(dc + [d]) == Flatten(dc) + d
  {
    assert (dc + [d])[..|dc|] == dc;
  }

  lemma CountNext(blocks: seq<Block>, r: nat)
    requires r < |blocks|
    ensures DataCount(blocks[..r + 1]) == DataCount(blocks[..r]) + blocks[r].dataCount
  {
    assert blocks[..r + 1][..r] == blocks[..r];
  }

  lemma {:induction false} CountPrefix(blocks: seq<Block>, r: nat)
    requires r <= |blocks|
    ensures DataCount(blocks[..r]) <= DataCount(blocks)
  {
    if r < |blocks| {
      CountPrefix(blocks[..|blocks| - 1], r);
      assert blocks[..|blocks| - 1][..r] == blocks[..r];
    } else {
      assert blocks[..r] == blocks;
    }
  }

  lemma StartBlocks()
    ensures Longest(Sizes([])) == 0 && BlocksEncode([], [], []) && Flatten([]) == [] && DataCount([]) == 0
  {
  }

  lemma LongestSnoc(blocks: seq<Codewords>, b: Codewords)
    ensures Longest(Sizes(blocks + [b])) ==
            if Longest(Sizes(blocks)) < |b| then |b| else Longest(Sizes(blocks))
  {
    var s := Sizes(blocks + [b]);
    assert s[..|s| - 1] == Sizes(blocks);
  }
}
