/** Where the fixed patterns of a QR symbol stand: alignment patterns (assets/js/qrcode.js:133-162 and
    the table of 863-904), version and format information (164-214). */
module Patterns {

  // The centre coordinates of the alignment patterns.
  function PositionTable(version: nat): (pos: seq<int>)
    requires 1 <= version <= 40
  {
    match version
    case 1 => []
    case 2 => [6, 18]
    case 3 => [6, 22]
    case 4 => [6, 26]
    case 5 => [6, 30]
    case 6 => [6, 34]
    case 7 => [6, 22, 38]
    case 8 => [6, 24, 42]
    case 9 => [6, 26, 46]
    case 10 => [6, 28, 50]
    case 11 => [6, 30, 54]
    case 12 => [6, 32, 58]
    case 13 => [6, 34, 62]
    case 14 => [6, 26, 46, 66]
    case 15 => [6, 26, 48, 70]
    case 16 => [6, 26, 50, 74]
    case 17 => [6, 30, 54, 78]
    case 18 => [6, 30, 56, 82]
    case 19 => [6, 30, 58, 86]
    case 20 => [6, 34, 62, 90]
    case 21 => [6, 28, 50, 72, 94]
    case 22 => [6, 26, 50, 74, 98]
    case 23 => [6, 30, 54, 78, 102]
    case 24 => [6, 28, 54, 80, 106]
    case 25 => [6, 32, 58, 84, 110]
    case 26 => [6, 30, 58, 86, 114]
    case 27 => [6, 34, 62, 90, 118]
    case 28 => [6, 26, 50, 74, 98, 122]
    case 29 => [6, 30, 54, 78, 102, 126]
    case 30 => [6, 26, 52, 78, 104, 130]
    case 31 => [6, 30, 56, 82, 108, 134]
    case 32 => [6, 34, 60, 86, 112, 138]
    case 33 => [6, 30, 58, 86, 114, 142]
    case 34 => [6, 34, 62, 90, 118, 146]
    case 35 => [6, 30, 54, 78, 102, 126, 150]
    case 36 => [6, 24, 50, 76, 102, 128, 154]
    case 37 => [6, 28, 54, 80, 106, 132, 158]
    case 38 => [6, 32, 58, 84, 110, 136, 162]
    case 39 => [6, 26, 54, 82, 110, 138, 166]
    case _ => [6, 30, 58, 86, 114, 142, 170]
  }

  // Far enough apart that no two patterns touch, and inside the symbol.
  predicate Spaced(pos: seq<int>, n: int) {
    forall i :: 0 <= i < |pos| ==> 2 <= pos[i] < n - 2 && (i > 0 ==> pos[i - 1] + 5 <= pos[i])
  }

  lemma PositionsSpaced1(version: nat)
    requires 1 <= version <= 8
    ensures Spaced(PositionTable(version), 4 * version + 17)
  {
  }

  lemma PositionsSpaced9(version: nat)
    requires 9 <= version <= 16
    ensures Spaced(PositionTable(version), 4 * version + 17)
  {
  }

  lemma PositionsSpaced17(version: nat)
    requires 17 <= version <= 24
    ensures Spaced(PositionTable(version), 4 * version + 17)
  {
  }

  lemma PositionsSpaced25(version: nat)
    requires 25 <= version <= 32
    ensures Spaced(PositionTable(version), 4 * version + 17)
  {
  }

  lemma PositionsSpaced33(version: nat)
    requires 33 <= version <= 40
    ensures Spaced(PositionTable(version), 4 * version + 17)
  {
  }

  lemma PositionsSpaced(version: nat)
    requires 1 <= version <= 40
    ensures Spaced(PositionTable(version), 4 * version + 17)
  {
    hide Spaced, PositionTable;
    if version <= 8 {
      PositionsSpaced1(version);
    } else if version <= 16 {
      PositionsSpaced9(version);
    } else if version <= 24 {
      PositionsSpaced17(version);
    } else if version <= 32 {
      PositionsSpaced25(version);
    } else {
      PositionsSpaced33(version);
    }
  }

  lemma {:induction false} SpacedApart(pos: seq<int>, n: int, i: nat, j: nat)
    requires Spaced(pos, n) && i < j < |pos|
    ensures pos[i] + 5 <= pos[j]
  {
    if i + 1 < j { SpacedApart(pos, n, i, j - 1); }
  }

  // The alignment centre within two modules of v, or |pos|.
  function Near(pos: seq<int>, v: int): (i: nat)
    ensures i <= |pos|
    ensures i < |pos| ==> -2 <= v - pos[i] <= 2
  {
    if pos == [] then 0 else if -2 <= v - pos[0] <= 2 then 0 else 1 + Near(pos[1..], v)
  }

  lemma {:induction false} NearIs(pos: seq<int>, n: int, v: int, i: nat)
    requires Spaced(pos, n) && i < |pos|
    ensures Near(pos, v) == i <==> -2 <= v - pos[i] <= 2
    decreases i
  {
    if i > 0 {
      SpacedApart(pos, n, 0, i);
      assert Spaced(pos[1..], n) by { assert forall k :: 0 < k < |pos[1..]| ==> pos[1..][k - 1] == pos[k]; }
      NearIs(pos[1..], n, v, i - 1);
    }
  }

  // An alignment pattern around its centre.
  predicate AdjustDark(r: int, c: int) {
    r == -2 || r == 2 || c == -2 || c == 2 || (r == 0 && c == 0)
  }

  // ----- the same patterns told another way

  // How far from the centre: the ring of a square pattern.
  function Ring(r: int, c: int): nat {
    var (a, b) := (if r < 0 then -r else r, if c < 0 then -c else c);
    if a < b then b else a
  }

  // Of an alignment pattern the centre and the outer ring are dark.
  lemma AlignmentRings(r: int, c: int)
    requires -2 <= r <= 2 && -2 <= c <= 2
    ensures AdjustDark(r, c) <==> Ring(r, c) != 1
  {
  }

  // The distance between neighbouring centres behind the first two.
  function Gap(version: nat): nat
    requires version >= 2
  {
    var n := version / 7 + 2;
    if version == 32 then 26 else (4 * version + 2 * n + 1) / (2 * n - 2) * 2
  }

  // One centre more for every seven versions, the first in row 6, the last six modules before the
  // end, and equal even gaps counted from there.
  predicate Follows(pos: seq<int>, version: nat)
    requires version >= 2
  {
    && |pos| == version / 7 + 2 && pos[0] == 6
    && forall i :: 1 <= i < |pos| ==> pos[i] == 4 * version + 10 - (|pos| - 1 - i) * Gap(version)
  }

  lemma PositionsFollow2(version: nat)
    requires 2 <= version <= 8
    ensures Follows(PositionTable(version), version)
  {
  }

  lemma PositionsFollow9(version: nat)
    requires 9 <= version <= 14
    ensures Follows(PositionTable(version), version)
  {
  }

  lemma PositionsFollow15(version: nat)
    requires 15 <= version <= 20
    ensures Follows(PositionTable(version), version)
  {
  }

  lemma PositionsFollow21(version: nat)
    requires 21 <= version <= 24
    ensures Follows(PositionTable(version), version)
  {
  }

  lemma PositionsFollow25(version: nat)
    requires 25 <= version <= 28
    ensures Follows(PositionTable(version), version)
  {
  }

  lemma PositionsFollow29(version: nat)
    requires 29 <= version <= 32
    ensures Follows(PositionTable(version), version)
  {
  }

  lemma PositionsFollow33(version: nat)
    requires 33 <= version <= 36
    ensures Follows(PositionTable(version), version)
  {
  }

  lemma PositionsFollow37(version: nat)
    requires 37 <= version <= 40
    ensures Follows(PositionTable(version), version)
  {
  }

  lemma PositionsFollow(version: nat)
    requires 1 <= version <= 40
    ensures if version == 1 then PositionTable(version) == [] else Follows(PositionTable(version), version)
    ensures version >= 2 ==> Gap(version) % 2 == 0
  {
    hide Follows, PositionTable;
    if version == 1 {
      FirstHasNone();
    } else if version <= 8 {
      PositionsFollow2(version);
    } else if version <= 14 {
      PositionsFollow9(version);
    } else if version <= 20 {
      PositionsFollow15(version);
    } else if version <= 24 {
      PositionsFollow21(version);
    } else if version <= 28 {
      PositionsFollow25(version);
    } else if version <= 32 {
      PositionsFollow29(version);
    } else if version <= 36 {
      PositionsFollow33(version);
    } else {
      PositionsFollow37(version);
    }
  }

  lemma FirstHasNone()
    ensures PositionTable(1) == []
  {
  }

  // ----- format information, 15 bits in each of two strips; -1 stands for no bit

  // The bit in row r of column 8.
  function VerticalBit(r: int, n: int): int {
    if 0 <= r < 6 then r
    else if r == 7 || r == 8 then r - 1
    else if n - 7 <= r < n then r - (n - 15)
    else -1
  }

  // The bit in column c of row 8.
  function HorizontalBit(c: int, n: int): int {
    if n - 8 <= c < n then n - 1 - c
    else if c == 7 then 8
    else if 0 <= c < 6 then 14 - c
    else -1
  }

  function VerticalRow(i: nat, n: int): int {
    if i < 6 then i else if i < 8 then i + 1 else n - 15 + i
  }

  function HorizontalColumn(i: nat, n: int): int {
    if i < 8 then n - i - 1 else if i < 9 then 15 - i - 1 + 1 else 15 - i - 1
  }

  // Each of the two strips holds every format bit once.
  lemma FormatBitOnce(i: nat, n: int, v: int)
    requires i < 15 && n >= 21
    ensures VerticalBit(v, n) == i <==> v == VerticalRow(i, n)
    ensures HorizontalBit(v, n) == i <==> v == HorizontalColumn(i, n)
  {
  }

  // ----- version information, 18 bits in each of two blocks of 6 by 3

  // The bit at (r, c) of the upper block, or at (c, r) of the left one.
  function VersionBit(r: int, c: int, n: int): int {
    if 0 <= r < 6 && n - 11 <= c < n - 8 then 3 * r + (c - (n - 11)) else -1
  }

  function VersionRow(i: nat): (r: int)
    requires i < 18
    ensures 0 <= r < 6
  {
    i / 3
  }

  function VersionColumn(i: nat, n: int): (c: int)
    ensures n - 11 <= c < n - 8
  {
    i % 3 + n - 8 - 3
  }

  lemma VersionBitOnce(i: nat, n: int, r: int, c: int)
    requires i < 18
    ensures VersionBit(r, c, n) == i <==> r == VersionRow(i) && c == VersionColumn(i, n)
    ensures VersionBit(r, c, n) < 18
  {
  }

  lemma BlocksApart(n: int, r: int, c: int)
    requires n >= 21
    ensures VersionBit(r, c, n) == -1 || VersionBit(c, r, n) == -1
  {
  }
}
