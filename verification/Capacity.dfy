/** Every QR symbol has room for its codewords: the function patterns of makeImpl
    (assets/js/qrcode.js:57-66) leave at least eight modules for each codeword of the block table
    (1253-1510). */
module Capacity {
  import opened Patterns
  import opened Placement
  import opened Prelude
  import opened QrStandard
  import opened RsBlocks

  // ----- rectangles of cells

  function RowCells(r: int, c0: int, c1: int): (s: seq<Cell>)
    requires c0 <= c1
    ensures |s| == c1 - c0
    decreases c1 - c0
  {
    if c0 == c1 then [] else RowCells(r, c0, c1 - 1) + [(r, c1 - 1)]
  }

  function Rect(r0: int, r1: int, c0: int, c1: int): (s: seq<Cell>)
    requires r0 <= r1 && c0 <= c1
    ensures |s| == (r1 - r0) * (c1 - c0)
    decreases r1 - r0
  {
    if r0 == r1 then []
    else
      assert (r1 - r0) * (c1 - c0) == (r1 - 1 - r0) * (c1 - c0) + (c1 - c0);
      Rect(r0, r1 - 1, c0, c1) + RowCells(r1 - 1, c0, c1)
  }

  lemma {:induction false} InRow(r: int, c0: int, c1: int, x: Cell)
    requires c0 <= c1 && x.0 == r && c0 <= x.1 < c1
    ensures x in RowCells(r, c0, c1)
    decreases c1 - c0
  {
    if x.1 < c1 - 1 { InRow(r, c0, c1 - 1, x); }
  }

  lemma {:induction false} InRect(r0: int, r1: int, c0: int, c1: int, x: Cell)
    requires r0 <= r1 && c0 <= c1 && r0 <= x.0 < r1 && c0 <= x.1 < c1
    ensures x in Rect(r0, r1, c0, c1)
    decreases r1 - r0
  {
    if x.0 < r1 - 1 { InRect(r0, r1 - 1, c0, c1, x); } else { InRow(r1 - 1, c0, c1, x); }
  }

  // ----- what the patterns take, column 6 aside

  function Finders(n: int): (s: seq<Cell>)
    requires n >= 21
    ensures |s| == 176
  {
    Rect(0, 8, 0, 6) + Rect(0, 8, 7, 8) + Rect(n - 8, n, 0, 6) + Rect(n - 8, n, 7, 8) + Rect(0, 8, n - 8, n)
  }

  function TimingRow(n: int): (s: seq<Cell>)
    requires n >= 21
    ensures |s| == n - 16
  {
    Rect(6, 7, 8, n - 8)
  }

  function FormatStrips(n: int): (s: seq<Cell>)
    requires n >= 21
    ensures |s| == 31
  {
    Rect(0, 6, 8, 9) + Rect(7, 9, 8, 9) + Rect(n - 8, n, 8, 9) + Rect(8, 9, n - 8, n)
    + Rect(8, 9, 7, 8) + Rect(8, 9, 0, 6)
  }

  function VersionBlocks(n: int): (s: seq<Cell>)
    requires n >= 21
    ensures |s| == 36
  {
    Rect(0, 6, n - 11, n - 8) + Rect(n - 11, n - 8, 0, 6)
  }

  // The three pairs of centres that lie in finder patterns.
  predicate Corner(a: nat, i: nat, j: nat) {
    (i == 0 && (j == 0 || j + 1 == a)) || (j == 0 && i + 1 == a)
  }

  // The pattern at the pair of centres i and j, without what row and column 6 hold anyway.
  function Alignment(pos: seq<int>, i: nat, j: nat): (s: seq<Cell>)
    requires i < |pos| && j < |pos|
    ensures |s| == AlignmentSize(|pos|, i, j)
  {
    var (p, q) := (pos[i], pos[j]);
    if Corner(|pos|, i, j) then []
    else if i == 0 then Rect(p - 2, p, q - 2, q + 3) + Rect(p + 1, p + 3, q - 2, q + 3)
    else if j == 0 then Rect(p - 2, p + 3, q - 2, q) + Rect(p - 2, p + 3, q + 1, q + 3)
    else Rect(p - 2, p + 3, q - 2, q + 3)
  }

  function AlignmentSize(a: nat, i: nat, j: nat): nat {
    if Corner(a, i, j) then 0 else if i == 0 || j == 0 then 20 else 25
  }

  function AlignmentRow(pos: seq<int>, i: nat, j: nat): (s: seq<Cell>)
    requires i < |pos| && j <= |pos|
    ensures |s| == RowSize(|pos|, i, j)
  {
    if j == 0 then [] else AlignmentRow(pos, i, j - 1) + Alignment(pos, i, j - 1)
  }

  function RowSize(a: nat, i: nat, j: nat): nat {
    if j == 0 then 0 else RowSize(a, i, j - 1) + AlignmentSize(a, i, j - 1)
  }

  function Alignments(pos: seq<int>, i: nat): (s: seq<Cell>)
    requires i <= |pos|
    ensures |s| == AllSize(|pos|, i)
  {
    if i == 0 then [] else Alignments(pos, i - 1) + AlignmentRow(pos, i - 1, |pos|)
  }

  function AllSize(a: nat, i: nat): nat {
    if i == 0 then 0 else AllSize(a, i - 1) + RowSize(a, i - 1, a)
  }

  lemma {:induction false} InAlignments(pos: seq<int>, i: nat, j: nat, k: nat, x: Cell)
    requires i < k <= |pos| && j < |pos| && x in Alignment(pos, i, j)
    ensures x in Alignments(pos, k)
  {
    hide Alignment, AlignmentRow, AllSize, RowSize;
    if i < k - 1 { InAlignments(pos, i, j, k - 1, x); } else { InAlignmentRow(pos, i, j, |pos|, x); }
  }

  lemma {:induction false} InAlignmentRow(pos: seq<int>, i: nat, j: nat, k: nat, x: Cell)
    requires i < |pos| && j < k <= |pos| && x in Alignment(pos, i, j)
    ensures x in AlignmentRow(pos, i, k)
  {
    hide Alignment, RowSize, AlignmentSize;
    if j < k - 1 { InAlignmentRow(pos, i, j, k - 1, x); }
  }

  function Taken(version: nat): (s: seq<Cell>)
    requires 1 <= version <= 40
    ensures |s| == TakenSize(version)
  {
    var (n, pos) := (version * 4 + 17, PositionTable(version));
    Finders(n) + TimingRow(n) + FormatStrips(n) + (if version < 7 then [] else VersionBlocks(n))
    + Alignments(pos, |pos|)
  }

  function TakenSize(version: nat): nat
    requires 1 <= version <= 40
  {
    var a := |PositionTable(version)|;
    176 + (version * 4 + 1) + 31 + (if version < 7 then 0 else 36) + AllSize(a, a)
  }

  // ----- every module a pattern sets is among them

  lemma FinderTaken(n: nat, x: Cell)
    requires n >= 21 && x in Probed(n) && Probed(n)[x] != None && x.1 != 6
    ensures x in Finders(n)
  {
    hide Rect, ProbeDark;
    hide Probed;
    ProbedIs(n, x.0, x.1);
    if x.0 <= 7 && x.1 < 6 { InRect(0, 8, 0, 6, x); }
    else if x.0 <= 7 && x.1 == 7 { InRect(0, 8, 7, 8, x); }
    else if x.0 <= 7 { InRect(0, 8, n - 8, n, x); }
    else if x.1 < 6 { InRect(n - 8, n, 0, 6, x); }
    else { InRect(n - 8, n, 7, 8, x); }
  }

  lemma FormatTaken(n: nat, x: Cell)
    requires n >= 21 && 0 <= x.0 < n && 0 <= x.1 < n
    requires x == (n - 8, 8) || (x.1 == 8 && VerticalBit(x.0, n) >= 0) || (x.0 == 8 && HorizontalBit(x.1, n) >= 0)
    ensures x in FormatStrips(n)
  {
    hide Rect;
    if x.1 == 8 && x.0 < 6 { InRect(0, 6, 8, 9, x); }
    else if x.1 == 8 && x.0 < 9 { InRect(7, 9, 8, 9, x); }
    else if x.1 == 8 { InRect(n - 8, n, 8, 9, x); }
    else if x.1 < 6 { InRect(8, 9, 0, 6, x); }
    else if x.1 == 7 { InRect(8, 9, 7, 8, x); }
    else { InRect(8, 9, n - 8, n, x); }
  }

  lemma VersionTaken(n: nat, x: Cell)
    requires n >= 21 && (VersionBit(x.0, x.1, n) >= 0 || VersionBit(x.1, x.0, n) >= 0)
    ensures x in VersionBlocks(n)
  {
    hide Rect;
    if VersionBit(x.0, x.1, n) >= 0 { InRect(0, 6, n - 11, n - 8, x); } else { InRect(n - 11, n - 8, 0, 6, x); }
  }

  // The first and the last centre lie on the finder patterns.
  predicate Ends(pos: seq<int>, n: int) {
    pos == [] || (|pos| > 1 && pos[0] == 6 && pos[|pos| - 1] == n - 7)
  }

  lemma TableEnds1(version: nat)
    requires 1 <= version <= 13
    ensures Ends(PositionTable(version), 4 * version + 17) && |PositionTable(version)| <= 7
  {
  }

  lemma TableEnds14(version: nat)
    requires 14 <= version <= 26
    ensures Ends(PositionTable(version), 4 * version + 17) && |PositionTable(version)| <= 7
  {
  }

  lemma TableEnds27(version: nat)
    requires 27 <= version <= 40
    ensures Ends(PositionTable(version), 4 * version + 17) && |PositionTable(version)| <= 7
  {
  }

  lemma TableEnds(version: nat)
    requires 1 <= version <= 40
    ensures Ends(PositionTable(version), 4 * version + 17) && |PositionTable(version)| <= 7
  {
    hide Ends, PositionTable;
    if version <= 13 {
      TableEnds1(version);
    } else if version <= 26 {
      TableEnds14(version);
    } else {
      TableEnds27(version);
    }
  }

  // A centre in a finder pattern is set before the alignment patterns are drawn.
  lemma CornersSet(pos: seq<int>, n: nat, i: nat, j: nat)
    requires n >= 21 && Ends(pos, n) && i < |pos| && j < |pos| && Corner(|pos|, i, j)
    ensures !Unset(Probed(n), (pos[i], pos[j]))
  {
    hide ProbeDark, Probed;
    ProbedIs(n, pos[i], pos[j]);
  }

  lemma ProbedIs(n: nat, r: int, c: int)
    requires 0 <= r < n && 0 <= c < n
    ensures (r, c) in Probed(n) && Probed(n)[(r, c)] == ProbedModule((r, c), n)
  {
    hide ProbedModule;
  }

  lemma AlignmentTaken(pos: seq<int>, n: nat, x: Cell, i: nat, j: nat)
    requires n >= 21 && Ends(pos, n) && Spaced(pos, n) && i < |pos| && j < |pos| && !Corner(|pos|, i, j)
    requires -2 <= x.0 - pos[i] <= 2 && -2 <= x.1 - pos[j] <= 2 && x.1 != 6
    ensures x in Alignments(pos, |pos|) || x in TimingRow(n)
  {
    hide Rect, Alignments, Spaced;
    var (p, q) := (pos[i], pos[j]);
    if i == 0 && x.0 == 6 {
      InnerCentre(pos, n, j);
      InRect(6, 7, 8, n - 8, x);
    } else {
      if i == 0 {
        if x.0 < p { InRect(p - 2, p, q - 2, q + 3, x); } else { InRect(p + 1, p + 3, q - 2, q + 3, x); }
      } else if j == 0 {
        if x.1 < q { InRect(p - 2, p + 3, q - 2, q, x); } else { InRect(p - 2, p + 3, q + 1, q + 3, x); }
      } else {
        InRect(p - 2, p + 3, q - 2, q + 3, x);
      }
      assert x in Alignment(pos, i, j);
      InAlignments(pos, i, j, |pos|, x);
    }
  }

  lemma InnerCentre(pos: seq<int>, n: nat, j: nat)
    requires Ends(pos, n) && Spaced(pos, n) && 0 < j < |pos| - 1
    ensures 11 <= pos[j] <= n - 12
  {
    SpacedApart(pos, n, 0, j);
    SpacedApart(pos, n, j, |pos| - 1);
  }

  lemma PositionTaken(version: nat, x: Cell)
    requires 1 <= version <= 40 && x in Probed(version * 4 + 17) && x.1 != 6 && PositionModule(version, x) != None
    ensures x in Taken(version)
  {
    hide Rect, Finders, TimingRow, FormatStrips, VersionBlocks, Alignments, Probed, Near, PositionTable, Ends, Spaced,
      Corner;
    var (n, pos) := (version * 4 + 17, PositionTable(version));
    TableEnds(version);
    PositionsSpaced(version);
    if Probed(n)[x] != None {
      FinderTaken(n, x);
    } else {
      var (a, b) := (Near(pos, x.0), Near(pos, x.1));
      if a < |pos| && b < |pos| && Unset(Probed(n), (pos[a], pos[b])) {
        if Corner(|pos|, a, b) { CornersSet(pos, n, a, b); }
        AlignmentTaken(pos, n, x, a, b);
      } else {
        TimingTaken(n, x);
      }
    }
  }

  lemma TimingTaken(n: nat, x: Cell)
    requires n >= 21 && x.0 == 6 && 8 <= x.1 < n - 8
    ensures x in TimingRow(n)
  {
    InRect(6, 7, 8, n - 8, x);
  }

  lemma PatternTaken(f: Fixed, x: Cell)
    requires FixedOk(f) && x in Probed(f.version * 4 + 17) && x.1 != 6 && PatternModule(f, x) != None
    ensures x in Taken(f.version)
  {
    hide PositionModule, Finders, TimingRow, FormatStrips, VersionBlocks, Alignments, Probed, PositionTable,
      VerticalBit, HorizontalBit, VersionBit;
    var n := f.version * 4 + 17;
    if PositionModule(f.version, x) != None {
      PositionTaken(f.version, x);
    } else if f.version >= 7 && (VersionBit(x.0, x.1, n) >= 0 || VersionBit(x.1, x.0, n) >= 0) {
      VersionTaken(n, x);
    } else {
      FormatTaken(n, x);
    }
  }

  // ----- counting

  lemma {:induction false} DistinctWithin<T(!new)>(s: seq<T>, t: seq<T>)
    requires Distinct(s) && forall x :: x in s ==> x in t
    ensures |s| <= |t|
  {
    if s != [] {
      var (init, last) := (s[..|s| - 1], s[|s| - 1]);
      assert last in s && last in t;
      var k: nat :| k < |t| && t[k] == last;
      forall x | x in init ensures x in Splice(t, k) {
        var i: nat :| i < |init| && init[i] == x;
        assert s[i] == x && x in s && x != last;
        var j: nat :| j < |t| && t[j] == x;
        assert Splice(t, k)[if j < k then j else j - 1] == x;
      }
      DistinctWithin(init, Splice(t, k));
    }
  }

  // The cells of an order that the patterns have set.
  function SetCells(was: Snapshot, order: seq<Cell>): seq<Cell> {
    if order == [] then []
    else
      var x := order[|order| - 1];
      SetCells(was, order[..|order| - 1]) + if Unset(was, x) then [] else [x]
  }

  lemma {:induction false} SetCellsAre(was: Snapshot, order: seq<Cell>)
    requires Distinct(order)
    ensures Distinct(SetCells(was, order))
    ensures forall x :: x in SetCells(was, order) ==> x in order && !Unset(was, x)
  {
    if order != [] {
      var (init, x) := (order[..|order| - 1], order[|order| - 1]);
      assert order == init + [x];
      SetCellsAre(was, init);
      assert x !in init;
    }
  }

  lemma {:induction false} BitsAndSetCells(was: Snapshot, now: Snapshot, mask: Mask, order: seq<Cell>)
    ensures |ReadBack(was, now, mask, order)| + |SetCells(was, order)| == |order|
  {
    if order != [] { BitsAndSetCells(was, now, mask, order[..|order| - 1]); }
  }

  lemma {:induction false} OrderLength(n: nat, p: nat)
    ensures |OrderTo(n, p)| == 2 * n * p
  {
    if p > 0 {
      OrderLength(n, p - 1);
      assert 2 * n * p == 2 * n * (p - 1) + 2 * n;
    }
  }

  lemma SetCellsCount(f: Fixed, was: Snapshot)
    requires FixedOk(f) && Square(was, f.version * 4 + 17)
    requires forall x :: x in was ==> was[x] == PatternModule(f, x)
    ensures |SetCells(was, Order(f.version * 4 + 17))| <= TakenSize(f.version)
  {
    hide PatternModule, Taken, TakenSize, SetCells, Order, Distinct, Probed;
    var n := f.version * 4 + 17;
    VisitsEachCellOnce(n, (0, 0));
    SetCellsAre(was, Order(n));
    forall x | x in SetCells(was, Order(n)) ensures x in Taken(f.version) {
      VisitsEachCellOnce(n, x);
      PatternTaken(f, x);
    }
    DistinctWithin(SetCells(was, Order(n)), Taken(f.version));
  }

  lemma OrderCount(n: nat)
    requires n % 2 == 1
    ensures |Order(n)| == n * (n - 1)
  {
    hide OrderTo;
    OrderLength(n, n / 2);
    assert n - 1 == 2 * (n / 2);
    assert 2 * n * (n / 2) == n * (2 * (n / 2));
  }

  // As many bits come back as the modules outside column 6 that no pattern takes.
  lemma BitsLeft(f: Fixed, was: Snapshot, now: Snapshot, mask: Mask)
    requires FixedOk(f) && Square(was, f.version * 4 + 17)
    requires forall x :: x in was ==> was[x] == PatternModule(f, x)
    ensures var n := f.version * 4 + 17;
      |ReadBack(was, now, mask, Order(n))| + TakenSize(f.version) >= n * (n - 1)
  {
    hide PatternModule, TakenSize, ReadBack, SetCells, Order;
    var n := f.version * 4 + 17;
    SetCellsCount(f, was);
    BitsAndSetCells(was, now, mask, Order(n));
    OrderCount(n);
  }

  // ----- and the block table asks for no more

  function RowTotal(r: Row): nat {
    r.count * r.total + r.count2 * r.total2
  }

  lemma Share(t: nat, t2: nat, a: nat, b: nat)
    requires b > 0 ==> t2 == t + 1
    ensures a * t + b * t2 == t * (a + b) + b
  {
    if b > 0 { assert b * t2 == b * t + b; }
  }

  lemma TableRowTotal(version: nat, level: Level)
    requires 1 <= version <= 40
    ensures RowTotal(TableRow(version, level)) == CodewordTable(version)
  {
    RowsStandard(version, level);
    CodewordsAre(version);
    hide TableRow, BlockCount, CheckCodewords, SymbolCodewords, CodewordTable;
    var r := TableRow(version, level);
    Share(r.total, r.total2, r.count, r.count2);
  }

  lemma {:induction false} RowSizes(a: nat, i: nat, j: nat)
    requires a >= 2 && i < a && 1 <= j <= a
    ensures RowSize(a, i, j) == if i == 0 then 20 * ((if j == a then a - 1 else j) - 1)
                                else (if i + 1 < a then 20 else 0) + 25 * (j - 1)
  {
    if j > 1 { RowSizes(a, i, j - 1); } else { assert RowSize(a, i, 0) == 0; }
  }

  lemma {:induction false} AllSizes(a: nat, i: nat)
    requires a >= 2 && 1 <= i < a
    ensures AllSize(a, i) == 20 * (a - 2) + (i - 1) * (25 * a - 5)
  {
    RowSizes(a, i - 1, a);
    if i > 1 {
      AllSizes(a, i - 1);
      assert (i - 1) * (25 * a - 5) == (i - 2) * (25 * a - 5) + (25 * a - 5);
    } else {
      assert AllSize(a, 0) == 0;
    }
  }

  lemma AlignmentSizes(a: nat)
    requires a <= 7 && a != 1
    ensures AllSize(a, a) == if a == 0 then 0 else 25 * (a - 1) * (a - 1) + 40 * (a - 2)
  {
    hide RowSize;
    if a >= 2 {
      AllSizes(a, a - 1);
      RowSizes(a, a - 1, a);
      assert a == 2 || a == 3 || a == 4 || a == 5 || a == 6 || a == 7;
    }
  }

  lemma RoomFor1(version: nat)
    requires 1 <= version <= 10
    ensures var n := version * 4 + 17; 8 * CodewordTable(version) + TakenSize(version) <= n * (n - 1)
  {
    hide AllSize;
    TableEnds(version);
    AlignmentSizes(|PositionTable(version)|);
  }

  lemma RoomFor11(version: nat)
    requires 11 <= version <= 20
    ensures var n := version * 4 + 17; 8 * CodewordTable(version) + TakenSize(version) <= n * (n - 1)
  {
    hide AllSize;
    TableEnds(version);
    AlignmentSizes(|PositionTable(version)|);
  }

  lemma RoomFor21(version: nat)
    requires 21 <= version <= 30
    ensures var n := version * 4 + 17; 8 * CodewordTable(version) + TakenSize(version) <= n * (n - 1)
  {
    hide AllSize;
    TableEnds(version);
    AlignmentSizes(|PositionTable(version)|);
  }

  lemma RoomFor31(version: nat)
    requires 31 <= version <= 40
    ensures var n := version * 4 + 17; 8 * CodewordTable(version) + TakenSize(version) <= n * (n - 1)
  {
    hide AllSize;
    TableEnds(version);
    AlignmentSizes(|PositionTable(version)|);
  }

  /** The modules a symbol has left hold all codewords of its version, at every level. */
  lemma RoomForCodewords(version: nat, level: Level)
    requires 1 <= version <= 40
    ensures var n := version * 4 + 17;
      8 * RowTotal(TableRow(version, level)) + TakenSize(version) <= n * (n - 1)
  {
    TableRowTotal(version, level);
    hide TakenSize, CodewordTable, TableRow, RowTotal;
    if version <= 10 { RoomFor1(version); } else if version <= 20 { RoomFor11(version); }
    else if version <= 30 { RoomFor21(version); } else { RoomFor31(version); }
  }
}
