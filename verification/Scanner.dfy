/** What a scanner finds at the places where ISO/IEC 18004 tells it to look, in a symbol whose
    patterns assets/js/qrcode.js:75-94 and 116-265 drew. */
module Scanner {
  import opened Capacity
  import opened Patterns
  import opened Placement
  import opened Prelude

  // ----- format information

  // Where bit i of the format information stands beside the upper left finder pattern.
  function FormatCell(i: nat): Cell
    requires i < 15
  {
    if i < 6 then (i, 8) else if i == 6 then (7, 8) else if i == 7 then (8, 8) else if i == 8 then (8, 7)
    else (8, 14 - i)
  }

  // And beside the other two.
  function OtherFormatCell(i: nat, n: int): Cell
    requires i < 15
  {
    if i < 8 then (8, n - 1 - i) else (n - 15 + i, 8)
  }

  // Both copies hold the bits, and the dark module is dark.
  lemma FormatReads(f: Fixed, i: nat)
    requires FixedOk(f) && i < 15 && !f.test
    ensures var n := f.version * 4 + 17;
      && FormatCell(i) in Probed(n) && PatternModule(f, FormatCell(i)) == Some(f.typeInfo[i])
      && OtherFormatCell(i, n) in Probed(n) && PatternModule(f, OtherFormatCell(i, n)) == Some(f.typeInfo[i])
      && (n - 8, 8) in Probed(n) && PatternModule(f, (n - 8, 8)) == Some(true)
  {
    hide PositionModule, Probed;
    var n := f.version * 4 + 17;
    NoVersionThere(f, FormatCell(i));
    NoVersionThere(f, OtherFormatCell(i, n));
    NoVersionThere(f, (n - 8, 8));
  }

  // The version blocks stay clear of row 8 and column 8.
  lemma NoVersionThere(f: Fixed, x: Cell)
    requires FixedOk(f) && (x.0 == 8 || x.1 == 8) && x in Probed(f.version * 4 + 17)
    ensures var n := f.version * 4 + 17;
      PatternModule(f, x) == FormattedModule(PositionModule(f.version, x), x, f.typeInfo, f.test, n)
  {
    hide PositionModule, FormattedModule, Probed;
  }

  // ----- version information

  // Both copies hold the bits, three a row above the lower left finder and three a column left of
  // the upper right one.
  lemma VersionReads(f: Fixed, i: nat)
    requires FixedOk(f) && i < 18 && !f.test && f.version >= 7
    ensures var n := f.version * 4 + 17;
      && (i / 3, n - 11 + i % 3) in Probed(n) && PatternModule(f, (i / 3, n - 11 + i % 3)) == Some(f.typeNumber[i])
      && (n - 11 + i % 3, i / 3) in Probed(n) && PatternModule(f, (n - 11 + i % 3, i / 3)) == Some(f.typeNumber[i])
  {
    hide PositionModule, FormattedModule, Probed, VersionBit;
    var n := f.version * 4 + 17;
    var (r, c) := (i / 3, n - 11 + i % 3);
    VersionBitOnce(i, n, r, c);
    BlocksApart(n, r, c);
    BlocksApart(n, c, r);
  }

  // ----- finder and alignment patterns

  // The corner of the finder pattern whose area, with the separator, holds x.
  predicate InFinder(n: int, x: Cell, row: int, col: int) {
    && (row, col) in {(0, 0), (n - 7, 0), (0, n - 7)}
    && 0 <= x.0 < n && 0 <= x.1 < n && -1 <= x.0 - row <= 7 && -1 <= x.1 - col <= 7
  }

  // No centre outside the three corners is within two modules of a finder's area.
  lemma CentresThere(pos: seq<int>, n: nat, x: Cell, row: int, col: int, a: nat, b: nat)
    requires n >= 21 && Spaced(pos, n) && Ends(pos, n) && InFinder(n, x, row, col) && a < |pos| && b < |pos|
    requires -2 <= x.0 - pos[a] <= 2 && -2 <= x.1 - pos[b] <= 2
    ensures Corner(|pos|, a, b)
  {
    var last := |pos| - 1;
    if a > 0 { SpacedApart(pos, n, 0, a); }
    if b > 0 { SpacedApart(pos, n, 0, b); }
    if a < last { SpacedApart(pos, n, a, last); }
    if b < last { SpacedApart(pos, n, b, last); }
  }

  /** Rings of finder patterns stand in three corners, each with its light separator. */
  lemma FinderReads(version: nat, x: Cell, row: int, col: int)
    requires 1 <= version <= 40 && InFinder(version * 4 + 17, x, row, col)
    ensures x in Probed(version * 4 + 17)
    ensures PositionModule(version, x) == Some(Ring(x.0 - row - 3, x.1 - col - 3) !in {2, 4})
  {
    hide ProbeDark, Probed, PositionTable, Spaced, Ends, Ring, Corner, Near;
    var (n, pos) := (version * 4 + 17, PositionTable(version));
    PositionsSpaced(version);
    TableEnds(version);
    ProbedIs(n, x.0, x.1);
    FinderRings(x.0 - row, x.1 - col);
    var (a, b) := (Near(pos, x.0), Near(pos, x.1));
    if a < |pos| && b < |pos| {
      CentresThere(pos, n, x, row, col, a, b);
      CornersSet(pos, n, a, b);
    }
  }

  // Another centre is clear of the finders.
  lemma CentreFree(pos: seq<int>, n: nat, i: nat, j: nat)
    requires n >= 21 && Spaced(pos, n) && Ends(pos, n) && i < |pos| && j < |pos| && !Corner(|pos|, i, j)
    ensures (pos[i], pos[j]) in Probed(n) && Unset(Probed(n), (pos[i], pos[j]))
  {
    hide ProbeDark, Probed;
    var last := |pos| - 1;
    if i > 0 { SpacedApart(pos, n, 0, i); }
    if j > 0 { SpacedApart(pos, n, 0, j); }
    if i < last { SpacedApart(pos, n, i, last); }
    if j < last { SpacedApart(pos, n, j, last); }
    ProbedIs(n, pos[i], pos[j]);
  }

  /** Rings of alignment patterns stand around every pair of centres but the three in the corners. */
  lemma AlignmentReads(version: nat, i: nat, j: nat, r: int, c: int)
    requires 1 <= version <= 40 && -2 <= r <= 2 && -2 <= c <= 2
    requires var pos := PositionTable(version); i < |pos| && j < |pos| && !Corner(|pos|, i, j)
    ensures var (n, pos) := (version * 4 + 17, PositionTable(version));
      (pos[i] + r, pos[j] + c) in Probed(n)
      && PositionModule(version, (pos[i] + r, pos[j] + c)) == Some(Ring(r, c) != 1)
  {
    hide ProbeDark, Probed, PositionTable, Ends, Ring, Corner, Near, AdjustDark;
    var (n, pos) := (version * 4 + 17, PositionTable(version));
    PositionsSpaced(version);
    TableEnds(version);
    CentreFree(pos, n, i, j);
    AlignmentRings(r, c);
    NearIs(pos, n, pos[i] + r, i);
    NearIs(pos, n, pos[j] + c, j);
    hide Spaced;
  }

  // ----- the clock

  lemma {:induction false} EvenCentres(version: nat, i: nat)
    requires 1 <= version <= 40 && i < |PositionTable(version)|
    ensures PositionTable(version)[i] % 2 == 0 && (i == 0 ==> PositionTable(version)[0] == 6)
  {
    hide PositionTable;
    PositionsFollow(version);
    if version == 1 {
      assert false;
    } else if i > 0 {
      EvenMultiple(|PositionTable(version)| - 1 - i, Gap(version));
    }
  }

  lemma EvenMultiple(k: nat, gap: nat)
    requires gap % 2 == 0
    ensures k * gap % 2 == 0
  {
    assert gap == 2 * (gap / 2);
    assert k * gap == 2 * (k * (gap / 2));
  }

  // Between the finders the modules of row 6 and of column 6 are dark and light in turn, across
  // the alignment patterns too.
  lemma TimingReads(version: nat, k: int)
    requires 1 <= version <= 40 && 8 <= k < version * 4 + 9
    ensures var n := version * 4 + 17;
      && (6, k) in Probed(n) && PositionModule(version, (6, k)) == Some(k % 2 == 0)
      && (k, 6) in Probed(n) && PositionModule(version, (k, 6)) == Some(k % 2 == 0)
  {
    hide PositionTable, Near, Probed;
    var (n, pos) := (version * 4 + 17, PositionTable(version));
    BetweenFinders(n, (6, k));
    BetweenFinders(n, (k, 6));
    PositionsSpaced(version);
    if pos != [] {
      EvenCentres(version, 0);
      NearIs(pos, n, 6, 0);
      var b := Near(pos, k);
      if b < |pos| { EvenCentres(version, b); }
    }
  }

  lemma BetweenFinders(n: nat, x: Cell)
    requires n >= 21 && ((x.0 == 6 && 8 <= x.1 < n - 8) || (x.1 == 6 && 8 <= x.0 < n - 8))
    ensures x in Probed(n) && Probed(n)[x] == None
  {
    hide ProbeDark;
    assert Probed(n)[(x.0, x.1)] == ProbedModule((x.0, x.1), n);
  }

  // ----- the zigzag

  // Where the scanner goes next within the p-th pair of columns from the right: two modules a row,
  // the right one first, upwards in even pairs and downwards in odd ones, past column 6.
  lemma ZigzagIs(n: nat, p: nat, k: nat)
    requires n % 2 == 1 && n >= 7 && p < n / 2 && k < n
    ensures var (row, right) := (if p % 2 == 0 then n - 1 - k else k,
                                 if n - 1 - 2 * p > 6 then n - 1 - 2 * p else n - 2 - 2 * p);
      && 2 * (n * p + k) + 1 < |Order(n)|
      && Order(n)[2 * (n * p + k)] == (row, right) && Order(n)[2 * (n * p + k) + 1] == (row, right - 1)
  {
    hide OrderTo;
    OrderPair(n, n / 2, p, k);
  }

  lemma {:induction false} OrderSize(n: nat, q: nat)
    ensures |OrderTo(n, q)| == 2 * (n * q)
  {
    hide PairCells;
    if q > 0 {
      OrderSize(n, q - 1);
      OneMore(n, q - 1);
    }
  }

  lemma OneMore(n: nat, p: nat)
    ensures n * (p + 1) == n * p + n
  {
  }

  lemma {:induction false} OrderPair(n: nat, q: nat, p: nat, k: nat)
    requires p < q && k < n
    ensures 2 * (n * p + k) + 1 < |OrderTo(n, q)|
    ensures OrderTo(n, q)[2 * (n * p + k)] == (RowOf(n, p, k), ColumnOf(n, p))
    ensures OrderTo(n, q)[2 * (n * p + k) + 1] == (RowOf(n, p, k), ColumnOf(n, p) - 1)
  {
    hide PairCells, RowOf, ColumnOf;
    OrderSize(n, q - 1);
    if p == q - 1 {
      PairAt(n, p, n, k);
    } else {
      OrderPair(n, q - 1, p, k);
    }
  }

  lemma {:induction false} PairAt(n: nat, p: nat, m: nat, k: nat)
    requires k < m
    ensures PairCells(n, p, m)[2 * k] == (RowOf(n, p, k), ColumnOf(n, p))
    ensures PairCells(n, p, m)[2 * k + 1] == (RowOf(n, p, k), ColumnOf(n, p) - 1)
  {
    hide RowOf, ColumnOf;
    if k < m - 1 { PairAt(n, p, m - 1, k); }
  }
}
