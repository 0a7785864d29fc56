/** Where the modules of a QR symbol go, assets/js/qrcode.js:57-72, 75-94, 116-265: the fixed
    patterns, then the zigzag of mapData over whatever they left unset. None is null.

    The mask is any predicate on coordinates; the eight of getMaskFunction are instances. */
module Placement {
  import opened Patterns
  import opened Prelude
  import opened QrBuffer

  type Cell = (int, int)
  type Mask = (int, int) -> bool
  type Snapshot = map<Cell, Option<bool>>   // every cell of the square, set or null

  ghost predicate Square(s: Snapshot, n: nat) {
    forall x :: x in s <==> 0 <= x.0 < n && 0 <= x.1 < n
  }

  predicate Unset(s: Snapshot, x: Cell) {
    x in s && s[x] == None
  }

  // ----- the order of the zigzag

  // The right column of the p-th pair; the timing column 6 is stepped over.
  function ColumnOf(n: int, p: nat): int {
    if n - 1 - 2 * p <= 6 then n - 2 - 2 * p else n - 1 - 2 * p
  }

  // The row of the k-th step in the p-th pair: up in even pairs, down in odd ones.
  function RowOf(n: int, p: nat, k: nat): int {
    if p % 2 == 0 then n - 1 - k else k
  }

  // The first k steps of pair p, two cells each.
  function PairCells(n: int, p: nat, k: nat): (s: seq<Cell>)
    ensures |s| == 2 * k
  {
    if k == 0 then []
    else
      PairCells(n, p, k - 1)
      + [(RowOf(n, p, k - 1), ColumnOf(n, p)), (RowOf(n, p, k - 1), ColumnOf(n, p) - 1)]
  }

  // All cells of the first p pairs.
  function OrderTo(n: nat, p: nat): seq<Cell> {
    if p == 0 then [] else OrderTo(n, p - 1) + PairCells(n, p - 1, n)
  }

  function Order(n: nat): seq<Cell> {
    OrderTo(n, n / 2)
  }

  // The pair a column other than 6 belongs to.
  function PairOf(n: int, c: int): int {
    if c > 6 then (n - 1 - c) / 2 else (n - 2 - c) / 2
  }

  lemma {:induction false} InPair(n: nat, p: nat, k: nat, x: Cell)
    requires n % 2 == 1 && n >= 7 && p < n / 2 && k <= n
    ensures x in PairCells(n, p, k) <==>
            0 <= x.0 < n && 0 <= x.1 < n && x.1 != 6 && PairOf(n, x.1) == p
            && (if p % 2 == 0 then n - 1 - x.0 else x.0) < k
  {
    if k > 0 { InPair(n, p, k - 1, x); }
  }

  lemma {:induction false} InOrder(n: nat, p: nat, x: Cell)
    requires n % 2 == 1 && n >= 7 && p <= n / 2
    ensures x in OrderTo(n, p) <==> 0 <= x.0 < n && 0 <= x.1 < n && x.1 != 6 && PairOf(n, x.1) < p
  {
    if p > 0 {
      InOrder(n, p - 1, x);
      InPair(n, p - 1, n, x);
    }
  }

  lemma {:induction false} PairDistinct(n: nat, p: nat, k: nat)
    requires n % 2 == 1 && n >= 7 && p < n / 2 && k <= n
    ensures Distinct(PairCells(n, p, k))
  {
    if k > 0 {
      PairDistinct(n, p, k - 1);
      InPair(n, p, k - 1, (RowOf(n, p, k - 1), ColumnOf(n, p)));
      InPair(n, p, k - 1, (RowOf(n, p, k - 1), ColumnOf(n, p) - 1));
    }
  }

  lemma DistinctAppend<T(!new)>(s: seq<T>, t: seq<T>)
    requires Distinct(s) && Distinct(t) && forall x :: x in s ==> x !in t
    ensures Distinct(s + t)
  {
    var u := s + t;
    forall i, j | 0 <= i < j < |u| ensures u[i] != u[j] {
      if i < |s| <= j { assert u[i] in s && u[j] in t; }
    }
  }

  lemma {:induction false} OrderDistinct(n: nat, p: nat)
    requires n % 2 == 1 && n >= 7 && p <= n / 2
    ensures Distinct(OrderTo(n, p))
  {
    hide Distinct, PairCells;
    if p > 0 {
      var (s, t) := (OrderTo(n, p - 1), PairCells(n, p - 1, n));
      OrderDistinct(n, p - 1);
      PairDistinct(n, p - 1, n);
      forall x | x in s ensures x !in t {
        InOrder(n, p - 1, x);
        InPair(n, p - 1, n, x);
      }
      DistinctAppend(s, t);
    } else {
      NoneTwice<Cell>();
    }
  }

  lemma NoneTwice<T(!new)>()
    ensures Distinct<T>([])
  {
  }

  /** On every odd size from 7 the zigzag visits each cell outside column 6 exactly once, and no
      other. */
  lemma VisitsEachCellOnce(n: nat, x: Cell)
    requires n % 2 == 1 && n >= 7
    ensures Distinct(Order(n))
    ensures x in Order(n) <==> 0 <= x.0 < n && 0 <= x.1 < n && x.1 != 6
  {
    OrderDistinct(n, n / 2);
    InOrder(n, n / 2, x);
  }

  // ----- the bits placed, and read back

  // (data[byteIndex] >>> bitIndex) & 1, false past the end, for the k-th bit overall.
  function StreamBit(data: seq<bv8>, k: nat): bool {
    k / 8 < |data| && BitOf(data[k / 8], k % 8)
  }

  function StreamBits(data: seq<bv8>, k: nat): (s: seq<bool>)
    ensures |s| == k
  {
    if k == 0 then [] else StreamBits(data, k - 1) + [StreamBit(data, k - 1)]
  }

  // With room for all of them, the codewords are placed whole.
  lemma {:induction false} StreamHoldsCodewords(data: seq<bv8>, k: nat)
    ensures forall i :: 0 <= i < k ==>
              StreamBits(data, k)[i] == if i < 8 * |data| then BitsOf(data, 8 * |data|)[i] else false
  {
    hide BitOf;
    if k > 0 { StreamHoldsCodewords(data, k - 1); }
  }

  // What a reader sees who follows the order, skips the modules the patterns had set, and unmasks.
  function ReadBack(was: Snapshot, now: Snapshot, mask: Mask, order: seq<Cell>): seq<bool> {
    if order == [] then []
    else
      var x := order[|order| - 1];
      ReadBack(was, now, mask, order[..|order| - 1])
      + if Unset(was, x) then [(x in now && now[x] == Some(true)) != mask(x.0, x.1)] else []
  }

  lemma {:induction false} ReadBackFrame(was: Snapshot, now: Snapshot, later: Snapshot, mask: Mask, order: seq<Cell>)
    requires now.Keys == later.Keys && forall x :: x in order && x in now ==> now[x] == later[x]
    ensures ReadBack(was, now, mask, order) == ReadBack(was, later, mask, order)
  {
    if order != [] { ReadBackFrame(was, now, later, mask, order[..|order| - 1]); }
  }

  lemma ReadBackSnoc(was: Snapshot, now: Snapshot, mask: Mask, order: seq<Cell>, x: Cell)
    ensures ReadBack(was, now, mask, order + [x])
         == ReadBack(was, now, mask, order)
            + if Unset(was, x) then [(x in now && now[x] == Some(true)) != mask(x.0, x.1)] else []
  {
    assert (order + [x])[..|order + [x]| - 1] == order;
  }

  // Where the placement stands after the cells in `visited`.
  ghost predicate Placed(was: Snapshot, now: Snapshot, data: seq<bv8>, mask: Mask, visited: seq<Cell>, bits: nat) {
    && now.Keys == was.Keys
    && (forall x :: x in was && (was[x] != None || x !in visited) ==> now[x] == was[x])
    && (forall x :: x in visited ==> x in now && now[x] != None)
    && ReadBack(was, now, mask, visited) == StreamBits(data, bits)
  }

  lemma PlaceOne(was: Snapshot, now: Snapshot, later: Snapshot, data: seq<bv8>, mask: Mask,
                 visited: seq<Cell>, bits: nat, x: Cell)
    requires Placed(was, now, data, mask, visited, bits) && x in was && x !in visited
    requires later == if now[x] == None then now[x := Some(StreamBit(data, bits) != mask(x.0, x.1))] else now
    ensures Placed(was, later, data, mask, visited + [x], if was[x] == None then bits + 1 else bits)
  {
    hide StreamBit;
    ReadBackFrame(was, now, later, mask, visited);
    ReadBackSnoc(was, later, mask, visited, x);
    forall y | y in visited + [x] ensures y in later && later[y] != None {
      if y in visited { assert now[y] != None; }
    }
  }

  lemma StreamBitIs(data: seq<bv8>, byteIndex: nat, bitIndex: nat, dark: bool)
    requires bitIndex < 8
    requires dark == (byteIndex < |data| && (data[byteIndex] >> bitIndex) & 1 == 1)
    ensures dark == StreamBit(data, 8 * byteIndex + 7 - bitIndex)
  {
    assert (8 * byteIndex + 7 - bitIndex) / 8 == byteIndex && (8 * byteIndex + 7 - bitIndex) % 8 == 7 - bitIndex;
  }

  // A cell of step k in pair p has not been visited before that step.
  lemma NotYetVisited(n: nat, p: nat, k: nat, x: Cell)
    requires n % 2 == 1 && n >= 7 && p < n / 2 && k < n
    requires x.0 == RowOf(n, p, k) && (x.1 == ColumnOf(n, p) || x.1 == ColumnOf(n, p) - 1)
    ensures 0 <= x.0 < n && 0 <= x.1 < n && x !in OrderTo(n, p) + PairCells(n, p, k)
  {
    InOrder(n, p, x);
    InPair(n, p, k, x);
  }

  lemma StartPlaced(was: Snapshot, data: seq<bv8>, mask: Mask)
    ensures Placed(was, was, data, mask, [], 0)
  {
  }

  // A finder pattern and its separator, relative to the pattern's corner.
  predicate ProbeDark(r: int, c: int) {
    || (0 <= r <= 6 && (c == 0 || c == 6))
    || (0 <= c <= 6 && (r == 0 || r == 6))
    || (2 <= r <= 4 && 2 <= c <= 4)
  }

  // Its dark rings are the core of three by three and the frame; the separator is light.
  lemma FinderRings(r: int, c: int)
    requires -1 <= r <= 7 && -1 <= c <= 7
    ensures ProbeDark(r, c) <==> Ring(r - 3, c - 3) != 2 && Ring(r - 3, c - 3) != 4
  {
  }

  // What a scanner looks for: through the centre, across and down, the runs are 1:1:3:1:1.
  lemma FinderRuns(k: int)
    requires -1 <= k <= 7
    ensures ProbeDark(3, k) == [false, true, false, true, true, true, false, true, false][k + 1]
    ensures ProbeDark(k, 3) == [false, true, false, true, true, true, false, true, false][k + 1]
  {
    assert k == -1 || k == 0 || k == 1 || k == 2 || k == 3 || k == 4 || k == 5 || k == 6 || k == 7;
  }

  // A module once the timing column is drawn up to row r and the timing row up to column c.
  function TimedModule(was: Option<bool>, x: Cell, r: int, c: int): Option<bool> {
    if was != None then was
    else if x.1 == 6 && 8 <= x.0 < r then Some(x.0 % 2 == 0)
    else if x.0 == 6 && 8 <= x.1 < c then Some(x.1 % 2 == 0)
    else None
  }

  // A module once the alignment patterns are drawn up to the j-th of the i-th row of centres.
  function Adjusted(was: Snapshot, pos: seq<int>, x: Cell, i: nat, j: nat): Option<bool>
    requires x in was
  {
    var (a, b) := (Near(pos, x.0), Near(pos, x.1));
    if a < |pos| && b < |pos| && (a < i || (a == i && b < j)) && Unset(was, (pos[a], pos[b]))
    then Some(AdjustDark(x.0 - pos[a], x.1 - pos[b]))
    else was[x]
  }

  predicate InBounds(v: int, n: int) {
    2 <= v < n - 2
  }

  lemma CentreInBounds(pos: seq<int>, n: int, i: nat)
    requires Spaced(pos, n) && i < |pos|
    ensures InBounds(pos[i], n)
  {
  }

  lemma NothingAdjusted(was: Snapshot, pos: seq<int>, x: Cell)
    requires x in was
    ensures Adjusted(was, pos, x, 0, 0) == was[x]
  {
  }

  lemma AdjustRow(was: Snapshot, pos: seq<int>, x: Cell, i: nat)
    requires x in was
    ensures Adjusted(was, pos, x, i + 1, 0) == Adjusted(was, pos, x, i, |pos|)
  {
    hide Near, AdjustDark;
  }

  // Drawing one more pattern changes its 25 modules only, and only if its centre was unset.
  lemma AdjustStep(was: Snapshot, pos: seq<int>, n: nat, x: Cell, i: nat, j: nat)
    requires Square(was, n) && Spaced(pos, n) && x in was && i < |pos| && j < |pos|
    ensures (pos[i], pos[j]) in was
    ensures Adjusted(was, pos, x, i, j + 1)
         == if -2 <= x.0 - pos[i] <= 2 && -2 <= x.1 - pos[j] <= 2 && Adjusted(was, pos, (pos[i], pos[j]), i, j) == None
            then Some(AdjustDark(x.0 - pos[i], x.1 - pos[j])) else Adjusted(was, pos, x, i, j)
  {
    hide Near, AdjustDark, Spaced;
    CentreInBounds(pos, n, i); CentreInBounds(pos, n, j);
    NearIs(pos, n, x.0, i); NearIs(pos, n, x.1, j);
    NearIs(pos, n, pos[i], i); NearIs(pos, n, pos[j], j);
  }

  lemma NoTiming(was: Option<bool>, x: Cell)
    ensures TimedModule(was, x, 8, 8) == was
  {
  }

  // Drawing one more module changes that module only, and only if it was null.
  lemma TimingStep(was: Option<bool>, x: Cell, r: int, c: int)
    requires r >= 8 && c >= 8
    ensures TimedModule(was, x, r + 1, c) ==
            if x == (r, 6) && TimedModule(was, x, r, c) == None then Some(r % 2 == 0) else TimedModule(was, x, r, c)
    ensures TimedModule(was, x, r, c + 1) ==
            if x == (6, c) && TimedModule(was, x, r, c) == None then Some(c % 2 == 0) else TimedModule(was, x, r, c)
  {
  }

  // A module once i bits of the vertical format strip and j of the horizontal one are drawn.
  function FormatModule(was: Option<bool>, x: Cell, bits: seq<bool>, test: bool, n: int, i: nat, j: nat): Option<bool>
    requires i <= 15 && j <= 15 && |bits| == 15
  {
    var (k, l) := (VerticalBit(x.0, n), HorizontalBit(x.1, n));
    if x.1 == 8 && 0 <= k < i then Some(!test && bits[k])
    else if x.0 == 8 && 0 <= l < j then Some(!test && bits[l])
    else was
  }

  // The format bits and the dark module, which a test symbol leaves light.
  function FormattedModule(was: Option<bool>, x: Cell, bits: seq<bool>, test: bool, n: int): Option<bool>
    requires |bits| == 15
  {
    if x == (n - 8, 8) then Some(!test) else FormatModule(was, x, bits, test, n, 15, 15)
  }

  lemma NoFormat(was: Option<bool>, x: Cell, bits: seq<bool>, test: bool, n: int)
    requires |bits| == 15
    ensures FormatModule(was, x, bits, test, n, 0, 0) == was
  {
  }

  lemma StripsInside(i: nat, n: int)
    requires i < 15 && n >= 21
    ensures 0 <= VerticalRow(i, n) < n && 0 <= HorizontalColumn(i, n) < n
  {
  }

  lemma VerticalStep(was: Option<bool>, x: Cell, bits: seq<bool>, test: bool, n: int, i: nat)
    requires |bits| == 15 && i < 15 && n >= 21
    ensures FormatModule(was, x, bits, test, n, i + 1, 0)
         == if x == (VerticalRow(i, n), 8) then Some(!test && bits[i]) else FormatModule(was, x, bits, test, n, i, 0)
  {
    hide VerticalBit, HorizontalBit, VerticalRow;
    FormatBitOnce(i, n, x.0);
  }

  lemma HorizontalStep(was: Option<bool>, x: Cell, bits: seq<bool>, test: bool, n: int, i: nat)
    requires |bits| == 15 && i < 15 && n >= 21
    ensures FormatModule(was, x, bits, test, n, 15, i + 1)
         == if x == (8, HorizontalColumn(i, n)) then Some(!test && bits[i])
            else FormatModule(was, x, bits, test, n, 15, i)
  {
    FormatBitOnce(i, n, x.1);
  }

  // A module once i bits of the upper version block and j of the left one are drawn.
  function VersionModule(was: Option<bool>, x: Cell, bits: seq<bool>, test: bool, n: int, i: nat, j: nat): Option<bool>
    requires i <= 18 && j <= 18 && |bits| == 18 && n >= 21
  {
    var (k, l) := (VersionBit(x.0, x.1, n), VersionBit(x.1, x.0, n));
    if 0 <= k < i then Some(!test && bits[k])
    else if 0 <= l < j then Some(!test && bits[l])
    else was
  }

  lemma NoVersion(was: Option<bool>, x: Cell, bits: seq<bool>, test: bool, n: int)
    requires |bits| == 18 && n >= 21
    ensures VersionModule(was, x, bits, test, n, 0, 0) == was
  {
  }

  lemma VersionStep(was: Option<bool>, x: Cell, bits: seq<bool>, test: bool, n: int, i: nat)
    requires |bits| == 18 && i < 18 && n >= 21
    ensures VersionModule(was, x, bits, test, n, i + 1, 0)
         == if x == (VersionRow(i), VersionColumn(i, n)) then Some(!test && bits[i])
            else VersionModule(was, x, bits, test, n, i, 0)
    ensures VersionModule(was, x, bits, test, n, 18, i + 1)
         == if x == (VersionColumn(i, n), VersionRow(i)) then Some(!test && bits[i])
            else VersionModule(was, x, bits, test, n, 18, i)
  {
    hide VersionBit, VersionRow, VersionColumn;
    VersionBitOnce(i, n, x.0, x.1);
    VersionBitOnce(i, n, x.1, x.0);
    BlocksApart(n, x.0, x.1);
  }

  // A module once a finder pattern and its separator are drawn with their corner at (row, col).
  function ProbedOver(was: Option<bool>, x: Cell, row: int, col: int): Option<bool> {
    if -1 <= x.0 - row <= 7 && -1 <= x.1 - col <= 7 then Some(ProbeDark(x.0 - row, x.1 - col)) else was
  }

  // A module once the three finder patterns are drawn.
  function ProbedModule(x: Cell, n: int): Option<bool> {
    ProbedOver(ProbedOver(ProbedOver(None, x, 0, 0), x, n - 7, 0), x, 0, n - 7)
  }

  function Probed(n: nat): (s: Snapshot)
    ensures Square(s, n)
  {
    map r, c | 0 <= r < n && 0 <= c < n :: (r, c) := ProbedModule((r, c), n)
  }

  lemma AllProbed(s: Snapshot, n: nat)
    requires Square(s, n) && forall x :: x in s ==> s[x] == ProbedModule(x, n)
    ensures s == Probed(n)
  {
    hide ProbedModule;
    var t := Probed(n);
    forall x | x in s ensures x in t && s[x] == t[x] { assert t[(x.0, x.1)] == ProbedModule((x.0, x.1), n); }
  }

  datatype Fixed = Fixed(version: nat, typeInfo: seq<bool>, typeNumber: seq<bool>, test: bool)

  predicate FixedOk(f: Fixed) {
    1 <= f.version <= 40 && |f.typeInfo| == 15 && |f.typeNumber| == 18
  }

  // A module once the finder, alignment and timing patterns are drawn.
  function PositionModule(version: nat, x: Cell): Option<bool>
    requires 1 <= version <= 40 && x in Probed(version * 4 + 17)
  {
    var (n, pos) := (version * 4 + 17, PositionTable(version));
    TimedModule(Adjusted(Probed(n), pos, x, |pos|, 0), x, n - 8, n - 8)
  }

  // A module of the finished function patterns.
  function PatternModule(f: Fixed, x: Cell): Option<bool>
    requires FixedOk(f) && x in Probed(f.version * 4 + 17)
  {
    var n := f.version * 4 + 17;
    var formatted := FormattedModule(PositionModule(f.version, x), x, f.typeInfo, f.test, n);
    if f.version < 7 then formatted else VersionModule(formatted, x, f.typeNumber, f.test, n, 18, 18)
  }

  // No pattern takes a module back.
  lemma AdjustedSets(was: Snapshot, pos: seq<int>, x: Cell)
    requires x in was && was[x] != None
    ensures Adjusted(was, pos, x, |pos|, 0) != None
  {
    hide Near, AdjustDark;
  }

  lemma FormatSets(was: Option<bool>, x: Cell, bits: seq<bool>, test: bool, n: int)
    requires was != None && |bits| == 15
    ensures FormattedModule(was, x, bits, test, n) != None
  {
    hide VerticalBit, HorizontalBit;
  }

  lemma VersionSets(was: Option<bool>, x: Cell, bits: seq<bool>, test: bool, n: int)
    requires was != None && |bits| == 18 && n >= 21
    ensures VersionModule(was, x, bits, test, n, 18, 18) != None
  {
    hide VersionBit;
  }

  // The finder patterns and the timing column fill column 6.
  lemma TimingColumnFull(f: Fixed, x: Cell)
    requires FixedOk(f) && x in Probed(f.version * 4 + 17) && x.1 == 6
    ensures PatternModule(f, x) != None
  {
    hide Adjusted, FormattedModule, VersionModule, PositionTable, Probed;
    var n := f.version * 4 + 17;
    var (probes, pos) := (Probed(n), PositionTable(f.version));
    var adjusted := Adjusted(probes, pos, x, |pos|, 0);
    var timed := TimedModule(adjusted, x, n - 8, n - 8);
    if x.0 <= 7 || n - 8 <= x.0 {
      ProbedAt(n, x);
      AdjustedSets(probes, pos, x);
    }
    assert timed != None;
    FormatSets(timed, x, f.typeInfo, f.test, n);
    VersionSets(FormattedModule(timed, x, f.typeInfo, f.test, n), x, f.typeNumber, f.test, n);
  }

  lemma ProbedAt(n: nat, x: Cell)
    requires x in Probed(n) && x.1 == 6 && (x.0 <= 7 || n - 8 <= x.0)
    ensures Probed(n)[x] != None
  {
    hide ProbeDark;
    assert Probed(n)[(x.0, x.1)] == ProbedModule((x.0, x.1), n);
  }

  class Symbol {
    const moduleCount: nat
    var modules: Snapshot

    constructor (moduleCount: nat)
      ensures this.moduleCount == moduleCount && Square(modules, moduleCount)
      ensures forall x :: x in modules ==> modules[x] == None
    {
      this.moduleCount := moduleCount;
      modules := map r, c | 0 <= r < moduleCount && 0 <= c < moduleCount :: (r, c) := None;
    }

    // ----- the fixed patterns

    // Row r of a finder pattern.
    method DrawProbeRow(row: int, col: int, r: int)
      requires Square(modules, moduleCount) && 0 <= row + r < moduleCount
      modifies this
      ensures Square(modules, moduleCount)
      ensures forall x :: x in modules ==>
                modules[x] == if x.0 == row + r && -1 <= x.1 - col <= 7 then Some(ProbeDark(r, x.1 - col))
                              else old(modules)[x]
    {
      hide ProbeDark;
      for c := -1 to 8
        invariant Square(modules, moduleCount)
        invariant forall x :: x in modules ==>
                    modules[x] == if x.0 == row + r && -1 <= x.1 - col < c then Some(ProbeDark(r, x.1 - col))
                                  else old(modules)[x]
      {
        if col + c <= -1 || moduleCount <= col + c { continue; }
        modules := modules[(row + r, col + c) := Some(ProbeDark(r, c))];
      }
    }

    method SetupPositionProbePattern(row: int, col: int)
      requires Square(modules, moduleCount)
      modifies this
      ensures Square(modules, moduleCount)
      ensures forall x :: x in modules ==> modules[x] == ProbedOver(old(modules)[x], x, row, col)
    {
      hide ProbeDark;
      for r := -1 to 8
        invariant Square(modules, moduleCount)
        invariant forall x :: x in modules ==>
                    modules[x] == if -1 <= x.0 - row < r && -1 <= x.1 - col <= 7
                                  then Some(ProbeDark(x.0 - row, x.1 - col))
                                  else old(modules)[x]
      {
        if row + r <= -1 || moduleCount <= row + r { continue; }
        DrawProbeRow(row, col, r);
      }
    }

    // Row r of an alignment pattern.
    method DrawAdjustRow(row: int, col: int, r: int)
      requires Square(modules, moduleCount) && 2 <= row < moduleCount - 2 && 2 <= col < moduleCount - 2 && -2 <= r <= 2
      modifies this
      ensures Square(modules, moduleCount)
      ensures forall x :: x in modules ==>
                modules[x] == if x.0 == row + r && -2 <= x.1 - col <= 2 then Some(AdjustDark(r, x.1 - col))
                              else old(modules)[x]
    {
      for c := -2 to 3
        invariant Square(modules, moduleCount)
        invariant forall x :: x in modules ==>
                    modules[x] == if x.0 == row + r && -2 <= x.1 - col < c then Some(AdjustDark(r, x.1 - col))
                                  else old(modules)[x]
      {
        var dark := r == -2 || r == 2 || c == -2 || c == 2 || (r == 0 && c == 0);
        modules := modules[(row + r, col + c) := Some(dark)];
      }
    }

    // An alignment pattern around (row, col).
    method DrawAdjust(row: int, col: int)
      requires Square(modules, moduleCount) && 2 <= row < moduleCount - 2 && 2 <= col < moduleCount - 2
      modifies this
      ensures Square(modules, moduleCount)
      ensures forall x :: x in modules ==>
                modules[x] == if -2 <= x.0 - row <= 2 && -2 <= x.1 - col <= 2
                              then Some(AdjustDark(x.0 - row, x.1 - col))
                              else old(modules)[x]
    {
      hide AdjustDark;
      for r := -2 to 3
        invariant Square(modules, moduleCount)
        invariant forall x :: x in modules ==>
                    modules[x] == if -2 <= x.0 - row < r && -2 <= x.1 - col <= 2
                                  then Some(AdjustDark(x.0 - row, x.1 - col))
                                  else old(modules)[x]
      {
        DrawAdjustRow(row, col, r);
      }
    }

    // Patterns stand around every pair of centres, except where the finder patterns already are.
    method SetupPositionAdjustPattern(pos: seq<int>)
      requires Square(modules, moduleCount) && Spaced(pos, moduleCount)
      modifies this
      ensures Square(modules, moduleCount)
      ensures forall x :: x in modules ==> modules[x] == Adjusted(old(modules), pos, x, |pos|, 0)
    {
      hide Adjusted, AdjustDark, Near, Spaced;
      ghost var was := modules;
      forall x | x in modules ensures Adjusted(was, pos, x, 0, 0) == was[x] { NothingAdjusted(was, pos, x); }
      for i := 0 to |pos|
        invariant Square(modules, moduleCount)
        invariant forall x :: x in modules ==> modules[x] == Adjusted(was, pos, x, i, 0)
      {
        for j := 0 to |pos|
          invariant Square(modules, moduleCount)
          invariant forall x :: x in modules ==> modules[x] == Adjusted(was, pos, x, i, j)
        {
          var row, col := pos[i], pos[j];
          assert InBounds(row, moduleCount) && InBounds(col, moduleCount) by {
            CentreInBounds(pos, moduleCount, i);
            CentreInBounds(pos, moduleCount, j);
          }
          forall x | x in modules
            ensures Adjusted(was, pos, x, i, j + 1)
                 == if -2 <= x.0 - row <= 2 && -2 <= x.1 - col <= 2 && modules[(row, col)] == None
                    then Some(AdjustDark(x.0 - row, x.1 - col)) else modules[x]
          {
            AdjustStep(was, pos, moduleCount, x, i, j);
          }
          if modules[(row, col)] != None { continue; }
          DrawAdjust(row, col);
        }
        forall x | x in modules ensures Adjusted(was, pos, x, i + 1, 0) == Adjusted(was, pos, x, i, |pos|) {
          AdjustRow(was, pos, x, i);
        }
      }
    }

    method SetupTimingPattern()
      requires Square(modules, moduleCount) && moduleCount >= 21
      modifies this
      ensures Square(modules, moduleCount)
      ensures forall x :: x in modules ==>
                modules[x] == TimedModule(old(modules)[x], x, moduleCount - 8, moduleCount - 8)
    {
      hide TimedModule;
      forall x | x in modules ensures TimedModule(modules[x], x, 8, 8) == modules[x] { NoTiming(modules[x], x); }
      for r := 8 to moduleCount - 8
        invariant Square(modules, moduleCount)
        invariant forall x :: x in modules ==> modules[x] == TimedModule(old(modules)[x], x, r, 8)
      {
        forall x | x in modules
          ensures TimedModule(old(modules)[x], x, r + 1, 8)
               == if x == (r, 6) && modules[x] == None then Some(r % 2 == 0) else modules[x]
        {
          TimingStep(old(modules)[x], x, r, 8);
        }
        if modules[(r, 6)] != None { continue; }
        modules := modules[(r, 6) := Some(r % 2 == 0)];
      }
      for c := 8 to moduleCount - 8
        invariant Square(modules, moduleCount)
        invariant forall x :: x in modules ==> modules[x] == TimedModule(old(modules)[x], x, moduleCount - 8, c)
      {
        forall x | x in modules
          ensures TimedModule(old(modules)[x], x, moduleCount - 8, c + 1)
               == if x == (6, c) && modules[x] == None then Some(c % 2 == 0) else modules[x]
        {
          TimingStep(old(modules)[x], x, moduleCount - 8, c);
        }
        if modules[(6, c)] != None { continue; }
        modules := modules[(6, c) := Some(c % 2 == 0)];
      }
    }

    // bits holds the 15 format bits; all are false in a test symbol.
    method SetupTypeInfo(bits: seq<bool>, test: bool)
      requires Square(modules, moduleCount) && moduleCount >= 21 && |bits| == 15
      modifies this
      ensures Square(modules, moduleCount)
      ensures forall x :: x in modules ==>
                modules[x] == FormattedModule(old(modules)[x], x, bits, test, moduleCount)
    {
      hide FormatModule, VerticalRow, HorizontalColumn;
      ghost var was := modules;
      var n := moduleCount;
      forall x | x in modules ensures FormatModule(was[x], x, bits, test, n, 0, 0) == was[x] {
        NoFormat(was[x], x, bits, test, n);
      }
      for i := 0 to 15
        invariant Square(modules, moduleCount)
        invariant forall x :: x in modules ==> modules[x] == FormatModule(was[x], x, bits, test, n, i, 0)
      {
        var mod := !test && bits[i];
        var row := VerticalRow(i, n);
        assert 0 <= row < n by { StripsInside(i, n); }
        forall x | x in modules
          ensures FormatModule(was[x], x, bits, test, n, i + 1, 0) == if x == (row, 8) then Some(mod) else modules[x]
        {
          VerticalStep(was[x], x, bits, test, n, i);
        }
        modules := modules[(row, 8) := Some(mod)];
      }
      for i := 0 to 15
        invariant Square(modules, moduleCount)
        invariant forall x :: x in modules ==> modules[x] == FormatModule(was[x], x, bits, test, n, 15, i)
      {
        var mod := !test && bits[i];
        var col := HorizontalColumn(i, n);
        assert 0 <= col < n by { StripsInside(i, n); }
        forall x | x in modules
          ensures FormatModule(was[x], x, bits, test, n, 15, i + 1) == if x == (8, col) then Some(mod) else modules[x]
        {
          HorizontalStep(was[x], x, bits, test, n, i);
        }
        modules := modules[(8, col) := Some(mod)];
      }
      modules := modules[(n - 8, 8) := Some(!test)];
    }

    // bits holds the 18 version bits.
    method SetupTypeNumber(bits: seq<bool>, test: bool)
      requires Square(modules, moduleCount) && moduleCount >= 21 && |bits| == 18
      modifies this
      ensures Square(modules, moduleCount)
      ensures forall x :: x in modules ==>
                modules[x] == VersionModule(old(modules)[x], x, bits, test, moduleCount, 18, 18)
    {
      hide VersionModule, VersionRow, VersionColumn;
      ghost var was := modules;
      var n := moduleCount;
      forall x | x in modules ensures VersionModule(was[x], x, bits, test, n, 0, 0) == was[x] {
        NoVersion(was[x], x, bits, test, n);
      }
      for i := 0 to 18
        invariant Square(modules, moduleCount)
        invariant forall x :: x in modules ==> modules[x] == VersionModule(was[x], x, bits, test, n, i, 0)
      {
        var r, c := VersionRow(i), VersionColumn(i, n);
        forall x | x in modules
          ensures VersionModule(was[x], x, bits, test, n, i + 1, 0)
               == if x == (r, c) then Some(!test && bits[i]) else modules[x]
        {
          VersionStep(was[x], x, bits, test, n, i);
        }
        modules := modules[(r, c) := Some(!test && bits[i])];
      }
      for i := 0 to 18
        invariant Square(modules, moduleCount)
        invariant forall x :: x in modules ==> modules[x] == VersionModule(was[x], x, bits, test, n, 18, i)
      {
        var r, c := VersionColumn(i, n), VersionRow(i);
        forall x | x in modules
          ensures VersionModule(was[x], x, bits, test, n, 18, i + 1)
               == if x == (r, c) then Some(!test && bits[i]) else modules[x]
        {
          VersionStep(was[x], x, bits, test, n, i);
        }
        modules := modules[(r, c) := Some(!test && bits[i])];
      }
    }

    method DrawProbes()
      requires Square(modules, moduleCount) && moduleCount >= 21 && forall x :: x in modules ==> modules[x] == None
      modifies this
      ensures modules == Probed(moduleCount)
    {
      hide ProbedOver, Probed;
      SetupPositionProbePattern(0, 0);
      SetupPositionProbePattern(moduleCount - 7, 0);
      SetupPositionProbePattern(0, moduleCount - 7);
      AllProbed(modules, moduleCount);
    }

    method DrawPositions(version: nat)
      requires 1 <= version <= 40 && moduleCount == version * 4 + 17
      requires Square(modules, moduleCount) && forall x :: x in modules ==> modules[x] == None
      modifies this
      ensures Square(modules, moduleCount) && forall x :: x in modules ==> modules[x] == PositionModule(version, x)
    {
      hide Adjusted, TimedModule, Probed, PositionTable, Spaced;
      PositionsSpaced(version);
      DrawProbes();
      SetupPositionAdjustPattern(PositionTable(version));
      SetupTimingPattern();
    }

    method DrawPatterns(f: Fixed)
      requires FixedOk(f) && moduleCount == f.version * 4 + 17
      requires Square(modules, moduleCount) && forall x :: x in modules ==> modules[x] == None
      modifies this
      ensures Square(modules, moduleCount) && forall x :: x in modules ==> modules[x] == PatternModule(f, x)
    {
      hide PositionModule, FormattedModule, VersionModule, Probed;
      DrawPositions(f.version);
      SetupTypeInfo(f.typeInfo, f.test);
      if f.version >= 7 { SetupTypeNumber(f.typeNumber, f.test); }
    }

    /** makeImpl. On a fresh symbol of any version the patterns fill column 6, so the placement
        leaves no module unset, keeps every pattern module, and can be read back. */
    method MakeImpl(f: Fixed, data: seq<bv8>, mask: Mask) returns (ghost patterns: Snapshot)
      requires FixedOk(f) && moduleCount == f.version * 4 + 17
      requires Square(modules, moduleCount) && forall x :: x in modules ==> modules[x] == None
      modifies this
      ensures Square(modules, moduleCount) && forall x :: x in modules ==> modules[x] != None
      ensures Square(patterns, moduleCount) && forall x :: x in patterns ==> patterns[x] == PatternModule(f, x)
      ensures forall x :: x in patterns && patterns[x] != None ==> modules[x] == patterns[x]
      ensures var bits := ReadBack(patterns, modules, mask, Order(moduleCount));
              bits == StreamBits(data, |bits|)
    {
      hide ReadBack, Order, StreamBits, PatternModule, Probed;
      DrawPatterns(f);
      patterns := modules;
      forall x | x in modules && x.1 == 6 ensures modules[x] != None { TimingColumnFull(f, x); }
      MapData(data, mask);
    }

    // ----- the data

    // The body of mapData's innermost loop.
    method PlaceModule(x: Cell, data: seq<bv8>, mask: Mask, byteIndex: nat, bitIndex: nat,
                       ghost was: Snapshot, ghost visited: seq<Cell>)
      returns (byteIndex': nat, bitIndex': nat)
      requires x in was && bitIndex < 8 && x !in visited
      requires Placed(was, modules, data, mask, visited, 8 * byteIndex + 7 - bitIndex)
      modifies this
      ensures bitIndex' < 8
      ensures Placed(was, modules, data, mask, visited + [x], 8 * byteIndex' + 7 - bitIndex')
    {
      hide StreamBit, ReadBack, StreamBits;
      byteIndex', bitIndex' := byteIndex, bitIndex;
      ghost var before := modules;
      if modules[x] == None {
        var dark := false;
        if byteIndex < |data| {
          dark := (data[byteIndex] >> bitIndex) & 1 == 1;
        }
        StreamBitIs(data, byteIndex, bitIndex, dark);
        var inverted := mask(x.0, x.1);
        if inverted { dark := !dark; }
        modules := modules[x := Some(dark)];
        var next: int := bitIndex - 1;
        if next == -1 {
          byteIndex' := byteIndex + 1;
          next := 7;
        }
        bitIndex' := next;
      }
      PlaceOne(was, before, modules, data, mask, visited, 8 * byteIndex + 7 - bitIndex, x);
    }

    // for (var c = 0; c < 2; c += 1)
    method MapStep(row: int, col: int, data: seq<bv8>, mask: Mask, startByte: nat, startBit: nat,
                   ghost was: Snapshot, ghost done: seq<Cell>, ghost p: nat, ghost k: nat)
      returns (byteIndex: nat, bitIndex: nat)
      requires Square(was, moduleCount) && moduleCount % 2 == 1 && moduleCount >= 7
      requires p < moduleCount / 2 && k < moduleCount && done == OrderTo(moduleCount, p)
      requires col == ColumnOf(moduleCount, p) && row == RowOf(moduleCount, p, k) && startBit < 8
      requires Placed(was, modules, data, mask, done + PairCells(moduleCount, p, k), 8 * startByte + 7 - startBit)
      modifies this
      ensures bitIndex < 8
      ensures Placed(was, modules, data, mask, done + PairCells(moduleCount, p, k + 1), 8 * byteIndex + 7 - bitIndex)
    {
      hide Placed, ColumnOf, RowOf, OrderTo;
      ghost var visited := done + PairCells(moduleCount, p, k);
      ghost var pair: seq<Cell> := [(row, col), (row, col - 1)];
      NotYetVisited(moduleCount, p, k, (row, col));
      NotYetVisited(moduleCount, p, k, (row, col - 1));
      byteIndex, bitIndex := startByte, startBit;
      assert visited + pair[..0] == visited;
      for c := 0 to 2
        invariant bitIndex < 8
        invariant Placed(was, modules, data, mask, visited + pair[..c], 8 * byteIndex + 7 - bitIndex)
      {
        assert pair[c] == (row, col - c) && visited + pair[..c + 1] == visited + pair[..c] + [(row, col - c)];
        byteIndex, bitIndex := PlaceModule((row, col - c), data, mask, byteIndex, bitIndex, was, visited + pair[..c]);
      }
      assert visited + pair[..2] == done + (PairCells(moduleCount, p, k) + pair);
    }

    // The while loop over one pair of columns.
    method MapPair(startRow: int, col: int, startInc: int, data: seq<bv8>, mask: Mask,
                   startByte: nat, startBit: nat, ghost was: Snapshot, ghost p: nat)
      returns (row: int, inc: int, byteIndex: nat, bitIndex: nat)
      requires Square(was, moduleCount) && moduleCount % 2 == 1 && moduleCount >= 7
      requires p < moduleCount / 2 && col == ColumnOf(moduleCount, p) && startBit < 8
      requires (startInc, startRow) == if p % 2 == 0 then (-1, moduleCount - 1) else (1, 0)
      requires Placed(was, modules, data, mask, OrderTo(moduleCount, p), 8 * startByte + 7 - startBit)
      modifies this
      ensures bitIndex < 8
      ensures (inc, row) == if p % 2 == 0 then (1, 0) else (-1, moduleCount - 1)
      ensures Placed(was, modules, data, mask, OrderTo(moduleCount, p + 1), 8 * byteIndex + 7 - bitIndex)
    {
      hide Placed, PairCells, ColumnOf, Square;
      row, inc, byteIndex, bitIndex := startRow, startInc, startByte, startBit;
      ghost var done := OrderTo(moduleCount, p);
      ghost var k := 0;
      NoCells(moduleCount, p);
      assert done + [] == done;
      while true
        invariant k < moduleCount && row == RowOf(moduleCount, p, k) && inc == startInc && bitIndex < 8
        invariant Placed(was, modules, data, mask, done + PairCells(moduleCount, p, k), 8 * byteIndex + 7 - bitIndex)
        decreases moduleCount - k
      {
        byteIndex, bitIndex := MapStep(row, col, data, mask, byteIndex, bitIndex, was, done, p, k);
        k := k + 1;
        row := row + inc;
        if row < 0 || moduleCount <= row {
          row := row - inc;
          inc := -inc;
          break;
        }
      }
    }

    /** mapData. Every module the patterns left unset is set, none that they set is touched, and
        reading back along the zigzag through the same mask yields the bits of the codewords and
        then zeros. */
    method MapData(data: seq<bv8>, mask: Mask)
      requires Square(modules, moduleCount) && moduleCount % 2 == 1 && moduleCount >= 7
      requires forall x :: x in modules && x.1 == 6 ==> modules[x] != None
      modifies this
      ensures Square(modules, moduleCount)
      ensures forall x :: x in modules ==> modules[x] != None
      ensures forall x :: x in modules && old(modules)[x] != None ==> modules[x] == old(modules)[x]
      ensures var bits := ReadBack(old(modules), modules, mask, Order(moduleCount));
              bits == StreamBits(data, |bits|)
    {
      hide StreamBits, StreamBit, ReadBack, PairCells, Placed, RowOf;
      var n := moduleCount;
      ghost var was := modules;
      var inc := -1;
      var row := n - 1;
      var byteIndex: nat, bitIndex: nat := 0, 7;
      var col := n - 1;
      ghost var p: nat := 0;
      StartPlaced(was, data, mask);
      while col > 0
        invariant p <= n / 2 && col == (if n - 1 - 2 * p < 6 then n - 2 - 2 * p else n - 1 - 2 * p)
        invariant bitIndex < 8
        invariant (inc, row) == if p % 2 == 0 then (-1, n - 1) else (1, 0)
        invariant Placed(was, modules, data, mask, OrderTo(n, p), 8 * byteIndex + 7 - bitIndex)
        decreases col
      {
        if col == 6 { col := col - 1; }
        row, inc, byteIndex, bitIndex := MapPair(row, col, inc, data, mask, byteIndex, bitIndex, was, p);
        p := p + 1;
        col := col - 2;
      }
      AllPlaced(was, modules, data, mask, n, 8 * byteIndex + 7 - bitIndex);
    }
  }

  lemma NoCells(n: nat, p: nat)
    ensures PairCells(n, p, 0) == []
  {
  }

  lemma AllPlaced(was: Snapshot, now: Snapshot, data: seq<bv8>, mask: Mask, n: nat, bits: nat)
    requires Square(was, n) && n % 2 == 1 && n >= 7
    requires forall x :: x in was && x.1 == 6 ==> was[x] != None
    requires Placed(was, now, data, mask, Order(n), bits)
    ensures Square(now, n) && forall x :: x in now ==> now[x] != None
    ensures forall x :: x in now && was[x] != None ==> now[x] == was[x]
    ensures ReadBack(was, now, mask, Order(n)) == StreamBits(data, bits)
  {
    hide ReadBack;
    forall x | x in now ensures now[x] != None { VisitsEachCellOnce(n, x); }
  }
}
