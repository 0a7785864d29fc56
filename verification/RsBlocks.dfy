/** QRRSBlock of assets/js/qrcode.js:1251-1554: how many blocks a symbol has, and of what size. */
module RsBlocks {

  datatype Block = Block(totalCount: nat, dataCount: nat)

  // Up to two runs of equal blocks; count2 is 0 for a row of three numbers.
  datatype Row = Row(count: nat, total: nat, data: nat, count2: nat, total2: nat, data2: nat)

  datatype Level = L | M | Q | H

  function RowL(version: nat): Row
    requires 1 <= version <= 40
  {
    match version
    case 1 => Row(1, 26, 19, 0, 0, 0)
    case 2 => Row(1, 44, 34, 0, 0, 0)
    case 3 => Row(1, 70, 55, 0, 0, 0)
    case 4 => Row(1, 100, 80, 0, 0, 0)
    case 5 => Row(1, 134, 108, 0, 0, 0)
    case 6 => Row(2, 86, 68, 0, 0, 0)
    case 7 => Row(2, 98, 78, 0, 0, 0)
    case 8 => Row(2, 121, 97, 0, 0, 0)
    case 9 => Row(2, 146, 116, 0, 0, 0)
    case 10 => Row(2, 86, 68, 2, 87, 69)
    case 11 => Row(4, 101, 81, 0, 0, 0)
    case 12 => Row(2, 116, 92, 2, 117, 93)
    case 13 => Row(4, 133, 107, 0, 0, 0)
    case 14 => Row(3, 145, 115, 1, 146, 116)
    case 15 => Row(5, 109, 87, 1, 110, 88)
    case 16 => Row(5, 122, 98, 1, 123, 99)
    case 17 => Row(1, 135, 107, 5, 136, 108)
    case 18 => Row(5, 150, 120, 1, 151, 121)
    case 19 => Row(3, 141, 113, 4, 142, 114)
    case 20 => Row(3, 135, 107, 5, 136, 108)
    case 21 => Row(4, 144, 116, 4, 145, 117)
    case 22 => Row(2, 139, 111, 7, 140, 112)
    case 23 => Row(4, 151, 121, 5, 152, 122)
    case 24 => Row(6, 147, 117, 4, 148, 118)
    case 25 => Row(8, 132, 106, 4, 133, 107)
    case 26 => Row(10, 142, 114, 2, 143, 115)
    case 27 => Row(8, 152, 122, 4, 153, 123)
    case 28 => Row(3, 147, 117, 10, 148, 118)
    case 29 => Row(7, 146, 116, 7, 147, 117)
    case 30 => Row(5, 145, 115, 10, 146, 116)
    case 31 => Row(13, 145, 115, 3, 146, 116)
    case 32 => Row(17, 145, 115, 0, 0, 0)
    case 33 => Row(17, 145, 115, 1, 146, 116)
    case 34 => Row(13, 145, 115, 6, 146, 116)
    case 35 => Row(12, 151, 121, 7, 152, 122)
    case 36 => Row(6, 151, 121, 14, 152, 122)
    case 37 => Row(17, 152, 122, 4, 153, 123)
    case 38 => Row(4, 152, 122, 18, 153, 123)
    case 39 => Row(20, 147, 117, 4, 148, 118)
    case _ => Row(19, 148, 118, 6, 149, 119)
  }

  function RowM(version: nat): Row
    requires 1 <= version <= 40
  {
    match version
    case 1 => Row(1, 26, 16, 0, 0, 0)
    case 2 => Row(1, 44, 28, 0, 0, 0)
    case 3 => Row(1, 70, 44, 0, 0, 0)
    case 4 => Row(2, 50, 32, 0, 0, 0)
    case 5 => Row(2, 67, 43, 0, 0, 0)
    case 6 => Row(4, 43, 27, 0, 0, 0)
    case 7 => Row(4, 49, 31, 0, 0, 0)
    case 8 => Row(2, 60, 38, 2, 61, 39)
    case 9 => Row(3, 58, 36, 2, 59, 37)
    case 10 => Row(4, 69, 43, 1, 70, 44)
    case 11 => Row(1, 80, 50, 4, 81, 51)
    case 12 => Row(6, 58, 36, 2, 59, 37)
    case 13 => Row(8, 59, 37, 1, 60, 38)
    case 14 => Row(4, 64, 40, 5, 65, 41)
    case 15 => Row(5, 65, 41, 5, 66, 42)
    case 16 => Row(7, 73, 45, 3, 74, 46)
    case 17 => Row(10, 74, 46, 1, 75, 47)
    case 18 => Row(9, 69, 43, 4, 70, 44)
    case 19 => Row(3, 70, 44, 11, 71, 45)
    case 20 => Row(3, 67, 41, 13, 68, 42)
    case 21 => Row(17, 68, 42, 0, 0, 0)
    case 22 => Row(17, 74, 46, 0, 0, 0)
    case 23 => Row(4, 75, 47, 14, 76, 48)
    case 24 => Row(6, 73, 45, 14, 74, 46)
    case 25 => Row(8, 75, 47, 13, 76, 48)
    case 26 => Row(19, 74, 46, 4, 75, 47)
    case 27 => Row(22, 73, 45, 3, 74, 46)
    case 28 => Row(3, 73, 45, 23, 74, 46)
    case 29 => Row(21, 73, 45, 7, 74, 46)
    case 30 => Row(19, 75, 47, 10, 76, 48)
    case 31 => Row(2, 74, 46, 29, 75, 47)
    case 32 => Row(10, 74, 46, 23, 75, 47)
    case 33 => Row(14, 74, 46, 21, 75, 47)
    case 34 => Row(14, 74, 46, 23, 75, 47)
    case 35 => Row(12, 75, 47, 26, 76, 48)
    case 36 => Row(6, 75, 47, 34, 76, 48)
    case 37 => Row(29, 74, 46, 14, 75, 47)
    case 38 => Row(13, 74, 46, 32, 75, 47)
    case 39 => Row(40, 75, 47, 7, 76, 48)
    case _ => Row(18, 75, 47, 31, 76, 48)
  }

  function RowQ(version: nat): Row
    requires 1 <= version <= 40
  {
    match version
    case 1 => Row(1, 26, 13, 0, 0, 0)
    case 2 => Row(1, 44, 22, 0, 0, 0)
    case 3 => Row(2, 35, 17, 0, 0, 0)
    case 4 => Row(2, 50, 24, 0, 0, 0)
    case 5 => Row(2, 33, 15, 2, 34, 16)
    case 6 => Row(4, 43, 19, 0, 0, 0)
    case 7 => Row(2, 32, 14, 4, 33, 15)
    case 8 => Row(4, 40, 18, 2, 41, 19)
    case 9 => Row(4, 36, 16, 4, 37, 17)
    case 10 => Row(6, 43, 19, 2, 44, 20)
    case 11 => Row(4, 50, 22, 4, 51, 23)
    case 12 => Row(4, 46, 20, 6, 47, 21)
    case 13 => Row(8, 44, 20, 4, 45, 21)
    case 14 => Row(11, 36, 16, 5, 37, 17)
    case 15 => Row(5, 54, 24, 7, 55, 25)
    case 16 => Row(15, 43, 19, 2, 44, 20)
    case 17 => Row(1, 50, 22, 15, 51, 23)
    case 18 => Row(17, 50, 22, 1, 51, 23)
    case 19 => Row(17, 47, 21, 4, 48, 22)
    case 20 => Row(15, 54, 24, 5, 55, 25)
    case 21 => Row(17, 50, 22, 6, 51, 23)
    case 22 => Row(7, 54, 24, 16, 55, 25)
    case 23 => Row(11, 54, 24, 14, 55, 25)
    case 24 => Row(11, 54, 24, 16, 55, 25)
    case 25 => Row(7, 54, 24, 22, 55, 25)
    case 26 => Row(28, 50, 22, 6, 51, 23)
    case 27 => Row(8, 53, 23, 26, 54, 24)
    case 28 => Row(4, 54, 24, 31, 55, 25)
    case 29 => Row(1, 53, 23, 37, 54, 24)
    case 30 => Row(15, 54, 24, 25, 55, 25)
    case 31 => Row(42, 54, 24, 1, 55, 25)
    case 32 => Row(10, 54, 24, 35, 55, 25)
    case 33 => Row(29, 54, 24, 19, 55, 25)
    case 34 => Row(44, 54, 24, 7, 55, 25)
    case 35 => Row(39, 54, 24, 14, 55, 25)
    case 36 => Row(46, 54, 24, 10, 55, 25)
    case 37 => Row(49, 54, 24, 10, 55, 25)
    case 38 => Row(48, 54, 24, 14, 55, 25)
    case 39 => Row(43, 54, 24, 22, 55, 25)
    case _ => Row(34, 54, 24, 34, 55, 25)
  }

  function RowH(version: nat): Row
    requires 1 <= version <= 40
  {
    match version
    case 1 => Row(1, 26, 9, 0, 0, 0)
    case 2 => Row(1, 44, 16, 0, 0, 0)
    case 3 => Row(2, 35, 13, 0, 0, 0)
    case 4 => Row(4, 25, 9, 0, 0, 0)
    case 5 => Row(2, 33, 11, 2, 34, 12)
    case 6 => Row(4, 43, 15, 0, 0, 0)
    case 7 => Row(4, 39, 13, 1, 40, 14)
    case 8 => Row(4, 40, 14, 2, 41, 15)
    case 9 => Row(4, 36, 12, 4, 37, 13)
    case 10 => Row(6, 43, 15, 2, 44, 16)
    case 11 => Row(3, 36, 12, 8, 37, 13)
    case 12 => Row(7, 42, 14, 4, 43, 15)
    case 13 => Row(12, 33, 11, 4, 34, 12)
    case 14 => Row(11, 36, 12, 5, 37, 13)
    case 15 => Row(11, 36, 12, 7, 37, 13)
    case 16 => Row(3, 45, 15, 13, 46, 16)
    case 17 => Row(2, 42, 14, 17, 43, 15)
    case 18 => Row(2, 42, 14, 19, 43, 15)
    case 19 => Row(9, 39, 13, 16, 40, 14)
    case 20 => Row(15, 43, 15, 10, 44, 16)
    case 21 => Row(19, 46, 16, 6, 47, 17)
    case 22 => Row(34, 37, 13, 0, 0, 0)
    case 23 => Row(16, 45, 15, 14, 46, 16)
    case 24 => Row(30, 46, 16, 2, 47, 17)
    case 25 => Row(22, 45, 15, 13, 46, 16)
    case 26 => Row(33, 46, 16, 4, 47, 17)
    case 27 => Row(12, 45, 15, 28, 46, 16)
    case 28 => Row(11, 45, 15, 31, 46, 16)
    case 29 => Row(19, 45, 15, 26, 46, 16)
    case 30 => Row(23, 45, 15, 25, 46, 16)
    case 31 => Row(23, 45, 15, 28, 46, 16)
    case 32 => Row(19, 45, 15, 35, 46, 16)
    case 33 => Row(11, 45, 15, 46, 46, 16)
    case 34 => Row(59, 46, 16, 1, 47, 17)
    case 35 => Row(22, 45, 15, 41, 46, 16)
    case 36 => Row(2, 45, 15, 64, 46, 16)
    case 37 => Row(24, 45, 15, 46, 46, 16)
    case 38 => Row(42, 45, 15, 32, 46, 16)
    case 39 => Row(10, 45, 15, 67, 46, 16)
    case _ => Row(20, 45, 15, 61, 46, 16)
  }

  function TableRow(version: nat, level: Level): Row
    requires 1 <= version <= 40
  {
    match level
    case L => RowL(version)
    case M => RowM(version)
    case Q => RowQ(version)
    case H => RowH(version)
  }

  // The most data codewords any symbol of the version's length-field group has.
  function GroupCapacity(version: nat): nat {
    if version < 10 then 232 else if version < 27 then 1370 else 2956
  }

  ghost predicate RowOk(r: Row, version: nat) {
    && r.count * r.data + r.count2 * r.data2 <= GroupCapacity(version)
    && r.data <= r.total <= r.data + 30
    && r.data2 <= r.total2 <= r.data2 + 30
  }

  lemma RowLOk(version: nat)
    requires 1 <= version <= 40
    ensures RowOk(RowL(version), version)
  {
  }

  lemma RowMOk(version: nat)
    requires 1 <= version <= 40
    ensures RowOk(RowM(version), version)
  {
  }

  lemma RowQOk(version: nat)
    requires 1 <= version <= 40
    ensures RowOk(RowQ(version), version)
  {
  }

  lemma RowHOk(version: nat)
    requires 1 <= version <= 40
    ensures RowOk(RowH(version), version)
  {
  }

  lemma TableRowOk(version: nat, level: Level)
    requires 1 <= version <= 40
    ensures RowOk(TableRow(version, level), version)
  {
    hide RowL, RowM, RowQ, RowH, RowOk;
    match level
    case L => RowLOk(version);
    case M => RowMOk(version);
    case Q => RowQOk(version);
    case H => RowHOk(version);
  }

  function Repeat(b: Block, n: nat): (s: seq<Block>)
    ensures |s| == n && forall i :: 0 <= i < n ==> s[i] == b
  {
    seq(n, _ => b)
  }

  function BlockList(r: Row): seq<Block> {
    Repeat(Block(r.total, r.data), r.count) + Repeat(Block(r.total2, r.data2), r.count2)
  }

  function DataCount(blocks: seq<Block>): nat {
    if blocks == [] then 0 else DataCount(blocks[..|blocks| - 1]) + blocks[|blocks| - 1].dataCount
  }

  lemma {:induction false} DataCountRepeat(s: seq<Block>, b: Block, n: nat)
    ensures DataCount(s + Repeat(b, n)) == DataCount(s) + n * b.dataCount
  {
    if n == 0 {
      assert s + Repeat(b, 0) == s;
    } else {
      DataCountRepeat(s, b, n - 1);
      assert (s + Repeat(b, n))[..|s| + n - 1] == s + Repeat(b, n - 1);
      assert n * b.dataCount == (n - 1) * b.dataCount + b.dataCount;
    }
  }

  method GetRSBlocks(version: nat, level: Level) returns (list: seq<Block>)
    requires 1 <= version <= 40
    ensures list == BlockList(TableRow(version, level))
  {
    hide TableRow;
    var row := TableRow(version, level);
    list := [];
    for j := 0 to row.count
      invariant list == Repeat(Block(row.total, row.data), j)
    {
      list := list + [Block(row.total, row.data)];
    }
    ghost var first := list;
    for j := 0 to row.count2
      invariant list == first + Repeat(Block(row.total2, row.data2), j)
    {
      list := list + [Block(row.total2, row.data2)];
    }
  }

  /** Every symbol's blocks have at most 30 check codewords each, and together at most the data
      capacity of their length-field group. */
  lemma BlocksWithinReach(version: nat, level: Level)
    requires 1 <= version <= 40
    ensures var blocks := BlockList(TableRow(version, level));
            && DataCount(blocks) <= GroupCapacity(version)
            && forall i :: 0 <= i < |blocks| ==> blocks[i].dataCount <= blocks[i].totalCount <= blocks[i].dataCount + 30
  {
    hide TableRow, GroupCapacity;
    TableRowOk(version, level);
    var r := TableRow(version, level);
    DataCountRepeat([], Block(r.total, r.data), r.count);
    assert [] + Repeat(Block(r.total, r.data), r.count) == Repeat(Block(r.total, r.data), r.count);
    DataCountRepeat(Repeat(Block(r.total, r.data), r.count), Block(r.total2, r.data2), r.count2);
  }
}
