// QRRSBlock: the table of block sizes, and the blocks of a version and level.
module RsBlocks {
  import opened BlockStandard
  import opened Capacity
  import opened CreateBytes
  import opened CreateData
  import opened Results
  import opened TypeNumber

  // A row: how many blocks, their total and their data bytes, for one or two sizes of
  // blocks; together so many blocks, with so many error-correction bytes each.
  predicate IsShape(row: seq<nat>, share: Share) {
    if |row| == 3 then 0 < row[0] == share.blocks && row[1] == row[2] + share.ec && 0 < share.ec < row[1] < 255
    else
      && |row| == 6 && 0 < row[0] && row[0] + row[3] == share.blocks
      && row[1] == row[2] + share.ec && row[4] == row[1] + 1 && row[5] == row[2] + 1 && 0 < share.ec < row[1] < 255
  }

  // It deals so many codewords in all, and so many data bytes.
  predicate IsRow(row: seq<nat>, words: nat, share: Share, data: nat) {
    && IsShape(row, share)
    && words == row[0] * row[1] + (if |row| == 6 then row[3] * row[4] else 0)
    && data == row[0] * row[2] + (if |row| == 6 then row[3] * row[5] else 0)
  }

  function One(count: nat, total: nat, data: nat): (row: seq<nat>)
    requires 0 < count && 0 < data < total < 255
    ensures IsRow(row, count * total, Share(count, total - data), count * data)
  {
    [count, total, data]
  }

  function Two(count: nat, total: nat, data: nat, count2: nat, total2: nat, data2: nat): (row: seq<nat>)
    requires 0 < count && 0 < data < total < 255 && total2 == total + 1 && data2 == data + 1
    ensures IsRow(row, count * total + count2 * total2, Share(count + count2, total - data),
                  count * data + count2 * data2)
  {
    [count, total, data, count2, total2, data2]
  }

  // The row of version 15, level H, lacks its second size of blocks.
  predicate IsShort(version: nat, level: nat) {
    version == 15 && level == LEVEL_H
  }

  // The bytes a text's mode and length take, rounded up.
  function Overhead(version: nat): nat {
    if version < 10 then 2 else 3
  }

  // The row the standard's numbers ask for, with the data bytes the limit assumes.
  predicate Fills(row: seq<nat>, version: nat, share: Share, limit: nat) {
    IsRow(row, SymbolWords(version), share, limit + Overhead(version))
  }

  // The rows of a version, all as they should be but for the short one.
  predicate AreRows(rows: Levels<seq<nat>>, version: nat)
    requires 1 <= version <= 40
  {
    var limits, shares := LimitLength(version), Shares(version);
    && Fills(rows.l, version, shares.l, limits.l)
    && Fills(rows.m, version, shares.m, limits.m)
    && Fills(rows.q, version, shares.q, limits.q)
    && if IsShort(version, LEVEL_H) then IsRow(rows.h, 396, Share(11, 24), 132)
       else Fills(rows.h, version, shares.h, limits.h)
  }

  function Rows1(version: nat): (rows: Levels<seq<nat>>)
    requires 1 <= version <= 3
    ensures AreRows(rows, version)
  {
    hide One, Two, IsRow;
    match version
    case 1 => Levels(One(1, 26, 19), One(1, 26, 16), One(1, 26, 13), One(1, 26, 9))
    case 2 => Levels(One(1, 44, 34), One(1, 44, 28), One(1, 44, 22), One(1, 44, 16))
    case _ => Levels(One(1, 70, 55), One(1, 70, 44), One(2, 35, 17), One(2, 35, 13))
  }

  function Rows4(version: nat): (rows: Levels<seq<nat>>)
    requires 4 <= version <= 6
    ensures AreRows(rows, version)
  {
    hide One, Two, IsRow;
    match version
    case 4 => Levels(One(1, 100, 80), One(2, 50, 32), One(2, 50, 24), One(4, 25, 9))
    case 5 => Levels(One(1, 134, 108), One(2, 67, 43), Two(2, 33, 15, 2, 34, 16), Two(2, 33, 11, 2, 34, 12))
    case _ => Levels(One(2, 86, 68), One(4, 43, 27), One(4, 43, 19), One(4, 43, 15))
  }

  function Rows7(version: nat): (rows: Levels<seq<nat>>)
    requires 7 <= version <= 9
    ensures AreRows(rows, version)
  {
    hide One, Two, IsRow;
    match version
    case 7 => Levels(One(2, 98, 78), One(4, 49, 31), Two(2, 32, 14, 4, 33, 15), Two(4, 39, 13, 1, 40, 14))
    case 8 => Levels(One(2, 121, 97), Two(2, 60, 38, 2, 61, 39),
                     Two(4, 40, 18, 2, 41, 19), Two(4, 40, 14, 2, 41, 15))
    case _ => Levels(One(2, 146, 116), Two(3, 58, 36, 2, 59, 37),
                     Two(4, 36, 16, 4, 37, 17), Two(4, 36, 12, 4, 37, 13))
  }

  function Rows10(version: nat): (rows: Levels<seq<nat>>)
    requires 10 <= version <= 12
    ensures AreRows(rows, version)
  {
    hide One, Two, IsRow;
    match version
    case 10 => Levels(Two(2, 86, 68, 2, 87, 69), Two(4, 69, 43, 1, 70, 44),
                      Two(6, 43, 19, 2, 44, 20), Two(6, 43, 15, 2, 44, 16))
    case 11 => Levels(One(4, 101, 81), Two(1, 80, 50, 4, 81, 51),
                      Two(4, 50, 22, 4, 51, 23), Two(3, 36, 12, 8, 37, 13))
    case _ => Levels(Two(2, 116, 92, 2, 117, 93), Two(6, 58, 36, 2, 59, 37),
                     Two(4, 46, 20, 6, 47, 21), Two(7, 42, 14, 4, 43, 15))
  }

  function Rows13(version: nat): (rows: Levels<seq<nat>>)
    requires 13 <= version <= 15
    ensures AreRows(rows, version)
  {
    hide One, Two, IsRow;
    match version
    case 13 => Levels(One(4, 133, 107), Two(8, 59, 37, 1, 60, 38),
                      Two(8, 44, 20, 4, 45, 21), Two(12, 33, 11, 4, 34, 12))
    case 14 => Levels(Two(3, 145, 115, 1, 146, 116), Two(4, 64, 40, 5, 65, 41),
                      Two(11, 36, 16, 5, 37, 17), Two(11, 36, 12, 5, 37, 13))
    case _ => Levels(Two(5, 109, 87, 1, 110, 88), Two(5, 65, 41, 5, 66, 42),
                     Two(5, 54, 24, 7, 55, 25), One(11, 36, 12))
  }

  function Rows16(version: nat): (rows: Levels<seq<nat>>)
    requires 16 <= version <= 18
    ensures AreRows(rows, version)
  {
    hide One, Two, IsRow;
    match version
    case 16 => Levels(Two(5, 122, 98, 1, 123, 99), Two(7, 73, 45, 3, 74, 46),
                      Two(15, 43, 19, 2, 44, 20), Two(3, 45, 15, 13, 46, 16))
    case 17 => Levels(Two(1, 135, 107, 5, 136, 108), Two(10, 74, 46, 1, 75, 47),
                      Two(1, 50, 22, 15, 51, 23), Two(2, 42, 14, 17, 43, 15))
    case _ => Levels(Two(5, 150, 120, 1, 151, 121), Two(9, 69, 43, 4, 70, 44),
                     Two(17, 50, 22, 1, 51, 23), Two(2, 42, 14, 19, 43, 15))
  }

  function Rows19(version: nat): (rows: Levels<seq<nat>>)
    requires 19 <= version <= 21
    ensures AreRows(rows, version)
  {
    hide One, Two, IsRow;
    match version
    case 19 => Levels(Two(3, 141, 113, 4, 142, 114), Two(3, 70, 44, 11, 71, 45),
                      Two(17, 47, 21, 4, 48, 22), Two(9, 39, 13, 16, 40, 14))
    case 20 => Levels(Two(3, 135, 107, 5, 136, 108), Two(3, 67, 41, 13, 68, 42),
                      Two(15, 54, 24, 5, 55, 25), Two(15, 43, 15, 10, 44, 16))
    case _ => Levels(Two(4, 144, 116, 4, 145, 117), One(17, 68, 42),
                     Two(17, 50, 22, 6, 51, 23), Two(19, 46, 16, 6, 47, 17))
  }

  function Rows22(version: nat): (rows: Levels<seq<nat>>)
    requires 22 <= version <= 24
    ensures AreRows(rows, version)
  {
    hide One, Two, IsRow;
    match version
    case 22 => Levels(Two(2, 139, 111, 7, 140, 112), One(17, 74, 46), Two(7, 54, 24, 16, 55, 25), One(34, 37, 13))
    case 23 => Levels(Two(4, 151, 121, 5, 152, 122), Two(4, 75, 47, 14, 76, 48),
                      Two(11, 54, 24, 14, 55, 25), Two(16, 45, 15, 14, 46, 16))
    case _ => Levels(Two(6, 147, 117, 4, 148, 118), Two(6, 73, 45, 14, 74, 46),
                     Two(11, 54, 24, 16, 55, 25), Two(30, 46, 16, 2, 47, 17))
  }

  function Rows25(version: nat): (rows: Levels<seq<nat>>)
    requires 25 <= version <= 27
    ensures AreRows(rows, version)
  {
    hide One, Two, IsRow;
    match version
    case 25 => Levels(Two(8, 132, 106, 4, 133, 107), Two(8, 75, 47, 13, 76, 48),
                      Two(7, 54, 24, 22, 55, 25), Two(22, 45, 15, 13, 46, 16))
    case 26 => Levels(Two(10, 142, 114, 2, 143, 115), Two(19, 74, 46, 4, 75, 47),
                      Two(28, 50, 22, 6, 51, 23), Two(33, 46, 16, 4, 47, 17))
    case _ => Levels(Two(8, 152, 122, 4, 153, 123), Two(22, 73, 45, 3, 74, 46),
                     Two(8, 53, 23, 26, 54, 24), Two(12, 45, 15, 28, 46, 16))
  }

  function Rows28(version: nat): (rows: Levels<seq<nat>>)
    requires 28 <= version <= 30
    ensures AreRows(rows, version)
  {
    hide One, Two, IsRow;
    match version
    case 28 => Levels(Two(3, 147, 117, 10, 148, 118), Two(3, 73, 45, 23, 74, 46),
                      Two(4, 54, 24, 31, 55, 25), Two(11, 45, 15, 31, 46, 16))
    case 29 => Levels(Two(7, 146, 116, 7, 147, 117), Two(21, 73, 45, 7, 74, 46),
                      Two(1, 53, 23, 37, 54, 24), Two(19, 45, 15, 26, 46, 16))
    case _ => Levels(Two(5, 145, 115, 10, 146, 116), Two(19, 75, 47, 10, 76, 48),
                     Two(15, 54, 24, 25, 55, 25), Two(23, 45, 15, 25, 46, 16))
  }

  function Rows31(version: nat): (rows: Levels<seq<nat>>)
    requires 31 <= version <= 33
    ensures AreRows(rows, version)
  {
    hide One, Two, IsRow;
    match version
    case 31 => Levels(Two(13, 145, 115, 3, 146, 116), Two(2, 74, 46, 29, 75, 47),
                      Two(42, 54, 24, 1, 55, 25), Two(23, 45, 15, 28, 46, 16))
    case 32 => Levels(One(17, 145, 115), Two(10, 74, 46, 23, 75, 47),
                      Two(10, 54, 24, 35, 55, 25), Two(19, 45, 15, 35, 46, 16))
    case _ => Levels(Two(17, 145, 115, 1, 146, 116), Two(14, 74, 46, 21, 75, 47),
                     Two(29, 54, 24, 19, 55, 25), Two(11, 45, 15, 46, 46, 16))
  }

  function Rows34(version: nat): (rows: Levels<seq<nat>>)
    requires 34 <= version <= 36
    ensures AreRows(rows, version)
  {
    hide One, Two, IsRow;
    match version
    case 34 => Levels(Two(13, 145, 115, 6, 146, 116), Two(14, 74, 46, 23, 75, 47),
                      Two(44, 54, 24, 7, 55, 25), Two(59, 46, 16, 1, 47, 17))
    case 35 => Levels(Two(12, 151, 121, 7, 152, 122), Two(12, 75, 47, 26, 76, 48),
                      Two(39, 54, 24, 14, 55, 25), Two(22, 45, 15, 41, 46, 16))
    case _ => Levels(Two(6, 151, 121, 14, 152, 122), Two(6, 75, 47, 34, 76, 48),
                     Two(46, 54, 24, 10, 55, 25), Two(2, 45, 15, 64, 46, 16))
  }

  function Rows37(version: nat): (rows: Levels<seq<nat>>)
    requires 37 <= version <= 39
    ensures AreRows(rows, version)
  {
    hide One, Two, IsRow;
    match version
    case 37 => Levels(Two(17, 152, 122, 4, 153, 123), Two(29, 74, 46, 14, 75, 47),
                      Two(49, 54, 24, 10, 55, 25), Two(24, 45, 15, 46, 46, 16))
    case 38 => Levels(Two(4, 152, 122, 18, 153, 123), Two(13, 74, 46, 32, 75, 47),
                      Two(48, 54, 24, 14, 55, 25), Two(42, 45, 15, 32, 46, 16))
    case _ => Levels(Two(20, 147, 117, 4, 148, 118), Two(40, 75, 47, 7, 76, 48),
                     Two(43, 54, 24, 22, 55, 25), Two(10, 45, 15, 67, 46, 16))
  }

  function Rows40(version: nat): (rows: Levels<seq<nat>>)
    requires 40 <= version <= 40
    ensures AreRows(rows, version)
  {
    hide One, Two, IsRow;
    Levels(Two(19, 148, 118, 6, 149, 119), Two(18, 75, 47, 31, 76, 48),
           Two(34, 54, 24, 34, 55, 25), Two(20, 45, 15, 61, 46, 16))
  }

  // The row for a version and level.
  function RsBlockTable(version: nat, level: nat): (row: seq<nat>)
    requires 1 <= version <= 40 && level < 4
  {
    var rows :=
      if version <= 3 then Rows1(version) else if version <= 6 then Rows4(version) else
      if version <= 9 then Rows7(version) else if version <= 12 then Rows10(version) else
      if version <= 15 then Rows13(version) else if version <= 18 then Rows16(version) else
      if version <= 21 then Rows19(version) else if version <= 24 then Rows22(version) else
      if version <= 27 then Rows25(version) else if version <= 30 then Rows28(version) else
      if version <= 33 then Rows31(version) else if version <= 36 then Rows34(version) else
      if version <= 39 then Rows37(version) else
      Rows40(version);
    rows.At(level)
  }

  // What the blocks of a version and level hold together.
  function BlockWords(version: nat, level: nat): nat {
    if IsShort(version, level) then 396 else SymbolWords(version)
  }

  function BlockData(version: nat, level: nat): nat
    requires 1 <= version <= 40 && level < 4
  {
    if IsShort(version, level) then 132 else Limit(version, level) + Overhead(version)
  }

  function BlockShare(version: nat, level: nat): Share
    requires 1 <= version <= 40 && level < 4
  {
    if IsShort(version, level) then Share(11, 24) else Shares(version).At(level)
  }

  lemma RowSums(version: nat, level: nat)
    requires 1 <= version <= 40 && level < 4
    ensures IsRow(RsBlockTable(version, level), BlockWords(version, level), BlockShare(version, level),
                  BlockData(version, level))
  {
    hide IsRow, SymbolWords, LimitLength, Shares, Rows1, Rows4, Rows7, Rows10, Rows13, Rows16, Rows19, Rows22, Rows25,
         Rows28, Rows31, Rows34, Rows37, Rows40;
  }

  // ---- the blocks ----

  // The first n sizes of a row, each as often as it says.
  function Expand(row: seq<nat>, n: nat): seq<RSBlock>
    requires 3 * n <= |row| && forall i :: 0 <= i < n ==> row[3 * i + 2] <= row[3 * i + 1]
  {
    if n == 0 then [] else Expand(row, n - 1) + Copies(row[3 * n - 3], RawBlock(row[3 * n - 2], row[3 * n - 1]))
  }

  function BlocksOf(version: nat, level: nat): (blocks: seq<RSBlock>)
    requires 1 <= version <= 40 && level < 4
  {
    hide RsBlockTable, BlockWords, BlockData;
    RowSums(version, level);
    var row := RsBlockTable(version, level);
    Expand(row, |row| / 3)
  }

  method GetRSBlocks(typeNumber: int, level: nat) returns (r: Result<seq<RSBlock>, QrError>)
    ensures r == if 1 <= typeNumber <= 40 && level < 4 then Ok(BlocksOf(typeNumber, level)) else Err(BadRsBlock)
  {
    hide RsBlockTable, BlockWords, BlockData;
    if !(1 <= typeNumber <= 40 && level < 4) {
      return Err(BadRsBlock);
    }
    var rsBlock := RsBlockTable(typeNumber, level);
    RowSums(typeNumber, level);
    var length := |rsBlock| / 3;
    var list: seq<RSBlock> := [];
    for i := 0 to length
      invariant list == Expand(rsBlock, i)
    {
      var count, totalCount, dataCount := rsBlock[i * 3 + 0], rsBlock[i * 3 + 1], rsBlock[i * 3 + 2];
      for j := 0 to count
        invariant list == Expand(rsBlock, i) + Copies(j, RawBlock(totalCount, dataCount))
      {
        list := list + [RawBlock(totalCount, dataCount)];
      }
    }
    return Ok(list);
  }

  // How many blocks of a row are the longer ones.
  function Longer(row: seq<nat>): nat {
    if |row| == 6 then row[3] else 0
  }

  lemma RowDivision(row: seq<nat>, words: nat, share: Share, data: nat)
    requires IsRow(row, words, share, data)
    ensures words / share.blocks == row[1] && words % share.blocks == Longer(row)
  {
    if |row| == 3 {
      Division(words, share.blocks, row[1], 0);
    } else {
      SumOfTwo(row[0], row[3], row[1]);
      Division(words, share.blocks, row[1], row[3]);
    }
  }

  lemma SumOfTwo(a: nat, b: nat, k: nat)
    ensures a * k + b * (k + 1) == (a + b) * k + b
  {}

  // What a row says, as a list of blocks.
  lemma RowIsDealt(row: seq<nat>, words: nat, share: Share, data: nat)
    requires IsRow(row, words, share, data)
    ensures words / share.blocks >= share.ec
    ensures Expand(row, |row| / 3) == Dealt(share.blocks, words / share.blocks, words % share.blocks, share.ec)
  {
    RowDivision(row, words, share, data);
    ExpandRow(row, share);
  }

  lemma ExpandOne(row: seq<nat>)
    requires |row| >= 3 && row[2] <= row[1]
    ensures Expand(row, 1) == Copies(row[0], RawBlock(row[1], row[2]))
  {
    hide Copies;
    assert Expand(row, 0) == [];
  }

  lemma ExpandTwo(row: seq<nat>)
    requires |row| >= 6 && row[2] <= row[1] && row[5] <= row[4]
    ensures Expand(row, 2) == Expand(row, 1) + Copies(row[3], RawBlock(row[4], row[5]))
  {
    hide Copies;
  }

  lemma ExpandRow(row: seq<nat>, share: Share)
    requires IsShape(row, share)
    ensures share.ec <= row[1] && Longer(row) <= share.blocks
    ensures Expand(row, |row| / 3) == Dealt(share.blocks, row[1], Longer(row), share.ec)
  {
    hide Expand, Copies, Dealt;
    ExpandOne(row);
    DealtIs(share.blocks, row[1], Longer(row), share.ec);
    if |row| == 6 {
      ExpandTwo(row);
    }
  }

  lemma DealtIs(n: nat, length: nat, longer: nat, ec: nat)
    requires longer <= n && ec <= length
    ensures longer == 0 ==> Dealt(n, length, longer, ec) == Copies(n, RawBlock(length, length - ec))
    ensures Dealt(n, length, longer, ec)
         == Copies(n - longer, RawBlock(length, length - ec)) + Copies(longer, RawBlock(length + 1, length + 1 - ec))
  {
    if longer == 0 {
      assert Copies(0, RawBlock(length + 1, length + 1 - ec)) == [];
    }
  }

  lemma Division(words: nat, n: nat, q: nat, r: nat)
    requires r < n && words == n * q + r
    ensures words / n == q && words % n == r
  {
    Recompose(words, n);
    var d := q - words / n;
    assert n * d == words % n - r by {
      assert n * d == n * q - n * (words / n);
    }
    if d > 0 {
      AtLeast(n, d);
    } else if d < 0 {
      AtLeast(n, -d);
    }
  }

  lemma Recompose(words: nat, n: nat)
    requires n > 0
    ensures n * (words / n) + words % n == words
  {}

  lemma AtLeast(n: nat, d: nat)
    requires d > 0
    ensures n * d >= n
  {}

  lemma RowTotals(row: seq<nat>, words: nat, share: Share, data: nat)
    requires IsRow(row, words, share, data)
    ensures var blocks := Expand(row, |row| / 3);
            && CodeTotal(blocks) == words && DataTotal(blocks) == data && |blocks| == share.blocks
            && forall k :: 0 <= k < |blocks| ==> EcCount(blocks[k]) == share.ec < blocks[k].totalCount <= 255
  {
    hide CodeTotal, DataTotal;
    var first := Copies(row[0], RawBlock(row[1], row[2]));
    NoBlocks();
    CopiesSum([], row[0], RawBlock(row[1], row[2]));
    assert [] + first == first;
    assert Expand(row, 1) == first;
    if |row| == 6 {
      CopiesSum(first, row[3], RawBlock(row[4], row[5]));
      assert Expand(row, 2) == first + Copies(row[3], RawBlock(row[4], row[5]));
    }
  }

  // The blocks of every version and level are small enough for the division, go
  // into the symbol, and fill it, to fewer than eight modules, unless the row is short.
  lemma BlocksFill(version: nat, level: nat)
    requires 1 <= version <= 40 && level < 4
    ensures var blocks, free := BlocksOf(version, level), |FreeModules(version)|;
            && DataTotal(blocks) == BlockData(version, level)
            && 8 * CodeTotal(blocks) <= free
            && (free < 8 * CodeTotal(blocks) + 8 <==> !IsShort(version, level))
            && forall k :: 0 <= k < |blocks| ==> 0 < EcCount(blocks[k]) < blocks[k].totalCount <= 255
  {
    hide RsBlockTable, BlockData, FreeModules, CodeTotal, DataTotal, Expand, SymbolWords, Shares;
    RowSums(version, level);
    RowTotals(RsBlockTable(version, level), BlockWords(version, level), BlockShare(version, level),
              BlockData(version, level));
    WordsFill(version);
    ShortWords();
  }

  lemma ShortWords()
    ensures SymbolWords(15) == 655 && Shares(15).At(LEVEL_H) == Share(18, 24)
  {}

  // They are the standard's blocks, one by one and in order, unless the row is short.
  lemma BlocksStandard(version: nat, level: nat)
    requires 1 <= version <= 40 && level < 4
    ensures BlocksOf(version, level) == StandardBlocks(version, level) <==> !IsShort(version, level)
  {
    hide RsBlockTable, BlockData, Expand, SymbolWords, Shares, IsRow;
    RowSums(version, level);
    RowIsDealt(RsBlockTable(version, level), BlockWords(version, level), BlockShare(version, level),
               BlockData(version, level));
    ShortWords();
  }

  // The standard's blocks take all codewords of a symbol.
  lemma StandardTotals(version: nat, level: nat)
    requires 1 <= version <= 40 && level < 4
    ensures CodeTotal(StandardBlocks(version, level)) == SymbolWords(version)
    ensures IsShort(version, level) ==> DataTotal(StandardBlocks(version, level)) == 223
  {
    hide SymbolWords, Shares, Dealt, CodeTotal, DataTotal;
    var words, share := SymbolWords(version), ForIndicator(Shares(version), level);
    DealtTotals(share.blocks, words / share.blocks, words % share.blocks, share.ec);
    Recompose(words, share.blocks);
    ShortWords();
  }
}
