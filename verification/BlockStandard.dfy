// The blocks of a symbol as the standard has them (ISO/IEC 18004:2015, table 9): for
// every version the codewords, for every level the number of blocks and the
// error-correction codewords of each. Blocks are as equal as they can be, the longer ones last.
module BlockStandard {
  import opened Capacity
  import opened CreateBytes
  import opened TypeNumber

  datatype Share = Share(blocks: nat, ec: nat)

  // The codewords can be dealt to that many blocks, each with some data.
  predicate IsSound(share: Share, words: nat) {
    0 < share.blocks && 0 < share.ec < words / share.blocks
  }

  predicate AreSound(shares: Levels<Share>, words: nat) {
    IsSound(shares.l, words) && IsSound(shares.m, words) && IsSound(shares.q, words) && IsSound(shares.h, words)
  }

  // The codewords of a whole symbol.
  function SymbolWords(version: nat): nat {
    match version
    case 1 => 26
    case 2 => 44
    case 3 => 70
    case 4 => 100
    case 5 => 134
    case 6 => 172
    case 7 => 196
    case 8 => 242
    case 9 => 292
    case 10 => 346
    case 11 => 404
    case 12 => 466
    case 13 => 532
    case 14 => 581
    case 15 => 655
    case 16 => 733
    case 17 => 815
    case 18 => 901
    case 19 => 991
    case 20 => 1085
    case 21 => 1156
    case 22 => 1258
    case 23 => 1364
    case 24 => 1474
    case 25 => 1588
    case 26 => 1706
    case 27 => 1828
    case 28 => 1921
    case 29 => 2051
    case 30 => 2185
    case 31 => 2323
    case 32 => 2465
    case 33 => 2611
    case 34 => 2761
    case 35 => 2876
    case 36 => 3034
    case 37 => 3196
    case 38 => 3362
    case 39 => 3532
    case _ => 3706
  }

  function Shares1(version: nat): (shares: Levels<Share>)
    requires 1 <= version <= 10
    ensures AreSound(shares, SymbolWords(version))
  {
    match version
    case 1 => Levels(Share(1, 7), Share(1, 10), Share(1, 13), Share(1, 17))
    case 2 => Levels(Share(1, 10), Share(1, 16), Share(1, 22), Share(1, 28))
    case 3 => Levels(Share(1, 15), Share(1, 26), Share(2, 18), Share(2, 22))
    case 4 => Levels(Share(1, 20), Share(2, 18), Share(2, 26), Share(4, 16))
    case 5 => Levels(Share(1, 26), Share(2, 24), Share(4, 18), Share(4, 22))
    case 6 => Levels(Share(2, 18), Share(4, 16), Share(4, 24), Share(4, 28))
    case 7 => Levels(Share(2, 20), Share(4, 18), Share(6, 18), Share(5, 26))
    case 8 => Levels(Share(2, 24), Share(4, 22), Share(6, 22), Share(6, 26))
    case 9 => Levels(Share(2, 30), Share(5, 22), Share(8, 20), Share(8, 24))
    case _ => Levels(Share(4, 18), Share(5, 26), Share(8, 24), Share(8, 28))
  }

  function Shares11(version: nat): (shares: Levels<Share>)
    requires 11 <= version <= 20
    ensures AreSound(shares, SymbolWords(version))
  {
    match version
    case 11 => Levels(Share(4, 20), Share(5, 30), Share(8, 28), Share(11, 24))
    case 12 => Levels(Share(4, 24), Share(8, 22), Share(10, 26), Share(11, 28))
    case 13 => Levels(Share(4, 26), Share(9, 22), Share(12, 24), Share(16, 22))
    case 14 => Levels(Share(4, 30), Share(9, 24), Share(16, 20), Share(16, 24))
    case 15 => Levels(Share(6, 22), Share(10, 24), Share(12, 30), Share(18, 24))
    case 16 => Levels(Share(6, 24), Share(10, 28), Share(17, 24), Share(16, 30))
    case 17 => Levels(Share(6, 28), Share(11, 28), Share(16, 28), Share(19, 28))
    case 18 => Levels(Share(6, 30), Share(13, 26), Share(18, 28), Share(21, 28))
    case 19 => Levels(Share(7, 28), Share(14, 26), Share(21, 26), Share(25, 26))
    case _ => Levels(Share(8, 28), Share(16, 26), Share(20, 30), Share(25, 28))
  }

  function Shares21(version: nat): (shares: Levels<Share>)
    requires 21 <= version <= 30
    ensures AreSound(shares, SymbolWords(version))
  {
    match version
    case 21 => Levels(Share(8, 28), Share(17, 26), Share(23, 28), Share(25, 30))
    case 22 => Levels(Share(9, 28), Share(17, 28), Share(23, 30), Share(34, 24))
    case 23 => Levels(Share(9, 30), Share(18, 28), Share(25, 30), Share(30, 30))
    case 24 => Levels(Share(10, 30), Share(20, 28), Share(27, 30), Share(32, 30))
    case 25 => Levels(Share(12, 26), Share(21, 28), Share(29, 30), Share(35, 30))
    case 26 => Levels(Share(12, 28), Share(23, 28), Share(34, 28), Share(37, 30))
    case 27 => Levels(Share(12, 30), Share(25, 28), Share(34, 30), Share(40, 30))
    case 28 => Levels(Share(13, 30), Share(26, 28), Share(35, 30), Share(42, 30))
    case 29 => Levels(Share(14, 30), Share(28, 28), Share(38, 30), Share(45, 30))
    case _ => Levels(Share(15, 30), Share(29, 28), Share(40, 30), Share(48, 30))
  }

  function Shares31(version: nat): (shares: Levels<Share>)
    requires 31 <= version <= 40
    ensures AreSound(shares, SymbolWords(version))
  {
    match version
    case 31 => Levels(Share(16, 30), Share(31, 28), Share(43, 30), Share(51, 30))
    case 32 => Levels(Share(17, 30), Share(33, 28), Share(45, 30), Share(54, 30))
    case 33 => Levels(Share(18, 30), Share(35, 28), Share(48, 30), Share(57, 30))
    case 34 => Levels(Share(19, 30), Share(37, 28), Share(51, 30), Share(60, 30))
    case 35 => Levels(Share(19, 30), Share(38, 28), Share(53, 30), Share(63, 30))
    case 36 => Levels(Share(20, 30), Share(40, 28), Share(56, 30), Share(66, 30))
    case 37 => Levels(Share(21, 30), Share(43, 28), Share(59, 30), Share(70, 30))
    case 38 => Levels(Share(22, 30), Share(45, 28), Share(62, 30), Share(74, 30))
    case 39 => Levels(Share(24, 30), Share(47, 28), Share(65, 30), Share(77, 30))
    case _ => Levels(Share(25, 30), Share(49, 28), Share(68, 30), Share(81, 30))
  }

  function Shares(version: nat): (shares: Levels<Share>)
    requires 1 <= version <= 40
    ensures AreSound(shares, SymbolWords(version))
  {
    if version <= 10 then Shares1(version)
    else if version <= 20 then Shares11(version)
    else if version <= 30 then Shares21(version)
    else Shares31(version)
  }

  lemma Words1(version: nat)
    requires 1 <= version <= 20
    ensures 8 * SymbolWords(version) <= FreeCount(version) < 8 * SymbolWords(version) + 8
  {}

  lemma Words21(version: nat)
    requires 21 <= version <= 40
    ensures 8 * SymbolWords(version) <= FreeCount(version) < 8 * SymbolWords(version) + 8
  {}

  // The codewords fill the free modules, up to fewer than eight.
  lemma WordsFill(version: nat)
    requires 1 <= version <= 40
    ensures 8 * SymbolWords(version) <= |FreeModules(version)| < 8 * SymbolWords(version) + 8
  {
    hide FreeModules, FreeCount, SymbolWords;
    FreeModulesCount(version);
    if version <= 20 {
      Words1(version);
    } else {
      Words21(version);
    }
  }

  // ---- the blocks ----

  function Copies(count: nat, block: RSBlock): (s: seq<RSBlock>)
    ensures |s| == count
  {
    seq(count, _ => block)
  }

  // All blocks have the same number of error-correction codewords; `longer` of them
  // have one more data byte than the others.
  function Dealt(blocks: nat, length: nat, longer: nat, ec: nat): (r: seq<RSBlock>)
    requires longer <= blocks && ec <= length
  {
    Copies(blocks - longer, RawBlock(length, length - ec)) + Copies(longer, RawBlock(length + 1, length + 1 - ec))
  }

  // The level a format indicator stands for: 01 is L, 00 is M, 11 is Q, 10 is H.
  function ForIndicator(shares: Levels<Share>, indicator: nat): Share
    requires indicator < 4
  {
    match indicator
    case 1 => shares.l
    case 0 => shares.m
    case 3 => shares.q
    case _ => shares.h
  }

  function StandardBlocks(version: nat, level: nat): (r: seq<RSBlock>)
    requires 1 <= version <= 40 && level < 4
  {
    hide SymbolWords, Shares;
    var words, share := SymbolWords(version), ForIndicator(Shares(version), level);
    Dealt(share.blocks, words / share.blocks, words % share.blocks, share.ec)
  }

  lemma {:induction false} CopiesSum(blocks: seq<RSBlock>, count: nat, block: RSBlock)
    ensures CodeTotal(blocks + Copies(count, block)) == CodeTotal(blocks) + count * block.totalCount
    ensures DataTotal(blocks + Copies(count, block)) == DataTotal(blocks) + count * block.dataCount
  {
    if count == 0 {
      assert blocks + Copies(0, block) == blocks;
    } else {
      CopiesSum(blocks, count - 1, block);
      var all := blocks + Copies(count, block);
      assert all[..|all| - 1] == blocks + Copies(count - 1, block);
      OneMore(count - 1, block.totalCount);
      OneMore(count - 1, block.dataCount);
    }
  }

  lemma OneMore(n: nat, k: nat)
    ensures (n + 1) * k == n * k + k
  {}

  lemma NoBlocks()
    ensures CodeTotal([]) == 0 && DataTotal([]) == 0
  {}

  lemma DealtTotals(blocks: nat, length: nat, longer: nat, ec: nat)
    requires longer <= blocks && ec <= length
    ensures var r := Dealt(blocks, length, longer, ec);
            && CodeTotal(r) == blocks * length + longer
            && DataTotal(r) == blocks * (length - ec) + longer
  {
    hide CodeTotal, DataTotal;
    var first := Copies(blocks - longer, RawBlock(length, length - ec));
    NoBlocks();
    CopiesSum([], blocks - longer, RawBlock(length, length - ec));
    assert [] + first == first;
    CopiesSum(first, longer, RawBlock(length + 1, length + 1 - ec));
    Grouped(blocks, longer, length);
    Grouped(blocks, longer, length - ec);
  }

  lemma Grouped(n: nat, k: nat, length: nat)
    requires k <= n
    ensures (n - k) * length + k * (length + 1) == n * length + k
  {
    assert (n - k) * length == n * length - k * length;
  }
}
