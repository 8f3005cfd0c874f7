// What the short row of the block table costs: symbols of version 15, level H, do not
// have the standard's blocks.
module ShortRow {
  import opened Binary
  import opened BitStrings
  import opened BlockStandard
  import opened CodewordLayout
  import opened CreateBytes
  import opened CreateData
  import opened QrReader
  import opened QrSymbol
  import opened Results
  import opened RsBlocks
  import opened TypeNumber
  import opened Utf8

  // Texts whose bits, the terminator included, end before byte 85.
  const SHORT_BITS := 676

  // ---- the blocks ----

  lemma ShortBlocks()
    ensures BlocksOf(15, LEVEL_H) == Copies(11, RawBlock(36, 12))
    ensures StandardBlocks(15, LEVEL_H) == Dealt(18, 36, 7, 24)
    ensures BlockData(15, LEVEL_H) == 132
  {
    hide RsBlockTable, Expand, IsRow, Copies, Dealt, SymbolWords, Shares;
    RowSums(15, LEVEL_H);
    RowIsDealt(RsBlockTable(15, LEVEL_H), 396, Share(11, 24), 132);
    DealtIs(11, 36, 0, 24);
    ShortWords();
  }

  // The data of equal blocks are consecutive slices.
  lemma {:induction false} EqualDataBlocks(buffer: seq<Byte>, count: nat, block: RSBlock, k: nat)
    requires k < count
    ensures DataBlocks(buffer, Copies(count, block))[k] == Slice(buffer, k * block.dataCount, block.dataCount)
  {
    hide Slice;
    var all := Copies(count, block);
    var rest := Copies(count - 1, block);
    assert all[..count - 1] == rest;
    if k < count - 1 {
      EqualDataBlocks(buffer, count - 1, block, k);
    } else {
      NoBlocks();
      CopiesSum([], k, block);
      assert [] + rest == rest;
    }
  }

  // Byte 18 of the codewords is byte 85 of the data: the second byte of the eighth block.
  lemma ByteEighteen(bytes: seq<Byte>)
    requires |bytes| == 132
    ensures |Codewords(bytes, BlocksOf(15, LEVEL_H))| == 396
    ensures Codewords(bytes, BlocksOf(15, LEVEL_H))[18] == bytes[85]
  {
    hide Interleave, DataBlocks, Codewords, BlocksOf;
    ShortBlocks();
    var blocks := BlocksOf(15, LEVEL_H);
    var data := DataBlocks(bytes, blocks);
    CodewordsLength(bytes, blocks);
    NoBlocks();
    CopiesSum([], 11, RawBlock(36, 12));
    assert [] + Copies(11, RawBlock(36, 12)) == blocks;
    InterleaveAt(data, 1, 7);
    EqualDataBlocks(bytes, 11, RawBlock(36, 12), 7);
    FirstCodewords(bytes, blocks, 18);
  }

  lemma FirstCodewords(bytes: seq<Byte>, blocks: seq<RSBlock>, k: nat)
    requires k < |Interleave(DataBlocks(bytes, blocks))|
    ensures k < |Codewords(bytes, blocks)|
    ensures Codewords(bytes, blocks)[k] == Interleave(DataBlocks(bytes, blocks))[k]
  {
    hide Interleave, DataBlocks;
  }

  // The standard's reader takes byte 18 of the codewords for the second data byte.
  lemma SecondByte(words: seq<Byte>)
    requires |words| == CodeTotal(StandardBlocks(15, LEVEL_H))
    ensures |words| == 655
    ensures |ReadData(words, StandardBlocks(15, LEVEL_H))| == 223
    ensures ReadData(words, StandardBlocks(15, LEVEL_H))[1] == words[18]
  {
    hide Interleave, Deinterleave, StandardBlocks, Flatten, CodeTotal, DataTotal, Codewords;
    ShortBlocks();
    ShortWords();
    var blocks := StandardBlocks(15, LEVEL_H);
    StandardTotals(15, LEVEL_H);
    CodewordsReadBack([], blocks);
    var lens, first := DataLengths(blocks), words[..DataTotal(blocks)];
    var data := Deinterleave(lens, first);
    InterleaveDeinterleave(lens, first);
    forall k | 0 <= k < |data|
      ensures |data[k]| == lens[k] >= 12
    {
      LengthAt(data, k);
    }
    InterleaveAt(data, 1, 0);
    FlattenStarts(data, 1);
    FlattenLength(data);
  }

  lemma {:induction false} LengthAt(blocks: Blocks<Byte>, k: nat)
    requires k < |blocks|
    ensures Lengths(blocks)[k] == |blocks[k]|
  {
    if k > 0 {
      LengthAt(blocks[1..], k - 1);
    }
  }

  lemma {:induction false} FlattenStarts(blocks: Blocks<Byte>, i: nat)
    requires blocks != [] && i < |blocks[0]|
    ensures i < |Flatten(blocks)| && Flatten(blocks)[i] == blocks[0][i]
  {
    if |blocks| > 1 {
      FlattenStarts(blocks[..|blocks| - 1], i);
    }
  }

  lemma {:induction false} FlattenLength(blocks: Blocks<Byte>)
    ensures |Flatten(blocks)| == Sum(Lengths(blocks))
  {
    if blocks != [] {
      FlattenLength(blocks[..|blocks| - 1]);
      SumOfLast(blocks);
    }
  }

  // ---- the pad byte ----

  lemma ByteIsPad(list: seq<Segment>)
    requires |SegmentsBits(list, 15)| <= SHORT_BITS
    ensures DataBytes(15, 132, list)[85] == 0xEC || DataBytes(15, 132, list)[85] == 0x11
  {
    hide SegmentsBits, DataBytes;
    PadBytes(15, 132, list, 85);
  }

  // ---- the reader ----

  lemma {:induction false} FromBitsAppend(a: seq<bool>, b: seq<bool>)
    ensures FromBits(a + b) == FromBits(a) * Pow2(|b|) + FromBits(b)
  {
    hide FromBits;
    if b == [] {
      assert a + b == a;
      NoBits();
    } else {
      var n := |b| - 1;
      assert (a + b)[..|a + b| - 1] == a + b[..n];
      FromBitsAppend(a, b[..n]);
      LastBit(a + b);
      LastBit(b);
      Twice(FromBits(a), Pow2(n));
    }
  }

  lemma NoBits()
    ensures FromBits([]) == 0
  {}

  lemma LastBit(b: seq<bool>)
    requires b != []
    ensures FromBits(b) == 2 * FromBits(b[..|b| - 1]) + (if b[|b| - 1] then 1 else 0)
  {}

  lemma Twice(a: nat, b: nat)
    ensures 2 * (a * b) == a * (2 * b)
  {}

  // The length field is at least 16 times the second byte, and longer than what there is.
  lemma LengthTooLong(data: seq<Byte>)
    requires |data| == 223 && data[1] >= 17
    ensures ReadSegments(BytesToBits(data), 15) == None || ReadSegments(BytesToBits(data), 15) == Some([])
  {
    hide FromBits, ToBits, BytesToBits;
    var b := BytesToBits(data);
    var low, second, high := b[4..8], b[8..16], b[16..20];
    SecondBits(data);
    assert b[4..20] == (low + second) + high;
    FromBitsAppend(low + second, high);
    FromBitsAppend(low, second);
    FromBitsToBits(data[1], 8);
    assert Pow2(2) == 4 && Pow2(4) == 16 && Pow2(6) == 64 && Pow2(8) == 256;
    assert FromBits(b[4..20]) >= 272;
  }

  lemma SecondBits(data: seq<Byte>)
    requires |data| >= 2
    ensures BytesToBits(data)[8..16] == ToBits(data[1], 8)
  {
    hide ToBits, BytesToBits;
    assert data == data[..2] + data[2..];
    BytesToBitsAppend(data[..2], data[2..]);
    assert data[..2] == data[..1] + [data[1]];
    LastByte(data[..1], data[1]);
    Middle(BytesToBits(data[..1]), ToBits(data[1], 8), BytesToBits(data[2..]));
  }

  lemma Middle(a: seq<bool>, b: seq<bool>, c: seq<bool>)
    ensures (a + b + c)[|a|..|a| + |b|] == b
  {}

  // No texts that end before byte 85 come back from such a symbol.
  lemma ShortUnreadable(mask: nat, texts: seq<seq<Code>>)
    requires mask < 8 && texts != []
    requires |SegmentsBits(SegmentsOf(texts), 15)| <= SHORT_BITS
    ensures Encodes(15, LEVEL_H, SegmentsOf(texts))
    ensures var g := Symbol(15, LEVEL_H, false, mask, Words(15, LEVEL_H, SegmentsOf(texts)));
            ReadSymbol(g, 15) != Some(texts)
  {
    hide Symbol, ReadSymbol, ReadWords, SegmentsBits, BlocksOf, StandardBlocks, Codewords, DataBytes,
         ReadData, ReadSegments, BytesToBits, SymbolWords, CodeTotal;
    var list := SegmentsOf(texts);
    ShortBlocks();
    ShortWords();
    var bytes := DataBytes(15, 132, list);
    var words := Words(15, LEVEL_H, list);
    ByteEighteen(bytes);
    ByteIsPad(list);
    SymbolReads(15, LEVEL_H, mask, words);
    var read := ReadWords(Symbol(15, LEVEL_H, false, mask, words), 15, mask);
    assert read[18] == read[..396][18] == words[18];
    StandardTotals(15, LEVEL_H);
    SecondByte(read);
    LengthTooLong(ReadData(read, StandardBlocks(15, LEVEL_H)));
  }

  ghost predicate ReadsBack(version: nat, level: nat, mask: nat, texts: seq<seq<Code>>)
    requires 1 <= version <= 40 && level < 4 && mask < 8
    requires Encodes(version, level, SegmentsOf(texts))
  {
    ReadSymbol(Symbol(version, level, false, mask, Words(version, level, SegmentsOf(texts))), version) == Some(texts)
  }

  // A version and level gives back every list of texts that fits, whatever the mask,
  // exactly when each can be encoded.
  ghost predicate GivesTextsBack(version: nat, level: nat)
    requires 1 <= version <= 40 && level < 4
  {
    forall mask: nat, texts: seq<seq<Code>> :: mask < 8 && Encodes(version, level, SegmentsOf(texts)) ==>
      (ReadsBack(version, level, mask, texts) <==> EachEncodable(texts))
  }

  // Every version and level does, but for the short row.
  lemma GivesTextsBackIff(version: nat, level: nat)
    requires 1 <= version <= 40 && level < 4
    ensures GivesTextsBack(version, level) <==> !IsShort(version, level)
  {
    hide Symbol, ReadSymbol, Words, Encodes, EachEncodable;
    if IsShort(version, level) {
      LetterFails(0);
      assert !ReadsBack(15, LEVEL_H, 0, [LETTER]);
    } else {
      forall mask: nat, texts: seq<seq<Code>> | mask < 8 && Encodes(version, level, SegmentsOf(texts))
        ensures ReadsBack(version, level, mask, texts) <==> EachEncodable(texts)
      {
        TextsReadBack(version, level, mask, texts);
      }
    }
  }

  const LETTER: seq<Code> := [97]

  // The text "a", for one.
  lemma LetterFails(mask: nat)
    requires mask < 8
    ensures EachEncodable([LETTER]) && Encodes(15, LEVEL_H, SegmentsOf([LETTER]))
    ensures var g := Symbol(15, LEVEL_H, false, mask, Words(15, LEVEL_H, SegmentsOf([LETTER])));
            ReadSymbol(g, 15) != Some([LETTER])
  {
    hide Symbol, ReadSymbol, Words, Encodes, ToBits, BytesToBits;
    var text: seq<Code> := LETTER;
    assert text[1..] == [];
    assert Utf8.EncodeAll(text) == [97] + [];
    OneTextFits(text, 15, LEVEL_H);
    var list := SegmentsOf([text]);
    assert list[..|list| - 1] == [];
    ShortUnreadable(mask, [text]);
  }
}
