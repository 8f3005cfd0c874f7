// What a decoder can make of a damaged symbol.
module DamagedSymbol {
  import opened Bch
  import opened BchDistance
  import opened Binary
  import opened BlockStandard
  import opened CreateBytes
  import opened CreateData
  import opened ErrorCorrection
  import opened Patterns
  import opened Placement
  import opened QrReader
  import opened QrSymbol
  import opened ReedSolomon
  import opened Results
  import opened RsBlocks
  import opened Utf8

  // A level, a mask and codewords that a grid may be a damaged drawing of: at most three
  // bits of the format word are wrong, all syndromes of the codewords vanish, and in no
  // block more than half as many bytes are wrong as it has error-correction bytes.
  ghost predicate MayShow(g: Grid, version: nat, second: bool, level: nat, mask: nat, words: seq<Byte>)
    requires 1 <= version <= 40 && IsGrid(g, Size(version)) && level < 4 && mask < 8
    requires |words| == SymbolWords(version)
  {
    StandardTotals(version, level);
    var blocks := StandardBlocks(version, level);
    && Distance(FormatWord(g, Size(version), second), TypeInfoWord(8 * level + mask), 15) <= 3
    && IsCode(words, blocks)
    && Close(ReadWords(g, version, mask), words, blocks)
  }

  // The codewords that were drawn are code words in the standard's blocks.
  lemma DrawnIsCode(version: nat, level: nat, list: seq<Segment>)
    requires 1 <= version <= 40 && level < 4 && !IsShort(version, level) && Encodes(version, level, list)
    ensures |Words(version, level, list)| == SymbolWords(version) == CodeTotal(StandardBlocks(version, level))
    ensures IsCode(Words(version, level, list), StandardBlocks(version, level))
  {
    hide IsCode, Codewords, DataBytes, BlocksOf, StandardBlocks, SymbolWords, CodeTotal, BlockData;
    BlocksStandard(version, level);
    StandardTotals(version, level);
    CodewordsAreCode(DataBytes(version, BlockData(version, level), list), BlocksOf(version, level));
  }

  lemma {:induction false} NoDistance(a: nat, len: nat)
    ensures Distance(a, a, len) == 0
  {
    if len > 0 {
      NoDistance(a, len - 1);
    }
  }

  lemma {:induction false} NoHamming(w: seq<Byte>)
    ensures Hamming(w, w) == 0
  {
    if w != [] {
      NoHamming(w[1..]);
    }
  }

  // The undamaged symbol may show what was drawn.
  lemma DrawnMayShow(version: nat, level: nat, mask: nat, list: seq<Segment>, second: bool)
    requires 1 <= version <= 40 && level < 4 && mask < 8 && !IsShort(version, level) && Encodes(version, level, list)
    ensures |Words(version, level, list)| == SymbolWords(version)
    ensures var words := Words(version, level, list);
            MayShow(Symbol(version, level, false, mask, words), version, second, level, mask, words)
  {
    hide Symbol, IsCode, Distance, Words, Encodes, ReadWords, FormatWord, StandardBlocks, SymbolWords, CodeTotal,
         BlockWord, Hamming, TypeInfoWord;
    var words := Words(version, level, list);
    DrawnIsCode(version, level, list);
    StandardTotals(version, level);
    FormatWordReadsBack(version, level, mask, words, second);
    NoDistance(TypeInfoWord(8 * level + mask), 15);
    WordsReadBack(version, level, mask, words);
    var read := ReadWords(Symbol(version, level, false, mask, words), version, mask);
    assert read[..|words|] == read;
    var blocks := StandardBlocks(version, level);
    forall k | 0 <= k < |blocks|
      ensures Hamming(BlockWord(words, blocks, k), BlockWord(words, blocks, k)) == 0
    {
      NoHamming(BlockWord(words, blocks, k));
    }
  }

  // A grid that may show texts may show nothing else, in no other level and mask: a
  // decoder that corrects what it reads gets exactly these texts, if each can be encoded.
  lemma DamagedReadsBack(version: nat, level: nat, mask: nat, texts: seq<seq<Code>>, g: Grid, second: bool,
                         level': nat, mask': nat, other: seq<Byte>)
    requires 1 <= version <= 40 && level < 4 && mask < 8 && level' < 4 && mask' < 8 && !IsShort(version, level)
    requires Encodes(version, level, SegmentsOf(texts)) && IsGrid(g, Size(version))
    requires |other| == SymbolWords(version)
    ensures |Words(version, level, SegmentsOf(texts))| == SymbolWords(version)
    ensures MayShow(g, version, second, level, mask, Words(version, level, SegmentsOf(texts))) ==>
      && (MayShow(g, version, second, level', mask', other)
          <==> level' == level && mask' == mask && other == Words(version, level, SegmentsOf(texts)))
      && (ReadCodewords(Words(version, level, SegmentsOf(texts)), version, level) == Some(texts)
          <==> EachEncodable(texts))
  {
    hide IsCode, Close, Distance, FormatWord, TypeInfoWord, ReadWords, ReadCodewords, StandardBlocks, SymbolWords,
         EachEncodable, Encodes, Words, CodeTotal;
    var list := SegmentsOf(texts);
    var words := Words(version, level, list);
    DrawnIsCode(version, level, list);
    CodewordsGiveTexts(version, level, texts);
    if MayShow(g, version, second, level, mask, words) && MayShow(g, version, second, level', mask', other) {
      FormatUnique(FormatWord(g, Size(version), second), 8 * level + mask, 8 * level' + mask');
      assert level' == level && mask' == mask;
      OnlyCode(version, level, list, ReadWords(g, version, mask), other);
    }
  }

  lemma OnlyCode(version: nat, level: nat, list: seq<Segment>, received: seq<Byte>, other: seq<Byte>)
    requires 1 <= version <= 40 && level < 4 && !IsShort(version, level) && Encodes(version, level, list)
    requires |received| == |other| == CodeTotal(StandardBlocks(version, level))
    requires |Words(version, level, list)| == CodeTotal(StandardBlocks(version, level))
    requires Close(received, Words(version, level, list), StandardBlocks(version, level))
    requires IsCode(other, StandardBlocks(version, level)) && Close(received, other, StandardBlocks(version, level))
    ensures other == Words(version, level, list)
  {
    hide IsCode, Close, Codewords, DataBytes, BlocksOf, StandardBlocks, CodeTotal, BlockData;
    BlocksStandard(version, level);
    BlocksFill(version, level);
    Correctable(DataBytes(version, BlockData(version, level), list), BlocksOf(version, level), received, other);
  }
}
