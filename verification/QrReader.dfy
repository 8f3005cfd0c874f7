// A reader of finished symbols that knows only the standard's layout and the
// standard's blocks, and what it recovers from what QRCodeModel draws.
module QrReader {
  import opened Binary
  import opened BitStrings
  import opened BlockStandard
  import opened Capacity
  import opened Results
  import opened RsBlocks
  import opened TypeNumber
  import opened Placement
  import opened Patterns
  import opened PositionTable
  import opened CreateBytes
  import opened CreateData
  import opened QrMath
  import opened QrSymbol
  import opened Utf8
  import Bch
  import Layout = CodewordLayout

  // ---- texts to bits and back ----

  function SegmentsOf(texts: seq<seq<Code>>): (list: seq<Segment>)
    ensures |list| == |texts|
  {
    if texts == [] then [] else [Segment(ParsedData(texts[0]))] + SegmentsOf(texts[1..])
  }

  function ReadTexts(list: seq<Segment>): Option<seq<seq<nat>>> {
    if list == [] then Some([])
    else
      match ReadText(list[0].parsedData)
      case None => None
      case Some(text) =>
        match ReadTexts(list[1..])
        case None => None
        case Some(rest) => Some([text] + rest)
  }

  function ReadBits(b: seq<bool>, version: int): Option<seq<seq<nat>>> {
    match ReadSegments(b, version)
    case None => None
    case Some(list) => ReadTexts(list)
  }

  // Every character survives UTF-8, and the byte count fits its field.
  predicate Readable(text: seq<Code>, version: int) {
    Utf8.Encodable(text) && FitsField(Segment(ParsedData(text)), version)
  }

  predicate AllReadable(texts: seq<seq<Code>>, version: int) {
    texts == [] || (Readable(texts[0], version) && AllReadable(texts[1..], version))
  }

  lemma {:induction false} BitsRoundTrip(texts: seq<seq<Code>>, version: int, tail: seq<bool>)
    requires Stops(tail)
    ensures ReadBits(SegmentsBits(SegmentsOf(texts), version) + tail, version) == Some(texts)
       <==> AllReadable(texts, version)
  {
    hide SegmentsBits, SegmentBits, ReadText, ParsedData, Utf8.Encodable;
    var list := SegmentsOf(texts);
    if texts == [] {
      NoSegments(version, tail);
    } else {
      var first, text := list[0], texts[0];
      var more := SegmentsBits(list[1..], version) + tail;
      SegmentsFromFront(list, version);
      assert SegmentsBits(list, version) + tail == SegmentBits(first, version) + more;
      BitsRoundTrip(texts[1..], version, tail);
      ReadFirst(first, version, more);
      assert list[1..] == SegmentsOf(texts[1..]);
      assert texts == [text] + texts[1..];
      TextRoundTrip(text);
      var all := ReadSegments(SegmentBits(first, version) + more, version);
      if !FitsField(first, version) && all.Some? {
        PrefixReadsOther(text, all.value[0].parsedData);
      }
      FirstText(text, texts[1..], first, all, ReadSegments(more, version), FitsField(first, version));
    }
  }

  lemma NoSegments(version: int, tail: seq<bool>)
    requires Stops(tail)
    ensures ReadSegments(SegmentsBits([], version) + tail, version) == Some([])
  {
    assert [] + tail == tail;
  }

  // Reading on from the first text.
  lemma FirstText(text: seq<Code>, others: seq<seq<Code>>, first: Segment, all: Option<seq<Segment>>,
                  rest: Option<seq<Segment>>, fits: bool)
    requires if fits then all == match rest case None => None case Some(t) => Some([first] + t)
             else all.None? || (all.value != [] && ReadText(all.value[0].parsedData) != Some(text))
    ensures (all.Some? && ReadTexts(all.value) == Some([text] + others))
       <==> fits && ReadText(first.parsedData) == Some(text) && rest.Some? && ReadTexts(rest.value) == Some(others)
  {
    hide ReadText;
    if fits && rest.Some? {
      assert all.value[1..] == rest.value;
    }
    if all.Some? && ReadTexts(all.value) == Some([text] + others) {
      assert ([text] + others)[0] == text && ([text] + others)[1..] == others;
    }
  }

  // ---- the finished symbol ----

  // No module is left out; function modules are as drawn; the others hold data.
  lemma SymbolComplete(version: nat, level: nat, test: bool, mask: nat, words: seq<Byte>, p: Pos)
    requires 1 <= version <= 40 && mask < 8
    requires 0 <= p.0 < Size(version) && 0 <= p.1 < Size(version)
    ensures var g := Symbol(version, level, test, mask, words);
            && p in g && g[p] != None
            && (p !in FreeModules(version) ==> g[p] == PatternGrid(version, level, test, mask)[p])
  {
    hide Fill, Pattern, IsFree, PatternPosition, Bch.TypeInfoWord, Bch.TypeNumberWord, GoodPositions;
    var start := PatternGrid(version, level, test, mask);
    var pos := PatternPosition(version);
    SizeIsSize(version);
    FillOnlyFree(start, Size(version), words, mask, 0, 0, 0, 0, p);
    FreeIffNone(version, pos, Bch.TypeInfoWord(8 * level + mask), Bch.TypeNumberWord(version), test, p.0, p.1);
    ColumnSixTaken(version, pos, p.0);
    WalkStarts(Size(version), p);
  }

  lemma WalkStarts(n: nat, p: Pos)
    requires IsSize(n) && 0 <= p.0 < n && 0 <= p.1 < n
    ensures p.1 != 6 ==> OnWalk(n, p) && NotBefore(n, p, 0, 0, 0)
  {
    WalkIsBijective(n, p, 0, 0, 0);
  }

  // Unmasking the free modules in order gives the words, then zeros.
  lemma DataReadsBack(version: nat, level: nat, test: bool, mask: nat, words: seq<Byte>)
    requires 1 <= version <= 40 && mask < 8
    ensures IsSize(Size(version))
    ensures var b := ReadAll(Symbol(version, level, test, mask, words), FreeModules(version), Size(version), mask);
            |b| == |FreeModules(version)| && Streams(b, words, 0)
  {
    hide Fill, Pattern, IsFree, PatternPosition, Bch.TypeInfoWord, Bch.TypeNumberWord, GoodPositions, Streams, Read;
    var start, n, free := PatternGrid(version, level, test, mask), Size(version), FreeModules(version);
    SizeIsSize(version);
    FreeDescribes(version, level, test, mask);
    ReadFill(start, free, n, words, mask, 0, 0, 0, 0);
    ReadLength(Symbol(version, level, test, mask, words), free, n, mask, 0, 0, 0);
    AllFree(version);
  }

  lemma FreeDescribes(version: nat, level: nat, test: bool, mask: nat)
    requires 1 <= version <= 40
    ensures Describes(FreeModules(version), PatternGrid(version, level, test, mask), Size(version), 0, 0, 0)
  {
    hide Pattern, IsFree, PatternPosition, Bch.TypeInfoWord, Bch.TypeNumberWord, GoodPositions, NotBefore;
    var start, n, free := PatternGrid(version, level, test, mask), Size(version), FreeModules(version);
    var pos := PatternPosition(version);
    forall p: Pos | OnWalk(n, p)
      ensures p in free <==> start[p] == None
    {
      FreeIffNone(version, pos, Bch.TypeInfoWord(8 * level + mask), Bch.TypeNumberWord(version), test, p.0, p.1);
    }
  }

  lemma AllFree(version: nat)
    requires 1 <= version <= 40
    ensures FreeFrom(FreeModules(version), Size(version), 0, 0, 0) == FreeModules(version)
  {
    hide IsFree, PatternPosition, GoodPositions, NotBefore;
    SizeIsSize(version);
    forall p: Pos | p in FreeModules(version)
      ensures OnWalk(Size(version), p) && NotBefore(Size(version), p, 0, 0, 0)
    {
      ColumnSixTaken(version, PatternPosition(version), p.0);
      WalkStarts(Size(version), p);
    }
  }

  // ---- format and version words, each drawn twice ----

  // The number shown, most significant bit first, by the modules at these places.
  function ReadWord(g: Grid, at: seq<Pos>): nat
    requires forall i :: 0 <= i < |at| ==> at[i] in g
  {
    FromBits(seq(|at|, i requires 0 <= i < |at| => g[at[i]] == Some(true)))
  }

  lemma ReadWordBack(g: Grid, at: seq<Pos>, word: nat)
    requires word < Pow2(|at|)
    requires forall i :: 0 <= i < |at| ==> at[i] in g && g[at[i]] == Some(Bit(word, |at| - 1 - i))
    ensures ReadWord(g, at) == word
  {
    hide Bit, ToBits, FromBits;
    var bits := seq(|at|, i requires 0 <= i < |at| => g[at[i]] == Some(true));
    forall i | 0 <= i < |at|
      ensures bits[i] == ToBits(word, |at|)[i]
    {
      ToBitsAt(word, |at|, i);
    }
    assert bits == ToBits(word, |at|);
    FromBitsToBits(word, |at|);
  }

  function InfoPlacesOf(n: nat, second: bool): (at: seq<Pos>)
    ensures |at| == 15
  {
    seq(15, i requires 0 <= i < 15 => InfoPos(n, 14 - i, second))
  }

  function VersionPlacesOf(n: nat, second: bool): (at: seq<Pos>)
    ensures |at| == 18
  {
    seq(18, i requires 0 <= i < 18 => VersionPos(n, 17 - i, second))
  }

  function FormatWord(g: Grid, n: nat, second: bool): nat
    requires IsGrid(g, n) && n >= 21
  {
    ReadWord(g, InfoPlacesOf(n, second))
  }

  // The error-correction level and the mask.
  function ReadFormat(g: Grid, n: nat, second: bool): (r: (nat, nat))
    requires IsGrid(g, n) && n >= 21
    ensures r.1 < 8
  {
    var data := Bch.FormatData(FormatWord(g, n, second));
    (data / 8, data % 8)
  }

  function ReadVersion(g: Grid, n: nat, second: bool): nat
    requires IsGrid(g, n) && n >= 45
  {
    ReadWord(g, VersionPlacesOf(n, second)) / 4096
  }

  lemma FormatModule(version: nat, level: nat, mask: nat, words: seq<Byte>, k: nat, second: bool)
    requires 1 <= version <= 40 && mask < 8 && k < 15
    ensures var g, p := Symbol(version, level, false, mask, words), InfoPos(Size(version), k, second);
            p in g && g[p] == Some(Bit(Bch.TypeInfoWord(8 * level + mask), k))
  {
    hide Symbol, Pattern, IsFree, Bit, InfoPos, Bch.TypeInfoWord, Bch.TypeNumberWord, PatternPosition, GoodPositions;
    PatternShowsInfo(version, PatternPosition(version), Bch.TypeInfoWord(8 * level + mask),
                     Bch.TypeNumberWord(version), k, second);
    SymbolComplete(version, level, false, mask, words, InfoPos(Size(version), k, second));
  }

  lemma VersionModule(version: nat, level: nat, mask: nat, words: seq<Byte>, k: nat, second: bool)
    requires 7 <= version <= 40 && mask < 8 && k < 18
    ensures var g, p := Symbol(version, level, false, mask, words), VersionPos(Size(version), k, second);
            p in g && g[p] == Some(Bit(Bch.TypeNumberWord(version), k))
  {
    hide Symbol, Pattern, IsFree, Bit, VersionPos, Bch.TypeInfoWord, Bch.TypeNumberWord, PatternPosition, GoodPositions;
    PatternShowsVersion(version, PatternPosition(version), Bch.TypeInfoWord(8 * level + mask),
                        Bch.TypeNumberWord(version), k, second);
    SymbolComplete(version, level, false, mask, words, VersionPos(Size(version), k, second));
  }

  lemma FormatWordReadsBack(version: nat, level: nat, mask: nat, words: seq<Byte>, second: bool)
    requires 1 <= version <= 40 && level < 4 && mask < 8
    ensures FormatWord(Symbol(version, level, false, mask, words), Size(version), second)
         == Bch.TypeInfoWord(8 * level + mask)
  {
    hide Symbol, Bit, Bch.TypeInfoWord, Bch.FormatData, ReadWord, InfoPos;
    var g, at := Symbol(version, level, false, mask, words), InfoPlacesOf(Size(version), second);
    forall i | 0 <= i < 15
      ensures at[i] in g && g[at[i]] == Some(Bit(Bch.TypeInfoWord(8 * level + mask), 14 - i))
    {
      FormatModule(version, level, mask, words, 14 - i, second);
    }
    Bch.FormatDataBack(8 * level + mask);
    ReadWordBack(g, at, Bch.TypeInfoWord(8 * level + mask));
  }

  lemma FormatReadsBack(version: nat, level: nat, mask: nat, words: seq<Byte>, second: bool)
    requires 1 <= version <= 40 && level < 4 && mask < 8
    ensures ReadFormat(Symbol(version, level, false, mask, words), Size(version), second) == (level, mask)
  {
    hide Symbol, Bch.TypeInfoWord, Bch.FormatData, FormatWord;
    FormatWordReadsBack(version, level, mask, words, second);
    Bch.FormatDataBack(8 * level + mask);
  }

  lemma VersionReadsBack(version: nat, level: nat, mask: nat, words: seq<Byte>, second: bool)
    requires 7 <= version <= 40 && mask < 8
    ensures ReadVersion(Symbol(version, level, false, mask, words), Size(version), second) == version
  {
    hide Symbol, Bit, Bch.TypeNumberWord, ReadWord, VersionPos;
    var g, at := Symbol(version, level, false, mask, words), VersionPlacesOf(Size(version), second);
    forall i | 0 <= i < 18
      ensures at[i] in g && g[at[i]] == Some(Bit(Bch.TypeNumberWord(version), 17 - i))
    {
      VersionModule(version, level, mask, words, 17 - i, second);
    }
    Bch.VersionDataBack(version);
    ReadWordBack(g, at, Bch.TypeNumberWord(version));
  }

  // ---- the whole way ----

  // All codewords of a symbol with this mask.
  ghost function ReadWords(g: Grid, version: nat, mask: nat): (words: seq<Byte>)
    requires 1 <= version <= 40 && IsGrid(g, Size(version)) && mask < 8
    ensures |words| == SymbolWords(version)
  {
    hide FreeModules, Read, BitsToBytes, SymbolWords, IsFree;
    SizeIsSize(version);
    AllFree(version);
    ReadLength(g, FreeModules(version), Size(version), mask, 0, 0, 0);
    WordsFill(version);
    BitsToBytes(ReadAll(g, FreeModules(version), Size(version), mask)[..8 * SymbolWords(version)])
  }

  // The texts in all codewords of a symbol, with the standard's blocks.
  function ReadCodewords(words: seq<Byte>, version: nat, level: nat): Option<seq<seq<nat>>>
    requires 1 <= version <= 40 && level < 4 && |words| == SymbolWords(version)
  {
    hide BytesToBits, ReadBits, ReadData, StandardBlocks, SymbolWords;
    StandardTotals(version, level);
    ReadBits(BytesToBits(ReadData(words, StandardBlocks(version, level))), version)
  }

  // The texts in a symbol, without using the error correction. The level and the
  // mask come from the symbol.
  ghost function ReadSymbol(g: Grid, version: nat): Option<seq<seq<nat>>>
    requires 1 <= version <= 40 && IsGrid(g, Size(version))
  {
    hide ReadFormat, ReadWords, ReadCodewords;
    var (level, mask) := ReadFormat(g, Size(version), false);
    if level >= 4 then None else ReadCodewords(ReadWords(g, version, mask), version, level)
  }

  // The data bytes of all blocks in order.
  function ReadData(words: seq<Byte>, rsBlocks: seq<RSBlock>): seq<Byte>
    requires |words| == CodeTotal(rsBlocks)
  {
    CodewordsReadBack([], rsBlocks);
    Flatten(Layout.Deinterleave(DataLengths(rsBlocks), words[..DataTotal(rsBlocks)]))
  }

  lemma DataOfWords(version: nat, level: nat, list: seq<Segment>)
    requires 1 <= version <= 40 && level < 4 && Encodes(version, level, list)
    ensures |Words(version, level, list)| == CodeTotal(BlocksOf(version, level))
    ensures ReadData(Words(version, level, list), BlocksOf(version, level))
         == DataBytes(version, BlockData(version, level), list)
  {
    hide DataBytes, AllEncodable, DataBlocks, SegmentsBits, Flatten, Layout.Deinterleave, Codewords,
         BlocksOf, BlockData, CodeTotal, DataTotal;
    var bytes := DataBytes(version, BlockData(version, level), list);
    BlocksEncodable(version, level, []);
    CodewordsReadBack(bytes, BlocksOf(version, level));
    assert Slice(bytes, 0, |bytes|) == bytes;
  }

  predicate EachEncodable(texts: seq<seq<Code>>) {
    forall k :: 0 <= k < |texts| ==> Utf8.Encodable(texts[k])
  }

  // What fits into a symbol fits its length fields.
  lemma {:induction false} FittingReadable(texts: seq<seq<Code>>, version: nat, total: nat)
    requires 1 <= version <= 40 && total <= if version < 10 then 232 else 2956
    requires |SegmentsBits(SegmentsOf(texts), version)| <= 8 * total
    ensures AllReadable(texts, version) <==> EachEncodable(texts)
  {
    hide ToBits, BytesToBits, ParsedData, Utf8.Encodable;
    if texts != [] {
      SegmentsFromFront(SegmentsOf(texts), version);
      assert SegmentsOf(texts)[1..] == SegmentsOf(texts[1..]);
      FittingReadable(texts[1..], version, total);
      assert Pow2(2) == 4 && Pow2(4) == 16 && Pow2(6) == 64 && Pow2(8) == 256;
      assert Pow2(10) == 1024 && Pow2(12) == 4096 && Pow2(14) == 16384 && Pow2(16) == 65536;
      assert EachEncodable(texts) <==> Utf8.Encodable(texts[0]) && EachEncodable(texts[1..]) by {
        assert texts == [texts[0]] + texts[1..];
      }
    }
  }

  // Reading the finished symbol gives the codewords, then zeros.
  lemma WordsReadBack(version: nat, level: nat, mask: nat, words: seq<Byte>)
    requires 1 <= version <= 40 && mask < 8 && |words| <= SymbolWords(version)
    ensures ReadWords(Symbol(version, level, false, mask, words), version, mask)[..|words|] == words
  {
    hide Symbol, ReadAll, FreeModules, SymbolWords, Streams, BitsToBytes, BytesToBits;
    var g := Symbol(version, level, false, mask, words);
    var b := ReadAll(g, FreeModules(version), Size(version), mask);
    WordsFill(version);
    DataReadsBack(version, level, false, mask, words);
    DataFirst(b, words);
    BitsToBytesToBits(words);
    FirstBytes(b[..8 * SymbolWords(version)], |words|);
    assert b[..8 * SymbolWords(version)][..8 * |words|] == b[..8 * |words|];
  }

  lemma {:induction false} FirstBytes(b: seq<bool>, n: nat)
    requires |b| % 8 == 0 && 8 * n <= |b|
    ensures BitsToBytes(b)[..n] == BitsToBytes(b[..8 * n])
    decreases |b|
  {
    hide FromBits;
    if 8 * n == |b| {
      assert b[..8 * n] == b;
    } else {
      var rest := b[..|b| - 8];
      FirstBytes(rest, n);
      assert rest[..8 * n] == b[..8 * n];
    }
  }

  // The format and the codewords that were drawn are what is read.
  lemma SymbolReads(version: nat, level: nat, mask: nat, words: seq<Byte>)
    requires 1 <= version <= 40 && level < 4 && mask < 8 && |words| <= SymbolWords(version)
    ensures var g := Symbol(version, level, false, mask, words);
            && ReadSymbol(g, version) == ReadCodewords(ReadWords(g, version, mask), version, level)
            && ReadWords(g, version, mask)[..|words|] == words
  {
    hide Symbol, ReadFormat, ReadWords, ReadCodewords, SymbolWords;
    FormatReadsBack(version, level, mask, words, false);
    WordsReadBack(version, level, mask, words);
  }

  // The codewords of texts give the texts back, exactly when each can be encoded.
  lemma CodewordsGiveTexts(version: nat, level: nat, texts: seq<seq<Code>>)
    requires 1 <= version <= 40 && level < 4 && !IsShort(version, level)
    requires Encodes(version, level, SegmentsOf(texts))
    ensures |Words(version, level, SegmentsOf(texts))| == SymbolWords(version)
    ensures ReadCodewords(Words(version, level, SegmentsOf(texts)), version, level) == Some(texts)
       <==> EachEncodable(texts)
  {
    hide Words, ReadData, ReadBits, ToBits, AllReadable, BytesToBits, SegmentsBits, Padding, EachEncodable,
         BlocksOf, StandardBlocks, LimitLength, CodeTotal, DataTotal, SymbolWords;
    var list := SegmentsOf(texts);
    BlocksStandard(version, level);
    StandardTotals(version, level);
    DataOfWords(version, level, list);
    var bits := SegmentsBits(list, version);
    var padding := Padding(|bits|, 8 * BlockData(version, level));
    BytesToBitsToBytes(bits + padding);
    PaddingStops(|bits|, 8 * BlockData(version, level));
    BitsRoundTrip(texts, version, padding);
    FittingReadable(texts, version, BlockData(version, level));
  }

  // Whoever reads the symbol gets the texts back, exactly when each can be encoded.
  lemma TextsReadBack(version: nat, level: nat, mask: nat, texts: seq<seq<Code>>)
    requires 1 <= version <= 40 && level < 4 && mask < 8 && !IsShort(version, level)
    requires Encodes(version, level, SegmentsOf(texts))
    ensures var g := Symbol(version, level, false, mask, Words(version, level, SegmentsOf(texts)));
            ReadSymbol(g, version) == Some(texts) <==> EachEncodable(texts)
  {
    hide Symbol, Words, ReadSymbol, ReadWords, ReadCodewords, EachEncodable, SymbolWords, Encodes;
    var words := Words(version, level, SegmentsOf(texts));
    CodewordsGiveTexts(version, level, texts);
    SymbolReads(version, level, mask, words);
    var read := ReadWords(Symbol(version, level, false, mask, words), version, mask);
    assert read[..|words|] == read;
  }

  // ---- QRCode.makeCode up to drawing ----

  // The bytes of one text that a symbol can take.
  function ByteCapacity(version: nat, level: nat): nat
    requires 1 <= version <= 40 && level < 4
  {
    if IsShort(version, level) then 129 else Limit(version, level)
  }

  // The version chosen for a text can hold it.
  predicate Makes(text: seq<Code>, level: nat, equal: bool)
    requires level < 4
  {
    match Utf8Length(text, equal)
    case None => false
    case Some(length) =>
      match VersionFrom(length, level, 1)
      case None => false
      case Some(version) => |ParsedData(text)| <= ByteCapacity(version, level)
  }

  datatype CodeError = NoVersion(reason: TypeError) | NoCode(error: QrError)

  lemma OneTextFits(text: seq<Code>, version: nat, level: nat)
    requires 1 <= version <= 40 && level < 4
    ensures SegmentsOf([text]) == [Segment(ParsedData(text))]
    ensures Encodes(version, level, SegmentsOf([text])) <==> |ParsedData(text)| <= ByteCapacity(version, level)
  {
    hide ParsedData, LimitLength, ToBits, BytesToBits;
    assert [text][1..] == [];
    var list := SegmentsOf([text]);
    assert list[..|list| - 1] == [];
    assert |SegmentsBits(list, version)| == 4 + LengthField(version) + 8 * |ParsedData(text)|;
  }

  lemma ShortLimits()
    ensures Limit(14, LEVEL_H) == 194 && Limit(15, LEVEL_H) == 220
  {}

  // UTF-8 takes as many bytes as counted.
  lemma {:induction false} EncodableLength(s: seq<Code>)
    requires Utf8.Encodable(s)
    ensures UriLength(s) == Some(|Utf8.EncodeAll(s)|)
  {
    if s != [] {
      assert !Misencoded(s[0]);
      SplitEncodable(s);
      EncodableLength(s[1..]);
    }
  }

  // Into the short row goes no text that can be encoded: such a text of 129 bytes is
  // given an earlier version.
  lemma ShortNotEncodable(text: seq<Code>, equal: bool)
    requires Makes(text, LEVEL_H, equal)
    requires VersionFrom(Utf8Length(text, equal).value, LEVEL_H, 1) == Some(15)
    ensures !Utf8.Encodable(text)
  {
    hide VersionFrom, LimitLength, Utf8.Encodable, ParsedData;
    if Utf8.Encodable(text) {
      EarlierVersion(text, equal);
      assert false;
    }
  }

  lemma EarlierVersion(text: seq<Code>, equal: bool)
    requires Utf8.Encodable(text) && |ParsedData(text)| <= 129
    ensures Utf8Length(text, equal).Some?
    ensures var version := VersionFrom(Utf8Length(text, equal).value, LEVEL_H, 1);
            version.Some? && version.value <= 14
  {
    hide VersionFrom, LimitLength, Utf8.Encodable;
    EncodableLength(text);
    ShortLimits();
    assert |Utf8.EncodeAll(text)| <= |ParsedData(text)|;
    assert Utf8Length(text, equal).value <= Limit(14, LEVEL_H);
  }

  // Whatever mask is chosen, the reader gets the text back if it can be encoded, and
  // only then unless the row is short.
  method MakeCode(correctLevel: nat, text: seq<Code>, equal: bool, lostPoint: Grid -> real)
    returns (r: Result<(nat, Grid), CodeError>)
    requires correctLevel < 4
    ensures r.Ok? <==> Makes(text, correctLevel, equal)
    ensures (r.Err? && r.error.NoVersion?) <==>
      Utf8Length(text, equal) == None || VersionFrom(Utf8Length(text, equal).value, correctLevel, 1) == None
    ensures r.Ok? ==>
      && VersionFrom(Utf8Length(text, equal).value, correctLevel, 1) == Some(r.value.0)
      && 1 <= r.value.0 <= 40 && IsGrid(r.value.1, Size(r.value.0))
      && (Utf8.Encodable(text) ==> ReadSymbol(r.value.1, r.value.0) == Some([text]))
      && (!IsShort(r.value.0, correctLevel) ==>
            (ReadSymbol(r.value.1, r.value.0) == Some([text]) <==> Utf8.Encodable(text)))
  {
    hide Encodes, Words, Symbol, ReadSymbol, ParsedData, Utf8.Encodable, QRCodeModel.View, LimitLength,
         ByteCapacity, Utf8Length, VersionFrom;
    var typed := GetTypeNumber(text, correctLevel, equal);
    if typed.Err? {
      return Err(NoVersion(typed.error));
    }
    var typeNumber := typed.value;
    var m := new QRMath();
    var model := new QRCodeModel(typeNumber, correctLevel);
    model.AddData(text);
    assert model.dataList == [Segment(ParsedData(text))];
    OneTextFits(text, typeNumber, correctLevel);
    var mask := model.Make(m, lostPoint);
    if mask.Err? {
      return Err(NoCode(mask.error));
    }
    if IsShort(typeNumber, correctLevel) {
      ShortNotEncodable(text, equal);
    } else {
      TextsReadBack(typeNumber, correctLevel, mask.value, [text]);
    }
    return Ok((typeNumber, model.View()));
  }

  // When the limits are compared with a length that has 3 added, a text without
  // surrogates fits the version chosen for it, except into the short row.
  lemma MakesUnlessShort(text: seq<Code>, level: nat)
    requires level < 4 && NoSurrogates(text)
    ensures UriLength(text).Some?
    ensures var version := VersionFrom(UriLength(text).value + 3, level, 1);
            && (version == None ==> !Makes(text, level, false))
            && (version.Some? ==>
                  (Makes(text, level, false) <==> (IsShort(version.value, level) ==> |ParsedData(text)| <= 129)))
  {
    hide ParsedData, LimitLength, VersionFrom;
    BytesWithinLength(text);
  }

  // For ASCII: all lengths up to the largest limit, but for a gap at level H.
  lemma AsciiMakes(text: seq<Code>, level: nat)
    requires level < 4 && Ascii(text)
    ensures Makes(text, level, false)
       <==> |text| + 3 <= Limit(40, level) && !(level == LEVEL_H && 192 <= |text| <= 217)
  {
    hide ParsedData, VersionFrom, NoSurrogates, Ascii;
    AsciiLength(text);
    AsciiPlain(text);
    MakesUnlessShort(text, level);
    var version := VersionFrom(|text| + 3, level, 1);
    ShortLimits();
    hide LimitLength;
    if version.Some? {
      LimitsGrow(version.value, 40, level);
      if level == LEVEL_H {
        if version.value <= 14 {
          LimitsGrow(version.value, 14, level);
        }
      }
    }
  }

  lemma AsciiPlain(text: seq<Code>)
    requires Ascii(text)
    ensures NoSurrogates(text)
  {}
}
