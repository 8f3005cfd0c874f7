// QRCodeModel: function patterns, then the data, drawn in place on the grid of
// modules; the choice of the mask.
module QrSymbol {
  import opened Bch
  import opened Binary
  import opened BitStrings
  import opened Results
  import opened Placement
  import opened Patterns
  import opened PositionTable
  import opened CreateBytes
  import opened CreateData
  import opened QrMath
  import opened RsBlocks
  import opened Capacity
  import opened Utf8

  class QRCodeModel {
    const typeNumber: nat
    const errorCorrectLevel: nat
    var modules: array2<Option<bool>>
    var moduleCount: nat
    var dataCache: Option<seq<Byte>>
    var dataList: seq<Segment>

    // The grid has been laid out.
    ghost predicate Valid()
      reads `modules, `moduleCount
    {
      && 1 <= typeNumber <= 40 && errorCorrectLevel < 4
      && moduleCount == Size(typeNumber) && IsSize(moduleCount)
      && modules.Length0 == modules.Length1 == moduleCount
    }

    function View(): (g: Grid)
      reads `modules, `moduleCount, modules
      requires Valid()
      ensures IsGrid(g, moduleCount)
    {
      map r: int, c: int | 0 <= r < moduleCount && 0 <= c < moduleCount :: (r, c) := modules[r, c]
    }

    constructor (typeNumber: nat, errorCorrectLevel: nat)
      ensures this.typeNumber == typeNumber && this.errorCorrectLevel == errorCorrectLevel
      ensures dataCache == None && dataList == []
    {
      this.typeNumber := typeNumber;
      this.errorCorrectLevel := errorCorrectLevel;
      moduleCount := 0;
      modules := new Option<bool>[0, 0];
      dataCache := None;
      dataList := [];
    }

    method AddData(data: seq<Code>)
      modifies `dataList, `dataCache
      ensures dataList == old(dataList) + [Segment(ParsedData(data))] && dataCache == None
    {
      hide ParsedData;
      var newData := ParseData(data);
      dataList := dataList + [Segment(newData)];
      dataCache := None;
    }

    // One finder pattern whose outer corner is (row, col), clipped to the symbol.
    method SetupPositionProbePattern(row: int, col: int)
      requires Valid()
      modifies modules
      ensures forall i, j :: 0 <= i < moduleCount && 0 <= j < moduleCount ==>
        modules[i, j] == if Ring(i, j, row + 3, col + 3) <= 4
                         then Some(Finder(i, j, row + 3, col + 3)) else old(modules[i, j])
    {
      var count := moduleCount;
      for r := -1 to 8
        invariant forall i, j :: 0 <= i < count && 0 <= j < count ==>
          modules[i, j] == if Ring(i, j, row + 3, col + 3) <= 4 && i < row + r
                           then Some(Finder(i, j, row + 3, col + 3)) else old(modules[i, j])
      {
        if row + r <= -1 || count <= row + r {
          continue;
        }
        for c := -1 to 8
          invariant forall i, j :: 0 <= i < count && 0 <= j < count ==>
            modules[i, j] == if Ring(i, j, row + 3, col + 3) <= 4 && (i < row + r || (i == row + r && j < col + c))
                             then Some(Finder(i, j, row + 3, col + 3)) else old(modules[i, j])
        {
          if col + c <= -1 || count <= col + c {
            continue;
          }
          if (0 <= r <= 6 && (c == 0 || c == 6)) || (0 <= c <= 6 && (r == 0 || r == 6))
             || (2 <= r <= 4 && 2 <= c <= 4) {
            modules[row + r, col + c] := Some(true);
          } else {
            modules[row + r, col + c] := Some(false);
          }
        }
      }
    }

    method SetupTimingPattern()
      requires Valid()
      modifies modules
      ensures forall i, j :: 0 <= i < moduleCount && 0 <= j < moduleCount ==>
        modules[i, j] == if old(modules[i, j]) != None then old(modules[i, j])
                         else if j == 6 && 8 <= i < moduleCount - 8 then Some(i % 2 == 0)
                         else if i == 6 && 8 <= j < moduleCount - 8 then Some(j % 2 == 0)
                         else None
    {
      var count := moduleCount;
      for r := 8 to count - 8
        invariant forall i, j :: 0 <= i < count && 0 <= j < count ==>
          modules[i, j] == if old(modules[i, j]) == None && j == 6 && 8 <= i < r
                           then Some(i % 2 == 0) else old(modules[i, j])
      {
        if modules[r, 6] != None {
          continue;
        }
        modules[r, 6] := Some(r % 2 == 0);
      }
      for c := 8 to count - 8
        invariant forall i, j :: 0 <= i < count && 0 <= j < count ==>
          modules[i, j] == if old(modules[i, j]) != None then old(modules[i, j])
                           else if j == 6 && 8 <= i < count - 8 then Some(i % 2 == 0)
                           else if i == 6 && 8 <= j < c then Some(j % 2 == 0)
                           else None
      {
        if modules[6, c] != None {
          continue;
        }
        modules[6, c] := Some(c % 2 == 0);
      }
    }

    method DrawAlignment(row: int, col: int)
      requires Valid() && 2 <= row < moduleCount - 2 && 2 <= col < moduleCount - 2
      modifies modules
      ensures forall i, j :: 0 <= i < moduleCount && 0 <= j < moduleCount ==>
        modules[i, j] == if Ring(i, j, row, col) <= 2 then Some(Ring(i, j, row, col) != 1) else old(modules[i, j])
    {
      var count := moduleCount;
      for r := -2 to 3
        invariant forall i, j :: 0 <= i < count && 0 <= j < count ==>
          modules[i, j] == if Ring(i, j, row, col) <= 2 && i < row + r
                           then Some(Ring(i, j, row, col) != 1) else old(modules[i, j])
      {
        for c := -2 to 3
          invariant forall i, j :: 0 <= i < count && 0 <= j < count ==>
            modules[i, j] == if Ring(i, j, row, col) <= 2 && (i < row + r || (i == row + r && j < col + c))
                             then Some(Ring(i, j, row, col) != 1) else old(modules[i, j])
        {
          if r == -2 || r == 2 || c == -2 || c == 2 || (r == 0 && c == 0) {
            modules[row + r, col + c] := Some(true);
          } else {
            modules[row + r, col + c] := Some(false);
          }
        }
      }
    }

    method SetupPositionAdjustPattern()
      requires Valid()
      modifies modules
      ensures forall r, c :: 0 <= r < moduleCount && 0 <= c < moduleCount ==>
        modules[r, c] == Aligned(old(View()), PatternPosition(typeNumber), |PatternPosition(typeNumber)|, 0, r, c)
    {
      hide PatternPosition, Aligned, View;
      var pos := PatternPosition(typeNumber);
      DrawAlignments(pos);
    }

    method DrawAlignments(pos: seq<nat>)
      requires Valid() && GoodPositions(pos, moduleCount)
      modifies modules
      ensures forall r, c :: 0 <= r < moduleCount && 0 <= c < moduleCount ==>
        modules[r, c] == Aligned(old(View()), pos, |pos|, 0, r, c)
    {
      hide Aligned, Ring;
      ghost var was := View();
      forall r, c | 0 <= r < moduleCount && 0 <= c < moduleCount
        ensures modules[r, c] == Aligned(was, pos, 0, 0, r, c)
      {
        AlignedStart(was, moduleCount, pos, 0, r, c);
      }
      for i := 0 to |pos|
        invariant forall r, c :: 0 <= r < moduleCount && 0 <= c < moduleCount ==>
          modules[r, c] == Aligned(was, pos, i, 0, r, c)
      {
        for j := 0 to |pos|
          invariant forall r, c :: 0 <= r < moduleCount && 0 <= c < moduleCount ==>
            modules[r, c] == Aligned(was, pos, i, j, r, c)
        {
          var row, col := pos[i], pos[j];
          forall r, c | 0 <= r < moduleCount && 0 <= c < moduleCount
            ensures Aligned(was, pos, i, j + 1, r, c)
                 == if was[(row, col)] == None && Ring(r, c, row, col) <= 2 then Some(Ring(r, c, row, col) != 1)
                    else Aligned(was, pos, i, j, r, c)
          {
            AlignedStep(was, moduleCount, pos, i, j, r, c);
          }
          AlignedCentre(was, moduleCount, pos, i, j);
          if modules[row, col] != None {
            continue;
          }
          DrawAlignment(row, col);
        }
        forall r, c | 0 <= r < moduleCount && 0 <= c < moduleCount
          ensures Aligned(was, pos, i, |pos|, r, c) == Aligned(was, pos, i + 1, 0, r, c)
        {
          AlignedStart(was, moduleCount, pos, i + 1, r, c);
        }
      }
    }

    // Both copies of the format word, and the dark module.
    method SetupTypeInfo(test: bool, maskPattern: nat)
      requires Valid() && maskPattern < 8
      modifies modules
      ensures forall r, c :: 0 <= r < moduleCount && 0 <= c < moduleCount ==>
        modules[r, c] ==
          if r == moduleCount - 8 && c == 8 then Some(!test)
          else match InfoBit(moduleCount, r, c)
            case Some(k) => Some(!test && Bit(TypeInfoWord(8 * errorCorrectLevel + maskPattern), k))
            case None => old(modules[r, c])
    {
      hide TypeInfoWord, Bit;
      var data := 8 * errorCorrectLevel + maskPattern;
      var bits := GetBCHTypeInfo(data);
      SetupTypeInfoColumn(test, bits);
      SetupTypeInfoRow(test, bits);
      forall r, c | 0 <= r < moduleCount && 0 <= c < moduleCount && InfoBit(moduleCount, r, c) != None
        ensures InColumnCopy(moduleCount, r, c) || InRowCopy(moduleCount, r, c)
      {
      }
      modules[moduleCount - 8, 8] := Some(!test);
    }

    method SetupTypeInfoColumn(test: bool, bits: nat)
      requires Valid()
      modifies modules
      ensures forall r, c :: 0 <= r < moduleCount && 0 <= c < moduleCount ==>
        modules[r, c] == if InColumnCopy(moduleCount, r, c)
                         then Some(!test && Bit(bits, InfoBit(moduleCount, r, c).value)) else old(modules[r, c])
    {
      hide Bit;
      for i := 0 to 15
        invariant forall r, c :: 0 <= r < moduleCount && 0 <= c < moduleCount ==>
          modules[r, c] == if InColumnCopy(moduleCount, r, c) && InfoBit(moduleCount, r, c).value < i
                           then Some(!test && Bit(bits, InfoBit(moduleCount, r, c).value)) else old(modules[r, c])
      {
        var mod := !test && Bit(bits, i);
        if i < 6 {
          modules[i, 8] := Some(mod);
        } else if i < 8 {
          modules[i + 1, 8] := Some(mod);
        } else {
          modules[moduleCount - 15 + i, 8] := Some(mod);
        }
      }
    }

    method SetupTypeInfoRow(test: bool, bits: nat)
      requires Valid()
      modifies modules
      ensures forall r, c :: 0 <= r < moduleCount && 0 <= c < moduleCount ==>
        modules[r, c] == if InRowCopy(moduleCount, r, c)
                         then Some(!test && Bit(bits, InfoBit(moduleCount, r, c).value)) else old(modules[r, c])
    {
      hide Bit;
      for i := 0 to 15
        invariant forall r, c :: 0 <= r < moduleCount && 0 <= c < moduleCount ==>
          modules[r, c] == if InRowCopy(moduleCount, r, c) && InfoBit(moduleCount, r, c).value < i
                           then Some(!test && Bit(bits, InfoBit(moduleCount, r, c).value)) else old(modules[r, c])
      {
        var mod := !test && Bit(bits, i);
        if i < 8 {
          modules[8, moduleCount - i - 1] := Some(mod);
        } else if i < 9 {
          modules[8, 15 - i - 1 + 1] := Some(mod);
        } else {
          modules[8, 15 - i - 1] := Some(mod);
        }
      }
    }

    method SetupTypeNumber(test: bool)
      requires Valid() && typeNumber >= 7
      modifies modules
      ensures forall r, c :: 0 <= r < moduleCount && 0 <= c < moduleCount ==>
        modules[r, c] == match VersionBit(moduleCount, r, c)
          case Some(k) => Some(!test && Bit(TypeNumberWord(typeNumber), k))
          case None => old(modules[r, c])
    {
      hide TypeNumberWord, Bit;
      var bits := GetBCHTypeNumber(typeNumber);
      SetupTypeNumberTop(test, bits);
      SetupTypeNumberSide(test, bits);
    }

    method SetupTypeNumberTop(test: bool, bits: nat)
      requires Valid() && typeNumber >= 7
      modifies modules
      ensures forall r, c :: 0 <= r < moduleCount && 0 <= c < moduleCount ==>
        modules[r, c] == if r < 6 && VersionBit(moduleCount, r, c) != None
                         then Some(!test && Bit(bits, VersionBit(moduleCount, r, c).value)) else old(modules[r, c])
    {
      hide Bit;
      for i := 0 to 18
        invariant forall r, c :: 0 <= r < moduleCount && 0 <= c < moduleCount ==>
          modules[r, c] == if r < 6 && VersionBit(moduleCount, r, c) != None && VersionBit(moduleCount, r, c).value < i
                           then Some(!test && Bit(bits, VersionBit(moduleCount, r, c).value)) else old(modules[r, c])
      {
        modules[i / 3, i % 3 + moduleCount - 8 - 3] := Some(!test && Bit(bits, i));
      }
    }

    method SetupTypeNumberSide(test: bool, bits: nat)
      requires Valid() && typeNumber >= 7
      modifies modules
      ensures forall r, c :: 0 <= r < moduleCount && 0 <= c < moduleCount ==>
        modules[r, c] == if c < 6 && VersionBit(moduleCount, r, c) != None
                         then Some(!test && Bit(bits, VersionBit(moduleCount, r, c).value)) else old(modules[r, c])
    {
      hide Bit;
      for i := 0 to 18
        invariant forall r, c :: 0 <= r < moduleCount && 0 <= c < moduleCount ==>
          modules[r, c] == if c < 6 && VersionBit(moduleCount, r, c) != None && VersionBit(moduleCount, r, c).value < i
                           then Some(!test && Bit(bits, VersionBit(moduleCount, r, c).value)) else old(modules[r, c])
      {
        modules[i % 3 + moduleCount - 8 - 3, i / 3] := Some(!test && Bit(bits, i));
      }
    }

    // One module of the walk; returns the position of the next data bit.
    method MapModule(data: seq<Byte>, maskPattern: nat, row: nat, col: nat, byteIndex: nat, bitIndex: int)
      returns (nextByte: nat, nextBit: int)
      requires Valid() && maskPattern < 8 && 0 <= bitIndex <= 7 && row < moduleCount && col < moduleCount
      modifies modules
      ensures 0 <= nextBit <= 7
      ensures var k := 8 * byteIndex + 7 - bitIndex;
              if old(View())[(row, col)] == None then
                && View() == old(View())[(row, col) := Some(Stored(data, k, maskPattern, (row, col)))]
                && 8 * nextByte + 7 - nextBit == k + 1
              else View() == old(View()) && nextByte == byteIndex && nextBit == bitIndex
    {
      hide Mask, Bit, IsSize;
      nextByte, nextBit := byteIndex, bitIndex;
      if modules[row, col] == None {
        var dark := false;
        if byteIndex < |data| {
          dark := Bit(data[byteIndex], bitIndex);
        }
        var mask := Mask(maskPattern, row, col);
        if mask {
          dark := !dark;
        }
        assert dark == Stored(data, 8 * byteIndex + 7 - bitIndex, maskPattern, (row, col));
        modules[row, col] := Some(dark);
        nextBit := bitIndex - 1;
        if nextBit == -1 {
          nextByte := byteIndex + 1;
          nextBit := 7;
        }
      }
    }

    // The two modules of one line of a strip.
    method MapLine(data: seq<Byte>, maskPattern: nat, row: nat, col: nat, byteIndex: nat, bitIndex: int,
                   ghost j: nat, ghost i: nat) returns (nextByte: nat, nextBit: int)
      requires Valid() && maskPattern < 8 && 0 <= bitIndex <= 7
      requires j < Strips(moduleCount) && i < moduleCount && At(moduleCount, j, i, 0) == (row, col)
      modifies modules
      ensures 0 <= nextBit <= 7
      ensures Fill(View(), moduleCount, data, maskPattern, j, i + 1, 0, 8 * nextByte + 7 - nextBit)
           == Fill(old(View()), moduleCount, data, maskPattern, j, i, 0, 8 * byteIndex + 7 - bitIndex)
    {
      hide Fill, Stored, IsSize, View, IsGrid;
      nextByte, nextBit := byteIndex, bitIndex;
      ghost var filled := Fill(View(), moduleCount, data, maskPattern, j, i, 0, 8 * byteIndex + 7 - bitIndex);
      for c := 0 to 2
        invariant 0 <= nextBit <= 7
        invariant Fill(View(), moduleCount, data, maskPattern, j, i, c, 8 * nextByte + 7 - nextBit) == filled
      {
        FillStep(View(), moduleCount, data, maskPattern, j, i, c, 8 * nextByte + 7 - nextBit);
        nextByte, nextBit := MapModule(data, maskPattern, row, col - c, nextByte, nextBit);
      }
      FillLine(View(), moduleCount, data, maskPattern, j, i, 8 * nextByte + 7 - nextBit);
    }

    // One strip, up or down; returns the row and direction of the next.
    method MapStrip(data: seq<Byte>, maskPattern: nat, start: nat, col: nat, dir: int, byteIndex: nat, bitIndex: int,
                    ghost j: nat) returns (row: int, inc: int, nextByte: nat, nextBit: int)
      requires Valid() && maskPattern < 8 && 0 <= bitIndex <= 7
      requires j < Strips(moduleCount) && col == RightColumn(moduleCount, j)
      requires dir == (if j % 2 == 0 then -1 else 1) && start == (if j % 2 == 0 then moduleCount - 1 else 0)
      modifies modules
      ensures 0 <= nextBit <= 7 && inc == -dir && row == (if j % 2 == 0 then 0 else moduleCount - 1)
      ensures Fill(View(), moduleCount, data, maskPattern, j + 1, 0, 0, 8 * nextByte + 7 - nextBit)
           == Fill(old(View()), moduleCount, data, maskPattern, j, 0, 0, 8 * byteIndex + 7 - bitIndex)
    {
      hide Fill, IsSize, View, IsGrid;
      ghost var n := moduleCount;
      ghost var filled := Fill(View(), n, data, maskPattern, j, 0, 0, 8 * byteIndex + 7 - bitIndex);
      row, inc, nextByte, nextBit := start, dir, byteIndex, bitIndex;
      ghost var i := 0;
      while true
        invariant 0 <= i < n && row == (if j % 2 == 0 then n - 1 - i else i) && inc == dir
        invariant 0 <= nextBit <= 7
        invariant Fill(View(), n, data, maskPattern, j, i, 0, 8 * nextByte + 7 - nextBit) == filled
        decreases n - i
      {
        nextByte, nextBit := MapLine(data, maskPattern, row, col, nextByte, nextBit, j, i);
        i := i + 1;
        row := row + inc;
        if row < 0 || moduleCount <= row {
          row := row - inc;
          inc := -inc;
          break;
        }
      }
      FillStrip(View(), n, data, maskPattern, j, 8 * nextByte + 7 - nextBit);
    }

    // The zig-zag walk.
    method MapData(data: seq<Byte>, maskPattern: nat)
      requires Valid() && maskPattern < 8
      modifies modules
      ensures View() == Fill(old(View()), moduleCount, data, maskPattern, 0, 0, 0, 0)
    {
      hide Fill, IsSize, View, IsGrid;
      ghost var n, start := moduleCount, View();
      var inc := -1;
      var row := moduleCount - 1;
      var bitIndex: int := 7;
      var byteIndex: nat := 0;
      var col := moduleCount - 1;
      ghost var j := 0;
      StripColumns(n, 0);
      while col > 0
        invariant 0 <= j <= Strips(n) && col == n - 1 - 2 * j - (if n - 1 - 2 * j < 6 then 1 else 0)
        invariant inc == (if j % 2 == 0 then -1 else 1) && row == (if j % 2 == 0 then n - 1 else 0)
        invariant 0 <= bitIndex <= 7
        invariant Fill(View(), n, data, maskPattern, j, 0, 0, 8 * byteIndex + 7 - bitIndex)
               == Fill(start, n, data, maskPattern, 0, 0, 0, 0)
        decreases Strips(n) - j
      {
        StripColumns(n, j);
        if col == 6 {
          col := col - 1;
        }
        row, inc, byteIndex, bitIndex := MapStrip(data, maskPattern, row, col, inc, byteIndex, bitIndex, j);
        j := j + 1;
        col := col - 2;
        StripColumns(n, j);
      }
      FillDone(View(), n, data, maskPattern, 8 * byteIndex + 7 - bitIndex);
    }

    method DrawProbes()
      requires Valid()
      requires forall r, c :: 0 <= r < moduleCount && 0 <= c < moduleCount ==> modules[r, c] == None
      modifies modules
      ensures forall r, c :: 0 <= r < moduleCount && 0 <= c < moduleCount ==>
        modules[r, c] == Probe(moduleCount, r, c)
    {
      hide Finder;
      SetupPositionProbePattern(0, 0);
      SetupPositionProbePattern(moduleCount - 7, 0);
      SetupPositionProbePattern(0, moduleCount - 7);
    }

    method DrawFixedPatterns()
      requires Valid()
      requires forall r, c :: 0 <= r < moduleCount && 0 <= c < moduleCount ==> modules[r, c] == None
      modifies modules
      ensures forall r, c :: 0 <= r < moduleCount && 0 <= c < moduleCount ==>
        modules[r, c] == Timing(moduleCount, PatternPosition(typeNumber), r, c)
    {
      hide Slot, Probe, Ring, PatternPosition;
      DrawProbes();
      SetupPositionAdjustPattern();
      assert forall r, c :: 0 <= r < moduleCount && 0 <= c < moduleCount ==>
        modules[r, c] == Align(moduleCount, PatternPosition(typeNumber), r, c);
      hide Align;
      SetupTimingPattern();
    }

    // All function patterns, in the program's order.
    method DrawPatterns(test: bool, maskPattern: nat)
      requires Valid() && maskPattern < 8
      requires forall r, c :: 0 <= r < moduleCount && 0 <= c < moduleCount ==> modules[r, c] == None
      modifies modules
      ensures forall r, c :: 0 <= r < moduleCount && 0 <= c < moduleCount ==>
        modules[r, c] == Pattern(typeNumber, PatternPosition(typeNumber),
                                 TypeInfoWord(8 * errorCorrectLevel + maskPattern),
                                 TypeNumberWord(typeNumber), test, r, c)
    {
      hide Timing, TypeInfoWord, TypeNumberWord, Bit, InfoBit, VersionBit, PatternPosition;
      DrawFixedPatterns();
      SetupTypeInfo(test, maskPattern);
      if typeNumber >= 7 {
        SetupTypeNumber(test);
      }
    }

    // What the cache holds is the codewords of the current segments.
    ghost predicate CacheValid()
      reads `dataCache, `dataList
      requires 1 <= typeNumber <= 40 && errorCorrectLevel < 4
    {
      dataCache.Some? ==>
        Encodes(typeNumber, errorCorrectLevel, dataList)
          && dataCache.value == Words(typeNumber, errorCorrectLevel, dataList)
    }

    method LayOut(test: bool, maskPattern: nat)
      requires 1 <= typeNumber <= 40 && errorCorrectLevel < 4 && maskPattern < 8
      modifies this
      ensures dataCache == old(dataCache) && dataList == old(dataList) && Valid() && fresh(modules)
      ensures View() == PatternGrid(typeNumber, errorCorrectLevel, test, maskPattern)
    {
      hide Pattern, TypeInfoWord, TypeNumberWord, PatternPosition, GoodPositions;
      SizeIsSize(typeNumber);
      moduleCount := typeNumber * 4 + 17;
      modules := new Option<bool>[moduleCount, moduleCount]((r, c) => None);
      DrawPatterns(test, maskPattern);
    }

    method MakeImpl(m: QRMath, test: bool, maskPattern: nat) returns (r: Result<(), QrError>)
      requires 1 <= typeNumber <= 40 && errorCorrectLevel < 4 && maskPattern < 8
      requires m.Valid() && CacheValid()
      modifies this
      ensures CacheValid() && dataList == old(dataList) && Valid() && fresh(modules)
      ensures r.Ok? <==> Encodes(typeNumber, errorCorrectLevel, dataList)
      ensures r.Ok? ==>
        View()
          == Symbol(typeNumber, errorCorrectLevel, test, maskPattern, Words(typeNumber, errorCorrectLevel, dataList))
    {
      hide PatternGrid, Fill, Encodes, Words, View, IsSize, IsGrid;
      LayOut(test, maskPattern);
      assert CacheValid();
      if dataCache == None {
        var data :- CreateWords(m, typeNumber, errorCorrectLevel, dataList);
        dataCache := Some(data);
      }
      MapData(dataCache.value, maskPattern);
      return Ok(());
    }

    // The first of the masks with the least penalty.
    method GetBestMaskPattern(m: QRMath, lostPoint: Grid -> real)
      returns (r: Result<nat, QrError>)
      requires 1 <= typeNumber <= 40 && errorCorrectLevel < 4 && m.Valid() && CacheValid()
      modifies this
      ensures CacheValid() && dataList == old(dataList)
      ensures r.Ok? <==> Encodes(typeNumber, errorCorrectLevel, dataList)
      ensures r.Ok? ==>
        IsBest(typeNumber, errorCorrectLevel, Words(typeNumber, errorCorrectLevel, dataList), lostPoint, r.value, 8)
    {
      hide Symbol, Encodes, Words, View, CacheValid;
      var minLostPoint := 0.0;
      var pattern := 0;
      for i := 0 to 8
        invariant CacheValid() && dataList == old(dataList)
        invariant i > 0 ==>
          && Encodes(typeNumber, errorCorrectLevel, dataList) && pattern < i
          && var words := Words(typeNumber, errorCorrectLevel, dataList);
          && minLostPoint == lostPoint(Trial(typeNumber, errorCorrectLevel, words, pattern))
          && IsBest(typeNumber, errorCorrectLevel, words, lostPoint, pattern, i)
      {
        var _ :- MakeImpl(m, true, i);
        var lost := lostPoint(View());
        if i == 0 || minLostPoint > lost {
          minLostPoint := lost;
          pattern := i;
        }
      }
      return Ok(pattern);
    }

    method Make(m: QRMath, lostPoint: Grid -> real) returns (r: Result<nat, QrError>)
      requires 1 <= typeNumber <= 40 && errorCorrectLevel < 4 && m.Valid() && CacheValid()
      modifies this
      ensures CacheValid() && dataList == old(dataList)
      ensures r.Ok? <==> Encodes(typeNumber, errorCorrectLevel, dataList)
      ensures r.Ok? ==>
        && IsBest(typeNumber, errorCorrectLevel, Words(typeNumber, errorCorrectLevel, dataList), lostPoint, r.value, 8)
        && Valid()
        && View()
             == Symbol(typeNumber, errorCorrectLevel, false, r.value, Words(typeNumber, errorCorrectLevel, dataList))
    {
      hide Symbol, Encodes, Words, View, CacheValid;
      var pattern :- GetBestMaskPattern(m, lostPoint);
      var drawn := MakeImpl(m, false, pattern);
      return Ok(pattern);
    }
  }

  // The segments fit into the blocks of the version and level.
  predicate Encodes(version: nat, level: nat, list: seq<Segment>)
    requires 1 <= version <= 40 && level < 4
  {
    Fits(version, BlockData(version, level), list)
  }

  ghost function Words(version: nat, level: nat, list: seq<Segment>): seq<Byte>
    requires 1 <= version <= 40 && level < 4 && Encodes(version, level, list)
  {
    Codewords(DataBytes(version, BlockData(version, level), list), BlocksOf(version, level))
  }

  lemma BlocksEncodable(version: nat, level: nat, bytes: seq<Byte>)
    requires 1 <= version <= 40 && level < 4
    ensures DataTotal(BlocksOf(version, level)) == BlockData(version, level)
    ensures AllEncodable(DataBlocks(bytes, BlocksOf(version, level)), BlocksOf(version, level))
  {
    hide BlocksOf, BlockData, DataBlocks, DataTotal, FreeModules, IsShort, CodeTotal;
    BlocksFill(version, level);
  }

  lemma DivisionSucceeds(version: nat, level: nat, list: seq<Segment>)
    requires 1 <= version <= 40 && level < 4 && Encodes(version, level, list)
    ensures
      var blocks := BlocksOf(version, level);
      AllEncodable(DataBlocks(DataBytes(version, BlockData(version, level), list), blocks), blocks)
  {
    hide BlocksOf, BlockData, DataBlocks, DataBytes, AllEncodable;
    BlocksEncodable(version, level, DataBytes(version, BlockData(version, level), list));
  }

  // createData. The blocks of the table never make the division fail.
  method CreateWords(m: QRMath, version: int, level: nat, list: seq<Segment>)
    returns (r: Result<seq<Byte>, QrError>)
    requires m.Valid()
    ensures r.Ok? <==> 1 <= version <= 40 && level < 4 && Encodes(version, level, list)
    ensures r.Ok? ==> r.value == Words(version, level, list)
    ensures r.Err? ==> !r.error.Math?
  {
    hide Fits, AllEncodable, DataBytes, DataBlocks, Codewords, DataTotal, BlocksOf, BlockData;
    var rsBlocks :- GetRSBlocks(version, level);
    BlocksEncodable(version, level, []);
    if Encodes(version, level, list) {
      DivisionSucceeds(version, level, list);
    }
    r := Create(m, version, rsBlocks, list);
  }

  // A symbol as drawn while the masks are compared: format bits all light.
  ghost function Trial(version: nat, level: nat, words: seq<Byte>, mask: nat): Grid
    requires 1 <= version <= 40 && mask < 8
  {
    Symbol(version, level, true, mask, words)
  }

  // `pattern` is the first among the masks below n whose trial costs least.
  ghost predicate IsBest(version: nat, level: nat, words: seq<Byte>, lostPoint: Grid -> real, pattern: nat, n: nat)
    requires 1 <= version <= 40 && n <= 8
  {
    pattern < n && forall i :: 0 <= i < n ==>
      var cost := lostPoint(Trial(version, level, words, pattern));
      && cost <= lostPoint(Trial(version, level, words, i))
      && (i < pattern ==> cost < lostPoint(Trial(version, level, words, i)))
  }

  // A module after the centres before (i, j) have been drawn over the grid `was`.
  ghost function Aligned(was: Grid, pos: seq<nat>, i: int, j: int, r: int, c: int): Option<bool>
    requires (r, c) in was && forall a, b :: 0 <= a < |pos| && 0 <= b < |pos| ==> (pos[a], pos[b]) in was
  {
    var a, b := Slot(pos, r), Slot(pos, c);
    if a >= 0 && b >= 0 && (a < i || (a == i && b < j)) && was[(pos[a], pos[b])] == None
    then Some(Ring(r, c, pos[a], pos[b]) != 1)
    else was[(r, c)]
  }

  lemma AlignedStart(was: Grid, n: nat, pos: seq<nat>, i: nat, r: int, c: int)
    requires IsGrid(was, n) && GoodPositions(pos, n) && 0 <= r < n && 0 <= c < n
    ensures Aligned(was, pos, 0, 0, r, c) == was[(r, c)]
    ensures i > 0 ==> Aligned(was, pos, i - 1, |pos|, r, c) == Aligned(was, pos, i, 0, r, c)
  {
    hide Slot, Ring;
  }

  lemma AlignedStep(was: Grid, n: nat, pos: seq<nat>, i: nat, j: nat, r: int, c: int)
    requires IsGrid(was, n) && GoodPositions(pos, n) && i < |pos| && j < |pos| && 0 <= r < n && 0 <= c < n
    ensures Aligned(was, pos, i, j + 1, r, c)
         == if was[(pos[i], pos[j])] == None && Ring(r, c, pos[i], pos[j]) <= 2
            then Some(Ring(r, c, pos[i], pos[j]) != 1)
            else Aligned(was, pos, i, j, r, c)
  {
    hide Slot;
    SlotUnique(pos, n, r, i);
    SlotUnique(pos, n, c, j);
  }

  // A centre is still untouched when its turn comes.
  lemma AlignedCentre(was: Grid, n: nat, pos: seq<nat>, i: nat, j: nat)
    requires IsGrid(was, n) && GoodPositions(pos, n) && i < |pos| && j < |pos|
    ensures Aligned(was, pos, i, j, pos[i], pos[j]) == was[(pos[i], pos[j])]
  {
    hide Slot, Ring;
    SlotUnique(pos, n, pos[i], i);
    SlotUnique(pos, n, pos[j], j);
  }

  predicate InColumnCopy(n: nat, r: int, c: int) {
    c == 8 && (0 <= r < 6 || r == 7 || r == 8 || n - 7 <= r < n)
  }

  predicate InRowCopy(n: nat, r: int, c: int) {
    r == 8 && (0 <= c < 6 || c == 7 || n - 8 <= c < n)
  }

  lemma SizeIsSize(version: nat)
    requires version >= 1
    ensures IsSize(Size(version))
  {
    Odd(2 * version + 8);
  }

  lemma Odd(k: nat)
    ensures (2 * k + 1) % 2 == 1
  {}

  lemma StripColumns(n: nat, j: nat)
    requires IsSize(n)
    ensures n - 1 - 2 * j - (if n - 1 - 2 * j < 6 then 1 else 0) > 0 <==> j < Strips(n)
    ensures n >= 21 && (n - 1 - 2 * j) % 2 == 0
  {}

  ghost function PatternGrid(version: nat, level: nat, test: bool, mask: nat): (g: Grid)
    requires 1 <= version <= 40
    ensures IsGrid(g, Size(version))
  {
    hide Pattern, TypeInfoWord, TypeNumberWord, PatternPosition, GoodPositions, Size, Spaced;
    map r: int, c: int | 0 <= r < Size(version) && 0 <= c < Size(version) ::
      (r, c) := Pattern(version, PatternPosition(version), TypeInfoWord(8 * level + mask), TypeNumberWord(version),
                        test, r, c)
  }

  // The finished symbol.
  ghost function Symbol(version: nat, level: nat, test: bool, mask: nat, data: seq<Byte>): (g: Grid)
    requires 1 <= version <= 40 && mask < 8
    ensures IsGrid(g, Size(version))
  {
    SizeIsSize(version);
    Fill(PatternGrid(version, level, test, mask), Size(version), data, mask, 0, 0, 0, 0)
  }

  lemma FillStep(g: Grid, n: nat, data: seq<Byte>, mask: nat, j: nat, i: nat, c: nat, k: nat)
    requires IsSize(n) && IsGrid(g, n) && mask < 8 && j < Strips(n) && i < n && c < 2
    ensures var p := At(n, j, i, c);
            && OnWalk(n, p)
            && Fill(g, n, data, mask, j, i, c, k)
            == if g[p] == None then Fill(g[p := Some(Stored(data, k, mask, p))], n, data, mask, j, i, c + 1, k + 1)
               else Fill(g, n, data, mask, j, i, c + 1, k)
  {
    hide Mask, DataBit;
    WalkIsBijective(n, (0, 0), j, i, c);
  }

  lemma FillLine(g: Grid, n: nat, data: seq<Byte>, mask: nat, j: nat, i: nat, k: nat)
    requires IsSize(n) && IsGrid(g, n) && mask < 8 && j < Strips(n) && i < n
    ensures Fill(g, n, data, mask, j, i, 2, k) == Fill(g, n, data, mask, j, i + 1, 0, k)
  {}

  lemma FillStrip(g: Grid, n: nat, data: seq<Byte>, mask: nat, j: nat, k: nat)
    requires IsSize(n) && IsGrid(g, n) && mask < 8 && j < Strips(n)
    ensures Fill(g, n, data, mask, j, n, 0, k) == Fill(g, n, data, mask, j + 1, 0, 0, k)
  {}

  lemma FillDone(g: Grid, n: nat, data: seq<Byte>, mask: nat, k: nat)
    requires IsSize(n) && IsGrid(g, n) && mask < 8
    ensures Fill(g, n, data, mask, Strips(n), 0, 0, k) == g
  {}
}
