// QRCodeModel.createData: segments, terminator and padding in the bit buffer,
// and the reader that recovers the segments (ISO/IEC 18004, section 7.4).
module CreateData {
  import opened Binary
  import opened BitStrings
  import opened QrBitBuffer
  import opened CreateBytes
  import opened QrMath
  import opened Results

  datatype QrError = BadRsBlock | BadType | BadMode | CodeLengthOverflow(bits: nat, capacity: nat)
                   | Math(error: MathError)

  const MODE_NUMBER := 1
  const MODE_ALPHA_NUM := 2
  const MODE_8BIT_BYTE := 4
  const MODE_KANJI := 8
  const PAD0: Byte := 0xEC
  const PAD1: Byte := 0x11

  // A QR8bitByte after construction: its mode is always MODE_8BIT_BYTE.
  datatype Segment = Segment(parsedData: seq<Byte>)

  function LengthInBits(mode: nat, version: int): Result<nat, QrError> {
    if 1 <= version < 10 then
      if mode == MODE_NUMBER then Ok(10) else if mode == MODE_ALPHA_NUM then Ok(9)
      else if mode == MODE_8BIT_BYTE then Ok(8) else if mode == MODE_KANJI then Ok(8)
      else Err(BadMode)
    else if version < 27 then
      if mode == MODE_NUMBER then Ok(12) else if mode == MODE_ALPHA_NUM then Ok(11)
      else if mode == MODE_8BIT_BYTE then Ok(16) else if mode == MODE_KANJI then Ok(10)
      else Err(BadMode)
    else if version < 41 then
      if mode == MODE_NUMBER then Ok(14) else if mode == MODE_ALPHA_NUM then Ok(13)
      else if mode == MODE_8BIT_BYTE then Ok(16) else if mode == MODE_KANJI then Ok(12)
      else Err(BadMode)
    else Err(BadType)
  }

  // The width of a byte segment's length field.
  function LengthField(version: int): nat {
    if 1 <= version < 10 then 8 else 16
  }

  function SegmentBits(s: Segment, version: int): seq<bool> {
    ToBits(MODE_8BIT_BYTE, 4) + ToBits(|s.parsedData|, LengthField(version)) + BytesToBits(s.parsedData)
  }

  function SegmentsBits(list: seq<Segment>, version: int): seq<bool> {
    if list == [] then []
    else SegmentsBits(list[..|list| - 1], version) + SegmentBits(list[|list| - 1], version)
  }

  function Pads(n: nat): (p: seq<Byte>)
    ensures |p| == n
  {
    seq(n, k => if k % 2 == 0 then PAD0 else PAD1)
  }

  function Falses(n: nat): (f: seq<bool>)
    ensures |f| == n
  {
    seq(n, _ => false)
  }

  // Terminator if it fits, zeros up to a whole byte, alternating pad bytes.
  function Padding(used: nat, capacity: nat): (p: seq<bool>)
    requires used <= capacity && capacity % 8 == 0
    ensures used + |p| == capacity
  {
    var end := if used + 4 <= capacity then used + 4 else used;
    var whole := (end + 7) / 8 * 8;
    Falses(whole - used) + BytesToBits(Pads((capacity - whole) / 8))
  }

  // The bytes the bit buffer holds in the end.
  function DataBytes(version: int, total: nat, list: seq<Segment>): (b: seq<Byte>)
    requires |SegmentsBits(list, version)| <= total * 8
    ensures |b| == total
  {
    var bits := SegmentsBits(list, version);
    BitsToBytes(bits + Padding(|bits|, total * 8))
  }

  predicate Fits(version: int, total: nat, list: seq<Segment>) {
    (list == [] || version < 41) && |SegmentsBits(list, version)| <= total * 8
  }

  method WriteSegments(buffer: QRBitBuffer, version: int, dataList: seq<Segment>) returns (r: Result<(), QrError>)
    requires buffer.Valid() && buffer.length == 0
    modifies buffer
    ensures buffer.Valid()
    ensures r == if dataList == [] || version < 41 then Ok(()) else Err(BadType)
    ensures r.Ok? ==> buffer.Contents() == SegmentsBits(dataList, version)
  {
    hide ToBits, BytesToBits;
    assert dataList[..0] == [];
    for i := 0 to |dataList|
      invariant buffer.Valid() && (i > 0 ==> version < 41)
      invariant buffer.Contents() == SegmentsBits(dataList[..i], version)
    {
      buffer.Put(MODE_8BIT_BYTE, 4);
      var count :- LengthInBits(MODE_8BIT_BYTE, version);
      buffer.Put(|dataList[i].parsedData|, count);
      Write(buffer, dataList[i]);
      NextSegment(dataList, version, i);
    }
    assert dataList[..|dataList|] == dataList;
    return Ok(());
  }

  lemma NextSegment(list: seq<Segment>, version: int, i: nat)
    requires i < |list|
    ensures SegmentsBits(list[..i + 1], version)
         == SegmentsBits(list[..i], version) + ToBits(MODE_8BIT_BYTE, 4)
            + ToBits(|list[i].parsedData|, LengthField(version)) + BytesToBits(list[i].parsedData)
  {
    hide ToBits, BytesToBits;
    assert list[..i + 1][..i] == list[..i];
  }

  // Terminator and the zeros up to a whole byte.
  method Terminate(buffer: QRBitBuffer, capacity: nat)
    requires buffer.Valid() && buffer.length <= capacity && capacity % 8 == 0
    modifies buffer
    ensures buffer.Valid() && buffer.length % 8 == 0 && buffer.length <= capacity
    ensures var used := old(buffer.length);
            var end := if used + 4 <= capacity then used + 4 else used;
            && buffer.length == (end + 7) / 8 * 8
            && buffer.Contents() == old(buffer.Contents()) + Falses(buffer.length - used)
  {
    hide ToBits, QRBitBuffer.Valid, Falses;
    ghost var bits := buffer.Contents();
    NoFalses(bits);
    if buffer.length + 4 <= capacity {
      buffer.Put(0, 4);
      ZeroPut();
    }
    ghost var end := buffer.length;
    while buffer.length % 8 != 0
      invariant buffer.Valid() && end <= buffer.length <= (end + 7) / 8 * 8
      invariant buffer.Contents() == bits + Falses(buffer.length - |bits|)
      decreases (end + 7) / 8 * 8 - buffer.length
    {
      MoreFalses(bits, buffer.length - |bits|);
      buffer.PutBit(false);
    }
  }

  lemma NoFalses(bits: seq<bool>)
    ensures bits + Falses(0) == bits
  {}

  lemma MoreFalses(bits: seq<bool>, n: nat)
    ensures bits + Falses(n) + [false] == bits + Falses(n + 1)
  {}

  method FillBuffer(version: int, totalDataCount: nat, dataList: seq<Segment>)
    returns (r: Result<seq<Byte>, QrError>)
    ensures r.Ok? <==> Fits(version, totalDataCount, dataList)
    ensures r.Ok? ==> r.value == DataBytes(version, totalDataCount, dataList)
    ensures r.Err? ==> !r.error.Math?
  {
    hide SegmentsBits, DataBytes;
    var buffer := new QRBitBuffer();
    var _ :- WriteSegments(buffer, version, dataList);
    var capacity := totalDataCount * 8;
    if buffer.length > capacity {
      return Err(CodeLengthOverflow(buffer.length, capacity));
    }
    CompleteBuffer(buffer, version, totalDataCount, dataList);
    return Ok(buffer.buffer);
  }

  // Terminator and padding, once the segments are known to fit.
  method CompleteBuffer(buffer: QRBitBuffer, version: int, totalDataCount: nat, ghost dataList: seq<Segment>)
    requires buffer.Valid() && buffer.length <= totalDataCount * 8
    requires buffer.Contents() == SegmentsBits(dataList, version)
    modifies buffer
    ensures buffer.Valid() && |SegmentsBits(dataList, version)| <= totalDataCount * 8
    ensures buffer.buffer == DataBytes(version, totalDataCount, dataList)
  {
    hide ToBits, BytesToBits, SegmentsBits, Padding, BitsToBytes;
    ghost var bits := buffer.Contents();
    var capacity := totalDataCount * 8;
    Terminate(buffer, capacity);
    ghost var whole := buffer.length;
    PadBuffer(buffer, capacity);
    PaddingParts(bits, whole, capacity);
    assert buffer.Contents() == bits + Padding(|bits|, capacity);
    WholeBytes(buffer.buffer, capacity);
    BitsToBytesToBits(buffer.buffer);
  }

  lemma PaddingParts(bits: seq<bool>, whole: nat, capacity: nat)
    requires |bits| <= whole <= capacity && capacity % 8 == 0
    requires var end := if |bits| + 4 <= capacity then |bits| + 4 else |bits|;
             whole == (end + 7) / 8 * 8
    ensures bits + Falses(whole - |bits|) + BytesToBits(Pads((capacity - whole) / 8))
         == bits + Padding(|bits|, capacity)
  {
    hide BytesToBits;
  }

  method Write(buffer: QRBitBuffer, data: Segment)
    requires buffer.Valid()
    modifies buffer
    ensures buffer.Valid() && buffer.Contents() == old(buffer.Contents()) + BytesToBits(data.parsedData)
  {
    hide ToBits;
    assert data.parsedData[..0] == [];
    for i := 0 to |data.parsedData|
      invariant buffer.Valid()
      invariant buffer.Contents() == old(buffer.Contents()) + BytesToBits(data.parsedData[..i])
    {
      buffer.Put(data.parsedData[i], 8);
      assert data.parsedData[..i + 1][..i] == data.parsedData[..i];
    }
    assert data.parsedData[..|data.parsedData|] == data.parsedData;
  }

  method PadBuffer(buffer: QRBitBuffer, capacity: nat)
    requires buffer.Valid() && buffer.length % 8 == 0 && capacity % 8 == 0 && buffer.length <= capacity
    modifies buffer
    ensures buffer.Valid() && buffer.length == capacity
    ensures buffer.Contents() == old(buffer.Contents()) + BytesToBits(Pads((capacity - old(buffer.length)) / 8))
  {
    hide BytesToBits, Pads, ToBits, QRBitBuffer.Valid;
    ghost var bits := buffer.Contents();
    ghost var n, pads := 0, (capacity - |bits|) / 8;
    assert capacity == |bits| + 8 * pads;
    NoPads(bits);
    while true
      invariant n <= pads && n % 2 == 0 && Padded(buffer, bits, n)
      decreases pads - n
    {
      if buffer.length >= capacity {
        break;
      }
      PutPad(buffer, PAD0, bits, n);
      n := n + 1;
      if buffer.length >= capacity {
        break;
      }
      PutPad(buffer, PAD1, bits, n);
      n := n + 1;
    }
  }

  // The buffer after n pad bytes.
  ghost predicate Padded(buffer: QRBitBuffer, bits: seq<bool>, n: nat)
    reads buffer
  {
    && buffer.Valid() && buffer.length == |bits| + 8 * n
    && buffer.Contents() == bits + BytesToBits(Pads(n))
  }

  lemma NoPads(bits: seq<bool>)
    ensures bits + BytesToBits(Pads(0)) == bits
  {}

  method PutPad(buffer: QRBitBuffer, pad: Byte, ghost bits: seq<bool>, ghost n: nat)
    requires Padded(buffer, bits, n)
    requires pad == if n % 2 == 0 then PAD0 else PAD1
    modifies buffer
    ensures Padded(buffer, bits, n + 1)
  {
    hide BytesToBits, Pads, ToBits;
    MorePads(n);
    buffer.Put(pad, 8);
  }

  lemma MorePads(n: nat)
    ensures BytesToBits(Pads(n + 1)) == BytesToBits(Pads(n)) + ToBits(if n % 2 == 0 then PAD0 else PAD1, 8)
  {
    hide ToBits;
    assert Pads(n + 1)[..n] == Pads(n);
  }

  lemma ZeroPut()
    ensures ToBits(0, 4) == Falses(4)
  {
    assert ToBits(0, 2) == [false, false];
  }

  lemma WholeBytes(buffer: seq<Byte>, capacity: nat)
    requires capacity % 8 == 0 && |buffer| == (capacity + 7) / 8
    ensures BytesToBits(buffer)[..capacity] == BytesToBits(buffer)
  {}

  method Create(m: QRMath, version: int, rsBlocks: seq<RSBlock>, dataList: seq<Segment>)
    returns (r: Result<seq<Byte>, QrError>)
    requires m.Valid()
    ensures r.Ok? ==> Fits(version, DataTotal(rsBlocks), dataList)
    ensures r.Ok? <==> (Fits(version, DataTotal(rsBlocks), dataList) &&
      AllEncodable(DataBlocks(DataBytes(version, DataTotal(rsBlocks), dataList), rsBlocks), rsBlocks))
    ensures r.Ok? ==> r.value == Codewords(DataBytes(version, DataTotal(rsBlocks), dataList), rsBlocks)
    ensures r.Err? ==> (r.error.Math? <==> Fits(version, DataTotal(rsBlocks), dataList))
  {
    hide SegmentsBits, Padding, AllEncodable, DataBlocks, Codewords, DataBytes;
    var totalDataCount := 0;
    for i := 0 to |rsBlocks|
      invariant totalDataCount == DataTotal(rsBlocks[..i])
    {
      assert rsBlocks[..i + 1][..i] == rsBlocks[..i];
      totalDataCount := totalDataCount + rsBlocks[i].dataCount;
    }
    assert rsBlocks[..|rsBlocks|] == rsBlocks;
    var buffer :- FillBuffer(version, totalDataCount, dataList);
    var codewords := CreateBytes.CreateBytes(m, buffer, rsBlocks);
    match codewords {
      case Ok(data) => r := Ok(data);
      case Err(e) => r := Err(Math(e));
    }
  }

  // ---- the reader ----

  // Byte segments up to the terminator, or up to fewer than four bits.
  function ReadSegments(b: seq<bool>, version: int): Option<seq<Segment>> {
    if |b| < 4 || FromBits(b[..4]) == 0 then Some([])
    else if b[..4] != [false, true, false, false] then None
    else
      var w := 4 + LengthField(version);
      if |b| < w then None
      else
        var n := FromBits(b[4..w]);
        if |b| < w + 8 * n then None
        else
          match ReadSegments(b[w + 8 * n..], version)
          case None => None
          case Some(rest) => Some([Segment(BitsToBytes(b[w..w + 8 * n]))] + rest)
  }

  predicate FitsField(s: Segment, version: int) {
    |s.parsedData| < Pow2(LengthField(version))
  }

  lemma Regroup(a: seq<bool>, b: seq<bool>, c: seq<bool>)
    ensures (a + b) + c == a + (b + c)
  {}

  lemma {:induction false} SegmentsFromFront(list: seq<Segment>, version: int)
    requires list != []
    ensures SegmentsBits(list, version) == SegmentBits(list[0], version) + SegmentsBits(list[1..], version)
  {
    hide SegmentBits;
    var n := |list| - 1;
    if n == 0 {
      assert list[..0] == [] && list[1..] == [];
    } else {
      SegmentsFromFront(list[..n], version);
      assert list[..n][1..] == list[1..][..n - 1] && list[..n][0] == list[0];
      assert list[1..][n - 1] == list[n];
      Regroup(SegmentBits(list[0], version), SegmentsBits(list[1..][..n - 1], version), SegmentBits(list[n], version));
    }
  }

  // The tail after the segments stops the reader.
  predicate Stops(tail: seq<bool>) {
    |tail| < 4 || FromBits(tail[..4]) == 0
  }

  lemma {:induction false} ReadBack(list: seq<Segment>, version: int, tail: seq<bool>)
    requires Stops(tail)
    ensures ReadSegments(SegmentsBits(list, version) + tail, version) == Some(list)
       <==> forall s :: s in list ==> FitsField(s, version)
    decreases |list|
  {
    hide SegmentBits;
    if list == [] {
      assert SegmentsBits(list, version) + tail == tail;
    } else {
      var first, rest := list[0], list[1..];
      var more := SegmentsBits(rest, version) + tail;
      SegmentsFromFront(list, version);
      assert SegmentsBits(list, version) + tail == SegmentBits(first, version) + more;
      ReadBack(rest, version, tail);
      ReadFirst(first, version, more);
      assert list == [first] + rest;
    }
  }

  lemma FourBits()
    ensures ToBits(MODE_8BIT_BYTE, 4) == [false, true, false, false]
    ensures FromBits([false, true, false, false]) != 0
  {
    var b := [false, true, false, false];
    assert b[..3] == [false, true, false] && b[..3][..2] == [false, true];
    assert ToBits(1, 2) == [false, true];
  }

  lemma CutBytes(bytes: seq<Byte>, n: nat)
    requires n <= |bytes|
    ensures BitsToBytes(BytesToBits(bytes)[..8 * n]) == bytes[..n]
  {
    hide BytesToBits, BitsToBytes;
    BytesToBitsAppend(bytes[..n], bytes[n..]);
    assert bytes[..n] + bytes[n..] == bytes;
    BitsToBytesToBits(bytes[..n]);
    assert BytesToBits(bytes)[..8 * n] == BytesToBits(bytes[..n]);
  }

  // What the reader does with a byte segment of that length.
  lemma ReadStep(b: seq<bool>, version: int, n: nat)
    requires |b| >= 4 + LengthField(version) && b[..4] == [false, true, false, false]
    requires n == FromBits(b[4..4 + LengthField(version)])
    ensures var w := 4 + LengthField(version);
            && (|b| < w + 8 * n ==> ReadSegments(b, version) == None)
            && (|b| >= w + 8 * n ==>
                  ReadSegments(b, version) ==
                    match ReadSegments(b[w + 8 * n..], version)
                    case None => None
                    case Some(rest) => Some([Segment(BitsToBytes(b[w..w + 8 * n]))] + rest))
  {
    hide FromBits, BitsToBytes, LengthField;
    FourBits();
  }

  lemma ReadFirst(s: Segment, version: int, more: seq<bool>)
    ensures var r := ReadSegments(SegmentBits(s, version) + more, version);
            if FitsField(s, version) then
              r == match ReadSegments(more, version) case None => None case Some(t) => Some([s] + t)
            else r.None? || (r.value != [] && r.value[0].parsedData < s.parsedData)
  {
    hide ToBits, FromBits, BitsToBytes, BytesToBits, ReadSegments;
    var len := LengthField(version);
    var mode, field, body := ToBits(MODE_8BIT_BYTE, 4), ToBits(|s.parsedData|, len), BytesToBits(s.parsedData);
    var b := SegmentBits(s, version) + more;
    FourBits();
    FromBitsToBits(|s.parsedData|, len);
    assert b[..4] == mode && b[4..4 + len] == field;
    var w := 4 + len;
    ReadStep(b, version, FromBits(field));
    if FitsField(s, version) {
      var n := |s.parsedData|;
      BitsToBytesToBits(s.parsedData);
      assert b[w..w + 8 * n] == body && b[w + 8 * n..] == more;
    } else {
      var n := FromBits(field);
      CutBytes(s.parsedData, n);
      assert b[w..w + 8 * n] == body[..8 * n];
    }
  }

  lemma PaddingStops(used: nat, capacity: nat)
    requires used <= capacity && capacity % 8 == 0
    ensures Stops(Padding(used, capacity))
  {
    var p := Padding(used, capacity);
    if |p| >= 4 {
      assert p[..4] == Falses(4);
      assert Falses(4)[..3] == Falses(3) && Falses(3)[..2] == Falses(2) && Falses(2)[..1] == Falses(1);
      assert Falses(1)[..0] == [];
    }
  }

  // What createData put into the buffer reads back as the same segments,
  // exactly when every length fits its length field.
  lemma SegmentsRoundTrip(version: int, total: nat, list: seq<Segment>)
    requires Fits(version, total, list)
    ensures ReadSegments(BytesToBits(DataBytes(version, total, list)), version) == Some(list)
       <==> forall s :: s in list ==> FitsField(s, version)
  {
    hide SegmentsBits, Padding, ReadSegments;
    var bits := SegmentsBits(list, version);
    PaddingStops(|bits|, total * 8);
    ReadBack(list, version, Padding(|bits|, total * 8));
    BytesToBitsToBytes(bits + Padding(|bits|, total * 8));
  }

  // ---- the pad bytes ----

  // A byte string of whole bytes, with bytes after it.
  lemma LaterBytes(bits: seq<bool>, pads: seq<Byte>)
    requires |bits| % 8 == 0
    ensures BitsToBytes(bits + BytesToBits(pads)) == BitsToBytes(bits) + pads
  {
    hide BitsToBytes, BytesToBits;
    BytesToBitsAppend(BitsToBytes(bits), pads);
    BytesToBitsToBytes(bits);
    BitsToBytesToBits(BitsToBytes(bits) + pads);
  }

  // After the segments and the terminator, 0xEC and 0x11 alternate to the end.
  lemma PadBytes(version: int, total: nat, list: seq<Segment>, i: nat)
    requires |SegmentsBits(list, version)| <= 8 * total
    requires (|SegmentsBits(list, version)| + 4 + 7) / 8 <= i < total
    ensures DataBytes(version, total, list)[i]
         == if (i - (|SegmentsBits(list, version)| + 4 + 7) / 8) % 2 == 0 then 0xEC else 0x11
  {
    hide SegmentsBits, BitsToBytes, BytesToBits;
    var bits := SegmentsBits(list, version);
    var first := (|bits| + 4 + 7) / 8;
    var pads := Pads(total - first);
    var start := bits + Falses(8 * first - |bits|);
    LaterBytes(start, pads);
    PaddingIs(|bits|, total, first);
    assert bits + Padding(|bits|, total * 8) == start + BytesToBits(pads);
    assert DataBytes(version, total, list) == BitsToBytes(start) + pads;
  }

  lemma PaddingIs(used: nat, total: nat, first: nat)
    requires first == (used + 4 + 7) / 8 && first < total
    ensures used <= 8 * first && used + 4 <= 8 * total
    ensures Padding(used, total * 8) == Falses(8 * first - used) + BytesToBits(Pads(total - first))
  {
    hide BytesToBits;
    assert (total * 8 - first * 8) / 8 == total - first;
  }
}
