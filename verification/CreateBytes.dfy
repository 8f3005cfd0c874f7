// QRCodeModel.createBytes: split the bit buffer into blocks, compute the error
// correction of each block, interleave.
module CreateBytes {
  import opened Binary
  import opened Polynomials
  import opened QrMath
  import opened QrPolynomial
  import opened ReedSolomon
  import opened CodewordLayout
  import opened Results

  datatype RawBlock = RawBlock(totalCount: nat, dataCount: nat)
  type RSBlock = b: RawBlock | b.dataCount <= b.totalCount witness RawBlock(0, 0)

  function EcCount(b: RSBlock): nat {
    b.totalCount - b.dataCount
  }

  // Bytes offset .. offset + n of the buffer; past its end there are zeros.
  function Slice(buffer: seq<Byte>, offset: nat, n: nat): (s: seq<Byte>)
    ensures |s| == n
  {
    seq(n, i requires 0 <= i => if offset + i < |buffer| then buffer[offset + i] else 0)
  }

  function DataTotal(blocks: seq<RSBlock>): nat {
    if blocks == [] then 0 else DataTotal(blocks[..|blocks| - 1]) + blocks[|blocks| - 1].dataCount
  }

  function CodeTotal(blocks: seq<RSBlock>): nat {
    if blocks == [] then 0 else CodeTotal(blocks[..|blocks| - 1]) + blocks[|blocks| - 1].totalCount
  }

  // The data bytes of each block: consecutive slices of the buffer.
  function DataBlocks(buffer: seq<Byte>, blocks: seq<RSBlock>): (r: Blocks<Byte>)
    ensures |r| == |blocks|
    ensures forall k :: 0 <= k < |r| ==> |r[k]| == blocks[k].dataCount
  {
    if blocks == [] then []
    else
      var rest := blocks[..|blocks| - 1];
      DataBlocks(buffer, rest) + [Slice(buffer, DataTotal(rest), blocks[|blocks| - 1].dataCount)]
  }

  // The error-correction bytes of each block.
  ghost function EcBlocks(data: Blocks<Byte>, blocks: seq<RSBlock>): (r: Blocks<Byte>)
    requires |data| == |blocks|
    ensures |r| == |blocks|
    ensures forall k :: 0 <= k < |r| ==> |r[k]| == EcCount(blocks[k])
  {
    seq(|blocks|, k requires 0 <= k < |blocks| => Parity(data[k], EcCount(blocks[k])))
  }

  // A block's generator is usable, or its data is all zeros and never divided.
  predicate Encodable(data: seq<Byte>, ec: nat) {
    ec < 255 || (ec == 255 && Strip(data) == [])
  }

  ghost predicate AllEncodable(data: Blocks<Byte>, blocks: seq<RSBlock>)
    requires |data| == |blocks|
  {
    forall k :: 0 <= k < |blocks| ==> Encodable(data[k], EcCount(blocks[k]))
  }

  method EncodeBlock(m: QRMath, data: seq<Byte>, ec: nat) returns (r: Result<seq<Byte>, MathError>)
    requires m.Valid()
    ensures r.Ok? <==> Encodable(data, ec)
    ensures r.Ok? ==> r.value == Parity(data, ec)
  {
    hide Generator, Strip, Remainder, Parity;
    var rsPoly :- ErrorCorrectPolynomial(m, ec);
    var rawPoly := Construct(data, |rsPoly| - 1);
    GeneratorNonZero(ec);
    StripStep(rawPoly);
    StripStep(data);
    var modPoly :- Mod(m, rawPoly, rsPoly);
    var out := PadLeft(modPoly, |rsPoly| - 1);
    PaddedRemainder(data, ec, modPoly, out);
    return Ok(out);
  }

  // The remainder lost its leading zeros; put them back.
  method PadLeft(modPoly: Poly, n: nat) returns (out: Poly)
    requires |modPoly| <= n
    ensures out == Zeros(n - |modPoly|) + modPoly
  {
    var a := new Byte[n];
    for i := 0 to a.Length
      invariant forall k :: 0 <= k < i ==> a[k] == (Zeros(n - |modPoly|) + modPoly)[k]
    {
      var modIndex := i + |modPoly| - a.Length;
      a[i] := if modIndex >= 0 then modPoly[modIndex] else 0;
    }
    out := a[..];
  }

  lemma {:induction false} RemainderOfShifted(k: nat, t: Poly, e: Poly)
    requires 0 < |e| <= |t| + 1
    ensures Remainder(Zeros(k) + t, e) == Remainder(t, e)
  {
    if k == 0 {
      assert Zeros(0) + t == t;
    } else {
      var u := Zeros(k) + t;
      assert u[1..] == Zeros(k - 1) + t;
      EliminateZeroHead(u, e);
      RemainderOfShifted(k - 1, t, e);
    }
  }

  lemma PaddedRemainder(data: Poly, ec: nat, mod: Poly, out: Poly)
    requires |mod| <= ec == |out|
    ensures
      && mod == (if Strip(data) == [] then Zeros(ec)
                 else Strip(Remainder(Strip(data) + Zeros(ec), Generator(ec))))
      && out == Zeros(ec - |mod|) + mod
      ==> out == Parity(data, ec)
  {
    hide Generator, Strip, Remainder;
    var raw, g := Strip(data) + Zeros(ec), Generator(ec);
    assert data + Zeros(ec) == Zeros(|data| - |Strip(data)|) + raw;
    RemainderOfShifted(|data| - |Strip(data)|, raw, g);
    if Strip(data) == [] {
      RemainderShort(raw, g);
    }
  }

  lemma RemainderShort(t: Poly, e: Poly)
    requires |t| < |e|
    ensures Remainder(t, e) == t
  {}

  lemma {:induction false} LengthSums(data: Blocks<Byte>, ec: Blocks<Byte>, blocks: seq<RSBlock>)
    requires |data| == |ec| == |blocks|
    requires forall k :: 0 <= k < |blocks| ==> |data[k]| == blocks[k].dataCount
    requires forall k :: 0 <= k < |blocks| ==> |ec[k]| == EcCount(blocks[k])
    ensures Sum(Lengths(data)) == DataTotal(blocks)
    ensures Sum(Lengths(data)) + Sum(Lengths(ec)) == CodeTotal(blocks)
  {
    if blocks != [] {
      var n := |blocks| - 1;
      LengthSums(data[..n], ec[..n], blocks[..n]);
      SumOfLast(data);
      SumOfLast(ec);
    }
  }

  lemma {:induction false} SumOfLast(blocks: Blocks<Byte>)
    requires blocks != []
    ensures Sum(Lengths(blocks)) == Sum(Lengths(blocks[..|blocks| - 1])) + |blocks[|blocks| - 1]|
  {
    if |blocks| > 1 {
      SumOfLast(blocks[1..]);
      assert blocks[1..][..|blocks| - 2] == blocks[..|blocks| - 1][1..];
      assert Lengths(blocks)[1..] == Lengths(blocks[1..]);
      assert Lengths(blocks[..|blocks| - 1])[1..] == Lengths(blocks[..|blocks| - 1][1..]);
    }
  }

  ghost function Codewords(buffer: seq<Byte>, blocks: seq<RSBlock>): seq<Byte> {
    var data := DataBlocks(buffer, blocks);
    Interleave(data) + Interleave(EcBlocks(data, blocks))
  }

  lemma CodewordsLength(buffer: seq<Byte>, blocks: seq<RSBlock>)
    ensures |Interleave(DataBlocks(buffer, blocks))| == DataTotal(blocks)
    ensures |Codewords(buffer, blocks)| == CodeTotal(blocks)
  {
    var data := DataBlocks(buffer, blocks);
    var ec := EcBlocks(data, blocks);
    LengthSums(data, ec, blocks);
    InterleaveLength(data);
    InterleaveLength(ec);
  }

  method EncodeBlocks(m: QRMath, buffer: seq<Byte>, rsBlocks: seq<RSBlock>)
    returns (r: Result<(Blocks<Byte>, Blocks<Byte>, nat, nat), MathError>)
    requires m.Valid()
    ensures r.Ok? <==> AllEncodable(DataBlocks(buffer, rsBlocks), rsBlocks)
    ensures r.Ok? ==> r.value.0 == DataBlocks(buffer, rsBlocks)
    ensures r.Ok? ==> r.value.1 == EcBlocks(DataBlocks(buffer, rsBlocks), rsBlocks)
    ensures r.Ok? ==> r.value.2 == MaxLength(r.value.0) && r.value.3 == MaxLength(r.value.1)
  {
    hide Encodable, Parity, Slice, DataTotal, MaxLength, Encoded, AllEncodable, DataBlocks, EcBlocks;
    var offset, maxDcCount, maxEcCount := 0, 0, 0;
    var dcdata: Blocks<Byte>, ecdata: Blocks<Byte> := [], [];
    EncodeNone(buffer, rsBlocks);
    for b := 0 to |rsBlocks|
      invariant Encoded(buffer, rsBlocks[..b], dcdata, ecdata)
      invariant offset == DataTotal(rsBlocks[..b])
      invariant maxDcCount == MaxLength(dcdata) && maxEcCount == MaxLength(ecdata)
    {
      var dcCount := rsBlocks[b].dataCount;
      var ecCount := rsBlocks[b].totalCount - dcCount;
      maxDcCount := if maxDcCount > dcCount then maxDcCount else dcCount;
      maxEcCount := if maxEcCount > ecCount then maxEcCount else ecCount;
      var dc := CopyBlock(buffer, offset, dcCount);
      EncodeStep(buffer, rsBlocks, b, dcdata, ecdata, dc);
      var ec :- EncodeBlock(m, dc, ecCount);
      MaxLengthExtends(dcdata, dc);
      MaxLengthExtends(ecdata, ec);
      dcdata := dcdata + [dc];
      ecdata := ecdata + [ec];
      offset := offset + dcCount;
    }
    EncodeAll(buffer, rsBlocks, dcdata, ecdata);
    return Ok((dcdata, ecdata, maxDcCount, maxEcCount));
  }

  // The state of the loop after some of the blocks.
  ghost predicate Encoded(buffer: seq<Byte>, blocks: seq<RSBlock>, data: Blocks<Byte>, ec: Blocks<Byte>) {
    data == DataBlocks(buffer, blocks) && AllEncodable(data, blocks) && ec == EcBlocks(data, blocks)
  }

  method CopyBlock(buffer: seq<Byte>, offset: nat, dcCount: nat) returns (dc: seq<Byte>)
    ensures dc == Slice(buffer, offset, dcCount)
  {
    var a := new Byte[dcCount];
    for i := 0 to dcCount
      invariant forall k :: 0 <= k < i ==> a[k] == Slice(buffer, offset, dcCount)[k]
    {
      a[i] := if i + offset < |buffer| then buffer[i + offset] else 0;
    }
    dc := a[..];
  }

  lemma EncodeNone(buffer: seq<Byte>, blocks: seq<RSBlock>)
    ensures Encoded(buffer, blocks[..0], [], [])
    ensures DataTotal(blocks[..0]) == 0 && MaxLength<Byte>([]) == 0
  {}

  lemma EncodeAll(buffer: seq<Byte>, blocks: seq<RSBlock>, data: Blocks<Byte>, ec: Blocks<Byte>)
    ensures Encoded(buffer, blocks[..|blocks|], data, ec) ==>
      data == DataBlocks(buffer, blocks) && AllEncodable(data, blocks) && ec == EcBlocks(data, blocks)
  {
    hide DataBlocks, EcBlocks, AllEncodable;
    assert blocks[..|blocks|] == blocks;
  }

  // What one more block adds to the specification.
  lemma EncodeStep(buffer: seq<Byte>, blocks: seq<RSBlock>, b: nat,
                   data: Blocks<Byte>, ec: Blocks<Byte>, dc: seq<Byte>)
    requires b < |blocks|
    ensures DataTotal(blocks[..b + 1]) == DataTotal(blocks[..b]) + blocks[b].dataCount
    ensures
      && Encoded(buffer, blocks[..b], data, ec)
      && dc == Slice(buffer, DataTotal(blocks[..b]), blocks[b].dataCount)
      ==>
        && (Encodable(dc, EcCount(blocks[b])) ==>
            Encoded(buffer, blocks[..b + 1], data + [dc], ec + [Parity(dc, EcCount(blocks[b]))]))
        && (AllEncodable(DataBlocks(buffer, blocks), blocks) ==> Encodable(dc, EcCount(blocks[b])))
  {
    hide Encodable, Parity, Slice, AllEncodable;
    if !Encoded(buffer, blocks[..b], data, ec) {
      assert blocks[..b + 1][..b] == blocks[..b];
      return;
    }
    assert blocks[..b + 1] == blocks[..b] + [blocks[b]];
    DataBlocksExtends(buffer, blocks[..b], blocks[b]);
    hide DataBlocks, DataTotal, EcBlocks;
    EcBlocksExtends(data, dc, blocks[..b], blocks[b]);
    AllEncodableExtends(data, dc, blocks[..b], blocks[b]);
    DataBlocksPrefix(buffer, blocks, b + 1);
    OneEncodable(DataBlocks(buffer, blocks), blocks, b);
  }

  lemma DataBlocksExtends(buffer: seq<Byte>, blocks: seq<RSBlock>, b: RSBlock)
    ensures DataTotal(blocks + [b]) == DataTotal(blocks) + b.dataCount
    ensures DataBlocks(buffer, blocks + [b])
         == DataBlocks(buffer, blocks) + [Slice(buffer, DataTotal(blocks), b.dataCount)]
  {
    hide Slice;
    assert (blocks + [b])[..|blocks|] == blocks;
  }

  lemma EcBlocksExtends(data: Blocks<Byte>, dc: seq<Byte>, blocks: seq<RSBlock>, b: RSBlock)
    requires |data| == |blocks|
    ensures EcBlocks(data + [dc], blocks + [b]) == EcBlocks(data, blocks) + [Parity(dc, EcCount(b))]
  {
    hide Parity;
  }

  lemma AllEncodableExtends(data: Blocks<Byte>, dc: seq<Byte>, blocks: seq<RSBlock>, b: RSBlock)
    requires |data| == |blocks|
    ensures AllEncodable(data + [dc], blocks + [b]) <==> AllEncodable(data, blocks) && Encodable(dc, EcCount(b))
  {
    hide Encodable;
    if AllEncodable(data + [dc], blocks + [b]) {
      assert Encodable((data + [dc])[|blocks|], EcCount((blocks + [b])[|blocks|]));
      forall k | 0 <= k < |blocks|
        ensures Encodable(data[k], EcCount(blocks[k]))
      {
        assert Encodable((data + [dc])[k], EcCount((blocks + [b])[k]));
      }
    }
  }

  lemma OneEncodable(data: Blocks<Byte>, blocks: seq<RSBlock>, b: nat)
    requires |data| == |blocks| && b < |blocks|
    ensures AllEncodable(data, blocks) ==> Encodable(data[b], EcCount(blocks[b]))
  {
    hide Encodable;
  }

  lemma {:induction false} DataBlocksPrefix(buffer: seq<Byte>, blocks: seq<RSBlock>, n: nat)
    requires n <= |blocks|
    ensures DataBlocks(buffer, blocks[..n]) == DataBlocks(buffer, blocks)[..n]
    decreases |blocks|
  {
    if n < |blocks| {
      var rest := blocks[..|blocks| - 1];
      DataBlocksPrefix(buffer, rest, n);
      assert rest[..n] == blocks[..n];
    } else {
      assert blocks[..n] == blocks;
    }
  }

  lemma {:induction false} MaxLengthExtends(blocks: Blocks<Byte>, b: seq<Byte>)
    ensures MaxLength(blocks + [b]) == if MaxLength(blocks) > |b| then MaxLength(blocks) else |b|
  {
    if blocks == [] {
      assert blocks + [b] == [b];
    } else {
      assert (blocks + [b])[1..] == blocks[1..] + [b];
      MaxLengthExtends(blocks[1..], b);
    }
  }

  // One interleaving pass: data[index++] = blocks[r][i], row by row.
  method WriteInterleaved(data: array<Byte>, index: nat, blocks: Blocks<Byte>, maxCount: nat) returns (next: nat)
    requires maxCount == MaxLength(blocks)
    requires index + |Interleave(blocks)| <= data.Length
    modifies data
    ensures next == index + |Interleave(blocks)|
    ensures data[..next] == old(data[..index]) + Interleave(blocks)
  {
    hide Columns, Interleave;
    ColumnsOfNone(blocks);
    next := index;
    for i := 0 to maxCount
      invariant next == index + |Columns(blocks, i)| <= data.Length
      invariant data[..next] == old(data[..index]) + Columns(blocks, i)
    {
      ColumnsNext(blocks, i);
      next := WriteColumn(data, next, blocks, i);
    }
    InterleaveDef(blocks);
  }

  method WriteColumn(data: array<Byte>, index: nat, blocks: Blocks<Byte>, i: nat) returns (next: nat)
    requires index + |Column(blocks, i)| <= data.Length
    modifies data
    ensures next == index + |Column(blocks, i)|
    ensures data[..next] == old(data[..index]) + Column(blocks, i)
  {
    hide Column;
    next := index;
    ColumnOfNone(blocks, i);
    for r := 0 to |blocks|
      invariant next == index + |Column(blocks[..r], i)| <= data.Length
      invariant data[..next] == old(data[..index]) + Column(blocks[..r], i)
    {
      ColumnSplit(blocks, r, i);
      if i < |blocks[r]| {
        data[next] := blocks[r][i];
        next := next + 1;
      }
    }
    assert blocks[..|blocks|] == blocks;
  }

  lemma ColumnsOfNone(blocks: Blocks<Byte>)
    ensures Columns(blocks, 0) == []
  {}

  lemma ColumnOfNone(blocks: Blocks<Byte>, i: nat)
    ensures Column(blocks[..0], i) == []
  {}

  lemma ColumnsNext(blocks: Blocks<Byte>, i: nat)
    ensures Columns(blocks, i + 1) == Columns(blocks, i) + Column(blocks, i)
    ensures i < MaxLength(blocks) ==> |Columns(blocks, i + 1)| <= |Interleave(blocks)|
  {
    if i < MaxLength(blocks) {
      ColumnsPrefix(blocks, i + 1, MaxLength(blocks));
    }
  }

  lemma InterleaveDef(blocks: Blocks<Byte>)
    ensures Interleave(blocks) == Columns(blocks, MaxLength(blocks))
  {}

  method CreateBytes(m: QRMath, buffer: seq<Byte>, rsBlocks: seq<RSBlock>)
    returns (r: Result<seq<Byte>, MathError>)
    requires m.Valid()
    ensures r.Ok? <==> AllEncodable(DataBlocks(buffer, rsBlocks), rsBlocks)
    ensures r.Ok? ==> r.value == Codewords(buffer, rsBlocks)
  {
    hide Interleave, AllEncodable, DataBlocks, EcBlocks, MaxLength;
    var encoded :- EncodeBlocks(m, buffer, rsBlocks);
    var (dcdata, ecdata, maxDcCount, maxEcCount) := encoded;
    var totalCodeCount := 0;
    for i := 0 to |rsBlocks|
      invariant totalCodeCount == CodeTotal(rsBlocks[..i])
    {
      assert rsBlocks[..i + 1][..i] == rsBlocks[..i];
      totalCodeCount := totalCodeCount + rsBlocks[i].totalCount;
    }
    assert rsBlocks[..|rsBlocks|] == rsBlocks;
    CodewordsLength(buffer, rsBlocks);
    var data := new Byte[totalCodeCount];
    var index := WriteInterleaved(data, 0, dcdata, maxDcCount);
    ghost var first := data[..index];
    assert first == Interleave(dcdata);
    index := WriteInterleaved(data, index, ecdata, maxEcCount);
    assert data[..] == data[..index];
    return Ok(data[..]);
  }

  // ---- reading the codewords back ----

  function DataLengths(blocks: seq<RSBlock>): seq<nat> {
    seq(|blocks|, k requires 0 <= k < |blocks| => blocks[k].dataCount)
  }

  function EcLengths(blocks: seq<RSBlock>): seq<nat> {
    seq(|blocks|, k requires 0 <= k < |blocks| => EcCount(blocks[k]))
  }

  // The words of all blocks, read back from the codeword sequence alone: each
  // has zero syndromes, and the data parts in order are the buffer.
  lemma CodewordsReadBack(buffer: seq<Byte>, blocks: seq<RSBlock>)
    ensures |Codewords(buffer, blocks)| == CodeTotal(blocks)
    ensures DataTotal(blocks) == Sum(DataLengths(blocks))
      && CodeTotal(blocks) == Sum(DataLengths(blocks)) + Sum(EcLengths(blocks))
    ensures var words := Codewords(buffer, blocks);
            var data := Deinterleave(DataLengths(blocks), words[..DataTotal(blocks)]);
            var ec := Deinterleave(EcLengths(blocks), words[DataTotal(blocks)..]);
            && (forall k :: 0 <= k < |blocks| ==> Vanishes(data[k] + ec[k], EcCount(blocks[k])))
            && Flatten(data) == Slice(buffer, 0, DataTotal(blocks))
  {
    hide Interleave, Deinterleave, Eval, Parity;
    var data := DataBlocks(buffer, blocks);
    var ec := EcBlocks(data, blocks);
    CodewordsLength(buffer, blocks);
    LengthsOf(data, DataLengths(blocks));
    LengthsOf(ec, EcLengths(blocks));
    DeinterleaveInterleave(data);
    DeinterleaveInterleave(ec);
    LengthSums(data, ec, blocks);
    var words := Codewords(buffer, blocks);
    assert words[..DataTotal(blocks)] == Interleave(data);
    assert words[DataTotal(blocks)..] == Interleave(ec);
    forall k | 0 <= k < |blocks|
      ensures Vanishes(data[k] + ec[k], EcCount(blocks[k]))
    {
      SyndromesVanish(data[k], EcCount(blocks[k]));
    }
    FlattenData(buffer, blocks);
  }

  function Flatten(blocks: Blocks<Byte>): seq<Byte> {
    if blocks == [] then [] else Flatten(blocks[..|blocks| - 1]) + blocks[|blocks| - 1]
  }

  lemma {:induction false} FlattenData(buffer: seq<Byte>, blocks: seq<RSBlock>)
    ensures Flatten(DataBlocks(buffer, blocks)) == Slice(buffer, 0, DataTotal(blocks))
  {
    if blocks != [] {
      var rest := blocks[..|blocks| - 1];
      FlattenData(buffer, rest);
      assert DataBlocks(buffer, blocks)[..|blocks| - 1] == DataBlocks(buffer, rest);
    }
  }
}
