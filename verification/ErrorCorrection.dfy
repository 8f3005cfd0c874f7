// What the codewords of createBytes survive: some wrong bytes in every block.
module ErrorCorrection {
  import opened Binary
  import opened Polynomials
  import opened ReedSolomon
  import opened CodewordLayout
  import opened CreateBytes

  // The data bytes, and the error-correction bytes, of each block in a codeword sequence.
  function DataPart(words: seq<Byte>, blocks: seq<RSBlock>): (r: Blocks<Byte>)
    requires |words| == CodeTotal(blocks)
    ensures |r| == |blocks| && forall k :: 0 <= k < |r| ==> |r[k]| == blocks[k].dataCount
  {
    CodewordsReadBack([], blocks);
    DeinterleaveLengths(DataLengths(blocks), words[..DataTotal(blocks)]);
    Deinterleave(DataLengths(blocks), words[..DataTotal(blocks)])
  }

  function EcPart(words: seq<Byte>, blocks: seq<RSBlock>): (r: Blocks<Byte>)
    requires |words| == CodeTotal(blocks)
    ensures |r| == |blocks| && forall k :: 0 <= k < |r| ==> |r[k]| == EcCount(blocks[k])
  {
    CodewordsReadBack([], blocks);
    DeinterleaveLengths(EcLengths(blocks), words[DataTotal(blocks)..]);
    Deinterleave(EcLengths(blocks), words[DataTotal(blocks)..])
  }

  lemma DeinterleaveLengths(lens: seq<nat>, data: seq<Byte>)
    requires |data| == Sum(lens)
    ensures forall k :: 0 <= k < |lens| ==> |Deinterleave(lens, data)[k]| == lens[k]
  {
    hide Deinterleave;
    InterleaveDeinterleave(lens, data);
    var b := Deinterleave(lens, data);
    forall k | 0 <= k < |lens|
      ensures |b[k]| == lens[k]
    {
      LengthsAt(b, k);
    }
  }

  lemma {:induction false} LengthsAt(blocks: Blocks<Byte>, k: nat)
    requires k < |blocks|
    ensures Lengths(blocks)[k] == |blocks[k]|
  {
    if k > 0 {
      LengthsAt(blocks[1..], k - 1);
    }
  }

  function BlockWord(words: seq<Byte>, blocks: seq<RSBlock>, k: nat): (w: Poly)
    requires |words| == CodeTotal(blocks) && k < |blocks|
    ensures |w| == blocks[k].totalCount
  {
    DataPart(words, blocks)[k] + EcPart(words, blocks)[k]
  }

  // All syndromes of all blocks vanish.
  ghost predicate IsCode(words: seq<Byte>, blocks: seq<RSBlock>)
    requires |words| == CodeTotal(blocks)
  {
    forall k :: 0 <= k < |blocks| ==> Vanishes(BlockWord(words, blocks, k), EcCount(blocks[k]))
  }

  // In each block no more than half as many bytes differ as it has error-correction bytes.
  ghost predicate Close(received: seq<Byte>, words: seq<Byte>, blocks: seq<RSBlock>)
    requires |received| == |words| == CodeTotal(blocks)
  {
    forall k :: 0 <= k < |blocks| ==>
      2 * Hamming(BlockWord(received, blocks, k), BlockWord(words, blocks, k)) <= EcCount(blocks[k])
  }

  lemma CodewordsAreCode(buffer: seq<Byte>, blocks: seq<RSBlock>)
    ensures |Codewords(buffer, blocks)| == CodeTotal(blocks) && IsCode(Codewords(buffer, blocks), blocks)
  {
    hide Codewords, Deinterleave, Vanishes;
    CodewordsReadBack(buffer, blocks);
  }

  lemma SameParts(u: seq<Byte>, v: seq<Byte>, blocks: seq<RSBlock>, k: nat)
    requires |u| == |v| == CodeTotal(blocks) && k < |blocks|
    requires BlockWord(u, blocks, k) == BlockWord(v, blocks, k)
    ensures DataPart(u, blocks)[k] == DataPart(v, blocks)[k] && EcPart(u, blocks)[k] == EcPart(v, blocks)[k]
  {
    hide DataPart, EcPart;
    SplitAt(DataPart(u, blocks)[k], EcPart(u, blocks)[k], DataPart(v, blocks)[k], EcPart(v, blocks)[k]);
  }

  lemma SplitAt(a: Poly, b: Poly, c: Poly, d: Poly)
    requires |a| == |c| && a + b == c + d
    ensures a == c && b == d
  {
    assert a == (a + b)[..|a|] && c == (c + d)[..|a|];
    assert b == (a + b)[|a|..] && d == (c + d)[|a|..];
  }

  // The two parts determine the sequence.
  lemma FromParts(words: seq<Byte>, blocks: seq<RSBlock>)
    requires |words| == CodeTotal(blocks)
    ensures words == Interleave(DataPart(words, blocks)) + Interleave(EcPart(words, blocks))
  {
    hide Deinterleave, Interleave, CodeTotal, DataTotal, DataLengths, EcLengths, Codewords, Vanishes, Flatten, Sum;
    CodewordsReadBack([], blocks);
    var d := DataTotal(blocks);
    InterleaveDeinterleave(DataLengths(blocks), words[..d]);
    InterleaveDeinterleave(EcLengths(blocks), words[d..]);
    assert words == words[..d] + words[d..];
  }

  lemma SameBlocks(u: seq<Byte>, v: seq<Byte>, blocks: seq<RSBlock>)
    requires |u| == |v| == CodeTotal(blocks)
    requires forall k :: 0 <= k < |blocks| ==> BlockWord(u, blocks, k) == BlockWord(v, blocks, k)
    ensures u == v
  {
    hide DataPart, EcPart, BlockWord, Interleave, CodeTotal;
    forall k | 0 <= k < |blocks|
      ensures DataPart(u, blocks)[k] == DataPart(v, blocks)[k] && EcPart(u, blocks)[k] == EcPart(v, blocks)[k]
    {
      SameParts(u, v, blocks, k);
    }
    assert DataPart(u, blocks) == DataPart(v, blocks) && EcPart(u, blocks) == EcPart(v, blocks);
    FromParts(u, blocks);
    FromParts(v, blocks);
  }

  // Whatever was received, with that few wrong bytes per block, the codewords that
  // were drawn are the only ones that fit: they can be recovered.
  lemma Correctable(buffer: seq<Byte>, blocks: seq<RSBlock>, received: seq<Byte>, other: seq<Byte>)
    requires forall k :: 0 <= k < |blocks| ==> blocks[k].totalCount <= 255
    requires |received| == |other| == CodeTotal(blocks)
    ensures |Codewords(buffer, blocks)| == CodeTotal(blocks)
    ensures Close(received, Codewords(buffer, blocks), blocks) ==>
      (IsCode(other, blocks) && Close(received, other, blocks) <==> other == Codewords(buffer, blocks))
  {
    hide Codewords, BlockWord, Vanishes, Hamming;
    var words := Codewords(buffer, blocks);
    CodewordsAreCode(buffer, blocks);
    if Close(received, words, blocks) && IsCode(other, blocks) && Close(received, other, blocks) {
      forall k | 0 <= k < |blocks|
        ensures BlockWord(words, blocks, k) == BlockWord(other, blocks, k)
      {
        assert Vanishes(BlockWord(words, blocks, k), EcCount(blocks[k]));
        UniqueCorrection(BlockWord(received, blocks, k), BlockWord(words, blocks, k), BlockWord(other, blocks, k),
                         EcCount(blocks[k]));
      }
      SameBlocks(words, other, blocks);
    }
  }
}
