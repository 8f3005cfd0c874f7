// Interleaving of blocks, column by column (ISO/IEC 18004, section 7.6).
module CodewordLayout {
  type Blocks<T> = seq<seq<T>>

  // The bytes at position i of the blocks that are long enough.
  function Column<T>(blocks: Blocks<T>, i: nat): (c: seq<T>)
  {
    if blocks == [] then []
    else (if i < |blocks[0]| then [blocks[0][i]] else []) + Column(blocks[1..], i)
  }

  function Columns<T>(blocks: Blocks<T>, n: nat): seq<T> {
    if n == 0 then [] else Columns(blocks, n - 1) + Column(blocks, n - 1)
  }

  function MaxLength<T>(blocks: Blocks<T>): (m: nat)
    ensures forall b :: b in blocks ==> |b| <= m
  {
    if blocks == [] then 0
    else
      var m := MaxLength(blocks[1..]);
      if |blocks[0]| > m then |blocks[0]| else m
  }

  function Interleave<T>(blocks: Blocks<T>): seq<T> {
    Columns(blocks, MaxLength(blocks))
  }

  function Lengths<T>(blocks: Blocks<T>): (l: seq<nat>)
    ensures |l| == |blocks|
  {
    if blocks == [] then [] else [|blocks[0]|] + Lengths(blocks[1..])
  }

  // How many of the blocks reach position i.
  function Reach(lens: seq<nat>, i: nat): nat {
    if lens == [] then 0 else (if i < lens[0] then 1 else 0) + Reach(lens[1..], i)
  }

  function ReachBelow(lens: seq<nat>, n: nat): nat {
    if n == 0 then 0 else ReachBelow(lens, n - 1) + Reach(lens, n - 1)
  }

  function Sum(lens: seq<nat>): nat {
    if lens == [] then 0 else lens[0] + Sum(lens[1..])
  }

  function MaxOf(lens: seq<nat>): nat {
    if lens == [] then 0
    else
      var m := MaxOf(lens[1..]);
      if lens[0] > m then lens[0] else m
  }

  // ---- the reader: hand the bytes back to the blocks in the same order ----

  function Append<T>(blocks: Blocks<T>, lens: seq<nat>, i: nat, column: seq<T>): (r: Blocks<T>)
    requires |blocks| == |lens| && |column| == Reach(lens, i)
    ensures |r| == |blocks|
  {
    if lens == [] then []
    else if i < lens[0] then
      [blocks[0] + [column[0]]] + Append(blocks[1..], lens[1..], i, column[1..])
    else
      [blocks[0]] + Append(blocks[1..], lens[1..], i, column)
  }

  function Deal<T>(lens: seq<nat>, n: nat, data: seq<T>): (r: Blocks<T>)
    requires |data| == ReachBelow(lens, n)
    ensures |r| == |lens|
  {
    if n == 0 then seq(|lens|, _ => [])
    else
      var k := ReachBelow(lens, n - 1);
      Append(Deal(lens, n - 1, data[..k]), lens, n - 1, data[k..])
  }

  lemma {:induction false} ReachTotal(lens: seq<nat>, n: nat)
    ensures MaxOf(lens) <= n ==> ReachBelow(lens, n) == Sum(lens)
    ensures ReachBelow(lens, n) <= Sum(lens)
    decreases |lens|, n
  {
    if lens == [] {
      if n > 0 {
        ReachTotal(lens, n - 1);
      }
    } else {
      ReachSplit(lens, n);
      ReachTotal(lens[1..], n);
    }
  }

  lemma {:induction false} ReachSplit(lens: seq<nat>, n: nat)
    requires lens != []
    ensures ReachBelow(lens, n) == (if n < lens[0] then n else lens[0]) + ReachBelow(lens[1..], n)
  {
    if n > 0 {
      ReachSplit(lens, n - 1);
    }
  }

  function Deinterleave<T>(lens: seq<nat>, data: seq<T>): (r: Blocks<T>)
    requires |data| == Sum(lens)
  {
    ReachTotal(lens, MaxOf(lens));
    Deal(lens, MaxOf(lens), data)
  }

  lemma {:induction false} ColumnLength<T>(blocks: Blocks<T>, i: nat)
    ensures |Column(blocks, i)| == Reach(Lengths(blocks), i)
  {
    if blocks != [] {
      assert Lengths(blocks)[1..] == Lengths(blocks[1..]);
      ColumnLength(blocks[1..], i);
    }
  }

  lemma {:induction false} ColumnsLength<T>(blocks: Blocks<T>, n: nat)
    ensures |Columns(blocks, n)| == ReachBelow(Lengths(blocks), n)
  {
    hide Column, Reach, Lengths;
    if n > 0 {
      ColumnsLength(blocks, n - 1);
      ColumnLength(blocks, n - 1);
    }
  }

  lemma {:induction false} MaxLengthIsMax<T>(blocks: Blocks<T>)
    ensures MaxLength(blocks) == MaxOf(Lengths(blocks))
  {
    if blocks != [] {
      assert Lengths(blocks)[1..] == Lengths(blocks[1..]);
      MaxLengthIsMax(blocks[1..]);
    }
  }

  // Every byte of every block has its own place: the length is the total length ...
  lemma InterleaveLength<T>(blocks: Blocks<T>)
    ensures |Interleave(blocks)| == Sum(Lengths(blocks))
  {
    MaxLengthIsMax(blocks);
    ColumnsLength(blocks, MaxLength(blocks));
    ReachTotal(Lengths(blocks), MaxLength(blocks));
  }

  function Heads<T>(blocks: Blocks<T>, n: nat): (r: Blocks<T>)
    ensures |r| == |blocks|
  {
    if blocks == [] then []
    else [if n < |blocks[0]| then blocks[0][..n] else blocks[0]] + Heads(blocks[1..], n)
  }

  lemma {:induction false} HeadsAll<T>(blocks: Blocks<T>, n: nat)
    requires forall b :: b in blocks ==> |b| <= n
    ensures Heads(blocks, n) == blocks
  {
    if blocks != [] {
      HeadsAll(blocks[1..], n);
      assert blocks[0] in blocks;
    }
  }

  lemma AppendCons<T>(b: seq<T>, bs: Blocks<T>, l: nat, ls: seq<nat>, i: nat, c: seq<T>)
    requires |bs| == |ls| && |c| == Reach([l] + ls, i)
    ensures |c| == (if i < l then 1 else 0) + Reach(ls, i)
    ensures Append([b] + bs, [l] + ls, i, c)
         == if i < l then [b + [c[0]]] + Append(bs, ls, i, c[1..]) else [b] + Append(bs, ls, i, c)
  {
    assert ([l] + ls)[1..] == ls && ([b] + bs)[1..] == bs;
  }

  lemma HeadsCons<T>(b: seq<T>, bs: Blocks<T>, n: nat)
    ensures Heads([b] + bs, n) == [if n < |b| then b[..n] else b] + Heads(bs, n)
  {
    assert ([b] + bs)[1..] == bs;
  }

  lemma LengthsCons<T>(b: seq<T>, bs: Blocks<T>)
    ensures Lengths([b] + bs) == [|b|] + Lengths(bs)
  {
    assert ([b] + bs)[1..] == bs;
  }

  lemma {:induction false} AppendColumn<T>(blocks: Blocks<T>, n: nat)
    ensures |Column(blocks, n)| == Reach(Lengths(blocks), n)
    ensures Append(Heads(blocks, n), Lengths(blocks), n, Column(blocks, n)) == Heads(blocks, n + 1)
  {
    ColumnLength(blocks, n);
    if blocks != [] {
      var b, tail := blocks[0], blocks[1..];
      assert blocks == [b] + tail;
      AppendColumn(tail, n);
      AppendColumnStep(b, tail, n);
    }
  }

  lemma AppendColumnStep<T>(b: seq<T>, tail: Blocks<T>, n: nat)
    requires |Column(tail, n)| == Reach(Lengths(tail), n)
    requires Append(Heads(tail, n), Lengths(tail), n, Column(tail, n)) == Heads(tail, n + 1)
    requires |Column([b] + tail, n)| == Reach(Lengths([b] + tail), n)
    ensures Append(Heads([b] + tail, n), Lengths([b] + tail), n, Column([b] + tail, n))
         == Heads([b] + tail, n + 1)
  {
    hide Append, Column, Heads, Lengths, Reach;
    HeadsCons(b, tail, n);
    HeadsCons(b, tail, n + 1);
    LengthsCons(b, tail);
    ColumnCons(b, tail, n);
    var head := if n < |b| then b[..n] else b;
    AppendCons(head, Heads(tail, n), |b|, Lengths(tail), n, Column([b] + tail, n));
    if n < |b| {
      assert b[..n] + [b[n]] == b[..n + 1];
      assert n + 1 == |b| ==> b[..n + 1] == b;
      assert ([b[n]] + Column(tail, n))[1..] == Column(tail, n);
    } else {
      assert [] + Column(tail, n) == Column(tail, n);
    }
  }

  lemma {:induction false} HeadsNone<T>(blocks: Blocks<T>)
    ensures Heads(blocks, 0) == seq(|blocks|, _ => [])
  {
    if blocks != [] {
      HeadsNone(blocks[1..]);
    }
  }

  lemma {:induction false} DealColumns<T>(blocks: Blocks<T>, n: nat)
    ensures |Columns(blocks, n)| == ReachBelow(Lengths(blocks), n)
    ensures Deal(Lengths(blocks), n, Columns(blocks, n)) == Heads(blocks, n)
  {
    hide Column, Append, Heads;
    ColumnsLength(blocks, n);
    if n == 0 {
      HeadsNone(blocks);
    } else {
      DealColumns(blocks, n - 1);
      AppendColumn(blocks, n - 1);
      var k := ReachBelow(Lengths(blocks), n - 1);
      ColumnsLength(blocks, n - 1);
      var c, d := Columns(blocks, n - 1), Column(blocks, n - 1);
      assert (c + d)[..k] == c && (c + d)[k..] == d;
    }
  }

  // ... no byte is lost or moved to another block or position ...
  lemma DeinterleaveInterleave<T>(blocks: Blocks<T>)
    ensures |Interleave(blocks)| == Sum(Lengths(blocks))
    ensures Deinterleave(Lengths(blocks), Interleave(blocks)) == blocks
  {
    InterleaveLength(blocks);
    MaxLengthIsMax(blocks);
    var n := MaxLength(blocks);
    DealColumns(blocks, n);
    HeadsAll(blocks, n);
  }

  predicate Fits<T>(blocks: Blocks<T>, lens: seq<nat>, n: nat) {
    |blocks| == |lens| &&
    forall k :: 0 <= k < |lens| ==> |blocks[k]| == if n < lens[k] then n else lens[k]
  }

  lemma FitsCons<T>(b: seq<T>, bs: Blocks<T>, l: nat, ls: seq<nat>, n: nat)
    ensures Fits([b] + bs, [l] + ls, n) <==> |b| == (if n < l then n else l) && Fits(bs, ls, n)
  {
    if Fits([b] + bs, [l] + ls, n) {
      forall k | 0 <= k < |ls|
        ensures |bs[k]| == if n < ls[k] then n else ls[k]
      {
        assert ([b] + bs)[k + 1] == bs[k] && ([l] + ls)[k + 1] == ls[k];
      }
      assert |([b] + bs)[0]| == if n < ([l] + ls)[0] then n else ([l] + ls)[0];
    }
  }

  lemma ColumnCons<T>(b: seq<T>, bs: Blocks<T>, i: nat)
    ensures Column([b] + bs, i) == (if i < |b| then [b[i]] else []) + Column(bs, i)
  {
    assert ([b] + bs)[1..] == bs;
  }

  lemma {:induction false} AppendFits<T>(blocks: Blocks<T>, lens: seq<nat>, n: nat, column: seq<T>)
    requires Fits(blocks, lens, n) && |column| == Reach(lens, n)
    ensures Fits(Append(blocks, lens, n, column), lens, n + 1)
    ensures forall i :: 0 <= i <= n ==>
      Column(Append(blocks, lens, n, column), i) == if i < n then Column(blocks, i) else column
    decreases |lens|
  {
    if lens != [] {
      var b, bs, l, ls := blocks[0], blocks[1..], lens[0], lens[1..];
      assert blocks == [b] + bs && lens == [l] + ls;
      var head := if n < l then b + [column[0]] else b;
      var rest := if n < l then column[1..] else column;
      AppendCons(b, bs, l, ls, n, column);
      FitsCons(b, bs, l, ls, n);
      AppendFits(bs, ls, n, rest);
      AppendFitsStep(b, bs, head, Append(bs, ls, n, rest), l, ls, n, column);
    }
  }

  lemma AppendFitsStep<T>(b: seq<T>, bs: Blocks<T>, head: seq<T>, tail: Blocks<T>,
                          l: nat, ls: seq<nat>, n: nat, column: seq<T>)
    requires |b| == if n < l then n else l
    requires if n < l then column != [] && head == b + [column[0]] else head == b
    requires Fits(tail, ls, n + 1)
    requires forall i :: 0 <= i <= n ==>
      Column(tail, i) == if i < n then Column(bs, i) else if n < l then column[1..] else column
    ensures Fits([head] + tail, [l] + ls, n + 1)
    ensures forall i :: 0 <= i <= n ==>
      Column([head] + tail, i) == if i < n then Column([b] + bs, i) else column
  {
    hide Fits, Column;
    FitsCons(head, tail, l, ls, n + 1);
    forall i | 0 <= i <= n
      ensures Column([head] + tail, i) == if i < n then Column([b] + bs, i) else column
    {
      ColumnCons(head, tail, i);
      ColumnCons(b, bs, i);
    }
  }

  lemma {:induction false} SameColumns<T>(a: Blocks<T>, b: Blocks<T>, n: nat)
    requires forall i :: 0 <= i < n ==> Column(a, i) == Column(b, i)
    ensures Columns(a, n) == Columns(b, n)
  {
    if n > 0 {
      SameColumns(a, b, n - 1);
    }
  }

  lemma ColumnsUnfold<T>(blocks: Blocks<T>, n: nat)
    requires n > 0
    ensures Columns(blocks, n) == Columns(blocks, n - 1) + Column(blocks, n - 1)
  {}

  lemma {:induction false} ColumnsOfDeal<T>(lens: seq<nat>, n: nat, data: seq<T>)
    requires |data| == ReachBelow(lens, n)
    ensures Fits(Deal(lens, n, data), lens, n)
    ensures Columns(Deal(lens, n, data), n) == data
  {
    hide Append, Column;
    if n > 0 {
      var k := ReachBelow(lens, n - 1);
      var b := Deal(lens, n - 1, data[..k]);
      var r := Append(b, lens, n - 1, data[k..]);
      ColumnsUnfold(r, n);
      ColumnsOfDeal(lens, n - 1, data[..k]);
      AppendFits(b, lens, n - 1, data[k..]);
      hide Deal, Columns, Fits;
      SameColumns(b, r, n - 1);
      assert data[..k] + data[k..] == data;
    }
  }

  lemma {:induction false} LengthsOf<T>(blocks: Blocks<T>, lens: seq<nat>)
    requires |blocks| == |lens| && forall k :: 0 <= k < |lens| ==> |blocks[k]| == lens[k]
    ensures Lengths(blocks) == lens
  {
    if blocks != [] {
      LengthsOf(blocks[1..], lens[1..]);
    }
  }

  lemma {:induction false} MaxOfBounds(lens: seq<nat>, k: nat)
    requires k < |lens|
    ensures lens[k] <= MaxOf(lens)
  {
    if k > 0 {
      MaxOfBounds(lens[1..], k - 1);
    }
  }

  // ... and every sequence of the right length is some interleaving: a bijection.
  lemma InterleaveDeinterleave<T>(lens: seq<nat>, data: seq<T>)
    requires |data| == Sum(lens)
    ensures Lengths(Deinterleave(lens, data)) == lens
    ensures Interleave(Deinterleave(lens, data)) == data
  {
    var n := MaxOf(lens);
    ReachTotal(lens, n);
    ColumnsOfDeal(lens, n, data);
    var b := Deinterleave(lens, data);
    forall k | 0 <= k < |lens|
      ensures |b[k]| == lens[k]
    {
      MaxOfBounds(lens, k);
    }
    LengthsOf(b, lens);
    MaxLengthIsMax(b);
  }

  // ---- the prefix written before position (i, r) ----

  lemma {:induction false} ColumnSplit<T>(blocks: Blocks<T>, r: nat, i: nat)
    requires r < |blocks|
    ensures Column(blocks[..r + 1], i)
         == Column(blocks[..r], i) + if i < |blocks[r]| then [blocks[r][i]] else []
    ensures Column(blocks[..r + 1], i) <= Column(blocks, i)
  {
    if r == 0 {
      assert blocks[..1][1..] == [] && blocks[..0] == [];
    } else {
      assert blocks[..r + 1][1..] == blocks[1..][..r] && blocks[..r][1..] == blocks[1..][..r - 1];
      ColumnSplit(blocks[1..], r - 1, i);
    }
  }

  lemma {:induction false} ColumnsPrefix<T>(blocks: Blocks<T>, m: nat, n: nat)
    requires m <= n
    ensures Columns(blocks, m) <= Columns(blocks, n)
    decreases n - m
  {
    if m < n {
      ColumnsPrefix(blocks, m + 1, n);
    }
  }

  // ---- where a byte lies, as long as every block reaches its column ----

  lemma {:induction false} ColumnFull<T>(blocks: Blocks<T>, i: nat)
    requires forall b :: b in blocks ==> i < |b|
    ensures |Column(blocks, i)| == |blocks|
    ensures forall k :: 0 <= k < |blocks| ==> Column(blocks, i)[k] == blocks[k][i]
  {
    if blocks != [] {
      ColumnFull(blocks[1..], i);
    }
  }

  lemma {:induction false} ColumnsFull<T>(blocks: Blocks<T>, n: nat)
    requires forall b :: b in blocks ==> n <= |b|
    ensures |Columns(blocks, n)| == n * |blocks|
  {
    hide Column;
    if n > 0 {
      ColumnsFull(blocks, n - 1);
      ColumnFull(blocks, n - 1);
      assert n * |blocks| == (n - 1) * |blocks| + |blocks|;
    }
  }

  lemma InterleaveAt<T>(blocks: Blocks<T>, i: nat, k: nat)
    requires (forall b :: b in blocks ==> i < |b|) && k < |blocks|
    ensures i * |blocks| + k < |Interleave(blocks)| && Interleave(blocks)[i * |blocks| + k] == blocks[k][i]
  {
    hide Columns, Column, MaxLength;
    ColumnsFull(blocks, i);
    ColumnFull(blocks, i);
    assert blocks[k] in blocks;
    ColumnsPrefix(blocks, i + 1, MaxLength(blocks));
    OneColumnMore(blocks, i);
    SecondPart(Columns(blocks, i), Column(blocks, i), i * |blocks|, k);
  }

  lemma OneColumnMore<T>(blocks: Blocks<T>, i: nat)
    ensures Columns(blocks, i + 1) == Columns(blocks, i) + Column(blocks, i)
  {
    hide Column;
  }

  lemma SecondPart<T>(a: seq<T>, b: seq<T>, n: nat, k: nat)
    requires |a| == n && k < |b|
    ensures (a + b)[n + k] == b[k]
  {}
}
