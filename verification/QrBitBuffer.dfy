// QRBitBuffer: bits appended to a growing byte array.
module QrBitBuffer {
  import opened Binary
  import opened BitStrings

  class QRBitBuffer {
    var buffer: seq<Byte>
    var length: nat

    // Only whole bytes, and no bit set past the end.
    ghost predicate Valid()
      reads this
    {
      && |buffer| == (length + 7) / 8
      && forall k :: length <= k < 8 * |buffer| ==> !BitAt(buffer, k)
    }

    ghost function Contents(): (b: seq<bool>)
      reads this
      requires Valid()
      ensures |b| == length
    {
      BytesToBits(buffer)[..length]
    }

    constructor ()
      ensures Valid() && Contents() == []
    {
      buffer := [];
      length := 0;
    }

    method Get(index: nat) returns (bit: bool)
      requires Valid()
      ensures bit <==> index < length && Contents()[index]
    {
      var bufIndex := index / 8;
      bit := bufIndex < |buffer| && Bit(buffer[bufIndex], 7 - index % 8);
      if bufIndex < |buffer| {
        BytesToBitsAt(buffer, index);
        assert bit == BitAt(buffer, index);
      }
    }

    method PutBit(bit: bool)
      requires Valid()
      modifies this
      ensures Valid() && Contents() == old(Contents()) + [bit]
    {
      hide Bit, SetBit, BitAt, BytesToBits, PutStart;
      var bufIndex := length / 8;
      if |buffer| <= bufIndex {
        buffer := buffer + [0];
      }
      ghost var before := buffer;
      assert PutStart(old(buffer), before, length) by {
        PutStarts(old(buffer), before, length);
      }
      if bit {
        SetBitInRange(buffer[bufIndex], 7 - length % 8);
        buffer := buffer[bufIndex := SetBit(buffer[bufIndex], 7 - length % 8)];
      }
      length := length + 1;
      PutEnds(old(buffer), before, buffer, old(length), bit);
    }

    // The low `count` bits of num, most significant first.
    method Put(num: nat, count: nat)
      requires Valid()
      modifies this
      ensures Valid() && Contents() == old(Contents()) + ToBits(num, count)
    {
      for i := 0 to count
        invariant Valid() && Contents() == old(Contents()) + ToBits(num, count)[..i]
      {
        ToBitsAt(num, count, i);
        PutBit(Bit(num, count - i - 1));
        assert ToBits(num, count)[..i + 1] == ToBits(num, count)[..i] + [ToBits(num, count)[i]];
      }
      assert ToBits(num, count)[..count] == ToBits(num, count);
    }
  }

  // The array has room for bit `length`, and no bit from there on is set.
  ghost predicate PutStart(earlier: seq<Byte>, before: seq<Byte>, length: nat) {
    && |before| == length / 8 + 1 && |earlier| <= |before|
    && (forall k :: 0 <= k < |earlier| ==> before[k] == earlier[k])
    && forall k :: length <= k < 8 * |before| ==> !BitAt(before, k)
  }

  lemma PutStarts(earlier: seq<Byte>, before: seq<Byte>, length: nat)
    requires |earlier| == (length + 7) / 8
    requires forall k :: length <= k < 8 * |earlier| ==> !BitAt(earlier, k)
    requires before == if |earlier| <= length / 8 then earlier + [0] else earlier
    ensures PutStart(earlier, before, length)
  {
    forall k | length <= k < 8 * |before|
      ensures !BitAt(before, k)
    {
      if k < 8 * |earlier| {
        assert BitAt(before, k) == BitAt(earlier, k);
      } else {
        ZeroBits(7 - k % 8);
      }
    }
  }

  lemma SetBitInRange(b: Byte, j: nat)
    requires j < 8
    ensures SetBit(b, j) < 256
  {
    assert Pow2(2) == 4 && Pow2(4) == 16 && Pow2(6) == 64 && Pow2(8) == 256;
    SetBitBelow(b, j, 8);
  }

  lemma PutEnds(earlier: seq<Byte>, before: seq<Byte>, after: seq<Byte>, length: nat, bit: bool)
    requires |earlier| == (length + 7) / 8
    requires PutStart(earlier, before, length) && |after| == |before|
    requires var j := length / 8;
             after == if bit then before[j := after[j]] else before
    requires bit ==> after[length / 8] == SetBit(before[length / 8], 7 - length % 8)
    ensures forall k :: length + 1 <= k < 8 * |after| ==> !BitAt(after, k)
    ensures BytesToBits(after)[..length + 1] == BytesToBits(earlier)[..length] + [bit]
  {
    hide Bit, SetBit, BytesToBits, BitAt;
    forall k | 0 <= k < 8 * |after|
      ensures BitAt(after, k) == if k == length then bit else BitAt(before, k)
    {
      PutOne(before, after, length, bit, k);
    }
    forall k | 0 <= k < length
      ensures BitAt(before, k) == BitAt(earlier, k)
    {
      SameByte(before, earlier, k);
    }
    forall k | 0 <= k <= length
      ensures BytesToBits(after)[k] == (BytesToBits(earlier)[..length] + [bit])[k]
    {
      BytesToBitsAt(after, k);
      if k < length {
        BytesToBitsAt(earlier, k);
      }
    }
  }

  lemma PutOne(before: seq<Byte>, after: seq<Byte>, length: nat, bit: bool, k: nat)
    requires length / 8 < |before| == |after| && k < 8 * |after|
    requires after == if bit then before[length / 8 := after[length / 8]] else before
    requires bit ==> after[length / 8] == SetBit(before[length / 8], 7 - length % 8)
    requires !BitAt(before, length)
    ensures BitAt(after, k) == if k == length then bit else BitAt(before, k)
  {
    hide Bit, SetBit;
    if bit && k / 8 == length / 8 {
      SetBitBits(before[k / 8], 7 - length % 8, 7 - k % 8);
    }
  }

  lemma SameByte(a: seq<Byte>, b: seq<Byte>, k: nat)
    requires k < 8 * |a| && k < 8 * |b| && a[k / 8] == b[k / 8]
    ensures BitAt(a, k) == BitAt(b, k)
  {}
}
