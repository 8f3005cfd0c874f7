// Bit strings: numbers and bytes written most significant bit first.
module BitStrings {
  import opened Binary

  // (n >>> j) & 1 == 1
  predicate Bit(n: nat, j: nat) {
    if j == 0 then n % 2 == 1 else Bit(n / 2, j - 1)
  }

  function ToBits(n: nat, len: nat): (b: seq<bool>)
    ensures |b| == len
  {
    if len == 0 then [] else ToBits(n / 2, len - 1) + [n % 2 == 1]
  }

  function FromBits(b: seq<bool>): nat {
    if b == [] then 0 else 2 * FromBits(b[..|b| - 1]) + (if b[|b| - 1] then 1 else 0)
  }

  function BytesToBits(bytes: seq<Byte>): (b: seq<bool>)
    ensures |b| == 8 * |bytes|
  {
    if bytes == [] then [] else BytesToBits(bytes[..|bytes| - 1]) + ToBits(bytes[|bytes| - 1], 8)
  }

  function BitsToBytes(b: seq<bool>): (bytes: seq<Byte>)
    requires |b| % 8 == 0
    ensures |bytes| == |b| / 8
  {
    if b == [] then []
    else
      FromBitsBelow(b[|b| - 8..]);
      BitsToBytes(b[..|b| - 8]) + [FromBits(b[|b| - 8..])]
  }

  lemma {:induction false} FromBitsBelow(b: seq<bool>)
    ensures FromBits(b) < Pow2(|b|)
    ensures |b| == 8 ==> FromBits(b) < 256
  {
    if b != [] {
      FromBitsBelow(b[..|b| - 1]);
    }
    assert Pow2(2) == 4 && Pow2(4) == 16 && Pow2(6) == 64 && Pow2(8) == 256;
  }

  lemma {:induction false} ToBitsAt(n: nat, len: nat, i: nat)
    requires i < len
    ensures ToBits(n, len)[i] == Bit(n, len - 1 - i)
  {
    if i < len - 1 {
      ToBitsAt(n / 2, len - 1, i);
    }
  }

  // A number is read back from its bits exactly when it fits.
  lemma {:induction false} FromBitsToBits(n: nat, len: nat)
    ensures FromBits(ToBits(n, len)) == n <==> n < Pow2(len)
    ensures FromBits(ToBits(n, len)) <= n
  {
    if len > 0 {
      FromBitsToBits(n / 2, len - 1);
      assert ToBits(n, len)[..len - 1] == ToBits(n / 2, len - 1);
    }
  }

  lemma {:induction false} BitsToBytesToBits(bytes: seq<Byte>)
    ensures BitsToBytes(BytesToBits(bytes)) == bytes
  {
    if bytes != [] {
      var rest, last := bytes[..|bytes| - 1], bytes[|bytes| - 1];
      var b := BytesToBits(bytes);
      BitsToBytesToBits(rest);
      assert b[..|b| - 8] == BytesToBits(rest) && b[|b| - 8..] == ToBits(last, 8);
      assert Pow2(2) == 4 && Pow2(4) == 16 && Pow2(6) == 64 && Pow2(8) == 256;
      FromBitsToBits(last, 8);
    }
  }

  lemma {:induction false} ToBitsFromBits(b: seq<bool>)
    ensures ToBits(FromBits(b), |b|) == b
  {
    if b != [] {
      ToBitsFromBits(b[..|b| - 1]);
      assert FromBits(b) / 2 == FromBits(b[..|b| - 1]);
    }
  }

  lemma LastByte(bytes: seq<Byte>, x: Byte)
    ensures BytesToBits(bytes + [x]) == BytesToBits(bytes) + ToBits(x, 8)
  {
    assert (bytes + [x])[..|bytes|] == bytes;
  }

  lemma LastBits(rest: seq<bool>, last: seq<bool>)
    requires |rest| % 8 == 0 && |last| == 8
    ensures FromBits(last) < 256 && BitsToBytes(rest + last) == BitsToBytes(rest) + [FromBits(last)]
  {
    FromBitsBelow(last);
    hide FromBits;
    var b := rest + last;
    assert b[..|b| - 8] == rest && b[|b| - 8..] == last;
  }

  lemma OneMoreByte(rest: seq<bool>, last: seq<bool>)
    requires |rest| % 8 == 0 && |last| == 8 && BytesToBits(BitsToBytes(rest)) == rest
    ensures BytesToBits(BitsToBytes(rest + last)) == rest + last
  {
    hide ToBits, FromBits, BytesToBits, BitsToBytes;
    ToBitsFromBits(last);
    LastBits(rest, last);
    LastByte(BitsToBytes(rest), FromBits(last));
  }

  lemma NoByte()
    ensures BytesToBits(BitsToBytes([])) == []
  {}

  lemma {:induction false} BytesToBitsToBytes(b: seq<bool>)
    requires |b| % 8 == 0
    ensures BytesToBits(BitsToBytes(b)) == b
  {
    hide BytesToBits, BitsToBytes;
    if b == [] {
      NoByte();
    } else {
      var rest, last := b[..|b| - 8], b[|b| - 8..];
      BytesToBitsToBytes(rest);
      OneMoreByte(rest, last);
      assert b == rest + last;
    }
  }

  lemma {:induction false} BytesToBitsAppend(a: seq<Byte>, b: seq<Byte>)
    ensures BytesToBits(a + b) == BytesToBits(a) + BytesToBits(b)
  {
    if b == [] {
      assert a + b == a;
    } else {
      BytesToBitsAppend(a, b[..|b| - 1]);
      assert (a + b)[..|a + b| - 1] == a + b[..|b| - 1];
    }
  }

  // ---- one bit set in a byte ----

  // b | (1 << j)
  function SetBit(b: nat, j: nat): nat {
    if Bit(b, j) then b else b + Pow2(j)
  }

  lemma {:induction false} BitOfSum(n: nat, j: nat, i: nat)
    requires !Bit(n, j)
    ensures Bit(n + Pow2(j), i) <==> i == j || Bit(n, i)
  {
    if j == 0 {
      assert (n + 1) / 2 == n / 2;
    } else {
      assert (n + Pow2(j)) / 2 == n / 2 + Pow2(j - 1) && (n + Pow2(j)) % 2 == n % 2;
      if i > 0 {
        BitOfSum(n / 2, j - 1, i - 1);
      }
    }
  }

  lemma SetBitBits(b: nat, j: nat, i: nat)
    ensures Bit(SetBit(b, j), i) <==> i == j || Bit(b, i)
  {
    if !Bit(b, j) {
      BitOfSum(b, j, i);
    }
  }

  lemma {:induction false} SetBitBelow(b: nat, j: nat, len: nat)
    requires b < Pow2(len) && j < len
    ensures SetBit(b, j) < Pow2(len)
  {
    if j > 0 {
      SetBitBelow(b / 2, j - 1, len - 1);
    }
  }

  lemma {:induction false} ZeroBits(j: nat)
    ensures !Bit(0, j)
  {
    if j > 0 {
      ZeroBits(j - 1);
    }
  }

  // Bit k of a byte string.
  predicate BitAt(bytes: seq<Byte>, k: nat)
    requires k < 8 * |bytes|
  {
    Bit(bytes[k / 8], 7 - k % 8)
  }

  lemma {:induction false} BytesToBitsAt(bytes: seq<Byte>, k: nat)
    requires k < 8 * |bytes|
    ensures BytesToBits(bytes)[k] == BitAt(bytes, k)
  {
    var n := |bytes| - 1;
    if k < 8 * n {
      BytesToBitsAt(bytes[..n], k);
    } else {
      ToBitsAt(bytes[n], 8, k - 8 * n);
    }
  }
}
