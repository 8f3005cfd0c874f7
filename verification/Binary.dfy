// Numbers in binary: powers of two, and the bits of a byte.
module Binary {

  // 1 << n
  function Pow2(n: nat): (p: nat)
    ensures p > 0
  {
    if n == 0 then 1 else 2 * Pow2(n - 1)
  }

  type Byte = n: int | 0 <= n < 256

  // A byte as a bit vector and back, one hexadecimal digit at a time.
  function Bits(b: Byte): bv8 {
    Join((b / 16) as bv4, (b % 16) as bv4)
  }

  function Join(h: bv4, l: bv4): bv8 {
    ((h as bv8) << 4) | (l as bv8)
  }

  function OfBits(v: bv8): Byte {
    16 * (High(v) as int) + (Low(v) as int)
  }

  function High(v: bv8): bv4 {
    (v >> 4) as bv4
  }

  function Low(v: bv8): bv4 {
    (v & 0xF) as bv4
  }

  lemma Digits(h: bv4, l: bv4, v: bv8)
    ensures High(Join(h, l)) == h && Low(Join(h, l)) == l
    ensures Join(High(v), Low(v)) == v
  {}

  lemma DigitOfBits(d: int)
    requires 0 <= d < 16
    ensures (d as bv4) as int == d
  {}

  lemma BitsOfDigit(d: bv4)
    ensures (d as int) as bv4 == d
  {}

  lemma OfBitsBits(b: Byte)
    ensures OfBits(Bits(b)) == b
  {
    hide High, Low, Join;
    var h, l := b / 16, b % 16;
    Digits(h as bv4, l as bv4, 0);
    DigitOfBits(h);
    DigitOfBits(l);
  }

  lemma BitsOfBits(v: bv8)
    ensures Bits(OfBits(v)) == v
  {
    hide High, Low, Join;
    Digits(0, 0, v);
    var h, l := High(v), Low(v);
    BitsOfDigit(h);
    BitsOfDigit(l);
    assert OfBits(v) / 16 == h as int && OfBits(v) % 16 == l as int;
  }

  lemma OneBitBytes()
    ensures OfBits(1) == 1 && OfBits(2) == 2 && OfBits(4) == 4 && OfBits(8) == 8
    ensures OfBits(16) == 16 && OfBits(32) == 32 && OfBits(64) == 64 && OfBits(128) == 128
  {}
}
