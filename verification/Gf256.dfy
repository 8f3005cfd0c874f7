// The field GF(256) of ISO/IEC 18004, section 7.5: bytes as polynomials over
// GF(2) modulo x^8 + x^4 + x^3 + x^2 + 1, with primitive element alpha = 2.
module Gf256 {
  import opened Binary

  // The program's `^` on bytes: addition of field elements.
  function Xor(a: Byte, b: Byte): Byte {
    OfBits(Bits(a) ^ Bits(b))
  }

  // Multiplication by alpha.
  function Xtime(b: Byte): Byte {
    OfBits(XtimeBits(Bits(b)))
  }

  function XtimeBits(b: bv8): bv8 {
    (b << 1) ^ (if b & 0x80 != 0 then 0x1D else 0)
  }

  lemma SameBits(a: Byte, b: Byte)
    requires Bits(a) == Bits(b)
    ensures a == b
  {
    hide Bits, OfBits;
    OfBitsBits(a);
    OfBitsBits(b);
  }

  lemma XorBits(a: Byte, b: Byte)
    ensures Bits(Xor(a, b)) == Bits(a) ^ Bits(b)
  {
    hide Bits, OfBits;
    BitsOfBits(Bits(a) ^ Bits(b));
  }

  lemma XtimeOfBits(a: Byte)
    ensures Bits(Xtime(a)) == XtimeBits(Bits(a))
  {
    hide Bits, OfBits, XtimeBits;
    BitsOfBits(XtimeBits(Bits(a)));
  }

  lemma XorCommutes(a: Byte, b: Byte)
    ensures Xor(a, b) == Xor(b, a)
  {
    hide Bits, OfBits;
  }

  lemma XorAssociates(a: Byte, b: Byte, c: Byte)
    ensures Xor(Xor(a, b), c) == Xor(a, Xor(b, c))
  {
    hide Xor, Bits, OfBits;
    XorBits(a, b);
    XorBits(b, c);
    XorBits(Xor(a, b), c);
    XorBits(a, Xor(b, c));
    SameBits(Xor(Xor(a, b), c), Xor(a, Xor(b, c)));
  }

  lemma XorNeutral(a: Byte)
    ensures Xor(a, 0) == a && Xor(a, a) == 0
  {
    assert Bits(0) == 0;
    hide Bits, OfBits;
    assert Bits(a) ^ 0 == Bits(a) && Bits(a) ^ Bits(a) == 0;
    OfBitsBits(a);
  }

  lemma XorLaws(a: Byte, b: Byte, c: Byte)
    ensures Xor(a, b) == Xor(b, a)
    ensures Xor(Xor(a, b), c) == Xor(a, Xor(b, c))
    ensures Xor(a, 0) == a && Xor(0, a) == a && Xor(a, a) == 0
  {
    hide Xor;
    XorCommutes(a, b);
    XorCommutes(a, 0);
    XorAssociates(a, b, c);
    XorNeutral(a);
  }

  // Sums of pairs can be regrouped.
  lemma XorSwap(a: Byte, b: Byte, c: Byte, d: Byte)
    ensures Xor(Xor(a, b), Xor(c, d)) == Xor(Xor(a, c), Xor(b, d))
  {
    hide Xor;
    XorLaws(a, b, Xor(c, d));
    XorLaws(b, c, d);
    XorLaws(c, b, d);
    XorLaws(a, c, Xor(b, d));
  }

  lemma XorZero(a: Byte, b: Byte)
    ensures Xor(a, b) == 0 <==> a == b
  {
    hide Xor;
    XorLaws(a, b, b);
    XorLaws(b, a, b);
  }

  lemma ShiftLeftXor(a: bv8, b: bv8)
    ensures (a ^ b) << 1 == (a << 1) ^ (b << 1)
  {}

  lemma TopBitXor(a: bv8, b: bv8)
    ensures (a ^ b) & 0x80 == (a & 0x80) ^ (b & 0x80)
    ensures a & 0x80 == 0 || a & 0x80 == 0x80
  {}

  lemma XorCancels(a: bv8, b: bv8, c: bv8)
    ensures (a ^ c) ^ (b ^ c) == a ^ b && (a ^ c) ^ b == (a ^ b) ^ c && a ^ (b ^ c) == (a ^ b) ^ c
  {}

  lemma XtimeBitsLinear(a: bv8, b: bv8)
    ensures XtimeBits(a ^ b) == XtimeBits(a) ^ XtimeBits(b)
  {
    ShiftLeftXor(a, b);
    TopBitXor(a, b);
    TopBitXor(b, a);
    XorCancels(a << 1, b << 1, 0x1D);
  }

  lemma XtimeLinear(a: Byte, b: Byte)
    ensures Xtime(Xor(a, b)) == Xor(Xtime(a), Xtime(b))
  {
    hide Bits, OfBits, Xor, Xtime, XtimeBits;
    XorBits(a, b);
    XtimeOfBits(a);
    XtimeOfBits(b);
    XtimeOfBits(Xor(a, b));
    XtimeBitsLinear(Bits(a), Bits(b));
    XorBits(Xtime(a), Xtime(b));
    SameBits(Xtime(Xor(a, b)), Xor(Xtime(a), Xtime(b)));
  }

  lemma XtimeBitsInjective(a: bv8, b: bv8)
    requires XtimeBits(a) == XtimeBits(b)
    ensures a == b
  {}

  lemma XtimeInjective(a: Byte, b: Byte)
    requires Xtime(a) == Xtime(b)
    ensures a == b
  {
    hide Bits, OfBits, Xtime, XtimeBits;
    XtimeOfBits(a);
    XtimeOfBits(b);
    XtimeBitsInjective(Bits(a), Bits(b));
    SameBits(a, b);
  }

  // b * alpha^n
  function Shift(b: Byte, n: nat): Byte {
    if n == 0 then b else Xtime(Shift(b, n - 1))
  }

  function Exp(n: nat): Byte {
    Shift(1, n)
  }

  lemma ShiftNone(b: Byte)
    ensures Shift(b, 0) == b
  {}

  lemma {:induction false} ShiftAdd(b: Byte, m: nat, n: nat)
    ensures Shift(b, m + n) == Shift(Shift(b, m), n)
  {
    hide Xtime;
    if n > 0 {
      ShiftAdd(b, m, n - 1);
    }
  }

  lemma {:induction false} ShiftLinear(a: Byte, b: Byte, n: nat)
    ensures Shift(Xor(a, b), n) == Xor(Shift(a, n), Shift(b, n))
  {
    hide Xtime, Xor;
    if n > 0 {
      ShiftLinear(a, b, n - 1);
      XtimeLinear(Shift(a, n - 1), Shift(b, n - 1));
    }
  }

  lemma {:induction false} ShiftInjective(a: Byte, b: Byte, n: nat)
    requires Shift(a, n) == Shift(b, n)
    ensures a == b
  {
    hide Xtime;
    if n > 0 {
      XtimeInjective(Shift(a, n - 1), Shift(b, n - 1));
      ShiftInjective(a, b, n - 1);
    }
  }

  lemma {:induction false} ShiftZero(n: nat)
    ensures Shift(0, n) == 0
  {
    if n > 0 {
      ShiftZero(n - 1);
    }
  }

  lemma ExpNonZero(n: nat)
    ensures Exp(n) != 0
  {
    hide Xtime;
    if Exp(n) == 0 {
      ShiftZero(n);
      ShiftInjective(0, 1, n);
    }
  }

  // ---- alpha has order exactly 255 ----

  function Pick(b: bv8, bit: bv8, value: bv8): bv8 {
    if b & bit != 0 then value else 0
  }

  // Squaring is linear over GF(2): bit i contributes alpha^(2i).
  function SquareBits(b: bv8): bv8 {
    Pick(b, 0x01, 0x01) ^ Pick(b, 0x02, 0x04) ^ Pick(b, 0x04, 0x10) ^ Pick(b, 0x08, 0x40) ^
    Pick(b, 0x10, 0x1D) ^ Pick(b, 0x20, 0x74) ^ Pick(b, 0x40, 0xCD) ^ Pick(b, 0x80, 0x13)
  }

  function Square(b: Byte): Byte {
    OfBits(SquareBits(Bits(b)))
  }

  lemma SquareXtimeBits(b: bv8)
    ensures SquareBits(XtimeBits(b)) == XtimeBits(XtimeBits(SquareBits(b)))
  {
    assert b & 0x80 != 0 ==> SquareBits(XtimeBits(b)) == XtimeBits(XtimeBits(SquareBits(b)));
    assert b & 0x80 == 0 ==> SquareBits(XtimeBits(b)) == XtimeBits(XtimeBits(SquareBits(b)));
  }

  lemma SquareXtime(b: Byte)
    ensures Square(Xtime(b)) == Xtime(Xtime(Square(b)))
  {
    hide SquareBits, XtimeBits, Bits, OfBits;
    SquareXtimeBits(Bits(b));
    XtimeOfBits(b);
    BitsOfBits(SquareBits(Bits(b)));
    XtimeOfBits(Square(b));
    BitsOfBits(SquareBits(Bits(Xtime(b))));
    XtimeOfBits(Xtime(Square(b)));
    SameBits(Square(Xtime(b)), Xtime(Xtime(Square(b))));
  }

  lemma {:induction false} SquareExp(n: nat)
    ensures Square(Exp(n)) == Exp(2 * n)
  {
    hide Xtime;
    if n > 0 {
      SquareExp(n - 1);
      SquareXtime(Exp(n - 1));
      assert Exp(2 * n) == Xtime(Exp(2 * n - 1));
      assert Exp(2 * n - 1) == Xtime(Exp(2 * (n - 1)));
    }
  }

  // One step of square-and-multiply, on a power known bit by bit.
  lemma DoublePower(n: nat, p: bv8, q: bv8)
    requires Bits(Exp(n)) == p && SquareBits(p) == q
    ensures Bits(Exp(2 * n)) == q
  {
    hide SquareBits, Xtime, Bits, OfBits;
    SquareExp(n);
    BitsOfBits(SquareBits(Bits(Exp(n))));
  }

  lemma NextPower(n: nat, p: bv8, q: bv8)
    requires Bits(Exp(n)) == p && XtimeBits(p) == q
    ensures Bits(Exp(n + 1)) == q
  {
    hide XtimeBits, Bits, Xtime;
    XtimeOfBits(Exp(n));
  }

  lemma ExpZero()
    ensures Bits(Exp(0)) == 1
  {}

  lemma Exp15()
    ensures Exp(15) != 1
  {
    hide Shift, Exp, OfBits, Xtime;
    ExpZero();
    NextPower(0, 0x01, 0x02);
    DoublePower(1, 0x02, 0x04);
    NextPower(2, 0x04, 0x08);
    DoublePower(3, 0x08, 0x40);
    NextPower(6, 0x40, 0x80);
    DoublePower(7, 0x80, 0x13);
    NextPower(14, 0x13, 0x26);
    assert Bits(1) == 1;
  }

  lemma Exp51()
    ensures Exp(51) != 1
  {
    hide Shift, Exp, OfBits, Xtime;
    ExpZero();
    NextPower(0, 0x01, 0x02);
    DoublePower(1, 0x02, 0x04);
    NextPower(2, 0x04, 0x08);
    DoublePower(3, 0x08, 0x40);
    DoublePower(6, 0x40, 0xCD);
    DoublePower(12, 0xCD, 0x8F);
    NextPower(24, 0x8F, 0x03);
    DoublePower(25, 0x03, 0x05);
    NextPower(50, 0x05, 0x0A);
    assert Bits(1) == 1;
  }

  lemma Exp85()
    ensures Exp(85) != 1
  {
    hide Shift, Exp, OfBits, Xtime;
    ExpZero();
    NextPower(0, 0x01, 0x02);
    DoublePower(1, 0x02, 0x04);
    DoublePower(2, 0x04, 0x10);
    NextPower(4, 0x10, 0x20);
    DoublePower(5, 0x20, 0x74);
    DoublePower(10, 0x74, 0xB4);
    NextPower(20, 0xB4, 0x75);
    DoublePower(21, 0x75, 0xB5);
    DoublePower(42, 0xB5, 0x6B);
    NextPower(84, 0x6B, 0xD6);
    assert Bits(1) == 1;
  }

  lemma Before256()
    ensures Exp(256) == 2 ==> Exp(255) == 1
  {
    assert Xtime(1) == 2;
    hide Xtime;
    if Exp(256) == 2 {
      ExpNext(255);
      XtimeInjective(Exp(255), 1);
    }
  }

  lemma ExpNext(n: nat)
    ensures Exp(n + 1) == Xtime(Exp(n))
  {
    hide Xtime;
  }

  lemma Exp255()
    ensures Exp(255) == 1
  {
    hide Shift, Exp, OfBits, Xtime;
    ExpZero();
    NextPower(0, 0x01, 0x02);
    DoublePower(1, 0x02, 0x04);
    DoublePower(2, 0x04, 0x10);
    DoublePower(4, 0x10, 0x1D);
    DoublePower(8, 0x1D, 0x4C);
    DoublePower(16, 0x4C, 0x9D);
    DoublePower(32, 0x9D, 0x5F);
    DoublePower(64, 0x5F, 0x85);
    DoublePower(128, 0x85, 0x02);
    assert Bits(2) == 2;
    SameBits(Exp(256), 2);
    Before256();
  }

  lemma {:induction false} PeriodMultiple(d: nat, q: nat)
    requires Exp(d) == 1
    ensures Exp(d * q) == 1
  {
    hide Xtime;
    if q > 0 {
      PeriodMultiple(d, q - 1);
      assert d * q == d + d * (q - 1);
      ShiftAdd(1, d, d * (q - 1));
    }
  }

  lemma {:induction false} PeriodRemainder(d: nat, n: nat)
    requires 0 < d && Exp(d) == 1 && Exp(n) == 1
    ensures Exp(n % d) == 1
  {
    hide Xtime;
    var q, r := n / d, n % d;
    PeriodMultiple(d, q);
    assert n == d * q + r;
    ShiftAdd(1, d * q, r);
  }

  lemma {:induction false} LeastPeriod(k: nat) returns (d: nat)
    requires 0 < k && Exp(k) == 1
    ensures 0 < d <= k && Exp(d) == 1
    ensures forall j :: 0 < j < d ==> Exp(j) != 1
  {
    hide Xtime;
    if j :| 0 < j < k && Exp(j) == 1 {
      d := LeastPeriod(j);
    } else {
      d := k;
    }
  }

  lemma AtLeast256(d: nat, e: nat)
    requires d >= 16 && e >= 16
    ensures d * e >= 256
  {
    assert d * e >= 16 * e;
  }

  lemma ProperDivisor(d: nat) returns (q: nat)
    requires 0 < d < 255 && 255 % d == 0
    ensures d * q == 15 || d * q == 51 || d * q == 85
  {
    var e := 255 / d;
    assert d * e == 255;
    if d <= 15 {
      assert d == 1 || d == 3 || d == 5 || d == 15;
      q := 15 / d;
    } else {
      assert e < 16 by {
        if e >= 16 {
          AtLeast256(d, e);
        }
      }
      assert e == 3 || e == 5 || e == 15;
      q := if e == 15 then 3 else 1;
    }
  }

  // No power of alpha below the 255th is 1, so the 255 powers are distinct.
  lemma OrderOfAlpha(k: nat)
    requires 0 < k < 255
    ensures Exp(k) != 1
  {
    hide Xtime;
    if Exp(k) == 1 {
      var d := LeastPeriod(k);
      Exp255();
      PeriodRemainder(d, 255);
      var q := ProperDivisor(d);
      PeriodMultiple(d, q);
      Exp15(); Exp51(); Exp85();
    }
  }

  lemma ExpInjective(i: nat, j: nat)
    requires i < 255 && j < 255 && Exp(i) == Exp(j)
    ensures i == j
  {
    hide Xtime;
    if i < j {
      ShiftAdd(1, j - i, i);
      ShiftInjective(1, Exp(j - i), i);
      OrderOfAlpha(j - i);
    } else if j < i {
      ShiftAdd(1, i - j, j);
      ShiftInjective(1, Exp(i - j), j);
      OrderOfAlpha(i - j);
    }
  }

  lemma ExpPeriodic(n: nat)
    ensures Exp(n + 255) == Exp(n)
  {
    hide Xtime;
    Exp255();
    ShiftAdd(1, 255, n);
  }

  lemma {:induction false} ExpMod(n: nat)
    ensures Exp(n % 255) == Exp(n)
  {
    hide Xtime;
    if n >= 255 {
      ExpMod(n - 255);
      ExpPeriodic(n - 255);
    }
  }

  // ---- logarithms: the powers of alpha are all the non-zero bytes ----

  ghost function PowersBelow(n: nat): (s: set<int>)
    requires n <= 255
    ensures forall x :: x in s <==> exists i :: 0 <= i < n && Exp(i) == x
  {
    if n == 0 then {} else PowersBelow(n - 1) + {Exp(n - 1)}
  }

  lemma {:induction false} CountPowers(n: nat)
    requires n <= 255
    ensures |PowersBelow(n)| == n
  {
    hide Xtime, Shift, Exp;
    if n > 0 {
      CountPowers(n - 1);
      if Exp(n - 1) in PowersBelow(n - 1) {
        var i :| 0 <= i < n - 1 && Exp(i) == Exp(n - 1);
        assert Exp(i) == Exp(n - 1);
        ExpInjective(i, n - 1);
      }
    }
  }

  ghost function Upto(n: nat): (s: set<int>)
    ensures forall x :: x in s <==> 1 <= x <= n
    ensures |s| == n
  {
    if n == 0 then {} else Upto(n - 1) + {n}
  }

  lemma SubsetSameSize(a: set<int>, b: set<int>)
    requires a <= b && |a| == |b|
    ensures a == b
  {
    if exists x :: x in b && x !in a {
      var x :| x in b && x !in a;
      assert a <= b - {x};
      SubsetSize(a, b - {x});
    }
  }

  lemma {:induction false} SubsetSize(a: set<int>, b: set<int>)
    requires a <= b
    ensures |a| <= |b|
  {
    if exists x :: x in a {
      var x :| x in a;
      SubsetSize(a - {x}, b - {x});
    } else {
      assert a == {};
    }
  }

  lemma LogExists(b: Byte)
    requires b != 0
    ensures exists i :: 0 <= i < 255 && Exp(i) == b
  {
    hide Xtime, Shift, Exp, PowersBelow, Upto;
    CountPowers(255);
    forall x | x in PowersBelow(255)
      ensures x in Upto(255)
    {
      var i :| 0 <= i < 255 && Exp(i) == x;
      ExpNonZero(i);
    }
    SubsetSameSize(PowersBelow(255), Upto(255));
    assert b in PowersBelow(255);
    var i :| 0 <= i < 255 && Exp(i) == b;
    assert Exp(i) == b;
  }

  ghost function Log(b: Byte): (i: nat)
    requires b != 0
    ensures i < 255 && Exp(i) == b
  {
    LogExists(b);
    var i: nat :| i < 255 && Exp(i) == b;
    i
  }

  // ---- the field product ----

  ghost function Mul(a: Byte, b: Byte): Byte {
    if b == 0 then 0 else Shift(a, Log(b))
  }

  lemma ExpAdd(i: nat, j: nat)
    ensures Shift(Exp(i), j) == Exp(i + j)
  {
    hide Xtime;
    ShiftAdd(1, i, j);
  }

  lemma MulExp(i: nat, j: nat)
    ensures Mul(Exp(i), Exp(j)) == Exp(i + j)
  {
    hide Xtime;
    ExpNonZero(j);
    var k := Log(Exp(j));
    ExpMod(j);
    ExpInjective(k, j % 255);
    ExpAdd(i, k);
    ExpMod(i + k);
    ExpMod(i + j);
    assert (i + k) % 255 == (i + j) % 255;
  }

  lemma MulZero(a: Byte)
    ensures Mul(a, 0) == 0 && Mul(0, a) == 0
  {
    hide Xtime;
    if a != 0 {
      ShiftZero(Log(a));
    }
  }

  lemma MulOne(a: Byte)
    ensures Mul(a, 1) == a && Mul(1, a) == a
  {
    hide Xtime;
    if a == 0 {
      MulZero(1);
    } else {
      MulExp(Log(a), 0);
      MulExp(0, Log(a));
    }
  }

  lemma MulCommutes(a: Byte, b: Byte)
    ensures Mul(a, b) == Mul(b, a)
  {
    hide Xtime;
    if a == 0 || b == 0 {
      MulZero(a);
      MulZero(b);
    } else {
      MulExp(Log(a), Log(b));
      MulExp(Log(b), Log(a));
    }
  }

  lemma MulAssociates(a: Byte, b: Byte, c: Byte)
    ensures Mul(Mul(a, b), c) == Mul(a, Mul(b, c))
  {
    hide Xtime;
    if a == 0 || b == 0 || c == 0 {
      MulZero(a); MulZero(b); MulZero(c); MulZero(Mul(a, b)); MulZero(Mul(b, c));
    } else {
      var i, j, k := Log(a), Log(b), Log(c);
      MulExp(i, j); MulExp(i + j, k); MulExp(j, k); MulExp(i, j + k);
    }
  }

  lemma MulDistributes(a: Byte, b: Byte, c: Byte)
    ensures Mul(Xor(a, b), c) == Xor(Mul(a, c), Mul(b, c))
    ensures Mul(c, Xor(a, b)) == Xor(Mul(c, a), Mul(c, b))
  {
    hide Xtime, Xor, Shift;
    if c == 0 {
      XorLaws(0, 0, 0);
    } else {
      ShiftLinear(a, b, Log(c));
    }
    MulCommutes(Xor(a, b), c); MulCommutes(a, c); MulCommutes(b, c);
  }
}
