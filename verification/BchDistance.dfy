// How far the format words, and the version words, are apart: why they carry check
// bits (ISO/IEC 18004, sections 7.9 and 7.10).
module BchDistance {
  import opened Binary
  import opened BitStrings
  import opened Bch

  // The number of the first len bits in which two words differ.
  function Distance(a: nat, b: nat, len: nat): nat
    decreases len
  {
    if len == 0 then 0 else Distance(a, b, len - 1) + if Bit(a, len - 1) != Bit(b, len - 1) then 1 else 0
  }

  lemma {:induction false} DistanceSymmetric(a: nat, b: nat, len: nat)
    ensures Distance(a, b, len) == Distance(b, a, len)
  {
    if len > 0 {
      DistanceSymmetric(a, b, len - 1);
    }
  }

  lemma {:induction false} Triangle(a: nat, b: nat, c: nat, len: nat)
    ensures Distance(a, c, len) <= Distance(a, b, len) + Distance(b, c, len)
  {
    if len > 0 {
      Triangle(a, b, c, len - 1);
    }
  }

  // ---- single bits ----

  lemma {:induction false} XorBit(a: nat, b: nat, k: nat)
    ensures Bit(Xor(a, b), k) == (Bit(a, k) != Bit(b, k))
  {
    XorHalf(a, b);
    if k > 0 {
      hide Xor;
      XorBit(a / 2, b / 2, k - 1);
    }
  }

  lemma {:induction false} NoBit(k: nat)
    ensures !Bit(0, k)
  {
    if k > 0 {
      NoBit(k - 1);
    }
  }

  lemma BitNext(q: nat, i: nat)
    ensures Bit(q, i + 1) == Bit(q / 2, i)
  {}

  lemma Shifted(n: nat, k: nat)
    requires k >= 4
    ensures Bit(n, k) == Bit(n / 16, k - 4)
  {
    assert Bit(n, k) == Bit(n / 2 / 2, k - 2) && n / 2 / 2 == n / 4;
    assert Bit(n / 4, k - 2) == Bit(n / 4 / 2 / 2, k - 4) && n / 4 / 2 / 2 == n / 16;
  }

  // Bit k of a product: of g if q is odd, and of the product with q / 2.
  lemma ProductBit(q: nat, g: nat, k: nat)
    ensures Bit(Times(q, g), k)
         == ((q % 2 == 1 && Bit(g, k)) != (k > 0 && Bit(Times(q / 2, g), k - 1)))
  {
    hide Xor, Times;
    TimesStep(q, g);
    XorBit(2 * Times(q / 2, g), if q % 2 == 1 then g else 0, k);
    NoBit(k);
  }

  lemma NoProductBit(g: nat, k: nat)
    ensures !Bit(Times(0, g), k)
  {
    TimesNone(g);
    NoBit(k);
  }

  // The coefficients of the two generators.
  predicate Tap15(k: int) {
    k == 0 || k == 1 || k == 2 || k == 4 || k == 5 || k == 8 || k == 10
  }

  predicate Tap18(k: int) {
    k == 0 || k == 2 || k == 5 || k == 8 || k == 9 || k == 10 || k == 11 || k == 12
  }

  lemma Taps15(k: nat)
    requires k < 15
    ensures Bit(G15, k) == Tap15(k)
  {
    if k < 4 {
      assert Bit(1335, 0) && Bit(1335, 1) && Bit(1335, 2) && !Bit(1335, 3);
    } else if k < 8 {
      Shifted(1335, k);
      assert Bit(83, 0) && Bit(83, 1) && !Bit(83, 2) && !Bit(83, 3);
    } else {
      Shifted(1335, k);
      Shifted(83, k - 4);
      if k < 12 {
        assert Bit(5, 0) && !Bit(5, 1) && Bit(5, 2) && !Bit(5, 3);
      } else {
        Shifted(5, k - 8);
        NoBit(k - 12);
      }
    }
  }

  lemma Taps18(k: nat)
    requires k < 18
    ensures Bit(G18, k) == Tap18(k)
  {
    if k < 4 {
      assert Bit(7973, 0) && !Bit(7973, 1) && Bit(7973, 2) && !Bit(7973, 3);
    } else if k < 8 {
      Shifted(7973, k);
      assert !Bit(498, 0) && Bit(498, 1) && !Bit(498, 2) && !Bit(498, 3);
    } else {
      Shifted(7973, k);
      Shifted(498, k - 4);
      if k < 12 {
        assert Bit(31, 0) && Bit(31, 1) && Bit(31, 2) && Bit(31, 3);
      } else {
        Shifted(31, k - 8);
        if k == 12 {
          assert Bit(1, 0);
        } else {
          assert !Bit(1, 1);
          BitNext(1, k - 13);
          NoBit(k - 13);
        }
      }
    }
  }

  // ---- format words ----

  // Bit k of the multiple of G15 by the number with these binary digits, the lowest first.
  predicate Sum15(a: bool, b: bool, c: bool, d: bool, e: bool, k: int) {
    (a && Tap15(k))
      != ((b && Tap15(k - 1)) != ((c && Tap15(k - 2)) != ((d && Tap15(k - 3)) != (e && Tap15(k - 4)))))
  }

  function One(x: bool): nat {
    if x then 1 else 0
  }

  lemma Weight15(a: bool, b: bool, c: bool, d: bool, e: bool)
    requires a || b || c || d || e
    ensures
      One(Sum15(a, b, c, d, e, 0)) + One(Sum15(a, b, c, d, e, 1)) + One(Sum15(a, b, c, d, e, 2))
      + One(Sum15(a, b, c, d, e, 3)) + One(Sum15(a, b, c, d, e, 4)) + One(Sum15(a, b, c, d, e, 5))
      + One(Sum15(a, b, c, d, e, 6)) + One(Sum15(a, b, c, d, e, 7)) + One(Sum15(a, b, c, d, e, 8))
      + One(Sum15(a, b, c, d, e, 9)) + One(Sum15(a, b, c, d, e, 10)) + One(Sum15(a, b, c, d, e, 11))
      + One(Sum15(a, b, c, d, e, 12)) + One(Sum15(a, b, c, d, e, 13)) + One(Sum15(a, b, c, d, e, 14)) >= 7
  {}

  predicate Sum18(a: bool, b: bool, c: bool, d: bool, e: bool, f: bool, k: int) {
    (a && Tap18(k))
      != ((b && Tap18(k - 1)) != ((c && Tap18(k - 2))
            != ((d && Tap18(k - 3)) != ((e && Tap18(k - 4)) != (f && Tap18(k - 5))))))
  }

  lemma Weight18(a: bool, b: bool, c: bool, d: bool, e: bool, f: bool)
    requires a || b || c || d || e || f
    ensures
      One(Sum18(a, b, c, d, e, f, 0)) + One(Sum18(a, b, c, d, e, f, 1)) + One(Sum18(a, b, c, d, e, f, 2))
      + One(Sum18(a, b, c, d, e, f, 3)) + One(Sum18(a, b, c, d, e, f, 4)) + One(Sum18(a, b, c, d, e, f, 5))
      + One(Sum18(a, b, c, d, e, f, 6)) + One(Sum18(a, b, c, d, e, f, 7)) + One(Sum18(a, b, c, d, e, f, 8))
      + One(Sum18(a, b, c, d, e, f, 9)) + One(Sum18(a, b, c, d, e, f, 10)) + One(Sum18(a, b, c, d, e, f, 11))
      + One(Sum18(a, b, c, d, e, f, 12)) + One(Sum18(a, b, c, d, e, f, 13)) + One(Sum18(a, b, c, d, e, f, 14))
      + One(Sum18(a, b, c, d, e, f, 15)) + One(Sum18(a, b, c, d, e, f, 16)) + One(Sum18(a, b, c, d, e, f, 17)) >= 8
  {}

  // ---- the two codes ----

  // One digit of the factor, for the bit i places further down.
  lemma Level15(q: nat, i: nat, k: nat)
    requires k < 15
    ensures i <= k ==>
      Bit(Times(q, G15), k - i)
      == ((Bit(q, 0) && Tap15(k - i)) != (k - i > 0 && Bit(Times(q / 2, G15), k - i - 1)))
    ensures i > k ==> !Tap15(k - i)
  {
    hide Times, Bit;
    if i <= k {
      ProductBit(q, G15, k - i);
      Taps15(k - i);
      BitZero(q);
    }
  }

  lemma Level18(q: nat, i: nat, k: nat)
    requires k < 18
    ensures i <= k ==>
      Bit(Times(q, G18), k - i)
      == ((Bit(q, 0) && Tap18(k - i)) != (k - i > 0 && Bit(Times(q / 2, G18), k - i - 1)))
    ensures i > k ==> !Tap18(k - i)
  {
    hide Times, Bit;
    if i <= k {
      ProductBit(q, G18, k - i);
      Taps18(k - i);
      BitZero(q);
    }
  }

  lemma BitZero(q: nat)
    ensures Bit(q, 0) == (q % 2 == 1)
  {}

  // Bits of the multiples of the generators.
  lemma Bits15(p: nat, k: nat)
    requires p < 32 && k < 15
    ensures Bit(Times(p, G15), k) == Sum15(Bit(p, 0), Bit(p, 1), Bit(p, 2), Bit(p, 3), Bit(p, 4), k)
  {
    hide Times, Bit, Tap15;
    var q := p / 2;
    var r := q / 2;
    var t := r / 2;
    var u := t / 2;
    assert u / 2 == 0;
    Level15(p, 0, k);
    Level15(q, 1, k);
    Level15(r, 2, k);
    Level15(t, 3, k);
    Level15(u, 4, k);
    BitNext(p, 0); BitNext(p, 1); BitNext(p, 2); BitNext(p, 3);
    BitNext(q, 0); BitNext(q, 1); BitNext(q, 2);
    BitNext(r, 0); BitNext(r, 1);
    BitNext(t, 0);
    if k >= 5 {
      NoProductBit(G15, k - 5);
    }
  }

  lemma Bits18(p: nat, k: nat)
    requires p < 64 && k < 18
    ensures Bit(Times(p, G18), k)
         == Sum18(Bit(p, 0), Bit(p, 1), Bit(p, 2), Bit(p, 3), Bit(p, 4), Bit(p, 5), k)
  {
    hide Times, Bit, Tap18;
    var q := p / 2;
    var r := q / 2;
    var t := r / 2;
    var u := t / 2;
    var v := u / 2;
    assert v / 2 == 0;
    Level18(p, 0, k);
    Level18(q, 1, k);
    Level18(r, 2, k);
    Level18(t, 3, k);
    Level18(u, 4, k);
    Level18(v, 5, k);
    BitNext(p, 0); BitNext(p, 1); BitNext(p, 2); BitNext(p, 3); BitNext(p, 4);
    BitNext(q, 0); BitNext(q, 1); BitNext(q, 2); BitNext(q, 3);
    BitNext(r, 0); BitNext(r, 1); BitNext(r, 2);
    BitNext(t, 0); BitNext(t, 1);
    BitNext(u, 0);
    if k >= 6 {
      NoProductBit(G18, k - 6);
    }
  }

  // Two words that differ by a non-zero multiple of G15 differ in seven bits.
  lemma MultiplesApart15(u: nat, v: nat, p: nat)
    requires 0 < p < 32 && Xor(u, v) == Times(p, G15)
    ensures Distance(u, v, 15) >= 7
  {
    hide Times, Bit, Xor, Sum15;
    var a, b, c, d, e := Bit(p, 0), Bit(p, 1), Bit(p, 2), Bit(p, 3), Bit(p, 4);
    forall k: nat | k < 15
      ensures One(Sum15(a, b, c, d, e, k)) == if Bit(u, k) != Bit(v, k) then 1 else 0
    {
      Bits15(p, k);
      XorBit(u, v, k);
    }
    SomeBit(p, 5);
    Weight15(a, b, c, d, e);
    hide One;
  }

  lemma MultiplesApart18(u: nat, v: nat, p: nat)
    requires 0 < p < 64 && Xor(u, v) == Times(p, G18)
    ensures Distance(u, v, 18) >= 8
  {
    hide Times, Bit, Xor, Sum18;
    var a, b, c, d, e, f := Bit(p, 0), Bit(p, 1), Bit(p, 2), Bit(p, 3), Bit(p, 4), Bit(p, 5);
    forall k: nat | k < 18
      ensures One(Sum18(a, b, c, d, e, f, k)) == if Bit(u, k) != Bit(v, k) then 1 else 0
    {
      Bits18(p, k);
      XorBit(u, v, k);
    }
    SixtyFour();
    SomeBit(p, 6);
    assert Distance(u, v, 9)
        == One(Sum18(a, b, c, d, e, f, 0)) + One(Sum18(a, b, c, d, e, f, 1)) + One(Sum18(a, b, c, d, e, f, 2))
           + One(Sum18(a, b, c, d, e, f, 3)) + One(Sum18(a, b, c, d, e, f, 4)) + One(Sum18(a, b, c, d, e, f, 5))
           + One(Sum18(a, b, c, d, e, f, 6)) + One(Sum18(a, b, c, d, e, f, 7)) + One(Sum18(a, b, c, d, e, f, 8));
    Weight18(a, b, c, d, e, f);
    hide One;
  }

  lemma {:induction false} SomeBit(p: nat, n: nat)
    requires 0 < p < Pow2(n)
    ensures exists k :: 0 <= k < n && Bit(p, k)
  {
    BitZero(p);
    if p % 2 == 0 {
      SomeBit(p / 2, n - 1);
      var k :| 0 <= k < n - 1 && Bit(p / 2, k);
      BitNext(p, k);
    }
  }

  // Different format data give words that differ in at least seven of their fifteen bits.
  lemma FormatApart(a: nat, b: nat)
    requires a < 32 && b < 32 && a != b
    ensures Distance(TypeInfoWord(a), TypeInfoWord(b), 15) >= 7
  {
    hide Xor, Shl, Times, Bch.Digits, TypeInfoWord, Pow2, Distance, Residue;
    var u, v := TypeInfoWord(a), TypeInfoWord(b);
    TypeInfoWordIsCode(a, u);
    TypeInfoWordIsCode(b, v);
    FormatDataBack(a);
    FormatDataBack(b);
    DigitsOfGenerators();
    var p :| Times(p, G15) == Xor(u, G15_MASK);
    var q :| Times(q, G15) == Xor(v, G15_MASK);
    TimesAdd(p, q, G15);
    XorSwap(u, G15_MASK, v, G15_MASK);
    XorSelf(G15_MASK);
    XorZero(Xor(u, v));
    ShortFactor(u, v, Xor(p, q), G15, 15, 5);
    SmallPowers();
    MultiplesApart15(u, v, Xor(p, q));
  }

  // Different versions give words that differ in at least eight of their eighteen bits.
  lemma VersionApart(a: nat, b: nat)
    requires a < 64 && b < 64 && a != b
    ensures Distance(TypeNumberWord(a), TypeNumberWord(b), 18) >= 8
  {
    hide Xor, Shl, Times, Bch.Digits, TypeNumberWord, Pow2, Distance, Residue;
    var u, v := TypeNumberWord(a), TypeNumberWord(b);
    TypeNumberWordIsCode(a, u);
    TypeNumberWordIsCode(b, v);
    VersionDataBack(a);
    VersionDataBack(b);
    DigitsOfGenerators();
    var p :| Times(p, G18) == u;
    var q :| Times(q, G18) == v;
    TimesAdd(p, q, G18);
    ShortFactor(u, v, Xor(p, q), G18, 18, 6);
    SixtyFour();
    MultiplesApart18(u, v, Xor(p, q));
  }

  lemma SixtyFour()
    ensures Pow2(6) == 64
  {
    assert Pow2(4) == 16;
  }

  lemma ShortFactor(u: nat, v: nat, p: nat, g: nat, n: nat, m: nat)
    requires u != v && u < Pow2(n) && v < Pow2(n) && Xor(u, v) == Times(p, g)
    requires g > 0 && n + 1 == m + Bch.Digits(g)
    ensures 0 < p < Pow2(m)
  {
    hide Xor, Times, Bch.Digits, Pow2;
    DigitsBelow(u, n);
    DigitsBelow(v, n);
    XorDigits(u, v, n);
    if p == 0 {
      TimesNone(g);
      XorSame(u, v);
    } else {
      TimesDigits(p, g);
      DigitsBelow(p, m);
    }
  }

  // So with up to three wrong bits the word that was drawn is the only one that fits.
  lemma FormatUnique(received: nat, a: nat, b: nat)
    requires a < 32 && b < 32
    requires Distance(received, TypeInfoWord(a), 15) <= 3 && Distance(received, TypeInfoWord(b), 15) <= 3
    ensures a == b
  {
    hide Distance, TypeInfoWord;
    DistanceSymmetric(received, TypeInfoWord(a), 15);
    Triangle(TypeInfoWord(a), received, TypeInfoWord(b), 15);
    if a != b {
      FormatApart(a, b);
    }
  }

  lemma VersionUnique(received: nat, a: nat, b: nat)
    requires a < 64 && b < 64
    requires Distance(received, TypeNumberWord(a), 18) <= 3 && Distance(received, TypeNumberWord(b), 18) <= 3
    ensures a == b
  {
    hide Distance, TypeNumberWord;
    DistanceSymmetric(received, TypeNumberWord(a), 18);
    Triangle(TypeNumberWord(a), received, TypeNumberWord(b), 18);
    if a != b {
      VersionApart(a, b);
    }
  }
}
