// QRUtil's BCH words (ISO/IEC 18004, sections 7.9 and 7.10). Numbers are
// polynomials over GF(2), bit i being the coefficient of x^i.
module Bch {
  import opened Binary

  const G15: nat := 0x537
  const G18: nat := 0x1F25
  const G15_MASK: nat := 0x5412

  // a ^ b
  function Xor(a: nat, b: nat): nat
    decreases a + b
  {
    if a == 0 && b == 0 then 0 else 2 * Xor(a / 2, b / 2) + (a + b) % 2
  }

  // a << k
  function Shl(a: nat, k: nat): nat {
    if k == 0 then a else 2 * Shl(a, k - 1)
  }

  function Digits(n: nat): nat {
    if n == 0 then 0 else 1 + Digits(n / 2)
  }

  // The product of two polynomials over GF(2).
  function Times(q: nat, g: nat): nat {
    if q == 0 then 0 else Xor(2 * Times(q / 2, g), if q % 2 == 1 then g else 0)
  }

  ghost predicate Multiple(x: nat, g: nat) {
    exists q :: Times(q, g) == x
  }

  // ---- the loops ----

  method GetBCHDigit(data: nat) returns (digit: nat)
    ensures digit == Digits(data)
  {
    digit := 0;
    var n := data;
    while n != 0
      invariant digit + Digits(n) == Digits(data)
    {
      digit := digit + 1;
      n := n / 2;
    }
  }

  // What is left of d after cancelling its leading bits with shifted copies of g.
  function Residue(d: nat, g: nat): nat
    requires g > 0
    decreases Digits(d)
  {
    if Digits(d) < Digits(g) then d
    else
      ShiftedDigits(g, Digits(d) - Digits(g));
      SomeDigits(g);
      XorTop(d, Shl(g, Digits(d) - Digits(g)));
      Residue(Xor(d, Shl(g, Digits(d) - Digits(g))), g)
  }

  // d ^= g << (digits of d - digits of g), as long as that is not negative.
  method Reduce(start: nat, g: nat) returns (d: nat)
    requires g > 0
    ensures d == Residue(start, g)
  {
    hide Xor, Shl, Digits;
    d := start;
    var digit: int := GetBCHDigit(d);
    var gDigit: int := GetBCHDigit(g);
    while digit - gDigit >= 0
      invariant digit == Digits(d)
      invariant Residue(d, g) == Residue(start, g)
      decreases digit
    {
      ShiftedDigits(g, digit - gDigit);
      SomeDigits(g);
      XorTop(d, Shl(g, digit - gDigit));
      d := Xor(d, Shl(g, digit - gDigit));
      digit := GetBCHDigit(d);
    }
  }

  function TypeInfoWord(data: nat): nat {
    Xor(Shl(data, 10) + Residue(Shl(data, 10), G15), G15_MASK)
  }

  function TypeNumberWord(data: nat): nat {
    Shl(data, 12) + Residue(Shl(data, 12), G18)
  }

  // OR-ing the shifted data with the shorter remainder is adding them.
  method GetBCHTypeInfo(data: nat) returns (r: nat)
    ensures r == TypeInfoWord(data)
  {
    hide Xor, Shl, Residue;
    var d := Reduce(Shl(data, 10), G15);
    r := Xor(Shl(data, 10) + d, G15_MASK);
  }

  method GetBCHTypeNumber(data: nat) returns (r: nat)
    ensures r == TypeNumberWord(data)
  {
    hide Xor, Shl, Residue;
    var d := Reduce(Shl(data, 12), G18);
    r := Shl(data, 12) + d;
  }

  // The remainder is shorter than the generator and differs from the start by a multiple.
  lemma {:induction false} ResidueIsRemainder(d: nat, g: nat)
    requires g > 0
    ensures Digits(Residue(d, g)) < Digits(g)
    ensures Multiple(Xor(d, Residue(d, g)), g)
    decreases Digits(d)
  {
    hide Xor, Shl, Digits, Times;
    if Digits(d) < Digits(g) {
      XorSelf(d);
      TimesNone(g);
    } else {
      var k := Digits(d) - Digits(g);
      var s := Shl(g, k);
      ShiftedDigits(g, k);
      SomeDigits(g);
      XorTop(d, s);
      var e := Xor(d, s);
      ResidueIsRemainder(e, g);
      var q :| Times(q, g) == Xor(e, Residue(e, g));
      TimesAdd(q, Shl(1, k), g);
      TimesShl(k, g);
      MoveTerm(d, s, Residue(e, g));
      assert Times(Xor(q, Shl(1, k)), g) == Xor(d, Residue(e, g));
    }
  }

  lemma MoveTerm(d: nat, s: nat, r: nat)
    ensures Xor(Xor(Xor(d, s), r), s) == Xor(d, r)
  {
    hide Xor;
    XorAssociates(Xor(d, s), r, s);
    XorSwap(d, s, r, s);
    XorSelf(s);
    XorZero(Xor(d, r));
  }

  // Exactly one word starts with data and is, unmasked, a multiple of G15.
  lemma TypeInfoWordIsCode(data: nat, w: nat)
    ensures w == TypeInfoWord(data)
       <==> 0 <= Xor(w, G15_MASK) - Shl(data, 10) < Pow2(10) && Multiple(Xor(w, G15_MASK), G15)
  {
    hide Xor, Shl, Multiple, Digits, Pow2, Residue;
    var d := Residue(Shl(data, 10), G15);
    ResidueIsRemainder(Shl(data, 10), G15);
    DigitsOfGenerators();
    DigitsBelow(d, 10);
    XorDisjoint(data, d, 10);
    XorTwice(Shl(data, 10) + d, G15_MASK);
    XorTwice(w, G15_MASK);
    var c := Xor(w, G15_MASK) - Shl(data, 10);
    if 0 <= c < Pow2(10) && Multiple(Xor(w, G15_MASK), G15) {
      CheckBitsUnique(data, c, d, 10, G15);
    }
  }

  lemma TypeNumberWordIsCode(data: nat, w: nat)
    ensures w == TypeNumberWord(data) <==> 0 <= w - Shl(data, 12) < Pow2(12) && Multiple(w, G18)
  {
    hide Xor, Shl, Multiple, Digits, Pow2, Residue;
    var d := Residue(Shl(data, 12), G18);
    ResidueIsRemainder(Shl(data, 12), G18);
    DigitsOfGenerators();
    DigitsBelow(d, 12);
    XorDisjoint(data, d, 12);
    var c := w - Shl(data, 12);
    if 0 <= c < Pow2(12) && Multiple(w, G18) {
      CheckBitsUnique(data, c, d, 12, G18);
    }
  }

  lemma XorTwice(a: nat, m: nat)
    ensures Xor(Xor(a, m), m) == a
  {
    hide Xor;
    XorAssociates(a, m, m);
    XorSelf(m);
    XorZero(a);
  }

  // ---- exclusive or ----

  lemma {:induction false} XorSelf(a: nat)
    ensures Xor(a, a) == 0
  {
    if a > 0 {
      XorSelf(a / 2);
    }
  }

  lemma {:induction false} XorZero(a: nat)
    ensures Xor(a, 0) == a && Xor(0, a) == a
  {
    if a > 0 {
      XorZero(a / 2);
    }
  }

  lemma {:induction false} XorCommutes(a: nat, b: nat)
    ensures Xor(a, b) == Xor(b, a)
    decreases a + b
  {
    if a + b > 0 {
      XorCommutes(a / 2, b / 2);
    }
  }

  lemma XorHalf(a: nat, b: nat)
    ensures Xor(a, b) / 2 == Xor(a / 2, b / 2) && Xor(a, b) % 2 == (a + b) % 2
  {}

  lemma SameHalf(a: nat, b: nat)
    requires a / 2 == b / 2 && a % 2 == b % 2
    ensures a == b
  {}

  lemma Parity(a: nat, b: nat)
    ensures (a % 2 + b) % 2 == (a + b) % 2 && (a + b % 2) % 2 == (a + b) % 2
  {}

  lemma SumParity(a: nat, b: nat, c: nat, x: nat, y: nat)
    requires x % 2 == (a + b) % 2 && y % 2 == (b + c) % 2
    ensures (x + c) % 2 == (a + y) % 2
  {
    Parity(a + b, c); Parity(x, c); Parity(a, b + c); Parity(a, y);
  }

  lemma {:induction false} XorAssociates(a: nat, b: nat, c: nat)
    ensures Xor(Xor(a, b), c) == Xor(a, Xor(b, c))
    decreases a + b + c
  {
    hide Xor;
    var x, y := Xor(a, b), Xor(b, c);
    if a + b + c == 0 {
      XorZero(0);
    } else {
      XorHalf(a, b);
      XorHalf(b, c);
      XorHalf(x, c);
      XorHalf(a, y);
      SumParity(a, b, c, x, y);
      XorAssociates(a / 2, b / 2, c / 2);
      SameHalf(Xor(x, c), Xor(a, y));
    }
  }

  lemma XorDouble(a: nat, b: nat)
    ensures Xor(2 * a, 2 * b) == 2 * Xor(a, b)
  {
    hide Xor;
    XorHalf(2 * a, 2 * b);
    SameHalf(Xor(2 * a, 2 * b), 2 * Xor(a, b));
  }

  // Sums of pairs can be regrouped.
  lemma XorSwap(a: nat, b: nat, c: nat, d: nat)
    ensures Xor(Xor(a, b), Xor(c, d)) == Xor(Xor(a, c), Xor(b, d))
  {
    hide Xor;
    XorAssociates(a, b, Xor(c, d));
    XorAssociates(b, c, d);
    XorCommutes(b, c);
    XorAssociates(c, b, d);
    XorAssociates(a, c, Xor(b, d));
  }

  lemma {:induction false} XorDigits(a: nat, b: nat, n: nat)
    requires Digits(a) <= n && Digits(b) <= n
    ensures Digits(Xor(a, b)) <= n
  {
    if n > 0 {
      XorHalf(a, b);
      XorDigits(a / 2, b / 2, n - 1);
    } else {
      assert a == 0 && b == 0;
    }
  }

  // Equal lengths: the leading bits cancel.
  lemma {:induction false} XorTop(a: nat, b: nat)
    requires Digits(a) == Digits(b) > 0
    ensures Digits(Xor(a, b)) < Digits(a)
  {
    XorHalf(a, b);
    if Digits(a) == 1 {
      assert a / 2 == 0 && b / 2 == 0;
      assert a == 1 && b == 1;
    } else {
      XorTop(a / 2, b / 2);
    }
  }

  lemma {:induction false} XorDisjoint(h: nat, l: nat, n: nat)
    requires l < Pow2(n)
    ensures Xor(Shl(h, n), l) == Shl(h, n) + l
  {
    hide Xor;
    if n == 0 {
      XorZero(h);
    } else {
      XorDisjoint(h, l / 2, n - 1);
      XorHalf(2 * Shl(h, n - 1), l);
      SameHalf(Xor(Shl(h, n), l), Shl(h, n) + l);
    }
  }

  // ---- lengths and products ----

  lemma {:induction false} DigitsBelow(d: nat, n: nat)
    ensures Digits(d) <= n <==> d < Pow2(n)
  {
    if n > 0 && d > 0 {
      DigitsBelow(d / 2, n - 1);
    }
  }

  lemma DigitsOfGenerators()
    ensures Digits(G15) == 11 && Digits(G18) == 13
  {
    assert Pow2(4) == 16 && Pow2(8) == 256 && Pow2(10) == 1024 && Pow2(11) == 2048;
    assert Pow2(12) == 4096 && Pow2(13) == 8192;
    DigitsBelow(G15, 10); DigitsBelow(G15, 11);
    DigitsBelow(G18, 12); DigitsBelow(G18, 13);
  }

  lemma SomeDigits(g: nat)
    requires g > 0
    ensures Digits(g) > 0
  {}

  lemma {:induction false} ShiftedDigits(g: nat, k: nat)
    requires g > 0
    ensures Shl(g, k) > 0 && Digits(Shl(g, k)) == Digits(g) + k
  {
    if k > 0 {
      ShiftedDigits(g, k - 1);
    }
  }

  lemma {:induction false} TimesAdd(p: nat, q: nat, g: nat)
    ensures Times(Xor(p, q), g) == Xor(Times(p, g), Times(q, g))
    decreases p + q
  {
    hide Xor, Times;
    TimesNone(g);
    if p + q == 0 {
      XorZero(0);
    } else {
      TimesAdd(p / 2, q / 2, g);
      XorHalf(p, q);
      TimesStep(p, g); TimesStep(q, g); TimesStep(Xor(p, q), g);
      TimesAddStep(Times(p / 2, g), Times(q / 2, g), p, q, g);
    }
  }

  lemma TimesAddStep(a: nat, b: nat, p: nat, q: nat, g: nat)
    ensures Xor(Xor(2 * a, if p % 2 == 1 then g else 0), Xor(2 * b, if q % 2 == 1 then g else 0))
         == Xor(2 * Xor(a, b), if (p + q) % 2 == 1 then g else 0)
  {
    hide Xor;
    XorDouble(a, b);
    XorSwap(2 * a, if p % 2 == 1 then g else 0, 2 * b, if q % 2 == 1 then g else 0);
    XorSelf(g);
    XorZero(g);
    XorZero(0);
  }

  lemma TimesNone(g: nat)
    ensures Times(0, g) == 0
  {}

  lemma TimesStep(q: nat, g: nat)
    ensures Times(q, g) == Xor(2 * Times(q / 2, g), if q % 2 == 1 then g else 0)
  {
    hide Xor;
    XorZero(0);
  }

  lemma {:induction false} TimesShl(k: nat, g: nat)
    ensures Times(Shl(1, k), g) == Shl(g, k)
  {
    hide Xor, Times;
    TimesStep(Shl(1, k), g);
    TimesNone(g);
    if k == 0 {
      XorZero(g);
    } else {
      TimesShl(k - 1, g);
      XorZero(Shl(g, k));
    }
  }

  // A non-zero multiple of g is no shorter than g.
  lemma {:induction false} TimesDigits(q: nat, g: nat)
    requires q > 0 && g > 0
    ensures Digits(Times(q, g)) == Digits(q) + Digits(g) - 1
  {
    TimesStep(q, g);
    if q / 2 == 0 {
      assert q == 1;
      XorZero(g);
    } else {
      TimesDigits(q / 2, g);
      var t := 2 * Times(q / 2, g);
      assert Digits(t) == Digits(Times(q / 2, g)) + 1;
      if q % 2 == 1 {
        XorLonger(t, g);
      } else {
        XorZero(t);
      }
    }
  }

  lemma {:induction false} XorLonger(a: nat, b: nat)
    requires Digits(a) > Digits(b)
    ensures Digits(Xor(a, b)) == Digits(a)
  {
    XorHalf(a, b);
    if b == 0 {
      XorZero(a);
    } else {
      XorLonger(a / 2, b / 2);
    }
  }

  lemma SumOfWords(data: nat, c: nat, d: nat, n: nat)
    requires c < Pow2(n) && d < Pow2(n)
    ensures Xor(Shl(data, n) + c, Shl(data, n) + d) == Xor(c, d)
  {
    hide Xor, Shl, Pow2;
    XorDisjoint(data, c, n);
    XorDisjoint(data, d, n);
    XorSwap(Shl(data, n), c, Shl(data, n), d);
    XorSelf(Shl(data, n));
    XorZero(Xor(c, d));
  }

  // Data and check bits determine each other: of all words that start with
  // data, exactly one is a multiple of the generator.
  lemma CheckBitsUnique(data: nat, c: nat, d: nat, n: nat, g: nat)
    requires c < Pow2(n) && d < Pow2(n) && Digits(g) == n + 1
    requires Multiple(Shl(data, n) + c, g) && Multiple(Shl(data, n) + d, g)
    ensures c == d
  {
    hide Xor, Shl, Times, Pow2;
    var p :| Times(p, g) == Shl(data, n) + c;
    var q :| Times(q, g) == Shl(data, n) + d;
    TimesAdd(p, q, g);
    SumOfWords(data, c, d, n);
    hide Digits, Multiple;
    DigitsBelow(c, n);
    DigitsBelow(d, n);
    XorDigits(c, d, n);
    ShortMultiple(Xor(p, q), g, n);
    XorSame(c, d);
  }

  // A multiple with no more digits than n is 0.
  lemma ShortMultiple(p: nat, g: nat, n: nat)
    requires Digits(g) == n + 1 && Digits(Times(p, g)) <= n
    ensures Times(p, g) == 0
  {
    assert g > 0;
    hide Digits, Times;
    if p > 0 {
      SomeDigits(p);
      TimesDigits(p, g);
      assert false;
    }
    TimesNone(g);
  }

  lemma {:induction false} XorSame(a: nat, b: nat)
    requires Xor(a, b) == 0
    ensures a == b
    decreases a + b
  {
    if a + b > 0 {
      XorHalf(a, b);
      XorSame(a / 2, b / 2);
    }
  }

  lemma {:induction false} ShlIsProduct(a: nat, k: nat)
    ensures Shl(a, k) == a * Pow2(k)
  {
    if k > 0 {
      ShlIsProduct(a, k - 1);
    }
  }

  lemma ShlIs(a: nat)
    ensures Shl(a, 10) == 1024 * a && Shl(a, 12) == 4096 * a
  {
    hide Shl, Pow2;
    SmallPowers();
    ShlIsProduct(a, 10);
    ShlIsProduct(a, 12);
  }

  lemma SmallPowers()
    ensures Pow2(5) == 32 && Pow2(10) == 1024 && Pow2(12) == 4096 && Pow2(15) == 32768 && Pow2(18) == 262144
  {
    assert Pow2(4) == 16 && Pow2(8) == 256;
  }

  // Level M and mask 0 give the mask pattern of the format word itself.
  lemma FormatZero()
    ensures TypeInfoWord(0) == 0x5412 == 21522
  {
    hide Xor;
    assert Residue(Shl(0, 10), G15) == 0 && Shl(0, 10) == 0 by {
      ShlIs(0);
    }
    XorZero(G15_MASK);
  }

  // What a reader does with a format word: unmask, drop the check bits.
  function FormatData(word: nat): nat {
    Xor(word, G15_MASK) / 1024
  }

  lemma FormatDataBack(data: nat)
    requires data < 32
    ensures FormatData(TypeInfoWord(data)) == data && TypeInfoWord(data) < Pow2(15)
  {
    hide Xor, Shl, Multiple, Digits, Pow2, TypeInfoWord;
    var w := TypeInfoWord(data);
    TypeInfoWordIsCode(data, w);
    ShlIs(data);
    SmallPowers();
    DigitsBelow(Xor(w, G15_MASK), 15);
    DigitsBelow(G15_MASK, 15);
    XorDigits(Xor(w, G15_MASK), G15_MASK, 15);
    XorTwice(w, G15_MASK);
    DigitsBelow(w, 15);
  }

  lemma VersionDataBack(data: nat)
    requires data < 64
    ensures TypeNumberWord(data) / 4096 == data && TypeNumberWord(data) < Pow2(18)
  {
    hide Shl, Multiple, Pow2, TypeNumberWord;
    TypeNumberWordIsCode(data, TypeNumberWord(data));
    ShlIs(data);
    SmallPowers();
  }
}
