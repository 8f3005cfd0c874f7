// What the error-correction bytes of a block guarantee (ISO/IEC 18004, section 7.5).
module ReedSolomon {
  import opened Gf256
  import opened Polynomials
  import opened QrPolynomial

  // The remainder of data * x^ec by the generator.
  ghost function Parity(data: Poly, ec: nat): (p: Poly)
    ensures |p| == ec
  {
    Remainder(data + Zeros(ec), Generator(ec))
  }

  // Data followed by its parity is a multiple of the generator.
  lemma CodewordIsMultiple(data: Poly, ec: nat)
    ensures data + Parity(data, ec) == Product(Quotient(data + Zeros(ec), Generator(ec)), Generator(ec))
  {
    hide Generator, Xor, Remainder, Quotient;
    var t, g := data + Zeros(ec), Generator(ec);
    GeneratorMonic(ec);
    DivisionIdentity(t, g);
    var r := Parity(data, ec);
    forall k | 0 <= k < |t|
      ensures XorAt(t, r, |data|)[k] == (data + r)[k]
    {
      XorLaws(if k < |data| then 0 else r[k - |data|], 0, 0);
    }
    assert XorAt(t, r, |data|) == data + r;
  }

  // All ec syndromes of a codeword are zero.
  lemma SyndromesVanish(data: Poly, ec: nat)
    ensures Vanishes(data + Parity(data, ec), ec)
  {
    hide Generator, Eval, Remainder, Quotient, Product;
    var q, g := Quotient(data + Zeros(ec), Generator(ec)), Generator(ec);
    CodewordIsMultiple(data, ec);
    GeneratorRoots(ec);
    forall i | 0 <= i < ec
      ensures Eval(data + Parity(data, ec), i) == 0
    {
      EvalProduct(q, g, i);
      assert Eval(g, i) == 0;
      MulZero(Eval(q, i));
    }
  }

  function Hamming(u: Poly, v: Poly): (d: nat)
    requires |u| == |v|
    ensures d <= |u|
  {
    if u == [] then 0 else (if u[0] == v[0] then 0 else 1) + Hamming(u[1..], v[1..])
  }

  lemma {:induction false} HammingIsWeight(u: Poly, v: Poly)
    requires |u| == |v|
    ensures Hamming(u, v) == Weight(XorAt(u, v, 0))
  {
    hide Xor, XorAt;
    XorAtTail(u, v, 0);
    if u != [] {
      HammingIsWeight(u[1..], v[1..]);
      XorZero(u[0], v[0]);
    }
  }

  // Two different words of at most 255 bytes whose ec syndromes vanish differ
  // in more than ec places, so up to ec / 2 wrong bytes are correctable.
  lemma MinimumDistance(u: Poly, v: Poly, ec: nat)
    requires |u| == |v| <= 255 && u != v
    requires Vanishes(u, ec) && Vanishes(v, ec)
    ensures Hamming(u, v) > ec
  {
    hide Xor, XorAt, Eval, Weight, Shift;
    var d := XorAt(u, v, 0);
    HammingIsWeight(u, v);
    if Hamming(u, v) <= ec {
      forall i | 0 <= i < ec
        ensures Eval(d, i) == 0
      {
        EvalXorAt(u, v, 0, i);
        assert Eval(u, i) == 0 && Eval(v, i) == 0;
        ShiftZero(Times(i, 0));
        XorLaws(0, 0, 0);
      }
      FewCoefficientsManyRoots(d, ec);
      forall k | 0 <= k < |u|
        ensures u[k] == v[k]
      {
        XorAtSame(u, v, k);
        XorZero(u[k], v[k]);
      }
    }
  }

  // At most one word at Hamming distance ec / 2 from what was received is a codeword.
  lemma UniqueCorrection(received: Poly, u: Poly, v: Poly, ec: nat)
    requires |u| == |v| == |received| <= 255
    requires Vanishes(u, ec) && Vanishes(v, ec)
    requires 2 * Hamming(received, u) <= ec && 2 * Hamming(received, v) <= ec
    ensures u == v
  {
    hide Eval;
    if u != v {
      MinimumDistance(u, v, ec);
      HammingTriangle(u, received, v);
    }
  }

  lemma {:induction false} HammingTriangle(u: Poly, m: Poly, v: Poly)
    requires |u| == |m| == |v|
    ensures Hamming(u, v) <= Hamming(m, u) + Hamming(m, v)
  {
    if u != [] {
      HammingTriangle(u[1..], m[1..], v[1..]);
    }
  }

  lemma {:induction false} HammingOfSuffixes(data: Poly, p: Poly, q: Poly)
    requires |p| == |q|
    ensures Hamming(data + p, data + q) == Hamming(p, q)
  {
    if data == [] {
      assert data + p == p && data + q == q;
    } else {
      assert (data + p)[1..] == data[1..] + p && (data + q)[1..] == data[1..] + q;
      HammingOfSuffixes(data[1..], p, q);
    }
  }

  // The syndromes decide the parity bytes completely.
  lemma ParityUnique(data: Poly, p: Poly, ec: nat)
    requires |p| == ec && |data| + ec <= 255
    ensures Vanishes(data + p, ec) <==> p == Parity(data, ec)
  {
    hide Eval, Parity;
    var q := Parity(data, ec);
    SyndromesVanish(data, ec);
    if Vanishes(data + p, ec) && p != q {
      assert (data + p)[|data|..] == p && (data + q)[|data|..] == q;
      MinimumDistance(data + p, data + q, ec);
      HammingOfSuffixes(data, p, q);
    }
  }
}
