// QRPolynomial and QRUtil.getErrorCorrectPolynomial. A hole that `shift` leaves
// at the end of a coefficient array behaves as 0 and is modelled as 0.
module QrPolynomial {
  import opened Binary
  import opened Gf256
  import opened Polynomials
  import opened QrMath
  import opened Results

  method NewZeros(n: nat) returns (a: array<Byte>)
    ensures fresh(a) && a.Length == n
    ensures forall k :: 0 <= k < n ==> a[k] == 0
  {
    a := new Byte[n](_ => 0);
  }

  // new QRPolynomial(num, shift): leading zeros go, `shift` low-order zeros come.
  method Construct(num: Poly, shift: nat) returns (p: Poly)
    ensures p == Strip(num) + Zeros(shift)
  {
    hide Strip;
    var offset := 0;
    while offset < |num| && num[offset] == 0
      invariant offset <= |num| && Strip(num) == Strip(num[offset..])
    {
      StripStep(num[offset..]);
      assert num[offset..][1..] == num[offset + 1..];
      offset := offset + 1;
    }
    StripStep(num[offset..]);
    p := CopyFrom(num, offset, shift);
  }

  method CopyFrom(num: Poly, offset: nat, shift: nat) returns (p: Poly)
    requires offset <= |num|
    ensures p == num[offset..] + Zeros(shift)
  {
    var a := NewZeros(|num| - offset + shift);
    for i := 0 to |num| - offset
      invariant forall k :: 0 <= k < i ==> a[k] == num[offset + k]
      invariant forall k :: i <= k < a.Length ==> a[k] == 0
    {
      a[i] := num[i + offset];
    }
    assert a[..] == num[offset..] + Zeros(shift);
    p := a[..];
  }

  method Multiply(m: QRMath, a: Poly, e: Poly) returns (r: Result<Poly, MathError>)
    requires m.Valid() && 0 < |a| && 0 < |e|
    ensures r.Ok? <==> AllNonZero(a) && AllNonZero(e)
    ensures r.Ok? ==> r.value == Strip(Product(a, e))
  {
    hide Xor, XorAt, Mul, Exp, Product, Scale;
    var num := NewZeros(|a| + |e| - 1);
    assert num[..] == Zeros(|a| + |e| - 1);
    MultiplyStart(num[..], a, e);
    for i := 0 to |a|
      invariant XorAt(num[..], Product(a[i..], e), i) == Product(a, e)
      invariant AllNonZero(a[..i]) && (0 < i ==> AllNonZero(e))
    {
      ghost var row := num[..];
      XorAtZeros(row, 0, i);
      assert Scale(e, a[i])[..0] == Zeros(0);
      for j := 0 to |e|
        invariant num[..] == XorAt(row, Scale(e, a[i])[..j], i)
        invariant AllNonZero(e[..j]) && (0 < j ==> a[i] != 0)
      {
        var la :- m.Glog(a[i]);
        var le :- m.Glog(e[j]);
        var g := m.Gexp(la + le);
        ProductOfLogs(e[j], a[i], le, la);
        MultiplyCell(row, e, a[i], i, j);
        num[i + j] := Xor(num[i + j], g);
      }
      assert Scale(e, a[i])[..|e|] == Scale(e, a[i]);
      MultiplyRow(row, a, e, i);
    }
    MultiplyEnd(num[..], a, e);
    var p := Construct(num[..], 0);
    assert p == Strip(num[..]);
    return Ok(p);
  }

  method CopyOf(t: Poly) returns (num: array<Byte>)
    ensures fresh(num) && num[..] == t
  {
    num := new Byte[|t|];
    for i := 0 to |t|
      invariant forall k :: 0 <= k < i ==> num[k] == t[k]
    {
      num[i] := t[i];
    }
  }

  // One quotient step, then the same again on what is left.
  method Mod(m: QRMath, t: Poly, e: Poly) returns (r: Result<Poly, MathError>)
    requires m.Valid() && 0 < |e|
    ensures r.Ok? <==> |t| < |e| || (t[0] != 0 && AllNonZero(e))
    ensures r.Ok? && |t| < |e| ==> r.value == t
    ensures r.Ok? && |t| >= |e| ==> r.value == Strip(Remainder(t, e))
    decreases |t|
  {
    hide Strip, Eliminate;
    if |t| - |e| < 0 {
      return Ok(t);
    }
    var p :- Cancel(m, t, e);
    RemainderSteps(t, e, p);
    r := Mod(m, p, e);
  }

  lemma RemainderSteps(t: Poly, e: Poly, p: Poly)
    requires 0 < |e| <= |t| && p == Strip(Eliminate(t, e))
    ensures Strip(if |p| < |e| then p else Remainder(p, e)) == Strip(Remainder(t, e))
  {
    hide Strip, Eliminate;
    RemainderStrip(Eliminate(t, e), e);
  }

  // The leading coefficient of t is cancelled, and with it other leading zeros.
  method Cancel(m: QRMath, t: Poly, e: Poly) returns (r: Result<Poly, MathError>)
    requires m.Valid() && 0 < |e| <= |t|
    ensures r.Ok? <==> t[0] != 0 && AllNonZero(e)
    ensures r.Ok? ==> r.value == Strip(Eliminate(t, e)) && |r.value| < |t|
  {
    hide Xor, Mul, XorAt, Exp, Divide, Strip, Eliminate;
    var lt :- m.Glog(t[0]);
    var l0 :- m.Glog(e[0]);
    var ratio := lt - l0;
    ghost var c := Divide(t[0], e[0]);
    var num := CopyOf(t);
    for i := 0 to |e|
      invariant forall k :: 0 <= k < i ==> num[k] == Xor(t[k], Mul(e[k], c))
      invariant forall k :: i <= k < |t| ==> num[k] == t[k]
      invariant forall k :: 0 <= k < i ==> e[k] != 0
    {
      var le :- m.Glog(e[i]);
      var g := m.Gexp(le + ratio);
      RatioOfLogs(e[i], t[0], e[0], le, lt, l0);
      num[i] := Xor(num[i], g);
    }
    ModStep(num[..], t, e);
    var p := Construct(num[..], 0);
    assert p == Strip(num[..]) == Strip(Eliminate(t, e));
    return Ok(p);
  }

  ghost function Generator(n: nat): (g: Poly)
    ensures |g| == n + 1
  {
    if n == 0 then [1] else Product(Generator(n - 1), [1, Exp(n - 1)])
  }

  method ErrorCorrectPolynomial(m: QRMath, n: nat) returns (r: Result<Poly, MathError>)
    requires m.Valid()
    ensures r.Ok? <==> n <= 255
    ensures r.Ok? ==> r.value == Generator(n)
  {
    hide Xtime, Xor, Product, XorAt;
    var a := Construct([1], 0);
    assert a == [1];
    for i := 0 to n
      invariant i <= 255 && a == Generator(i)
    {
      var g := m.Gexp(i);
      ExpMod(i);
      var b := Construct([1, g], 0);
      assert b == [1, Exp(i)];
      ExpNonZero(i);
      GeneratorNonZero(i);
      GeneratorMonic(i + 1);
      a :- Multiply(m, a, b);
    }
    return Ok(a);
  }

  // ---- steps of the loops ----

  lemma MultiplyStart(num: Poly, a: Poly, e: Poly)
    requires 0 < |a| && 0 < |e| && num == Zeros(|a| + |e| - 1)
    ensures XorAt(num, Product(a[0..], e), 0) == Product(a, e)
  {
    assert a[0..] == a;
    hide Product, Xor;
    var p := Product(a, e);
    forall k | 0 <= k < |p|
      ensures XorAt(num, p, 0)[k] == p[k]
    {
      XorLaws(p[k], 0, 0);
    }
  }

  lemma MultiplyEnd(num: Poly, a: Poly, e: Poly)
    requires 0 < |a| && 0 < |e| && |num| == |a| + |e| - 1
    ensures XorAt(num, Product(a[|a|..], e), |a|) == num
  {
    assert a[|a|..] == [];
    XorAtZeros(num, |e| - 1, |a|);
  }

  lemma MultiplyRow(row: Poly, a: Poly, e: Poly, i: nat)
    requires i < |a| && 0 < |e| && |row| == |a| + |e| - 1
    ensures XorAt(row, Product(a[i..], e), i)
         == XorAt(XorAt(row, Scale(e, a[i]), i), Product(a[i + 1..], e), i + 1)
  {
    hide Scale, XorAt;
    ProductStep(a, e, i);
    var rest, s := Product(a[i + 1..], e), Scale(e, a[i]);
    hide Product;
    RowSwap(row, rest, s, i);
  }

  lemma RowSwap(row: Poly, rest: Poly, s: Poly, i: nat)
    requires i + 1 + |rest| <= |row| && |s| <= 1 + |rest|
    ensures XorAt(row, XorAt([0] + rest, s, 0), i) == XorAt(XorAt(row, s, i), rest, i + 1)
  {
    hide XorAt;
    XorAtNested(row, [0] + rest, i, s, 0);
    XorAtSkipsZero(row, rest, i);
    XorAtCommutes(row, rest, i + 1, s, i);
  }

  lemma ProductStep(a: Poly, e: Poly, i: nat)
    requires i < |a| && 0 < |e|
    ensures Product(a[i..], e) == XorAt([0] + Product(a[i + 1..], e), Scale(e, a[i]), 0)
  {
    hide Scale, Xor, XorAt;
    assert a[i..][1..] == a[i + 1..];
  }

  lemma XorAtExtend(row: Poly, s: Poly, off: nat, j: nat)
    requires j < |s| && off + |s| <= |row|
    ensures XorAt(row, s[..j], off)[off + j] == row[off + j]
    ensures XorAt(row, s[..j + 1], off)
         == XorAt(row, s[..j], off)[off + j := Xor(row[off + j], s[j])]
  {
    hide Xor;
  }

  lemma ScaleAt(e: Poly, c: Byte, j: nat)
    requires j < |e|
    ensures Scale(e, c)[j] == Mul(e[j], c)
  {}

  lemma MultiplyCell(row: Poly, e: Poly, c: Byte, i: nat, j: nat)
    requires j < |e| && i + |e| <= |row|
    ensures XorAt(row, Scale(e, c)[..j], i)[i + j] == row[i + j]
    ensures XorAt(row, Scale(e, c)[..j + 1], i)
         == XorAt(row, Scale(e, c)[..j], i)[i + j := Xor(row[i + j], Mul(e[j], c))]
  {
    hide Xor, Mul;
    XorAtExtend(row, Scale(e, c), i, j);
    ScaleAt(e, c, j);
  }

  lemma ModStep(num: Poly, t: Poly, e: Poly)
    requires 0 < |e| <= |t| == |num| && e[0] != 0
    requires forall k :: 0 <= k < |e| ==> num[k] == Xor(t[k], Mul(e[k], Divide(t[0], e[0])))
    requires forall k :: |e| <= k < |t| ==> num[k] == t[k]
    ensures Strip(num) == Strip(Eliminate(t, e))
  {
    hide Strip, Xor, Mul, Divide;
    assert num == XorAt(t, Scale(e, Divide(t[0], e[0])), 0);
    EliminateClearsHead(t, e);
    StripStep(num);
    assert num[1..] == Eliminate(t, e);
  }

  lemma ProductOfLogs(a: Byte, b: Byte, la: nat, lb: nat)
    requires a == Exp(la) && b == Exp(lb)
    ensures Exp((lb + la) % 255) == Mul(a, b)
  {
    hide Exp, Mul;
    MulExp(la, lb);
    ExpMod(la + lb);
  }

  lemma RatioOfLogs(c: Byte, t: Byte, e: Byte, lc: nat, lt: nat, le: nat)
    requires lc < 255 && lt < 255 && le < 255
    requires c == Exp(lc) && t == Exp(lt) && e == Exp(le)
    ensures t != 0 && e != 0 && c != 0
    ensures Exp((lc + (lt - le)) % 255) == Mul(c, Divide(t, e))
  {
    hide Exp, Mul;
    ExpNonZero(lt); ExpNonZero(le); ExpNonZero(lc);
    ExpInjective(lt, Log(t)); ExpInjective(le, Log(e));
    var d := (lt - le) % 255;
    ProductOfLogs(c, Exp(d), lc, d);
    ModPlus(lt - le, lc);
  }

  // ---- the generator ----

  lemma {:induction false} GeneratorMonic(n: nat)
    ensures Generator(n)[0] == 1 && Strip(Generator(n)) == Generator(n)
  {
    hide Xor, Mul, Exp, Strip;
    if n > 0 {
      var g, f := Generator(n - 1), [1, Exp(n - 1)];
      GeneratorMonic(n - 1);
      MulOne(1);
      XorLaws(1, 0, 0);
      assert Product(g, f)[0] == Xor(0, Mul(1, 1));
    }
    StripStep(Generator(n));
  }

  lemma FactorAt(n: nat)
    ensures Eval([1, Exp(n)], n) == 0
  {
    hide Shift, Xor;
    var f := [1, Exp(n)];
    assert f[1..] == [Exp(n)] && f[1..][1..] == [];
    ShiftNone(Exp(n));
    assert Eval(f[1..], n) == Xor(Shift(Exp(n), n * 0), 0) == Exp(n) by {
      XorLaws(Exp(n), 0, 0);
    }
    XorLaws(Exp(n), 0, 0);
  }

  // The generator vanishes at alpha^0 .. alpha^(n-1).
  lemma {:induction false} GeneratorRoots(n: nat)
    ensures Vanishes(Generator(n), n)
  {
    hide Eval, Product;
    if n > 0 {
      var g, f := Generator(n - 1), [1, Exp(n - 1)];
      GeneratorRoots(n - 1);
      forall i | 0 <= i < n
        ensures Eval(Product(g, f), i) == 0
      {
        EvalProduct(g, f, i);
        FactorAt(n - 1);
        MulZero(Eval(g, i)); MulZero(Eval(f, i));
        assert i < n - 1 ==> Eval(g, i) == 0;
      }
      assert Generator(n) == Product(g, f);
    }
  }

  lemma {:induction false} WeightWithZero(p: Poly, k: nat)
    requires k < |p| && p[k] == 0
    ensures Weight(p) < |p|
  {
    if k > 0 {
      WeightWithZero(p[1..], k - 1);
    }
  }

  lemma GeneratorBelow255(n: nat)
    requires n < 255
    ensures AllNonZero(Generator(n))
  {
    hide Generator, Eval, Weight;
    var g := Generator(n);
    GeneratorRoots(n);
    GeneratorMonic(n);
    forall k | 0 <= k < |g|
      ensures g[k] != 0
    {
      if g[k] == 0 {
        WeightWithZero(g, k);
        FewCoefficientsManyRoots(g, n);
        assert false;
      }
    }
  }

  // Every coefficient is non-zero exactly up to degree 254, so glog never
  // throws while such a generator is built or used.
  lemma GeneratorNonZero(n: nat)
    requires n <= 255
    ensures AllNonZero(Generator(n)) <==> n < 255
  {
    hide Generator;
    if n < 255 {
      GeneratorBelow255(n);
    } else {
      Generator255(n);
      assert Generator(n)[1] == 0;
    }
  }

  // With all 255 non-zero elements as roots the generator is x^255 + 1.
  lemma Generator255(n: nat)
    requires n == 255
    ensures Generator(n) == [1] + Zeros(n - 1) + [1]
  {
    hide Generator, Xor, XorAt, Xtime;
    var g, b := Generator(n), [1] + Zeros(n - 1) + [1];
    GeneratorRoots(n);
    GeneratorMonic(n);
    var h := XorAt(g, b, 0);
    forall k | 0 <= k <= n
      ensures h[k] == Xor(g[k], b[k])
    {
      XorAtSame(g, b, k);
    }
    XorLaws(1, 1, 0);
    forall i | 0 <= i < n
      ensures Eval(h[1..], i) == 0
    {
      hide Times, Shift;
      EvalXorAt(g, b, 0, i);
      EvalBinomial(n, i);
      ShiftZero(Times(i, 0)); ShiftZero(Times(i, n));
      XorLaws(0, 0, 0);
      assert Eval(g, i) == 0;
      assert Eval(h, i) == 0;
      XorLaws(Eval(h[1..], i), 0, 0);
    }
    FewCoefficientsManyRoots(h[1..], n);
    forall k | 0 <= k <= n
      ensures g[k] == b[k]
    {
      assert h[k] == 0 by {
        assert k > 0 ==> h[k] == h[1..][k - 1];
      }
      XorZero(g[k], b[k]);
    }
  }

  lemma XorAtSame(p: Poly, s: Poly, k: nat)
    requires |p| == |s| && k < |p|
    ensures XorAt(p, s, 0)[k] == Xor(p[k], s[k])
  {}

  lemma EvalBinomial(n: nat, i: nat)
    requires n == 255
    ensures Eval([1] + Zeros(n - 1) + [1], i) == 0
  {
    hide Xor, Shift;
    var b, one := [1] + Zeros(n - 1) + [1], [1];
    XorLaws(1, 1, 0);
    assert b[1..] == XorAt(Zeros(n), one, n - 1);
    EvalXorAt(Zeros(n), one, n - 1, i);
    EvalZeros(n, i);
    assert one[1..] == [];
    ShiftNone(1);
    assert Eval(one, i) == 1;
    Exp255();
    PeriodMultiple(n, i);
    assert Times(i, n) == n * i;
  }
}
