// Polynomials over GF(256), highest power first, and the two facts about them
// on which Reed-Solomon coding rests: division with remainder, and the bound on
// the number of non-zero coefficients of a polynomial with consecutive roots.
module Polynomials {
  import opened Binary
  import opened Gf256

  type Poly = seq<Byte>

  function Zeros(n: nat): (z: Poly)
    ensures |z| == n && forall k :: 0 <= k < n ==> z[k] == 0
  {
    seq(n, _ => 0 as Byte)
  }

  ghost predicate AllNonZero(p: Poly) {
    forall k :: 0 <= k < |p| ==> p[k] != 0
  }

  // p with s added in from position off onwards.
  function XorAt(p: Poly, s: Poly, off: nat): (r: Poly)
    requires off + |s| <= |p|
    ensures |r| == |p|
  {
    seq(|p|, k requires 0 <= k < |p| => if off <= k < off + |s| then Xor(p[k], s[k - off]) else p[k])
  }

  ghost function Scale(p: Poly, c: Byte): (r: Poly)
    ensures |r| == |p|
  {
    seq(|p|, k requires 0 <= k < |p| => Mul(p[k], c))
  }

  // The product of a and b.
  ghost function Product(a: Poly, b: Poly): (r: Poly)
    requires 0 < |b|
    ensures |r| == |a| + |b| - 1
  {
    if a == [] then Zeros(|b| - 1)
    else XorAt([0] + Product(a[1..], b), Scale(b, a[0]), 0)
  }

  function Times(i: nat, n: nat): nat {
    i * n
  }

  // The value of p at alpha^i.
  function Eval(p: Poly, i: nat): Byte {
    if p == [] then 0 else Xor(Shift(p[0], Times(i, |p| - 1)), Eval(p[1..], i))
  }

  ghost function Divide(a: Byte, b: Byte): Byte {
    if a == 0 || b == 0 then 0 else Exp((Log(a) - Log(b)) % 255)
  }

  // Long division by e: one quotient coefficient per step.
  ghost function Eliminate(t: Poly, e: Poly): (r: Poly)
    requires 0 < |e| <= |t|
    ensures |r| == |t| - 1
  {
    XorAt(t, Scale(e, Divide(t[0], e[0])), 0)[1..]
  }

  ghost function Remainder(t: Poly, e: Poly): (r: Poly)
    requires 0 < |e|
    ensures |r| == if |t| < |e| then |t| else |e| - 1
    decreases |t|
  {
    if |t| < |e| then t else Remainder(Eliminate(t, e), e)
  }

  ghost function Quotient(t: Poly, e: Poly): (q: Poly)
    requires 0 < |e|
    ensures |q| == if |t| < |e| then 0 else |t| - |e| + 1
    decreases |t|
  {
    if |t| < |e| then [] else [Divide(t[0], e[0])] + Quotient(Eliminate(t, e), e)
  }

  // ---- adding in ----

  lemma XorAtCommutes(p: Poly, s: Poly, a: nat, u: Poly, b: nat)
    requires a + |s| <= |p| && b + |u| <= |p|
    ensures XorAt(XorAt(p, s, a), u, b) == XorAt(XorAt(p, u, b), s, a)
  {
    hide Xor;
    forall k | 0 <= k < |p|
      ensures XorAt(XorAt(p, s, a), u, b)[k] == XorAt(XorAt(p, u, b), s, a)[k]
    {
      if a <= k < a + |s| && b <= k < b + |u| {
        XorLaws(p[k], s[k - a], u[k - b]);
        XorLaws(p[k], u[k - b], s[k - a]);
        XorLaws(s[k - a], u[k - b], 0);
      }
    }
  }

  lemma XorAtTwice(p: Poly, s: Poly, a: nat)
    requires a + |s| <= |p|
    ensures XorAt(XorAt(p, s, a), s, a) == p
  {
    hide Xor;
    forall k | 0 <= k < |p|
      ensures XorAt(XorAt(p, s, a), s, a)[k] == p[k]
    {
      if a <= k < a + |s| {
        XorLaws(p[k], s[k - a], s[k - a]);
        XorLaws(s[k - a], 0, 0);
        XorLaws(p[k], 0, 0);
      }
    }
  }

  lemma XorAtZeros(p: Poly, n: nat, a: nat)
    requires a + n <= |p|
    ensures XorAt(p, Zeros(n), a) == p
  {
    hide Xor;
    forall k | 0 <= k < |p|
      ensures XorAt(p, Zeros(n), a)[k] == p[k]
    {
      XorLaws(p[k], 0, 0);
    }
  }

  // Adding in a sum is adding in both terms.
  lemma XorAtNested(p: Poly, s: Poly, a: nat, u: Poly, b: nat)
    requires a + |s| <= |p| && b + |u| <= |s|
    ensures XorAt(p, XorAt(s, u, b), a) == XorAt(XorAt(p, s, a), u, a + b)
  {
    hide Xor;
    forall k | 0 <= k < |p|
      ensures XorAt(p, XorAt(s, u, b), a)[k] == XorAt(XorAt(p, s, a), u, a + b)[k]
    {
      if a + b <= k < a + b + |u| {
        XorLaws(p[k], s[k - a], u[k - a - b]);
      }
    }
  }

  lemma XorAtSkipsZero(p: Poly, s: Poly, a: nat)
    requires a + 1 + |s| <= |p|
    ensures XorAt(p, [0] + s, a) == XorAt(p, s, a + 1)
  {
    hide Xor;
    forall k | 0 <= k < |p|
      ensures XorAt(p, [0] + s, a)[k] == XorAt(p, s, a + 1)[k]
    {
      XorLaws(p[k], 0, 0);
    }
  }

  // ---- evaluation ----

  lemma ShiftOfShift(b: Byte, m: nat, n: nat, k: nat)
    requires k == m + n
    ensures Shift(Shift(b, m), n) == Shift(b, k)
  {
    ShiftAdd(b, m, n);
  }

  lemma ShiftMul(a: Byte, c: Byte, n: nat)
    ensures Shift(Mul(a, c), n) == Mul(Shift(a, n), c)
  {
    hide Shift;
    if c == 0 {
      ShiftZero(n);
    } else {
      ShiftAdd(a, Log(c), n);
      ShiftAdd(a, n, Log(c));
    }
  }

  lemma XorAtTail(p: Poly, s: Poly, off: nat)
    requires off + |s| <= |p|
    ensures s == [] ==> XorAt(p, s, off) == p
    ensures p != [] && off > 0 ==> XorAt(p, s, off) == [p[0]] + XorAt(p[1..], s, off - 1)
    ensures s != [] && off == 0 ==> XorAt(p, s, off) == [Xor(p[0], s[0])] + XorAt(p[1..], s[1..], 0)
  {
    hide Xor;
  }

  lemma {:induction false} EvalXorAt(p: Poly, s: Poly, off: nat, i: nat)
    requires off + |s| <= |p|
    ensures Eval(XorAt(p, s, off), i) == Xor(Eval(p, i), Shift(Eval(s, i), Times(i, |p| - off - |s|)))
    decreases |p|
  {
    hide Times, Xor, Shift;
    hide XorAt;
    var n := |p| - off - |s|;
    XorAtTail(p, s, off);
    if p == [] {
      ShiftZero(Times(i, n));
      XorLaws(0, 0, 0);
    } else if off > 0 {
      EvalXorAt(p[1..], s, off - 1, i);
      XorLaws(Shift(p[0], Times(i, |p| - 1)), Eval(p[1..], i), Shift(Eval(s, i), Times(i, n)));
    } else if s == [] {
      ShiftZero(Times(i, n));
      XorLaws(Eval(p, i), 0, 0);
    } else {
      EvalXorAt(p[1..], s[1..], 0, i);
      TimesDiff(i, |p| - 1, |s| - 1);
      EvalHeads(p[0], s[0], Eval(p[1..], i), Eval(s[1..], i), Times(i, |s| - 1), Times(i, n));
    }
  }

  lemma TimesNext(i: nat, n: nat)
    ensures Times(i + 1, n) == Times(i, n) + n
  {}

  lemma TimesDiff(i: nat, m: nat, n: nat)
    requires n <= m
    ensures Times(i, m) == Times(i, n) + Times(i, m - n)
  {}

  lemma EvalHeads(a: Byte, b: Byte, x: Byte, y: Byte, k: nat, d: nat)
    ensures Xor(Shift(Xor(a, b), k + d), Xor(x, Shift(y, d)))
         == Xor(Xor(Shift(a, k + d), x), Shift(Xor(Shift(b, k), y), d))
  {
    hide Xor, Shift;
    ShiftAdd(b, k, d);
    ShiftLinear(a, b, k + d);
    ShiftLinear(Shift(b, k), y, d);
    XorSwap(Shift(a, k + d), Shift(b, k + d), x, Shift(y, d));
  }

  lemma {:induction false} EvalScale(p: Poly, c: Byte, i: nat)
    ensures Eval(Scale(p, c), i) == Mul(Eval(p, i), c)
  {
    hide Times, Xor, Shift, Mul;
    if p == [] {
      MulZero(c);
    } else {
      var m := Times(i, |p| - 1);
      assert Scale(p, c)[1..] == Scale(p[1..], c);
      EvalScale(p[1..], c, i);
      ShiftMul(p[0], c, m);
      MulDistributes(Shift(p[0], m), Eval(p[1..], i), c);
    }
  }

  lemma {:induction false} EvalZeros(n: nat, i: nat)
    ensures Eval(Zeros(n), i) == 0
  {
    hide Times, Xor, Shift;
    if n > 0 {
      assert Zeros(n)[1..] == Zeros(n - 1);
      EvalZeros(n - 1, i);
      ShiftZero(Times(i, n - 1));
      XorLaws(0, 0, 0);
    }
  }

  lemma {:induction false} EvalProduct(a: Poly, b: Poly, i: nat)
    requires 0 < |b|
    ensures Eval(Product(a, b), i) == Mul(Eval(a, i), Eval(b, i))
    decreases |a|
  {
    hide Times, Xor, Shift, Mul;
    if a == [] {
      EvalZeros(|b| - 1, i);
      MulZero(Eval(b, i));
    } else {
      var rest := Product(a[1..], b);
      var m := Times(i, |a| - 1);
      EvalProduct(a[1..], b, i);
      EvalXorAt([0] + rest, Scale(b, a[0]), 0, i);
      EvalScale(b, a[0], i);
      assert ([0] + rest)[1..] == rest;
      ShiftZero(Times(i, |rest|));
      XorLaws(Eval(rest, i), 0, 0);
      MulCommutes(Eval(b, i), a[0]);
      ShiftMul(a[0], Eval(b, i), m);
      MulDistributes(Shift(a[0], m), Eval(a[1..], i), Eval(b, i));
      XorLaws(Eval(rest, i), Mul(Shift(a[0], m), Eval(b, i)), 0);
    }
  }

  // ---- division ----

  lemma ModPlus(m: int, n: nat)
    ensures (n + m % 255) % 255 == (n + m) % 255
  {}

  lemma DivideMul(a: Byte, b: Byte)
    requires b != 0
    ensures Mul(b, Divide(a, b)) == a
  {
    hide Mul, Exp;
    if a == 0 {
      MulZero(b);
    } else {
      var d := (Log(a) - Log(b)) % 255;
      MulExp(Log(b), d);
      ExpMod(Log(b) + d);
      ModPlus(Log(a) - Log(b), Log(b));
    }
  }

  lemma EliminateClearsHead(t: Poly, e: Poly)
    requires 0 < |e| <= |t| && e[0] != 0
    ensures XorAt(t, Scale(e, Divide(t[0], e[0])), 0) == [0] + Eliminate(t, e)
  {
    DivideMul(t[0], e[0]);
    XorLaws(t[0], t[0], 0);
  }

  // t plus its remainder, right-aligned, is a multiple of e.
  lemma {:induction false} DivisionIdentity(t: Poly, e: Poly)
    requires 0 < |e| <= |t| + 1 && e[0] != 0
    ensures XorAt(t, Remainder(t, e), |t| - |Remainder(t, e)|) == Product(Quotient(t, e), e)
    decreases |t|
  {
    hide Xor, Mul, Divide, XorAt, Scale, Eliminate;
    if |t| < |e| {
      XorAtItself(t);
    } else {
      var s := Scale(e, Divide(t[0], e[0]));
      var u, r := Eliminate(t, e), Remainder(t, e);
      DivisionIdentity(u, e);
      EliminateClearsHead(t, e);
      assert Quotient(t, e)[1..] == Quotient(u, e);
      DivisionStep(t, s, u, r);
    }
  }

  lemma XorAtItself(t: Poly)
    ensures XorAt(t, t, 0) == Zeros(|t|)
  {
    forall k | 0 <= k < |t|
      ensures XorAt(t, t, 0)[k] == Zeros(|t|)[k]
    {
      XorLaws(t[k], t[k], 0);
    }
  }

  lemma DivisionStep(t: Poly, s: Poly, u: Poly, r: Poly)
    requires |t| == |u| + 1 && |s| <= |t| && |r| <= |u|
    requires XorAt(t, s, 0) == [0] + u
    ensures XorAt([0] + XorAt(u, r, |u| - |r|), s, 0) == XorAt(t, r, |t| - |r|)
  {
    hide Xor;
    assert [0] + XorAt(u, r, |u| - |r|) == XorAt([0] + u, r, |t| - |r|);
    hide XorAt;
    XorAtCommutes([0] + u, r, |t| - |r|, s, 0);
    XorAtTwice(t, s, 0);
  }

  // ---- leading zeros ----

  function Strip(p: Poly): (r: Poly)
    ensures |r| <= |p| && (r == [] || r[0] != 0)
    ensures p == Zeros(|p| - |r|) + r
  {
    if p != [] && p[0] == 0 then Strip(p[1..]) else p
  }

  lemma StripStep(p: Poly)
    ensures p != [] && p[0] == 0 ==> Strip(p) == Strip(p[1..])
    ensures p == [] || p[0] != 0 ==> Strip(p) == p
  {}

  lemma EliminateZeroHead(t: Poly, e: Poly)
    requires 0 < |e| <= |t| && t[0] == 0
    ensures Eliminate(t, e) == t[1..]
  {
    hide Xor;
    forall k | 0 <= k < |t| - 1
      ensures Eliminate(t, e)[k] == t[1..][k]
    {
      MulZero(if k + 1 < |e| then e[k + 1] else 0);
      XorLaws(t[k + 1], 0, 0);
    }
  }

  // Leading zeros do not change a remainder, except for its own leading zeros.
  lemma {:induction false} RemainderStrip(t: Poly, e: Poly)
    requires 0 < |e|
    ensures Strip(Remainder(Strip(t), e)) == Strip(Remainder(t, e))
    decreases |t|
  {
    hide Eliminate;
    if t != [] && t[0] == 0 {
      RemainderStrip(t[1..], e);
      if |t| >= |e| {
        EliminateZeroHead(t, e);
      } else {
        assert Strip(t) == Strip(t[1..]);
        assert Remainder(t, e) == t && Remainder(t[1..], e) == t[1..];
      }
    }
  }

  // ---- few non-zero coefficients, many consecutive roots ----

  function Weight(p: Poly): (w: nat)
    ensures w <= |p|
  {
    if p == [] then 0 else (if p[0] == 0 then 0 else 1) + Weight(p[1..])
  }

  ghost predicate Vanishes(p: Poly, d: nat) {
    forall i :: 0 <= i < d ==> Eval(p, i) == 0
  }

  // The combination p(alpha x) + alpha^e p(x), which removes the power x^e.
  function Differ(p: Poly, e: nat): (r: Poly)
    ensures |r| == |p|
  {
    if p == [] then []
    else [Xor(Shift(p[0], |p| - 1), Shift(p[0], e))] + Differ(p[1..], e)
  }

  lemma {:induction false} EvalDiffer(p: Poly, e: nat, i: nat)
    ensures Eval(Differ(p, e), i) == Xor(Eval(p, i + 1), Shift(Eval(p, i), e))
  {
    hide Times, Xor, Shift;
    if p == [] {
      ShiftZero(e);
      XorLaws(0, 0, 0);
    } else {
      var m := Times(i, |p| - 1);
      assert Differ(p, e)[1..] == Differ(p[1..], e);
      EvalDiffer(p[1..], e, i);
      TimesNext(i, |p| - 1);
      ShiftLinear(Shift(p[0], |p| - 1), Shift(p[0], e), m);
      ShiftOfShift(p[0], |p| - 1, m, Times(i + 1, |p| - 1));
      ShiftOfShift(p[0], e, m, e + m);
      ShiftOfShift(p[0], m, e, e + m);
      ShiftLinear(Shift(p[0], m), Eval(p[1..], i), e);
      XorSwap(Shift(p[0], Times(i + 1, |p| - 1)), Shift(p[0], e + m),
              Eval(p[1..], i + 1), Shift(Eval(p[1..], i), e));
    }
  }

  lemma DifferentShifts(b: Byte, m: nat, n: nat)
    requires m < 255 && n < 255 && m != n && b != 0
    ensures Shift(b, m) != Shift(b, n)
  {
    hide Shift;
    var k := Log(b);
    ExpAdd(k, m); ExpAdd(k, n);
    if Shift(b, m) == Shift(b, n) {
      ShiftAdd(1, m, k); ShiftAdd(1, n, k);
      ShiftInjective(Exp(m), Exp(n), k);
      ExpInjective(m, n);
    }
  }

  lemma {:induction false} WeightDiffer(p: Poly, e: nat)
    requires |p| <= e < 255
    ensures Weight(Differ(p, e)) == Weight(p)
    ensures Differ(p, e) == Zeros(|p|) ==> p == Zeros(|p|)
  {
    hide Shift, Xor;
    if p != [] {
      var x, y := Shift(p[0], |p| - 1), Shift(p[0], e);
      assert Differ(p, e)[1..] == Differ(p[1..], e);
      WeightDiffer(p[1..], e);
      XorZero(x, y);
      if p[0] == 0 {
        ShiftZero(|p| - 1);
        ShiftZero(e);
      } else {
        DifferentShifts(p[0], |p| - 1, e);
      }
      if Differ(p, e) == Zeros(|p|) {
        assert Differ(p, e)[0] == 0;
        assert Differ(p[1..], e) == Zeros(|p| - 1);
        assert p == [0] + p[1..] && p[1..] == Zeros(|p| - 1);
      }
    }
  }

  // A polynomial of length at most 255 with d consecutive roots alpha^0 ..
  // alpha^(d-1) and at most d non-zero coefficients is zero.
  lemma {:induction false} FewCoefficientsManyRoots(p: Poly, d: nat)
    requires |p| <= 255 && Weight(p) <= d && Vanishes(p, d)
    ensures p == Zeros(|p|)
    decreases |p|
  {
    hide Xtime, Xor;
    if p != [] {
      var tail, e := p[1..], |p| - 1;
      if p[0] == 0 {
        forall i | 0 <= i < d
          ensures Eval(tail, i) == 0
        {
          assert Eval(p, i) == 0;
          ShiftZero(Times(i, e));
          XorLaws(Eval(tail, i), 0, 0);
        }
        FewCoefficientsManyRoots(tail, d);
      } else {
        forall i | 0 <= i < d - 1
          ensures Eval(Differ(tail, e), i) == 0
        {
          RemovedPower(p, i);
        }
        EvalZeros(e, 0);
        XorLaws(p[0], 0, 0);
        assert Eval(p, 0) == Xor(p[0], Eval(tail, 0)) == 0;
        WeightDiffer(tail, e);
        FewCoefficientsManyRoots(Differ(tail, e), d - 1);
        assert false;
      }
      assert p == [0] + tail;
    }
  }

  lemma RemovedPower(p: Poly, i: nat)
    requires p != [] && Eval(p, i) == 0 && Eval(p, i + 1) == 0
    ensures Eval(Differ(p[1..], |p| - 1), i) == 0
  {
    hide Times, Xor, Shift;
    var tail, e := p[1..], |p| - 1;
    EvalDiffer(tail, e, i);
    XorZero(Shift(p[0], Times(i, e)), Eval(tail, i));
    XorZero(Shift(p[0], Times(i + 1, e)), Eval(tail, i + 1));
    TimesNext(i, e);
    ShiftOfShift(p[0], Times(i, e), e, Times(i + 1, e));
    XorLaws(Eval(tail, i + 1), 0, 0);
  }
}
