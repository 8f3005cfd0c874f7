// QRMath: the exponential and logarithm tables of the QR encoder.
module QrMath {
  import opened Binary
  import opened Gf256
  import opened Results

  datatype MathError = GlogOfZero | InvalidArrayLength

  // The first powers of alpha, bit by bit.
  lemma FirstPowers()
    ensures Bits(Exp(0)) == 1 && Bits(Exp(1)) == 2 && Bits(Exp(2)) == 4 && Bits(Exp(3)) == 8
    ensures Bits(Exp(4)) == 16 && Bits(Exp(5)) == 32 && Bits(Exp(6)) == 64 && Bits(Exp(7)) == 128
    ensures Bits(Exp(8)) == 0x1D
  {
    hide Exp, Shift, Xtime, Bits;
    ExpZero();
    NextPower(0, 1, 2); NextPower(1, 2, 4); NextPower(2, 4, 8); NextPower(3, 8, 16);
    NextPower(4, 16, 32); NextPower(5, 32, 64); NextPower(6, 64, 128); NextPower(7, 128, 0x1D);
  }

  lemma AlphaToTheEighth()
    ensures Exp(8) == Xor(Xor(Xor(Exp(4), Exp(3)), Exp(2)), 1)
  {
    assert Bits(1) == 1;
    hide Exp, Xor, Bits;
    FirstPowers();
    var x := Xor(Xor(Exp(4), Exp(3)), Exp(2));
    XorBits(Exp(4), Exp(3));
    XorBits(Xor(Exp(4), Exp(3)), Exp(2));
    XorBits(x, 1);
    SameBits(Exp(8), Xor(x, 1));
  }

  lemma ShiftLinear4(a: Byte, b: Byte, c: Byte, d: Byte, n: nat)
    ensures Shift(Xor(Xor(Xor(a, b), c), d), n)
         == Xor(Xor(Xor(Shift(a, n), Shift(b, n)), Shift(c, n)), Shift(d, n))
  {
    hide Shift, Xor;
    ShiftLinear(Xor(Xor(a, b), c), d, n);
    ShiftLinear(Xor(a, b), c, n);
    ShiftLinear(a, b, n);
  }

  // The eight-step recurrence by which the table is filled: alpha^8 = alpha^4 + alpha^3 + alpha^2 + 1.
  lemma ExpRecurrence(i: nat)
    requires i >= 8
    ensures Exp(i) == Xor(Xor(Xor(Exp(i - 4), Exp(i - 5)), Exp(i - 6)), Exp(i - 8))
  {
    AlphaToTheEighth();
    hide Shift, Xor;
    ShiftLinear4(Shift(1, 4), Shift(1, 3), Shift(1, 2), 1, i - 8);
    ShiftAdd(1, 8, i - 8);
    ShiftAdd(1, 4, i - 8);
    ShiftAdd(1, 3, i - 8);
    ShiftAdd(1, 2, i - 8);
  }

  method FillExpTable() returns (table: array<Byte>)
    ensures fresh(table) && table.Length == 256
    ensures forall k :: 0 <= k < 256 ==> table[k] == Exp(k)
  {
    hide Exp, Xor;
    table := new Byte[256];
    for i := 0 to 8
      invariant forall k :: 0 <= k < i ==> table[k] == Exp(k)
    {
      OneShifted(i);
      table[i] := Pow2(i);
    }
    for i := 8 to 256
      invariant forall k :: 0 <= k < i ==> table[k] == Exp(k)
    {
      ExpRecurrence(i);
      table[i] := Xor(Xor(Xor(table[i - 4], table[i - 5]), table[i - 6]), table[i - 8]);
    }
  }

  method FillLogTable(expTable: array<Byte>) returns (table: array<int>)
    requires expTable.Length == 256
    requires forall k :: 0 <= k < 256 ==> expTable[k] == Exp(k)
    ensures fresh(table) && table.Length == 256
    ensures forall k :: 0 <= k < 255 ==> table[expTable[k]] == k
  {
    hide Exp;
    table := new int[256];
    for i := 0 to 255
      invariant forall k :: 0 <= k < i ==> table[expTable[k]] == k
    {
      forall k | 0 <= k < i
        ensures expTable[k] != expTable[i]
      {
        if Exp(k) == Exp(i) {
          ExpInjective(k, i);
        }
      }
      table[expTable[i]] := i;
    }
  }

  class QRMath {
    const expTable: array<Byte>
    const logTable: array<int>

    ghost predicate Valid()
      reads expTable, logTable
    {
      && expTable.Length == 256 && logTable.Length == 256
      && (forall i :: 0 <= i < 256 ==> expTable[i] == Exp(i))
      && (forall i :: 0 <= i < 255 ==> logTable[expTable[i]] == i)
    }

    constructor ()
      ensures Valid() && fresh(expTable) && fresh(logTable)
    {
      var exps := FillExpTable();
      var logs := FillLogTable(exps);
      expTable := exps;
      logTable := logs;
    }

    // glog throws below 1; otherwise it is the inverse of the powers of alpha.
    method Glog(n: Byte) returns (r: Result<int, MathError>)
      requires Valid()
      ensures r.Err? <==> n == 0
      ensures r.Ok? ==> 0 <= r.value < 255 && Exp(r.value) == n
    {
      if n < 1 {
        return Err(GlogOfZero);
      }
      LogExists(n);
      ghost var i :| 0 <= i < 255 && Exp(i) == n;
      assert logTable[expTable[i]] == i;
      return Ok(logTable[n]);
    }

    // gexp accepts any integer, negative ones included.
    method Gexp(n: int) returns (r: Byte)
      requires Valid()
      ensures r == Exp(n % 255)
    {
      var k := n;
      while k < 0
        invariant k < 255 || k <= n
        invariant k % 255 == n % 255
      {
        k := k + 255;
      }
      while k >= 256
        invariant k >= 0 && k % 255 == n % 255
      {
        k := k - 255;
      }
      ExpMod(k);
      return expTable[k];
    }
  }

  lemma OneShifted(i: nat)
    requires i < 8
    ensures Exp(i) == Pow2(i) < 256
  {
    hide Exp, Bits, OfBits;
    FirstPowers();
    OneBitBytes();
    assert Pow2(3) == 8 && Pow2(5) == 32 && Pow2(7) == 128;
    OfBitsBits(Exp(i));
    assert i == 0 || i == 1 || i == 2 || i == 3 || i == 4 || i == 5 || i == 6 || i == 7;
  }
}
