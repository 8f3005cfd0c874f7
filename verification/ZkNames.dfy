// Names of sequential nodes and how Collections.sort orders them.
module ZkNames {
  // String.compareTo < 0
  predicate Less(s: string, t: string) {
    if t == "" then false
    else if s == "" then true
    else s[0] < t[0] || (s[0] == t[0] && Less(s[1..], t[1..]))
  }

  function Pow10(n: nat): (p: nat)
    ensures p > 0
  {
    if n == 0 then 1 else 10 * Pow10(n - 1)
  }

  function Digit(d: nat): char
    requires d < 10
  {
    "0123456789"[d]
  }

  // The last len decimal digits of n.
  function Pad(n: nat, len: nat): (s: string)
    ensures |s| == len
  {
    if len == 0 then "" else Pad(n / 10, len - 1) + [Digit(n % 10)]
  }

  // A child of the lock directory: the lock's name and ZooKeeper's sequence number.
  datatype Node = Node(name: string, number: nat)

  // Sequence numbers are Java ints, written with ten digits.
  const MAX_NUMBER: nat := 0x7FFF_FFFF

  function Path(n: Node): string {
    n.name + Pad(n.number, 10)
  }

  predicate Before(m: Node, n: Node) {
    Less(Path(m), Path(n))
  }

  lemma {:induction false} LessIrreflexive(s: string)
    ensures !Less(s, s)
  {
    if s != "" {
      LessIrreflexive(s[1..]);
    }
  }

  lemma {:induction false} LessTransitive(s: string, t: string, u: string)
    requires Less(s, t) && Less(t, u)
    ensures Less(s, u)
  {
    if s != "" && s[0] == t[0] == u[0] {
      LessTransitive(s[1..], t[1..], u[1..]);
    }
  }

  lemma {:induction false} LessTotal(s: string, t: string)
    ensures s == t || Less(s, t) || Less(t, s)
  {
    if s != "" && t != "" {
      LessTotal(s[1..], t[1..]);
      assert s == [s[0]] + s[1..] && t == [t[0]] + t[1..];
    }
  }

  lemma {:induction false} LessSuffix(p: string, s: string, t: string)
    ensures Less(p + s, p + t) <==> Less(s, t)
  {
    if p == "" {
      assert p + s == s && p + t == t;
    } else {
      assert (p + s)[1..] == p[1..] + s && (p + t)[1..] == p[1..] + t;
      LessSuffix(p[1..], s, t);
    }
  }

  lemma {:induction false} LessPrefix(s: string, t: string, u: string, v: string)
    requires |s| == |t| && Less(s, t)
    ensures Less(s + u, t + v)
  {
    assert (s + u)[1..] == s[1..] + u && (t + v)[1..] == t[1..] + v;
    if s[0] == t[0] {
      LessPrefix(s[1..], t[1..], u, v);
    }
  }

  lemma DigitOrder(c: nat, d: nat)
    requires c < d < 10
    ensures Digit(c) < Digit(d)
  {}

  lemma {:induction false} PadOrder(a: nat, b: nat, len: nat)
    requires a < b < Pow10(len)
    ensures Less(Pad(a, len), Pad(b, len))
  {
    hide Less;
    if a / 10 < b / 10 {
      PadOrder(a / 10, b / 10, len - 1);
      LessPrefix(Pad(a / 10, len - 1), Pad(b / 10, len - 1), [Digit(a % 10)], [Digit(b % 10)]);
    } else {
      LessSuffix(Pad(a / 10, len - 1), [Digit(a % 10)], [Digit(b % 10)]);
      OneChar(a % 10, b % 10);
    }
  }

  lemma OneChar(c: nat, d: nat)
    requires c < d < 10
    ensures Less([Digit(c)], [Digit(d)])
  {
    hide Digit;
    DigitOrder(c, d);
  }

  lemma TenDigits()
    ensures MAX_NUMBER < Pow10(10)
  {
    assert Pow10(3) == 1000 && Pow10(6) == 1000000;
  }

  // Nodes of one lock sort by their numbers, whatever other names are around.
  lemma SameNameOrder(m: Node, n: Node)
    requires m.name == n.name && m.number <= MAX_NUMBER && n.number <= MAX_NUMBER
    ensures Before(m, n) <==> m.number < n.number
  {
    hide Pad, Less;
    TenDigits();
    LessIrreflexive(Path(m));
    if m.number < n.number {
      PadOrder(m.number, n.number, 10);
      LessSuffix(m.name, Pad(m.number, 10), Pad(n.number, 10));
    } else if n.number < m.number {
      PadOrder(n.number, m.number, 10);
      LessSuffix(m.name, Pad(n.number, 10), Pad(m.number, 10));
      if Before(m, n) {
        LessTransitive(Path(m), Path(n), Path(m));
      }
    }
  }

  lemma {:induction false} PadInjective(a: nat, b: nat, len: nat)
    requires a < Pow10(len) && b < Pow10(len) && Pad(a, len) == Pad(b, len)
    ensures a == b
  {
    if a < b {
      PadOrder(a, b, len);
      LessIrreflexive(Pad(a, len));
    } else if b < a {
      PadOrder(b, a, len);
      LessIrreflexive(Pad(a, len));
    }
  }

  // Different nodes have different paths.
  lemma PathInjective(m: Node, n: Node)
    requires m.number <= MAX_NUMBER && n.number <= MAX_NUMBER && Path(m) == Path(n)
    ensures m == n
  {
    hide Pad;
    TenDigits();
    var k := |m.name|;
    assert |Path(m)| == k + 10 && |Path(n)| == |n.name| + 10;
    assert m.name == Path(m)[..k] && n.name == Path(n)[..k];
    assert Pad(m.number, 10) == Path(m)[k..] && Pad(n.number, 10) == Path(n)[k..];
    PadInjective(m.number, n.number, 10);
  }

  lemma BeforeTotal(m: Node, n: Node)
    requires m.number <= MAX_NUMBER && n.number <= MAX_NUMBER
    ensures m == n || Before(m, n) || Before(n, m)
    ensures !Before(m, m)
  {
    hide Path, Less;
    LessTotal(Path(m), Path(n));
    LessIrreflexive(Path(m));
    if Path(m) == Path(n) {
      PathInjective(m, n);
    }
  }

  lemma BeforeTransitive(m: Node, n: Node, o: Node)
    requires Before(m, n) && Before(n, o)
    ensures Before(m, o)
  {
    hide Path, Less;
    LessTransitive(Path(m), Path(n), Path(o));
  }
}
