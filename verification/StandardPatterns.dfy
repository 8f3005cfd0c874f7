// The function patterns of the finished symbol, compared with the standard's drawings
// (ISO/IEC 18004:2015, sections 6.3.3 to 6.3.6).
module StandardPatterns {
  import opened Binary
  import opened Capacity
  import opened Patterns
  import opened Placement
  import opened PositionTable
  import opened QrReader
  import opened QrSymbol
  import opened Results
  import Bch

  // A quarter of each pattern, from its centre outwards; a finder has its light separator.
  const FINDER := ["##.#.",
                   "##.#.",
                   "...#.",
                   "####.",
                   "....."]

  const ALIGNMENT := ["#.#",
                      "..#",
                      "###"]

  predicate Dark(quarter: seq<string>, dr: nat, dc: nat) {
    dr < |quarter| && dc < |quarter[dr]| && quarter[dr][dc] == '#'
  }

  lemma FinderDrawing(r: int, c: int, r0: int, c0: int)
    requires Ring(r, c, r0, c0) <= 4
    ensures Finder(r, c, r0, c0) <==> Dark(FINDER, Abs(r - r0), Abs(c - c0))
  {}

  lemma AlignmentDrawing(r: int, c: int, r0: int, c0: int)
    requires Ring(r, c, r0, c0) <= 2
    ensures Ring(r, c, r0, c0) != 1 <==> Dark(ALIGNMENT, Abs(r - r0), Abs(c - c0))
  {}

  predicate IsCorner(n: nat, r0: int, c0: int) {
    (r0 == 3 && c0 == 3) || (r0 == n - 4 && c0 == 3) || (r0 == 3 && c0 == n - 4)
  }

  lemma ProbeDrawing(n: nat, r: int, c: int, r0: int, c0: int)
    requires n >= 21 && IsCorner(n, r0, c0) && Ring(r, c, r0, c0) <= 4
    ensures Probe(n, r, c) == Some(Dark(FINDER, Abs(r - r0), Abs(c - c0)))
  {
    hide Dark;
    FinderDrawing(r, c, r0, c0);
  }

  // No alignment pattern reaches into a finder pattern.
  lemma FinderFirst(version: nat, r: int, c: int)
    requires 1 <= version <= 40
    ensures Probe(Size(version), r, c) != None ==>
      Align(Size(version), PatternPosition(version), r, c) == Probe(Size(version), r, c)
  {
    hide PatternPosition, Slot, Finder;
    var n, pos := Size(version), PatternPosition(version);
    var a, b := Slot(pos, r), Slot(pos, c);
    if a >= 0 && b >= 0 {
      Between(version, a);
      Between(version, b);
      CentreOnFinder(version, a, b);
    }
  }

  // A module that a function pattern covers is in the finished symbol as drawn.
  lemma AsDrawn(version: nat, level: nat, mask: nat, words: seq<Byte>, p: Pos)
    requires 1 <= version <= 40 && mask < 8 && 0 <= p.0 < Size(version) && 0 <= p.1 < Size(version)
    requires Timing(Size(version), PatternPosition(version), p.0, p.1) != None
    requires InfoBit(Size(version), p.0, p.1) == None && VersionBit(Size(version), p.0, p.1) == None
    requires p != (Size(version) - 8, 8)
    ensures Symbol(version, level, false, mask, words)[p]
         == Timing(Size(version), PatternPosition(version), p.0, p.1)
  {
    hide Symbol, PatternPosition, Timing, InfoBit, VersionBit, Bch.TypeInfoWord, Bch.TypeNumberWord;
    SymbolComplete(version, level, false, mask, words, p);
  }

  // The three finder patterns with their separators.
  lemma FindersShown(version: nat, level: nat, mask: nat, words: seq<Byte>, r: int, c: int, r0: int, c0: int)
    requires 1 <= version <= 40 && mask < 8 && 0 <= r < Size(version) && 0 <= c < Size(version)
    requires IsCorner(Size(version), r0, c0) && Ring(r, c, r0, c0) <= 4
    ensures Symbol(version, level, false, mask, words)[(r, c)] == Some(Dark(FINDER, Abs(r - r0), Abs(c - c0)))
  {
    var n := Size(version);
    assert InfoBit(n, r, c) == None && VersionBit(n, r, c) == None && (r, c) != (n - 8, 8);
    hide Symbol, PatternPosition, Dark, Align, Probe;
    FinderFirst(version, r, c);
    ProbeDrawing(n, r, c, r0, c0);
    AsDrawn(version, level, mask, words, (r, c));
  }

  // The alignment patterns: one around every pair of centre coordinates, but for the
  // three pairs on a finder pattern.
  lemma AlignmentsShown(version: nat, level: nat, mask: nat, words: seq<Byte>, a: nat, b: nat, r: int, c: int)
    requires 2 <= version <= 40 && mask < 8 && a < Centres(version) && b < Centres(version)
    requires !(a == 0 && b == 0) && !(a == 0 && b == Centres(version) - 1) && !(a == Centres(version) - 1 && b == 0)
    requires Ring(r, c, StandardCentre(version, a), StandardCentre(version, b)) <= 2
    ensures 0 <= r < Size(version) && 0 <= c < Size(version)
    ensures Symbol(version, level, false, mask, words)[(r, c)]
         == Some(Dark(ALIGNMENT, Abs(r - StandardCentre(version, a)), Abs(c - StandardCentre(version, b))))
  {
    hide Symbol, PatternPosition, Dark, Slot, StandardCentre, Probe;
    var n, pos := Size(version), PatternPosition(version);
    CentresStandard(version, a);
    CentresStandard(version, b);
    Between(version, a);
    Between(version, b);
    CentreOnFinder(version, a, b);
    SlotUnique(pos, n, r, a);
    SlotUnique(pos, n, c, b);
    AlignmentDrawing(r, c, pos[a], pos[b]);
    assert InfoBit(n, r, c) == None && VersionBit(n, r, c) == None && (r, c) != (n - 8, 8);
    AsDrawn(version, level, mask, words, (r, c));
  }

  lemma CentresEven(version: nat, i: nat)
    requires 1 <= version <= 40 && i < |PatternPosition(version)|
    ensures PatternPosition(version)[i] % 2 == 0
  {
    hide PatternPosition, Distance;
    CentresStandard(version, i);
    if i > 0 {
      var half := Distance(version) / 2;
      HalfDistance(version);
      var k := Centres(version) - 1 - i;
      assert k * Distance(version) == 2 * (k * half);
      EvenDifference(2 * version + 5, k * half);
    }
  }

  lemma HalfDistance(version: nat)
    requires 2 <= version <= 40
    ensures Distance(version) == 2 * (Distance(version) / 2)
  {
    TwiceHalf((8 * version + 3 * Centres(version) + 5) / (4 * Centres(version) - 4));
  }

  lemma TwiceHalf(x: nat)
    ensures 2 * x / 2 == x
  {}

  lemma EvenDifference(a: int, b: int)
    ensures (2 * a - 2 * b) % 2 == 0
  {
    assert 2 * a - 2 * b == 2 * (a - b);
  }

  // In row 6 and column 6, between the finder patterns.
  lemma TimingIs(version: nat, x: int)
    requires 1 <= version <= 40 && 8 <= x < Size(version) - 8
    ensures Timing(Size(version), PatternPosition(version), 6, x) == Some(x % 2 == 0)
    ensures Timing(Size(version), PatternPosition(version), x, 6) == Some(x % 2 == 0)
  {
    hide PatternPosition, Slot, Finder;
    var n, pos := Size(version), PatternPosition(version);
    if pos != [] {
      SlotUnique(pos, n, 6, 0);
      var b := Slot(pos, x);
      if b >= 0 {
        CentresEven(version, b);
        OneApart(x, pos[b]);
      }
    }
  }

  lemma OneApart(x: int, even: int)
    requires even % 2 == 0 && Abs(x - even) <= 2
    ensures Abs(x - even) != 1 <==> x % 2 == 0
  {}

  // The timing patterns: dark in even places, alignment patterns included.
  lemma TimingShown(version: nat, level: nat, mask: nat, words: seq<Byte>, x: int)
    requires 1 <= version <= 40 && mask < 8 && 8 <= x < Size(version) - 8
    ensures Symbol(version, level, false, mask, words)[(6, x)] == Some(x % 2 == 0)
    ensures Symbol(version, level, false, mask, words)[(x, 6)] == Some(x % 2 == 0)
  {
    hide Symbol, PatternPosition, Timing;
    TimingIs(version, x);
    AsDrawn(version, level, mask, words, (6, x));
    AsDrawn(version, level, mask, words, (x, 6));
  }

  // The module above the lower left finder pattern that is always dark.
  lemma DarkModuleShown(version: nat, level: nat, mask: nat, words: seq<Byte>)
    requires 1 <= version <= 40 && mask < 8
    ensures Symbol(version, level, false, mask, words)[(4 * version + 9, 8)] == Some(true)
  {
    hide Symbol, PatternPosition, Timing, Bch.TypeInfoWord, Bch.TypeNumberWord;
    SymbolComplete(version, level, false, mask, words, (Size(version) - 8, 8));
  }
}
