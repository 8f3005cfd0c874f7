// How many modules of a symbol are left for data.
module Capacity {
  import opened Results
  import opened Placement
  import opened Patterns
  import opened PositionTable

  ghost function FreeModules(version: nat): set<Pos>
    requires 1 <= version <= 40
  {
    set r: int, c: int | 0 <= r < Size(version) && 0 <= c < Size(version)
                         && IsFree(version, PatternPosition(version), (r, c)) :: (r, c)
  }

  // Modules covered by alignment patterns outside the timing patterns.
  function AlignmentArea(version: nat): int {
    if version == 1 then 0
    else 40 * (Centres(version) - 2) + 25 * (Centres(version) - 1) * (Centres(version) - 1)
  }

  // All modules but those of the three corners with their format bits, the timing
  // patterns, the alignment patterns and the version bits.
  function FreeCount(version: nat): int {
    Size(version) * Size(version) - 225 - 2 * (Size(version) - 17) - AlignmentArea(version)
      - if version >= 7 then 36 else 0
  }

  // ---- what is taken, by coordinates ----

  predicate InCorner(n: nat, r: int, c: int) {
    (r < 9 && c < 9) || (r < 9 && c >= n - 8) || (r >= n - 8 && c < 9)
  }

  predicate InVersion(n: nat, r: int, c: int) {
    (r < 6 && n - 11 <= c < n - 8) || (c < 6 && n - 11 <= r < n - 8)
  }

  // Within two modules of an inner centre coordinate.
  predicate IsInner(pos: seq<nat>, x: int) {
    0 < Slot(pos, x) < |pos| - 1
  }

  predicate IsFirst(x: int) {
    4 <= x < 9
  }

  predicate IsLast(n: nat, x: int) {
    n - 9 <= x < n - 4
  }

  predicate InAlignment(n: nat, pos: seq<nat>, r: int, c: int) {
    && pos != []
    && (|| (IsFirst(r) && IsInner(pos, c))
        || (IsInner(pos, r) && IsFirst(c))
        || ((IsInner(pos, r) || IsLast(n, r)) && (IsInner(pos, c) || IsLast(n, c))))
  }

  predicate IsTaken(version: nat, pos: seq<nat>, r: int, c: int) {
    var n := Size(version);
    InCorner(n, r, c) || r == 6 || c == 6 || (version >= 7 && InVersion(n, r, c)) || InAlignment(n, pos, r, c)
  }

  lemma Slots(version: nat, x: int)
    requires 1 <= version <= 40
    ensures var n, pos := Size(version), PatternPosition(version);
            && (pos != [] ==> |pos| >= 2)
            && (pos != [] ==> (Slot(pos, x) == 0 <==> IsFirst(x)) && (Slot(pos, x) == |pos| - 1 <==> IsLast(n, x)))
            && (IsInner(pos, x) ==> 16 <= x < n - 16)
  {
    hide Slot, PatternPosition;
    var n, pos := Size(version), PatternPosition(version);
    if pos != [] {
      SlotUnique(pos, n, x, 0);
      SlotUnique(pos, n, x, |pos| - 1);
      if IsInner(pos, x) {
        var a := Slot(pos, x);
        SlotUnique(pos, n, x, a);
        SpacedApart(pos, version, 0, a);
        SpacedApart(pos, version, a, |pos| - 1);
      }
    }
  }

  // Only the three centres on finder patterns have no alignment pattern.
  lemma CentreOnFinder(version: nat, a: nat, b: nat)
    requires 1 <= version <= 40
    requires a < |PatternPosition(version)| && b < |PatternPosition(version)|
    ensures Probe(Size(version), PatternPosition(version)[a], PatternPosition(version)[b]) != None
       <==> var last := |PatternPosition(version)| - 1;
            (a == 0 && b == 0) || (a == 0 && b == last) || (a == last && b == 0)
  {
    hide PatternPosition;
    var pos := PatternPosition(version);
    Between(version, a);
    Between(version, b);
  }

  lemma Between(version: nat, a: nat)
    requires 1 <= version <= 40 && a < |PatternPosition(version)|
    ensures var n, pos := Size(version), PatternPosition(version);
            && (a == 0 <==> pos[a] == 6) && (a == |pos| - 1 <==> pos[a] == n - 7) && n >= 25
            && (0 < a < |pos| - 1 ==> 18 <= pos[a] <= n - 19)
  {
    hide PatternPosition;
    var pos := PatternPosition(version);
    SpacedApart(pos, version, 0, a);
    SpacedApart(pos, version, a, |pos| - 1);
  }

  lemma AlignTaken(version: nat, r: int, c: int)
    requires 1 <= version <= 40
    ensures var n, pos := Size(version), PatternPosition(version);
            Align(n, pos, r, c) != None <==> Probe(n, r, c) != None || InAlignment(n, pos, r, c)
  {
    hide PatternPosition, Slot, Probe, Ring, IsFirst, IsLast;
    var n, pos := Size(version), PatternPosition(version);
    Slots(version, r);
    Slots(version, c);
    var a, b := Slot(pos, r), Slot(pos, c);
    if a >= 0 && b >= 0 {
      CentreOnFinder(version, a, b);
    }
  }

  lemma CornerTaken(n: nat, pos: seq<nat>, r: int, c: int)
    requires n >= 21 && 0 <= r < n && 0 <= c < n
    ensures (Probe(n, r, c) != None || InfoBit(n, r, c) != None || (r, c) == (n - 8, 8)
             || (c == 6 && 8 <= r < n - 8) || (r == 6 && 8 <= c < n - 8))
       <==> InCorner(n, r, c) || r == 6 || c == 6
  {}

  lemma FreeIffNotTaken(version: nat, r: int, c: int)
    requires 1 <= version <= 40 && 0 <= r < Size(version) && 0 <= c < Size(version)
    ensures IsFree(version, PatternPosition(version), (r, c)) <==> !IsTaken(version, PatternPosition(version), r, c)
  {
    hide PatternPosition, Align, InAlignment, Probe, InfoBit, InCorner;
    AlignTaken(version, r, c);
    CornerTaken(Size(version), PatternPosition(version), r, c);
  }

  // ---- counting ----

  predicate IsWithin(a: int, x: int, b: int) {
    a <= x < b
  }

  ghost function Range(a: int, b: int): set<int> {
    set x: int | a <= x < b && IsWithin(a, x, b)
  }

  lemma {:induction false} RangeSize(a: int, b: int)
    requires a <= b
    ensures |Range(a, b)| == b - a
    decreases b - a
  {
    if a < b {
      RangeSize(a, b - 1);
      assert Range(a, b) == Range(a, b - 1) + {b - 1};
    }
  }

  // The modules in these rows and these columns.
  ghost function Cross(rows: set<int>, columns: set<int>): set<Pos> {
    set r, c | r in rows && c in columns :: (r, c)
  }

  lemma {:induction false} RowSize(r: int, columns: set<int>)
    ensures |Cross({r}, columns)| == |columns|
    decreases |columns|
  {
    if exists c :: c in columns {
      var c :| c in columns;
      RowSize(r, columns - {c});
      assert Cross({r}, columns) == Cross({r}, columns - {c}) + {(r, c)};
    } else {
      assert columns == {} && Cross({r}, columns) == {};
    }
  }

  lemma {:induction false} CrossSize(rows: set<int>, columns: set<int>)
    ensures |Cross(rows, columns)| == |rows| * |columns|
    decreases |rows|
  {
    if exists r :: r in rows {
      var r :| r in rows;
      var rest := rows - {r};
      CrossSize(rest, columns);
      RowSize(r, columns);
      assert Cross(rows, columns) == Cross(rest, columns) + Cross({r}, columns);
      OneRowMore(|rest|, |columns|);
    } else {
      assert rows == {} && Cross(rows, columns) == {};
    }
  }

  lemma OneRowMore(a: nat, b: nat)
    ensures (a + 1) * b == a * b + b
  {}

  ghost function Inner(version: nat, m: nat): set<int>
    requires 1 <= version <= 40
  {
    set x: int | 0 <= x < Size(version) && 0 < Slot(PatternPosition(version), x) < m
  }

  lemma InnerAt(version: nat, m: nat, x: int)
    requires 1 <= version <= 40 && 2 <= m < |PatternPosition(version)|
    ensures var centre := PatternPosition(version)[m - 1];
            && (x in Inner(version, m) <==> x in Inner(version, m - 1) || centre - 2 <= x < centre + 3)
            && (x in Inner(version, m - 1) ==> !(centre - 2 <= x < centre + 3))
  {
    hide PatternPosition, Slot;
    Between(version, m - 1);
    SlotUnique(PatternPosition(version), Size(version), x, m - 1);
    hide Spaced, GoodPositions;
  }

  lemma InnerStep(version: nat, m: nat)
    requires 1 <= version <= 40 && 2 <= m < |PatternPosition(version)|
    ensures |Inner(version, m)| == |Inner(version, m - 1)| + 5
  {
    hide PatternPosition, Inner, Spaced, GoodPositions;
    var centre: int := PatternPosition(version)[m - 1];
    var near := Range(centre - 2, centre + 3);
    RangeSize(centre - 2, centre + 3);
    forall x
      ensures x in Inner(version, m) <==> x in Inner(version, m - 1) || x in near
      ensures x in Inner(version, m - 1) ==> x !in near
    {
      InnerAt(version, m, x);
    }
    hide Range;
    assert Inner(version, m) == Inner(version, m - 1) + near && Inner(version, m - 1) !! near;
  }

  lemma NoneInner(version: nat)
    requires 1 <= version <= 40
    ensures Inner(version, 1) == {}
  {
    hide PatternPosition, Slot;
  }

  lemma {:induction false} InnerSize(version: nat, m: nat)
    requires 1 <= version <= 40 && 1 <= m < |PatternPosition(version)|
    ensures |Inner(version, m)| == 5 * (m - 1)
  {
    hide PatternPosition, Inner, Spaced, GoodPositions;
    if m == 1 {
      NoneInner(version);
    } else {
      InnerSize(version, m - 1);
      InnerStep(version, m);
    }
  }

  ghost function InGrid(n: nat, p: Pos): bool {
    0 <= p.0 < n && 0 <= p.1 < n
  }

  ghost function Corners(n: nat): set<Pos> {
    Cross(Range(0, 9), Range(0, 9)) + Cross(Range(0, 9), Range(n - 8, n)) + Cross(Range(n - 8, n), Range(0, 9))
  }

  lemma CornersSize(n: nat)
    requires n >= 21
    ensures |Corners(n)| == 225
    ensures forall p: Pos :: p in Corners(n) <==> InGrid(n, p) && InCorner(n, p.0, p.1)
  {
    hide Range, Cross;
    var a, b := Range(0, 9), Range(n - 8, n);
    RangeSize(0, 9);
    RangeSize(n - 8, n);
    CrossSize(a, a);
    CrossSize(a, b);
    CrossSize(b, a);
    CrossRanges(0, 9, 0, 9);
    CrossRanges(0, 9, n - 8, n);
    CrossRanges(n - 8, n, 0, 9);
    assert Cross(a, a) !! Cross(a, b) && (Cross(a, a) + Cross(a, b)) !! Cross(b, a);
  }

  lemma CrossRanges(a: int, b: int, c: int, d: int)
    ensures forall p: Pos :: p in Cross(Range(a, b), Range(c, d)) <==> a <= p.0 < b && c <= p.1 < d
  {}

  ghost function TimingRest(n: nat): set<Pos> {
    Cross(Range(6, 7), Range(9, n - 8)) + Cross(Range(9, n - 8), Range(6, 7))
  }

  lemma TimingSize(n: nat)
    requires n >= 21
    ensures |TimingRest(n)| == 2 * (n - 17)
    ensures forall p: Pos :: p in TimingRest(n)
              <==> InGrid(n, p) && (p.0 == 6 || p.1 == 6) && !InCorner(n, p.0, p.1)
  {
    hide Range, Cross;
    var a, b := Range(6, 7), Range(9, n - 8);
    RangeSize(6, 7);
    RangeSize(9, n - 8);
    CrossSize(a, b);
    CrossSize(b, a);
    CrossRanges(6, 7, 9, n - 8);
    CrossRanges(9, n - 8, 6, 7);
    assert Cross(a, b) !! Cross(b, a);
  }

  ghost function VersionArea(n: nat): set<Pos> {
    Cross(Range(0, 6), Range(n - 11, n - 8)) + Cross(Range(n - 11, n - 8), Range(0, 6))
  }

  lemma VersionSize(n: nat)
    requires n >= 45
    ensures |VersionArea(n)| == 36
    ensures forall p: Pos :: p in VersionArea(n) <==> InGrid(n, p) && InVersion(n, p.0, p.1)
  {
    hide Range, Cross;
    var a, b := Range(0, 6), Range(n - 11, n - 8);
    RangeSize(0, 6);
    RangeSize(n - 11, n - 8);
    CrossSize(a, b);
    CrossSize(b, a);
    CrossRanges(0, 6, n - 11, n - 8);
    CrossRanges(n - 11, n - 8, 0, 6);
    assert Cross(a, b) !! Cross(b, a);
  }

  // The rows or columns of the alignment patterns in row or column 6, without that one.
  ghost function BesideSix(): set<int> {
    Range(4, 6) + Range(7, 9)
  }

  ghost function Alignments(version: nat): set<Pos>
    requires 1 <= version <= 40
  {
    if version == 1 then {}
    else
      var n, inner := Size(version), Inner(version, Centres(version) - 1);
      Cross(BesideSix(), inner) + Cross(inner, BesideSix())
        + Cross(inner + Range(n - 9, n - 4), inner + Range(n - 9, n - 4))
  }

  lemma InnerIs(version: nat, x: int)
    requires 2 <= version <= 40
    ensures x in Inner(version, Centres(version) - 1)
       <==> 0 <= x < Size(version) && IsInner(PatternPosition(version), x)
    ensures x in Inner(version, Centres(version) - 1) ==> 16 <= x < Size(version) - 16
  {
    hide PatternPosition, Slot;
    Slots(version, x);
  }

  lemma AlignmentsAt(version: nat, p: Pos)
    requires 1 <= version <= 40
    ensures var n := Size(version);
            && (p in Alignments(version)
                <==> InGrid(n, p) && InAlignment(n, PatternPosition(version), p.0, p.1) && p.0 != 6 && p.1 != 6)
            && (p in Alignments(version) ==> !InCorner(n, p.0, p.1) && !(version >= 7 && InVersion(n, p.0, p.1)))
  {
    hide PatternPosition, Slot, Inner;
    if version > 1 {
      InnerIs(version, p.0);
      InnerIs(version, p.1);
      Slots(version, p.0);
      Slots(version, p.1);
      hide IsInner;
    }
  }

  lemma AlignmentsSize(version: nat)
    requires 1 <= version <= 40
    ensures |Alignments(version)| == AlignmentArea(version)
  {
    hide PatternPosition, Inner, Range, Cross;
    if version > 1 {
      var n, k := Size(version), Centres(version);
      var inner, last := Inner(version, k - 1), Range(n - 9, n - 4);
      InnerSize(version, k - 1);
      RangeSize(4, 6);
      RangeSize(7, 9);
      RangeSize(n - 9, n - 4);
      RangesApart(4, 6, 7, 9);
      assert |BesideSix()| == 4;
      InnerApart(version);
      var both := inner + last;
      assert |both| == 5 * (k - 1);
      hide BesideSix, Centres;
      CrossSize(BesideSix(), inner);
      CrossSize(inner, BesideSix());
      CrossSize(both, both);
      PartsApart(version);
      AreaSum(version, |BesideSix()|, |inner|, |both|);
      hide AlignmentArea;
    }
  }

  lemma AreaSum(version: nat, beside: nat, inner: nat, both: nat)
    requires version > 1
    requires beside == 4 && inner == 5 * (Centres(version) - 2) && both == 5 * (Centres(version) - 1)
    ensures beside * inner + inner * beside + both * both == AlignmentArea(version)
  {
    hide Centres;
    FiveTimes(Centres(version) - 1);
  }

  lemma FiveTimes(k: nat)
    ensures (5 * k) * (5 * k) == 25 * k * k
  {}

  lemma RangesApart(a: int, b: int, c: int, d: int)
    requires b <= c
    ensures Range(a, b) !! Range(c, d)
  {}

  lemma InnerApart(version: nat)
    requires 2 <= version <= 40
    ensures Inner(version, Centres(version) - 1) !! Range(Size(version) - 9, Size(version) - 4)
  {
    hide Inner;
    var inner, last := Inner(version, Centres(version) - 1), Range(Size(version) - 9, Size(version) - 4);
    forall x | x in inner
      ensures x !in last
    {
      InnerIs(version, x);
    }
  }

  lemma PartsApart(version: nat)
    requires 2 <= version <= 40
    ensures var n, inner := Size(version), Inner(version, Centres(version) - 1);
            var both := inner + Range(n - 9, n - 4);
            && Cross(BesideSix(), inner) !! Cross(inner, BesideSix())
            && (Cross(BesideSix(), inner) + Cross(inner, BesideSix())) !! Cross(both, both)
  {
    hide Inner;
    var n, inner := Size(version), Inner(version, Centres(version) - 1);
    var both := inner + Range(n - 9, n - 4);
    forall x | x in both
      ensures x >= 16
    {
      InnerIs(version, x);
    }
  }

  ghost function TakenModules(version: nat): set<Pos>
    requires 1 <= version <= 40
  {
    var n := Size(version);
    Corners(n) + TimingRest(n) + Alignments(version) + if version >= 7 then VersionArea(n) else {}
  }

  lemma TakenSize(version: nat)
    requires 1 <= version <= 40
    ensures |TakenModules(version)|
         == 225 + 2 * (Size(version) - 17) + AlignmentArea(version) + if version >= 7 then 36 else 0
    ensures forall p: Pos :: p in TakenModules(version)
              <==> InGrid(Size(version), p) && IsTaken(version, PatternPosition(version), p.0, p.1)
  {
    hide Corners, TimingRest, Alignments, VersionArea, PatternPosition, InAlignment, AlignmentArea;
    var n := Size(version);
    CornersSize(n);
    TimingSize(n);
    AlignmentsSize(version);
    forall p: Pos
      ensures p in Alignments(version)
              <==> InGrid(n, p) && InAlignment(n, PatternPosition(version), p.0, p.1) && p.0 != 6 && p.1 != 6
      ensures p in Alignments(version) ==> !InCorner(n, p.0, p.1) && !(version >= 7 && InVersion(n, p.0, p.1))
    {
      AlignmentsAt(version, p);
    }
    assert Corners(n) !! TimingRest(n) && (Corners(n) + TimingRest(n)) !! Alignments(version);
    if version >= 7 {
      VersionSize(n);
      assert (Corners(n) + TimingRest(n) + Alignments(version)) !! VersionArea(n);
    }
  }

  // The number of modules for data, for every version.
  lemma FreeModulesCount(version: nat)
    requires 1 <= version <= 40
    ensures |FreeModules(version)| == FreeCount(version)
  {
    hide PatternPosition, IsFree, IsTaken, TakenModules, AlignmentArea, Cross, Range;
    var n := Size(version);
    var all := Cross(Range(0, n), Range(0, n));
    RangeSize(0, n);
    CrossSize(Range(0, n), Range(0, n));
    CrossRanges(0, n, 0, n);
    TakenSize(version);
    forall p: Pos | InGrid(n, p)
      ensures p in FreeModules(version) <==> p !in TakenModules(version)
    {
      FreeIffNotTaken(version, p.0, p.1);
    }
    assert FreeModules(version) !! TakenModules(version);
    assert FreeModules(version) + TakenModules(version) == all;
  }
}
