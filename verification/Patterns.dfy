// Where the function patterns of a symbol lie and what they contain, module by
// module (ISO/IEC 18004, sections 6.3, 7.9 and 7.10).
module Patterns {
  import opened BitStrings
  import opened Results
  import opened Placement

  function Abs(x: int): nat {
    if x < 0 then -x else x
  }

  // The square ring around (r0, c0) on which (r, c) lies.
  function Ring(r: int, c: int, r0: int, c0: int): nat {
    var a, b := Abs(r - r0), Abs(c - c0);
    if a > b then a else b
  }

  // The number of modules per side.
  function Size(version: nat): nat {
    version * 4 + 17
  }

  // Finder pattern with its separator: light on the second and fourth ring.
  function Finder(r: int, c: int, r0: int, c0: int): bool {
    Ring(r, c, r0, c0) != 2 && Ring(r, c, r0, c0) != 4
  }

  function Probe(n: nat, r: int, c: int): Option<bool> {
    if Ring(r, c, 3, 3) <= 4 then Some(Finder(r, c, 3, 3))
    else if Ring(r, c, n - 4, 3) <= 4 then Some(Finder(r, c, n - 4, 3))
    else if Ring(r, c, 3, n - 4) <= 4 then Some(Finder(r, c, 3, n - 4))
    else None
  }

  // The coordinates of alignment pattern centres are far apart and inside.
  predicate GoodPositions(pos: seq<nat>, n: nat) {
    && (forall a, b :: 0 <= a < b < |pos| ==> pos[a] + 5 <= pos[b])
    && (forall a :: 0 <= a < |pos| ==> 6 <= pos[a] <= n - 7)
  }

  // The index of the centre coordinate within two modules of x, or -1.
  function Slot(pos: seq<nat>, x: int): (k: int)
    ensures k == -1 || (0 <= k < |pos| && Abs(x - pos[k]) <= 2)
  {
    if pos == [] then -1
    else if Abs(x - pos[|pos| - 1]) <= 2 then |pos| - 1
    else Slot(pos[..|pos| - 1], x)
  }

  lemma {:induction false} SlotUnique(pos: seq<nat>, n: nat, x: int, k: nat)
    requires GoodPositions(pos, n) && k < |pos|
    ensures Abs(x - pos[k]) <= 2 <==> Slot(pos, x) == k
  {
    if k < |pos| - 1 {
      SlotUnique(pos[..|pos| - 1], n, x, k);
    }
  }

  // Alignment pattern: only the first ring is light. Centres on a finder have none.
  function Align(n: nat, pos: seq<nat>, r: int, c: int): Option<bool> {
    var a, b := Slot(pos, r), Slot(pos, c);
    if a >= 0 && b >= 0 && Probe(n, pos[a], pos[b]) == None then Some(Ring(r, c, pos[a], pos[b]) != 1)
    else Probe(n, r, c)
  }

  function Timing(n: nat, pos: seq<nat>, r: int, c: int): Option<bool> {
    if Align(n, pos, r, c) != None then Align(n, pos, r, c)
    else if c == 6 && 8 <= r < n - 8 then Some(r % 2 == 0)
    else if r == 6 && 8 <= c < n - 8 then Some(c % 2 == 0)
    else None
  }

  // Which bit of the format word a module shows: first copy in column 8,
  // second copy in row 8.
  function InfoBit(n: nat, r: int, c: int): Option<nat> {
    if c == 8 && 0 <= r < 6 then Some(r)
    else if c == 8 && (r == 7 || r == 8) then Some(r - 1)
    else if c == 8 && n - 7 <= r < n then Some(r + 15 - n)
    else if r == 8 && n - 8 <= c < n then Some(n - 1 - c)
    else if r == 8 && c == 7 then Some(8)
    else if r == 8 && 0 <= c < 6 then Some(14 - c)
    else None
  }

  function Info(n: nat, pos: seq<nat>, word: nat, test: bool, r: int, c: int): Option<bool> {
    if r == n - 8 && c == 8 then Some(!test)
    else match InfoBit(n, r, c)
      case Some(k) => Some(!test && Bit(word, k))
      case None => Timing(n, pos, r, c)
  }

  // Which bit of the version word a module shows.
  function VersionBit(n: nat, r: int, c: int): Option<nat> {
    if 0 <= r < 6 && n - 11 <= c < n - 8 then Some(3 * r + c - (n - 11))
    else if 0 <= c < 6 && n - 11 <= r < n - 8 then Some(3 * c + r - (n - 11))
    else None
  }

  // All function patterns together; None is a module for data.
  function Pattern(version: nat, pos: seq<nat>, info: nat, vers: nat, test: bool, r: int, c: int): Option<bool> {
    var n := Size(version);
    match VersionBit(n, r, c)
    case Some(k) => if version >= 7 then Some(!test && Bit(vers, k)) else Info(n, pos, info, test, r, c)
    case None => Info(n, pos, info, test, r, c)
  }

  // The modules for data do not depend on what the patterns show.
  predicate IsFree(version: nat, pos: seq<nat>, p: Pos) {
    var n := Size(version);
    && 0 <= p.0 < n && 0 <= p.1 < n
    && (version < 7 || VersionBit(n, p.0, p.1) == None)
    && InfoBit(n, p.0, p.1) == None && p != (n - 8, 8)
    && Timing(n, pos, p.0, p.1) == None
  }

  lemma FreeIffNone(version: nat, pos: seq<nat>, info: nat, vers: nat, test: bool, r: int, c: int)
    requires 0 <= r < Size(version) && 0 <= c < Size(version)
    ensures IsFree(version, pos, (r, c)) <==> Pattern(version, pos, info, vers, test, r, c) == None
  {
    hide Timing;
  }

  // Column 6, which no strip covers, holds no data.
  lemma ColumnSixTaken(version: nat, pos: seq<nat>, r: int)
    requires version >= 1 && GoodPositions(pos, Size(version)) && 0 <= r < Size(version)
    ensures !IsFree(version, pos, (r, 6))
  {
    hide Slot;
    assert r < 8 ==> Ring(r, 6, 3, 3) <= 4;
    assert r >= Size(version) - 8 ==> Ring(r, 6, Size(version) - 4, 3) <= 4;
  }

  // The module that shows bit k in each copy of the format word.
  function InfoPos1(n: nat, k: nat): Pos {
    if k < 6 then (k, 8) else if k < 8 then (k + 1, 8) else (n - 15 + k, 8)
  }

  function InfoPos2(n: nat, k: nat): Pos {
    if k < 8 then (8, n - k - 1) else if k < 9 then (8, 7) else (8, 14 - k)
  }

  function InfoPos(n: nat, k: nat, second: bool): Pos {
    if second then InfoPos2(n, k) else InfoPos1(n, k)
  }

  function VersionPos(n: nat, k: nat, second: bool): Pos {
    if second then VersionPos2(n, k) else VersionPos1(n, k)
  }

  function VersionPos1(n: nat, k: nat): Pos {
    (k / 3, k % 3 + n - 11)
  }

  function VersionPos2(n: nat, k: nat): Pos {
    (k % 3 + n - 11, k / 3)
  }

  lemma InfoPlaces(n: nat, k: nat)
    requires n >= 21 && k < 15
    ensures 0 <= InfoPos1(n, k).0 < n && 0 <= InfoPos1(n, k).1 < n
    ensures 0 <= InfoPos2(n, k).0 < n && 0 <= InfoPos2(n, k).1 < n
    ensures var p, q := InfoPos1(n, k), InfoPos2(n, k);
            && InfoBit(n, p.0, p.1) == Some(k) && p != (n - 8, 8)
            && InfoBit(n, q.0, q.1) == Some(k) && q != (n - 8, 8)
            && (n >= 45 ==> VersionBit(n, p.0, p.1) == None && VersionBit(n, q.0, q.1) == None)
  {}

  lemma VersionPlaces(n: nat, k: nat)
    requires n >= 45 && k < 18
    ensures var p, q := VersionPos1(n, k), VersionPos2(n, k);
            VersionBit(n, p.0, p.1) == Some(k) && VersionBit(n, q.0, q.1) == Some(k)
  {}

  // Both copies of the words show in the pattern, bit by bit.
  lemma PatternShowsInfo(version: nat, pos: seq<nat>, info: nat, vers: nat, k: nat, second: bool)
    requires version >= 1 && k < 15
    ensures var p := InfoPos(Size(version), k, second);
            && 0 <= p.0 < Size(version) && 0 <= p.1 < Size(version)
            && Pattern(version, pos, info, vers, false, p.0, p.1) == Some(Bit(info, k))
            && !IsFree(version, pos, p)
  {
    hide Timing, InfoBit, VersionBit, Bit, InfoPos1, InfoPos2;
    InfoPlaces(Size(version), k);
  }

  lemma PatternShowsVersion(version: nat, pos: seq<nat>, info: nat, vers: nat, k: nat, second: bool)
    requires version >= 7 && k < 18
    ensures var p := VersionPos(Size(version), k, second);
            && 0 <= p.0 < Size(version) && 0 <= p.1 < Size(version)
            && Pattern(version, pos, info, vers, false, p.0, p.1) == Some(Bit(vers, k))
            && !IsFree(version, pos, p)
  {
    hide Timing, InfoBit, VersionBit, Bit;
    VersionPlaces(Size(version), k);
  }
}
