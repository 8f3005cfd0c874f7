// QRUtil.getPatternPosition: where the alignment pattern centres of a version lie.
module PositionTable {
  import opened Patterns

  // The distance between neighbouring centres, the first aside.
  function Apart(version: nat): nat {
    match version
    case 1 => 0
    case 2 => 12
    case 3 => 16
    case 4 => 20
    case 5 => 24
    case 6 => 28
    case 7 => 16
    case 8 => 18
    case 9 => 20
    case 10 => 22
    case 11 => 24
    case 12 => 26
    case 13 => 28
    case 14 => 20
    case 15 => 22
    case 16 => 24
    case 17 => 24
    case 18 => 26
    case 19 => 28
    case 20 => 28
    case 21 => 22
    case 22 => 24
    case 23 => 24
    case 24 => 26
    case 25 => 26
    case 26 => 28
    case 27 => 28
    case 28 => 24
    case 29 => 24
    case 30 => 26
    case 31 => 26
    case 32 => 26
    case 33 => 28
    case 34 => 28
    case 35 => 24
    case 36 => 26
    case 37 => 26
    case 38 => 26
    case 39 => 28
    case _ => 28
  }

  predicate Evenly(pos: seq<nat>, distance: nat) {
    && |pos| <= 7
    && (|pos| > 2 ==> pos[2] == pos[1] + distance) && (|pos| > 3 ==> pos[3] == pos[2] + distance)
    && (|pos| > 4 ==> pos[4] == pos[3] + distance) && (|pos| > 5 ==> pos[5] == pos[4] + distance)
    && (|pos| > 6 ==> pos[6] == pos[5] + distance)
  }

  function Positions1(version: nat): (pos: seq<nat>)
    requires 1 <= version <= 5
    ensures Spaced(pos, version)
  {
    match version
    case 1 => []
    case 2 => [6, 18]
    case 3 => [6, 22]
    case 4 => [6, 26]
    case _ => [6, 30]
  }

  function Positions6(version: nat): (pos: seq<nat>)
    requires 6 <= version <= 10
    ensures Spaced(pos, version)
  {
    match version
    case 6 => [6, 34]
    case 7 => [6, 22, 38]
    case 8 => [6, 24, 42]
    case 9 => [6, 26, 46]
    case _ => [6, 28, 50]
  }

  function Positions11(version: nat): (pos: seq<nat>)
    requires 11 <= version <= 15
    ensures Spaced(pos, version)
  {
    match version
    case 11 => [6, 30, 54]
    case 12 => [6, 32, 58]
    case 13 => [6, 34, 62]
    case 14 => [6, 26, 46, 66]
    case _ => [6, 26, 48, 70]
  }

  function Positions16(version: nat): (pos: seq<nat>)
    requires 16 <= version <= 20
    ensures Spaced(pos, version)
  {
    match version
    case 16 => [6, 26, 50, 74]
    case 17 => [6, 30, 54, 78]
    case 18 => [6, 30, 56, 82]
    case 19 => [6, 30, 58, 86]
    case _ => [6, 34, 62, 90]
  }

  function Positions21(version: nat): (pos: seq<nat>)
    requires 21 <= version <= 25
    ensures Spaced(pos, version)
  {
    match version
    case 21 => [6, 28, 50, 72, 94]
    case 22 => [6, 26, 50, 74, 98]
    case 23 => [6, 30, 54, 78, 102]
    case 24 => [6, 28, 54, 80, 106]
    case _ => [6, 32, 58, 84, 110]
  }

  function Positions26(version: nat): (pos: seq<nat>)
    requires 26 <= version <= 30
    ensures Spaced(pos, version)
  {
    match version
    case 26 => [6, 30, 58, 86, 114]
    case 27 => [6, 34, 62, 90, 118]
    case 28 => [6, 26, 50, 74, 98, 122]
    case 29 => [6, 30, 54, 78, 102, 126]
    case _ => [6, 26, 52, 78, 104, 130]
  }

  function Positions31(version: nat): (pos: seq<nat>)
    requires 31 <= version <= 35
    ensures Spaced(pos, version)
  {
    match version
    case 31 => [6, 30, 56, 82, 108, 134]
    case 32 => [6, 34, 60, 86, 112, 138]
    case 33 => [6, 30, 58, 86, 114, 142]
    case 34 => [6, 34, 62, 90, 118, 146]
    case _ => [6, 30, 54, 78, 102, 126, 150]
  }

  function Positions36(version: nat): (pos: seq<nat>)
    requires 36 <= version <= 40
    ensures Spaced(pos, version)
  {
    match version
    case 36 => [6, 24, 50, 76, 102, 128, 154]
    case 37 => [6, 28, 54, 80, 106, 132, 158]
    case 38 => [6, 32, 58, 84, 110, 136, 162]
    case 39 => [6, 26, 54, 82, 110, 138, 166]
    case _ => [6, 30, 58, 86, 114, 142, 170]
  }

  function Row(version: nat): (pos: seq<nat>)
    requires 1 <= version <= 40
  {
    if version <= 5 then Positions1(version) else if version <= 10 then Positions6(version)
    else if version <= 15 then Positions11(version) else if version <= 20 then Positions16(version)
    else if version <= 25 then Positions21(version) else if version <= 30 then Positions26(version)
    else if version <= 35 then Positions31(version) else Positions36(version)
  }

  // How many centre coordinates a version has.
  function Centres(version: nat): nat {
    if version == 1 then 0 else version / 7 + 2
  }

  // Neighbours are far apart, and the first and the last face the finder patterns.
  predicate Spaced(pos: seq<nat>, version: nat) {
    && |pos| == Centres(version)
    && (forall a :: 1 <= a < |pos| ==> pos[a - 1] + 12 <= pos[a])
    && (pos != [] ==> pos[0] == 6 && pos[|pos| - 1] == Size(version) - 7)
  }

  lemma {:induction false} SpacedApart(pos: seq<nat>, version: nat, a: nat, b: nat)
    requires Spaced(pos, version) && a <= b < |pos|
    ensures pos[a] + 12 * (b - a) <= pos[b]
  {
    if a < b {
      SpacedApart(pos, version, a, b - 1);
    }
  }

  lemma RowIsGood(version: nat)
    requires 1 <= version <= 40
    ensures GoodPositions(Row(version), Size(version)) && Spaced(Row(version), version)
  {
    hide Positions1, Positions6, Positions11, Positions16, Positions21, Positions26, Positions31, Positions36;
    var pos := Row(version);
    forall a, b | 0 <= a <= b < |pos|
      ensures pos[a] + 12 * (b - a) <= pos[b]
    {
      SpacedApart(pos, version, a, b);
    }
  }

  // Every row of the table keeps the alignment patterns apart and inside the symbol.
  function PatternPosition(version: nat): (pos: seq<nat>)
    requires 1 <= version <= 40
    ensures GoodPositions(pos, Size(version)) && Spaced(pos, version)
  {
    RowIsGood(version);
    Row(version)
  }

  // ---- the centres as the standard spaces them (ISO/IEC 18004:2015, annex E) ----

  // From the last centre backwards all distances are equal, and even; the first centre is 6.
  function Distance(version: nat): nat
    requires 2 <= version <= 40
  {
    2 * ((8 * version + 3 * Centres(version) + 5) / (4 * Centres(version) - 4))
  }

  function StandardCentre(version: nat, i: nat): int
    requires 2 <= version <= 40
  {
    if i == 0 then 6 else Size(version) - 7 - (Centres(version) - 1 - i) * Distance(version)
  }

  lemma Evenly1(version: nat)
    requires 1 <= version <= 5
    ensures Evenly(Positions1(version), Apart(version))
  {
    hide Spaced;
  }

  lemma Evenly6(version: nat)
    requires 6 <= version <= 10
    ensures Evenly(Positions6(version), Apart(version))
  {
    hide Spaced;
  }

  lemma Evenly11(version: nat)
    requires 11 <= version <= 15
    ensures Evenly(Positions11(version), Apart(version))
  {
    hide Spaced;
  }

  lemma Evenly16(version: nat)
    requires 16 <= version <= 20
    ensures Evenly(Positions16(version), Apart(version))
  {
    hide Spaced;
  }

  lemma Evenly21(version: nat)
    requires 21 <= version <= 25
    ensures Evenly(Positions21(version), Apart(version))
  {
    hide Spaced;
  }

  lemma Evenly26(version: nat)
    requires 26 <= version <= 30
    ensures Evenly(Positions26(version), Apart(version))
  {
    hide Spaced;
  }

  lemma Evenly31(version: nat)
    requires 31 <= version <= 35
    ensures Evenly(Positions31(version), Apart(version))
  {
    hide Spaced;
  }

  lemma Evenly36(version: nat)
    requires 36 <= version <= 40
    ensures Evenly(Positions36(version), Apart(version))
  {
    hide Spaced;
  }

  lemma Distance2(version: nat)
    requires 2 <= version <= 20
    ensures Distance(version) == Apart(version)
  {}

  lemma Distance21(version: nat)
    requires 21 <= version <= 30
    ensures Distance(version) == Apart(version)
  {}

  lemma Distance31(version: nat)
    requires 31 <= version <= 40
    ensures Distance(version) == Apart(version)
  {}

  lemma {:induction false} FromTheEnd(pos: seq<nat>, distance: nat, i: nat)
    requires Evenly(pos, distance) && 1 <= i < |pos|
    ensures pos[i] == pos[|pos| - 1] - (|pos| - 1 - i) * distance
    decreases |pos| - i
  {
    if i < |pos| - 1 {
      FromTheEnd(pos, distance, i + 1);
      assert (|pos| - 1 - i) * distance == (|pos| - 2 - i) * distance + distance;
    }
  }

  lemma EvenRow(version: nat)
    requires 1 <= version <= 40
    ensures Evenly(Row(version), Apart(version))
  {
    hide Evenly, Apart, Spaced;
    if version <= 5 {
      Evenly1(version);
    } else if version <= 10 {
      Evenly6(version);
    } else if version <= 15 {
      Evenly11(version);
    } else if version <= 20 {
      Evenly16(version);
    } else if version <= 25 {
      Evenly21(version);
    } else if version <= 30 {
      Evenly26(version);
    } else if version <= 35 {
      Evenly31(version);
    } else {
      Evenly36(version);
    }
  }

  // The program's table is the standard's, centre by centre.
  lemma CentresStandard(version: nat, i: nat)
    requires 1 <= version <= 40 && i < |PatternPosition(version)|
    ensures version > 1 && |PatternPosition(version)| == Centres(version)
    ensures PatternPosition(version)[i] == StandardCentre(version, i)
  {
    EvenRow(version);
    hide Distance, Apart, Positions1, Positions6, Positions11, Positions16, Positions21, Positions26,
         Positions31, Positions36;
    if 2 <= version <= 20 {
      Distance2(version);
    } else if 21 <= version <= 30 {
      Distance21(version);
    } else if version > 30 {
      Distance31(version);
    }
    if i > 0 {
      FromTheEnd(PatternPosition(version), Distance(version), i);
    }
  }
}
