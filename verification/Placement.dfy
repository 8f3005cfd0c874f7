// The order in which QRCodeModel.mapData visits the modules (ISO/IEC 18004,
// section 7.7.3), on grids as values: filling the free modules, and reading
// them back. The mask is one of the eight of section 7.8.
module Placement {
  import opened Binary
  import opened BitStrings
  import opened Results
  import opened StandardMask

  type Pos = (int, int)
  type Grid = map<Pos, Option<bool>>

  predicate IsGrid(g: Grid, n: nat) {
    forall r, c :: 0 <= r < n && 0 <= c < n ==> (r, c) in g
  }

  // Symbols have an odd number of modules per side, at least 21.
  predicate IsSize(n: nat) {
    n % 2 == 1 && n >= 21
  }

  // QRUtil.getMask; any other pattern throws.
  predicate Mask(pattern: nat, i: nat, j: nat)
    requires pattern < 8
  {
    if pattern == 0 then (i + j) % 2 == 0
    else if pattern == 1 then i % 2 == 0
    else if pattern == 2 then j % 3 == 0
    else if pattern == 3 then (i + j) % 3 == 0
    else if pattern == 4 then (i / 2 + j / 3) % 2 == 0
    else if pattern == 5 then (i * j) % 2 + (i * j) % 3 == 0
    else if pattern == 6 then ((i * j) % 2 + (i * j) % 3) % 2 == 0
    else ((i * j) % 3 + (i + j) % 2) % 2 == 0
  }

  lemma Residues(x: nat, q: nat, r: nat)
    requires x == 6 * q + r && r < 6
    ensures x % 6 == r && x % 2 == r % 2 && x % 3 == r % 3
  {
    ModTwo(3 * q, r);
    ModThree(2 * q, r);
    assert x == 2 * (3 * q) + r && x == 3 * (2 * q) + r;
  }

  lemma ModTwo(h: nat, r: nat)
    ensures (2 * h + r) % 2 == r % 2
  {}

  lemma ModThree(h: nat, r: nat)
    ensures (3 * h + r) % 3 == r % 3
  {}

  lemma OneProduct(x: nat)
    ensures x % 2 + x % 3 == 0 <==> x % 6 == 0
    ensures (x % 2 + x % 3) % 2 == 0 <==> x % 6 < 3
  {
    Residues(x, x / 6, x % 6);
  }

  lemma Halves(i: nat)
    ensures i / 2 % 2 == 0 <==> i % 4 < 2
  {}

  lemma Thirds(j: nat)
    ensures j / 3 % 2 == 0 <==> j % 6 < 3
  {}

  lemma LastMask(i: nat, j: nat, x: nat)
    ensures (x % 3 + (i + j) % 2) % 2 == 0 <==> ((i % 2 == j % 2) == (x % 3 != 1))
  {}

  lemma SumOfThree(i: nat, j: nat)
    ensures (i + j) % 3 == 0 <==> i % 3 + j % 3 == 0 || i % 3 + j % 3 == 3
  {}

  lemma Parities(i: nat, j: nat)
    ensures (i + j) % 2 == 0 <==> i % 2 == j % 2
  {}

  lemma HalvesAndThirds(i: nat, j: nat)
    ensures (i / 2 + j / 3) % 2 == 0 <==> (i % 4 < 2 <==> j % 6 < 3)
  {
    Halves(i);
    Thirds(j);
    Parities(i / 2, j / 3);
    assert forall x: nat {:trigger x % 2} :: x % 2 == 0 || x % 2 == 1;
  }

  lemma SumMasks(pattern: nat, i: nat, j: nat)
    requires pattern < 5
    ensures Mask(pattern, i, j) <==> Flips(pattern, i, j)
  {
    if pattern == 0 {
      Parities(i, j);
    } else if pattern == 3 {
      SumOfThree(i, j);
    } else if pattern == 4 {
      HalvesAndThirds(i, j);
    }
  }

  lemma ProductMasks(pattern: nat, i: nat, j: nat)
    requires 5 <= pattern < 8
    ensures Mask(pattern, i, j) <==> Flips(pattern, i, j)
  {
    OneProduct(i * j);
    LastMask(i, j, i * j);
  }

  // getMask gives the standard's masks.
  lemma MaskIsStandard(pattern: nat, i: nat, j: nat)
    requires pattern < 8
    ensures Mask(pattern, i, j) <==> Flips(pattern, i, j)
  {
    hide Mask, Flips;
    if pattern < 5 {
      SumMasks(pattern, i, j);
    } else {
      ProductMasks(pattern, i, j);
    }
  }

  // ---- the walk: strip j, line i of the strip, side c ----

  // Strips are two modules wide, from the right; column 6 belongs to none.
  function RightColumn(n: nat, j: nat): int {
    var c := n - 1 - 2 * j;
    if c > 6 then c else c - 1
  }

  // Even strips go up, odd strips down.
  function At(n: nat, j: nat, i: nat, c: nat): Pos {
    (if j % 2 == 0 then n - 1 - i else i, RightColumn(n, j) - c)
  }

  function Strips(n: nat): nat {
    n / 2
  }

  predicate OnWalk(n: nat, p: Pos) {
    0 <= p.0 < n && 0 <= p.1 < n && p.1 != 6
  }

  // Where on the walk a module is.
  function Strip(n: nat, p: Pos): int {
    (n - 1 - (if p.1 < 6 then p.1 + 1 else p.1)) / 2
  }

  function Line(n: nat, p: Pos): int {
    if Strip(n, p) % 2 == 0 then n - 1 - p.0 else p.0
  }

  function Side(n: nat, p: Pos): int {
    (n - 1 - (if p.1 < 6 then p.1 + 1 else p.1)) % 2
  }

  // The walk visits every module outside column 6, and each once.
  lemma WalkIsBijective(n: nat, p: Pos, j: nat, i: nat, c: nat)
    requires IsSize(n)
    ensures OnWalk(n, p) ==>
      0 <= Strip(n, p) < Strips(n) && 0 <= Line(n, p) < n && 0 <= Side(n, p) < 2
      && At(n, Strip(n, p), Line(n, p), Side(n, p)) == p
    ensures j < Strips(n) && i < n && c < 2 ==>
      var q := At(n, j, i, c);
      OnWalk(n, q) && Strip(n, q) == j && Line(n, q) == i && Side(n, q) == c
  {}

  // The place that follows on the standard's walk: from the right to the left module of a
  // row of two columns; then one row further, up in the first two columns from the right,
  // down in the next two, and so on; at the edge, over to the next two columns. Column 6
  // does not count as a column.
  function Following(n: nat, p: Pos): Pos {
    var fromRight := n - 1 - p.1 - (if p.1 < 6 then 1 else 0);
    if fromRight % 2 == 0 then (p.0, p.1 - 1)
    else if fromRight % 4 == 1 && p.0 > 0 then (p.0 - 1, p.1 + 1)
    else if fromRight % 4 == 3 && p.0 < n - 1 then (p.0 + 1, p.1 + 1)
    else (p.0, if p.1 == 7 then 5 else p.1 - 1)
  }

  lemma FromRight(n: nat, j: nat, c: nat)
    requires IsSize(n) && j < Strips(n) && c < 2
    ensures var column := RightColumn(n, j) - c;
            n - 1 - column - (if column < 6 then 1 else 0) == 2 * j + c && 0 <= column < n && column != 6
  {}

  lemma Quarters(j: nat)
    ensures (2 * j) % 2 == 0 && (2 * j + 1) % 2 == 1
    ensures (2 * j + 1) % 4 == if j % 2 == 0 then 1 else 3
  {
    ModTwo(j, 0);
    ModTwo(j, 1);
    FourTimes(j / 2, 2 * (j % 2) + 1);
    assert 2 * j + 1 == 4 * (j / 2) + (2 * (j % 2) + 1);
  }

  lemma FourTimes(h: nat, k: nat)
    requires k < 4
    ensures (4 * h + k) % 4 == k && (4 * h + k) % 2 == k % 2
  {
    ModTwo(2 * h, k);
    assert 4 * h + k == 2 * (2 * h) + k;
    ModFour(h, k);
  }

  lemma ModFour(h: nat, k: nat)
    requires k < 4
    ensures (4 * h + k) % 4 == k
  {}

  // The program's walk starts in the bottom right corner and goes on like that.
  lemma WalkFollows(n: nat, j: nat, i: nat, c: nat)
    requires IsSize(n) && j < Strips(n) && i < n && c < 2
    ensures At(n, 0, 0, 0) == (n - 1, n - 1)
    ensures c == 0 ==> At(n, j, i, 1) == Following(n, At(n, j, i, 0))
    ensures c == 1 && i < n - 1 ==> At(n, j, i + 1, 0) == Following(n, At(n, j, i, 1))
    ensures c == 1 && i == n - 1 && j < Strips(n) - 1 ==> At(n, j + 1, 0, 0) == Following(n, At(n, j, i, 1))
  {
    FromRight(n, j, c);
    Quarters(j);
    if c == 1 && j < Strips(n) - 1 {
      FromRight(n, j + 1, 0);
    }
    hide IsSize, Strips;
  }

  // p is visited at or after step (j, i, c).
  predicate NotBefore(n: nat, p: Pos, j: nat, i: nat, c: nat) {
    || Strip(n, p) > j
    || (Strip(n, p) == j && (Line(n, p) > i || (Line(n, p) == i && Side(n, p) >= c)))
  }

  // Bit k of the data; past the end the program places zeros.
  predicate DataBit(data: seq<Byte>, k: nat) {
    k / 8 < |data| && Bit(data[k / 8], 7 - k % 8)
  }

  function Stored(data: seq<Byte>, k: nat, mask: nat, p: Pos): bool
    requires mask < 8 && p.0 >= 0 && p.1 >= 0
  {
    DataBit(data, k) != Mask(mask, p.0, p.1)
  }

  // mapData from step (j, i, c) on, with k bits placed so far.
  function Fill(g: Grid, n: nat, data: seq<Byte>, mask: nat, j: nat, i: nat, c: nat, k: nat): (r: Grid)
    requires IsSize(n) && IsGrid(g, n) && mask < 8
    requires j <= Strips(n) && i <= n && c <= 2
    ensures IsGrid(r, n)
    decreases Strips(n) - j, n - i, 2 - c
  {
    if j == Strips(n) then g
    else if i == n then Fill(g, n, data, mask, j + 1, 0, 0, k)
    else if c == 2 then Fill(g, n, data, mask, j, i + 1, 0, k)
    else
      WalkIsBijective(n, (0, 0), j, i, c);
      var p := At(n, j, i, c);
      if g[p] == None then
        Fill(g[p := Some(Stored(data, k, mask, p))], n, data, mask, j, i, c + 1, k + 1)
      else
        Fill(g, n, data, mask, j, i, c + 1, k)
  }

  // The reader: the walk over the modules that hold data, unmasked as the standard asks.
  function Read(g: Grid, free: set<Pos>, n: nat, mask: nat, j: nat, i: nat, c: nat): seq<bool>
    requires IsSize(n) && IsGrid(g, n) && mask < 8
    requires j <= Strips(n) && i <= n && c <= 2
    decreases Strips(n) - j, n - i, 2 - c
  {
    if j == Strips(n) then []
    else if i == n then Read(g, free, n, mask, j + 1, 0, 0)
    else if c == 2 then Read(g, free, n, mask, j, i + 1, 0)
    else
      WalkIsBijective(n, (0, 0), j, i, c);
      var p := At(n, j, i, c);
      (if p in free then [(g[p] == Some(true)) != Flips(mask, p.0, p.1)] else [])
        + Read(g, free, n, mask, j, i, c + 1)
  }

  function ReadAll(g: Grid, free: set<Pos>, n: nat, mask: nat): seq<bool>
    requires IsSize(n) && IsGrid(g, n) && mask < 8
  {
    Read(g, free, n, mask, 0, 0, 0)
  }

  // Modules that are set stay as they are; no module still to come stays free.
  lemma {:induction false} FillOnlyFree(g: Grid, n: nat, data: seq<Byte>, mask: nat, j: nat, i: nat, c: nat, k: nat,
                                        p: Pos)
    requires IsSize(n) && IsGrid(g, n) && mask < 8
    requires j <= Strips(n) && i <= n && c <= 2
    requires p in g
    ensures var r := Fill(g, n, data, mask, j, i, c, k);
            && p in r
            && (g[p] != None ==> r[p] == g[p])
            && (!OnWalk(n, p) || !NotBefore(n, p, j, i, c) ==> r[p] == g[p])
            && (OnWalk(n, p) && NotBefore(n, p, j, i, c) ==> r[p] != None)
    decreases Strips(n) - j, n - i, 2 - c
  {
    hide Mask, DataBit;
    WalkIsBijective(n, p, j, i, c);
    if j == Strips(n) {
    } else if i == n {
      FillOnlyFree(g, n, data, mask, j + 1, 0, 0, k, p);
    } else if c == 2 {
      FillOnlyFree(g, n, data, mask, j, i + 1, 0, k, p);
    } else {
      var q := At(n, j, i, c);
      if g[q] == None {
        FillOnlyFree(g[q := Some(Stored(data, k, mask, q))], n, data, mask, j, i, c + 1, k + 1, p);
      } else {
        FillOnlyFree(g, n, data, mask, j, i, c + 1, k, p);
      }
    }
  }

  // `free` lists the modules that are null from step (j, i, c) on.
  ghost predicate Describes(free: set<Pos>, g: Grid, n: nat, j: nat, i: nat, c: nat)
    requires IsGrid(g, n)
  {
    forall p :: OnWalk(n, p) && NotBefore(n, p, j, i, c) ==> (p in free <==> g[p] == None)
  }

  // b is the data from bit k on, continued with zeros.
  predicate Streams(b: seq<bool>, data: seq<Byte>, k: nat) {
    forall m :: 0 <= m < |b| ==> b[m] == DataBit(data, k + m)
  }

  lemma StreamsNone(data: seq<Byte>, k: nat)
    ensures Streams([], data, k)
  {}

  lemma StreamsCons(x: bool, b: seq<bool>, data: seq<Byte>, k: nat)
    requires x == DataBit(data, k) && Streams(b, data, k + 1)
    ensures Streams([x] + b, data, k)
  {
    hide DataBit;
    forall m | 0 <= m < |b| + 1
      ensures ([x] + b)[m] == DataBit(data, k + m)
    {
      if m > 0 {
        assert b[m - 1] == DataBit(data, k + 1 + (m - 1));
      }
    }
  }

  // Reading the filled grid gives the data bits, then zeros.
  lemma {:induction false} ReadFill(g: Grid, free: set<Pos>, n: nat, data: seq<Byte>, mask: nat, j: nat, i: nat,
                                    c: nat, k: nat)
    requires IsSize(n) && IsGrid(g, n) && mask < 8
    requires j <= Strips(n) && i <= n && c <= 2
    requires Describes(free, g, n, j, i, c)
    ensures Streams(Read(Fill(g, n, data, mask, j, i, c, k), free, n, mask, j, i, c), data, k)
    decreases Strips(n) - j, n - i, 2 - c
  {
    hide Mask, Flips, DataBit, Streams;
    var r := Fill(g, n, data, mask, j, i, c, k);
    if j == Strips(n) {
      StreamsNone(data, k);
    } else if i == n {
      ReadFill(g, free, n, data, mask, j + 1, 0, 0, k);
    } else if c == 2 {
      ReadFill(g, free, n, data, mask, j, i + 1, 0, k);
    } else {
      WalkIsBijective(n, (0, 0), j, i, c);
      var p := At(n, j, i, c);
      assert NotBefore(n, p, j, i, c);
      MaskIsStandard(mask, p.0, p.1);
      if g[p] == None {
        var g' := g[p := Some(Stored(data, k, mask, p))];
        StillDescribes(g, g', free, n, j, i, c);
        ReadFill(g', free, n, data, mask, j, i, c + 1, k + 1);
        FillOnlyFree(g', n, data, mask, j, i, c + 1, k + 1, p);
        StreamsCons(DataBit(data, k), Read(r, free, n, mask, j, i, c + 1), data, k);
      } else {
        StillDescribes(g, g, free, n, j, i, c);
        ReadFill(g, free, n, data, mask, j, i, c + 1, k);
        assert [] + Read(r, free, n, mask, j, i, c + 1) == Read(r, free, n, mask, j, i, c + 1);
      }
    }
  }

  lemma StillDescribes(g: Grid, g': Grid, free: set<Pos>, n: nat, j: nat, i: nat, c: nat)
    requires IsSize(n) && IsGrid(g, n) && IsGrid(g', n) && j < Strips(n) && i < n && c < 2
    requires Describes(free, g, n, j, i, c)
    requires forall p :: OnWalk(n, p) && p != At(n, j, i, c) ==> g'[p] == g[p]
    ensures Describes(free, g', n, j, i, c + 1)
  {
    WalkIsBijective(n, (0, 0), j, i, c);
  }

  ghost function FreeFrom(free: set<Pos>, n: nat, j: nat, i: nat, c: nat): set<Pos> {
    set p | p in free && OnWalk(n, p) && NotBefore(n, p, j, i, c)
  }

  // One bit is read for every free module.
  lemma {:induction false} ReadLength(g: Grid, free: set<Pos>, n: nat, mask: nat, j: nat, i: nat, c: nat)
    requires IsSize(n) && IsGrid(g, n) && mask < 8
    requires j <= Strips(n) && i <= n && c <= 2
    ensures |Read(g, free, n, mask, j, i, c)| == |FreeFrom(free, n, j, i, c)|
    decreases Strips(n) - j, n - i, 2 - c
  {
    hide Flips, FreeFrom;
    if j == Strips(n) {
      NoneFree(free, n, i, c);
    } else if i == n {
      ReadLength(g, free, n, mask, j + 1, 0, 0);
      SameFree(free, n, j, i, c, j + 1, 0, 0);
    } else if c == 2 {
      ReadLength(g, free, n, mask, j, i + 1, 0);
      SameFree(free, n, j, i, c, j, i + 1, 0);
    } else {
      ReadLength(g, free, n, mask, j, i, c + 1);
      OneFreeLess(free, n, j, i, c);
    }
  }

  lemma NoneFree(free: set<Pos>, n: nat, i: nat, c: nat)
    requires IsSize(n)
    ensures FreeFrom(free, n, Strips(n), i, c) == {}
  {
    forall p | p in free && OnWalk(n, p)
      ensures !NotBefore(n, p, Strips(n), i, c)
    {
      WalkIsBijective(n, p, 0, 0, 0);
    }
  }

  lemma SameFree(free: set<Pos>, n: nat, j: nat, i: nat, c: nat, j': nat, i': nat, c': nat)
    requires IsSize(n)
    requires (i == n && j' == j + 1 && i' == 0 && c' == 0) || (c == 2 && j' == j && i' == i + 1 && c' == 0)
    ensures FreeFrom(free, n, j, i, c) == FreeFrom(free, n, j', i', c')
  {
    forall p | p in free && OnWalk(n, p)
      ensures NotBefore(n, p, j, i, c) <==> NotBefore(n, p, j', i', c')
    {
      WalkIsBijective(n, p, 0, 0, 0);
    }
  }

  lemma OneFreeLess(free: set<Pos>, n: nat, j: nat, i: nat, c: nat)
    requires IsSize(n) && j < Strips(n) && i < n && c < 2
    ensures var p := At(n, j, i, c);
            var rest := FreeFrom(free, n, j, i, c + 1);
            p !in rest && FreeFrom(free, n, j, i, c) == if p in free then rest + {p} else rest
  {
    WalkIsBijective(n, (0, 0), j, i, c);
    var p := At(n, j, i, c);
    forall q | q in free && OnWalk(n, q)
      ensures NotBefore(n, q, j, i, c) <==> q == p || NotBefore(n, q, j, i, c + 1)
    {
      WalkIsBijective(n, q, j, i, c);
    }
  }

  // With room for all of them, the data bytes are what is read first.
  lemma DataFirst(b: seq<bool>, data: seq<Byte>)
    requires Streams(b, data, 0) && 8 * |data| <= |b|
    ensures b[..8 * |data|] == BytesToBits(data)
  {
    forall m | 0 <= m < 8 * |data|
      ensures b[m] == BytesToBits(data)[m]
    {
      BytesToBitsAt(data, m);
      assert b[m] == DataBit(data, 0 + m);
    }
  }
}
