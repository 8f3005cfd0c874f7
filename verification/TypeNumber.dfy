// QRCodeLimitLength and _getTypeNumber: the version chosen for a text.
module TypeNumber {
  import opened Results
  import opened Utf8

  const LEVEL_M := 0
  const LEVEL_L := 1
  const LEVEL_H := 2
  const LEVEL_Q := 3

  // A row of a table with a column for each level.
  datatype Levels<T> = Levels(l: T, m: T, q: T, h: T) {
    function At(level: nat): T
      requires level < 4
    {
      if level == LEVEL_L then l else if level == LEVEL_M then m else if level == LEVEL_Q then q else h
    }
  }

  // No limit exceeds 2953, nor 230 before version 10.
  predicate AreLimits(limits: Levels<nat>, version: nat) {
    var most := if version < 10 then 230 else 2953;
    limits.l <= most && limits.m <= most && limits.q <= most && limits.h <= most
  }

  function Limits1(version: nat): (limits: Levels<nat>)
    requires 1 <= version <= 10
    ensures AreLimits(limits, version)
  {
    match version
    case 1 => Levels(17, 14, 11, 7)
    case 2 => Levels(32, 26, 20, 14)
    case 3 => Levels(53, 42, 32, 24)
    case 4 => Levels(78, 62, 46, 34)
    case 5 => Levels(106, 84, 60, 44)
    case 6 => Levels(134, 106, 74, 58)
    case 7 => Levels(154, 122, 86, 64)
    case 8 => Levels(192, 152, 108, 84)
    case 9 => Levels(230, 180, 130, 98)
    case _ => Levels(271, 213, 151, 119)
  }

  function Limits11(version: nat): (limits: Levels<nat>)
    requires 11 <= version <= 20
    ensures AreLimits(limits, version)
  {
    match version
    case 11 => Levels(321, 251, 177, 137)
    case 12 => Levels(367, 287, 203, 155)
    case 13 => Levels(425, 331, 241, 177)
    case 14 => Levels(458, 362, 258, 194)
    case 15 => Levels(520, 412, 292, 220)
    case 16 => Levels(586, 450, 322, 250)
    case 17 => Levels(644, 504, 364, 280)
    case 18 => Levels(718, 560, 394, 310)
    case 19 => Levels(792, 624, 442, 338)
    case _ => Levels(858, 666, 482, 382)
  }

  function Limits21(version: nat): (limits: Levels<nat>)
    requires 21 <= version <= 30
    ensures AreLimits(limits, version)
  {
    match version
    case 21 => Levels(929, 711, 509, 403)
    case 22 => Levels(1003, 779, 565, 439)
    case 23 => Levels(1091, 857, 611, 461)
    case 24 => Levels(1171, 911, 661, 511)
    case 25 => Levels(1273, 997, 715, 535)
    case 26 => Levels(1367, 1059, 751, 593)
    case 27 => Levels(1465, 1125, 805, 625)
    case 28 => Levels(1528, 1190, 868, 658)
    case 29 => Levels(1628, 1264, 908, 698)
    case _ => Levels(1732, 1370, 982, 742)
  }

  function Limits31(version: nat): (limits: Levels<nat>)
    requires 31 <= version <= 40
    ensures AreLimits(limits, version)
  {
    match version
    case 31 => Levels(1840, 1452, 1030, 790)
    case 32 => Levels(1952, 1538, 1112, 842)
    case 33 => Levels(2068, 1628, 1168, 898)
    case 34 => Levels(2188, 1722, 1228, 958)
    case 35 => Levels(2303, 1809, 1283, 983)
    case 36 => Levels(2431, 1911, 1351, 1051)
    case 37 => Levels(2563, 1989, 1423, 1093)
    case 38 => Levels(2699, 2099, 1499, 1139)
    case 39 => Levels(2809, 2213, 1579, 1219)
    case _ => Levels(2953, 2331, 1663, 1273)
  }

  // How many bytes a symbol of a version is meant to hold, by level.
  function LimitLength(version: nat): (limits: Levels<nat>)
    requires 1 <= version <= 40
    ensures AreLimits(limits, version)
  {
    if version <= 10 then Limits1(version)
    else if version <= 20 then Limits11(version)
    else if version <= 30 then Limits21(version)
    else Limits31(version)
  }

  // The limit for a level; the switch leaves 0 for what is no level.
  function Limit(version: nat, level: nat): nat
    requires 1 <= version <= 40
  {
    if level < 4 then LimitLength(version).At(level) else 0
  }

  lemma LimitsStep1(version: nat, level: nat)
    requires 1 <= version <= 20 && level < 4
    ensures LimitLength(version).At(level) < LimitLength(version + 1).At(level)
  {}

  lemma LimitsStep21(version: nat, level: nat)
    requires 21 <= version < 40 && level < 4
    ensures LimitLength(version).At(level) < LimitLength(version + 1).At(level)
  {}

  lemma {:induction false} LimitsGrow(version: nat, later: nat, level: nat)
    requires 1 <= version <= later <= 40 && level < 4
    ensures Limit(version, level) + (later - version) <= Limit(later, level)
  {
    hide LimitLength, Levels.At;
    if version < later {
      LimitsGrow(version, later - 1, level);
      if later <= 21 {
        LimitsStep1(later - 1, level);
      } else {
        LimitsStep21(later - 1, level);
      }
    }
  }

  // ---- the length of a text ----

  predicate HighSurrogate(c: nat) {
    0xD800 <= c < 0xDC00
  }

  predicate LowSurrogate(c: nat) {
    0xDC00 <= c < 0xE000
  }

  // The characters of encodeURI's result once every escaped byte is one
  // character: the length in UTF-8. A surrogate without its partner is an error.
  function UriLength(s: seq<Code>): Option<nat> {
    if s == [] then Some(0)
    else if HighSurrogate(s[0]) && |s| > 1 && LowSurrogate(s[1]) then
      match UriLength(s[2..])
      case None => None
      case Some(n) => Some(4 + n)
    else if Surrogate(s[0]) then None
    else
      match UriLength(s[1..])
      case None => None
      case Some(n) => Some(n + if s[0] < 0x80 then 1 else if s[0] < 0x800 then 2 else if s[0] < 0x10000 then 3 else 4)
  }

  // _getUTF8Length adds 3 unless the length equals the text itself, which is
  // then read as a number; `equal` says so.
  function Utf8Length(s: seq<Code>, equal: bool): Option<nat> {
    match UriLength(s)
    case None => None
    case Some(n) => Some(n + if equal then 0 else 3)
  }

  // ---- the version ----

  // The first version from v on whose limit the length keeps.
  function VersionFrom(length: nat, level: nat, v: nat): (r: Option<nat>)
    requires 1 <= v <= 41
    ensures r.Some? ==> v <= r.value <= 40 && length <= Limit(r.value, level)
    ensures forall w :: v <= w <= 40 && length <= Limit(w, level) ==> r.Some? && r.value <= w
    decreases 41 - v
  {
    hide LimitLength;
    if v == 41 then None else if length <= Limit(v, level) then Some(v) else VersionFrom(length, level, v + 1)
  }

  datatype TypeError = MalformedUri | PastTable | TooLong

  // The loop runs one row too far, so that a text beyond the last limit ends in
  // an access past the table; `TooLong` is left for what is no level.
  method GetTypeNumber(text: seq<Code>, level: nat, equal: bool) returns (r: Result<nat, TypeError>)
    ensures Utf8Length(text, equal) == None <==> r == Err(MalformedUri)
    ensures Utf8Length(text, equal) != None ==>
      match VersionFrom(Utf8Length(text, equal).value, level, 1)
      case None => r == Err(if level < 4 then PastTable else TooLong)
      case Some(version) => r == Ok(version)
  {
    hide LimitLength;
    var nType := 1;
    var counted := Utf8Length(text, equal);
    if counted == None {
      return Err(MalformedUri);
    }
    var length := counted.value;
    var i := 0;
    while i <= 40
      invariant 0 <= i <= 41 && nType == i + 1 && (level < 4 ==> i < 41)
      invariant VersionFrom(length, level, 1) == VersionFrom(length, level, if i < 40 then i + 1 else 41)
    {
      var nLimit := 0;
      if level < 4 {
        if i == 40 {
          return Err(PastTable);
        }
        nLimit := LimitLength(i + 1).At(level);
      }
      if length <= nLimit {
        break;
      } else {
        nType := nType + 1;
      }
      i := i + 1;
    }
    if nType > 40 {
      return Err(TooLong);
    }
    return Ok(nType);
  }

  predicate NoSurrogates(s: seq<Code>) {
    forall k :: 0 <= k < |s| ==> !Surrogate(s[k])
  }

  // Only surrogates, counted as pairs, take more bytes than the length says.
  lemma {:induction false} BytesWithinLength(s: seq<Code>)
    requires NoSurrogates(s)
    ensures UriLength(s).Some? && |EncodeAll(s)| <= UriLength(s).value
    ensures |ParsedData(s)| <= Utf8Length(s, false).value
  {
    if s != [] {
      assert !Surrogate(s[0]);
      assert forall k :: 0 <= k < |s[1..]| ==> s[1..][k] == s[k + 1];
      BytesWithinLength(s[1..]);
    }
  }

  predicate Ascii(s: seq<Code>) {
    forall k :: 0 <= k < |s| ==> s[k] < 0x80
  }

  lemma {:induction false} AsciiLength(s: seq<Code>)
    requires Ascii(s)
    ensures UriLength(s) == Some(|s|) && |EncodeAll(s)| == |s| && |ParsedData(s)| == |s|
  {
    if s != [] {
      assert s[0] < 0x80;
      assert forall k :: 0 <= k < |s[1..]| ==> s[1..][k] == s[k + 1];
      AsciiLength(s[1..]);
    }
  }
}
