// QR8bitByte: a string turned into bytes, and what a reader of RFC 3629 gets back.
module Utf8 {
  import opened Binary
  import opened Results

  // Character codes. charCodeAt yields only UTF-16 code units, those below
  // 0x10000; the encoder has a branch for the others too.
  type Code = n: int | 0 <= n < 0x110000

  // The bytes of one code. Masking and shifting a field is written as division
  // and remainder, OR-ing in a tag that shares no bit with it as addition.
  function EncodeCode(code: Code): seq<Byte> {
    if code > 0x10000 then
      [0xF0 + code / 0x40000 % 8, 0x80 + code / 0x1000 % 64, 0x80 + code / 0x40 % 64, 0x80 + code % 64]
    else if code > 0x800 then
      [0xE0 + code / 0x1000 % 16, 0x80 + code / 0x40 % 64, 0x80 + code % 64]
    else if code > 0x80 then
      [0xC0 + code / 0x40 % 32, 0x80 + code % 64]
    else
      [code]
  }

  function EncodeAll(s: seq<Code>): seq<Byte> {
    if s == [] then [] else EncodeCode(s[0]) + EncodeAll(s[1..])
  }

  const BOM: seq<Byte> := [239, 187, 191]

  function ParsedData(s: seq<Code>): seq<Byte> {
    var b := EncodeAll(s);
    if |b| != |s| then BOM + b else b
  }

  method EncodeOne(code: Code) returns (byteArray: seq<Byte>)
    ensures byteArray == EncodeCode(code)
  {
    if code > 0x10000 {
      byteArray := [0xF0 + code / 0x40000 % 8, 0x80 + code / 0x1000 % 64, 0x80 + code / 0x40 % 64, 0x80 + code % 64];
    } else if code > 0x800 {
      byteArray := [0xE0 + code / 0x1000 % 16, 0x80 + code / 0x40 % 64, 0x80 + code % 64];
    } else if code > 0x80 {
      byteArray := [0xC0 + code / 0x40 % 32, 0x80 + code % 64];
    } else {
      byteArray := [code];
    }
  }

  method ParseData(data: seq<Code>) returns (parsedData: seq<Byte>)
    ensures parsedData == ParsedData(data)
  {
    hide EncodeCode, EncodeAll, ParsedData;
    parsedData := [];
    EncodeEnds(data);
    for i := 0 to |data|
      invariant parsedData + EncodeAll(data[i..]) == EncodeAll(data)
    {
      var byteArray := EncodeOne(data[i]);
      EncodeStep(data, i, parsedData);
      parsedData := parsedData + byteArray;
    }
    if |parsedData| != |data| {
      parsedData := [191] + parsedData;
      parsedData := [187] + parsedData;
      parsedData := [239] + parsedData;
    }
    PrefixedOr(data, parsedData);
  }

  lemma PrefixedOr(s: seq<Code>, b: seq<Byte>)
    requires if |EncodeAll(s)| != |s| then b == [239] + ([187] + ([191] + EncodeAll(s))) else b == EncodeAll(s)
    ensures b == ParsedData(s)
  {
    hide EncodeAll;
  }

  lemma EncodeEnds(s: seq<Code>)
    ensures [] + EncodeAll(s[0..]) == EncodeAll(s)
    ensures forall b: seq<Byte> :: b + EncodeAll(s[|s|..]) == b
  {
    assert s[0..] == s && s[|s|..] == [];
  }

  lemma EncodeStep(s: seq<Code>, i: nat, before: seq<Byte>)
    requires i < |s|
    ensures before + EncodeAll(s[i..]) == before + EncodeCode(s[i]) + EncodeAll(s[i + 1..])
  {
    hide EncodeCode;
    assert s[i..][1..] == s[i + 1..];
  }

  // ---- the reader ----

  predicate Continuation(b: Byte) {
    0x80 <= b < 0xC0
  }

  predicate Surrogate(c: nat) {
    0xD800 <= c < 0xE000
  }

  // The payload bits of two, three and four byte sequences.
  function Payload2(a: nat, b: nat): nat {
    a % 32 * 64 + b % 64
  }

  function Payload3(a: nat, b: nat, c: nat): nat {
    a % 16 * 0x1000 + b % 64 * 64 + c % 64
  }

  function Payload4(a: nat, b: nat, c: nat, d: nat): nat {
    a % 8 * 0x40000 + b % 64 * 0x1000 + c % 64 * 64 + d % 64
  }

  // The first character of a well-formed sequence: its code and its length.
  function DecodeFirst(b: seq<Byte>): (r: Option<(nat, nat)>)
    ensures r.Some? ==> 0 < r.value.1 <= |b|
  {
    if b == [] then None
    else if b[0] < 0x80 then Some((b[0], 1))
    else if 0xC2 <= b[0] < 0xE0 && |b| >= 2 && Continuation(b[1]) then
      Some((Payload2(b[0], b[1]), 2))
    else if 0xE0 <= b[0] < 0xF0 && |b| >= 3 && Continuation(b[1]) && Continuation(b[2]) then
      var c := Payload3(b[0], b[1], b[2]);
      if c < 0x800 || Surrogate(c) then None else Some((c, 3))
    else if 0xF0 <= b[0] < 0xF5 && |b| >= 4
         && Continuation(b[1]) && Continuation(b[2]) && Continuation(b[3]) then
      var c := Payload4(b[0], b[1], b[2], b[3]);
      if c < 0x10000 || c > 0x10FFFF then None else Some((c, 4))
    else None
  }

  function Decode(b: seq<Byte>): Option<seq<nat>> {
    if b == [] then Some([])
    else
      match DecodeFirst(b)
      case None => None
      case Some((c, n)) =>
        match Decode(b[n..])
        case None => None
        case Some(rest) => Some([c] + rest)
  }

  // A reader leaves out a byte order mark (section 6 of RFC 3629).
  function ReadText(b: seq<Byte>): Option<seq<nat>> {
    Decode(if [0xEF, 0xBB, 0xBF] <= b then b[3..] else b)
  }

  // The codes whose bytes are not their UTF-8 form: the three boundaries that
  // the encoder tests with > instead of >=, and the surrogates.
  predicate Misencoded(code: nat) {
    code == 0x80 || code == 0x800 || code == 0x10000 || Surrogate(code)
  }

  lemma Fields2(code: nat)
    requires code < 0x800
    ensures 0 <= code / 0x40 < 32 && code / 0x40 * 0x40 + code % 64 == code
    ensures Payload2(0xC0 + code / 0x40 % 32, 0x80 + code % 64) == code
  {}

  lemma Fields3(code: nat)
    requires code < 0x10000
    ensures Payload3(0xE0 + code / 0x1000 % 16, 0x80 + code / 0x40 % 64, 0x80 + code % 64) == code
  {
    assert code / 0x40 == code / 0x1000 * 64 + code / 0x40 % 64;
  }

  lemma Fields4(code: nat)
    requires code < 0x200000
    ensures Payload4(0xF0 + code / 0x40000 % 8, 0x80 + code / 0x1000 % 64, 0x80 + code / 0x40 % 64, 0x80 + code % 64)
         == code
  {
    Payload4Of(code / 0x40000, code / 0x1000 % 64, code / 0x40 % 64, code % 64);
    Sixths(code);
  }

  lemma Payload4Of(a: nat, b: nat, c: nat, d: nat)
    requires a < 8 && b < 64 && c < 64 && d < 64
    ensures Payload4(0xF0 + a % 8, 0x80 + b, 0x80 + c, 0x80 + d) == a * 0x40000 + b * 0x1000 + c * 64 + d
  {}

  // Groups of six bits.
  lemma Sixths(code: nat)
    ensures code / 0x40 == code / 0x1000 * 64 + code / 0x40 % 64
    ensures code / 0x1000 == code / 0x40000 * 64 + code / 0x1000 % 64
    ensures code == code / 0x40000 * 0x40000 + code / 0x1000 % 64 * 0x1000 + code / 0x40 % 64 * 64 + code % 64
  {}

  lemma DecodeFour(code: Code, rest: seq<Byte>)
    requires code > 0x10000
    ensures DecodeFirst(EncodeCode(code) + rest) == Some((code, 4))
  {
    hide Payload2, Payload3, Payload4;
    Fields4(code);
    assert 1 <= code / 0x10000 && code / 0x40000 % 8 < 5;
  }

  lemma DecodeEncoded(code: Code, rest: seq<Byte>)
    ensures DecodeFirst(EncodeCode(code) + rest)
         == if Misencoded(code) then None else Some((code, |EncodeCode(code)|))
  {
    hide Payload2, Payload3, Payload4;
    if code > 0x10000 {
      DecodeFour(code, rest);
    } else if code > 0x800 {
      if code == 0x10000 {
        assert Payload3(0xE0, 0x80, 0x80) == 0 by {
          Fields3(0);
        }
      } else {
        Fields3(code);
      }
    } else if code > 0x80 {
      if code < 0x800 {
        Fields2(code);
        assert code / 0x40 >= 2;
      }
    }
  }

  predicate Encodable(s: seq<Code>) {
    forall k :: 0 <= k < |s| ==> !Misencoded(s[k])
  }

  lemma {:induction false} DecodeAll(s: seq<Code>)
    ensures Decode(EncodeAll(s)) == if Encodable(s) then Some(s) else None
  {
    if s != [] {
      var e, rest := EncodeCode(s[0]), EncodeAll(s[1..]);
      DecodeAll(s[1..]);
      DecodeEncoded(s[0], rest);
      assert (e + rest)[|e|..] == rest;
      assert Encodable(s) <==> !Misencoded(s[0]) && Encodable(s[1..]) by {
        SplitEncodable(s);
      }
      assert s == [s[0]] + s[1..];
    }
  }

  lemma SplitEncodable(s: seq<Code>)
    requires s != []
    ensures Encodable(s) <==> !Misencoded(s[0]) && Encodable(s[1..])
  {
    if !Misencoded(s[0]) && Encodable(s[1..]) {
      forall k | 0 <= k < |s|
        ensures !Misencoded(s[k])
      {
        assert k > 0 ==> s[k] == s[1..][k - 1];
      }
    }
  }

  lemma {:induction false} SingleBytes(s: seq<Code>)
    ensures |EncodeAll(s)| >= |s|
    ensures |EncodeAll(s)| == |s| && s != [] ==> EncodeAll(s)[0] <= 0x80
  {
    if s != [] {
      SingleBytes(s[1..]);
    }
  }

  // Every string without one of those codes reads back as itself, and no other does.
  lemma TextRoundTrip(s: seq<Code>)
    ensures ReadText(ParsedData(s)) == Some(s) <==> Encodable(s)
  {
    DecodeAll(s);
    SingleBytes(s);
    var b := EncodeAll(s);
    assert (BOM + b)[3..] == b;
  }

  // Cutting the bytes off anywhere loses characters, or leaves no text at all.
  lemma {:induction false} PrefixDecodesShorter(s: seq<Code>, p: seq<Byte>)
    requires p < EncodeAll(s)
    ensures Decode(p).Some? ==> |Decode(p).value| < |s|
  {
    hide Payload2, Payload3, Payload4;
    if p != [] {
      var e := EncodeCode(s[0]);
      if |p| < |e| {
        assert forall k :: 0 <= k < |p| ==> p[k] == e[k];
        assert DecodeFirst(p) == None;
      } else {
        var rest := p[|e|..];
        assert p == e + rest && rest < EncodeAll(s[1..]);
        DecodeEncoded(s[0], rest);
        PrefixDecodesShorter(s[1..], rest);
      }
    }
  }

  lemma PrefixReadsOther(s: seq<Code>, p: seq<Byte>)
    requires p < ParsedData(s)
    ensures ReadText(p) != Some(s)
  {
    var b := EncodeAll(s);
    SingleBytes(s);
    if |b| == |s| {
      assert p != [] ==> p[0] == b[0];
      PrefixDecodesShorter(s, p);
    } else if |p| < 3 {
      assert forall k :: 0 <= k < |p| ==> p[k] == BOM[k];
    } else {
      assert p == BOM + p[3..] && p[3..] < b;
      PrefixDecodesShorter(s, p[3..]);
    }
  }
}
