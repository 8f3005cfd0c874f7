// Grammars without greedy patterns: what tokenizing them means, as a program on
// lists that knows no index, no position and no splicing.
module PrismPlain {
  import opened Results
  import opened PrismTokens
  import opened PrismGrammar

  // The token of a matched string.
  ghost function TokenOf(key: string, p: Pattern, w: string): Result<Token, Error> {
    match p.inside
    case None => Ok(Token(key, Leaf(w), p.alias, |w|, p.greedy))
    case Some(g) =>
      match Tokens(w, g).result
      case Err(e) => Err(e)
      case Ok(_) => Ok(Token(key, Nested(Tokens(w, g).items), p.alias, |w|, p.greedy))
  }

  // A string as an entry of its own; the empty one is none.
  function Strings(s: string): seq<Item> {
    if s == "" then [] else [Text(s)]
  }

  // Where the token of a match starts: behind the lookbehind group.
  function From(p: Pattern, m: Match): nat {
    if p.lookbehind && m.group.Some? then m.index + m.group.value else m.index
  }

  function To(p: Pattern, m: Match): nat {
    if From(p, m) < m.index + m.length then m.index + m.length else From(p, m)
  }

  ghost function Before(first: seq<Item>, r: Run): Run {
    Run(first + r.items, r.result)
  }

  // One plain pattern goes through the entries: in each string its first match
  // becomes a token and the string behind it is searched next. `size` entries are
  // in the whole array; one that has outgrown the text is left as it is.
  ghost function Pass(key: string, p: Pattern, items: seq<Item>, size: nat, room: nat): Run
    requires |items| <= size
    decreases room - size, |items|
  {
    if items == [] || size > room then Run(items, Ok(()))
    else if items[0].Tok? || Exec(p, items[0].str, 0) == None then
      Before([items[0]], Pass(key, p, items[1..], size, room))
    else
      var w := items[0].str;
      var m := Exec(p, w, 0).value;
      match TokenOf(key, p, Slice(w, From(p, m), To(p, m)))
      case Err(e) => Run(items, Err(e))
      case Ok(token) =>
        var done := Strings(Slice(w, 0, From(p, m))) + [Tok(token)];
        var left := Strings(Slice(w, To(p, m), |w|));
        Before(done, Pass(key, p, left + items[1..], size - 1 + |done| + |left|, room))
  }

  ghost function PassPatterns(key: string, ps: seq<Pattern>, items: seq<Item>, room: nat): Run
    decreases |ps|
  {
    if ps == [] then Run(items, Ok(()))
    else
      var r := Pass(key, ps[0], items, |items|, room);
      if r.result.Err? then r else PassPatterns(key, ps[1..], r.items, room)
  }

  ghost function PassAll(es: seq<Entry>, items: seq<Item>, room: nat): Run
    decreases |es|
  {
    if es == [] then Run(items, Ok(()))
    else
      var r := PassPatterns(es[0].key, es[0].patterns, items, room);
      if r.result.Err? then r else PassAll(es[1..], r.items, room)
  }

  predicate Plain(es: seq<Entry>) {
    forall ki, c :: 0 <= ki < |es| && 0 <= c < |es[ki].patterns| ==> !es[ki].patterns[c].greedy
  }

  lemma MadeIs(es: seq<Entry>, ki: nat, c: nat, w: string)
    requires ki < |es| && c < |es[ki].patterns|
    ensures Made(es, ki, c, w) == TokenOf(es[ki].key, es[ki].patterns[c], w)
  {
    hide Tokens;
  }

  lemma PiecesAre(str: string, p: Pattern, m: Match, token: Token)
    ensures Pieces(str, MatchStart(p, m), MatchEnd(p, m), token)
         == Strings(Slice(str, 0, From(p, m))) + [Tok(token)] + Strings(Slice(str, To(p, m), |str|))
    ensures MatchStart(p, m) == From(p, m) && MatchEnd(p, m) == To(p, m)
  {
    hide Slice;
  }

  ghost function RunOf(w: Walk): Run {
    match w
    case Finished(t) => Run(t, Ok(()))
    case Returned(t) => Run(t, Ok(()))
    case Threw(t, e) => Run(t, Err(e))
  }

  // The walk of a plain pattern from entry b on.
  lemma {:induction false} ScanPasses(text: string, t: seq<Item>, es: seq<Entry>, ki: nat, stop: nat, c: nat, b: nat,
                                      k: nat)
    requires ki < stop <= |es| && c < |es[ki].patterns| && !es[ki].patterns[c].greedy && b <= |t|
    ensures var w := Scan(text, t, es, ki, stop, c, b, k, false);
            && RunOf(w) == Before(t[..b], Pass(es[ki].key, es[ki].patterns[c], t[b..], |t|, |text|))
            && (w.Returned? ==> |w.items| > |text|)
    decreases |text| - |t|, |t| - b
  {
    hide Exec, Slice, TokenOf, Made, Insert;
    var key, p := es[ki].key, es[ki].patterns[c];
    var items := t[b..];
    assert t == t[..b] + items;
    if b < |t| && |t| <= |text| {
      assert items[1..] == t[b + 1..] && t[..b + 1] == t[..b] + [t[b]];
      if t[b].Tok? || Exec(p, t[b].str, 0) == None {
        ScanPasses(text, t, es, ki, stop, c, b + 1, k + Len(t[b]));
      } else {
        InsertPasses(text, t, es, ki, stop, c, b, k);
      }
    }
  }

  lemma {:induction false} InsertPasses(text: string, t: seq<Item>, es: seq<Entry>, ki: nat, stop: nat, c: nat, b: nat,
                                        k: nat)
    requires ki < stop <= |es| && c < |es[ki].patterns| && !es[ki].patterns[c].greedy && b < |t| <= |text|
    requires t[b].Text? && Exec(es[ki].patterns[c], t[b].str, 0).Some?
    ensures var w := Scan(text, t, es, ki, stop, c, b, k, false);
            && RunOf(w) == Before(t[..b], Pass(es[ki].key, es[ki].patterns[c], t[b..], |t|, |text|))
            && (w.Returned? ==> |w.items| > |text|)
    decreases |text| - |t|, |t| - b, 0
  {
    hide Exec, Slice, TokenOf, Made, Scan, Pass, Splice, Pieces, Strings, From, To;
    var key, p, w := es[ki].key, es[ki].patterns[c], t[b].str;
    var m := Exec(p, w, 0).value;
    var cut := Slice(w, From(p, m), To(p, m));
    ScanHits(text, t, es, ki, stop, c, b, k);
    MadeIs(es, ki, c, cut);
    PassHits(key, p, t[b..], |t|, |text|);
    assert t[b..][0] == t[b] && t[b..][1..] == t[b + 1..] && t == t[..b] + t[b..];
    if TokenOf(key, p, cut).Ok? {
      var token := TokenOf(key, p, cut).value;
      PiecesAre(w, p, m, token);
      SameCut(p, m, w);
      var before := Slice(w, 0, From(p, m));
      var done, left := Strings(before) + [Tok(token)], Strings(Slice(w, To(p, m), |w|));
      StringsSize(before);
      var t' := Splice(t, b, 1, done + left);
      Spliced(t, b, done, left);
      var b' := b + |done| - 1;
      StringsSize(Slice(w, To(p, m), |w|));
      ScanPasses(text, t', es, ki, stop, c, b' + 1, k + |before| + Len(t'[b']));
      Associates(t[..b], done, Pass(key, p, left + t[b + 1..], |t| - 1 + |done| + |left|, |text|));
    }
  }

  lemma StringsSize(s: string)
    ensures |Strings(s)| == if s == "" then 0 else 1
  {}

  lemma Spliced(t: seq<Item>, b: nat, done: seq<Item>, left: seq<Item>)
    requires b < |t|
    ensures var t' := Splice(t, b, 1, done + left);
            && |t'| == |t| - 1 + |done| + |left|
            && t'[..b + |done|] == t[..b] + done && t'[b + |done|..] == left + t[b + 1..]
  {
    assert Splice(t, b, 1, done + left) == (t[..b] + done) + (left + t[b + 1..]);
  }

  lemma Associates(a: seq<Item>, b: seq<Item>, r: Run)
    ensures Before(a + b, r) == Before(a, Before(b, r))
  {
    assert (a + b) + r.items == a + (b + r.items);
  }

  lemma PassHits(key: string, p: Pattern, items: seq<Item>, size: nat, room: nat)
    requires items != [] && |items| <= size <= room && items[0].Text? && Exec(p, items[0].str, 0).Some?
    ensures var w := items[0].str;
            var m := Exec(p, w, 0).value;
            Pass(key, p, items, size, room)
            == match TokenOf(key, p, Slice(w, From(p, m), To(p, m)))
               case Err(e) => Run(items, Err(e))
               case Ok(token) =>
                 var done := Strings(Slice(w, 0, From(p, m))) + [Tok(token)];
                 var left := Strings(Slice(w, To(p, m), |w|));
                 Before(done, Pass(key, p, left + items[1..], size - 1 + |done| + |left|, room))
  {
    hide Exec, Slice, TokenOf, From, To, Strings;
  }

  // A match in one string, as the walk takes it.
  lemma ScanHits(text: string, t: seq<Item>, es: seq<Entry>, ki: nat, stop: nat, c: nat, b: nat, k: nat)
    requires ki < stop <= |es| && c < |es[ki].patterns| && !es[ki].patterns[c].greedy && b < |t| <= |text|
    requires t[b].Text? && Exec(es[ki].patterns[c], t[b].str, 0).Some?
    ensures var p, w := es[ki].patterns[c], t[b].str;
            var m := Exec(p, w, 0).value;
            var before := Slice(w, 0, From(p, m));
            Scan(text, t, es, ki, stop, c, b, k, false)
            == match Made(es, ki, c, Slice(w, From(p, m), To(p, m)))
               case Err(e) => Threw(t, e)
               case Ok(token) =>
                 var t' := Splice(t, b, 1, Pieces(w, From(p, m), To(p, m), token));
                 var b' := if before == "" then b else b + 1;
                 if b' >= |t'| then Threw(t', NoEntry)
                 else Scan(text, t', es, ki, stop, c, b' + 1, k + |before| + Len(t'[b']), false)
  {
    hide Exec, Slice, Splice, Pieces, Made;
    var p, w := es[ki].patterns[c], t[b].str;
    var m := Exec(p, w, 0).value;
    SameCut(p, m, w);
    assert Find(text, t, p, b, k) == Hit(b, k, 1, w, From(p, m), To(p, m));
    hide Find;
    assert Scan(text, t, es, ki, stop, c, b, k, false)
        == Insert(text, t, es, ki, stop, c, b, b, k, 1, w, From(p, m), To(p, m), false);
    hide Scan;
    StopAt(es, ki);
  }

  lemma SameCut(p: Pattern, m: Match, w: string)
    ensures MatchStart(p, m) == From(p, m) && MatchEnd(p, m) == To(p, m)
  {}

  lemma {:induction false} PatternsPass(text: string, t: seq<Item>, es: seq<Entry>, ki: nat, stop: nat, c: nat)
    requires ki < stop <= |es| && c <= |es[ki].patterns| && Plain(es)
    ensures var r := PassPatterns(es[ki].key, es[ki].patterns[c..], t, |text|);
            Patterns(text, t, es, ki, stop, c, 0, 0, false)
            == if r.result.Err? then r else Keys(text, r.items, es, ki + 1, stop, 0, 0, false)
    decreases |es[ki].patterns| - c
  {
    hide Scan, Pass, Keys;
    if c < |es[ki].patterns| {
      var p := es[ki].patterns[c];
      ScanPasses(text, t, es, ki, stop, c, 0, 0);
      var w := Scan(text, t, es, ki, stop, c, 0, 0, false);
      assert t[0..] == t && t[..0] == [];
      var r := Pass(es[ki].key, p, t, |t|, |text|);
      assert RunOf(w) == r by {
        assert [] + r.items == r.items;
      }
      assert es[ki].patterns[c..][1..] == es[ki].patterns[c + 1..];
      PatternsPass(text, r.items, es, ki, stop, c + 1);
      if w.Returned? {
        TooMany(es[ki].key, es[ki].patterns[c + 1..], r.items, |text|);
        KeysTooMany(text, r.items, es, ki + 1, stop, 0, 0, false);
      }
    }
  }

  // An array that has outgrown the text stays as it is.
  lemma {:induction false} TooMany(key: string, ps: seq<Pattern>, t: seq<Item>, room: nat)
    requires |t| > room
    ensures PassPatterns(key, ps, t, room) == Run(t, Ok(()))
    decreases |ps|
  {
    if ps != [] {
      TooMany(key, ps[1..], t, room);
    }
  }

  lemma {:induction false} KeysTooMany(text: string, t: seq<Item>, es: seq<Entry>, ki: nat, stop: nat, b: nat, k: nat,
                                       oneshot: bool)
    requires ki <= stop <= |es| && |t| > |text|
    ensures Keys(text, t, es, ki, stop, b, k, oneshot) == Run(t, Ok(()))
    decreases stop - ki
  {
    hide Patterns;
    if ki < stop {
      PatternsTooMany(text, t, es, ki, stop, 0, b, k, oneshot);
    }
  }

  lemma {:induction false} PatternsTooMany(text: string, t: seq<Item>, es: seq<Entry>, ki: nat, stop: nat, c: nat,
                                           b: nat, k: nat, oneshot: bool)
    requires ki < stop <= |es| && c <= |es[ki].patterns| && |t| > |text|
    ensures Patterns(text, t, es, ki, stop, c, b, k, oneshot) == Run(t, Ok(()))
    decreases stop - ki, |es[ki].patterns| - c
  {
    hide Keys;
    if c == |es[ki].patterns| {
      KeysTooMany(text, t, es, ki + 1, stop, b, k, oneshot);
    } else if b >= |t| {
      PatternsTooMany(text, t, es, ki, stop, c + 1, b, k, oneshot);
    }
  }

  lemma {:induction false} KeysPass(text: string, t: seq<Item>, es: seq<Entry>, ki: nat)
    requires ki <= |es| && Plain(es)
    ensures Keys(text, t, es, ki, |es|, 0, 0, false) == PassAll(es[ki..], t, |text|)
    decreases |es| - ki
  {
    hide Patterns, PassPatterns, Plain;
    if ki < |es| {
      PatternsPass(text, t, es, ki, |es|, 0);
      assert es[ki].patterns[0..] == es[ki].patterns;
      var r := PassPatterns(es[ki].key, es[ki].patterns, t, |text|);
      assert es[ki..][1..] == es[ki + 1..];
      KeysPass(text, r.items, es, ki + 1);
    }
  }

  lemma {:induction false} NoTarget(es: seq<Entry>)
    ensures Stop(es, None) == |es|
  {
    if es != [] {
      NoTarget(es[1..]);
    }
  }

  // Tokenizing with plain patterns is the list program, whatever the patterns inside
  // them are, also when it throws or stops early.
  lemma PlainTokens(text: string, g: Grammar)
    requires Plain(Merge(g.entries, g.rest))
    ensures Tokens(text, g) == PassAll(Merge(g.entries, g.rest), [Text(text)], |text|)
  {
    hide Merge, Keys, PassAll, Plain;
    var es := Merge(g.entries, g.rest);
    NoTarget(es);
    KeysPass(text, [Text(text)], es, 0);
    assert es[0..] == es;
  }
}
