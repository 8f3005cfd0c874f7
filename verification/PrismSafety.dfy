// When tokenizing cannot throw, and when the markup of its tokens is well formed.
module PrismSafety {
  import opened Results
  import opened PrismTokens
  import opened PrismGrammar
  import opened PrismLossless

  // The searches a greedy pattern is used for: from the start of a text that has been
  // split in two, or from inside one that has been split in three.
  predicate CanStart(s: string, start: nat) {
    (|s| >= 2 && start == 0) || (|s| >= 3 && 0 < start < |s|)
  }

  // A match on which matchGrammar throws: the empty string at the very start of the
  // text, or one in which the lookbehind group takes no part.
  predicate IsBad(p: Pattern, m: Match) {
    m.index + m.length == 0 || (p.lookbehind && m.group == None)
  }

  // A greedy pattern never finds such a match in a search it is used for.
  ghost predicate Tame(p: Pattern) {
    p.greedy ==> forall s, start :: CanStart(s, start) && Exec(p, s, start).Some? ==> !IsBad(p, Exec(p, s, start).value)
  }

  // Keys and aliases contain no double quote.
  predicate CleanNames(key: string, p: Pattern) {
    NoQuote(key) && forall a :: a in p.alias ==> NoQuote(a)
  }

  ghost predicate TamePatterns(ps: seq<Pattern>) {
    ps == [] || (Tame(ps[0]) && TameInside(ps[0]) && TamePatterns(ps[1..]))
  }

  ghost predicate TameInside(p: Pattern) {
    match p.inside
    case None => true
    case Some(g) => TameEntries(g.entries) && TameEntries(g.rest)
  }

  ghost predicate TameEntries(es: seq<Entry>) {
    es == [] || (TamePatterns(es[0].patterns) && TameEntries(es[1..]))
  }

  predicate CleanPatterns(key: string, ps: seq<Pattern>)
    decreases ps
  {
    ps == [] || (CleanNames(key, ps[0]) && CleanInside(ps[0]) && CleanPatterns(key, ps[1..]))
  }

  predicate CleanInside(p: Pattern)
    decreases p
  {
    match p.inside
    case None => true
    case Some(g) => CleanEntries(g.entries) && CleanEntries(g.rest)
  }

  predicate CleanEntries(es: seq<Entry>)
    decreases es
  {
    es == [] || (CleanPatterns(es[0].key, es[0].patterns) && CleanEntries(es[1..]))
  }

  lemma {:induction false} PutSafe(es: seq<Entry>, e: Entry)
    ensures TameEntries(es) && TamePatterns(e.patterns) ==> TameEntries(Put(es, e))
    ensures CleanEntries(es) && CleanPatterns(e.key, e.patterns) ==> CleanEntries(Put(es, e))
  {
    hide TamePatterns, CleanPatterns;
    if es == [] {
      assert [e][1..] == [];
    } else if es[0].key == e.key {
      assert ([e] + es[1..])[1..] == es[1..];
    } else {
      PutSafe(es[1..], e);
      assert ([es[0]] + Put(es[1..], e))[1..] == Put(es[1..], e);
    }
  }

  lemma {:induction false} MergeSafe(es: seq<Entry>, rest: seq<Entry>)
    ensures TameEntries(es) && TameEntries(rest) ==> TameEntries(Merge(es, rest))
    ensures CleanEntries(es) && CleanEntries(rest) ==> CleanEntries(Merge(es, rest))
    decreases |rest|
  {
    hide TamePatterns, CleanPatterns;
    if rest != [] {
      PutSafe(es, rest[0]);
      MergeSafe(Put(es, rest[0]), rest[1..]);
    }
  }

  lemma {:induction false} PatternAt(es: seq<Entry>, ki: nat, c: nat)
    requires ki < |es| && c < |es[ki].patterns|
    ensures TameEntries(es) ==> Tame(es[ki].patterns[c]) && TameInside(es[ki].patterns[c])
    ensures CleanEntries(es) ==> CleanNames(es[ki].key, es[ki].patterns[c]) && CleanInside(es[ki].patterns[c])
  {
    hide Tame, TameInside, CleanNames, CleanInside;
    if ki > 0 {
      PatternAt(es[1..], ki - 1, c);
    } else {
      PatternIn(es[0].key, es[0].patterns, c);
    }
  }

  lemma {:induction false} PatternIn(key: string, ps: seq<Pattern>, c: nat)
    requires c < |ps|
    ensures TamePatterns(ps) ==> Tame(ps[c]) && TameInside(ps[c])
    ensures CleanPatterns(key, ps) ==> CleanNames(key, ps[c]) && CleanInside(ps[c])
  {
    hide Tame, TameInside, CleanNames, CleanInside;
    if c > 0 {
      PatternIn(key, ps[1..], c - 1);
    }
  }

  // ---- runs ----

  ghost predicate AllClean(t: seq<Item>) {
    forall i :: 0 <= i < |t| ==> CleanItem(t[i])
  }

  // No string in the array is empty, unless there is nothing to tokenize.
  ghost predicate Filled(text: string, t: seq<Item>) {
    text != "" ==> forall i :: 0 <= i < |t| ==> t[i] != Text("")
  }

  ghost predicate SafeItems(text: string, es: seq<Entry>, t: seq<Item>, r: seq<Item>) {
    && (CleanEntries(es) && AllClean(t) ==> AllClean(r))
    && (AllMade(es, t) ==> AllMade(es, r))
    && (Filled(text, t) ==> Filled(text, r))
  }

  // The string a pattern matched, without the lookbehind.
  function MatchText(p: Pattern, s: string, start: nat): Option<string> {
    match Exec(p, s, start)
    case None => None
    case Some(m) =>
      Some(Slice(s, MatchStart(p, m), m.index + m.length))
  }

  ghost predicate Matches(p: Pattern, w: string) {
    exists s: string, start: nat :: MatchText(p, s, start) == Some(w)
  }

  // A token of a pattern: its text is a match, tokenized by `inside` if there is one.
  ghost predicate IsTokenOf(key: string, p: Pattern, t: Token) {
    var w := ContentText(t.content);
    && t.kind == key && t.alias == p.alias && t.greedy == p.greedy && t.length == |w| && Matches(p, w)
    && t.content == (match p.inside case None => Leaf(w) case Some(g) => Nested(Tokens(w, g).items))
  }

  ghost predicate IsMade(es: seq<Entry>, i: Item) {
    i.Tok? ==> exists ki: nat, c: nat ::
      ki < |es| && c < |es[ki].patterns| && IsTokenOf(es[ki].key, es[ki].patterns[c], i.token)
  }

  ghost predicate AllMade(es: seq<Entry>, t: seq<Item>) {
    forall i :: 0 <= i < |t| ==> IsMade(es, t[i])
  }

  ghost predicate SafeRun(text: string, es: seq<Entry>, t: seq<Item>, r: Run) {
    SafeItems(text, es, t, r.items) && (TameEntries(es) && Filled(text, t) ==> r.result.Ok?)
  }

  ghost predicate SafeWalk(text: string, es: seq<Entry>, t: seq<Item>, w: Walk) {
    SafeItems(text, es, t, w.items) && (TameEntries(es) && Filled(text, t) ==> !w.Threw?)
  }

  lemma {:induction false} ReachOk(t: seq<Item>, a: nat, x: nat, b: nat, k: nat, from: nat, to: nat)
    requires b <= a && k <= from && k <= x && (a > 0 || to > x)
    ensures Reach(t, a, x, b, k, from, to).Ok?
    decreases |t| - a
  {
    if a < |t| && (x < to || (Untyped(t[a]) && !Greedy(t[a - 1]))) {
      var x' := x + Len(t[a]);
      if from >= x' {
        ReachOk(t, a + 1, x', b + 1, x', from, to);
      } else {
        ReachOk(t, a + 1, x', b, k, from, to);
      }
    }
  }

  lemma FindOk(text: string, t: seq<Item>, p: Pattern, b: nat, k: nat)
    requires Tame(p) && b < |t| && t[b].Text? && (b == 0 ==> k == 0) && (b < |t| - 1 ==> CanStart(text, k))
    ensures !Find(text, t, p, b, k).Bad?
  {
    hide Exec, Reach, CanStart;
    var r := Exec(p, text, k);
    if p.greedy && b != |t| - 1 && r.Some? {
      var m := r.value;
      ReachOk(t, b, k, b, k, MatchStart(p, m), m.index + m.length);
    }
  }

  // Where the walk reaches a string that is not the last entry.
  lemma StartsOk(text: string, t: seq<Item>, b: nat, k: nat)
    requires Inv(text, t) && At(t, b, k) && Filled(text, t) && b < |t| - 1 && |t| <= |text| && t[b].Text?
    ensures CanStart(text, k)
  {
    hide TextOf, AllWell;
    NextAt(t, b, k);
    TextBetween(t, b, b + 1);
    FirstAt(t, b, k);
  }

  lemma SliceOfSlice(text: string, k: nat, x: nat, from: nat, to: nat, end: nat)
    requires k <= from && k <= x <= |text| && to <= x && end == if from <= to then to else from
    ensures Slice(Slice(text, k, x), from - k, end - k) == Slice(text, from, to)
  {
    if from <= to {
      var inner, outer := text[k..x][from - k..to - k], text[from..to];
      assert |inner| == |outer|;
      forall i | 0 <= i < |inner|
        ensures inner[i] == outer[i]
      {
        assert inner[i] == text[k..x][from - k + i] == text[from + i];
      }
    }
  }

  lemma MatchAt(p: Pattern, s: string, start: nat)
    requires Exec(p, s, start).Some?
    ensures var m := Exec(p, s, start).value;
            Matches(p, Slice(s, MatchStart(p, m), m.index + m.length))
  {
    hide Exec, Slice;
    assert MatchText(p, s, start).Some?;
  }

  lemma GreedyMatches(text: string, t: seq<Item>, p: Pattern, b: nat, k: nat)
    requires Inv(text, t) && At(t, b, k)
    ensures var f := FindGreedy(text, t, p, b, k);
            f.Hit? ==> Matches(p, Slice(f.str, f.start, f.stop))
  {
    hide At, TextOf, Exec, AllWell, Slice, Reach, Matches;
    var r := Exec(p, text, k);
    if r.Some? && !(p.lookbehind && r.value.group == None) {
      var m := r.value;
      var from, to := MatchStart(p, m), m.index + m.length;
      MatchAt(p, text, k);
      ReachSound(t, b, k, b, k, from, to);
      var reach := Reach(t, b, k, b, k, from, to);
      if reach.Ok? {
        var (a, x, b', k') := reach.value;
        AtInside(t, a, x);
        SpanText(text, t, a, x, b', k');
        EndReached(text, t, a, x, to);
        SliceOfSlice(text, k', x, from, to, MatchEnd(p, m));
      }
    }
  }

  lemma SameCut(p: Pattern, m: Match, s: string)
    ensures Slice(s, MatchStart(p, m), MatchEnd(p, m)) == Slice(s, MatchStart(p, m), m.index + m.length)
  {}

  // What a hit covers is a match of the pattern.
  lemma HitMatches(text: string, t: seq<Item>, p: Pattern, b: nat, k: nat)
    requires Inv(text, t) && At(t, b, k) && b < |t| && t[b].Text?
    ensures var f := Find(text, t, p, b, k);
            f.Hit? ==> Matches(p, Slice(f.str, f.start, f.stop))
  {
    hide At, Inv, Exec, Matches, FindGreedy;
    if p.greedy && b != |t| - 1 {
      GreedyMatches(text, t, p, b, k);
    } else if Exec(p, t[b].str, 0).Some? {
      MatchAt(p, t[b].str, 0);
      SameCut(p, Exec(p, t[b].str, 0).value, t[b].str);
    }
  }

  predicate CleanGrammar(g: Grammar) {
    CleanEntries(g.entries) && CleanEntries(g.rest)
  }

  ghost predicate TameGrammar(g: Grammar) {
    TameEntries(g.entries) && TameEntries(g.rest)
  }

  // With clean names every tag is well formed; with tame patterns nothing throws.
  lemma {:induction false} TokensSafe(text: string, g: Grammar)
    ensures CleanGrammar(g) ==> Clean(Tokens(text, g).items)
    ensures TameGrammar(g) ==> Tokens(text, g).result.Ok?
    ensures AllMade(Merge(g.entries, g.rest), Tokens(text, g).items)
    decreases GrammarWeight(g)
  {
    hide Matched, Merge, TameEntries, CleanEntries, IsTokenOf;
    MergeWeight(g.entries, g.rest);
    MergeSafe(g.entries, g.rest);
    StartWhole(text);
    MatchedSafe(text, [Text(text)], Merge(g.entries, g.rest), 0, 0, false, None);
    if AllClean(Tokens(text, g).items) {
      CleanFromAll(Tokens(text, g).items);
    }
  }

  lemma {:induction false} CleanFromAll(t: seq<Item>)
    requires AllClean(t)
    ensures Clean(t)
  {
    hide CleanItem;
    if t != [] {
      CleanFromAll(t[1..]);
    }
  }

  lemma {:induction false} MatchedSafe(text: string, t: seq<Item>, es: seq<Entry>, index: nat, pos: nat, oneshot: bool,
                                       target: Option<string>)
    requires Inv(text, t) && At(t, index, pos)
    ensures SafeRun(text, es, t, Matched(text, t, es, index, pos, oneshot, target))
    decreases Weight(es), Stop(es, target)
  {
    hide Keys, SafeRun;
    KeysSafe(text, t, es, 0, Stop(es, target), index, pos, oneshot);
  }

  lemma {:induction false} KeysSafe(text: string, t: seq<Item>, es: seq<Entry>, ki: nat, stop: nat, index: nat,
                                    pos: nat, oneshot: bool)
    requires ki <= stop <= |es| && Inv(text, t) && At(t, index, pos)
    ensures SafeRun(text, es, t, Keys(text, t, es, ki, stop, index, pos, oneshot))
    decreases Weight(es), stop, stop - ki
  {
    hide Patterns, TameEntries, CleanEntries, AllClean, AllMade, Filled;
    if ki < stop {
      PatternsSafe(text, t, es, ki, stop, 0, index, pos, oneshot);
    }
  }

  lemma {:induction false} PatternsSafe(text: string, t: seq<Item>, es: seq<Entry>, ki: nat, stop: nat, c: nat,
                                        index: nat, pos: nat, oneshot: bool)
    requires ki < stop <= |es| && c <= |es[ki].patterns| && Inv(text, t) && At(t, index, pos)
    ensures SafeRun(text, es, t, Patterns(text, t, es, ki, stop, c, index, pos, oneshot))
    decreases Weight(es), stop, stop - ki, |es[ki].patterns| - c
  {
    hide Keys, Scan, Keeps, Inv, At, TameEntries, CleanEntries, AllClean, AllMade, Filled;
    if c == |es[ki].patterns| {
      KeysSafe(text, t, es, ki + 1, stop, index, pos, oneshot);
    } else {
      ScanSafe(text, t, es, ki, stop, c, index, pos, oneshot);
      ScanKeeps(text, t, es, ki, stop, c, index, pos, oneshot);
      match Scan(text, t, es, ki, stop, c, index, pos, oneshot) {
        case Finished(t') =>
          SameStart(text, t, t', index, pos);
          PatternsSafe(text, t', es, ki, stop, c + 1, index, pos, oneshot);
        case _ =>
      }
    }
  }

  lemma {:induction false} ScanSafe(text: string, t: seq<Item>, es: seq<Entry>, ki: nat, stop: nat, c: nat, b: nat,
                                    k: nat, oneshot: bool)
    requires ki < stop <= |es| && c < |es[ki].patterns| && Inv(text, t) && At(t, b, k)
    ensures SafeWalk(text, es, t, Scan(text, t, es, ki, stop, c, b, k, oneshot))
    decreases Weight(es), stop, stop - ki, |es[ki].patterns| - c, |text| - b, 0
  {
    hide Insert, Find, At, Inv, AllWell, Len, GoodFind, Keeps, TameEntries, CleanEntries, AllClean, AllMade, Tame,
         Matches, CanStart;
    hide Filled;
    if b < |t| && |t| <= |text| {
      WellOf(text, t);
      if t[b].Tok? {
        NextAt(t, b, k);
        ScanSafe(text, t, es, ki, stop, c, b + 1, k + Len(t[b]), oneshot);
      } else {
        var f := Find(text, t, es[ki].patterns[c], b, k);
        FindSound(text, t, es[ki].patterns[c], b, k);
        match f {
          case Nothing =>
            if !oneshot {
              NextAt(t, b, k);
              ScanSafe(text, t, es, ki, stop, c, b + 1, k + Len(t[b]), oneshot);
            }
          case GiveUp =>
          case Skip(b', k') =>
            SkipsTo(t, b, f);
            NextAt(t, b', k');
            ScanSafe(text, t, es, ki, stop, c, b' + 1, k' + Len(t[b']), oneshot);
          case Bad(e) =>
            PatternAt(es, ki, c);
            FirstAt(t, b, k);
            if TameEntries(es) && Filled(text, t) {
              if b < |t| - 1 {
                StartsOk(text, t, b, k);
              }
              FindOk(text, t, es[ki].patterns[c], b, k);
            }
          case Hit(b', k', del, str, start, end) =>
            HitMatches(text, t, es[ki].patterns[c], b, k);
            InsertSafe(text, t, es, ki, stop, c, b, b', k', del, str, start, end, oneshot);
        }
      }
    }
  }

  lemma FirstAt(t: seq<Item>, b: nat, k: nat)
    requires At(t, b, k)
    ensures b == 0 ==> k == 0
  {}

  lemma {:induction false} InsertSafe(text: string, t: seq<Item>, es: seq<Entry>, ki: nat, stop: nat, c: nat,
                                      visited: nat, b: nat, k: nat, del: nat, str: string, start: nat, end: nat,
                                      oneshot: bool)
    requires ki < stop <= |es| && c < |es[ki].patterns| && visited < |t| <= |text| && Inv(text, t)
    requires GoodFind(t, visited, Hit(b, k, del, str, start, end))
    requires Matches(es[ki].patterns[c], Slice(str, start, end))
    ensures SafeWalk(text, es, t, Insert(text, t, es, ki, stop, c, visited, b, k, del, str, start, end, oneshot))
    decreases Weight(es), stop, stop - ki, |es[ki].patterns| - c, |text| - visited - 1, 1
  {
    hide AllWell, At, Inv, Scan, Matched, Made, Keeps, Splice, Pieces, GoodFind, TameEntries, CleanEntries, AllClean,
         AllMade, Filled;
    hide IsMade, Matches;
    HitText(t, visited, b, k, del, str, start, end);
    MadeSound(es, ki, c, Slice(str, start, end));
    MadeSafe(es, ki, c, Slice(str, start, end));
    var made := Made(es, ki, c, Slice(str, start, end));
    if made.Ok? {
      var before := Slice(str, 0, start);
      var pieces := Pieces(str, start, end, made.value);
      var t' := Splice(t, b, del, pieces);
      var b', k' := if before == "" then b else b + 1, k + |before|;
      InsertSound(text, t, visited, b, k, del, str, start, end, made.value);
      SpliceClean(text, es, t, b, del, str, start, end, made.value);
      StopAt(es, ki);
      KeepsInv(text, t, t', visited);
      var run := if del == 1 then Run(t', Ok(())) else Matched(text, t', es, b', k', true, Some(es[ki].key));
      if del != 1 {
        MatchedSafe(text, t', es, b', k', true, Some(es[ki].key));
        MatchedKeeps(text, t', es, b', k', true, Some(es[ki].key));
      }
      AfterInsertAt(text, t, t', visited, b', k', run);
      if run.result.Ok? && !oneshot {
        ScanSafe(text, run.items, es, ki, stop, c, b' + 1, k' + Len(run.items[b']), oneshot);
      }
    }
  }

  // After the earlier patterns were tried again the new token is still there.
  lemma AfterInsertAt(text: string, t: seq<Item>, t': seq<Item>, visited: nat, b: nat, k: nat, run: Run)
    requires Replaced(text, t, t', visited, b, k)
    requires run == Run(t', Ok(())) || GoodRun(text, t', Fixed(t', b), run)
    ensures visited <= b < |run.items| && Inv(text, run.items) && At(run.items, b + 1, k + Len(run.items[b]))
  {
    hide TextOf, AllWell, Len;
    Unmoved(text, t', b + 1);
    var r := run.items;
    KeepsLess(text, t', r, b, b + 1);
    assert r[..b + 1][b] == t'[..b + 1][b];
    NextAt(r, b, k);
  }

  lemma SpliceClean(text: string, es: seq<Entry>, t: seq<Item>, b: nat, del: nat, str: string, start: nat, stop: nat,
                    token: Token)
    requires CleanEntries(es) ==> CleanItem(Tok(token))
    requires IsMade(es, Tok(token))
    ensures SafeItems(text, es, t, Splice(t, b, del, Pieces(str, start, stop, token)))
  {
    hide CleanEntries, IsTokenOf;
    var before, after := Slice(str, 0, start), Slice(str, stop, |str|);
    assert CleanItem(Text(before)) && CleanItem(Text(after));
    assert IsMade(es, Text(before)) && IsMade(es, Text(after));
    hide CleanItem, Slice, IsMade;
  }

  lemma {:induction false} MadeSafe(es: seq<Entry>, ki: nat, c: nat, matched: string)
    requires ki < |es| && c < |es[ki].patterns|
    ensures TameEntries(es) ==> Made(es, ki, c, matched).Ok?
    ensures CleanEntries(es) && Made(es, ki, c, matched).Ok? ==> CleanItem(Tok(Made(es, ki, c, matched).value))
    ensures Matches(es[ki].patterns[c], matched) && Made(es, ki, c, matched).Ok? ==>
      IsMade(es, Tok(Made(es, ki, c, matched).value))
    decreases Weight(es), 0
  {
    hide Tokens, TameEntries, CleanEntries, Clean, Matches;
    var p := es[ki].patterns[c];
    PatternAt(es, ki, c);
    if p.inside.Some? {
      PatternWeight(es, ki, c);
      TokensSafe(matched, p.inside.value);
      TokensLossless(matched, p.inside.value);
    }
    var made := Made(es, ki, c, matched);
    if made.Ok? && Matches(p, matched) {
      assert IsTokenOf(es[ki].key, es[ki].patterns[c], made.value);
    }
  }

  // Every token stands for a match of a pattern of its key, and what is inside it
  // is what tokenizing that match gives.
  lemma TokensAreMatches(text: string, g: Grammar, i: nat)
    requires i < |Tokens(text, g).items| && Tokens(text, g).items[i].Tok?
    ensures var es, t := Merge(g.entries, g.rest), Tokens(text, g).items[i].token;
            exists ki: nat, c: nat ::
              ki < |es| && c < |es[ki].patterns| && IsTokenOf(es[ki].key, es[ki].patterns[c], t)
  {
    hide Tokens, IsTokenOf, Merge;
    TokensSafe(text, g);
    assert IsMade(Merge(g.entries, g.rest), Tokens(text, g).items[i]);
  }

  // Prism.highlight, without hooks.
  ghost function Highlight(text: string, g: Grammar): Result<string, Error> {
    var run := Tokens(text, g);
    match run.result
    case Ok(_) => Ok(Stringify(Encode(run.items)))
    case Err(e) => Err(e)
  }

  // Whatever the grammar and its regular expressions, the markup of a highlighted
  // text shows that text, with plain spaces for non-breaking ones.
  lemma HighlightShowsText(text: string, g: Grammar)
    requires CleanGrammar(g)
    ensures match Highlight(text, g)
            case Ok(html) => Visible(html) == Shown(text)
            case Err(e) => !TameGrammar(g) && e != NoEntry
  {
    hide Visible, Shown;
    TokensLossless(text, g);
    TokensSafe(text, g);
    MarkupShowsText(Tokens(text, g).items);
  }
}
