// What a greedy match that replaces several entries does to a text: the patterns
// of the earlier keys are tried again on what it leaves.
module PrismGreedy {
  import opened Results
  import opened PrismTokens
  import opened PrismGrammar
  import opened PrismLossless
  import opened PrismPlain
  import opened PrismOffers

  // ---- the walk of a pattern ----

  // The walk of one pattern, one of key ki.
  ghost function PatternWalk(text: string, es: seq<Entry>, ki: nat, p: Pattern, t: seq<Item>, b: nat)
    : Result<seq<Item>, Error>
    requires ki < |es|
    decreases |text| - b
  {
    var j := FirstString(t, b);
    if j >= |t| || |t| > |text| then Ok(t)
    else
      match Find(text, t, p, j, Start(t, j))
      case Nothing => PatternWalk(text, es, ki, p, t, j + 1)
      case GiveUp => Ok(t)
      case Skip(b', _) => if j <= b' < |t| then PatternWalk(text, es, ki, p, t, b' + 1) else Err(NoEntry)
      case Bad(e) => Err(e)
      case Hit(b', _, del, str, from, to) =>
        match OfferHit(text, es, ki, ki + 1, p, t, b', del, str, from, to)
        case Err(e) => Err(e)
        case Ok(t') =>
          if b' < j then Err(NoEntry)
          else PatternWalk(text, es, ki, p, t', b' + |Strings(Slice(str, 0, from))| + 1)
  }

  lemma {:induction false} ScanWalks(text: string, t: seq<Item>, es: seq<Entry>, ki: nat, stop: nat, c: nat, b: nat,
                                     k: nat)
    requires ki < stop <= |es| && c < |es[ki].patterns| && Distinct(es) && Inv(text, t) && At(t, b, k)
    ensures SameWalk(text, PatternWalk(text, es, ki, es[ki].patterns[c], t, b),
                     Scan(text, t, es, ki, stop, c, b, k, false))
    decreases |text| - b
  {
    hide Find, Insert, OfferHit, TextOf, AllWell, Slice, GoodFind, Distinct, Strings, Passed, TokenOf, PatternWalk, At,
         Start;
    var p := es[ki].patterns[c];
    StartAt(t, b, k);
    if b == |t| || |t| > |text| {
      WalkEnds(text, es, ki, p, t, b);
    } else {
      WellOf(text, t);
      if t[b].Tok? {
        NextAt(t, b, k);
        ScanWalks(text, t, es, ki, stop, c, b + 1, k + Len(t[b]));
        WalkPast(text, es, ki, p, t, b);
      } else {
        var f := Find(text, t, p, b, k);
        FindSound(text, t, p, b, k);
        WalkAt(text, es, ki, p, t, b);
        match f {
          case Nothing =>
            NextAt(t, b, k);
            ScanWalks(text, t, es, ki, stop, c, b + 1, k + Len(t[b]));
          case Skip(b', k') =>
            SkipsTo(t, b, f);
            NextAt(t, b', k');
            ScanWalks(text, t, es, ki, stop, c, b' + 1, k' + Len(t[b']));
          case Hit(b', k', del, str, from, to) =>
            HitWalks(text, t, es, ki, stop, c, b, b', k', del, str, from, to);
          case Bad(e) =>
          case GiveUp =>
        }
      }
    }
  }

  lemma {:induction false} HitWalks(text: string, t: seq<Item>, es: seq<Entry>, ki: nat, stop: nat, c: nat, b: nat,
                                    b': nat, k': nat, del: nat, str: string, from: nat, to: nat)
    requires ki < stop <= |es| && c < |es[ki].patterns| && Distinct(es) && Inv(text, t) && b < |t| <= |text|
    requires GoodFind(t, b, Hit(b', k', del, str, from, to))
    ensures b <= b'
    ensures var w := Insert(text, t, es, ki, stop, c, b, b', k', del, str, from, to, false);
            match OfferHit(text, es, ki, ki + 1, es[ki].patterns[c], t, b', del, str, from, to)
            case Err(e) => w.Threw? && w.error == e
            case Ok(t') =>
              var next := b' + |Strings(Slice(str, 0, from))| + 1;
              SameWalk(text, PatternWalk(text, es, ki, es[ki].patterns[c], t', next), w)
    decreases |text| - b, 0
  {
    hide Insert, OfferHit, TextOf, AllWell, Slice, GoodFind, Distinct, Strings, Passed, TokenOf, PatternWalk, At, Scan;
    var p := es[ki].patterns[c];
    InsertWalks(text, t, es, ki, stop, c, b, b', k', del, str, from, to);
    HitText(t, b, b', k', del, str, from, to);
    var o := OfferHit(text, es, ki, ki + 1, p, t, b', del, str, from, to);
    if o.Ok? {
      var next := b' + |Strings(Slice(str, 0, from))| + 1;
      ScanWalks(text, o.value, es, ki, stop, c, next, Start(o.value, next));
    }
  }

  ghost predicate Passed(t: seq<Item>, done: seq<Item>) {
    |done| <= |t| && t[..|done|] == done
  }

  lemma WalkEnds(text: string, es: seq<Entry>, ki: nat, p: Pattern, t: seq<Item>, b: nat)
    requires ki < |es| && (b >= |t| || |t| > |text|)
    ensures PatternWalk(text, es, ki, p, t, b) == Ok(t)
  {
    hide Find, OfferHit;
  }

  lemma WalkAt(text: string, es: seq<Entry>, ki: nat, p: Pattern, t: seq<Item>, b: nat)
    requires ki < |es| && b < |t| <= |text| && t[b].Text?
    ensures PatternWalk(text, es, ki, p, t, b)
         == match Find(text, t, p, b, Start(t, b))
            case Nothing => PatternWalk(text, es, ki, p, t, b + 1)
            case GiveUp => Ok(t)
            case Skip(b', _) => if b <= b' < |t| then PatternWalk(text, es, ki, p, t, b' + 1) else Err(NoEntry)
            case Bad(e) => Err(e)
            case Hit(b', _, del, str, from, to) =>
              match OfferHit(text, es, ki, ki + 1, p, t, b', del, str, from, to)
              case Err(e) => Err(e)
              case Ok(t') =>
                if b' < b then Err(NoEntry)
                else PatternWalk(text, es, ki, p, t', b' + |Strings(Slice(str, 0, from))| + 1)
  {
    hide Find, OfferHit, Slice, Strings, Start;
  }

  lemma WalkPast(text: string, es: seq<Entry>, ki: nat, p: Pattern, t: seq<Item>, b: nat)
    requires ki < |es| && b < |t| && t[b].Tok?
    ensures PatternWalk(text, es, ki, p, t, b) == PatternWalk(text, es, ki, p, t, b + 1)
  {
    hide Find, OfferHit;
  }

  // After a match was replaced and the earlier keys had their offers.
  lemma {:induction false} InsertWalks(text: string, t: seq<Item>, es: seq<Entry>, ki: nat, stop: nat, c: nat,
                                       visited: nat, b: nat, k: nat, del: nat, str: string, from: nat, to: nat)
    requires ki < stop <= |es| && c < |es[ki].patterns| && Distinct(es) && Inv(text, t)
    requires visited < |t| <= |text| && GoodFind(t, visited, Hit(b, k, del, str, from, to))
    ensures var w := Insert(text, t, es, ki, stop, c, visited, b, k, del, str, from, to, false);
            match OfferHit(text, es, ki, ki + 1, es[ki].patterns[c], t, b, del, str, from, to)
            case Err(e) => w.Threw? && w.error == e
            case Ok(t') =>
              var next := b + |Strings(Slice(str, 0, from))| + 1;
              && Inv(text, t') && next <= |t'| && At(t', next, Start(t', next))
              && Passed(t', t[..b] + Strings(Slice(str, 0, from))
                            + [Tok(TokenOf(es[ki].key, es[ki].patterns[c], Slice(str, from, to)).value)])
              && w == Scan(text, t', es, ki, stop, c, next, Start(t', next), false)
  {
    hide Made, Matched, OfferKeys, TextOf, AllWell, Slice, TokenOf, At, Splice, Pieces, Keeps, Inv, Distinct, Scan;
    var p, cut := es[ki].patterns[c], Slice(str, from, to);
    MadeIs(es, ki, c, cut);
    MadeSound(es, ki, c, cut);
    if Made(es, ki, c, cut).Ok? {
      var token := Made(es, ki, c, cut).value;
      var before := Slice(str, 0, from);
      var t' := Splice(t, b, del, Pieces(str, from, to, token));
      var done := t[..b] + Strings(before) + [Tok(token)];
      SplicedHit(t, b, del, str, from, to, token);
      InsertSound(text, t, visited, b, k, del, str, from, to, token);
      StopDistinct(es, ki);
      KeepsInv(text, t, t', visited);
      var b', k' := if before == "" then b else b + 1, k + |before|;
      assert b' + 1 == |done|;
      var run := if del == 1 then Run(t', Ok(())) else Matched(text, t', es, b', k', true, Some(es[ki].key));
      if del != 1 {
        WellOf(text, t');
        MatchedOffers(text, t', es, ki, b', k');
        MatchedKeeps(text, t', es, b', k', true, Some(es[ki].key));
      }
      if run.result.Ok? {
        AfterToken(text, t', b', k', run);
        assert t'[..b' + 1] == done by {
          assert t' == done + (Strings(Slice(str, to, |str|)) + t[b + del..]);
        }
      }
    }
  }

  lemma AfterToken(text: string, t: seq<Item>, b: nat, k: nat, run: Run)
    requires Inv(text, t) && At(t, b, k) && b < |t| && t[b].Tok?
    requires run == Run(t, Ok(())) || GoodRun(text, t, Fixed(t, b), run)
    ensures Inv(text, run.items) && b < |run.items| && At(run.items, b + 1, Start(run.items, b + 1))
    ensures Start(run.items, b + 1) == k + Len(run.items[b]) && run.items[..b + 1] == t[..b + 1]
  {
    hide TextOf, AllWell;
    Unmoved(text, t, b + 1);
    StillThere(text, t, run.items, b, k);
    WellOf(text, run.items);
    NextAt(run.items, b, k);
  }

  lemma WholeMerge(es: seq<Entry>)
    ensures Merge(es, []) == es
  {}

  // ---- any grammar ----

  // Every pattern of every key from key ki on walks in turn.
  ghost function WalkKeys(text: string, es: seq<Entry>, ki: nat, t: seq<Item>): Result<seq<Item>, Error>
    requires ki <= |es|
    decreases |es| - ki
  {
    if ki == |es| then Ok(t) else WalkPatterns(text, es, ki, 0, t)
  }

  ghost function WalkPatterns(text: string, es: seq<Entry>, ki: nat, c: nat, t: seq<Item>): Result<seq<Item>, Error>
    requires ki < |es| && c <= |es[ki].patterns|
    decreases |es| - ki, |es[ki].patterns| - c
  {
    if c == |es[ki].patterns| then WalkKeys(text, es, ki + 1, t)
    else
      match PatternWalk(text, es, ki, es[ki].patterns[c], t, 0)
      case Err(e) => Err(e)
      case Ok(t') => WalkPatterns(text, es, ki, c + 1, t')
  }

  lemma {:induction false} KeysWalk(text: string, t: seq<Item>, es: seq<Entry>, ki: nat)
    requires ki <= |es| && Distinct(es) && Inv(text, t)
    ensures SameRun(WalkKeys(text, es, ki, t), Keys(text, t, es, ki, |es|, 0, 0, false))
    decreases |es| - ki
  {
    hide Patterns, WalkPatterns, Inv, Distinct;
    if ki < |es| {
      PatternsWalk(text, t, es, ki, 0);
    }
  }

  lemma {:induction false} PatternsWalk(text: string, t: seq<Item>, es: seq<Entry>, ki: nat, c: nat)
    requires ki < |es| && c <= |es[ki].patterns| && Distinct(es) && Inv(text, t)
    ensures SameRun(WalkPatterns(text, es, ki, c, t), Patterns(text, t, es, ki, |es|, c, 0, 0, false))
    decreases |es| - ki, |es[ki].patterns| - c
  {
    hide Keys, Scan, PatternWalk, WalkKeys, Keeps, Inv, At, Distinct;
    if c == |es[ki].patterns| {
      KeysWalk(text, t, es, ki + 1);
    } else {
      AtFirst(t);
      ScanWalks(text, t, es, ki, |es|, c, 0, 0);
      ScanKeeps(text, t, es, ki, |es|, c, 0, 0, false);
      var w := Scan(text, t, es, ki, |es|, c, 0, 0, false);
      if !w.Threw? {
        KeepsInv(text, t, w.items, Fixed(t, 0));
        PatternsWalk(text, w.items, es, ki, c + 1);
        if w.Returned? {
          PatternsTooMany(text, w.items, es, ki, |es|, c + 1, 0, 0, false);
        }
      }
    }
  }

  lemma AtFirst(t: seq<Item>)
    ensures At(t, 0, 0)
  {}

  // Tokenizing is these walks, for every grammar: after each match that does not
  // replace exactly one entry the earlier keys get their offers.
  lemma WalkedTokens(text: string, g: Grammar)
    requires Distinct(Merge(g.entries, g.rest))
    ensures SameRun(WalkKeys(text, Merge(g.entries, g.rest), 0, [Text(text)]), Tokens(text, g))
  {
    hide Merge, Keys, WalkKeys, Distinct, Inv, SameRun;
    var es := Merge(g.entries, g.rest);
    NoTarget(es);
    StartWhole(text);
    KeysWalk(text, [Text(text)], es, 0);
  }

  // A pattern used after all others walks along what they made of the text.
  lemma GreedyTokens(text: string, es: seq<Entry>, key: string, p: Pattern)
    requires Distinct(es + [Entry(key, [p])])
    ensures var all := es + [Entry(key, [p])];
            var first := Tokens(text, Grammar(es, []));
            if first.result.Err? then Tokens(text, Grammar(all, [])) == first
            else SameRun(PatternWalk(text, all, |es|, p, first.items, 0), Tokens(text, Grammar(all, [])))
  {
    hide Keys, PatternWalk, Distinct, SameRun;
    var all, start := es + [Entry(key, [p])], [Text(text)];
    WholeMerge(es);
    WholeMerge(all);
    NoTarget(es);
    NoTarget(all);
    KeysFirst(text, start, es, [Entry(key, [p])], 0, |es|, |all|, 0, 0, false);
    var first := Keys(text, start, es, 0, |es|, 0, 0, false);
    if first.result.Ok? {
      TokensLossless(text, Grammar(es, []));
      assert first == Tokens(text, Grammar(es, []));
      LastKey(text, first.items, all, p);
    }
  }

  lemma LastKey(text: string, t: seq<Item>, es: seq<Entry>, p: Pattern)
    requires es != [] && es[|es| - 1].patterns == [p] && Distinct(es) && Inv(text, t)
    ensures SameRun(PatternWalk(text, es, |es| - 1, p, t, 0), Keys(text, t, es, |es| - 1, |es|, 0, 0, false))
  {
    hide Scan, PatternWalk, Distinct, AllWell;
    var ki := |es| - 1;
    ScanWalks(text, t, es, ki, |es|, 0, 0, 0);
    var w := Scan(text, t, es, ki, |es|, 0, 0, 0, false);
    if w.Finished? {
      assert Patterns(text, w.items, es, ki, |es|, 1, 0, 0, false) == Run(w.items, Ok(()));
    }
    assert Keys(text, t, es, ki, |es|, 0, 0, false) == Patterns(text, t, es, ki, |es|, 0, 0, 0, false);
  }

  // ---- the first greedy match ----

  // The reach of a match that ends at `to` goes on past entry i.
  predicate GoesOn(t: seq<Item>, i: nat, to: nat)
    requires i < |t|
  {
    Start(t, i) < to || (i > 0 && Untyped(t[i]) && !Greedy(t[i - 1]))
  }

  // Entries first .. last, from entry b on, are those a match at from .. to reaches
  // over: the first is where it starts, the last the first that need not be added.
  predicate Covered(t: seq<Item>, b: nat, from: nat, to: nat, first: nat, last: nat) {
    CoveredFrom(t, b, b, from, to, first, last)
  }

  // The same from the middle of the loop, at entry a, with b the first so far.
  predicate CoveredFrom(t: seq<Item>, a: nat, b: nat, from: nat, to: nat, first: nat, last: nat) {
    && a <= last <= |t| && b <= first <= last
    && (forall i :: b < i <= first ==> Start(t, i) <= from)
    && (first < last ==> from < Start(t, first + 1))
    && (forall i :: a <= i < last ==> GoesOn(t, i, to))
    && (last < |t| ==> !GoesOn(t, last, to))
  }

  lemma StartAt(t: seq<Item>, a: nat, x: nat)
    requires At(t, a, x)
    ensures a <= |t| && Start(t, a) == x
  {}

  lemma {:induction false} ReachCovers(t: seq<Item>, a: nat, x: nat, b: nat, k: nat, from: nat, to: nat)
    requires AllWell(t) && b <= a && At(t, a, x) && At(t, b, k) && k <= from && (b < a ==> from < Start(t, b + 1))
    requires k <= x && (a > 0 || to > x)
    ensures match Reach(t, a, x, b, k, from, to)
            case Err(_) => false
            case Ok((l, y, f, z)) => CoveredFrom(t, a, b, from, to, f, l) && y == Start(t, l) && z == Start(t, f)
    decreases |t| - a
  {
    hide TextOf, AllWell, Start, Len, At;
    StartAt(t, a, x);
    StartAt(t, b, k);
    if a < |t| && GoesOn(t, a, to) {
      NextAt(t, a, x);
      var x' := x + Len(t[a]);
      StartAt(t, a + 1, x');
      if b < a {
        StartGrows(t, b + 1, a + 1);
      }
      if from >= x' {
        ReachCovers(t, a + 1, x', b + 1, x', from, to);
      } else {
        ReachCovers(t, a + 1, x', b, k, from, to);
      }
    }
  }

  lemma StartGrows(t: seq<Item>, i: nat, j: nat)
    requires i <= j <= |t|
    ensures Start(t, i) <= Start(t, j)
  {
    hide TextOf;
    TextBetween(t, i, j);
  }

  lemma CoveredOnce(t: seq<Item>, b: nat, from: nat, to: nat, f: nat, l: nat, f': nat, l': nat)
    requires Covered(t, b, from, to, f, l) && Covered(t, b, from, to, f', l')
    ensures f == f' && l == l'
  {
    hide Start, GoesOn;
  }

  // The loop over the entries finds exactly those.
  lemma ReachIff(t: seq<Item>, b: nat, from: nat, to: nat, first: nat, last: nat)
    requires AllWell(t) && b <= |t| && Start(t, b) <= from && first <= last <= |t| && (b > 0 || to > 0)
    ensures Reach(t, b, Start(t, b), b, Start(t, b), from, to)
              == Ok((last, Start(t, last), first, Start(t, first)))
       <==> Covered(t, b, from, to, first, last)
  {
    hide AllWell, Reach;
    assert Start(t, 0) == 0;
    hide TextOf;
    ReachCovers(t, b, Start(t, b), b, Start(t, b), from, to);
    var (l, _, f, _) := Reach(t, b, Start(t, b), b, Start(t, b), from, to).value;
    assert Covered(t, b, from, to, f, l);
    if Covered(t, b, from, to, first, last) {
      CoveredOnce(t, b, from, to, f, l, first, last);
    }
  }

  function Minus(x: nat, k: nat): nat {
    if x < k then 0 else x - k
  }

  // The first string of t starts a search of p whose match is in the entries f .. l;
  // `done` is then everything up to the match's token, `left` what follows it: the
  // text behind the match, if any, and the other entries.
  ghost predicate Replaces(text: string, key: string, p: Pattern, t: seq<Item>, f: nat, l: nat, done: seq<Item>,
                           after: string, left: seq<Item>)
  {
    var b := FirstString(t, 0);
    && p.greedy && b < |t| - 1 && |t| <= |text| && Exec(p, text, Start(t, b)).Some?
    && var m := Exec(p, text, Start(t, b)).value;
       && !(p.lookbehind && m.group == None) && b + m.index + m.length > 0
       && Covered(t, b, From(p, m), m.index + m.length, f, l) && (f < |t| ==> t[f].Text?)
       && var str := TextOf(t[f..l]);
          var from, to := Minus(From(p, m), Start(t, f)), Minus(To(p, m), Start(t, f));
          var token := TokenOf(key, p, Slice(str, from, to));
          && token.Ok?
          && done == t[..f] + Strings(Slice(str, 0, from)) + [Tok(token.value)]
          && after == Slice(str, to, |str|)
          && left == Strings(after) + t[l..]
  }

  // p finds nothing behind the first n entries of r.
  ghost predicate Silent(text: string, p: Pattern, r: seq<Item>, n: nat) {
    && n <= |r|
    && (forall i: nat :: i >= Start(r, n) ==> Exec(p, text, i) == None)
    && (r != [] && r[|r| - 1].Text? ==> Exec(p, r[|r| - 1].str, 0) == None)
  }

  lemma FindsReplaced(text: string, key: string, p: Pattern, t: seq<Item>, f: nat, l: nat, done: seq<Item>,
                      after: string, left: seq<Item>)
    requires Inv(text, t) && Replaces(text, key, p, t, f, l, done, after, left)
    ensures var b := FirstString(t, 0);
            var m := Exec(p, text, Start(t, b)).value;
            && b <= f <= l <= |t|
            && Find(text, t, p, b, Start(t, b))
               == Hit(f, Start(t, f), l - f, TextOf(t[f..l]), Minus(From(p, m), Start(t, f)),
                      Minus(To(p, m), Start(t, f)))
  {
    hide Covered, TextOf, Inv, Slice, Start, Strings, TokenOf, Exec, Find, FindGreedy, Minus, From, To;
    var b := FirstString(t, 0);
    FindIsGreedy(text, t, p, b, Start(t, b));
    var m := Exec(p, text, Start(t, b)).value;
    CoveredInside(t, b, From(p, m), m.index + m.length, f, l);
    FindsCovered(text, t, p, b, f, l);
  }

  lemma FindIsGreedy(text: string, t: seq<Item>, p: Pattern, b: nat, k: nat)
    requires p.greedy && b < |t| - 1 && t[b].Text?
    ensures Find(text, t, p, b, k) == FindGreedy(text, t, p, b, k)
  {
    hide FindGreedy, Exec;
  }

  lemma CoveredInside(t: seq<Item>, b: nat, from: nat, to: nat, f: nat, l: nat)
    requires Covered(t, b, from, to, f, l)
    ensures b <= f <= l <= |t| && (f > b ==> Start(t, f) <= from)
  {
    hide Start, GoesOn;
  }

  lemma FindsCovered(text: string, t: seq<Item>, p: Pattern, b: nat, f: nat, l: nat)
    requires Inv(text, t) && b < |t| && Exec(p, text, Start(t, b)).Some? && b <= f <= l <= |t|
    requires var m := Exec(p, text, Start(t, b)).value;
             && !(p.lookbehind && m.group == None) && b + m.index + m.length > 0
             && Covered(t, b, From(p, m), m.index + m.length, f, l)
    requires f < |t| ==> t[f].Text?
    ensures var m := Exec(p, text, Start(t, b)).value;
            FindGreedy(text, t, p, b, Start(t, b))
            == Hit(f, Start(t, f), l - f, TextOf(t[f..l]), Minus(From(p, m), Start(t, f)), Minus(To(p, m), Start(t, f)))
  {
    hide TextOf, AllWell, Start, Covered, Slice;
    var m := Exec(p, text, Start(t, b)).value;
    FromTo(p);
    CoveredInside(t, b, From(p, m), m.index + m.length, f, l);
    hide Exec;
    ReachIff(t, b, From(p, m), m.index + m.length, f, l);
    AtStart(t, f);
    AtStart(t, l);
    SpanText(text, t, l, Start(t, l), f, Start(t, f));
    assert f + (l - f) == l;
  }

  lemma AtStart(t: seq<Item>, i: nat)
    requires i <= |t|
    ensures At(t, i, Start(t, i))
  {}

  // What the text ends up as when p finds nothing more: the entries up to p's token
  // stay, and if the match was not exactly one entry, every pattern of every earlier
  // key, in order, has had its offer of what follows.
  lemma GreedyOffers(text: string, es: seq<Entry>, key: string, p: Pattern, f: nat, l: nat, done: seq<Item>,
                     after: string, left: seq<Item>)
    requires Distinct(es + [Entry(key, [p])]) && Tokens(text, Grammar(es, [])).result.Ok?
    requires Replaces(text, key, p, Tokens(text, Grammar(es, [])).items, f, l, done, after, left)
    ensures var all := es + [Entry(key, [p])];
            var r := if l == f + 1 then Ok(done + left) else OfferKeys(text, all, 0, |es|, done + left, |done|);
            match r
            case Err(e) => Tokens(text, Grammar(all, [])).result == Err(e)
            case Ok(t) =>
              && Passed(t, done)
              && (Silent(text, p, t, |done|) ==> Tokens(text, Grammar(all, [])) == Run(t, Ok(())))
  {
    hide Tokens, Inv, PatternWalk, OfferKeys, Silent, Distinct, Replaces;
    var all, t := es + [Entry(key, [p])], Tokens(text, Grammar(es, [])).items;
    TokensWhole(text, Grammar(es, []));
    GreedyTokens(text, es, key, p);
    WalkReplaces(text, all, key, p, t, f, l, done, after, left);
  }

  lemma TokensWhole(text: string, g: Grammar)
    ensures Inv(text, Tokens(text, g).items)
  {
    hide Tokens, TextOf;
    TokensLossless(text, g);
  }

  lemma {:induction false} WalkReplaces(text: string, all: seq<Entry>, key: string, p: Pattern, t: seq<Item>, f: nat,
                                        l: nat, done: seq<Item>, after: string, left: seq<Item>)
    requires all != [] && all[|all| - 1] == Entry(key, [p]) && Distinct(all) && Inv(text, t)
    requires Replaces(text, key, p, t, f, l, done, after, left)
    ensures var r := if l == f + 1 then Ok(done + left)
                     else OfferKeys(text, all, 0, |all| - 1, done + left, |done|);
            var w := PatternWalk(text, all, |all| - 1, p, t, 0);
            match r
            case Err(e) => w == Err(e)
            case Ok(t') => Passed(t', done) && (Silent(text, p, t', |done|) ==> w == Ok(t'))
  {
    hide TextOf, AllWell, Slice, Strings, TokenOf, Exec, FindGreedy, PatternWalk, Distinct, OfferHit, Inv, At, Scan,
         Insert, Silent, GoodFind, Covered, From, To, Minus, Start;
    var b := FirstString(t, 0);
    var m := Exec(p, text, Start(t, b)).value;
    FindsReplaced(text, key, p, t, f, l, done, after, left);
    AtStart(t, b);
    FindSound(text, t, p, b, Start(t, b));
    var str, from, to := TextOf(t[f..l]), Minus(From(p, m), Start(t, f)), Minus(To(p, m), Start(t, f));
    InsertWalks(text, t, all, |all| - 1, |all|, 0, b, f, Start(t, f), l - f, str, from, to);
    WalkFrom(text, all, |all| - 1, p, t, 0);
    WalkAt(text, all, |all| - 1, p, t, b);
    HitReplaces(text, all, key, p, t, f, l, done, after, left);
    var o := OfferHit(text, all, |all| - 1, |all|, p, t, f, l - f, str, from, to);
    if o.Ok? && Silent(text, p, o.value, |done|) {
      SilentWalk(text, all, |all| - 1, p, o.value, |done|);
    }
  }

  lemma {:induction false} WalkFrom(text: string, es: seq<Entry>, ki: nat, p: Pattern, t: seq<Item>, b: nat)
    requires ki < |es|
    ensures PatternWalk(text, es, ki, p, t, b) == PatternWalk(text, es, ki, p, t, FirstString(t, b))
    decreases |t| - b
  {
    hide PatternWalk;
    if b < |t| && t[b].Tok? {
      WalkPast(text, es, ki, p, t, b);
      WalkFrom(text, es, ki, p, t, b + 1);
    }
  }

  lemma {:induction false} HitReplaces(text: string, all: seq<Entry>, key: string, p: Pattern, t: seq<Item>, f: nat,
                                       l: nat, done: seq<Item>, after: string, left: seq<Item>)
    requires all != [] && all[|all| - 1] == Entry(key, [p]) && f <= l <= |t|
    requires Replaces(text, key, p, t, f, l, done, after, left)
    ensures var m := Exec(p, text, Start(t, FirstString(t, 0))).value;
            var str, from, to := TextOf(t[f..l]), Minus(From(p, m), Start(t, f)), Minus(To(p, m), Start(t, f));
            && OfferHit(text, all, |all| - 1, |all|, p, t, f, l - f, str, from, to)
               == (if l == f + 1 then Ok(done + left)
                   else OfferKeys(text, all, 0, |all| - 1, done + left, |done|))
            && TokenOf(key, p, Slice(str, from, to)).Ok?
            && done == t[..f] + Strings(Slice(str, 0, from)) + [Tok(TokenOf(key, p, Slice(str, from, to)).value)]
  {
    hide TextOf, Slice, Strings, TokenOf, Exec, Covered, From, To, Minus, Start, OfferKeys;
    assert f + (l - f) == l;
    assert done + Strings(after) + t[l..] == done + left;
  }

  lemma {:induction false} SilentWalk(text: string, es: seq<Entry>, ki: nat, p: Pattern, t: seq<Item>, b: nat)
    requires ki < |es| && p.greedy && Silent(text, p, t, b)
    ensures PatternWalk(text, es, ki, p, t, b) == Ok(t)
  {
    hide PatternWalk, Start, Exec;
    var j := FirstString(t, b);
    WalkFrom(text, es, ki, p, t, b);
    if j < |t| && |t| <= |text| {
      WalkAt(text, es, ki, p, t, j);
      StartGrows(t, b, j);
      WalkEnds(text, es, ki, p, t, |t|);
    } else {
      WalkEnds(text, es, ki, p, t, j);
    }
  }

  // One offer of a string by a plain pattern, or by any pattern if the string is last:
  // the first match, if there is one, becomes a token.
  lemma OfferedString(text: string, es: seq<Entry>, ki: nat, n: nat, q: Pattern, done: seq<Item>, w: string,
                      rest: seq<Item>)
    requires ki < n <= |es| && (!q.greedy || rest == []) && |done + [Text(w)] + rest| <= |text|
    ensures Offer(text, es, ki, n, q, done + [Text(w)] + rest, |done|)
         == match Exec(q, w, 0)
            case None => Ok(done + [Text(w)] + rest)
            case Some(m) =>
              match TokenOf(es[ki].key, q, Slice(w, From(q, m), To(q, m)))
              case Err(e) => Err(e)
              case Ok(token) =>
                Ok(done + Strings(Slice(w, 0, From(q, m))) + [Tok(token)] + Strings(Slice(w, To(q, m), |w|)) + rest)
  {
    hide Exec, Slice, From, To, TokenOf, Strings;
    var t := done + [Text(w)] + rest;
    assert t[|done|] == Text(w) && t[..|done|] == done && t[|done| + 1..] == rest;
  }

  // The case of one earlier pattern: it finds its match in the string that a later
  // greedy match over several entries leaves behind its token.
  lemma EarlierPatternTried(text: string, first: string, q: Pattern, key: string, p: Pattern, f: nat, l: nat,
                            done: seq<Item>, w: string, rest: seq<Item>, token: Token)
    requires first != key
    requires var t := Tokens(text, Grammar([Entry(first, [q])], []));
             && t.result.Ok? && Replaces(text, key, p, t.items, f, l, done, w, [Text(w)] + rest)
             && l != f + 1 && |done + [Text(w)] + rest| <= |text|
    requires !q.greedy || rest == []
    requires Exec(q, w, 0).Some?
    requires var m := Exec(q, w, 0).value;
             TokenOf(first, q, Slice(w, From(q, m), To(q, m))) == Ok(token)
    ensures var m := Exec(q, w, 0).value;
            var tried := done + Strings(Slice(w, 0, From(q, m))) + [Tok(token)] + Strings(Slice(w, To(q, m), |w|))
                         + rest;
            Silent(text, p, tried, |done|) ==>
              Tokens(text, Grammar([Entry(first, [q]), Entry(key, [p])], [])) == Run(tried, Ok(()))
  {
    hide Tokens, Exec, Slice, From, To, TokenOf, Strings, Silent, Replaces, Offer;
    var all := [Entry(first, [q])] + [Entry(key, [p])];
    assert all == [Entry(first, [q]), Entry(key, [p])];
    GreedyOffers(text, [Entry(first, [q])], key, p, f, l, done, w, [Text(w)] + rest);
    assert done + ([Text(w)] + rest) == done + [Text(w)] + rest;
    OfferedString(text, all, 0, 1, q, done, w, rest);
    OneOffer(text, all, q, done + [Text(w)] + rest, |done|);
  }

  lemma OneOffer(text: string, es: seq<Entry>, q: Pattern, t: seq<Item>, b: nat)
    requires es != [] && es[0].patterns == [q]
    ensures OfferKeys(text, es, 0, 1, t, b) == Offer(text, es, 0, 1, q, t, b)
  {
    hide Offer;
    match Offer(text, es, 0, 1, q, t, b) {
      case Ok(t') =>
        assert OfferPatterns(text, es, 0, 1, 1, t', b) == OfferKeys(text, es, 1, 1, t', b);
      case Err(_) =>
    }
    assert OfferKeys(text, es, 0, 1, t, b) == OfferPatterns(text, es, 0, 1, 0, t, b);
  }

  // ---- an example: a string that holds the start of a comment ----

  // A line comment goes to the end: in the whole text from behind x on.
  function Comment(x: string, y: string, z: string): Pattern {
    Pattern((s: string, start: nat) =>
              if s == x + y + z then Some(Match(|x|, |y| + |z|, None))
              else if s == z then Some(Match(0, |z|, None))
              else None,
            None, false, false, [])
  }

  // A string literal, the first x + y of the text.
  function Quoted(x: string, y: string, z: string): Pattern {
    Pattern((s: string, start: nat) =>
              if s == x + y + z && start == 0 then Some(Match(0, |x| + |y|, None)) else None,
            None, false, true, [])
  }

  function LeafToken(key: string, w: string, greedy: bool): Item {
    Tok(Token(key, Leaf(w), [], |w|, greedy))
  }

  // First y + z is taken for a comment; then the string claims y, and what it leaves
  // of the comment is a comment again.
  lemma CommentAfterString(x: string, y: string, z: string)
    requires x != "" && y != "" && z != ""
    ensures Tokens(x + y + z, Grammar([Entry("comment", [Comment(x, y, z)]), Entry("string", [Quoted(x, y, z)])], []))
         == Run([LeafToken("string", x + y, true), LeafToken("comment", z, false)], Ok(()))
  {
    hide Tokens, Slice, Replaces, Silent;
    var text, q, p := x + y + z, Comment(x, y, z), Quoted(x, y, z);
    var done, token := [LeafToken("string", x + y, true)], LeafToken("comment", z, false).token;
    CommentFirst(x, y, z);
    StringReplaces(x, y, z);
    assert [Text(z)] + [] == [Text(z)];
    CommentAt(x, y, z);
    SlicesOf(x, y, z);
    EarlierPatternTried(text, "comment", q, "string", p, 0, 2, done, z, [], token);
    var tried := done + [] + [Tok(token)] + [] + [];
    assert tried == [LeafToken("string", x + y, true), LeafToken("comment", z, false)];
    NoStringBehind(x, y, z, tried);
  }

  lemma SlicesOf(x: string, y: string, z: string)
    ensures var s := x + y + z;
            && Slice(s, 0, 0) == "" && Slice(s, |s|, |s|) == "" && Slice(s, 0, |x|) == x
            && Slice(s, |x|, |x| + |y| + |z|) == y + z && Slice(s, 0, |x| + |y|) == x + y
            && Slice(s, |x| + |y|, |s|) == z
            && Slice(z, 0, 0) == "" && Slice(z, 0, |z|) == z && Slice(z, |z|, |z|) == ""
  {
    var s := x + y + z;
    assert s[..|x|] == x && s[|x|..] == y + z && s[..|x| + |y|] == x + y && s[|x| + |y|..] == z;
  }

  // The first pass.
  lemma CommentFirst(x: string, y: string, z: string)
    requires x != "" && y != "" && z != ""
    ensures Tokens(x + y + z, Grammar([Entry("comment", [Comment(x, y, z)])], []))
         == Run([Text(x), LeafToken("comment", y + z, false)], Ok(()))
  {
    hide Tokens, Pass;
    var text, q := x + y + z, Comment(x, y, z);
    var es := [Entry("comment", [q])];
    WholeMerge(es);
    PlainTokens(text, Grammar(es, []));
    CommentPass(x, y, z);
    assert [q][1..] == [] && es[1..] == [];
    var r := Pass("comment", q, [Text(text)], 1, |text|);
    assert PassPatterns("comment", [q], [Text(text)], |text|) == r;
  }

  lemma CommentPass(x: string, y: string, z: string)
    requires x != "" && y != "" && z != ""
    ensures Pass("comment", Comment(x, y, z), [Text(x + y + z)], 1, |x + y + z|)
         == Run([Text(x), LeafToken("comment", y + z, false)], Ok(()))
  {
    hide Slice, Exec, Strings;
    var text, q := x + y + z, Comment(x, y, z);
    SlicesOf(x, y, z);
    StringsAre();
    assert Exec(q, text, 0) == Some(Match(|x|, |y| + |z|, None)) by {
      CommentAt(x, y, z);
    }
    PassHits("comment", q, [Text(text)], 1, |text|);
    var none: seq<Item> := [];
    assert [Text(text)][1..] == none && none + none == none;
    assert Pass("comment", q, none, 2, |text|) == Run(none, Ok(()));
    var done := [Text(x)] + [LeafToken("comment", y + z, false)];
    assert done + none == [Text(x), LeafToken("comment", y + z, false)];
  }

  lemma CommentAt(x: string, y: string, z: string)
    requires x != "" && y != "" && z != ""
    ensures Exec(Comment(x, y, z), x + y + z, 0) == Some(Match(|x|, |y| + |z|, None))
    ensures Exec(Comment(x, y, z), z, 0) == Some(Match(0, |z|, None))
  {
    assert |z| < |x + y + z|;
  }

  lemma StringReplaces(x: string, y: string, z: string)
    requires x != "" && y != "" && z != ""
    ensures Replaces(x + y + z, "string", Quoted(x, y, z), [Text(x), LeafToken("comment", y + z, false)], 0, 2,
                     [LeafToken("string", x + y, true)], z, [Text(z)])
  {
    hide Slice, Covered, Exec, TextOf, Strings;
    var text, p, t := x + y + z, Quoted(x, y, z), [Text(x), LeafToken("comment", y + z, false)];
    QuotedAt(x, y, z);
    QuotedCovers(x, y, z);
    SlicesOf(x, y, z);
    StringsAre();
    assert t[..0] == [] && t[2..] == [] && t[0].Text?;
    var none: seq<Item> := [];
    assert none + none + [LeafToken("string", x + y, true)] == [LeafToken("string", x + y, true)];
    assert Strings(z) + none == [Text(z)];
    assert FirstString(t, 0) == 0 && TextOf(t[0..2]) == text;
    assert TokenOf("string", p, x + y) == Ok(LeafToken("string", x + y, true).token);
  }

  lemma StringsAre()
    ensures Strings("") == [] && forall s :: s != "" ==> Strings(s) == [Text(s)]
  {}

  lemma QuotedAt(x: string, y: string, z: string)
    requires x != "" && y != "" && z != ""
    ensures Exec(Quoted(x, y, z), x + y + z, 0) == Some(Match(0, |x| + |y|, None))
  {}

  // The string reaches over both entries.
  lemma QuotedCovers(x: string, y: string, z: string)
    requires x != "" && y != "" && z != ""
    ensures var t := [Text(x), LeafToken("comment", y + z, false)];
            Covered(t, 0, 0, |x| + |y|, 0, 2) && Start(t, 0) == 0 && TextOf(t[0..2]) == x + y + z
  {
    hide TextOf;
    var t := [Text(x), LeafToken("comment", y + z, false)];
    TextOfOne(t[0]);
    TextOfOne(t[1]);
    assert t[..0] == [] && t[..1] == [t[0]] && t[0..2] == [t[0]] + [t[1]];
    TextOfAppend([t[0]], [t[1]]);
    assert x + (y + z) == x + y + z;
  }

  lemma NoStringBehind(x: string, y: string, z: string, r: seq<Item>)
    requires x != "" && r == [LeafToken("string", x + y, true), LeafToken("comment", z, false)]
    ensures Silent(x + y + z, Quoted(x, y, z), r, 1)
  {
    assert r[..1] == [r[0]];
    TextOfOne(r[0]);
  }
}
