// What tokenizing keeps, for every text, grammar and behaviour of the regular
// expressions: the text, the entries already passed, the size of the array.
module PrismLossless {
  import opened Results
  import opened PrismTokens
  import opened PrismGrammar

  // Every entry's length is the length of its text.
  ghost predicate AllWell(t: seq<Item>) {
    forall i :: 0 <= i < |t| ==> Len(t[i]) == |ItemText(t[i])|
  }

  ghost predicate Inv(text: string, t: seq<Item>) {
    TextOf(t) == text && AllWell(t)
  }

  // Entry b starts at position k of the text.
  ghost predicate At(t: seq<Item>, b: nat, k: nat) {
    b <= |t| && k == |TextOf(t[..b])|
  }

  // r still stands for the text, agrees with t before n, and has not outgrown the text.
  ghost predicate Keeps(text: string, t: seq<Item>, r: seq<Item>, n: nat) {
    && Inv(text, r) && n <= |t| && n <= |r| && r[..n] == t[..n]
    && (|r| <= |t| || |r| <= |text| + 2)
  }

  lemma KeepsMore(text: string, t: seq<Item>, r: seq<Item>, s: seq<Item>, n: nat)
    requires Keeps(text, t, r, n) && Keeps(text, r, s, n)
    ensures Keeps(text, t, s, n)
  {}

  lemma KeepsLess(text: string, t: seq<Item>, r: seq<Item>, m: nat, n: nat)
    requires Keeps(text, t, r, n) && m <= n
    ensures Keeps(text, t, r, m)
  {
    assert r[..m] == r[..n][..m] && t[..m] == t[..n][..m];
  }

  // A token at the start index is never touched.
  function Fixed(t: seq<Item>, b: nat): nat {
    if b < |t| && t[b].Tok? then b + 1 else b
  }

  lemma NextAt(t: seq<Item>, b: nat, k: nat)
    requires AllWell(t) && At(t, b, k) && b < |t|
    ensures At(t, b + 1, k + Len(t[b]))
  {
    hide ItemText;
    assert t[..b + 1] == t[..b] + [t[b]];
    TextOfAppend(t[..b], [t[b]]);
    assert [t[b]][1..] == [];
    assert TextOf([t[b]]) == ItemText(t[b]) + "";
  }

  lemma TextBetween(t: seq<Item>, i: nat, j: nat)
    requires i <= j <= |t|
    ensures |TextOf(t[..i])| <= |TextOf(t[..j])| <= |TextOf(t)|
    ensures TextOf(t)[|TextOf(t[..i])|..|TextOf(t[..j])|] == TextOf(t[i..j])
  {
    hide TextOf;
    assert t == t[..i] + (t[i..j] + t[j..]);
    TextOfAppend(t[..i], t[i..j] + t[j..]);
    TextOfAppend(t[i..j], t[j..]);
    assert t[..j] == t[..i] + t[i..j];
    TextOfAppend(t[..i], t[i..j]);
  }

  lemma {:induction false} ReachSound(t: seq<Item>, a: nat, x: nat, b: nat, k: nat, from: nat, to: nat)
    requires AllWell(t) && b <= a && k <= from && k <= x && At(t, a, x) && At(t, b, k)
    requires (b == a && k == x) || from < x
    ensures match Reach(t, a, x, b, k, from, to)
            case Err(e) => e == NoPrevious
            case Ok((a', x', b', k')) =>
              b <= b' <= a' && At(t, a', x') && At(t, b', k') && (a' == |t| || x' >= to)
    decreases |t| - a
  {
    hide At, AllWell;
    AtInside(t, a, x);
    if a < |t| {
      NextAt(t, a, x);
      var x' := x + Len(t[a]);
      if from >= x' {
        ReachSound(t, a + 1, x', b + 1, x', from, to);
      } else {
        ReachSound(t, a + 1, x', b, k, from, to);
      }
    }
  }

  lemma AtInside(t: seq<Item>, b: nat, k: nat)
    requires At(t, b, k)
    ensures b <= |t|
  {}

  lemma WholeText(text: string, t: seq<Item>, x: nat)
    requires Inv(text, t) && At(t, |t|, x)
    ensures x == |text|
  {
    assert t[..|t|] == t;
  }

  // A hit holds the match: str is the text of the entries to be replaced.
  ghost predicate GoodFind(t: seq<Item>, b: nat, f: Found) {
    match f
    case Hit(b', k', del, str, start, stop) =>
      b <= b' && b' + del <= |t| && At(t, b', k') && str == TextOf(t[b'..b' + del]) && start <= stop
    case Skip(b', k') => b <= b' < |t| && At(t, b', k') && t[b'].Tok?
    case Bad(e) => e != NoEntry
    case _ => true
  }

  lemma FindGreedySound(text: string, t: seq<Item>, p: Pattern, b: nat, k: nat)
    requires Inv(text, t) && At(t, b, k)
    ensures GoodFind(t, b, FindGreedy(text, t, p, b, k))
  {
    hide At, TextOf, Exec, Slice, Reach, AllWell;
    var found := Exec(p, text, k);
    if found.Some? && !(p.lookbehind && found.value.group == None) {
      var m := found.value;
      var from, to := MatchStart(p, m), m.index + m.length;
      ReachSound(t, b, k, b, k, from, to);
      var reach := Reach(t, b, k, b, k, from, to);
      if reach.Ok? {
        var (a, x, b', k') := reach.value;
        AtInside(t, a, x);
        SpanText(text, t, a, x, b', k');
      }
    }
  }

  lemma FindSound(text: string, t: seq<Item>, p: Pattern, b: nat, k: nat)
    requires Inv(text, t) && At(t, b, k) && b < |t| && t[b].Text?
    ensures GoodFind(t, b, Find(text, t, p, b, k))
  {
    hide At, TextOf, Exec, FindGreedy;
    if p.greedy && b != |t| - 1 {
      FindGreedySound(text, t, p, b, k);
    } else {
      OneEntry(t, b);
    }
  }

  lemma OneEntry(t: seq<Item>, b: nat)
    requires b < |t|
    ensures TextOf(t[b..b + 1]) == ItemText(t[b])
  {
    assert t[b..b + 1][1..] == [];
    assert TextOf(t[b..b + 1]) == ItemText(t[b]) + "";
  }

  lemma SpanText(text: string, t: seq<Item>, a: nat, x: nat, b: nat, k: nat)
    requires Inv(text, t) && b <= a && At(t, a, x) && At(t, b, k)
    ensures k <= x <= |text| && Slice(text, k, x) == TextOf(t[b..b + (a - b)])
  {
    hide TextOf;
    TextBetween(t, b, a);
  }

  lemma EndReached(text: string, t: seq<Item>, a: nat, x: nat, to: nat)
    requires Inv(text, t) && At(t, a, x) && to <= |text| && (a == |t| || x >= to)
    ensures to <= x
  {
    if a == |t| {
      WholeText(text, t, x);
    }
  }

  lemma PiecesSound(str: string, start: nat, stop: nat, token: Token)
    requires start <= stop
    requires ContentText(token.content) == Slice(str, start, stop) && token.length == |Slice(str, start, stop)|
    ensures TextOf(Pieces(str, start, stop, token)) == str
    ensures AllWell(Pieces(str, start, stop, token))
  {
    hide TextOf, ContentText;
    var before, after := Slice(str, 0, start), Slice(str, stop, |str|);
    var first := if before == "" then [] else [Text(before)];
    var last := if after == "" then [] else [Text(after)];
    TextOfAppend(first + [Tok(token)], last);
    TextOfAppend(first, [Tok(token)]);
    TextOfOne(Tok(token));
    TextOfOne(Text(before));
    TextOfOne(Text(after));
    assert TextOf(first) == before && TextOf(last) == after;
    ThreeParts(str, start, stop);
  }

  lemma ThreeParts(str: string, start: nat, stop: nat)
    requires start <= stop
    ensures Slice(str, 0, start) + Slice(str, start, stop) + Slice(str, stop, |str|) == str
  {}

  lemma TextOfOne(i: Item)
    ensures TextOf([i]) == ItemText(i) && TextOf([]) == ""
  {
    assert [i][1..] == [];
    assert ItemText(i) + "" == ItemText(i);
  }

  lemma SpliceKeeps(text: string, t: seq<Item>, b: nat, del: nat, items: seq<Item>)
    requires Inv(text, t) && AllWell(items) && b + del <= |t|
    requires TextOf(items) == TextOf(t[b..b + del])
    ensures Inv(text, Splice(t, b, del, items)) && Splice(t, b, del, items)[..b] == t[..b]
    ensures |Splice(t, b, del, items)| == |t| - del + |items|
  {
    hide TextOf, ItemText, Len, AllWell;
    var first, last := t[..b], t[b + del..];
    TextOfAppend(first + items, last);
    TextOfAppend(first, items);
    assert t == first + t[b..b + del] + last;
    TextOfAppend(first + t[b..b + del], last);
    TextOfAppend(first, t[b..b + del]);
    WellParts(t, b, b + del);
    WellJoined(first, items);
    WellJoined(first + items, last);
  }

  lemma WellParts(t: seq<Item>, i: nat, j: nat)
    requires AllWell(t) && i <= |t| && j <= |t|
    ensures AllWell(t[..i]) && AllWell(t[j..])
  {
    hide ItemText, Len;
  }

  lemma WellJoined(a: seq<Item>, b: seq<Item>)
    requires AllWell(a) && AllWell(b)
    ensures AllWell(a + b)
  {
    hide ItemText, Len;
  }

  // The state right after a match was replaced: b is where the new token is.
  ghost predicate Replaced(text: string, t: seq<Item>, t': seq<Item>, b0: nat, b: nat, k: nat) {
    Keeps(text, t, t', b0) && b0 <= b < |t'| && t'[b].Tok? && At(t', b, k)
  }

  lemma InsertSound(text: string, t: seq<Item>, visited: nat, b: nat, k: nat, del: nat, str: string, start: nat,
                    stop: nat, token: Token)
    requires Inv(text, t) && |t| <= |text| && GoodFind(t, visited, Hit(b, k, del, str, start, stop))
    requires ContentText(token.content) == Slice(str, start, stop) && token.length == |Slice(str, start, stop)|
    ensures var before := Slice(str, 0, start);
            Replaced(text, t, Splice(t, b, del, Pieces(str, start, stop, token)), visited,
                     if before == "" then b else b + 1, k + |before|)
  {
    hide TextOf, ContentText, AllWell, Keeps;
    PiecesSound(str, start, stop, token);
    var pieces := Pieces(str, start, stop, token);
    SpliceKeeps(text, t, b, del, pieces);
    var t', before := Splice(t, b, del, pieces), Slice(str, 0, start);
    if del == 0 {
      NoText(t, b);
    }
    KeepsHere(text, t, t', visited, b);
    if before != "" {
      assert t'[b] == Text(before) && t'[b + 1] == Tok(token);
      assert At(t', b, k);
      WellOf(text, t');
      NextAt(t', b, k);
    }
  }

  lemma NoText(t: seq<Item>, b: nat)
    requires b <= |t|
    ensures TextOf(t[b..b]) == ""
  {}

  lemma WellOf(text: string, t: seq<Item>)
    requires Inv(text, t)
    ensures AllWell(t)
  {}

  lemma KeepsHere(text: string, t: seq<Item>, t': seq<Item>, n: nat, b: nat)
    requires Inv(text, t') && n <= b <= |t| && b <= |t'| && t'[..b] == t[..b] && |t'| <= |text| + 2
    ensures Keeps(text, t, t', n)
  {
    assert t'[..n] == t'[..b][..n] && t[..n] == t[..b][..n];
  }

  // ---- the loops ----

  ghost predicate GoodWalk(text: string, t: seq<Item>, n: nat, w: Walk) {
    Keeps(text, t, w.items, n) && (w.Threw? ==> w.error != NoEntry)
  }

  ghost predicate GoodRun(text: string, t: seq<Item>, n: nat, r: Run) {
    Keeps(text, t, r.items, n) && r.result != Err(NoEntry)
  }

  // Tokenizing loses nothing, even when it stops early or throws.
  lemma {:induction false} TokensLossless(text: string, g: Grammar)
    ensures var r := Tokens(text, g);
            TextOf(r.items) == text && AllWell(r.items) && |r.items| <= |text| + 2 && r.result != Err(NoEntry)
    decreases GrammarWeight(g)
  {
    hide Matched, Merge;
    MergeWeight(g.entries, g.rest);
    StartWhole(text);
    MatchedKeeps(text, [Text(text)], Merge(g.entries, g.rest), 0, 0, false, None);
  }

  lemma StartWhole(text: string)
    ensures Inv(text, [Text(text)]) && At([Text(text)], 0, 0)
  {
    TextOfOne(Text(text));
  }

  // Entries before the start index, and a token at it, are left alone.
  lemma {:induction false} MatchedKeeps(text: string, t: seq<Item>, es: seq<Entry>, index: nat, pos: nat, oneshot: bool,
                                        target: Option<string>)
    requires Inv(text, t) && At(t, index, pos)
    ensures GoodRun(text, t, Fixed(t, index), Matched(text, t, es, index, pos, oneshot, target))
    decreases Weight(es), Stop(es, target)
  {
    hide Keys, GoodRun;
    KeysKeep(text, t, es, 0, Stop(es, target), index, pos, oneshot);
  }

  lemma {:induction false} KeysKeep(text: string, t: seq<Item>, es: seq<Entry>, ki: nat, stop: nat, index: nat,
                                    pos: nat, oneshot: bool)
    requires ki <= stop <= |es| && Inv(text, t) && At(t, index, pos)
    ensures GoodRun(text, t, Fixed(t, index), Keys(text, t, es, ki, stop, index, pos, oneshot))
    decreases Weight(es), stop, stop - ki
  {
    hide Patterns, TextOf;
    if ki < stop {
      PatternsKeep(text, t, es, ki, stop, 0, index, pos, oneshot);
    }
  }

  lemma {:induction false} PatternsKeep(text: string, t: seq<Item>, es: seq<Entry>, ki: nat, stop: nat, c: nat,
                                        index: nat, pos: nat, oneshot: bool)
    requires ki < stop <= |es| && c <= |es[ki].patterns| && Inv(text, t) && At(t, index, pos)
    ensures GoodRun(text, t, Fixed(t, index), Patterns(text, t, es, ki, stop, c, index, pos, oneshot))
    decreases Weight(es), stop, stop - ki, |es[ki].patterns| - c
  {
    hide Keys, Scan, TextOf, AllWell;
    if c == |es[ki].patterns| {
      KeysKeep(text, t, es, ki + 1, stop, index, pos, oneshot);
    } else {
      ScanKeeps(text, t, es, ki, stop, c, index, pos, oneshot);
      match Scan(text, t, es, ki, stop, c, index, pos, oneshot) {
        case Finished(t') =>
          SameStart(text, t, t', index, pos);
          PatternsKeep(text, t', es, ki, stop, c + 1, index, pos, oneshot);
          KeepsMore(text, t, t', Patterns(text, t', es, ki, stop, c + 1, index, pos, oneshot).items, Fixed(t, index));
        case _ =>
      }
    }
  }

  // A new pattern may start where the last one did.
  lemma SameStart(text: string, t: seq<Item>, t': seq<Item>, index: nat, pos: nat)
    requires At(t, index, pos) && Keeps(text, t, t', Fixed(t, index))
    ensures Inv(text, t') && At(t', index, pos) && Fixed(t', index) >= Fixed(t, index)
  {
    hide TextOf;
    KeepsLess(text, t, t', index, Fixed(t, index));
    if Fixed(t, index) == index + 1 {
      assert t'[..index + 1][index] == t[..index + 1][index];
    }
  }

  lemma {:induction false} ScanKeeps(text: string, t: seq<Item>, es: seq<Entry>, ki: nat, stop: nat, c: nat, b: nat,
                                     k: nat, oneshot: bool)
    requires ki < stop <= |es| && c < |es[ki].patterns| && Inv(text, t) && At(t, b, k)
    ensures GoodWalk(text, t, Fixed(t, b), Scan(text, t, es, ki, stop, c, b, k, oneshot))
    decreases Weight(es), stop, stop - ki, |es[ki].patterns| - c, |text| - b, 0
  {
    hide Insert, TextOf, Find, At, AllWell, Len, GoodFind;
    AtInside(t, b, k);
    Unmoved(text, t, Fixed(t, b));
    if b < |t| && |t| <= |text| {
      if t[b].Tok? {
        StepKeeps(text, t, es, ki, stop, c, b, b, k, oneshot);
      } else {
        var f := Find(text, t, es[ki].patterns[c], b, k);
        FindSound(text, t, es[ki].patterns[c], b, k);
        match f {
          case Nothing =>
            if !oneshot {
              StepKeeps(text, t, es, ki, stop, c, b, b, k, oneshot);
            }
          case GiveUp =>
          case Skip(b', k') =>
            SkipsTo(t, b, f);
            StepKeeps(text, t, es, ki, stop, c, b, b', k', oneshot);
          case Bad(e) =>
            NoEntryNever(t, b, f);
          case Hit(b', k', del, str, start, end) =>
            InsertKeeps(text, t, es, ki, stop, c, b, b', k', del, str, start, end, oneshot);
        }
      }
    }
  }

  lemma Unmoved(text: string, t: seq<Item>, n: nat)
    requires Inv(text, t) && n <= |t|
    ensures Keeps(text, t, t, n)
  {}

  lemma SkipsTo(t: seq<Item>, b: nat, f: Found)
    requires f.Skip? && GoodFind(t, b, f)
    ensures b <= f.b < |t| && At(t, f.b, f.k)
  {}

  lemma NoEntryNever(t: seq<Item>, b: nat, f: Found)
    requires GoodFind(t, b, f) && f.Bad?
    ensures f.error != NoEntry
  {}

  lemma {:induction false} StepKeeps(text: string, t: seq<Item>, es: seq<Entry>, ki: nat, stop: nat, c: nat, b0: nat,
                                     b: nat, k: nat, oneshot: bool)
    requires ki < stop <= |es| && c < |es[ki].patterns| && Inv(text, t) && At(t, b, k) && b0 <= b < |t| <= |text|
    ensures GoodWalk(text, t, Fixed(t, b0), Scan(text, t, es, ki, stop, c, b + 1, k + Len(t[b]), oneshot))
    decreases Weight(es), stop, stop - ki, |es[ki].patterns| - c, |text| - b - 1, 1
  {
    hide Scan, TextOf, At, Keeps;
    NextAt(t, b, k);
    ScanKeeps(text, t, es, ki, stop, c, b + 1, k + Len(t[b]), oneshot);
    KeepsLess(text, t, Scan(text, t, es, ki, stop, c, b + 1, k + Len(t[b]), oneshot).items,
              Fixed(t, b0), Fixed(t, b + 1));
  }

  lemma {:induction false} InsertKeeps(text: string, t: seq<Item>, es: seq<Entry>, ki: nat, stop: nat, c: nat,
                                       visited: nat, b: nat, k: nat, del: nat, str: string, start: nat, end: nat,
                                       oneshot: bool)
    requires ki < stop <= |es| && c < |es[ki].patterns| && visited < |t| <= |text| && Inv(text, t)
    requires GoodFind(t, visited, Hit(b, k, del, str, start, end))
    ensures GoodWalk(text, t, visited, Insert(text, t, es, ki, stop, c, visited, b, k, del, str, start, end, oneshot))
    decreases Weight(es), stop, stop - ki, |es[ki].patterns| - c, |text| - visited - 1, 2
  {
    hide TextOf, AllWell, At, Scan, Matched, Made, Keeps, Splice, Pieces, GoodFind;
    HitText(t, visited, b, k, del, str, start, end);
    Unmoved(text, t, visited);
    MadeSound(es, ki, c, Slice(str, start, end));
    var made := Made(es, ki, c, Slice(str, start, end));
    if made.Ok? {
      var before := Slice(str, 0, start);
      var t' := Splice(t, b, del, Pieces(str, start, end, made.value));
      var b', k' := if before == "" then b else b + 1, k + |before|;
      InsertSound(text, t, visited, b, k, del, str, start, end, made.value);
      StopAt(es, ki);
      if del == 1 {
        AfterInsert(text, t, t', es, ki, stop, c, visited, b', k', Run(t', Ok(())), oneshot);
      } else {
        KeepsInv(text, t, t', visited);
        MatchedKeeps(text, t', es, b', k', true, Some(es[ki].key));
        AfterInsert(text, t, t', es, ki, stop, c, visited, b', k',
                    Matched(text, t', es, b', k', true, Some(es[ki].key)), oneshot);
      }
    }
  }

  lemma HitText(t: seq<Item>, visited: nat, b: nat, k: nat, del: nat, str: string, start: nat, stop: nat)
    requires GoodFind(t, visited, Hit(b, k, del, str, start, stop))
    ensures visited <= b && start <= stop
  {}

  lemma KeepsInv(text: string, t: seq<Item>, t': seq<Item>, n: nat)
    requires Keeps(text, t, t', n)
    ensures Inv(text, t')
  {}

  // The walk after a match was replaced and the earlier patterns were tried again.
  lemma {:induction false} AfterInsert(text: string, t: seq<Item>, t': seq<Item>, es: seq<Entry>, ki: nat, stop: nat,
                                       c: nat, visited: nat, b: nat, k: nat, run: Run, oneshot: bool)
    requires ki < stop <= |es| && c < |es[ki].patterns| && visited < |text|
    requires Replaced(text, t, t', visited, b, k)
    requires run == Run(t', Ok(())) || GoodRun(text, t', Fixed(t', b), run)
    ensures run.result != Err(NoEntry) && Keeps(text, t, run.items, visited) && b < |run.items|
    ensures GoodWalk(text, t, visited, Scan(text, run.items, es, ki, stop, c, b + 1, k + Len(run.items[b]), oneshot))
    decreases Weight(es), stop, stop - ki, |es[ki].patterns| - c, |text| - visited - 1, 1
  {
    hide TextOf, AllWell, Scan, Len;
    Unmoved(text, t', b + 1);
    var r := run.items;
    KeepsLess(text, t', r, b, b + 1);
    KeepsLess(text, t', r, visited, b + 1);
    KeepsMore(text, t, t', r, visited);
    assert r[..b + 1][b] == t'[..b + 1][b];
    hide Keeps;
    NextAt(r, b, k);
    ScanKeeps(text, r, es, ki, stop, c, b + 1, k + Len(r[b]), oneshot);
    var s := Scan(text, r, es, ki, stop, c, b + 1, k + Len(r[b]), oneshot).items;
    KeepsLess(text, r, s, visited, Fixed(r, b + 1));
    KeepsMore(text, t, r, s, visited);
  }

  lemma {:induction false} MadeSound(es: seq<Entry>, ki: nat, c: nat, matched: string)
    requires ki < |es| && c < |es[ki].patterns|
    ensures match Made(es, ki, c, matched)
            case Err(e) => e != NoEntry
            case Ok(token) =>
              ContentText(token.content) == matched && token.length == |matched| && token.kind == es[ki].key
    decreases Weight(es), 0
  {
    hide Tokens, TextOf, AllWell;
    var p := es[ki].patterns[c];
    if p.inside.Some? {
      PatternWeight(es, ki, c);
      TokensLossless(matched, p.inside.value);
    }
  }
}
