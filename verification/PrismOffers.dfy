// matchGrammar in one-shot mode: every pattern of the keys before some key is
// offered the first string behind an entry once.
module PrismOffers {
  import opened Results
  import opened PrismTokens
  import opened PrismGrammar
  import opened PrismLossless
  import opened PrismPlain

  // ---- one offer: a pattern tries the first string from some entry on ----

  // The first string at or after entry b.
  function FirstString(t: seq<Item>, b: nat): (j: nat)
    ensures j >= b && (j < |t| ==> t[j].Text?) && forall i :: b <= i < j && i < |t| ==> t[i].Tok?
    ensures b <= |t| ==> j <= |t|
    decreases |t| - b
  {
    if b < |t| && t[b].Tok? then FirstString(t, b + 1) else b
  }

  // The part of the text before entry b.
  function Start(t: seq<Item>, b: nat): nat
    requires b <= |t|
  {
    |TextOf(t[..b])|
  }

  // The first n keys, from key ki on, get one offer for each of their patterns.
  ghost function OfferKeys(text: string, es: seq<Entry>, ki: nat, n: nat, t: seq<Item>, b: nat)
    : Result<seq<Item>, Error>
    requires ki <= n <= |es|
    decreases n, n - ki
  {
    if ki == n then Ok(t) else OfferPatterns(text, es, ki, n, 0, t, b)
  }

  ghost function OfferPatterns(text: string, es: seq<Entry>, ki: nat, n: nat, c: nat, t: seq<Item>, b: nat)
    : Result<seq<Item>, Error>
    requires ki < n <= |es| && c <= |es[ki].patterns|
    decreases n, n - ki, |es[ki].patterns| - c
  {
    if c == |es[ki].patterns| then OfferKeys(text, es, ki + 1, n, t, b)
    else
      match Offer(text, es, ki, n, es[ki].patterns[c], t, b)
      case Err(e) => Err(e)
      case Ok(t') => OfferPatterns(text, es, ki, n, c + 1, t', b)
  }

  // A pattern tries the first string. A greedy one searches the whole text from that
  // string on, unless it is the last entry, and may be sent past a token.
  ghost function Offer(text: string, es: seq<Entry>, ki: nat, n: nat, q: Pattern, t: seq<Item>, b: nat)
    : Result<seq<Item>, Error>
    requires ki < n <= |es|
    decreases n, n - ki, 0, |t| - b
  {
    var j := FirstString(t, b);
    if j >= |t| || |t| > |text| then Ok(t)
    else if q.greedy && j < |t| - 1 then
      match FindGreedy(text, t, q, j, Start(t, j))
      case Skip(b', _) => if j <= b' < |t| then Offer(text, es, ki, n, q, t, b' + 1) else Err(NoEntry)
      case Bad(e) => Err(e)
      case Hit(b', _, del, str, from, to) => OfferHit(text, es, ki, n, q, t, b', del, str, from, to)
      case _ => Ok(t)
    else
      match Exec(q, t[j].str, 0)
      case None => Ok(t)
      case Some(m) => OfferHit(text, es, ki, n, q, t, j, 1, t[j].str, From(q, m), To(q, m))
  }

  // The entries of a match become the text before it, its token and the text after
  // it. When they were not exactly one, the keys before its own get their offers.
  ghost function OfferHit(text: string, es: seq<Entry>, ki: nat, n: nat, q: Pattern, t: seq<Item>, b: nat, del: nat,
                          str: string, from: nat, to: nat): Result<seq<Item>, Error>
    requires ki < n <= |es|
    decreases n, n - ki, 0, 0
  {
    match TokenOf(es[ki].key, q, Slice(str, from, to))
    case Err(e) => Err(e)
    case Ok(token) =>
      if b + del > |t| then Err(NoEntry)
      else
        var done := t[..b] + Strings(Slice(str, 0, from)) + [Tok(token)];
        var t' := done + Strings(Slice(str, to, |str|)) + t[b + del..];
        if del == 1 then Ok(t') else OfferKeys(text, es, 0, ki, t', |done|)
  }

  // ---- the one-shot walk is an offer ----

  // The keys of an object are distinct.
  predicate Distinct(es: seq<Entry>) {
    forall i, j :: 0 <= i < j < |es| ==> es[i].key != es[j].key
  }

  lemma {:induction false} StopDistinct(es: seq<Entry>, ki: nat)
    requires ki < |es| && Distinct(es)
    ensures Stop(es, Some(es[ki].key)) == ki
  {
    if ki > 0 {
      assert es[1..][ki - 1] == es[ki];
      StopDistinct(es[1..], ki - 1);
    }
  }

  ghost predicate SameWalk(text: string, o: Result<seq<Item>, Error>, w: Walk) {
    match o
    case Ok(t) => !w.Threw? && w.items == t && (w.Returned? ==> |t| > |text|)
    case Err(e) => w.Threw? && w.error == e
  }

  ghost predicate SameRun(o: Result<seq<Item>, Error>, r: Run) {
    match o
    case Ok(t) => r == Run(t, Ok(()))
    case Err(e) => r.result == Err(e)
  }

  lemma {:induction false} ScanOffers(text: string, t: seq<Item>, es: seq<Entry>, ki: nat, stop: nat, c: nat, b: nat,
                                      k: nat)
    requires ki < stop <= |es| && c < |es[ki].patterns| && Distinct(es) && Inv(text, t) && At(t, b, k)
    ensures SameWalk(text, Offer(text, es, ki, stop, es[ki].patterns[c], t, b),
                     Scan(text, t, es, ki, stop, c, b, k, true))
    decreases stop, stop - ki, |es[ki].patterns| - c, |t| - b, 1
  {
    hide FindGreedy, Exec, Insert, OfferHit, TextOf, AllWell, Slice, GoodFind, Distinct, From, To, Inv;
    var q := es[ki].patterns[c];
    if b < |t| && |t| <= |text| {
      WellOf(text, t);
      if t[b].Tok? {
        NextAt(t, b, k);
        ScanOffers(text, t, es, ki, stop, c, b + 1, k + Len(t[b]));
        OfferPast(text, es, ki, stop, q, t, b);
      } else {
        var f := Find(text, t, q, b, k);
        FindSound(text, t, q, b, k);
        match f {
          case Skip(b', k') =>
            SkipsTo(t, b, f);
            NextAt(t, b', k');
            ScanOffers(text, t, es, ki, stop, c, b' + 1, k' + Len(t[b']));
          case Hit(b', k', del, str, from, to) =>
            InsertOffers(text, t, es, ki, stop, c, b, b', k', del, str, from, to);
            FromTo(q);
          case _ =>
        }
      }
    }
  }

  lemma FromTo(q: Pattern)
    ensures forall m :: MatchStart(q, m) == From(q, m) && MatchEnd(q, m) == To(q, m)
  {}

  lemma OfferPast(text: string, es: seq<Entry>, ki: nat, n: nat, q: Pattern, t: seq<Item>, b: nat)
    requires ki < n <= |es| && b < |t| && t[b].Tok?
    ensures Offer(text, es, ki, n, q, t, b) == Offer(text, es, ki, n, q, t, b + 1)
  {
    hide FindGreedy, Exec, OfferHit;
  }

  lemma {:induction false} InsertOffers(text: string, t: seq<Item>, es: seq<Entry>, ki: nat, stop: nat, c: nat,
                                        visited: nat, b: nat, k: nat, del: nat, str: string, from: nat, to: nat)
    requires ki < stop <= |es| && c < |es[ki].patterns| && Distinct(es) && Inv(text, t)
    requires visited < |t| <= |text| && GoodFind(t, visited, Hit(b, k, del, str, from, to))
    ensures SameWalk(text, OfferHit(text, es, ki, stop, es[ki].patterns[c], t, b, del, str, from, to),
                     Insert(text, t, es, ki, stop, c, visited, b, k, del, str, from, to, true))
    decreases stop, stop - ki, |es[ki].patterns| - c, |t| - visited, 0
  {
    hide Made, Matched, OfferKeys, TextOf, AllWell, Slice, TokenOf, At, Splice, Pieces, Keeps, Inv, Distinct;
    var p, cut := es[ki].patterns[c], Slice(str, from, to);
    MadeIs(es, ki, c, cut);
    MadeSound(es, ki, c, cut);
    if Made(es, ki, c, cut).Ok? {
      var token := Made(es, ki, c, cut).value;
      var before := Slice(str, 0, from);
      var t' := Splice(t, b, del, Pieces(str, from, to, token));
      var done := t[..b] + Strings(before) + [Tok(token)];
      SplicedHit(t, b, del, str, from, to, token);
      InsertSound(text, t, visited, b, k, del, str, from, to, token);
      StopDistinct(es, ki);
      if del != 1 {
        KeepsInv(text, t, t', visited);
        var b', k' := if before == "" then b else b + 1, k + |before|;
        WellOf(text, t');
        NextAt(t', b', k');
        MatchedOffers(text, t', es, ki, b', k');
        assert b' + 1 == |done|;
      }
    }
  }

  lemma SplicedHit(t: seq<Item>, b: nat, del: nat, str: string, from: nat, to: nat, token: Token)
    requires b + del <= |t|
    ensures var done := t[..b] + Strings(Slice(str, 0, from)) + [Tok(token)];
            && Splice(t, b, del, Pieces(str, from, to, token)) == done + Strings(Slice(str, to, |str|)) + t[b + del..]
            && |done| == b + 1 + if Slice(str, 0, from) == "" then 0 else 1
  {
    hide Slice;
  }

  // The one-shot recursion that starts at a token.
  lemma {:induction false} MatchedOffers(text: string, t: seq<Item>, es: seq<Entry>, ki: nat, b: nat, k: nat)
    requires ki < |es| && Distinct(es) && Inv(text, t) && At(t, b, k) && b < |t| && t[b].Tok?
    ensures SameRun(OfferKeys(text, es, 0, ki, t, b + 1), Matched(text, t, es, b, k, true, Some(es[ki].key)))
    decreases ki, ki + 1
  {
    hide Keys, OfferKeys, Inv, At, Distinct;
    StopDistinct(es, ki);
    KeysOffer(text, t, es, 0, ki, b, k);
  }

  lemma {:induction false} KeysOffer(text: string, t: seq<Item>, es: seq<Entry>, ki: nat, stop: nat, b: nat, k: nat)
    requires ki <= stop <= |es| && Distinct(es) && Inv(text, t) && At(t, b, k) && b < |t| && t[b].Tok?
    ensures SameRun(OfferKeys(text, es, ki, stop, t, b + 1), Keys(text, t, es, ki, stop, b, k, true))
    decreases stop, stop - ki
  {
    hide Patterns, OfferPatterns, Inv, At, Distinct;
    if ki < stop {
      PatternsOffer(text, t, es, ki, stop, 0, b, k);
    }
  }

  lemma {:induction false} PatternsOffer(text: string, t: seq<Item>, es: seq<Entry>, ki: nat, stop: nat, c: nat, b: nat,
                                         k: nat)
    requires ki < stop <= |es| && c <= |es[ki].patterns| && Distinct(es)
    requires Inv(text, t) && At(t, b, k) && b < |t| && t[b].Tok?
    ensures SameRun(OfferPatterns(text, es, ki, stop, c, t, b + 1), Patterns(text, t, es, ki, stop, c, b, k, true))
    decreases stop, stop - ki, |es[ki].patterns| - c
  {
    hide Keys, Scan, Offer, OfferKeys, Inv, At, Keeps, Distinct;
    if c == |es[ki].patterns| {
      KeysOffer(text, t, es, ki + 1, stop, b, k);
    } else {
      var q := es[ki].patterns[c];
      ScanOffers(text, t, es, ki, stop, c, b, k);
      OfferPast(text, es, ki, stop, q, t, b);
      ScanKeeps(text, t, es, ki, stop, c, b, k, true);
      var w := Scan(text, t, es, ki, stop, c, b, k, true);
      if !w.Threw? {
        StillThere(text, t, w.items, b, k);
        PatternsOffer(text, w.items, es, ki, stop, c + 1, b, k);
        if w.Returned? {
          OfferTooMany(text, es, ki, stop, c + 1, w.items, b + 1);
        }
      }
    }
  }

  lemma StillThere(text: string, t: seq<Item>, t': seq<Item>, b: nat, k: nat)
    requires At(t, b, k) && b < |t| && t[b].Tok? && Keeps(text, t, t', Fixed(t, b))
    ensures Inv(text, t') && At(t', b, k) && b < |t'| && t'[b].Tok?
  {
    hide TextOf;
    SameStart(text, t, t', b, k);
    assert t'[..b + 1][b] == t[..b + 1][b];
  }

  lemma {:induction false} OfferTooMany(text: string, es: seq<Entry>, ki: nat, n: nat, c: nat, t: seq<Item>, b: nat)
    requires ki < n <= |es| && c <= |es[ki].patterns| && |t| > |text|
    ensures OfferPatterns(text, es, ki, n, c, t, b) == Ok(t)
    decreases n - ki, |es[ki].patterns| - c
  {
    hide Offer;
    if c < |es[ki].patterns| {
      NoOffer(text, es, ki, n, es[ki].patterns[c], t, b);
      OfferTooMany(text, es, ki, n, c + 1, t, b);
    } else if ki + 1 < n {
      OfferTooMany(text, es, ki + 1, n, 0, t, b);
    }
  }

  lemma NoOffer(text: string, es: seq<Entry>, ki: nat, n: nat, q: Pattern, t: seq<Item>, b: nat)
    requires ki < n <= |es| && |t| > |text|
    ensures Offer(text, es, ki, n, q, t, b) == Ok(t)
  {}

  // ---- entries that come later do not matter to earlier ones ----

  lemma {:induction false} SameStop(es: seq<Entry>, more: seq<Entry>, ki: nat)
    requires ki < |es|
    ensures Stop(es + more, Some(es[ki].key)) == Stop(es, Some(es[ki].key))
  {
    assert (es + more)[1..] == es[1..] + more;
    if es[0].key != es[ki].key {
      SameStop(es[1..], more, ki - 1);
    }
  }

  lemma {:induction false} SameScan(text: string, t: seq<Item>, es: seq<Entry>, more: seq<Entry>, ki: nat, stop: nat,
                                    stop': nat, c: nat, b: nat, k: nat, oneshot: bool)
    requires ki < stop <= |es| && ki < stop' <= |es + more| && c < |es[ki].patterns|
    ensures Scan(text, t, es + more, ki, stop', c, b, k, oneshot) == Scan(text, t, es, ki, stop, c, b, k, oneshot)
    decreases stop, stop - ki, |es[ki].patterns| - c, |text| - b, 1
  {
    hide Find, Insert, Len;
    if b < |t| && |t| <= |text| {
      if t[b].Tok? {
        SameScan(text, t, es, more, ki, stop, stop', c, b + 1, k + Len(t[b]), oneshot);
      } else {
        match Find(text, t, es[ki].patterns[c], b, k) {
          case Nothing =>
            SameScan(text, t, es, more, ki, stop, stop', c, b + 1, k + Len(t[b]), oneshot);
          case Skip(b', k') =>
            if b <= b' < |t| {
              SameScan(text, t, es, more, ki, stop, stop', c, b' + 1, k' + Len(t[b']), oneshot);
            }
          case Hit(b', k', del, str, from, to) =>
            SameInsert(text, t, es, more, ki, stop, stop', c, b, b', k', del, str, from, to, oneshot);
          case _ =>
        }
      }
    }
  }

  lemma {:induction false} SameInsert(text: string, t: seq<Item>, es: seq<Entry>, more: seq<Entry>, ki: nat, stop: nat,
                                      stop': nat, c: nat, visited: nat, b: nat, k: nat, del: nat, str: string,
                                      from: nat, to: nat, oneshot: bool)
    requires ki < stop <= |es| && ki < stop' <= |es + more| && c < |es[ki].patterns| && visited < |text|
    ensures Insert(text, t, es + more, ki, stop', c, visited, b, k, del, str, from, to, oneshot)
         == Insert(text, t, es, ki, stop, c, visited, b, k, del, str, from, to, oneshot)
    decreases stop, stop - ki, |es[ki].patterns| - c, |text| - visited, 0
  {
    hide Scan, Matched, Made, Splice, Pieces, Slice, Len;
    var cut := Slice(str, from, to);
    MadeIs(es, ki, c, cut);
    MadeIs(es + more, ki, c, cut);
    if Made(es, ki, c, cut).Ok? {
      var t' := Splice(t, b, del, Pieces(str, from, to, Made(es, ki, c, cut).value));
      var before := Slice(str, 0, from);
      var b', k' := if before == "" then b else b + 1, k + |before|;
      StopAt(es, ki);
      SameMatched(text, t', es, more, ki, b', k');
      var run := if del == 1 then Run(t', Ok(())) else Matched(text, t', es, b', k', true, Some(es[ki].key));
      if run.result.Ok? && !oneshot && visited <= b' < |run.items| {
        SameScan(text, run.items, es, more, ki, stop, stop', c, b' + 1, k' + Len(run.items[b']), oneshot);
      }
    }
  }

  lemma {:induction false} SameMatched(text: string, t: seq<Item>, es: seq<Entry>, more: seq<Entry>, ki: nat, b: nat,
                                       k: nat)
    requires ki < |es|
    ensures Matched(text, t, es + more, b, k, true, Some(es[ki].key))
         == Matched(text, t, es, b, k, true, Some(es[ki].key))
    decreases ki, ki + 1
  {
    hide Keys;
    StopAt(es, ki);
    SameStop(es, more, ki);
    var stop := Stop(es, Some(es[ki].key));
    KeysFirst(text, t, es, more, 0, stop, stop, b, k, true);
    var r := Keys(text, t, es, 0, stop, b, k, true);
    KeysDone(text, r.items, es + more, stop, b, k);
    assert r.result.Ok? ==> r.result.value == ();
  }

  lemma KeysDone(text: string, t: seq<Item>, es: seq<Entry>, stop: nat, b: nat, k: nat)
    requires stop <= |es|
    ensures Keys(text, t, es, stop, stop, b, k, true) == Run(t, Ok(()))
  {}

  // What the first keys come to before the others are used.
  lemma {:induction false} KeysFirst(text: string, t: seq<Item>, es: seq<Entry>, more: seq<Entry>, ki: nat, stop: nat,
                                     stop': nat, b: nat, k: nat, oneshot: bool)
    requires ki <= stop <= |es| && stop <= stop' <= |es + more|
    ensures var r := Keys(text, t, es, ki, stop, b, k, oneshot);
            Keys(text, t, es + more, ki, stop', b, k, oneshot)
            == if r.result.Err? then r else Keys(text, r.items, es + more, stop, stop', b, k, oneshot)
    decreases stop, stop - ki
  {
    hide Patterns;
    if ki < stop {
      PatternsFirst(text, t, es, more, ki, stop, stop', 0, b, k, oneshot);
    }
  }

  lemma {:induction false} PatternsFirst(text: string, t: seq<Item>, es: seq<Entry>, more: seq<Entry>, ki: nat,
                                         stop: nat, stop': nat, c: nat, b: nat, k: nat, oneshot: bool)
    requires ki < stop <= |es| && stop <= stop' <= |es + more| && c <= |es[ki].patterns|
    ensures var r := Patterns(text, t, es, ki, stop, c, b, k, oneshot);
            Patterns(text, t, es + more, ki, stop', c, b, k, oneshot)
            == if r.result.Err? then r else Keys(text, r.items, es + more, stop, stop', b, k, oneshot)
    decreases stop, stop - ki, |es[ki].patterns| - c
  {
    hide Keys, Scan;
    if c == |es[ki].patterns| {
      KeysFirst(text, t, es, more, ki + 1, stop, stop', b, k, oneshot);
    } else {
      SameScan(text, t, es, more, ki, stop, stop', c, b, k, oneshot);
      ReturnedFull(text, t, es, ki, stop, c, b, k, oneshot);
      var w := Scan(text, t, es, ki, stop, c, b, k, oneshot);
      if w.Finished? {
        PatternsFirst(text, w.items, es, more, ki, stop, stop', c + 1, b, k, oneshot);
      } else if w.Returned? {
        KeysTooMany(text, w.items, es + more, stop, stop', b, k, oneshot);
      }
    }
  }

  // A walk returns only when the array has outgrown the text.
  lemma {:induction false} ReturnedFull(text: string, t: seq<Item>, es: seq<Entry>, ki: nat, stop: nat, c: nat, b: nat,
                                        k: nat, oneshot: bool)
    requires ki < stop <= |es| && c < |es[ki].patterns|
    ensures var w := Scan(text, t, es, ki, stop, c, b, k, oneshot);
            w.Returned? ==> |w.items| > |text|
    decreases |text| - b, 1
  {
    hide Find, Insert, Len;
    if b < |t| && |t| <= |text| {
      if t[b].Tok? {
        ReturnedFull(text, t, es, ki, stop, c, b + 1, k + Len(t[b]), oneshot);
      } else {
        match Find(text, t, es[ki].patterns[c], b, k) {
          case Nothing =>
            ReturnedFull(text, t, es, ki, stop, c, b + 1, k + Len(t[b]), oneshot);
          case Skip(b', k') =>
            if b <= b' < |t| {
              ReturnedFull(text, t, es, ki, stop, c, b' + 1, k' + Len(t[b']), oneshot);
            }
          case Hit(b', k', del, str, from, to) =>
            InsertFull(text, t, es, ki, stop, c, b, b', k', del, str, from, to, oneshot);
          case _ =>
        }
      }
    }
  }

  lemma {:induction false} InsertFull(text: string, t: seq<Item>, es: seq<Entry>, ki: nat, stop: nat, c: nat,
                                      visited: nat, b: nat, k: nat, del: nat, str: string, from: nat, to: nat,
                                      oneshot: bool)
    requires ki < stop <= |es| && c < |es[ki].patterns| && visited < |text|
    ensures var w := Insert(text, t, es, ki, stop, c, visited, b, k, del, str, from, to, oneshot);
            w.Returned? ==> |w.items| > |text|
    decreases |text| - visited, 0
  {
    hide Scan, Matched, Made, Splice, Pieces, Slice, Len;
    var cut := Slice(str, from, to);
    if Made(es, ki, c, cut).Ok? {
      var t' := Splice(t, b, del, Pieces(str, from, to, Made(es, ki, c, cut).value));
      var before := Slice(str, 0, from);
      var b', k' := if before == "" then b else b + 1, k + |before|;
      StopAt(es, ki);
      var run := if del == 1 then Run(t', Ok(())) else Matched(text, t', es, b', k', true, Some(es[ki].key));
      if run.result.Ok? && !oneshot && visited <= b' < |run.items| {
        ReturnedFull(text, run.items, es, ki, stop, c, b' + 1, k' + Len(run.items[b']), oneshot);
      }
    }
  }
}
