// Prism.tokenize and matchGrammar as functions on token sequences. Regular
// expressions are arbitrary: a pattern carries what its exec answers.
module PrismGrammar {
  import opened Results
  import opened PrismTokens

  // match.index, match[0].length and match[1].length; no group 1 when it took
  // no part in the match.
  datatype Match = Match(index: nat, length: nat, group: Option<nat>)
  datatype Pattern = Pattern(exec: (string, nat) -> Option<Match>, inside: Option<Grammar>,
                             lookbehind: bool, greedy: bool, alias: seq<string>)
  datatype Entry = Entry(key: string, patterns: seq<Pattern>)
  datatype Grammar = Grammar(entries: seq<Entry>, rest: seq<Entry>)

  // TypeErrors: reading the entry before the first, the length of an undefined
  // group, an entry past the end.
  datatype Error = NoPrevious | NoGroup | NoEntry

  // pattern.exec(s) with lastIndex == start. An answer that is no match within s at
  // or after lastIndex counts as no match. Group 1 may be of any length: one captured
  // by a lookahead can be longer than the match.
  function Exec(p: Pattern, s: string, start: nat): (r: Option<Match>)
    ensures r.Some? ==> start <= r.value.index && r.value.index + r.value.length <= |s|
  {
    match p.exec(s, start)
    case None => None
    case Some(m) => if start <= m.index && m.index + m.length <= |s| then Some(m) else None
  }

  // String.prototype.slice and Array.prototype.splice for non-negative arguments.
  function Slice(s: string, i: nat, j: nat): string {
    var to := if j < |s| then j else |s|;
    if i <= to then s[i..to] else ""
  }

  function Splice(t: seq<Item>, i: nat, del: nat, items: seq<Item>): seq<Item> {
    var a := if i < |t| then i else |t|;
    var b := if i + del < |t| then i + del else |t|;
    t[..a] + items + t[b..]
  }

  // ---- grammar.rest is merged into the grammar ----

  function Put(es: seq<Entry>, e: Entry): seq<Entry> {
    if es == [] then [e]
    else if es[0].key == e.key then [e] + es[1..]
    else [es[0]] + Put(es[1..], e)
  }

  function Merge(es: seq<Entry>, rest: seq<Entry>): seq<Entry>
    decreases |rest|
  {
    if rest == [] then es else Merge(Put(es, rest[0]), rest[1..])
  }

  // The entries of `rest` are all there, the last one of each key; they take the place
  // of entries with their key, and the other entries stay.
  lemma MergeIs(es: seq<Entry>, rest: seq<Entry>)
    ensures var all := Merge(es, rest);
            && |all| >= |es|
            && (forall k :: 0 <= k < |all| ==> all[k] in es || all[k] in rest)
            && (forall k :: 0 <= k < |es| ==> all[k].key == es[k].key)
            && (forall k :: 0 <= k < |es| && (forall e :: e in rest ==> e.key != es[k].key) ==> all[k] == es[k])
            && (forall i :: 0 <= i < |rest| && (forall j :: i < j < |rest| ==> rest[j].key != rest[i].key) ==>
                  rest[i] in all)
  {
    hide Merge;
    MergeStays(es, rest);
    MergeAdds(es, rest);
    forall i | 0 <= i < |rest| && (forall j :: i < j < |rest| ==> rest[j].key != rest[i].key)
      ensures rest[i] in Merge(es, rest)
    {
      MergeHas(es, rest, i);
    }
  }

  lemma {:induction false} MergeStays(es: seq<Entry>, rest: seq<Entry>)
    ensures var all := Merge(es, rest);
            && |all| >= |es|
            && (forall k :: 0 <= k < |es| ==> all[k].key == es[k].key)
            && (forall k :: 0 <= k < |es| && (forall e :: e in rest ==> e.key != es[k].key) ==> all[k] == es[k])
    decreases |rest|
  {
    hide Put;
    if rest != [] {
      PutIs(es, rest[0]);
      MergeStays(Put(es, rest[0]), rest[1..]);
      forall k | 0 <= k < |es| && forall e :: e in rest ==> e.key != es[k].key
        ensures Merge(es, rest)[k] == es[k]
      {
        assert rest[0] in rest && forall e :: e in rest[1..] ==> e in rest;
      }
    }
  }

  lemma {:induction false} MergeAdds(es: seq<Entry>, rest: seq<Entry>)
    ensures forall k :: 0 <= k < |Merge(es, rest)| ==> Merge(es, rest)[k] in es || Merge(es, rest)[k] in rest
    decreases |rest|
  {
    hide Put;
    if rest != [] {
      PutIs(es, rest[0]);
      MergeAdds(Put(es, rest[0]), rest[1..]);
      assert rest == [rest[0]] + rest[1..];
    }
  }

  lemma {:induction false} MergeHas(es: seq<Entry>, rest: seq<Entry>, i: nat)
    requires i < |rest| && forall j :: i < j < |rest| ==> rest[j].key != rest[i].key
    ensures rest[i] in Merge(es, rest)
    decreases |rest|
  {
    hide Put;
    var es', more := Put(es, rest[0]), rest[1..];
    PutIs(es, rest[0]);
    if i == 0 {
      var k :| 0 <= k < |es'| && es'[k] == rest[0];
      LastOfKey(rest);
      MergeStays(es', more);
      assert Merge(es', more)[k] == es'[k];
    } else {
      forall j | i - 1 < j < |more|
        ensures more[j].key != more[i - 1].key
      {
        assert rest[j + 1] == more[j];
      }
      MergeHas(es', more, i - 1);
    }
  }

  lemma LastOfKey(rest: seq<Entry>)
    requires rest != [] && forall j :: 0 < j < |rest| ==> rest[j].key != rest[0].key
    ensures forall e :: e in rest[1..] ==> e.key != rest[0].key
  {
    forall e | e in rest[1..]
      ensures e.key != rest[0].key
    {
      var j :| 0 <= j < |rest| - 1 && rest[1..][j] == e;
      assert rest[j + 1] == e;
    }
  }

  lemma {:induction false} PutIs(es: seq<Entry>, e: Entry)
    ensures var all := Put(es, e);
            && |es| <= |all| && e in all
            && (forall k :: 0 <= k < |all| ==> all[k] in es || all[k] == e)
            && (forall k :: 0 <= k < |es| ==> all[k].key == es[k].key)
            && (forall k :: 0 <= k < |es| && es[k].key != e.key ==> all[k] == es[k])
  {
    if es != [] && es[0].key != e.key {
      var tail := Put(es[1..], e);
      PutIs(es[1..], e);
      assert Put(es, e) == [es[0]] + tail;
      assert e in tail;
      forall k | 0 <= k < |es| && k > 0
        ensures Put(es, e)[k].key == es[k].key && (es[k].key != e.key ==> Put(es, e)[k] == es[k])
      {
        assert Put(es, e)[k] == tail[k - 1] && es[k] == es[1..][k - 1];
      }
    }
  }

  // ---- how much grammar is left to recurse into ----

  ghost function Weight(es: seq<Entry>): nat {
    if es == [] then 0 else PatternsWeight(es[0].patterns) + Weight(es[1..])
  }

  ghost function PatternsWeight(ps: seq<Pattern>): nat {
    if ps == [] then 0 else InsideWeight(ps[0]) + PatternsWeight(ps[1..])
  }

  ghost function InsideWeight(p: Pattern): nat {
    match p.inside
    case None => 0
    case Some(g) => 1 + Weight(g.entries) + Weight(g.rest)
  }

  ghost function GrammarWeight(g: Grammar): nat {
    Weight(g.entries) + Weight(g.rest)
  }

  lemma {:induction false} PutWeight(es: seq<Entry>, e: Entry)
    ensures Weight(Put(es, e)) <= Weight(es) + PatternsWeight(e.patterns)
  {
    if es == [] {
      assert [e][1..] == [];
    } else if es[0].key == e.key {
      assert ([e] + es[1..])[1..] == es[1..];
    } else {
      PutWeight(es[1..], e);
      assert ([es[0]] + Put(es[1..], e))[1..] == Put(es[1..], e);
    }
  }

  lemma {:induction false} MergeWeight(es: seq<Entry>, rest: seq<Entry>)
    ensures Weight(Merge(es, rest)) <= Weight(es) + Weight(rest)
    decreases |rest|
  {
    if rest != [] {
      PutWeight(es, rest[0]);
      MergeWeight(Put(es, rest[0]), rest[1..]);
    }
  }

  lemma {:induction false} PatternWeight(es: seq<Entry>, ki: nat, c: nat)
    requires ki < |es| && c < |es[ki].patterns|
    ensures InsideWeight(es[ki].patterns[c]) <= Weight(es)
  {
    if ki > 0 {
      PatternWeight(es[1..], ki - 1, c);
    } else {
      InPatterns(es[0].patterns, c);
    }
  }

  lemma {:induction false} InPatterns(ps: seq<Pattern>, c: nat)
    requires c < |ps|
    ensures InsideWeight(ps[c]) <= PatternsWeight(ps)
  {
    if c > 0 {
      InPatterns(ps[1..], c - 1);
    }
  }

  // ---- one text entry ----

  // Whether the entry's type is falsy, as it is for plain strings.
  predicate Untyped(i: Item) {
    i.Text? || i.token.kind == ""
  }

  predicate Greedy(i: Item) {
    i.Tok? && i.token.greedy
  }

  // The loop that finds the entries a greedy match reaches over: it has got to
  // entry a at position x; entries before b, at position k, lie before the match.
  function Reach(t: seq<Item>, a: nat, x: nat, b: nat, k: nat, from: nat, to: nat)
    : (r: Result<(nat, nat, nat, nat), Error>)
    requires b <= a && k <= from && k <= x
    ensures r.Ok? ==> b <= r.value.2 <= r.value.0 && r.value.3 <= from && r.value.3 <= r.value.1
    decreases |t| - a
  {
    if a >= |t| then Ok((a, x, b, k))
    else if x >= to && Untyped(t[a]) && a == 0 then Err(NoPrevious)
    else if x < to || (Untyped(t[a]) && !Greedy(t[a - 1])) then
      var x' := x + Len(t[a]);
      if from >= x' then Reach(t, a + 1, x', b + 1, x', from, to)
      else Reach(t, a + 1, x', b, k, from, to)
    else Ok((a, x, b, k))
  }

  // What a visit to a text entry comes to. Hit: `del` entries from b on, which
  // start at position k and read `str`, hold the match at start .. stop of str.
  datatype Found =
    | Nothing
    | GiveUp
    | Skip(b: nat, k: nat)
    | Bad(error: Error)
    | Hit(b: nat, k: nat, del: nat, str: string, start: nat, stop: nat)

  function GroupLength(p: Pattern, m: Match): nat {
    if p.lookbehind && m.group.Some? then m.group.value else 0
  }

  // Where a match starts and ends once the lookbehind is cut off, which leaves
  // nothing when the group is longer than the match.
  function MatchStart(p: Pattern, m: Match): nat {
    m.index + GroupLength(p, m)
  }

  function MatchEnd(p: Pattern, m: Match): (end: nat)
    ensures end >= MatchStart(p, m)
  {
    m.index + if m.length < GroupLength(p, m) then GroupLength(p, m) else m.length
  }

  function FindGreedy(text: string, t: seq<Item>, p: Pattern, b: nat, k: nat): Found {
    match Exec(p, text, k)
    case None => GiveUp
    case Some(m) =>
      if p.lookbehind && m.group == None then Bad(NoGroup)
      else
        var from, to := MatchStart(p, m), m.index + m.length;
        match Reach(t, b, k, b, k, from, to)
        case Err(e) => Bad(e)
        case Ok((a, x, b', k')) =>
          if b' < |t| && t[b'].Tok? then Skip(b', k')
          else Hit(b', k', a - b', Slice(text, k', x), from - k', MatchEnd(p, m) - k')
  }

  function Find(text: string, t: seq<Item>, p: Pattern, b: nat, k: nat): Found
    requires b < |t| && t[b].Text?
  {
    if p.greedy && b != |t| - 1 then FindGreedy(text, t, p, b, k)
    else
      match Exec(p, t[b].str, 0)
      case None => Nothing
      case Some(m) => Hit(b, k, 1, t[b].str, MatchStart(p, m), MatchEnd(p, m))
  }

  // The entries that replace a hit: what lies before the match, the token, what lies after.
  function Pieces(str: string, start: nat, stop: nat, token: Token): seq<Item> {
    var before, after := Slice(str, 0, start), Slice(str, stop, |str|);
    (if before == "" then [] else [Text(before)]) + [Tok(token)] + (if after == "" then [] else [Text(after)])
  }

  // ---- the loops ----

  datatype Run = Run(items: seq<Item>, result: Result<(), Error>)

  // How the walk of one pattern along the array ends: at its end or by break,
  // by returning from matchGrammar, by throwing.
  datatype Walk = Finished(items: seq<Item>) | Returned(items: seq<Item>) | Threw(items: seq<Item>, error: Error)

  // The keys before `target`; all of them when it is not a key.
  function Stop(es: seq<Entry>, target: Option<string>): (n: nat)
    ensures n <= |es|
  {
    if es == [] || Some(es[0].key) == target then 0 else 1 + Stop(es[1..], target)
  }

  lemma {:induction false} StopAt(es: seq<Entry>, ki: nat)
    requires ki < |es|
    ensures Stop(es, Some(es[ki].key)) <= ki
  {
    if ki > 0 {
      StopAt(es[1..], ki - 1);
    }
  }

  ghost function Tokens(text: string, g: Grammar): Run
    decreases GrammarWeight(g)
  {
    MergeWeight(g.entries, g.rest);
    Matched(text, [Text(text)], Merge(g.entries, g.rest), 0, 0, false, None)
  }

  ghost function Matched(text: string, t: seq<Item>, es: seq<Entry>, index: nat, pos: nat, oneshot: bool,
                         target: Option<string>): Run
    decreases Weight(es), Stop(es, target)
  {
    Keys(text, t, es, 0, Stop(es, target), index, pos, oneshot)
  }

  ghost function Keys(text: string, t: seq<Item>, es: seq<Entry>, ki: nat, stop: nat, index: nat, pos: nat,
                      oneshot: bool): Run
    requires ki <= stop <= |es|
    decreases Weight(es), stop, stop - ki
  {
    if ki == stop then Run(t, Ok(())) else Patterns(text, t, es, ki, stop, 0, index, pos, oneshot)
  }

  ghost function Patterns(text: string, t: seq<Item>, es: seq<Entry>, ki: nat, stop: nat, c: nat, index: nat, pos: nat,
                          oneshot: bool): Run
    requires ki < stop <= |es| && c <= |es[ki].patterns|
    decreases Weight(es), stop, stop - ki, |es[ki].patterns| - c
  {
    if c == |es[ki].patterns| then Keys(text, t, es, ki + 1, stop, index, pos, oneshot)
    else
      match Scan(text, t, es, ki, stop, c, index, pos, oneshot)
      case Finished(t') => Patterns(text, t', es, ki, stop, c + 1, index, pos, oneshot)
      case Returned(t') => Run(t', Ok(()))
      case Threw(t', e) => Run(t', Err(e))
  }

  // The walk of one pattern, at entry b, position k.
  ghost function Scan(text: string, t: seq<Item>, es: seq<Entry>, ki: nat, stop: nat, c: nat, b: nat, k: nat,
                      oneshot: bool): Walk
    requires ki < stop <= |es| && c < |es[ki].patterns|
    decreases Weight(es), stop, stop - ki, |es[ki].patterns| - c, |text| - b, 0
  {
    var p := es[ki].patterns[c];
    if b >= |t| then Finished(t)
    else if |t| > |text| then Returned(t)
    else if t[b].Tok? then Scan(text, t, es, ki, stop, c, b + 1, k + Len(t[b]), oneshot)
    else
      match Find(text, t, p, b, k)
      case Nothing => if oneshot then Finished(t) else Scan(text, t, es, ki, stop, c, b + 1, k + Len(t[b]), oneshot)
      case GiveUp => Finished(t)
      case Skip(b', k') =>
        if b' < b || b' >= |t| then Threw(t, NoEntry)
        else Scan(text, t, es, ki, stop, c, b' + 1, k' + Len(t[b']), oneshot)
      case Bad(e) => Threw(t, e)
      case Hit(b', k', del, str, start, end) =>
        Insert(text, t, es, ki, stop, c, b, b', k', del, str, start, end, oneshot)
  }

  // A match is replaced by its pieces; the walk goes on after the new token.
  ghost function Insert(text: string, t: seq<Item>, es: seq<Entry>, ki: nat, stop: nat, c: nat, visited: nat, b: nat,
                        k: nat, del: nat, str: string, start: nat, end: nat, oneshot: bool): Walk
    requires ki < stop <= |es| && c < |es[ki].patterns| && visited < |text|
    decreases Weight(es), stop, stop - ki, |es[ki].patterns| - c, |text| - visited - 1, 1
  {
    var p := es[ki].patterns[c];
    match Made(es, ki, c, Slice(str, start, end))
    case Err(e) => Threw(t, e)
    case Ok(token) =>
      var before := Slice(str, 0, start);
      var t' := Splice(t, b, del, Pieces(str, start, end, token));
      var b' := if before == "" then b else b + 1;
      var k' := k + |before|;
      StopAt(es, ki);
      var run := if del == 1 then Run(t', Ok(()))
                 else Matched(text, t', es, b', k', true, Some(es[ki].key));
      match run.result
      case Err(e) => Threw(run.items, e)
      case Ok(_) =>
        if oneshot then Finished(run.items)
        else if b' < visited || b' >= |run.items| then Threw(run.items, NoEntry)
        else Scan(text, run.items, es, ki, stop, c, b' + 1, k' + Len(run.items[b']), oneshot)
  }

  // The token for a matched string, tokenized further when the pattern has an `inside`.
  ghost function Made(es: seq<Entry>, ki: nat, c: nat, matched: string): Result<Token, Error>
    requires ki < |es| && c < |es[ki].patterns|
    decreases Weight(es), 0
  {
    var p := es[ki].patterns[c];
    match p.inside
    case None => Ok(Token(es[ki].key, Leaf(matched), p.alias, |matched|, p.greedy))
    case Some(g) =>
      PatternWeight(es, ki, c);
      var run := Tokens(matched, g);
      match run.result
      case Err(e) => Err(e)
      case Ok(_) => Ok(Token(es[ki].key, Nested(run.items), p.alias, |matched|, p.greedy))
  }
}
