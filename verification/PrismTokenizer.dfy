// Prism.tokenize and matchGrammar in their own form: an array of strings and
// tokens that is spliced in place while an index and a position advance.
module PrismTokenizer {
  import opened Results
  import opened PrismTokens
  import opened PrismGrammar

  class TokenArray {
    var entries: seq<Item>

    constructor (entries: seq<Item>)
      ensures this.entries == entries
    {
      this.entries := entries;
    }
  }

  datatype Ending = AtEnd | Return | Throw(error: Error)

  ghost function WalkOf(items: seq<Item>, e: Ending): Walk {
    match e
    case AtEnd => Finished(items)
    case Return => Returned(items)
    case Throw(error) => Threw(items, error)
  }

  method Tokenize(text: string, grammar: Grammar) returns (strarr: TokenArray, r: Result<(), Error>)
    ensures fresh(strarr) && Run(strarr.entries, r) == Tokens(text, grammar)
    decreases GrammarWeight(grammar)
  {
    strarr := new TokenArray([Text(text)]);
    MergeWeight(grammar.entries, grammar.rest);
    var merged := MergeRest(grammar);
    r := MatchGrammar(text, strarr, merged, 0, 0, false, None);
  }

  method MergeRest(grammar: Grammar) returns (entries: seq<Entry>)
    ensures entries == Merge(grammar.entries, grammar.rest)
  {
    entries := grammar.entries;
    assert grammar.rest[0..] == grammar.rest;
    for i := 0 to |grammar.rest|
      invariant Merge(entries, grammar.rest[i..]) == Merge(grammar.entries, grammar.rest)
    {
      assert grammar.rest[i..][1..] == grammar.rest[i + 1..];
      entries := Put(entries, grammar.rest[i]);
    }
  }

  method MatchGrammar(text: string, strarr: TokenArray, grammar: seq<Entry>, index: nat, startPos: nat, oneshot: bool,
                      target: Option<string>) returns (r: Result<(), Error>)
    modifies strarr
    ensures Run(strarr.entries, r) == Matched(text, old(strarr.entries), grammar, index, startPos, oneshot, target)
    decreases Weight(grammar), Stop(grammar, target)
  {
    hide Keys, Patterns, Scan;
    ghost var stop := Stop(grammar, target);
    ghost var run := Keys(text, strarr.entries, grammar, 0, stop, index, startPos, oneshot);
    for key := 0 to |grammar|
      invariant key <= stop
      invariant Keys(text, strarr.entries, grammar, key, stop, index, startPos, oneshot) == run
    {
      StopIs(grammar, key, target);
      if Some(grammar[key].key) == target {
        KeysEnd(text, strarr.entries, grammar, stop, index, startPos, oneshot);
        return Ok(());
      }
      KeysStep(text, strarr.entries, grammar, key, stop, index, startPos, oneshot);
      for c := 0 to |grammar[key].patterns|
        invariant Patterns(text, strarr.entries, grammar, key, stop, c, index, startPos, oneshot) == run
      {
        PatternsStep(text, strarr.entries, grammar, key, stop, c, index, startPos, oneshot);
        var ending := WalkPattern(text, strarr, grammar, key, stop, c, index, startPos, oneshot);
        match ending {
          case AtEnd =>
          case Return => return Ok(());
          case Throw(e) => return Err(e);
        }
      }
      PatternsEnd(text, strarr.entries, grammar, key, stop, index, startPos, oneshot);
    }
    KeysEnd(text, strarr.entries, grammar, stop, index, startPos, oneshot);
    return Ok(());
  }

  lemma {:induction false} StopIs(es: seq<Entry>, ki: nat, target: Option<string>)
    requires ki < |es| && ki <= Stop(es, target)
    ensures ki == Stop(es, target) <==> Some(es[ki].key) == target
  {
    if ki > 0 {
      StopIs(es[1..], ki - 1, target);
    }
  }

  lemma KeysStep(text: string, t: seq<Item>, es: seq<Entry>, ki: nat, stop: nat, index: nat, pos: nat, oneshot: bool)
    requires ki < stop <= |es|
    ensures Keys(text, t, es, ki, stop, index, pos, oneshot) == Patterns(text, t, es, ki, stop, 0, index, pos, oneshot)
  {
    hide Patterns;
  }

  lemma KeysEnd(text: string, t: seq<Item>, es: seq<Entry>, stop: nat, index: nat, pos: nat, oneshot: bool)
    requires stop <= |es|
    ensures Keys(text, t, es, stop, stop, index, pos, oneshot) == Run(t, Ok(()))
  {}

  lemma PatternsStep(text: string, t: seq<Item>, es: seq<Entry>, ki: nat, stop: nat, c: nat, index: nat, pos: nat,
                     oneshot: bool)
    requires ki < stop <= |es| && c < |es[ki].patterns|
    ensures Patterns(text, t, es, ki, stop, c, index, pos, oneshot)
         == match Scan(text, t, es, ki, stop, c, index, pos, oneshot)
            case Finished(t') => Patterns(text, t', es, ki, stop, c + 1, index, pos, oneshot)
            case Returned(t') => Run(t', Ok(()))
            case Threw(t', e) => Run(t', Err(e))
  {
    hide Scan, Keys;
  }

  lemma PatternsEnd(text: string, t: seq<Item>, es: seq<Entry>, ki: nat, stop: nat, index: nat, pos: nat, oneshot: bool)
    requires ki < stop <= |es|
    ensures Patterns(text, t, es, ki, stop, |es[ki].patterns|, index, pos, oneshot)
         == Keys(text, t, es, ki + 1, stop, index, pos, oneshot)
  {
    hide Scan, Keys;
  }

  // The walk of one pattern along the array.
  method WalkPattern(text: string, strarr: TokenArray, grammar: seq<Entry>, key: nat, ghost stop: nat, c: nat,
                     index: nat, startPos: nat, oneshot: bool) returns (ending: Ending)
    requires key < stop <= |grammar| && c < |grammar[key].patterns|
    modifies strarr
    ensures WalkOf(strarr.entries, ending)
         == Scan(text, old(strarr.entries), grammar, key, stop, c, index, startPos, oneshot)
    decreases Weight(grammar), stop, stop - key, |grammar[key].patterns| - c
  {
    hide Insert, Find;
    var pattern := grammar[key].patterns[c];
    var i, pos := index, startPos;
    while i < |strarr.entries|
      invariant Scan(text, strarr.entries, grammar, key, stop, c, i, pos, oneshot)
             == Scan(text, old(strarr.entries), grammar, key, stop, c, index, startPos, oneshot)
      decreases |text| - i
    {
      if |strarr.entries| > |text| {
        return Return;
      }
      if strarr.entries[i].Text? {
        var found := Locate(text, strarr.entries, pattern, i, pos);
        match found {
          case GiveUp =>
            return AtEnd;
          case Bad(e) =>
            return Throw(e);
          case Skip(b, k) =>
            if b < i || b >= |strarr.entries| {
              return Throw(NoEntry);
            }
            i, pos := b, k;
          case Hit(b, k, del, str, from, to) =>
            var next: Result<(nat, nat), Ending>;
            next := Replace(text, strarr, grammar, key, stop, c, i, b, k, del, str, from, to, oneshot);
            match next {
              case Err(end) => return end;
              case Ok((b', k')) => i, pos := b', k';
            }
          case Nothing =>
            if oneshot {
              return AtEnd;
            }
        }
      }
      pos := pos + Len(strarr.entries[i]);
      i := i + 1;
    }
    return AtEnd;
  }

  // What one visit to a text entry finds.
  method Locate(text: string, entries: seq<Item>, pattern: Pattern, i: nat, pos: nat) returns (found: Found)
    requires i < |entries| && entries[i].Text?
    ensures found == Find(text, entries, pattern, i, pos)
  {
    hide Reach;
    if pattern.greedy && i != |entries| - 1 {
      var exec := Exec(pattern, text, pos);
      if exec == None {
        return GiveUp;
      }
      var m := exec.value;
      if pattern.lookbehind && m.group == None {
        return Bad(NoGroup);
      }
      var from := MatchStart(pattern, m);
      var to := m.index + m.length;
      var reach := FindReach(entries, i, pos, from, to);
      if reach.Err? {
        return Bad(reach.error);
      }
      var (k, p, i', pos') := reach.value;
      if i' < |entries| && entries[i'].Tok? {
        return Skip(i', pos');
      }
      return Hit(i', pos', k - i', Slice(text, pos', p), from - pos', MatchEnd(pattern, m) - pos');
    }
    var exec := Exec(pattern, entries[i].str, 0);
    if exec == None {
      return Nothing;
    }
    var m := exec.value;
    return Hit(i, pos, 1, entries[i].str, MatchStart(pattern, m), MatchEnd(pattern, m));
  }

  method FindReach(entries: seq<Item>, i: nat, pos: nat, from: nat, to: nat)
    returns (r: Result<(nat, nat, nat, nat), Error>)
    requires pos <= from
    ensures r == Reach(entries, i, pos, i, pos, from, to)
  {
    var k: nat, p: nat, i': nat, pos': nat := i, pos, i, pos;
    while k < |entries|
      invariant i' <= k && pos' <= from && pos' <= p
      invariant Reach(entries, k, p, i', pos', from, to) == Reach(entries, i, pos, i, pos, from, to)
    {
      if p >= to {
        if !Untyped(entries[k]) {
          break;
        }
        if k == 0 {
          return Err(NoPrevious);
        }
        if Greedy(entries[k - 1]) {
          break;
        }
      }
      p := p + Len(entries[k]);
      if from >= p {
        i', pos' := i' + 1, p;
      }
      k := k + 1;
    }
    return Ok((k, p, i', pos'));
  }

  // Put the pieces of a hit in place of what it covers, and try the earlier
  // patterns again if that was not exactly one entry. The walk goes on after
  // the entry returned, or ends.
  method Replace(text: string, strarr: TokenArray, grammar: seq<Entry>, key: nat, ghost stop: nat, c: nat, visited: nat,
                 b: nat, k: nat, delNum: nat, str: string, from: nat, to: nat, oneshot: bool)
    returns (next: Result<(nat, nat), Ending>)
    requires key < stop <= |grammar| && c < |grammar[key].patterns| && visited < |text|
    modifies strarr
    ensures var walk := Insert(text, old(strarr.entries), grammar, key, stop, c, visited, b, k, delNum, str,
                              from, to, oneshot);
            match next
            case Err(ending) => WalkOf(strarr.entries, ending) == walk
            case Ok((i, pos)) =>
              && visited <= i < |strarr.entries|
              && walk == Scan(text, strarr.entries, grammar, key, stop, c, i + 1, pos + Len(strarr.entries[i]), oneshot)
    decreases Weight(grammar), stop, stop - key, |grammar[key].patterns| - c, 0
  {
    hide Scan, Made, Matched, Slice, Splice, Len;
    var i, pos := b, k;
    var args: seq<Item> := [];
    var before, after := Slice(str, 0, from), Slice(str, to, |str|);
    if before != "" {
      i := i + 1;
      pos := pos + |before|;
      args := args + [Text(before)];
    }
    var made := MakeToken(grammar, key, c, Slice(str, from, to));
    if made.Err? {
      return Err(Throw(made.error));
    }
    args := args + [Tok(made.value)];
    if after != "" {
      args := args + [Text(after)];
    }
    assert args == Pieces(str, from, to, made.value);
    strarr.entries := Splice(strarr.entries, b, delNum, args);
    if delNum != 1 {
      StopAt(grammar, key);
      var r := MatchGrammar(text, strarr, grammar, i, pos, true, Some(grammar[key].key));
      if r.Err? {
        return Err(Throw(r.error));
      }
    }
    if oneshot {
      return Err(AtEnd);
    }
    if i < visited || i >= |strarr.entries| {
      return Err(Throw(NoEntry));
    }
    return Ok((i, pos));
  }

  method MakeToken(grammar: seq<Entry>, key: nat, c: nat, matched: string) returns (r: Result<Token, Error>)
    requires key < |grammar| && c < |grammar[key].patterns|
    ensures r == Made(grammar, key, c, matched)
    decreases Weight(grammar), 0
  {
    var pattern := grammar[key].patterns[c];
    match pattern.inside {
      case None =>
        return Ok(Token(grammar[key].key, Leaf(matched), pattern.alias, |matched|, pattern.greedy));
      case Some(inside) =>
        PatternWeight(grammar, key, c);
        var content, done := Tokenize(matched, inside);
        if done.Err? {
          return Err(done.error);
        }
        return Ok(Token(grammar[key].key, Nested(content.entries), pattern.alias, |matched|, pattern.greedy));
    }
  }
}
