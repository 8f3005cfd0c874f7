// Exactly which patterns can make tokenizing throw.
module PrismThrows {
  import opened Results
  import opened PrismTokens
  import opened PrismGrammar
  import opened PrismSafety

  // A pattern that splits s after `start` characters and puts an empty token at the end.
  function Splitter(s: string, start: nat): Pattern {
    Pattern((w: string, _: nat) =>
              if w == Slice(s, start, |s|) then Some(Match(|w|, 0, None))
              else if w == s then Some(Match(0, start, None))
              else None,
            None, false, false, [])
  }

  // The splitter, then p.
  function Untaming(s: string, start: nat, key: string, p: Pattern): seq<Entry> {
    [Entry("part", [Splitter(s, start)]), Entry(key, [p])]
  }

  function Part(w: string): Item {
    Tok(Token("part", Leaf(w), [], |w|, false))
  }

  // What the splitter makes of s.
  function SplitUp(s: string, start: nat): seq<Item>
    requires start <= |s|
  {
    if start == 0 then [Text(s), Part("")] else [Part(s[..start]), Text(s[start..]), Part("")]
  }

  // One match of a plain pattern inside one string.
  lemma HitStep(text: string, t: seq<Item>, es: seq<Entry>, b: nat, k: nat, w: string, from: nat, to: nat)
    requires |es| == 2 && |es[0].patterns| == 1 && es[0].patterns[0].inside == None && !es[0].patterns[0].greedy
    requires b < |t| <= |text| && t[b] == Text(w)
    requires from <= to && Exec(es[0].patterns[0], w, 0) == Some(Match(from, to - from, None))
    ensures var p := es[0].patterns[0];
            var before, matched := Slice(w, 0, from), Slice(w, from, to);
            var token := Token(es[0].key, Leaf(matched), p.alias, |matched|, false);
            var t' := Splice(t, b, 1, Pieces(w, from, to, token));
            var b' := if before == "" then b else b + 1;
            b' < |t'| ==>
              Scan(text, t, es, 0, 2, 0, b, k, false)
              == Scan(text, t', es, 0, 2, 0, b' + 1, k + |before| + Len(t'[b']), false)
  {
    hide Exec, Slice, Splice, Pieces;
    var p := es[0].patterns[0];
    assert Find(text, t, p, b, k) == Hit(b, k, 1, w, from, to);
    var matched := Slice(w, from, to);
    var token := Token(es[0].key, Leaf(matched), p.alias, |matched|, false);
    assert Made(es, 0, 0, matched) == Ok(token);
    hide Find, Made;
    assert Scan(text, t, es, 0, 2, 0, b, k, false) == Insert(text, t, es, 0, 2, 0, b, b, k, 1, w, from, to, false);
  }

  lemma FirstPieces(s: string, start: nat, token: Token)
    requires 0 < start < |s|
    ensures Splice([Text(s)], 0, 1, Pieces(s, 0, start, token)) == [Tok(token), Text(s[start..])]
    ensures Slice(s, 0, 0) == "" && Slice(s, 0, start) == s[..start] && Slice(s, start, |s|) == s[start..]
  {
    var after := s[start..];
    assert Slice(s, start, |s|) == after && after != "";
    assert Slice(s, 0, 0) == "";
    assert Pieces(s, 0, start, token) == [Tok(token), Text(after)];
    assert [Text(s)][..0] == [] && [Text(s)][1..] == [];
  }

  lemma LastPieces(t: seq<Item>, w: string, token: Token)
    requires t != [] && t[|t| - 1] == Text(w) && w != ""
    ensures Splice(t, |t| - 1, 1, Pieces(w, |w|, |w|, token)) == t + [Tok(token)]
    ensures Slice(w, 0, |w|) == w && Slice(w, |w|, |w|) == ""
  {
    assert Slice(w, 0, |w|) == w && Slice(w, |w|, |w|) == "";
    assert Pieces(w, |w|, |w|, token) == [Text(w), Tok(token)];
    assert t == t[..|t| - 1] + [Text(w)] && t[|t|..] == [];
  }

  lemma SplitOff(s: string, start: nat, key: string, p: Pattern)
    requires 0 < start < |s|
    ensures Scan(s, [Text(s)], Untaming(s, start, key, p), 0, 2, 0, 0, 0, false)
         == Scan(s, [Part(s[..start]), Text(s[start..])], Untaming(s, start, key, p), 0, 2, 0, 1, start, false)
  {
    hide Scan, Splice, Pieces, Slice;
    FirstPieces(s, start, Part(s[..start]).token);
    assert |s[start..]| < |s|;
    HitStep(s, [Text(s)], Untaming(s, start, key, p), 0, 0, s, 0, start);
  }

  // The last string of the array gets an empty token after it.
  lemma EmptyAtEnd(s: string, start: nat, key: string, p: Pattern, t: seq<Item>)
    requires CanStart(s, start) && t + [Part("")] == SplitUp(s, start)
    ensures Scan(s, t, Untaming(s, start, key, p), 0, 2, 0, |t| - 1, start, false) == Finished(SplitUp(s, start))
  {
    hide Splice, Pieces, Slice;
    var es, w, b := Untaming(s, start, key, p), s[start..], |t| - 1;
    var done := SplitUp(s, start);
    assert done[b] == t[b] && |done| == |t| + 1;
    assert t[b] == Text(w) by {
      assert s[0..] == s;
    }
    LastPieces(t, w, Part("").token);
    assert Slice(s, start, |s|) == w by {
      WholeSlice(s, start);
    }
    HitStep(s, t, es, b, start, w, |w|, |w|);
    assert Scan(s, done, es, 0, 2, 0, b + 2, start + |w|, false) == Finished(done);
  }

  lemma WholeSlice(s: string, start: nat)
    requires start <= |s|
    ensures Slice(s, start, |s|) == s[start..]
  {}

  lemma BadFind(s: string, start: nat, p: Pattern, t: seq<Item>, b: nat)
    requires p.greedy && CanStart(s, start) && Exec(p, s, start).Some? && IsBad(p, Exec(p, s, start).value)
    requires b < |t| - 1 && t[b].Text? && (start == 0 ==> b == 0)
    ensures Find(s, t, p, b, start).Bad?
  {
    hide Exec;
    var m := Exec(p, s, start).value;
    if !(p.lookbehind && m.group == None) {
      assert start == 0 && m.index + m.length == 0;
      assert Reach(t, 0, 0, 0, 0, MatchStart(p, m), 0) == Err(NoPrevious);
    }
  }

  lemma WalkThrows(s: string, start: nat, key: string, p: Pattern)
    requires p.greedy && CanStart(s, start) && Exec(p, s, start).Some? && IsBad(p, Exec(p, s, start).value)
    ensures Scan(s, SplitUp(s, start), Untaming(s, start, key, p), 1, 2, 0, 0, 0, false).Threw?
  {
    hide Find, Exec;
    var es, t := Untaming(s, start, key, p), SplitUp(s, start);
    assert es[1].patterns[0] == p;
    BadFind(s, start, p, t, |t| - 2);
    if start > 0 {
      assert t[0] == Part(s[..start]) && Len(t[0]) == start;
      assert Scan(s, t, es, 1, 2, 0, 0, 0, false) == Scan(s, t, es, 1, 2, 0, 1, start, false);
    }
  }

  lemma TwoEntries(a: Entry, b: Entry)
    ensures Merge([a, b], []) == [a, b] && Stop([a, b], None) == 2
  {
    assert [a, b][1..] == [b] && [b][1..] == [];
    assert Stop([b], None) == 1;
  }

  // A pattern that finds a bad match in some search throws when it is used on that
  // text after a pattern that splits the text there.
  lemma UntameThrows(s: string, start: nat, key: string, p: Pattern)
    requires p.greedy && CanStart(s, start) && Exec(p, s, start).Some? && IsBad(p, Exec(p, s, start).value)
    ensures Tokens(s, Grammar(Untaming(s, start, key, p), [])).result.Err?
  {
    hide Scan, Exec;
    var es, t := Untaming(s, start, key, p), SplitUp(s, start);
    TwoEntries(es[0], es[1]);
    if start == 0 {
      EmptyAtEnd(s, 0, key, p, [Text(s)]);
    } else {
      SplitOff(s, start, key, p);
      EmptyAtEnd(s, start, key, p, [Part(s[..start]), Text(s[start..])]);
    }
    WalkThrows(s, start, key, p);
    assert Patterns(s, t, es, 1, 2, 0, 0, 0, false).result.Err?;
    assert Keys(s, t, es, 1, 2, 0, 0, false).result.Err?;
    assert Patterns(s, t, es, 0, 2, 1, 0, 0, false).result.Err?;
    assert Patterns(s, [Text(s)], es, 0, 2, 0, 0, 0, false).result.Err?;
    assert Keys(s, [Text(s)], es, 0, 2, 0, 0, false).result.Err?;
    assert Matched(s, [Text(s)], es, 0, 0, false, None).result.Err?;
  }

  lemma OneTame(key: string, p: Pattern)
    requires Tame(p) && TameInside(p)
    ensures TameEntries([Entry(key, [p])]) && TameEntries([])
  {
    hide Tame, TameInside;
    assert [p][1..] == [] && [Entry(key, [p])][1..] == [];
    assert TamePatterns([p]);
  }

  lemma {:induction false} TameAppend(es: seq<Entry>, more: seq<Entry>)
    requires TameEntries(es) && TameEntries(more)
    ensures TameEntries(es + more)
  {
    hide TamePatterns;
    if es == [] {
      assert [] + more == more;
    } else {
      assert (es + more)[1..] == es[1..] + more;
      TameAppend(es[1..], more);
    }
  }

  // A pattern used after tame ones makes tokenizing throw for some of them and some
  // text if and only if it is not tame itself.
  lemma TameIff(p: Pattern)
    requires TameInside(p)
    ensures Tame(p)
       <==> forall es: seq<Entry>, key: string, s: string :: TameEntries(es) ==>
              Tokens(s, Grammar(es + [Entry(key, [p])], [])).result.Ok?
  {
    hide Tokens, TameEntries, TameInside, Exec, CanStart;
    if Tame(p) {
      forall es: seq<Entry>, key: string, s: string | TameEntries(es)
        ensures Tokens(s, Grammar(es + [Entry(key, [p])], [])).result.Ok?
      {
        OneTame(key, p);
        TameAppend(es, [Entry(key, [p])]);
        TokensSafe(s, Grammar(es + [Entry(key, [p])], []));
      }
    } else {
      var s, start :| CanStart(s, start) && Exec(p, s, start).Some? && IsBad(p, Exec(p, s, start).value);
      UntameThrows(s, start, "", p);
      SplitterTame(s, start);
      assert Untaming(s, start, "", p) == [Entry("part", [Splitter(s, start)])] + [Entry("", [p])];
    }
  }

  lemma SplitterTame(s: string, start: nat)
    ensures TameEntries([Entry("part", [Splitter(s, start)])])
  {
    OneTame("part", Splitter(s, start));
  }

  // For instance a greedy pattern that matches the empty string everywhere.
  function EmptyMatcher(): Pattern {
    Pattern((_: string, start: nat) => Some(Match(start, 0, None)), None, false, true, [])
  }

  lemma EmptyMatchThrows(s: string)
    requires |s| >= 2
    ensures Tokens(s, Grammar(Untaming(s, 0, "nothing", EmptyMatcher()), [])).result.Err?
  {
    UntameThrows(s, 0, "nothing", EmptyMatcher());
  }
}
