// fix-hosts.py: the rewriting of /etc/hosts so that the host name stands on one
// line only, and not on that of 127.0.0.1. Lines come without their newlines.
module HostsFixer {

  // ---- str.rstrip, str.split, str.find, str.join ----

  predicate IsSpace(c: char) {
    c == ' ' || c == '\t' || c == '\n' || c == '\r' || c == '\U{000B}' || c == '\U{000C}'
  }

  predicate NoSpace(s: string) {
    forall i :: 0 <= i < |s| ==> !IsSpace(s[i])
  }

  function Rstrip(s: string): string {
    if s != "" && IsSpace(s[|s| - 1]) then Rstrip(s[..|s| - 1]) else s
  }

  function WordEnd(s: string): (n: nat)
    ensures n <= |s| && NoSpace(s[..n])
    ensures s != "" && !IsSpace(s[0]) ==> n > 0
  {
    if s == "" || IsSpace(s[0]) then 0
    else
      var n := WordEnd(s[1..]);
      assert s[..n + 1] == [s[0]] + s[1..][..n];
      n + 1
  }

  function Split(s: string): seq<string>
    decreases |s|
  {
    if s == "" then []
    else if IsSpace(s[0]) then Split(s[1..])
    else [s[..WordEnd(s)]] + Split(s[WordEnd(s)..])
  }

  function Join(cols: seq<string>): string {
    if cols == [] then "" else if |cols| == 1 then cols[0] else cols[0] + " " + Join(cols[1..])
  }

  // line.find(host) >= 0
  predicate Contains(s: string, host: string) {
    host <= s || (s != "" && Contains(s[1..], host))
  }

  predicate IsWord(s: string) {
    s != "" && NoSpace(s)
  }

  predicate AllWords(cols: seq<string>) {
    forall i :: 0 <= i < |cols| ==> IsWord(cols[i])
  }

  lemma {:induction false} SplitWords(s: string)
    ensures AllWords(Split(s))
    decreases |s|
  {
    if s != "" {
      SplitWords(if IsSpace(s[0]) then s[1..] else s[WordEnd(s)..]);
    }
  }

  lemma {:induction false} WordEndAt(w: string, rest: string)
    requires NoSpace(w) && (rest == "" || IsSpace(rest[0]))
    ensures WordEnd(w + rest) == |w|
  {
    if w == "" {
      assert w + rest == rest;
    } else {
      assert (w + rest)[1..] == w[1..] + rest;
      WordEndAt(w[1..], rest);
    }
  }

  lemma {:induction false} SplitJoin(cols: seq<string>)
    requires AllWords(cols)
    ensures Split(Join(cols)) == cols
    decreases |cols|
  {
    hide WordEnd, NoSpace;
    if cols != [] {
      var w := cols[0];
      assert IsWord(w);
      if |cols| == 1 {
        SplitWord(w, "");
        assert w + "" == w;
      } else {
        var rest := " " + Join(cols[1..]);
        SplitWord(w, rest);
        assert cols[0] + " " + Join(cols[1..]) == w + rest;
        assert rest[1..] == Join(cols[1..]);
        SplitJoin(cols[1..]);
      }
    }
  }

  lemma SplitWord(w: string, rest: string)
    requires IsWord(w) && (rest == "" || IsSpace(rest[0]))
    ensures Split(w + rest) == [w] + Split(rest)
  {
    WordEndAt(w, rest);
    assert (w + rest)[..|w|] == w && (w + rest)[|w|..] == rest;
    assert !IsSpace(w[0]);
  }

  lemma {:induction false} JoinEnds(cols: seq<string>)
    requires AllWords(cols)
    ensures Rstrip(Join(cols)) == Join(cols)
  {
    if |cols| > 1 {
      JoinEnds(cols[1..]);
      JoinNotEmpty(cols[1..]);
      RstripEnd(Join(cols[1..]));
    } else if |cols| == 1 {
      assert IsWord(cols[0]);
    }
  }

  lemma JoinNotEmpty(cols: seq<string>)
    requires AllWords(cols) && cols != []
    ensures Join(cols) != ""
  {
    assert IsWord(cols[0]);
  }

  lemma RstripEnd(s: string)
    requires s != "" && Rstrip(s) == s
    ensures !IsSpace(s[|s| - 1])
  {
    if IsSpace(s[|s| - 1]) {
      RstripShorter(s[..|s| - 1]);
    }
  }

  lemma {:induction false} RstripShorter(s: string)
    ensures |Rstrip(s)| <= |s| && Rstrip(Rstrip(s)) == Rstrip(s)
  {
    if s != "" && IsSpace(s[|s| - 1]) {
      RstripShorter(s[..|s| - 1]);
    }
  }

  lemma {:induction false} ContainsLater(a: string, b: string, host: string)
    requires Contains(b, host)
    ensures Contains(a + b, host)
  {
    if a == "" {
      assert a + b == b;
    } else {
      assert (a + b)[1..] == a[1..] + b;
      ContainsLater(a[1..], b, host);
    }
  }

  // A column that is the host name makes the line contain it ...
  lemma {:induction false} ColumnContained(s: string, host: string)
    requires host in Split(s)
    ensures Contains(s, host)
    decreases |s|
  {
    hide WordEnd;
    if IsSpace(s[0]) {
      ColumnContained(s[1..], host);
    } else {
      var n := WordEnd(s);
      assert s == s[..n] + s[n..];
      if host != s[..n] {
        ColumnContained(s[n..], host);
        ContainsLater(s[..n], s[n..], host);
      }
    }
  }

  // ... and a line that contains it has a column.
  lemma {:induction false} ContainedColumn(s: string, host: string)
    requires IsWord(host) && Contains(s, host)
    ensures Split(s) != []
  {
    if host <= s {
      assert !IsSpace(host[0]) && s[0] == host[0];
    } else if IsSpace(s[0]) {
      ContainedColumn(s[1..], host);
    }
  }

  // ---- one line ----

  predicate IsComment(cols: seq<string>) {
    cols != [] && "#" <= cols[0]
  }

  // The host name is looked for in columns only where it occurs at all.
  predicate IsTouched(line: string, host: string) {
    Contains(line, host) && !IsComment(Split(line))
  }

  function Drop(cols: seq<string>, host: string): seq<string> {
    if cols == [] then [] else (if cols[0] == host then [] else [cols[0]]) + Drop(cols[1..], host)
  }

  function KeepFirst(cols: seq<string>, host: string): seq<string> {
    if cols == [] then []
    else if cols[0] == host then [host] + Drop(cols[1..], host)
    else [cols[0]] + KeepFirst(cols[1..], host)
  }

  const LOCALHOST := "127.0.0.1"

  predicate Keeps(cols: seq<string>, last: string) {
    last == "" && cols != [] && cols[0] != LOCALHOST
  }

  function NewColumns(cols: seq<string>, host: string, last: string): seq<string> {
    if Keeps(cols, last) then KeepFirst(cols, host) else Drop(cols, host)
  }

  // The lines that replace a line, given the line that keeps the host name so far.
  function NewLines(line: string, host: string, last: string): seq<string> {
    if !IsTouched(line, host) then [line]
    else
      var cols := NewColumns(Split(line), host, last);
      if |cols| == 1 then [] else [Join(cols)]
  }

  function NewLast(line: string, host: string, last: string): string {
    if IsTouched(line, host) && Keeps(Split(line), last) && host in Split(line) then line else last
  }

  // The file is worked through from its end.
  function Rewrite(lines: seq<string>, host: string): (seq<string>, string) {
    if lines == [] then ([], "")
    else
      var (rest, last) := Rewrite(lines[1..], host);
      var line := Rstrip(lines[0]);
      (NewLines(line, host, last) + rest, NewLast(line, host, last))
  }

  function Fixed(lines: seq<string>, host: string): seq<string> {
    Rewrite(lines, host).0
  }

  // ---- the script's loops ----

  function Reversed(s: seq<string>): (r: seq<string>)
    ensures |r| == |s| && forall i :: 0 <= i < |s| ==> r[i] == s[|s| - 1 - i]
  {
    if s == [] then [] else Reversed(s[1..]) + [s[0]]
  }

  method FixHosts(host: string, input: seq<string>) returns (output: seq<string>)
    requires IsWord(host)
    ensures output == Fixed(input, host)
  {
    hide NewLines, NewLast;
    var lines := Reversed(input);
    var newLines: seq<string> := [];
    var lastMatchLine := "";
    for i := 0 to |lines|
      invariant (Reversed(newLines), lastMatchLine) == Rewrite(input[|input| - i..], host)
    {
      assert input[|input| - i - 1..][1..] == input[|input| - i..];
      var line := Rstrip(lines[i]);
      var added;
      added, lastMatchLine := FixLine(host, line, lastMatchLine);
      ReversedAppend(newLines, added);
      newLines := newLines + added;
    }
    assert input[0..] == input;
    return Reversed(newLines);
  }

  lemma ReversedAppend(a: seq<string>, b: seq<string>)
    requires |b| <= 1
    ensures Reversed(a + b) == b + Reversed(a)
  {}

  method FixLine(host: string, line: string, last: string) returns (newLines: seq<string>, lastMatchLine: string)
    requires IsWord(host)
    ensures newLines == NewLines(line, host, last) && lastMatchLine == NewLast(line, host, last)
    ensures |newLines| <= 1
  {
    lastMatchLine := last;
    if !Contains(line, host) {
      return [line], lastMatchLine;
    }
    ContainedColumn(line, host);
    var cols := Split(line);
    if "#" <= cols[0] {
      return [line], lastMatchLine;
    }
    var newCols;
    newCols, lastMatchLine := FixColumns(host, line, cols, last);
    if |newCols| == 1 {
      return [], lastMatchLine;
    }
    return [Join(newCols)], lastMatchLine;
  }

  method FixColumns(host: string, line: string, cols: seq<string>, last: string)
    returns (newCols: seq<string>, lastMatchLine: string)
    requires cols != [] && line != ""
    ensures newCols == NewColumns(cols, host, last)
    ensures lastMatchLine == if Keeps(cols, last) && host in cols then line else last
  {
    hide NewColumnsFrom;
    newCols, lastMatchLine := [], last;
    assert cols[0..] == cols;
    FirstColumns(cols, host, last);
    for i := 0 to |cols|
      invariant newCols + NewColumnsFrom(cols[i..], host, cols[0], lastMatchLine) == NewColumns(cols, host, last)
      invariant lastMatchLine == if Keeps(cols, last) && host in cols[..i] then line else last
    {
      var col := cols[i];
      assert cols[..i + 1] == cols[..i] + [col];
      NextColumn(cols, i, host, lastMatchLine, line);
      if col != host {
        newCols := newCols + [col];
        continue;
      }
      if cols[0] == LOCALHOST {
        continue;
      }
      if lastMatchLine != "" {
        continue;
      }
      newCols := newCols + [col];
      lastMatchLine := line;
    }
    assert cols[..|cols|] == cols;
    NoColumns(cols, host, lastMatchLine);
  }

  lemma FirstColumns(cols: seq<string>, host: string, last: string)
    requires cols != []
    ensures [] + NewColumnsFrom(cols, host, cols[0], last) == NewColumns(cols, host, last)
  {}

  lemma NoColumns(cols: seq<string>, host: string, last: string)
    requires cols != []
    ensures NewColumnsFrom(cols[|cols|..], host, cols[0], last) == []
  {}

  lemma NextColumn(cols: seq<string>, i: nat, host: string, last: string, line: string)
    requires i < |cols| && line != ""
    ensures NewColumnsFrom(cols[i..], host, cols[0], last)
         == if cols[i] == host && (cols[0] == LOCALHOST || last != "") then
              NewColumnsFrom(cols[i + 1..], host, cols[0], last)
            else [cols[i]] + NewColumnsFrom(cols[i + 1..], host, cols[0], if cols[i] == host then line else last)
  {
    assert cols[i..][1..] == cols[i + 1..];
  }

  // What becomes of the columns still to come.
  function NewColumnsFrom(cols: seq<string>, host: string, first: string, last: string): seq<string> {
    if last == "" && first != LOCALHOST then KeepFirst(cols, host) else Drop(cols, host)
  }

  // ---- what the rewriting achieves ----

  function Count(cols: seq<string>, host: string): nat {
    if cols == [] then 0 else (if cols[0] == host then 1 else 0) + Count(cols[1..], host)
  }

  // Columns equal to the host name in lines that are not comments.
  function HostColumns(lines: seq<string>, host: string): nat {
    if lines == [] then 0
    else
      (if IsComment(Split(lines[0])) then 0 else Count(Split(lines[0]), host)) + HostColumns(lines[1..], host)
  }

  lemma {:induction false} CountZero(cols: seq<string>, host: string)
    ensures Count(cols, host) == 0 <==> host !in cols
  {
    if cols != [] {
      CountZero(cols[1..], host);
    }
  }

  lemma {:induction false} DropFacts(cols: seq<string>, host: string)
    ensures host !in Drop(cols, host)
    ensures AllWords(cols) ==> AllWords(Drop(cols, host))
    ensures host !in cols ==> Drop(cols, host) == cols && KeepFirst(cols, host) == cols
  {
    if cols != [] {
      DropFacts(cols[1..], host);
      assert AllWords(cols) ==> IsWord(cols[0]) && AllWords(cols[1..]);
    }
  }

  lemma {:induction false} KeepFacts(cols: seq<string>, host: string)
    ensures host in KeepFirst(cols, host) <==> host in cols
    ensures Count(KeepFirst(cols, host), host) <= 1
    ensures AllWords(cols) ==> AllWords(KeepFirst(cols, host))
    ensures KeepFirst(KeepFirst(cols, host), host) == KeepFirst(cols, host)
    ensures cols != [] ==> KeepFirst(cols, host) != [] && KeepFirst(cols, host)[0] == cols[0]
  {
    hide IsWord;
    if cols != [] {
      var rest := cols[1..];
      assert AllWords(cols) ==> IsWord(cols[0]) && AllWords(rest);
      if cols[0] == host {
        DropFacts(rest, host);
        CountZero(Drop(rest, host), host);
        assert ([host] + Drop(rest, host))[1..] == Drop(rest, host);
        DropFacts(Drop(rest, host), host);
      } else {
        KeepFacts(rest, host);
        assert ([cols[0]] + KeepFirst(rest, host))[1..] == KeepFirst(rest, host);
      }
    }
  }

  // The new columns of a line: at most one is the host name, and then the line is
  // the first from the end to keep it.
  lemma NewColumnsFacts(cols: seq<string>, host: string, last: string)
    ensures host in NewColumns(cols, host, last) <==> Keeps(cols, last) && host in cols
    ensures Count(NewColumns(cols, host, last), host) <= 1
    ensures AllWords(cols) ==> AllWords(NewColumns(cols, host, last))
    ensures host in NewColumns(cols, host, last) ==>
      NewColumns(cols, host, last)[0] == cols[0]
      && NewColumns(NewColumns(cols, host, last), host, "") == NewColumns(cols, host, last)
  {
    DropFacts(cols, host);
    KeepFacts(cols, host);
    CountZero(NewColumns(cols, host, last), host);
  }

  lemma ColumnsWithout(cols: seq<string>, host: string, last: string)
    requires host !in cols
    ensures NewColumns(cols, host, last) == cols
  {
    DropFacts(cols, host);
  }

  // What one line becomes is not changed by a second pass.
  lemma LineTwice(line: string, host: string, last: string, later: string)
    requires IsWord(host) && Rstrip(line) == line && (later != "" ==> last != "")
    ensures var once := NewLines(line, host, last);
            once != [] ==>
              && Rstrip(once[0]) == once[0]
              && NewLines(once[0], host, later) == once
              && (NewLast(once[0], host, later) != "" ==> NewLast(line, host, last) != "")
  {
    hide Contains, Split, Join, Rstrip, NewColumns, IsComment;
    if IsTouched(line, host) {
      var cols := Split(line);
      var changed := NewColumns(cols, host, last);
      SplitWords(line);
      NewColumnsFacts(cols, host, last);
      SplitJoin(changed);
      JoinEnds(changed);
      if host in changed {
        LineIsText(line, host);
      } else {
        ColumnsWithout(changed, host, later);
      }
    }
  }

  lemma LineIsText(line: string, host: string)
    requires IsWord(host) && Contains(line, host)
    ensures line != ""
  {}

  lemma {:induction false} RewriteTwice(lines: seq<string>, host: string)
    requires IsWord(host)
    ensures var (once, last) := Rewrite(lines, host);
            var (twice, later) := Rewrite(once, host);
            twice == once && (later != "" ==> last != "")
  {
    hide NewLines, NewLast, Rstrip;
    if lines != [] {
      RewriteTwice(lines[1..], host);
      var (rest, last) := Rewrite(lines[1..], host);
      var (_, later) := Rewrite(rest, host);
      var line := Rstrip(lines[0]);
      RstripShorter(lines[0]);
      LineTwice(line, host, last, later);
      AtMostOneLine(line, host, last);
      var changed := NewLines(line, host, last);
      if changed == [] {
        assert [] + rest == rest;
        MoreLast(line, host, last);
      } else {
        assert changed == [changed[0]];
        assert (changed + rest)[1..] == rest;
      }
    }
  }

  lemma AtMostOneLine(line: string, host: string, last: string)
    ensures |NewLines(line, host, last)| <= 1
  {
    hide IsTouched, NewColumns, Join;
  }

  lemma MoreLast(line: string, host: string, last: string)
    ensures last != "" ==> NewLast(line, host, last) != ""
  {
    hide IsTouched, Split;
  }

  // Running the script twice is the same as running it once.
  lemma Idempotent(lines: seq<string>, host: string)
    requires IsWord(host)
    ensures Fixed(Fixed(lines, host), host) == Fixed(lines, host)
  {
    RewriteTwice(lines, host);
  }

  // A line that can keep the name: it is not a comment, not that of 127.0.0.1, and
  // one of its columns is the name.
  predicate CanKeep(line: string, host: string) {
    IsTouched(line, host) && host in Split(line) && Split(line)[0] != LOCALHOST
  }

  // The last such line of the file, "" if there is none.
  function LastCandidate(lines: seq<string>, host: string): string {
    if lines == [] then ""
    else
      var later := LastCandidate(lines[1..], host);
      if later == "" && CanKeep(Rstrip(lines[0]), host) then Rstrip(lines[0]) else later
  }

  predicate OnlyNames(cols: seq<string>, host: string) {
    forall i :: 0 <= i < |cols| ==> cols[i] == host
  }

  lemma {:induction false} DropNames(cols: seq<string>, host: string)
    ensures Drop(cols, host) == [] <==> OnlyNames(cols, host)
  {
    if cols != [] {
      DropNames(cols[1..], host);
      assert cols == [cols[0]] + cols[1..];
    }
  }

  // The name stands alone in what is kept only if the line has no other column.
  lemma {:induction false} KeepFirstAlone(cols: seq<string>, host: string)
    requires host in cols
    ensures |KeepFirst(cols, host)| == 1 <==> OnlyNames(cols, host)
    ensures Count(KeepFirst(cols, host), host) == 1
  {
    var rest := cols[1..];
    assert cols == [cols[0]] + rest;
    if cols[0] == host {
      DropNames(rest, host);
      DropFacts(rest, host);
      CountZero(Drop(rest, host), host);
      assert ([host] + Drop(rest, host))[1..] == Drop(rest, host);
    } else {
      KeepFirstAlone(rest, host);
      assert ([cols[0]] + KeepFirst(rest, host))[1..] == KeepFirst(rest, host);
    }
  }

  lemma LineCount(line: string, host: string, last: string)
    requires IsWord(host)
    ensures HostColumns(NewLines(line, host, last), host)
         == if last == "" && CanKeep(line, host) && !OnlyNames(Split(line), host) then 1 else 0
    ensures NewLast(line, host, last) == if last == "" && CanKeep(line, host) then line else last
  {
    hide Contains, Split, Join, IsComment, Rstrip, KeepFirst, Drop, OnlyNames;
    var cols := Split(line);
    if IsTouched(line, host) {
      SplitWords(line);
      NewColumnsFacts(cols, host, last);
      var changed := NewColumns(cols, host, last);
      SplitJoin(changed);
      CountZero(changed, host);
      OneLineColumns(Join(changed), host);
      if host in cols {
        KeepFirstAlone(cols, host);
        SameFirst(changed, cols);
      }
    } else {
      CountZero(cols, host);
      if host in cols {
        ColumnContained(line, host);
      }
      OneLineColumns(line, host);
    }
  }

  lemma SameFirst(a: seq<string>, b: seq<string>)
    ensures a != [] && b != [] && a[0] == b[0] ==> IsComment(a) == IsComment(b)
  {}

  lemma OneLineColumns(line: string, host: string)
    ensures HostColumns([line], host) == if IsComment(Split(line)) then 0 else Count(Split(line), host)
    ensures HostColumns([], host) == 0
  {
    assert [line][1..] == [];
  }

  lemma {:induction false} HostColumnsAppend(a: seq<string>, b: seq<string>, host: string)
    ensures HostColumns(a + b, host) == HostColumns(a, host) + HostColumns(b, host)
  {
    if a == [] {
      assert a + b == b;
    } else {
      assert (a + b)[1..] == a[1..] + b;
      HostColumnsAppend(a[1..], b, host);
    }
  }

  lemma {:induction false} RewriteCount(lines: seq<string>, host: string)
    requires IsWord(host)
    ensures var (once, last) := Rewrite(lines, host);
            && last == LastCandidate(lines, host)
            && HostColumns(once, host) == if last == "" || OnlyNames(Split(last), host) then 0 else 1
  {
    hide NewLines, NewLast, Rstrip, HostColumns, CanKeep, OnlyNames, Split;
    if lines == [] {
      OneLineColumns("", host);
    } else {
      RewriteCount(lines[1..], host);
      var (rest, last) := Rewrite(lines[1..], host);
      var line := Rstrip(lines[0]);
      LineCount(line, host, last);
      HostColumnsAppend(NewLines(line, host, last), rest, host);
      CanKeepIsText(line, host);
    }
  }

  lemma CanKeepIsText(line: string, host: string)
    requires IsWord(host)
    ensures CanKeep(line, host) ==> line != ""
  {
    hide Split;
  }

  // Afterwards the host name is a column outside the comments at most once, and it is
  // there if and only if the last line that can keep it has another column: a line
  // with the name alone is dropped, and still takes the name from all lines before it.
  lemma AtMostOneColumn(lines: seq<string>, host: string)
    requires IsWord(host)
    ensures HostColumns(Fixed(lines, host), host) <= 1
    ensures HostColumns(Fixed(lines, host), host) == 1
       <==> LastCandidate(lines, host) != "" && !OnlyNames(Split(LastCandidate(lines, host)), host)
  {
    RewriteCount(lines, host);
  }

  // The lines the script leaves alone, in order.
  function Untouched(lines: seq<string>, host: string): seq<string> {
    if lines == [] then []
    else (if IsTouched(Rstrip(lines[0]), host) then [] else [Rstrip(lines[0])]) + Untouched(lines[1..], host)
  }

  // a is b with some entries left out.
  predicate Within(a: seq<string>, b: seq<string>) {
    a == [] || (b != [] && ((a[0] == b[0] && Within(a[1..], b[1..])) || Within(a, b[1..])))
  }

  // Comments and lines that do not mention the host survive, in order.
  lemma {:induction false} UntouchedSurvive(lines: seq<string>, host: string)
    ensures Within(Untouched(lines, host), Fixed(lines, host))
  {
    hide IsTouched, Rstrip, NewLast, NewColumns, Join;
    if lines != [] {
      UntouchedSurvive(lines[1..], host);
      var (rest, last) := Rewrite(lines[1..], host);
      var line := Rstrip(lines[0]);
      var changed := NewLines(line, host, last);
      AtMostOneLine(line, host, last);
      if changed == [] {
        assert changed + rest == rest;
        assert [] + Untouched(lines[1..], host) == Untouched(lines[1..], host);
      } else {
        assert (changed + rest)[1..] == rest;
        assert [] + Untouched(lines[1..], host) == Untouched(lines[1..], host);
        assert ([line] + Untouched(lines[1..], host))[1..] == Untouched(lines[1..], host);
      }
    }
  }

  // ---- what becomes of every line ----

  // line.find(host) >= 0 exactly when the host name stands somewhere in the line.
  lemma ContainsIff(s: string, host: string)
    ensures Contains(s, host) <==> exists i :: 0 <= i <= |s| && host <= s[i..]
  {
    if Contains(s, host) {
      var i := WhereContained(s, host);
    }
    if exists i :: 0 <= i <= |s| && host <= s[i..] {
      var i :| 0 <= i <= |s| && host <= s[i..];
      assert s == s[..i] + s[i..];
      ContainsLater(s[..i], s[i..], host);
    }
  }

  lemma {:induction false} WhereContained(s: string, host: string) returns (i: nat)
    requires Contains(s, host)
    ensures i <= |s| && host <= s[i..]
  {
    if host <= s {
      i := 0;
      assert s[0..] == s;
    } else {
      var k := WhereContained(s[1..], host);
      i := k + 1;
      assert s[1..][k..] == s[i..];
    }
  }

  // The columns other than the host name.
  function Others(cols: seq<string>, host: string): seq<string> {
    if cols == [] then []
    else if cols[0] != host then [cols[0]] + Others(cols[1..], host)
    else Others(cols[1..], host)
  }

  // The columns with the host name where it stood first, and nowhere else.
  predicate KeptWhereFirst(cols: seq<string>, out: seq<string>, host: string) {
    exists i ::
      && 0 <= i < |cols| && cols[i] == host && host !in cols[..i]
      && out == cols[..i] + [host] + Others(cols[i + 1..], host)
  }

  // A line that can keep the name: not a comment, not that of 127.0.0.1, with the name
  // as a column.
  predicate MayKeep(line: string, host: string) {
    var cols := Split(line);
    host in cols && !("#" <= cols[0]) && cols[0] != "127.0.0.1"
  }

  // What a non-comment line that contains the host name becomes. It keeps the name if
  // `kept`. One column that remains is no entry; all others are, with single spaces.
  predicate IsOutcome(line: string, host: string, kept: bool, out: seq<string>) {
    var cols, others := Split(line), Others(Split(line), host);
    if |others| + (if kept then 1 else 0) == 1 then out == []
    else
      && |out| == 1 && out[0] == Join(Split(out[0]))
      && if kept then KeptWhereFirst(cols, Split(out[0]), host) else Split(out[0]) == others
  }

  // The whole file, line by line: a comment or a line without the name stays as it is, but
  // for spaces at its end; of the lines with the name only the last that may keep it does.
  predicate IsRewritten(lines: seq<string>, host: string, out: seq<string>)
    decreases |lines|
  {
    if lines == [] then out == []
    else
      var line := Rstrip(lines[0]);
      var kept := MayKeep(line, host) && forall j :: 1 <= j < |lines| ==> !MayKeep(Rstrip(lines[j]), host);
      exists n ::
        && 0 <= n <= 1 && n <= |out| && IsRewritten(lines[1..], host, out[n..])
        && if Contains(line, host) && Split(line) != [] && !("#" <= Split(line)[0])
           then IsOutcome(line, host, kept, out[..n])
           else out[..n] == [line]
  }

  lemma {:induction false} DropIsOthers(cols: seq<string>, host: string)
    ensures Drop(cols, host) == Others(cols, host)
  {
    if cols != [] {
      DropIsOthers(cols[1..], host);
    }
  }

  lemma {:induction false} KeepFirstIs(cols: seq<string>, host: string)
    requires host in cols
    ensures KeptWhereFirst(cols, KeepFirst(cols, host), host)
    ensures |KeepFirst(cols, host)| == |Others(cols, host)| + 1
  {
    hide Others, KeepFirst;
    var rest := cols[1..];
    KeepStep(cols, host);
    if cols[0] == host {
      DropIsOthers(rest, host);
      assert cols[..0] + [host] + Others(cols[0 + 1..], host) == KeepFirst(cols, host);
    } else {
      assert cols == [cols[0]] + rest;
      KeepFirstIs(rest, host);
      var i :| 0 <= i < |rest| && rest[i] == host && host !in rest[..i]
               && KeepFirst(rest, host) == rest[..i] + [host] + Others(rest[i + 1..], host);
      KeptLater(cols, i, host);
    }
  }

  lemma KeepStep(cols: seq<string>, host: string)
    requires cols != []
    ensures KeepFirst(cols, host)
         == if cols[0] == host then [host] + Drop(cols[1..], host) else [cols[0]] + KeepFirst(cols[1..], host)
    ensures Others(cols, host)
         == if cols[0] == host then Others(cols[1..], host) else [cols[0]] + Others(cols[1..], host)
  {}

  lemma KeptLater(cols: seq<string>, i: nat, host: string)
    requires i + 1 < |cols| && cols[i + 1] == host && host !in cols[1..][..i] && cols[0] != host
    ensures KeptWhereFirst(cols, [cols[0]] + (cols[1..][..i] + [host] + Others(cols[1..][i + 1..], host)), host)
  {
    hide Others;
    assert cols[..i + 1] == [cols[0]] + cols[1..][..i] && cols[i + 1 + 1..] == cols[1..][i + 1..];
    assert cols[..i + 1] + [host] + Others(cols[i + 1 + 1..], host)
        == [cols[0]] + (cols[1..][..i] + [host] + Others(cols[1..][i + 1..], host));
  }

  lemma LineOutcome(line: string, host: string, last: string)
    requires IsWord(host) && IsTouched(line, host)
    ensures IsOutcome(line, host, last == "" && MayKeep(line, host), NewLines(line, host, last))
  {
    hide Contains, Split, Join, Rstrip, KeepFirst, Drop, Others, KeptWhereFirst, IsComment;
    var cols := Split(line);
    ContainedColumn(line, host);
    SplitWords(line);
    NewColumnsFacts(cols, host, last);
    SplitJoin(NewColumns(cols, host, last));
    DropIsOthers(cols, host);
    KeepOrDrop(cols, host);
    TouchedIs(line, host);
  }

  lemma KeepOrDrop(cols: seq<string>, host: string)
    ensures host in cols ==>
      KeptWhereFirst(cols, KeepFirst(cols, host), host) && |KeepFirst(cols, host)| == |Others(cols, host)| + 1
    ensures host !in cols ==> KeepFirst(cols, host) == Others(cols, host)
  {
    hide KeptWhereFirst;
    if host in cols {
      KeepFirstIs(cols, host);
    } else {
      DropFacts(cols, host);
      DropIsOthers(cols, host);
    }
  }

  lemma TouchedIs(line: string, host: string)
    ensures IsTouched(line, host)
       <==> Contains(line, host) && (Split(line) == [] || !("#" <= Split(line)[0]))
    ensures CanKeep(line, host) <==> MayKeep(line, host)
  {
    hide Contains, Split;
    if host in Split(line) {
      ColumnContained(line, host);
    }
  }

  lemma {:induction false} LastCandidateIff(lines: seq<string>, host: string)
    requires IsWord(host)
    ensures LastCandidate(lines, host) != "" <==> exists j :: 0 <= j < |lines| && MayKeep(Rstrip(lines[j]), host)
  {
    hide MayKeep, CanKeep, Rstrip;
    if lines != [] {
      LastCandidateIff(lines[1..], host);
      TouchedIs(Rstrip(lines[0]), host);
      CanKeepIsText(Rstrip(lines[0]), host);
      assert forall j :: 1 <= j < |lines| ==> lines[j] == lines[1..][j - 1];
    }
  }

  // Nothing else happens to the file.
  lemma {:induction false} LinesRewritten(lines: seq<string>, host: string)
    requires IsWord(host)
    ensures IsRewritten(lines, host, Fixed(lines, host))
  {
    hide NewLines, NewLast, Rstrip, MayKeep, IsOutcome, Split, Contains, IsTouched;
    if lines != [] {
      LinesRewritten(lines[1..], host);
      var (rest, last) := Rewrite(lines[1..], host);
      var line := Rstrip(lines[0]);
      RewriteCount(lines[1..], host);
      LastCandidateIff(lines[1..], host);
      OneOfLines(lines, host);
      AtMostOneLine(line, host, last);
      TouchedIs(line, host);
      TextHasColumns(line, host);
      var changed := NewLines(line, host, last);
      if IsTouched(line, host) {
        LineOutcome(line, host, last);
      } else {
        LeftAlone(line, host, last);
      }
      var n := |changed|;
      var out := Fixed(lines, host);
      assert out[..n] == changed && out[n..] == rest;
      assert IsRewritten(lines[1..], host, out[n..]);
    }
  }

  lemma OneOfLines(lines: seq<string>, host: string)
    requires lines != []
    ensures (exists j :: 0 <= j < |lines[1..]| && MayKeep(Rstrip(lines[1..][j]), host))
       <==> (exists j :: 1 <= j < |lines| && MayKeep(Rstrip(lines[j]), host))
  {
    hide MayKeep, Rstrip;
    assert forall j :: 1 <= j < |lines| ==> lines[j] == lines[1..][j - 1];
  }

  lemma TextHasColumns(line: string, host: string)
    requires IsWord(host)
    ensures Contains(line, host) ==> Split(line) != []
  {
    hide Contains, Split;
    if Contains(line, host) {
      ContainedColumn(line, host);
    }
  }

  lemma LeftAlone(line: string, host: string, last: string)
    requires !IsTouched(line, host)
    ensures NewLines(line, host, last) == [line]
  {}

  // ---- columns and trailing spaces, from the text's side ----

  predicate IsBlank(s: string) {
    forall i :: 0 <= i < |s| ==> IsSpace(s[i])
  }

  // Words with spaces around and between them.
  function Weave(blanks: seq<string>, words: seq<string>): string
    requires |blanks| == |words| + 1
  {
    if words == [] then blanks[0] else blanks[0] + words[0] + Weave(blanks[1..], words[1..])
  }

  lemma {:induction false} SplitBlank(b: string, rest: string)
    requires IsBlank(b)
    ensures Split(b + rest) == Split(rest)
  {
    if b == "" {
      assert b + rest == rest;
    } else {
      assert (b + rest)[1..] == b[1..] + rest;
      SplitBlank(b[1..], rest);
    }
  }

  // However words are spaced, split() finds exactly them.
  lemma {:induction false} SplitWoven(blanks: seq<string>, words: seq<string>)
    requires |blanks| == |words| + 1 && AllWords(words) && forall i :: 0 <= i < |blanks| ==> IsBlank(blanks[i])
    requires forall i :: 1 <= i < |words| ==> blanks[i] != ""
    ensures Split(Weave(blanks, words)) == words
  {
    hide Split, IsWord, WordEnd;
    if words == [] {
      SplitBlank(blanks[0], "");
      assert blanks[0] + "" == blanks[0];
      SplitNothing();
    } else {
      var rest := Weave(blanks[1..], words[1..]);
      assert Weave(blanks, words) == blanks[0] + (words[0] + rest);
      SplitBlank(blanks[0], words[0] + rest);
      assert IsWord(words[0]) && rest == blanks[1] + rest[|blanks[1]|..];
      SplitWord(words[0], rest);
      SplitWoven(blanks[1..], words[1..]);
      assert words == [words[0]] + words[1..];
    }
  }

  lemma SplitNothing()
    ensures Split("") == []
  {}

  // rstrip() takes the spaces at the end, and all of them.
  lemma {:induction false} RstripIs(s: string)
    ensures Rstrip(s) <= s && IsBlank(s[|Rstrip(s)|..])
    ensures Rstrip(s) != "" ==> !IsSpace(Rstrip(s)[|Rstrip(s)| - 1])
  {
    if s != "" && IsSpace(s[|s| - 1]) {
      var t := s[..|s| - 1];
      RstripIs(t);
      assert s == t + [s[|s| - 1]];
    }
  }
}
