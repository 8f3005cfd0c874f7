// Prism's token trees: the text they stand for, util.encode, Token.stringify,
// and what a browser shows of the resulting markup.
module PrismTokens {
  datatype Item = Text(str: string) | Tok(token: Token)
  // `length` is the length of the matched string; Token's constructor sets it.
  datatype Token = Token(kind: string, content: Content, alias: seq<string>, length: nat, greedy: bool)
  datatype Content = Leaf(str: string) | Nested(items: seq<Item>)

  function ItemText(i: Item): string {
    match i
    case Text(s) => s
    case Tok(t) => ContentText(t.content)
  }

  function ContentText(c: Content): string {
    match c
    case Leaf(s) => s
    case Nested(items) => TextOf(items)
  }

  function TextOf(items: seq<Item>): string {
    if items == [] then "" else ItemText(items[0]) + TextOf(items[1..])
  }

  function Len(i: Item): nat {
    match i
    case Text(s) => |s|
    case Tok(t) => t.length
  }

  lemma {:induction false} TextOfAppend(a: seq<Item>, b: seq<Item>)
    ensures TextOf(a + b) == TextOf(a) + TextOf(b)
  {
    hide ItemText;
    if a == [] {
      assert a + b == b;
    } else {
      assert (a + b)[1..] == a[1..] + b;
      TextOfAppend(a[1..], b);
    }
  }

  // ---- util.encode ----

  function Replace(s: string, c: char, sub: string): string {
    if s == "" then "" else (if s[0] == c then sub else [s[0]]) + Replace(s[1..], c, sub)
  }

  const NBSP: char := '\U{00A0}'

  function EncodeString(s: string): string {
    Replace(Replace(Replace(s, '&', "&amp;"), '<', "&lt;"), NBSP, " ")
  }

  function EncodeItem(i: Item): Item {
    match i
    case Text(s) => Text(EncodeString(s))
    case Tok(t) => Tok(Token(t.kind, EncodeContent(t.content), t.alias, 0, false))
  }

  function EncodeContent(c: Content): Content {
    match c
    case Leaf(s) => Leaf(EncodeString(s))
    case Nested(items) => Nested(Encode(items))
  }

  function Encode(items: seq<Item>): seq<Item> {
    if items == [] then [] else [EncodeItem(items[0])] + Encode(items[1..])
  }

  // ---- Token.stringify, with no "wrap" hook installed ----

  function Join(parts: seq<string>): string {
    if parts == [] then ""
    else if |parts| == 1 then parts[0]
    else parts[0] + " " + Join(parts[1..])
  }

  function OpenTag(t: Token): string {
    "<span class=\"" + Join(["token", t.kind] + t.alias) + "\">"
  }

  function StringifyItem(i: Item): string {
    match i
    case Text(s) => s
    case Tok(t) => OpenTag(t) + StringifyContent(t.content) + "</span>"
  }

  function StringifyContent(c: Content): string {
    match c
    case Leaf(s) => s
    case Nested(items) => Stringify(items)
  }

  function Stringify(items: seq<Item>): string {
    if items == [] then "" else StringifyItem(items[0]) + Stringify(items[1..])
  }

  // ---- what a browser shows: tags dropped, character references resolved ----

  // The rest after the end of a tag; a '>' inside a quoted attribute value does not end it.
  function SkipTag(html: string, quoted: bool): (rest: string)
    ensures |rest| <= |html|
  {
    if html == "" then ""
    else if html[0] == '"' then SkipTag(html[1..], !quoted)
    else if html[0] == '>' && !quoted then html[1..]
    else SkipTag(html[1..], quoted)
  }

  function Visible(html: string): string
    decreases |html|
  {
    if html == "" then ""
    else if html[0] == '<' then Visible(SkipTag(html[1..], false))
    else if "&amp;" <= html then "&" + Visible(html[5..])
    else if "&lt;" <= html then "<" + Visible(html[4..])
    else [html[0]] + Visible(html[1..])
  }

  // Non-breaking spaces come out as plain ones.
  function Shown(s: string): string {
    Replace(s, NBSP, " ")
  }

  predicate NoQuote(s: string) {
    '"' !in s
  }

  // No type or alias closes the attribute it is written into.
  predicate CleanItem(i: Item) {
    match i
    case Text(_) => true
    case Tok(t) => NoQuote(t.kind) && (forall a :: a in t.alias ==> NoQuote(a)) && CleanContent(t.content)
  }

  predicate CleanContent(c: Content) {
    match c
    case Leaf(_) => true
    case Nested(items) => Clean(items)
  }

  predicate Clean(items: seq<Item>) {
    items == [] || (CleanItem(items[0]) && Clean(items[1..]))
  }

  lemma {:induction false} ReplaceAppend(a: string, b: string, c: char, sub: string)
    ensures Replace(a + b, c, sub) == Replace(a, c, sub) + Replace(b, c, sub)
  {
    if a == "" {
      assert a + b == b;
    } else {
      assert (a + b)[1..] == a[1..] + b;
      ReplaceAppend(a[1..], b, c, sub);
    }
  }

  lemma ReplaceOne(x: char, c: char, sub: string)
    ensures Replace([x], c, sub) == if x == c then sub else [x]
  {
    assert [x][1..] == "" && sub + "" == sub;
  }

  lemma EncodeChar(c: char)
    ensures EncodeString([c]) == if c == '&' then "&amp;" else if c == '<' then "&lt;"
      else if c == NBSP then " " else [c]
  {
    hide Replace;
    ReplaceOne(c, '&', "&amp;");
    if c == '&' {
      NoneToReplace("&amp;", '<', "&lt;");
      NoneToReplace("&amp;", NBSP, " ");
    } else {
      ReplaceOne(c, '<', "&lt;");
      NoneToReplace("&lt;", NBSP, " ");
      ReplaceOne(c, NBSP, " ");
    }
  }

  lemma {:induction false} NoneToReplace(s: string, c: char, sub: string)
    requires c !in s
    ensures Replace(s, c, sub) == s
  {
    if s != "" {
      NoneToReplace(s[1..], c, sub);
    }
  }

  lemma EncodeFirst(s: string)
    requires s != ""
    ensures EncodeString(s) == EncodeString([s[0]]) + EncodeString(s[1..])
  {
    assert s == [s[0]] + s[1..];
    ReplaceAppend([s[0]], s[1..], '&', "&amp;");
    var a, b := Replace([s[0]], '&', "&amp;"), Replace(s[1..], '&', "&amp;");
    ReplaceAppend(a, b, '<', "&lt;");
    ReplaceAppend(Replace(a, '<', "&lt;"), Replace(b, '<', "&lt;"), NBSP, " ");
  }

  lemma VisibleChar(c: char, rest: string)
    ensures Visible(EncodeString([c]) + rest) == (if c == NBSP then " " else [c]) + Visible(rest)
  {
    hide EncodeString;
    EncodeChar(c);
    var html := EncodeString([c]) + rest;
    if c == '&' {
      assert html[..5] == "&amp;" && html[5..] == rest;
    } else if c == '<' {
      assert html[..4] == "&lt;" && html[4..] == rest && html[1] == 'l';
    } else {
      assert html[0] != '<' && html[0] != '&' && html[1..] == rest;
    }
  }

  lemma {:induction false} VisibleEncoded(s: string, rest: string)
    ensures Visible(EncodeString(s) + rest) == Shown(s) + Visible(rest)
  {
    hide EncodeString, Visible;
    if s == "" {
      EncodeNothing();
      assert "" + rest == rest && "" + Visible(rest) == Visible(rest);
    } else {
      EncodeFirst(s);
      var more := EncodeString(s[1..]) + rest;
      assert EncodeString(s) + rest == EncodeString([s[0]]) + more;
      VisibleChar(s[0], more);
      VisibleEncoded(s[1..], rest);
    }
  }

  lemma EncodeNothing()
    ensures EncodeString("") == ""
  {}

  lemma {:induction false} SkipPlain(a: string, rest: string, quoted: bool)
    requires NoQuote(a) && (quoted || '>' !in a)
    ensures SkipTag(a + rest, quoted) == SkipTag(rest, quoted)
  {
    if a == "" {
      assert a + rest == rest;
    } else {
      assert (a + rest)[1..] == a[1..] + rest;
      SkipPlain(a[1..], rest, quoted);
    }
  }

  lemma SkipQuote(rest: string, quoted: bool)
    ensures SkipTag(['"'] + rest, quoted) == SkipTag(rest, !quoted)
  {
    assert (['"'] + rest)[1..] == rest;
  }

  lemma SkipEnd(rest: string)
    ensures SkipTag(">" + rest, false) == rest
  {
    assert (">" + rest)[1..] == rest;
  }

  lemma VisibleTagAt(rest: string)
    ensures Visible("<" + rest) == Visible(SkipTag(rest, false))
  {
    assert ("<" + rest)[1..] == rest;
  }

  // The browser skips an opening tag whatever names are quoted in it.
  lemma VisibleOpenTag(names: string, rest: string)
    requires NoQuote(names)
    ensures Visible("<span class=\"" + names + "\">" + rest) == Visible(rest)
  {
    hide Visible, SkipTag;
    var end := ">" + rest;
    var value := names + (['"'] + end);
    var tag := "span class=" + (['"'] + value);
    assert "<span class=\"" + names + "\">" + rest == "<" + tag;
    VisibleTagAt(tag);
    SkipPlain("span class=", ['"'] + value, false);
    SkipQuote(value, false);
    SkipPlain(names, ['"'] + end, true);
    SkipQuote(end, true);
    SkipEnd(rest);
  }

  lemma VisibleCloseTag(rest: string)
    ensures Visible("</span>" + rest) == Visible(rest)
  {
    hide Visible, SkipTag;
    assert "</span>" + rest == "<" + ("/span" + (">" + rest));
    VisibleTagAt("/span" + (">" + rest));
    SkipPlain("/span", ">" + rest, false);
    SkipEnd(rest);
  }

  lemma {:induction false} JoinNoQuote(parts: seq<string>)
    requires forall p :: p in parts ==> NoQuote(p)
    ensures NoQuote(Join(parts))
  {
    if parts != [] {
      assert parts[0] in parts;
      JoinNoQuote(parts[1..]);
    }
  }

  lemma VisibleToken(t: Token, inner: string, shown: string, rest: string)
    requires NoQuote(t.kind) && (forall a :: a in t.alias ==> NoQuote(a))
    requires Visible(inner + ("</span>" + rest)) == shown + Visible("</span>" + rest)
    ensures Visible(OpenTag(t) + inner + "</span>" + rest) == shown + Visible(rest)
  {
    hide Visible, Join;
    var parts := ["token", t.kind] + t.alias;
    JoinNoQuote(parts);
    VisibleOpenTag(Join(parts), inner + ("</span>" + rest));
    assert OpenTag(t) + inner + "</span>" + rest
        == "<span class=\"" + Join(parts) + "\">" + (inner + ("</span>" + rest));
    VisibleCloseTag(rest);
  }

  lemma {:induction false} VisibleItem(i: Item, rest: string)
    requires CleanItem(i)
    ensures Visible(StringifyItem(EncodeItem(i)) + rest) == Shown(ItemText(i)) + Visible(rest)
    decreases i, 1
  {
    hide Visible, EncodeString, Shown, OpenTag;
    match i
    case Text(s) => VisibleEncoded(s, rest);
    case Tok(t) =>
      VisibleContent(t.content, "</span>" + rest);
      var coded := EncodeItem(i).token;
      VisibleToken(coded, StringifyContent(coded.content), Shown(ItemText(i)), rest);
  }

  lemma {:induction false} VisibleContent(c: Content, rest: string)
    requires CleanContent(c)
    ensures Visible(StringifyContent(EncodeContent(c)) + rest) == Shown(ContentText(c)) + Visible(rest)
    decreases c, 1
  {
    hide Visible, EncodeString, Shown;
    match c
    case Leaf(s) => VisibleEncoded(s, rest);
    case Nested(items) => VisibleItems(items, rest);
  }

  lemma {:induction false} VisibleItems(items: seq<Item>, rest: string)
    requires Clean(items)
    ensures Visible(Stringify(Encode(items)) + rest) == Shown(TextOf(items)) + Visible(rest)
    decreases items, 0
  {
    hide Visible, EncodeString, StringifyItem, EncodeItem, ItemText, CleanItem, Replace;
    if items == [] {
      NothingShown();
      assert "" + rest == rest && "" + Visible(rest) == Visible(rest);
    } else {
      var first, tail := StringifyItem(EncodeItem(items[0])), Stringify(Encode(items[1..]));
      assert Encode(items)[1..] == Encode(items[1..]);
      VisibleItem(items[0], tail + rest);
      VisibleItems(items[1..], rest);
      Regroup(first, tail, rest);
      ReplaceAppend(ItemText(items[0]), TextOf(items[1..]), NBSP, " ");
      Regroup(Shown(ItemText(items[0])), Shown(TextOf(items[1..])), Visible(rest));
    }
  }

  lemma Regroup(a: string, b: string, c: string)
    ensures (a + b) + c == a + (b + c)
  {}

  lemma NothingShown()
    ensures Shown("") == ""
  {}

  // The markup of encoded tokens shows exactly the text the tokens stand for.
  lemma MarkupShowsText(items: seq<Item>)
    requires Clean(items)
    ensures Visible(Stringify(Encode(items))) == Shown(TextOf(items))
  {
    hide Visible;
    VisibleItems(items, "");
    assert Stringify(Encode(items)) + "" == Stringify(Encode(items));
    assert Visible("") == "" by {
      VisibleNothing();
    }
  }

  lemma VisibleNothing()
    ensures Visible("") == ""
  {}

  // ---- the class attribute ----

  // The words of an attribute value between single spaces.
  function Words(s: string): (r: seq<string>)
    ensures r != []
  {
    if s == "" then [""]
    else
      var tail := Words(s[1..]);
      if s[0] == ' ' then [""] + tail else [[s[0]] + tail[0]] + tail[1..]
  }

  lemma {:induction false} WordsAfter(a: string, rest: string)
    requires ' ' !in a
    ensures Words(a) == [a] && Words(a + " " + rest) == [a] + Words(rest)
  {
    if a == "" {
      assert a + " " + rest == " " + rest && (" " + rest)[1..] == rest;
    } else {
      WordsAfter(a[1..], rest);
      assert (a + " " + rest)[1..] == a[1..] + " " + rest;
      assert a == [a[0]] + a[1..];
    }
  }

  lemma {:induction false} WordsJoin(parts: seq<string>)
    requires parts != [] && forall p :: p in parts ==> ' ' !in p
    ensures Words(Join(parts)) == parts
  {
    assert parts[0] in parts && parts == [parts[0]] + parts[1..];
    if |parts| == 1 {
      WordsAfter(parts[0], "");
    } else {
      WordsJoin(parts[1..]);
      WordsAfter(parts[0], Join(parts[1..]));
    }
  }

  // A token, encoded, becomes a span whose classes are "token", its type and its
  // aliases.
  lemma TokenMarkup(t: Token)
    requires ' ' !in t.kind && forall a :: a in t.alias ==> ' ' !in a
    ensures exists names: string ::
              && StringifyItem(EncodeItem(Tok(t)))
                 == "<span class=\"" + names + "\">" + StringifyContent(EncodeContent(t.content)) + "</span>"
              && Words(names) == ["token", t.kind] + t.alias
  {
    hide Words, Join;
    var parts := ["token", t.kind] + t.alias;
    WordsJoin(parts);
    assert StringifyItem(EncodeItem(Tok(t)))
        == "<span class=\"" + Join(parts) + "\">" + StringifyContent(EncodeContent(t.content)) + "</span>";
  }
}
