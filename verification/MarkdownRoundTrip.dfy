/**
  What the Markdown writer writes, read back (packages/core/src/doc/inlineMarkdown.ts).
 */
module MarkdownRoundTrip {
  import opened Common
  import opened Markdown
  import opened MarkdownReader
  import opened MarkdownTheorems

  // ----- one pass

  lemma {:induction false} TakeStep(markdown: string, s: Scan)
    requires s.i < |markdown| && !InCode(s) && markdown[s.i] !in "\\`[" && Delimiter(markdown, s).None?
    ensures Passed(markdown, s) == Taken(s, [markdown[s.i]], 1)
  {
    hide Delimiter, Taken, InCode;
  }

  lemma {:induction false} EscapeStep(markdown: string, s: Scan)
    requires s.i + 1 < |markdown| && markdown[s.i] == '\\'
    ensures Passed(markdown, s) == Taken(s, [markdown[s.i + 1]], 2)
  {
    hide Delimiter, Taken, InCode;
  }

  lemma {:induction false} ToggleStep(markdown: string, s: Scan, name: string, len: nat)
    requires s.i < |markdown| && !InCode(s) && markdown[s.i] !in "\\`[" && Delimiter(markdown, s) == Some((name, len))
    ensures Passed(markdown, s) == Toggled(s, name, len)
  {
    hide Delimiter, Toggled, InCode;
  }

  /** Escaped text is taken as it was, under whatever marks are open. */
  lemma {:induction false} PassEscaped(markdown: string, s: Scan, text: string, rest: string)
    requires s.i <= |markdown| && markdown[s.i..] == Escape(text) + rest && !InCode(s)
    ensures s.i + |Escape(text)| <= |markdown|
    ensures Scanned(markdown, s) == Scanned(markdown, Taken(s, text, |Escape(text)|))
    decreases |text|
  {
    hide Passed, InCode, Special;
    if text == "" {
      assert s.buffer + "" == s.buffer;
    } else {
      var c, w := text[0], if Special(text[0]) then 2 else 1;
      assert markdown[s.i] == markdown[s.i..][0];
      if Special(c) {
        assert markdown[s.i + 1] == markdown[s.i..][1];
        EscapeStep(markdown, s);
      } else {
        PlainHasNoDelimiter(markdown, s);
        TakeStep(markdown, s);
      }
      var next := Taken(s, [c], w);
      assert markdown[s.i + w..] == markdown[s.i..][w..] == Escape(text[1..]) + rest;
      SameCode(s, next);
      PassEscaped(markdown, next, text[1..], rest);
      assert s.buffer + [c] + text[1..] == s.buffer + text;
    }
  }

  lemma {:induction false} SameCode(s: Scan, t: Scan)
    requires s.marks == t.marks
    ensures InCode(s) == InCode(t)
  {
  }

  lemma {:induction false} PlainHasNoDelimiter(markdown: string, s: Scan)
    requires s.i < |markdown| && !Special(markdown[s.i])
    ensures Delimiter(markdown, s).None? && markdown[s.i] !in "\\`["
  {
    hide Delimits;
  }

  /** How the reader ends when every mark was closed. */
  lemma {:induction false} ReadEnds(markdown: string, e: Scan)
    requires Scanned(markdown, START) == e && e.marks == []
    ensures Read(markdown) == Merged(Flushed(e).ops)
  {
    hide Scanned, Merged;
    var ops := Flushed(e).ops;
    assert Cleaned(ops, []) == ops;
  }

  lemma {:induction false} Unfold(markdown: string, s: Scan)
    requires s.i < |markdown|
    ensures Scanned(markdown, s) == Scanned(markdown, Passed(markdown, s))
  {
    hide Passed;
  }

  lemma {:induction false} AtEnd(markdown: string, s: Scan)
    requires s.i == |markdown|
    ensures Scanned(markdown, s) == s
  {
  }

  lemma {:induction false} MergedOne(op: Op)
    ensures Merged([op]) == [op]
  {
    assert [op][..0] == [];
  }

  /** What the reader makes of escaped text without marks. */
  function PlainOps(text: string): seq<Op> {
    if text == "" then [] else [Op(text, [])]
  }

  /** Escaped text comes back as one op without marks. */
  lemma {:induction false} ReadEscaped(text: string)
    ensures Read(Escape(text)) == PlainOps(text)
  {
    hide Escape, Scanned, Read;
    var md := Escape(text);
    assert md[0..] == Escape(text) + "";
    PassEscaped(md, START, text, "");
    var e := Taken(START, text, |md|);
    AtEnd(md, e);
    assert "" + text == text;
    ReadEnds(md, e);
    MergedOne(Op(text, []));
  }

  // ----- links

  /** A written link comes back exactly when it has a text and the pattern can hold its address and its title. */
  lemma {:induction false} LinkReadsBackIff(text: string, href: string, title: Option<string>)
    ensures Read(LinkText(text, href, title)) == [Op(text, [LinkMark(href, title)])]
       <==> text != "" && Address(href) && Quotable(title)
  {
    hide Read, LinkText, Address, LinkMark, Quotable, MadeOps;
    var md := LinkText(text, href, title);
    ReadIsSound(md);
    if text != "" && Address(href) && Quotable(title) {
      LinkIsRead(text, href, title);
    } else if Read(md) == [Op(text, [LinkMark(href, title)])] {
      MadeLink(Read(md), text, href, title);
    }
  }

  /** A title that ends in a backslash swallows the closing quote, and the link is read as text. */
  lemma {:induction false} BackslashTitleIsLost(text: string, href: string, title: string)
    ensures var t := Some(title + "\\");
      |title| == 0 || title[|title| - 1] != '\\' ==>
        Read(LinkText(text, href, t)) != [Op(text, [LinkMark(href, t)])]
  {
    hide Read, LinkText, Address, LinkMark;
    var t, n := title + "\\", |title|;
    LinkReadsBackIff(text, href, Some(t));
    if n == 0 || title[n - 1] != '\\' {
      assert BackslashesBefore(t, n) == 0;
      assert BackslashesBefore(t, n + 1) == 1 + BackslashesBefore(t, n);
      assert !EvenAt(t, n + 1);
    }
  }

  lemma {:induction false} LinkIsRead(text: string, href: string, title: Option<string>)
    requires text != "" && Quotable(title) && Address(href)
    ensures Read(LinkText(text, href, title)) == [Op(text, [LinkMark(href, title)])]
  {
    hide Read, LinkText, Address, LinkMark, Quotable, MatchLink, Escape, Stepped, Linked;
    var md, mark := LinkText(text, href, title), LinkMark(href, title);
    WrittenLinkMatches(text, href, title);
    assert md[0..] == md;
    var inner := [Op(text, [])];
    ReadEscaped(text);
    OneLinked(text, mark);
    var e := Scan([Op(text, [mark])], [], "", map[], |md|);
    assert Passed(md, START) == e;
    AtEnd(md, e);
    ReadEnds(md, e);
    MergedOne(Op(text, [mark]));
  }

  lemma {:induction false} OneLinked(text: string, mark: Field)
    ensures [] + Linked([Op(text, [])], [], mark) == [Op(text, [mark])]
  {
    PutNone(mark);
  }

  lemma {:induction false} MadeLink(r: seq<Op>, text: string, href: string, title: Option<string>)
    requires MadeOps(r) && r == [Op(text, [LinkMark(href, title)])]
    ensures text != "" && Address(href) && Quotable(title)
  {
    hide Address, Quotable;
    assert AllMade(r[0].attributes);
    assert Made(r[0].attributes[0]);
    var h, t :| LinkValue(href, title) == LinkValue(h, t) && Address(h) && Quotable(t);
    SameLink(href, title, h, t);
  }

  lemma {:induction false} SameLink(href: string, title: Option<string>, h: string, t: Option<string>)
    requires LinkValue(href, title) == LinkValue(h, t)
    ensures href == h && title == t
  {
    var a, b := LinkValue(href, title).fields, LinkValue(h, t).fields;
    assert a[0] == b[0] && a[1] == b[1];
  }

  // ----- escaped text and closers

  lemma {:induction false} EscapeEnds(t: string)
    requires t != ""
    ensures var e := Escape(t); e != "" && e[|e| - 1] == t[|t| - 1]
    ensures if Special(t[0]) then Escape(t)[0] == '\\' else Escape(t)[0] == t[0]
  {
    hide Special;
    if |t| > 1 {
      EscapeEnds(t[1..]);
    } else {
      assert Escape(t[1..]) == "";
    }
  }

  /** In escaped text every special character but the backslash has a backslash before it. */
  lemma {:induction false} Guarded(t: string, p: nat)
    requires p < |Escape(t)| && Special(Escape(t)[p]) && Escape(t)[p] != '\\'
    ensures p > 0 && Escape(t)[p - 1] == '\\'
  {
    var w := if Special(t[0]) then 2 else 1;
    if p >= w {
      assert Escape(t)[p] == Escape(t[1..])[p - w];
      Guarded(t[1..], p - w);
    }
  }

  ghost predicate OccursAt(s: string, d: string, k: nat) {
    k + |d| <= |s| && s[k..k + |d|] == d
  }

  lemma {:induction false} IndexOfIs(s: string, d: string, from: nat)
    requires |d| > 0
    ensures var r := IndexOf(s, d, from);
      if r.Some? then OccursAt(s, d, r.value) && forall k :: from <= k < r.value ==> !OccursAt(s, d, k)
      else forall k :: from <= k ==> !OccursAt(s, d, k)
    decreases |s| - from
  {
    if from + |d| <= |s| && s[from..from + |d|] != d {
      IndexOfIs(s, d, from + 1);
    }
  }

  /** A place a delimiter can close on. */
  ghost predicate Closable(s: string, k: int) {
    !SpaceAt(s, k - 1) && At(s, k - 1) != "\\"
  }

  lemma {:induction false} CloserOfOne(s: string, c: char, from: nat)
    ensures Closer(s, [c], from) <==> exists j :: from <= j < |s| && s[j] == c && Closable(s, j)
    decreases |s| - from
  {
    hide IndexOf, SpaceAt, At;
    var r := IndexOf(s, [c], from);
    IndexOfIs(s, [c], from);
    forall k: nat | k < |s| ensures OccursAt(s, [c], k) <==> s[k] == c {
      assert s[k..k + 1] == [s[k]];
    }
    if r.Some? {
      CloserOfOne(s, c, r.value + 1);
    }
  }

  // ----- emphasis

  /** The marks written with the same delimiter on both sides of escaped text. */
  predicate Paired(name: string) {
    name == "strong" || name == "em" || name == "strikethrough"
  }

  function PairMark(name: string): Field {
    Field(name, Object([]))
  }

  function MarkText(name: string, text: string): string {
    OpenText(name) + Escape(text) + OpenText(name)
  }

  /** A text an op can have between its white space. */
  ghost predicate IsCore(text: string) {
    text != "" && !IsSpace(text[0]) && !IsSpace(text[|text| - 1])
  }

  /** The reader finds the closing delimiter unless the text ends in a backslash or in the delimiter of two. */
  predicate Carries(name: string, text: string)
    requires text != ""
  {
    var last := text[|text| - 1];
    last != '\\' && (name == "strong" ==> last != '*') && (name == "strikethrough" ==> last != '~')
  }

  /** The places of a written mark: delimiter, text, delimiter. */
  lemma {:induction false} MarkPlaces(name: string, text: string)
    requires Paired(name) && IsCore(text)
    ensures var md, d, e := MarkText(name, text), |OpenText(name)|, |Escape(text)|; var c := OpenText(name)[0];
      && 1 <= d <= 2 && e > 0 && |md| == d + e + d && md[0] == c && md[d - 1] == c && (d == 1 <==> name == "em")
      && c == (if name == "strikethrough" then '~' else '*')
      && md[..d] == OpenText(name) && md[d..] == Escape(text) + OpenText(name) && md[d + e..] == OpenText(name)
      && md[d] != c && !IsSpace(md[d])
      && md[d + e - 1] == text[|text| - 1]
      && md[d + e] == c && md[|md| - 1] == c
  {
    hide Escape, IsSpace, Special;
    var md, d, e := MarkText(name, text), |OpenText(name)|, Escape(text);
    EscapeEnds(text);
    FirstCharacters(text[0], Escape(text)[0]);
    assert md[d] == e[0] && md[d + |e| - 1] == e[|e| - 1];
  }

  lemma {:induction false} FirstCharacters(c: char, e: char)
    requires !IsSpace(c) && e == if Special(c) then '\\' else c
    ensures !IsSpace(e) && e != '*' && e != '~'
  {
  }

  /** Inside the text a delimiter's character has a backslash before it. */
  lemma {:induction false} InsideIsGuarded(name: string, text: string, j: nat)
    requires Paired(name) && IsCore(text)
    requires |OpenText(name)| <= j < |OpenText(name)| + |Escape(text)|
    requires j < |MarkText(name, text)| && MarkText(name, text)[j] in "*~"
    ensures j > |OpenText(name)| && MarkText(name, text)[j - 1] == '\\'
  {
    hide Escape;
    var md, d := MarkText(name, text), |OpenText(name)|;
    assert md[j] == Escape(text)[j - d];
    Guarded(text, j - d);
    assert md[j - 1] == Escape(text)[j - d - 1];
  }

  lemma {:induction false} CloserOfEm(text: string)
    requires IsCore(text)
    ensures Closer(MarkText("em", text), "*", 2) <==> Carries("em", text)
  {
    hide Escape, IsSpace, MarkText, Closer, IsCore;
    var md := MarkText("em", text);
    MarkPlaces("em", text);
    CloserOfOne(md, '*', 2);
    Core(text);
    forall j | 2 <= j < |md| && md[j] == '*' && Closable(md, j) ensures j == |md| - 1 {
      if j < |md| - 1 {
        InsideIsGuarded("em", text, j);
      }
    }
    assert Closable(md, |md| - 1) <==> Carries("em", text);
  }

  lemma {:induction false} Core(text: string)
    requires IsCore(text)
    ensures text != "" && !IsSpace(text[|text| - 1])
  {
  }

  lemma {:induction false} OccursPair(md: string, c: char, k: nat)
    ensures OccursAt(md, [c, c], k) <==> k + 1 < |md| && md[k] == c && md[k + 1] == c
  {
    if k + 1 < |md| {
      assert md[k..k + 2] == [md[k], md[k + 1]];
    }
  }

  /** Where the delimiter of two stands after the opening one: at the end, and one sooner after its own character. */
  lemma {:induction false} PairPlaces(name: string, text: string, k: nat)
    requires Paired(name) && name != "em" && IsCore(text) && 3 <= k
    ensures var md := MarkText(name, text);
      OccursAt(md, OpenText(name), k) <==> k == |md| - 2 || (k == |md| - 3 && text[|text| - 1] == OpenText(name)[0])
  {
    hide Escape, IsSpace, MarkText;
    var md, c := MarkText(name, text), OpenText(name)[0];
    MarkPlaces(name, text);
    assert OpenText(name) == [c, c];
    OccursPair(md, c, k);
    if k + 1 < |md| - 2 && md[k + 1] == c {
      InsideIsGuarded(name, text, k + 1);
    }
  }

  lemma {:induction false} FirstIndex(s: string, d: string, from: nat, j: nat)
    requires |d| > 0 && from <= j && OccursAt(s, d, j) && forall k :: from <= k < j ==> !OccursAt(s, d, k)
    ensures IndexOf(s, d, from) == Some(j)
  {
    hide OccursAt, IndexOf;
    IndexOfIs(s, d, from);
  }

  lemma {:induction false} NoIndex(s: string, d: string, from: nat)
    requires |d| > 0 && |s| < from + |d|
    ensures IndexOf(s, d, from) == None
  {
  }

  lemma {:induction false} CloserOfPair(name: string, text: string)
    requires Paired(name) && name != "em" && IsCore(text)
    ensures Closer(MarkText(name, text), OpenText(name), 3) <==> Carries(name, text)
  {
    hide Escape, IsSpace, MarkText, IndexOf, Closer, OccursAt;
    var md, dd, last := MarkText(name, text), OpenText(name), text[|text| - 1];
    var n := |md|;
    MarkPlaces(name, text);
    forall k: nat | 3 <= k ensures OccursAt(md, dd, k) <==> k == n - 2 || (k == n - 3 && last == dd[0]) {
      PairPlaces(name, text, k);
    }
    if last == dd[0] {
      InsideIsGuarded(name, text, n - 3);
      CloserFrom(md, dd, 3, n - 3);
      NoCloser(md, dd, n - 1);
    } else {
      CloserFrom(md, dd, 3, n - 2);
      NoCloser(md, dd, n);
    }
  }

  lemma {:induction false} CloserFrom(s: string, d: string, from: nat, j: nat)
    requires |d| > 0 && from <= j && OccursAt(s, d, j) && forall k :: from <= k < j ==> !OccursAt(s, d, k)
    ensures Closer(s, d, from) <==> Closable(s, j) || Closer(s, d, j + |d|)
  {
    hide OccursAt, Closer, IndexOf, Closable;
    FirstIndex(s, d, from, j);
    CloserUnfold(s, d, from);
  }

  lemma {:induction false} NoCloser(s: string, d: string, from: nat)
    requires |d| > 0 && |s| < from + |d|
    ensures !Closer(s, d, from)
  {
    hide Closer, IndexOf, Closable;
    NoIndex(s, d, from);
    CloserUnfold(s, d, from);
  }

  lemma {:induction false} CloserUnfold(s: string, d: string, from: nat)
    requires |d| > 0
    ensures var j := IndexOf(s, d, from);
      Closer(s, d, from) <==> j.Some? && (Closable(s, j.value) || Closer(s, d, j.value + |d|))
  {
  }

  /** What the reader takes the opening delimiter for. */
  lemma {:induction false} OpeningDelimiter(name: string, text: string)
    requires Paired(name) && IsCore(text)
    ensures MarkText(name, text) != ""
    ensures Delimiter(MarkText(name, text), START) ==
      if Carries(name, text) then Some((name, |OpenText(name)|))
      else if name == "strong" then Some(("em", 1))
      else None
  {
    hide Escape, IsSpace, MarkText, Closer, IsCore;
    var md := MarkText(name, text);
    Core(text);
    MarkPlaces(name, text);
    assert md[0..1] == [md[0]] && md[0..|OpenText(name)|] == OpenText(name);
    if name == "em" {
      CloserOfEm(text);
    } else {
      CloserOfPair(name, text);
      if name == "strong" {
        StarsNotSpace();
        CloserOfOne(md, '*', 2);
        assert md[|md| - 2] == '*' && Closable(md, |md| - 1);
      }
    }
  }

  lemma {:induction false} StarsNotSpace()
    ensures !IsSpace('*') && !IsSpace('~')
  {
  }

  /** At the end of the text, where nothing follows the delimiter, it can only close. */
  lemma {:induction false} ClosingDelimiter(name: string, text: string, s: Scan)
    requires Paired(name) && IsCore(text) && s.i == |OpenText(name)| + |Escape(text)| && s.buffer != ""
    ensures s.i < |MarkText(name, text)|
    ensures s.marks == [PairMark(name)] ==> Delimiter(MarkText(name, text), s) == Some((name, |OpenText(name)|))
    ensures s.marks == [] && name != "strong" ==> Delimiter(MarkText(name, text), s) == None
    ensures s.marks == [PairMark("em")] && name == "strong" ==> Delimiter(MarkText(name, text), s) == Some(("em", 1))
  {
    hide Escape, IsSpace, MarkText, Closer, IsCore;
    Core(text);
    MarkPlaces(name, text);
    assert [PairMark("em")][1..] == [] && [PairMark(name)][1..] == [];
    assert At(MarkText(name, text), s.i + 1) == if name == "em" then "" else [OpenText(name)[0]];
  }

  lemma {:induction false} LastDelimiter(markdown: string, s: Scan)
    requires s.i == |markdown| - 1 && s.marks == [] && markdown[s.i] in "*~"
    ensures Delimiter(markdown, s) == None
  {
  }

  /** A marked text whose closing delimiter the reader finds comes back. */
  lemma {:induction false} MarkIsRead(name: string, text: string)
    requires Paired(name) && IsCore(text) && Carries(name, text)
    ensures Read(MarkText(name, text)) == [Op(text, [PairMark(name)])]
  {
    hide Escape, IsSpace, MarkText, Read, Passed, Delimiter, Carries, Toggled;
    var md, d := MarkText(name, text), |OpenText(name)|;
    MarkPlaces(name, text);
    OpeningDelimiter(name, text);
    ToggleStep(md, START, name, d);
    var s := Scan([], [PairMark(name)], "", map[name := 0], d);
    ToggledFromStart(name, d);
    assert [PairMark(name)][1..] == [];
    PassEscaped(md, s, text, OpenText(name));
    var u := Taken(s, text, |Escape(text)|);
    assert "" + text == text;
    ClosingDelimiter(name, text, u);
    ToggleStep(md, u, name, d);
    var e := Toggled(u, name, d);
    ToggledToEnd(u, name, d);
    AtEnd(md, e);
    ReadEnds(md, e);
    MergedOne(Op(text, [PairMark(name)]));
  }

  /** An emphasised text that does not come back keeps its delimiters as characters. */
  lemma {:induction false} EmIsText(text: string)
    requires IsCore(text) && !Carries("em", text)
    ensures Read(MarkText("em", text)) == [Op("*" + text + "*", [])]
  {
    hide Escape, IsSpace, MarkText, Read, Passed, Delimiter, Carries, IsCore;
    var md := MarkText("em", text);
    MarkPlaces("em", text);
    OpeningDelimiter("em", text);
    TakeStep(md, START);
    var s := Taken(START, "*", 1);
    PassEscaped(md, s, text, "*");
    var u := Taken(s, text, |Escape(text)|);
    LastDelimiter(md, u);
    TakeStep(md, u);
    var e := Taken(u, "*", 1);
    AtEnd(md, e);
    ReadEnds(md, e);
    assert "" + "*" + text + "*" == "*" + text + "*";
    MergedOne(Op("*" + text + "*", []));
  }

  lemma {:induction false} TildeIsCharacter(markdown: string, s: Scan)
    requires s.i < |markdown| && markdown[s.i] == '~' && At(markdown, s.i + 1) != "~"
    ensures Delimiter(markdown, s) == None
  {
  }

  /** A struck text that does not come back keeps its delimiters as characters. */
  lemma {:induction false} StrikeIsText(text: string)
    requires IsCore(text) && !Carries("strikethrough", text)
    ensures Read(MarkText("strikethrough", text)) == [Op("~~" + text + "~~", [])]
  {
    hide Escape, IsSpace, MarkText, Read, Passed, Delimiter, Carries, IsCore;
    var md := MarkText("strikethrough", text);
    MarkPlaces("strikethrough", text);
    OpeningDelimiter("strikethrough", text);
    TakeStep(md, START);
    var s1 := Taken(START, "~", 1);
    TildeIsCharacter(md, s1);
    TakeStep(md, s1);
    var s := Taken(s1, "~", 1);
    PassEscaped(md, s, text, "~~");
    var u := Taken(s, text, |Escape(text)|);
    ClosingDelimiter("strikethrough", text, u);
    TakeStep(md, u);
    var v := Taken(u, "~", 1);
    LastDelimiter(md, v);
    TakeStep(md, v);
    var e := Taken(v, "~", 1);
    AtEnd(md, e);
    ReadEnds(md, e);
    assert "" + "~" + "~" + text + "~" + "~" == "~~" + text + "~~";
    MergedOne(Op("~~" + text + "~~", []));
  }

  lemma {:induction false} SecondStar(markdown: string, s: Scan)
    requires s.i < |markdown| && markdown[s.i] == '*' && At(markdown, s.i + 1) != "*"
    requires s.marks == [PairMark("em")] && s.since == map["em" := 0] && s.buffer == ""
    ensures Delimiter(markdown, s) == None
  {
  }

  lemma {:induction false} MergedTwo(a: Op, b: Op)
    requires a.attributes != b.attributes
    ensures Merged([a, b]) == [a, b]
  {
    assert [a, b][..1] == [a];
    MergedOne(a);
  }

  /** The opening pair is read as emphasis and a star, and the text follows. */
  lemma {:induction false} StrongOpensEm(text: string)
    requires IsCore(text) && !Carries("strong", text)
    ensures var md := MarkText("strong", text);
      var u := Scan([], [PairMark("em")], "*" + text, map["em" := 0], 2 + |Escape(text)|);
      u.i + 2 == |md| && Scanned(md, START) == Scanned(md, u)
  {
    hide Escape, IsSpace, MarkText, Read, Passed, Delimiter, Carries, IsCore, Toggled;
    var md := MarkText("strong", text);
    MarkPlaces("strong", text);
    OpeningDelimiter("strong", text);
    ToggleStep(md, START, "em", 1);
    var s1 := Scan([], [PairMark("em")], "", map["em" := 0], 1);
    ToggledFromStart("em", 1);
    SecondStar(md, s1);
    TakeStep(md, s1);
    PassEscaped(md, Taken(s1, "*", 1), text, "**");
    assert "" + "*" + text == "*" + text;
  }

  lemma {:induction false} ToggledFromStart(name: string, len: nat)
    ensures Toggled(START, name, len) == Scan([], [PairMark(name)], "", map[name := 0], len)
  {
  }

  lemma {:induction false} ToggledToEnd(s: Scan, name: string, len: nat)
    requires s.ops == [] && s.marks == [PairMark(name)] && s.buffer != ""
    ensures var v := Toggled(s, name, len);
      v.ops == [Op(s.buffer, [PairMark(name)])] && v.marks == [] && v.buffer == "" && v.i == s.i + len
  {
    hide Counted;
    assert s.marks[1..] == [] && Without([], name) == [];
    assert Get(s.marks, name).Some? && Without(s.marks, name) == [];
    assert [] + [Op(s.buffer, s.marks)] == [Op(s.buffer, s.marks)];
  }

  /** A bold text that does not come back is read as emphasis, with one star inside and one after it. */
  lemma {:induction false} StrongIsEm(text: string)
    requires IsCore(text) && !Carries("strong", text)
    ensures Read(MarkText("strong", text)) == [Op("*" + text, [PairMark("em")]), Op("*", [])]
  {
    hide Escape, IsSpace, MarkText, Read, Passed, Delimiter, Carries, IsCore, Toggled, Merged;
    var md := MarkText("strong", text);
    MarkPlaces("strong", text);
    StrongOpensEm(text);
    var u := Scan([], [PairMark("em")], "*" + text, map["em" := 0], 2 + |Escape(text)|);
    ClosingDelimiter("strong", text, u);
    ToggleStep(md, u, "em", 1);
    var v := Toggled(u, "em", 1);
    ToggledToEnd(u, "em", 1);
    LastDelimiter(md, v);
    TakeStep(md, v);
    Unfold(md, u);
    Unfold(md, v);
    var e := Taken(v, "*", 1);
    assert "" + "*" == "*";
    AtEnd(md, e);
    ReadEnds(md, e);
    var a, b := Op("*" + text, [PairMark("em")]), Op("*", []);
    assert Flushed(e).ops == [a] + [b] == [a, b];
    MergedTwo(a, b);
    assert Read(md) == Merged([a, b]);
  }

  /** A written bold, emphasised or struck text comes back exactly when the reader finds its closing delimiter. */
  lemma {:induction false} MarkReadsBackIff(name: string, text: string)
    requires Paired(name) && IsCore(text)
    ensures Read(MarkText(name, text)) == [Op(text, [PairMark(name)])] <==> Carries(name, text)
  {
    hide Read, MarkText, Carries;
    if Carries(name, text) {
      MarkIsRead(name, text);
    } else if name == "em" {
      EmIsText(text);
    } else if name == "strikethrough" {
      StrikeIsText(text);
    } else {
      StrongIsEm(text);
    }
  }

  /** A link without a title, with an empty one, or with an address that is no text is written without it. */
  lemma {:induction false} PlainLinkTexts(href: string, title: Value)
    ensures CloseText(Field("link", Object([Field("href", Text(href)), Field("title", Text(""))]))) == "](" + href + ")"
    ensures !title.Text? ==>
      CloseText(Field("link", Object([Field("href", Text(href)), Field("title", title)]))) == "](" + href + ")"
    ensures !title.Text? ==> CloseText(Field("link", Object([Field("href", title)]))) == "]()"
    ensures !title.Object? ==> CloseText(Field("link", title)) == "]()"
  {
    forall v: Value ensures var fields := [Field("href", Text(href)), Field("title", v)];
      Get(fields, "href") == Some(Text(href)) && Get(fields, "title") == Some(v)
    {
      assert [Field("href", Text(href)), Field("title", v)][1..] == [Field("title", v)];
    }
    var only := [Field("href", title)];
    assert only[1..] == [] && Get(only, "title") == Get([], "title") == None && Get(only, "href") == Some(title);
    assert Get([], "href").None? && Get([], "title").None?;
    assert "](" + "" + ")" == "]()";
  }

  /** What was read above is what the writer writes for one marked op. */
  lemma {:induction false} MarksAreWritten(text: string, href: string, title: Option<string>)
    requires IsCore(text)
    ensures forall name :: Paired(name) ==> Render(Trace([Op(text, [PairMark(name)])])) == MarkText(name, text)
    ensures Render(Trace([Op(text, [PairMark("inlineCode")])])) == "`" + text + "`"
    ensures Render(Trace([Op(text, [LinkMark(href, title)])])) == LinkText(text, href, title)
  {
    hide IsSpace, Escape, Render, Trace;
    forall name | Paired(name) ensures Render(Trace([Op(text, [PairMark(name)])])) == MarkText(name, text) {
      OneMarkIsWritten(text, PairMark(name));
    }
    OneMarkIsWritten(text, PairMark("inlineCode"));
    OneMarkIsWritten(text, LinkMark(href, title));
  }
}
