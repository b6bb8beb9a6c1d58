/**
  Marks inside marks and links inside marks, read back (packages/core/src/doc/inlineMarkdown.ts).

  The text read is always: a delimiter, escaped text, something in the middle, escaped text, the delimiter. The
  middle is another mark, a link or code; `OuterMark` carries the marks around it, whatever it is.
 */
module MarkdownNesting {
  import opened Common
  import opened Markdown
  import opened MarkdownReader
  import opened MarkdownTheorems
  import opened MarkdownRoundTrip

  // ----- places

  lemma {:induction false} After(s: string, i: nat, x: string, y: string)
    requires i <= |s| && s[i..] == x + y
    ensures i + |x| <= |s| && s[i + |x|..] == y
    ensures forall k :: 0 <= k < |x| ==> s[i + k] == x[k]
  {
    assert s[i..][|x|..] == y;
    forall k | 0 <= k < |x| ensures s[i + k] == x[k] {
      assert s[i..][k] == x[k];
    }
  }

  /** The search for a closer that comes to a place goes on as if it had started there, unless it succeeded before. */
  lemma {:induction false} CloserReaches(s: string, d: string, from: nat, k: nat)
    requires 1 <= |d| <= 2 && from <= k && OccursAt(s, d, k)
    requires |d| == 2 && k > 0 ==> !OccursAt(s, d, k - 1)
    requires Closer(s, d, k)
    ensures Closer(s, d, from)
    decreases k - from
  {
    hide OccursAt, Closer, IndexOf, Closable;
    IndexOfIs(s, d, from);
    CloserUnfold(s, d, from);
    var j := IndexOf(s, d, from);
    if j.value == k {
      FirstIndex(s, d, k, k);
      CloserUnfold(s, d, k);
    } else if !Closable(s, j.value) {
      CloserReaches(s, d, j.value + |d|, k);
    }
  }

  /** So a place to close on that the search cannot step over is found. */
  lemma {:induction false} CloserAt(s: string, d: string, from: nat, k: nat)
    requires 1 <= |d| <= 2 && from <= k && OccursAt(s, d, k) && Closable(s, k)
    requires |d| == 2 && k > 0 ==> !OccursAt(s, d, k - 1)
    ensures Closer(s, d, from)
  {
    hide OccursAt, Closer, IndexOf, Closable;
    FirstIndex(s, d, k, k);
    CloserUnfold(s, d, k);
    CloserReaches(s, d, from, k);
  }

  // ----- delimiters

  lemma {:induction false} Delimiters(name: string)
    requires Paired(name)
    ensures var d := OpenText(name);
      && d == (if name == "strong" then "**" else if name == "em" then "*" else "~~")
      && Special(d[0]) && !IsSpace(d[0]) && d[0] !in "\\`["
  {
    StarsNotSpace();
  }

  /** A mark that is not open opens where a letter follows and a closer comes later. */
  lemma {:induction false} OpensHere(markdown: string, s: Scan, name: string, y: string)
    requires Paired(name) && s.i <= |markdown| && markdown[s.i..] == OpenText(name) + y && !InCode(s)
    requires Get(s.marks, name).None? && y != "" && !IsSpace(y[0]) && (name == "em" ==> y[0] != '*')
    requires Closer(markdown, OpenText(name), s.i + |OpenText(name)| + 1)
    ensures s.i + |OpenText(name)| <= |markdown|
    ensures Scanned(markdown, s) == Scanned(markdown, Toggled(s, name, |OpenText(name)|))
  {
    hide Closer, InCode, Get, Toggled, IsSpace, Passed;
    var d := OpenText(name);
    Delimiters(name);
    After(markdown, s.i, d, y);
    assert markdown[s.i + |d|] == markdown[s.i + |d|..][0] == y[0];
    assert markdown[s.i..s.i + |d|] == d;
    assert At(markdown, s.i + 1) == if name == "em" then [y[0]] else [d[1]];
    assert Delimiter(markdown, s) == Some((name, |d|));
    ToggleStep(markdown, s, name, |d|);
  }

  /** An open mark with something in it closes after a letter. */
  lemma {:induction false} ClosesHere(markdown: string, s: Scan, name: string, y: string)
    requires Paired(name) && s.i <= |markdown| && markdown[s.i..] == OpenText(name) + y && !InCode(s)
    requires Get(s.marks, name).Some? && HasContent(s, name) && s.i > 0 && !SpaceAt(markdown, s.i - 1)
    requires name == "em" ==> y == "" || y[0] != '*'
    ensures s.i + |OpenText(name)| <= |markdown|
    ensures Scanned(markdown, s) == Scanned(markdown, Toggled(s, name, |OpenText(name)|))
  {
    hide Closer, InCode, Get, Toggled, IsSpace, Passed, HasContent, SpaceAt;
    var d := OpenText(name);
    Delimiters(name);
    After(markdown, s.i, d, y);
    assert name == "em" && y != "" ==> markdown[s.i + 1] == markdown[s.i + 1..][0] == y[0];
    assert At(markdown, s.i + 1) == if name == "em" then (if y == "" then "" else [y[0]]) else [d[1]];
    assert InWord(markdown, s.i) == false;
    assert Delimiter(markdown, s) == Some((name, |d|));
    ToggleStep(markdown, s, name, |d|);
  }

  // ----- counting

  lemma {:induction false} CountedGrows(since: map<string, nat>, marks: seq<Field>, n: nat)
    ensures var c := Counted(since, marks, n);
      && (forall name <- since :: name in c && c[name] >= since[name])
      && (forall m <- marks :: m.name in c && c[m.name] >= n)
    decreases |marks|
  {
    if marks != [] {
      var name := marks[0].name;
      var next := since[name := (if name in since then since[name] else 0) + n];
      CountedGrows(next, marks[1..], n);
      assert marks == [marks[0]] + marks[1..];
    }
  }

  /** What a flush does to a state with text in the buffer. */
  lemma {:induction false} FlushedIs(s: Scan)
    requires s.buffer != ""
    ensures var f := Flushed(s);
      && f.ops == s.ops + [Op(s.buffer, s.marks)] && f.marks == s.marks && f.buffer == "" && f.i == s.i
      && (forall m <- s.marks :: m.name in f.since && f.since[m.name] > 0)
  {
    hide Counted;
    CountedGrows(s.since, s.marks, |s.buffer|);
  }

  // ----- around the middle

  function Around(name: string, a: string, mid: string, c: string): string {
    OpenText(name) + Escape(a) + mid + Escape(c) + OpenText(name)
  }

  /** What comes last before the closing delimiter. */
  function Last(mid: string, c: string): string {
    if c == "" then mid else c
  }

  ghost predicate EndsWell(name: string, z: string) {
    z != "" && !IsSpace(z[|z| - 1]) && Carries(name, z)
  }

  lemma {:induction false} FiveParts(d: string, e: string, mid: string, x: string)
    ensures var md := d + e + mid + x + d;
      && md[0..] == d + (e + mid + x + d) && md[|d|..] == e + (mid + x + d)
      && md[|d| + |e|..] == mid + (x + d) && md[|d| + |e| + |mid|..] == x + d
      && |md| == |d| + |e| + |mid| + |x| + |d| && md[|md| - |d|..] == d
  {
    var r1, r2 := e + mid + x + d, mid + x + d;
    assert d + e + mid + x + d == d + r1 && r1 == e + r2 && r2 == mid + (x + d);
  }

  lemma {:induction false} AroundPlaces(name: string, a: string, mid: string, c: string)
    requires Paired(name) && (a != "" ==> !IsSpace(a[0])) && mid != "" && EndsWell(name, Last(mid, c))
    ensures var md, d, e := Around(name, a, mid, c), OpenText(name), Escape(a);
      var n := |md|;
      && (a != "" ==> e != "" && !IsSpace(e[0]) && e[0] != '*' && e[0] != '~')
      && md[0..] == d + (e + mid + Escape(c) + d)
      && md[|d|..] == e + (mid + Escape(c) + d)
      && md[|d| + |e|..] == mid + (Escape(c) + d)
      && md[|d| + |e| + |mid|..] == Escape(c) + d
      && n == |d| + |e| + |mid| + |Escape(c)| + |d|
      && md[n - |d|..] == d && md[n - |d| - 1] == Last(mid, c)[|Last(mid, c)| - 1]
  {
    hide Escape, IsSpace, Special, Carries, OpenText;
    var md, d, e := Around(name, a, mid, c), OpenText(name), Escape(a);
    FiveParts(d, e, mid, Escape(c));
    if a != "" {
      EscapeEnds(a);
      FirstCharacters(a[0], e[0]);
    }
    LastCharacter(d, e, mid, c);
  }

  lemma {:induction false} LastCharacter(d: string, e: string, mid: string, c: string)
    requires mid != ""
    ensures var md := d + e + mid + Escape(c) + d;
      |md| > 2 * |d| && md[|md| - |d| - 1] == Last(mid, c)[|Last(mid, c)| - 1]
  {
    hide Escape, Special;
    var x := d + e + mid;
    assert x[|x| - 1] == mid[|mid| - 1];
    if c == "" {
      NothingEscaped();
      assert x + "" + d == x + d;
    } else {
      EscapeEnds(c);
      var y := x + Escape(c);
      assert y[|y| - 1] == Escape(c)[|Escape(c)| - 1];
      assert (y + d)[|y| - 1] == y[|y| - 1];
    }
  }

  lemma {:induction false} NothingEscaped()
    ensures Escape("") == ""
  {
  }

  /** The delimiter opens the outer mark, and the text before the middle is taken under it. */
  lemma {:induction false} OuterOpens(name: string, a: string, mid: string, c: string)
    requires Paired(name) && a != "" && !IsSpace(a[0]) && mid != "" && EndsWell(name, Last(mid, c))
    ensures var md, d := Around(name, a, mid, c), |OpenText(name)|;
      Scanned(md, START) == Scanned(md, Scan([], [PairMark(name)], a, map[name := 0], d + |Escape(a)|))
  {
    hide Escape, IsSpace, Around, Passed, Toggled, Closer, Closable, OccursAt, Carries;
    var md, d := Around(name, a, mid, c), OpenText(name);
    var n := |md|;
    AroundPlaces(name, a, mid, c);
    Delimiters(name);
    AroundCloser(name, a, mid, c);
    OpensHere(md, START, name, Escape(a) + mid + Escape(c) + d);
    ToggledFromStart(name, |d|);
    var s := Scan([], [PairMark(name)], "", map[name := 0], |d|);
    assert [PairMark(name)][1..] == [];
    PassEscaped(md, s, a, mid + Escape(c) + d);
    assert "" + a == a;
  }

  /** The closing delimiter is one the search cannot step over. */
  lemma {:induction false} OuterCloser(name: string, md: string, z: string)
    requires Paired(name) && EndsWell(name, z) && |md| > 2 * |OpenText(name)|
    requires md[|md| - |OpenText(name)|..] == OpenText(name) && md[|md| - |OpenText(name)| - 1] == z[|z| - 1]
    ensures Closer(md, OpenText(name), |OpenText(name)| + 1)
  {
    hide Closer;
    var d := OpenText(name);
    Delimiters(name);
    var k := |md| - |d|;
    assert md[k..k + |d|] == d;
    if |d| == 2 {
      OccursPair(md, d[0], k - 1);
    }
    CloserAt(md, d, |d| + 1, k);
  }

  lemma {:induction false} AroundCloser(name: string, a: string, mid: string, c: string)
    requires Paired(name) && (a != "" ==> !IsSpace(a[0])) && mid != "" && EndsWell(name, Last(mid, c))
    ensures Closer(Around(name, a, mid, c), OpenText(name), |OpenText(name)| + 1)
  {
    hide Closer, Around, IsSpace, EndsWell, Escape, OpenText;
    AroundPlaces(name, a, mid, c);
    OuterCloser(name, Around(name, a, mid, c), Last(mid, c));
  }

  /** After the middle the rest is taken under the outer mark, and the delimiter closes it. */
  lemma {:induction false} OuterCloses(name: string, a: string, mid: string, c: string, t: Scan)
    requires Paired(name) && (a != "" ==> !IsSpace(a[0])) && mid != "" && EndsWell(name, Last(mid, c))
    requires t.marks == [PairMark(name)] && t.buffer == "" && t.i == |OpenText(name)| + |Escape(a)| + |mid|
    requires c != "" || (name in t.since && t.since[name] > 0)
    requires Scanned(Around(name, a, mid, c), START) == Scanned(Around(name, a, mid, c), t)
    ensures Read(Around(name, a, mid, c)) == Merged(t.ops + if c == "" then [] else [Op(c, [PairMark(name)])])
  {
    hide Escape, IsSpace, Around, Toggled, Scanned, Read, Merged, HasContent, OpenText, EndsWell, InCode, Get;
    var md, d := Around(name, a, mid, c), OpenText(name);
    AroundEnd(name, a, mid, c);
    OneMarkOpen(t, name);
    PassEscaped(md, t, c, d);
    var u := Taken(t, c, |Escape(c)|);
    assert "" + c == c;
    ContentThere(u, name);
    LastIsNoSpace(name, md, Last(mid, c));
    LastCloses(md, u, name);
  }

  /** What stands after the middle. */
  lemma {:induction false} AroundEnd(name: string, a: string, mid: string, c: string)
    requires Paired(name) && (a != "" ==> !IsSpace(a[0])) && mid != "" && EndsWell(name, Last(mid, c))
    ensures var md, k := Around(name, a, mid, c), |OpenText(name)| + |Escape(a)| + |mid|;
      && 0 < k <= k + |Escape(c)| <= |md| && md[k..] == Escape(c) + OpenText(name)
      && md[k + |Escape(c)|..] == OpenText(name) && |md| == k + |Escape(c)| + |OpenText(name)|
      && md[|md| - |OpenText(name)| - 1] == Last(mid, c)[|Last(mid, c)| - 1]
  {
    hide Escape, IsSpace, Around, OpenText, EndsWell;
    AroundPlaces(name, a, mid, c);
    After(Around(name, a, mid, c), |OpenText(name)| + |Escape(a)| + |mid|, Escape(c), OpenText(name));
  }

  /** The delimiter at the end closes the mark, and the text is read. */
  lemma {:induction false} LastCloses(md: string, u: Scan, name: string)
    requires Paired(name) && u.marks == [PairMark(name)] && HasContent(u, name)
    requires 0 < u.i <= |md| && md[u.i..] == OpenText(name) && !SpaceAt(md, u.i - 1)
    requires Scanned(md, START) == Scanned(md, u)
    ensures Read(md) == Merged(u.ops + if u.buffer == "" then [] else [Op(u.buffer, [PairMark(name)])])
  {
    hide IsSpace, Toggled, Scanned, Read, Merged, HasContent, OpenText, InCode, Get, SpaceAt;
    var d := OpenText(name);
    OneMarkOpen(u, name);
    assert d + "" == d;
    ClosesHere(md, u, name, "");
    var e := Toggled(u, name, |d|);
    ClosedOuter(u, name, |d|);
    AtEnd(md, e);
    FlushedNothing(e);
    ReadEnds(md, e);
  }

  lemma {:induction false} FlushedNothing(s: Scan)
    requires s.buffer == ""
    ensures Flushed(s) == s
  {
  }

  lemma {:induction false} ContentThere(u: Scan, name: string)
    requires u.buffer != "" || (name in u.since && u.since[name] > 0)
    ensures HasContent(u, name)
  {
  }

  lemma {:induction false} LastIsNoSpace(name: string, md: string, z: string)
    requires EndsWell(name, z) && |md| > |OpenText(name)| && md[|md| - |OpenText(name)| - 1] == z[|z| - 1]
    ensures !SpaceAt(md, |md| - |OpenText(name)| - 1)
  {
    hide IsSpace, Carries;
  }

  lemma {:induction false} OneMarkOpen(s: Scan, name: string)
    requires Paired(name) && s.marks == [PairMark(name)]
    ensures Get(s.marks, name).Some? && !InCode(s)
  {
    assert s.marks[1..] == [];
    assert Get(s.marks, "inlineCode") == Get([], "inlineCode") == None;
  }

  lemma {:induction false} ClosedOuter(s: Scan, name: string, len: nat)
    requires s.marks == [PairMark(name)]
    ensures var v := Toggled(s, name, len);
      && v.ops == s.ops + (if s.buffer == "" then [] else [Op(s.buffer, s.marks)])
      && v.marks == [] && v.buffer == "" && v.i == s.i + len
  {
    hide Counted;
    assert s.marks[1..] == [] && Without([], name) == [];
    assert Get(s.marks, name).Some? && Without(s.marks, name) == [];
    assert s.ops + [] == s.ops;
  }

  // ----- a link in the middle

  /** A run that ends inside a text ends there whatever follows the text. */
  lemma {:induction false} TokensAppend(x: string, y: string, from: nat, stop: char)
    requires from <= |x| && TokensEnd(x, from, stop) < |x| && x[TokensEnd(x, from, stop)] == stop
    ensures TokensEnd(x + y, from, stop) == TokensEnd(x, from, stop)
    decreases |x| - from
  {
    hide LineEnd;
    assert (x + y)[from] == x[from];
    if x[from] != stop {
      if x[from] != '\\' {
        TokensAppend(x, y, from + 1, stop);
      } else if from + 1 < |x| && !LineEnd(x[from + 1]) {
        assert (x + y)[from + 1] == x[from + 1];
        TokensAppend(x, y, from + 2, stop);
      }
    }
  }

  lemma {:induction false} AddressAppend(x: string, y: string, from: nat)
    requires from <= |x| && AddressEnd(x, from) < |x|
    ensures AddressEnd(x + y, from) == AddressEnd(x, from)
    decreases |x| - from
  {
    hide IsSpace;
    assert (x + y)[from] == x[from];
    if x[from] != ')' && !IsSpace(x[from]) {
      AddressAppend(x, y, from + 1);
    }
  }

  lemma {:induction false} SpacesAppend(x: string, y: string, from: nat)
    requires from <= |x| && SpacesEnd(x, from) < |x|
    ensures SpacesEnd(x + y, from) == SpacesEnd(x, from)
    decreases |x| - from
  {
    hide IsSpace;
    assert (x + y)[from] == x[from];
    if IsSpace(x[from]) {
      SpacesAppend(x, y, from + 1);
    }
  }

  lemma {:induction false} TargetAppend(x: string, y: string, inner: string, from: nat)
    requires from <= |x| && MatchTarget(x, inner, from).Some?
    ensures MatchTarget(x + y, inner, from) == MatchTarget(x, inner, from)
  {
    hide IsSpace, TokensEnd, AddressEnd, SpacesEnd, UnescapeQuotes, Address;
    var h := AddressEnd(x, from);
    AddressAppend(x, y, from);
    assert (x + y)[h] == x[h] && (x + y)[from..h] == x[from..h];
    if x[h] != ')' {
      var q := SpacesEnd(x, h);
      SpacesAppend(x, y, h);
      assert (x + y)[q] == x[q];
      var t := TokensEnd(x, q + 1, '"');
      TokensAppend(x, y, q + 1, '"');
      assert (x + y)[t] == x[t] && (x + y)[t + 1] == x[t + 1] && (x + y)[q + 1..t] == x[q + 1..t];
    }
  }

  /** A link that was found is found whatever follows. */
  lemma {:induction false} LinkAppend(x: string, y: string)
    requires MatchLink(x).Some?
    ensures MatchLink(x + y) == MatchLink(x)
  {
    hide TokensEnd, MatchTarget, Address;
    var e := TokensEnd(x, 1, ']');
    TokensAppend(x, y, 1, ']');
    assert (x + y)[0] == x[0] && (x + y)[e] == x[e] && (x + y)[e + 1] == x[e + 1] && (x + y)[1..e] == x[1..e];
    TargetAppend(x, y, x[1..e], e + 2);
  }

  /** A written link is taken under the marks open around it. */
  lemma {:induction false} LinkPasses(
      markdown: string, s: Scan, t: string, href: string, title: Option<string>, rest: string)
    requires s.i <= |markdown| && markdown[s.i..] == LinkText(t, href, title) + rest && !InCode(s)
    requires t != "" && Address(href) && Quotable(title)
    ensures var link := Link(Escape(t), href, title, |LinkText(t, href, title)|);
      s.i + link.length <= |markdown| && Scanned(markdown, s) == Scanned(markdown, LinkTaken(s, link, [Op(t, [])]))
  {
    hide InCode, LinkText, Address, Quotable, MatchLink, LinkTaken, Read, Escape, Stepped;
    WrittenLinkMatches(t, href, title);
    LinkAppend(LinkText(t, href, title), rest);
    LinkStarts(t, href, title);
    assert markdown[s.i] == markdown[s.i..][0] == '[';
    ReadEscaped(t);
    Unfold(markdown, s);
  }

  lemma {:induction false} LinkStarts(t: string, href: string, title: Option<string>)
    ensures LinkText(t, href, title) != "" && LinkText(t, href, title)[0] == '['
  {
    hide Escape, CloseText;
  }

  lemma {:induction false} LinkEnds(t: string, href: string, title: Option<string>)
    requires Quotable(title)
    ensures var x := LinkText(t, href, title); x != "" && x[|x| - 1] == ')'
  {
    hide Escape, EscapeQuotes, Quotable, CloseText;
    LinkTextIs(t, href, title);
    var target := TargetText(href, title);
    assert target[|target| - 1] == ')';
    var x := "[" + Escape(t) + "](";
    assert (x + target)[|x| + |target| - 1] == target[|target| - 1];
  }

  lemma {:induction false} ParenthesisEnds(name: string, z: string)
    requires Paired(name) && z != "" && z[|z| - 1] == ')'
    ensures EndsWell(name, z)
  {
  }

  /** The state after a link in the middle. */
  lemma {:induction false} LinkTakenIs(s: Scan, link: Link, t: string, mark: Field)
    requires s.marks == [mark] && mark.name != "link" && s.ops == [] && s.buffer != ""
    ensures var l := LinkMark(link.href, link.title);
      var u := LinkTaken(s, link, [Op(t, [])]);
      && u.ops == [Op(s.buffer, [mark]), Op(t, [mark, l])] && u.marks == [mark] && u.buffer == ""
      && u.i == s.i + link.length && mark.name in u.since && u.since[mark.name] > 0
  {
    hide Flushed;
    FlushedIs(s);
    var l := LinkMark(link.href, link.title);
    UnderOneMark(mark, l);
    assert Linked([Op(t, [])], [mark], l) == [Op(t, [mark, l])];
    assert [Op(s.buffer, [mark])] + [Op(t, [mark, l])] == [Op(s.buffer, [mark]), Op(t, [mark, l])];
    assert mark in s.marks;
  }

  lemma {:induction false} UnderOneMark(mark: Field, l: Field)
    requires mark.name != l.name
    ensures Put(Spread([mark], []), l) == [mark, l]
  {
    assert [mark][1..] == [];
  }

  lemma {:induction false} MergedApart(ops: seq<Op>)
    requires NeighboursDiffer(ops)
    ensures Merged(ops) == ops
    decreases |ops|
  {
    if ops != [] {
      MergedApart(ops[..|ops| - 1]);
      assert ops == ops[..|ops| - 1] + [ops[|ops| - 1]];
    }
  }

  lemma {:induction false} MergedThree(a: string, b: string, c: string, m: Field, n: Field)
    ensures var ops := [Op(a, [m]), Op(b, [m, n])] + if c == "" then [] else [Op(c, [m])];
      Merged(ops) == ops
  {
    hide Merged;
    var ops := [Op(a, [m]), Op(b, [m, n])] + if c == "" then [] else [Op(c, [m])];
    assert NeighboursDiffer(ops);
    MergedApart(ops);
  }

  /**
    A link inside a mark is read under both: text, link and text under a bold, emphasised or struck mark come back
    with the mark on all three and the link on the middle one.
   */
  lemma {:induction false} LinkInsideMarkIsRead(
      name: string, a: string, t: string, href: string, title: Option<string>, c: string)
    requires Paired(name) && a != "" && !IsSpace(a[0]) && (c != "" ==> EndsWell(name, c))
    requires t != "" && Address(href) && Quotable(title)
    ensures var m, l := PairMark(name), LinkMark(href, title);
      Read(Around(name, a, LinkText(t, href, title), c))
        == [Op(a, [m]), Op(t, [m, l])] + if c == "" then [] else [Op(c, [m])]
  {
    hide Escape, IsSpace, Around, LinkText, Address, Quotable, LinkTaken, Read, Merged, InCode, Scanned, EndsWell;
    hide OpenText, Get, LinkValue;
    var m, l, mid := PairMark(name), LinkMark(href, title), LinkText(t, href, title);
    var md := Around(name, a, mid, c);
    LinkEnds(t, href, title);
    ParenthesisEnds(name, mid);
    OuterOpens(name, a, mid, c);
    AroundPlaces(name, a, mid, c);
    var s := Scan([], [m], a, map[name := 0], |OpenText(name)| + |Escape(a)|);
    OneMarkOpen(s, name);
    LinkPasses(md, s, t, href, title, Escape(c) + OpenText(name));
    var link := Link(Escape(t), href, title, |mid|);
    LinkTakenIs(s, link, t, m);
    var u := LinkTaken(s, link, [Op(t, [])]);
    OuterCloses(name, a, mid, c, u);
    MergedThree(a, t, c, m, l);
  }

  /** Without text before it, the link opens nothing that the delimiter could not open. */
  lemma {:induction false} FirstOpens(name: string, mid: string, c: string)
    requires Paired(name) && mid != "" && mid[0] == '[' && EndsWell(name, Last(mid, c))
    ensures var md, d := Around(name, "", mid, c), |OpenText(name)|;
      Scanned(md, START) == Scanned(md, Scan([], [PairMark(name)], "", map[name := 0], d))
  {
    hide Escape, IsSpace, Around, Passed, Toggled, Closer, Closable, OccursAt, Carries, EndsWell, OpenText, InCode, Get;
    hide Scanned, Special;
    var md, d := Around(name, "", mid, c), OpenText(name);
    AroundPlaces(name, "", mid, c);
    Delimiters(name);
    NothingEscaped();
    AroundCloser(name, "", mid, c);
    BracketIsNoSpace();
    NothingOpenAtStart(name);
    var y := "" + mid + Escape(c) + d;
    assert y[0] == mid[0];
    OpensHere(md, START, name, y);
    ToggledFromStart(name, |d|);
  }

  lemma {:induction false} NothingOpenAtStart(name: string)
    ensures !InCode(START) && Get(START.marks, name).None?
  {
  }

  lemma {:induction false} BracketIsNoSpace()
    ensures !IsSpace('[')
  {
  }

  /** The state after a link that comes first. */
  lemma {:induction false} FirstLinkTakenIs(s: Scan, link: Link, t: string, mark: Field)
    requires s.marks == [mark] && mark.name != "link" && s.ops == [] && s.buffer == ""
    ensures var l := LinkMark(link.href, link.title);
      LinkTaken(s, link, [Op(t, [])]) == s.(ops := [Op(t, [mark, l])], i := s.i + link.length)
  {
    var l := LinkMark(link.href, link.title);
    UnderOneMark(mark, l);
    assert Linked([Op(t, [])], [mark], l) == [Op(t, [mark, l])];
    assert [] + [Op(t, [mark, l])] == [Op(t, [mark, l])];
  }

  /** A delimiter that closes nothing, at the end, is characters. */
  lemma {:induction false} EndIsCharacters(md: string, s: Scan, name: string)
    requires Paired(name) && s.i <= |md| && md[s.i..] == OpenText(name) && s.buffer == ""
    requires s.marks == [PairMark(name)] && name in s.since && s.since[name] == 0
    ensures Scanned(md, s) == s.(buffer := OpenText(name), i := |md|)
  {
    hide OpenText, Scanned, InCode, Taken;
    var d := OpenText(name);
    Delimiters(name);
    assert d + "" == d;
    After(md, s.i, d, "");
    LastIsCharacter(md, s, name);
    var u := Taken(s, [d[0]], 1);
    TakenIs(s, [d[0]]);
    if |d| == 2 {
      LastIsCharacter(md, u, name);
      TakenIs(u, [d[1]]);
      assert "" + [d[0]] + [d[1]] == d;
      AtEnd(md, Taken(u, [d[1]], 1));
    } else {
      assert "" + [d[0]] == d;
      AtEnd(md, u);
    }
  }

  lemma {:induction false} TakenIs(s: Scan, text: string)
    ensures forall len :: Taken(s, text, len) == s.(buffer := s.buffer + text, i := s.i + len)
  {
  }

  /** The delimiter has nothing to close, or is only half there. */
  lemma {:induction false} LastIsCharacter(md: string, s: Scan, name: string)
    requires Paired(name) && s.marks == [PairMark(name)]
    requires s.i < |md| <= s.i + |OpenText(name)| && md[s.i] == OpenText(name)[0]
    requires s.i + |OpenText(name)| == |md| ==>
      md[|md| - 1] == md[s.i] && s.buffer == "" && name in s.since && s.since[name] == 0
    ensures Scanned(md, s) == Scanned(md, Taken(s, [md[s.i]], 1))
  {
    hide CanOpen, Get, IsSpace, Scanned, Passed;
    Delimiters(name);
    OneMarkOpen(s, name);
    OneMarkOnly(name);
    LastStarOpensNothing(md, s.i, name);
    LastTaken(md, s, name);
    TakeStep(md, s);
    Unfold(md, s);
  }

  lemma {:induction false} LastTaken(md: string, s: Scan, name: string)
    requires Paired(name) && s.marks == [PairMark(name)]
    requires s.i < |md| <= s.i + |OpenText(name)| && md[s.i] == OpenText(name)[0]
    requires s.i + |OpenText(name)| == |md| ==>
      md[|md| - 1] == md[s.i] && s.buffer == "" && name in s.since && s.since[name] == 0
    requires !CanOpen(md, s.i, 1) && Get(s.marks, name).Some?
    requires forall other :: other != name ==> Get(s.marks, other).None?
    ensures Delimiter(md, s) == None
  {
    hide CanOpen, Get, IsSpace;
  }

  lemma {:induction false} OneMarkOnly(name: string)
    ensures forall other :: other != name ==> Get([PairMark(name)], other).None?
  {
    assert [PairMark(name)][1..] == [];
  }

  lemma {:induction false} LastStarOpensNothing(md: string, k: nat, name: string)
    requires k < |md| <= k + |OpenText(name)| && Paired(name)
    ensures !CanOpen(md, k, 1)
  {
    hide IndexOf;
    if k + 1 < |md| {
      NoIndex(md, md[k..k + 1], k + 2);
    }
  }

  /** A link alone inside a mark does not count as its text: the mark does not close, and its stars are characters. */
  lemma {:induction false} LinkAloneLosesItsMark(name: string, t: string, href: string, title: Option<string>)
    requires Paired(name) && t != "" && Address(href) && Quotable(title)
    ensures Read(Around(name, "", LinkText(t, href, title), ""))
         == [Op(t, [LinkMark(href, title)]), Op(OpenText(name), [])]
  {
    hide Escape, IsSpace, Around, LinkText, Address, Quotable, LinkTaken, Read, Merged, Carries, InCode, Cleaned;
    hide Flushed, Scanned, EndsWell, OpenText, Get, LinkValue;
    var m, l, mid, d := PairMark(name), LinkMark(href, title), LinkText(t, href, title), OpenText(name);
    var md := Around(name, "", mid, "");
    NothingEscaped();
    LinkStarts(t, href, title);
    LinkEnds(t, href, title);
    ParenthesisEnds(name, mid);
    FirstOpens(name, mid, "");
    AroundPlaces(name, "", mid, "");
    var s := Scan([], [m], "", map[name := 0], |d|);
    OneMarkOpen(s, name);
    LinkPasses(md, s, t, href, title, "" + d);
    var link := Link(Escape(t), href, title, |mid|);
    FirstLinkTakenIs(s, link, t, m);
    var u := LinkTaken(s, link, [Op(t, [])]);
    assert "" + d == d;
    AloneEnds(md, u, name, t, l);
  }

  lemma {:induction false} AloneEnds(md: string, u: Scan, name: string, t: string, l: Field)
    requires Paired(name) && l.name == "link" && u.i <= |md| && md[u.i..] == OpenText(name)
    requires u.ops == [Op(t, [PairMark(name), l])] && u.marks == [PairMark(name)] && u.buffer == ""
    requires u.since == map[name := 0] && Scanned(md, START) == Scanned(md, u)
    ensures Read(md) == [Op(t, [l]), Op(OpenText(name), [])]
  {
    hide IsSpace, Read, Merged, Cleaned, Flushed, Scanned, OpenText;
    var d := OpenText(name);
    EndIsCharacters(md, u, name);
    Delimiters(name);
    LostMarkIsCleaned(name, t, d, l);
    FlushedEnd(u.(buffer := d, i := |md|), t, PairMark(name), l);
    ReadIs(md);
  }

  lemma {:induction false} FlushedEnd(e: Scan, t: string, m: Field, l: Field)
    requires e.ops == [Op(t, [m, l])] && e.marks == [m] && e.buffer != ""
    ensures Flushed(e).ops == [Op(t, [m, l]), Op(e.buffer, [m])] && Flushed(e).marks == [m]
  {
    hide Counted;
    assert [Op(t, [m, l])] + [Op(e.buffer, [m])] == [Op(t, [m, l]), Op(e.buffer, [m])];
  }

  lemma {:induction false} ReadIs(md: string)
    ensures var f := Flushed(Scanned(md, START)); Read(md) == Merged(Cleaned(f.ops, f.marks))
  {
    hide Scanned, Merged, Cleaned, Flushed;
  }

  lemma {:induction false} LostMarkIsCleaned(name: string, t: string, d: string, l: Field)
    requires name != "link" && l.name == "link"
    ensures var m := PairMark(name);
      Merged(Cleaned([Op(t, [m, l]), Op(d, [m])], [m])) == [Op(t, [l]), Op(d, [])]
  {
    hide Merged;
    var m := PairMark(name);
    assert [m][1..] == [] && [m, l][1..] == [l] && [l][1..] == [];
    assert Without([l], name) == [l] + Without([], name) == [l];
    assert Without([m, l], name) == [] + Without([l], name) && Without([m], name) == [];
    assert WithoutAll([m, l], [m]) == WithoutAll([l], []) == [l] && WithoutAll([m], [m]) == [];
    var ops := [Op(t, [l]), Op(d, [])];
    assert Cleaned([Op(t, [m, l]), Op(d, [m])], [m]) == ops;
    MergedApart(ops);
  }

  /** With text after it, it does not need text before. */
  lemma {:induction false} FirstLinkIsRead(name: string, t: string, href: string, title: Option<string>, c: string)
    requires Paired(name) && c != "" && EndsWell(name, c) && t != "" && Address(href) && Quotable(title)
    ensures var m, l := PairMark(name), LinkMark(href, title);
      Read(Around(name, "", LinkText(t, href, title), c)) == [Op(t, [m, l]), Op(c, [m])]
  {
    hide Escape, IsSpace, Around, LinkText, Address, Quotable, LinkTaken, Read, Merged, Carries, InCode;
    var m, l, mid := PairMark(name), LinkMark(href, title), LinkText(t, href, title);
    var md := Around(name, "", mid, c);
    NothingEscaped();
    LinkStarts(t, href, title);
    FirstOpens(name, mid, c);
    AroundPlaces(name, "", mid, c);
    var s := Scan([], [m], "", map[name := 0], |OpenText(name)|);
    OneMarkOpen(s, name);
    LinkPasses(md, s, t, href, title, Escape(c) + OpenText(name));
    var link := Link(Escape(t), href, title, |mid|);
    FirstLinkTakenIs(s, link, t, m);
    OuterCloses(name, "", mid, c, LinkTaken(s, link, [Op(t, [])]));
    assert [Op(t, [m, l])] + [Op(c, [m])] == [Op(t, [m, l]), Op(c, [m])];
    MergedTwo(Op(t, [m, l]), Op(c, [m]));
  }

  /** So a link inside a mark comes back exactly when some other text stands beside it under the mark. */
  lemma {:induction false} LinkInsideMarkIsReadIff(
      name: string, a: string, t: string, href: string, title: Option<string>, c: string)
    requires Paired(name) && (a != "" ==> !IsSpace(a[0])) && (c != "" ==> EndsWell(name, c))
    requires t != "" && Address(href) && Quotable(title)
    ensures var m, l := PairMark(name), LinkMark(href, title);
      Read(Around(name, a, LinkText(t, href, title), c)) == (if a == "" then [] else [Op(a, [m])])
        + [Op(t, [m, l])] + (if c == "" then [] else [Op(c, [m])])
      <==> a != "" || c != ""
  {
    hide Escape, IsSpace, Around, LinkText, Address, Quotable, Read, EndsWell;
    var m, l := PairMark(name), LinkMark(href, title);
    if a != "" {
      LinkInsideMarkIsRead(name, a, t, href, title, c);
      assert [Op(a, [m])] + [Op(t, [m, l])] == [Op(a, [m]), Op(t, [m, l])];
    } else if c != "" {
      FirstLinkIsRead(name, t, href, title, c);
      assert [] + [Op(t, [m, l])] + [Op(c, [m])] == [Op(t, [m, l]), Op(c, [m])];
    } else {
      LinkAloneLosesItsMark(name, t, href, title);
    }
  }

  // ----- a mark in the middle

  /** The state after the inner mark opened. */
  lemma {:induction false} InnerOpened(s: Scan, outer: string, inner: string, len: nat)
    requires s.marks == [PairMark(outer)] && outer != inner && s.ops == [] && s.buffer != ""
    requires s.since == map[outer := 0]
    ensures var u := Toggled(s, inner, len);
      && u.ops == [Op(s.buffer, [PairMark(outer)])] && u.marks == [PairMark(outer), PairMark(inner)] && u.buffer == ""
      && u.i == s.i + len && outer in u.since && u.since[outer] > 0
  {
    hide Flushed;
    FlushedIs(s);
    assert s.marks[1..] == [] && Put([], PairMark(inner)) == [PairMark(inner)];
    assert Get(s.marks, inner).None?;
    assert Put(s.marks, PairMark(inner)) == [PairMark(outer), PairMark(inner)];
    assert PairMark(outer) in s.marks;
  }

  /** The state after the inner mark closed. */
  lemma {:induction false} InnerClosed(s: Scan, outer: string, inner: string, len: nat)
    requires s.marks == [PairMark(outer), PairMark(inner)] && outer != inner && s.buffer != ""
    ensures var u := Toggled(s, inner, len);
      && u.ops == s.ops + [Op(s.buffer, s.marks)] && u.marks == [PairMark(outer)] && u.buffer == ""
      && u.i == s.i + len && outer in u.since && u.since[outer] > 0
  {
    hide Flushed;
    FlushedIs(s);
    assert s.marks[1..] == [PairMark(inner)] && s.marks[1..][1..] == [];
    assert Get(s.marks[1..], inner).Some?;
    assert [PairMark(inner)][1..] == [] && Without([], inner) == [];
    assert Without([PairMark(inner)], inner) == [];
    assert Without(s.marks, inner) == [PairMark(outer)] + Without([PairMark(inner)], inner) == [PairMark(outer)];
    assert PairMark(outer) in s.marks;
  }

  lemma {:induction false} TwoMarksOpen(s: Scan, outer: string, inner: string)
    requires Paired(outer) && Paired(inner) && outer != inner && s.marks == [PairMark(outer), PairMark(inner)]
    ensures Get(s.marks, inner).Some? && Get(s.marks, outer).Some? && !InCode(s)
  {
    assert s.marks[1..] == [PairMark(inner)] && s.marks[1..][1..] == [];
    assert Get(s.marks[1..], inner).Some?;
    assert Get(s.marks[1..], "inlineCode") == Get([], "inlineCode") == None;
  }

  lemma {:induction false} OtherMarkClosed(s: Scan, outer: string, inner: string)
    requires s.marks == [PairMark(outer)] && outer != inner
    ensures Get(s.marks, inner).None?
  {
    assert s.marks[1..] == [];
  }

  /** What the middle is, and what follows it, place by place. */
  lemma {:induction false} MiddlePlaces(md: string, at: nat, inner: string, b: string, rest: string)
    requires at <= |md| && md[at..] == MarkText(inner, b) + rest && Paired(inner) && IsCore(b)
    ensures var d, e := OpenText(inner), Escape(b);
      && e != "" && !IsSpace(e[0]) && e[0] != '*' && e[0] != '~'
      && md[at..] == d + (e + d + rest)
      && at + |d| + |e| + |d| <= |md|
      && md[at + |d|..] == e + (d + rest) && md[at + |d| + |e|..] == d + rest
      && md[at + |d| + |e| - 1] == b[|b| - 1]
  {
    hide Escape, IsSpace, Special, OpenText;
    var d, e := OpenText(inner), Escape(b);
    EscapeEnds(b);
    FirstCharacters(b[0], e[0]);
    assert d + e + d + rest == d + (e + d + rest) && e + d + rest == e + (d + rest);
    After(md, at, d, e + d + rest);
    After(md, at + |d|, e, d + rest);
    assert md[at + |d| + (|e| - 1)] == e[|e| - 1];
  }

  /** The closing delimiter of the middle is one the search cannot step over. */
  lemma {:induction false} InnerCloser(md: string, inner: string, b: string, from: nat, k: nat, rest: string)
    requires Paired(inner) && IsCore(b) && Carries(inner, b) && 0 < k && from <= k <= |md|
    requires md[k..] == OpenText(inner) + rest && md[k - 1] == b[|b| - 1]
    ensures Closer(md, OpenText(inner), from)
  {
    hide Closer, IsSpace;
    var d := OpenText(inner);
    Delimiters(inner);
    MarkdownRoundTrip.Core(b);
    After(md, k, d, rest);
    assert md[k..k + |d|] == d;
    if |d| == 2 {
      OccursPair(md, d[0], k - 1);
    }
    CloserAt(md, d, from, k);
  }

  /** A mark in the middle is taken, unless a star directly after it would be read with its own. */
  lemma {:induction false} MarkPasses(
      md: string, s: Scan, outer: string, inner: string, b: string, rest: string) returns (t: Scan)
    requires Paired(outer) && Paired(inner) && outer != inner && IsCore(b) && Carries(inner, b)
    requires s.marks == [PairMark(outer)] && s.ops == [] && s.buffer != "" && s.since == map[outer := 0]
    requires s.i <= |md| && md[s.i..] == MarkText(inner, b) + rest
    requires inner == "em" ==> rest == "" || rest[0] != '*'
    ensures t.ops == [Op(s.buffer, [PairMark(outer)]), Op(b, [PairMark(outer), PairMark(inner)])]
    ensures t.marks == [PairMark(outer)] && t.buffer == "" && t.i == s.i + |MarkText(inner, b)|
    ensures outer in t.since && t.since[outer] > 0
    ensures Scanned(md, s) == Scanned(md, t)
  {
    hide Escape, IsSpace, Passed, Toggled, Carries, Scanned, InCode, Get, HasContent, OpenText, Closer, MarkText;
    var d, e := OpenText(inner), Escape(b);
    assert MarkText(inner, b) == d + e + d by { MarkTextIs(inner, b); }
    MiddlePlaces(md, s.i, inner, b, rest);
    OneMarkOpen(s, outer);
    OtherMarkClosed(s, outer, inner);
    InnerCloser(md, inner, b, s.i + |d| + 1, s.i + |d| + |e|, rest);
    OpensHere(md, s, inner, e + d + rest);
    var u := Toggled(s, inner, |d|);
    InnerOpened(s, outer, inner, |d|);
    TwoMarksOpen(u, outer, inner);
    PassEscaped(md, u, b, d + rest);
    var v := Taken(u, b, |e|);
    assert "" + b == b;
    TwoMarksOpen(v, outer, inner);
    BufferIsContent(v, inner);
    CoreEnds(md, v.i, b);
    ClosesHere(md, v, inner, rest);
    t := Toggled(v, inner, |d|);
    InnerClosed(v, outer, inner, |d|);
  }

  lemma {:induction false} MarkTextIs(name: string, b: string)
    ensures MarkText(name, b) == OpenText(name) + Escape(b) + OpenText(name)
  {
  }

  lemma {:induction false} BufferIsContent(s: Scan, name: string)
    requires s.buffer != ""
    ensures HasContent(s, name)
  {
  }

  lemma {:induction false} CoreEnds(md: string, k: nat, b: string)
    requires IsCore(b) && 0 < k <= |md| && md[k - 1] == b[|b| - 1]
    ensures !SpaceAt(md, k - 1)
  {
    hide IsSpace;
  }

  lemma {:induction false} MarkTextEnds(name: string, b: string)
    requires Paired(name)
    ensures var x := MarkText(name, b); x != "" && x[|x| - 1] == OpenText(name)[0]
  {
    hide Escape;
    Delimiters(name);
  }

  lemma {:induction false} DelimiterEnds(outer: string, inner: string, z: string)
    requires Paired(outer) && Paired(inner) && outer != inner && z != "" && z[|z| - 1] == OpenText(inner)[0]
    ensures EndsWell(outer, z) <==> !(outer == "strong" && inner == "em")
  {
    Delimiters(inner);
  }

  lemma {:induction false} RestStarts(outer: string, c: string)
    requires Paired(outer)
    ensures var r := Escape(c) + OpenText(outer);
      r != "" && (c != "" || outer == "strikethrough" ==> r[0] != '*')
  {
    hide Escape;
    Delimiters(outer);
    if c != "" {
      EscapeEnds(c);
      assert Special('*');
    } else {
      NothingEscaped();
    }
  }

  /**
    A mark inside another: bold, emphasised and struck text nest in one another, with text before and after under the
    outer mark alone. Bold with emphasis directly before its end has three stars in a row, see MarkdownTraces.
   */
  lemma {:induction false} MarkInsideMarkIsRead(outer: string, inner: string, a: string, b: string, c: string)
    requires Paired(outer) && Paired(inner) && outer != inner
    requires a != "" && !IsSpace(a[0]) && IsCore(b) && Carries(inner, b)
    requires if c != "" then EndsWell(outer, c) else !(outer == "strong" && inner == "em")
    ensures var m, n := PairMark(outer), PairMark(inner);
      Read(Around(outer, a, MarkText(inner, b), c)) == [Op(a, [m]), Op(b, [m, n])] + if c == "" then []
        else [Op(c, [m])]
  {
    hide Escape, IsSpace, Around, MarkText, Read, Merged, Carries, Scanned, EndsWell, OpenText, InCode, Get;
    var m, n, mid := PairMark(outer), PairMark(inner), MarkText(inner, b);
    var md := Around(outer, a, mid, c);
    MarkTextEnds(inner, b);
    DelimiterEnds(outer, inner, mid);
    OuterOpens(outer, a, mid, c);
    AroundPlaces(outer, a, mid, c);
    RestStarts(outer, c);
    var s := Scan([], [m], a, map[outer := 0], |OpenText(outer)| + |Escape(a)|);
    var t := MarkPasses(md, s, outer, inner, b, Escape(c) + OpenText(outer));
    OuterCloses(outer, a, mid, c, t);
    MergedThree(a, b, c, m, n);
  }
}
