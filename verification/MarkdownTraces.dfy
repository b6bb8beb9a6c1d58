/**
  Any number of ops under any of bold, emphasis, strikethrough and code, written and read back
  (packages/core/src/doc/inlineMarkdown.ts).

  The law is first about traces: a trace whose delimiters stand where the reader takes them is read as each of its
  letters under the marks open there. Then it is shown which ops have such a trace.
 */
module MarkdownTraces {
  import opened Common
  import opened Markdown
  import opened MarkdownReader
  import opened MarkdownTheorems
  import opened MarkdownRoundTrip
  import opened MarkdownCode
  import opened MarkdownNesting

  const STRONG: Field := PairMark("strong")
  const EM: Field := PairMark("em")

  predicate Known(m: Field) {
    (Paired(m.name) || m.name == "inlineCode") && m.value == Object([])
  }

  // ----- what a trace says

  function Then(e: Event, open: seq<Field>): seq<Field> {
    match e
    case Opened(m) => open + [m]
    case Closed(_) => if open == [] then [] else open[..|open| - 1]
    case _ => open
  }

  /** The letters of a trace, each with the marks open where it is written. */
  function Texts(t: seq<Event>, open: seq<Field>): seq<Letter> {
    if t == [] then [] else Letters(WordsOf(t[0]), open) + Texts(t[1..], Then(t[0], open))
  }

  // ----- traces the reader follows

  predicate CodeOpen(open: seq<Field>) {
    Get(open, "inlineCode").Some?
  }

  predicate Starred(text: string) {
    text != "" && text[0] == '*'
  }

  /** An event that writes something, and something other than white space or a closing delimiter. */
  predicate Begins(t: seq<Event>) {
    t != [] && (t[0].Opened? || (t[0].Core? && t[0].text != ""))
  }

  /** Emphasis and bold end together, which is written with three stars. */
  predicate EndsBoth(t: seq<Event>) {
    |t| > 1 && t[0] == Closed(EM) && t[1] == Closed(STRONG)
  }

  /** Emphasis ends where bold begins, which is written with three stars as well. */
  predicate Crosses(t: seq<Event>) {
    |t| > 2 && t[0] == Closed(EM) && t[1] == Space("") && t[2] == Opened(STRONG)
  }

  /** May the first event stand after this text, under these marks? */
  ghost predicate Placed(before: string, t: seq<Event>, open: seq<Field>)
    requires t != []
  {
    var rest := Render(t[1..]);
    match t[0]
    case Opened(m) =>
      && Known(m) && !CodeOpen(open) && Get(open, m.name).None? && Begins(t[1..])
      && rest != "" && !IsSpace(rest[0]) && (m.name == "em" ==> rest[0] != '*')
    case Closed(m) =>
      && Known(m) && open != [] && open[|open| - 1] == m && Get(open[..|open| - 1], m.name).None?
      && (m.name != "inlineCode" ==> !CodeOpen(open) && EndsWell(m.name, before))
      && (m.name == "em" ==> !Starred(rest))
    case Core(text, code) =>
      text != "" && code == CodeOpen(open) && (code ==> '\\' !in text && '`' !in text)
    case Space(text) => Blank(text)
  }

  /** A trace with every delimiter where the reader takes it for what it is. */
  ghost predicate Clear(before: string, t: seq<Event>, open: seq<Field>)
    decreases |t|
  {
    if t == [] then open == []
    else if EndsBoth(t) then
      && open == [STRONG, EM] && EndsWell("strong", before) && !Starred(Render(t[2..]))
      && Clear(before + "***", t[2..], [])
    else if Crosses(t) then
      && open == [EM] && EndsWell("em", before) && Begins(t[3..])
      && Clear(before + "***", t[3..], [STRONG])
    else Placed(before, t, open) && Clear(before + EventText(t[0]), t[1..], Then(t[0], open))
  }

  // ----- closing delimiters come

  lemma {:induction false} KnownTexts(m: Field)
    requires Known(m)
    ensures var d := OpenText(m.name);
      && EventText(Opened(m)) == d && EventText(Closed(m)) == d && 1 <= |d| <= 2
        && (Paired(m.name) ==> m == PairMark(m.name))
  {
  }

  lemma {:induction false} RenderHead(t: seq<Event>)
    requires t != []
    ensures Render(t) == EventText(t[0]) + Render(t[1..])
  {
  }

  /** The text after the first event. */
  lemma {:induction false} PastEvent(md: string, i: nat, t: seq<Event>)
    requires i <= |md| && md[i..] == Render(t) && t != []
    ensures var x := EventText(t[0]);
      && i + |x| <= |md| && md[i..] == x + Render(t[1..]) && md[i + |x|..] == Render(t[1..])
      && md[..i + |x|] == md[..i] + x
  {
    hide Render, EventText;
    RenderHead(t);
    var x := EventText(t[0]);
    After(md, i, x, Render(t[1..]));
    assert md[i..i + |x|] == x;
    assert md[..i + |x|] == md[..i] + md[i..i + |x|];
  }

  lemma {:induction false} PastBoth(md: string, i: nat, t: seq<Event>)
    requires i <= |md| && md[i..] == Render(t) && EndsBoth(t)
    ensures md[i..] == "***" + Render(t[2..]) && i + 3 <= |md| && md[i + 3..] == Render(t[2..])
    ensures md[..i + 3] == md[..i] + "***"
  {
    hide Render;
    PastEvent(md, i, t);
    assert EventText(t[0]) == "*" && EventText(t[1]) == "**";
    PastEvent(md, i + 1, t[1..]);
    assert t[1..][0] == t[1] && t[1..][1..] == t[2..];
    assert md[i..] == "*" + ("**" + Render(t[2..])) == "***" + Render(t[2..]);
    assert md[..i] + "*" + "**" == md[..i] + "***";
  }

  lemma {:induction false} PastCross(md: string, i: nat, t: seq<Event>)
    requires i <= |md| && md[i..] == Render(t) && Crosses(t)
    ensures md[i..] == "***" + Render(t[3..]) && i + 3 <= |md| && md[i + 3..] == Render(t[3..])
    ensures md[..i + 3] == md[..i] + "***"
  {
    hide Render;
    PastEvent(md, i, t);
    assert EventText(t[0]) == "*" && EventText(t[1]) == "" && EventText(t[2]) == "**";
    var u := t[1..];
    assert u[0] == t[1] && u[1..] == t[2..] && t[2..][0] == t[2] && t[2..][1..] == t[3..];
    PastEvent(md, i + 1, u);
    PastEvent(md, i + 1, t[2..]);
    assert md[i..] == "*" + ("**" + Render(t[3..])) == "***" + Render(t[3..]);
    assert md[..i] + "*" + "" + "**" == md[..i] + "***";
  }

  /** A delimiter that ends its mark is one the search for it cannot step over. */
  lemma {:induction false} ClosingPlace(md: string, k: nat, name: string, rest: string)
    requires Paired(name) && k <= |md| && md[k..] == OpenText(name) + rest && EndsWell(name, md[..k])
    ensures OccursAt(md, OpenText(name), k) && Closable(md, k)
    ensures |OpenText(name)| == 2 && k > 0 ==> !OccursAt(md, OpenText(name), k - 1)
  {
    hide IsSpace;
    var d := OpenText(name);
    Delimiters(name);
    After(md, k, d, rest);
    assert md[k..k + |d|] == d;
    assert md[..k][k - 1] == md[k - 1];
    if |d| == 2 {
      OccursPair(md, d[0], k - 1);
    }
  }

  lemma {:induction false} BeginsLong(t: seq<Event>, before: string, open: seq<Field>)
    requires Begins(t) && !EndsBoth(t) && Placed(before, t, open)
    ensures EventText(t[0]) != ""
  {
    hide Escape, Render;
    if t[0].Opened? {
      KnownTexts(t[0].mark);
    } else if !t[0].code {
      EscapeEnds(t[0].text);
    }
  }

  ghost predicate ClosesAt(md: string, name: string, k: nat) {
    && OccursAt(md, OpenText(name), k)
    && (Paired(name) ==> Closable(md, k) && (|OpenText(name)| == 2 && k > 0 ==> !OccursAt(md, OpenText(name), k - 1)))
  }

  /** A mark that is open is closed later, where the search for its delimiter finds it. */
  lemma {:induction false} CloseComes(md: string, i: nat, t: seq<Event>, open: seq<Field>, m: Field) returns (k: nat)
    requires i <= |md| && md[i..] == Render(t) && Clear(md[..i], t, open) && m in open && Known(m)
    ensures i <= k && (Begins(t) ==> i < k) && ClosesAt(md, m.name, k)
    decreases |t|
  {
    hide Render, EventText, Placed, OccursAt, Closable, EndsWell, CodeOpen, ClosesAt;
    if EndsBoth(t) {
      PastBoth(md, i, t);
      k := i;
      BothPlaces(md, i, Render(t[2..]));
    } else if Crosses(t) {
      PastCross(md, i, t);
      k := i;
      CrossPlace(md, i, Render(t[3..]));
    } else if t[0] == Closed(m) {
      PastEvent(md, i, t);
      k := i;
      OnePlace(md, i, t, open, m);
    } else {
      PastEvent(md, i, t);
      if Begins(t) {
        BeginsLong(t, md[..i], open);
      }
      OthersStay(md[..i], t, open, m);
      k := CloseComes(md, i + |EventText(t[0])|, t[1..], Then(t[0], open), m);
    }
  }

  lemma {:induction false} OthersStay(before: string, t: seq<Event>, open: seq<Field>, m: Field)
    requires t != [] && Placed(before, t, open) && t[0] != Closed(m) && m in open
    ensures m in Then(t[0], open)
  {
    hide Render, CodeOpen, EndsWell;
    if t[0].Closed? {
      assert open == open[..|open| - 1] + [open[|open| - 1]];
    }
  }

  lemma {:induction false} OnePlace(md: string, k: nat, t: seq<Event>, open: seq<Field>, m: Field)
    requires k <= |md| && t != [] && md[k..] == EventText(t[0]) + Render(t[1..])
    requires t[0] == Closed(m) && Known(m) && Placed(md[..k], t, open)
    ensures ClosesAt(md, m.name, k)
  {
    hide Render, Closable, EndsWell, EventText, CodeOpen, OccursAt;
    KnownTexts(m);
    if Paired(m.name) {
      ClosingPlace(md, k, m.name, Render(t[1..]));
    } else {
      After(md, k, "`", Render(t[1..]));
      BacktickAt(md, k);
    }
  }

  lemma {:induction false} BacktickAt(md: string, k: nat)
    ensures OccursAt(md, "`", k) <==> k < |md| && md[k] == '`'
  {
    if k < |md| {
      assert md[k..k + 1] == [md[k]];
    }
  }

  lemma {:induction false} CrossPlace(md: string, k: nat, rest: string)
    requires k <= |md| && md[k..] == "***" + rest && EndsWell("em", md[..k])
    ensures ClosesAt(md, "em", k)
  {
    hide OccursAt, Closable, IsSpace;
    assert "***" + rest == "*" + ("**" + rest);
    ClosingPlace(md, k, "em", "**" + rest);
  }

  lemma {:induction false} BothPlaces(md: string, k: nat, rest: string)
    requires k <= |md| && md[k..] == "***" + rest && EndsWell("strong", md[..k])
    ensures ClosesAt(md, "strong", k) && ClosesAt(md, "em", k)
  {
    hide OccursAt, Closable, IsSpace;
    assert "***" + rest == "**" + ("*" + rest) && "***" + rest == "*" + ("**" + rest);
    ClosingPlace(md, k, "strong", "*" + rest);
    ClosingPlace(md, k, "em", "**" + rest);
  }

  // ----- what is read so far

  /** The letters taken so far, each with its marks. */
  function Heard(s: Scan): seq<Letter> {
    Spelled(s.ops) + Letters(s.buffer, s.marks)
  }

  /** Every open mark has text, so its delimiter can close it. */
  ghost predicate Filled(s: Scan) {
    s.buffer != "" || forall m <- s.marks :: m.name in s.since && s.since[m.name] > 0
  }

  lemma {:induction false} LettersAppend(a: string, b: string, marks: seq<Field>)
    ensures Letters(a + b, marks) == Letters(a, marks) + Letters(b, marks)
    ensures Letters("", marks) == []
  {
  }

  lemma {:induction false} TakenHeard(s: Scan, text: string, len: nat)
    ensures Heard(Taken(s, text, len)) == Heard(s) + Letters(text, s.marks)
    ensures text != "" || Filled(s) ==> Filled(Taken(s, text, len))
  {
    hide Letters, Spelled;
    LettersAppend(s.buffer, text, s.marks);
  }

  lemma {:induction false} FlushedHeard(s: Scan)
    ensures Spelled(Flushed(s).ops) == Heard(s)
    ensures Flushed(s).marks == s.marks && Flushed(s).i == s.i && Flushed(s).buffer == ""
  {
    hide Letters, Spelled, Counted;
    LettersAppend("", "", s.marks);
    if s.buffer != "" {
      SpelledAppend(s.ops, Op(s.buffer, s.marks));
    }
  }

  lemma {:induction false} ToggledHeard(s: Scan, name: string, len: nat)
    ensures var u := Toggled(s, name, len);
      && Heard(u) == Heard(s) && u.i == s.i + len && u.buffer == ""
      && u.marks == if Get(s.marks, name).Some? then Without(s.marks, name) else Put(s.marks, PairMark(name))
  {
    hide Letters, Spelled, Flushed, Get, Without, Put;
    FlushedHeard(s);
    LettersAppend("", "", Toggled(s, name, len).marks);
  }

  lemma {:induction false} PutNew(fields: seq<Field>, f: Field)
    requires Get(fields, f.name).None?
    ensures Put(fields, f) == fields + [f]
  {
    if fields != [] {
      PutNew(fields[1..], f);
    }
  }

  /** Removing the mark opened last. */
  lemma {:induction false} WithoutLast(fields: seq<Field>, name: string)
    requires fields != [] && fields[|fields| - 1].name == name && Get(fields[..|fields| - 1], name).None?
    ensures Without(fields, name) == fields[..|fields| - 1] && Get(fields, name).Some?
  {
    if |fields| > 1 {
      assert fields[1..][..|fields| - 2] == fields[..|fields| - 1][1..];
      WithoutLast(fields[1..], name);
      assert fields[..|fields| - 1] == [fields[0]] + fields[1..][..|fields| - 2];
    }
  }

  lemma {:induction false} GetLast(fields: seq<Field>, name: string)
    ensures var n := |fields|;
      n > 0 && fields[n - 1].name != name ==> Get(fields, name) == Get(fields[..n - 1], name)
  {
    if |fields| > 1 {
      assert fields[1..][..|fields| - 2] == fields[..|fields| - 1][1..];
      GetLast(fields[1..], name);
    }
  }

  /** When a mark has closed, the marks still open have text. */
  lemma {:induction false} ClosedFilled(s: Scan, name: string, len: nat)
    requires Filled(s) && Get(s.marks, name).Some?
    ensures Filled(Toggled(s, name, len))
  {
    hide Get, Counted;
    CountedGrows(s.since, s.marks, |s.buffer|);
    forall m <- Toggled(s, name, len).marks ensures m in s.marks && m.name != name {
      WithoutHasNot(s.marks, m, name);
    }
  }

  // ----- one event

  lemma {:induction false} BlankIsPlain(text: string)
    requires Blank(text)
    ensures '\\' !in text && '`' !in text
  {
  }

  /** Text is taken under the marks open. */
  lemma {:induction false} TextPasses(md: string, s: Scan, t: seq<Event>) returns (u: Scan)
    requires s.i <= |md| && t != [] && md[s.i..] == Render(t) && Placed(md[..s.i], t, s.marks)
    requires t[0].Core? || t[0].Space?
    ensures u.i == s.i + |EventText(t[0])| <= |md| && Scanned(md, s) == Scanned(md, u) && u.marks == s.marks
    ensures Heard(u) == Heard(s) + Letters(WordsOf(t[0]), s.marks)
    ensures Begins(t) || Filled(s) ==> Filled(u)
  {
    hide Render, Escape, Scanned, IsSpace, Heard, Filled, Get;
    var text := t[0].text;
    RenderHead(t);
    if t[0].Space? {
      BlankIsPlain(text);
      EscapeBlank(text);
    }
    if InCode(s) {
      PassCode(md, s, text, Render(t[1..]));
    } else {
      PassEscaped(md, s, text, Render(t[1..]));
    }
    u := Taken(s, text, |EventText(t[0])|);
    TakenHeard(s, text, |EventText(t[0])|);
  }

  lemma {:induction false} CodeCodes(open: seq<Field>)
    ensures CodeOpen(open) == (Get(open, "inlineCode").Some?)
  {
  }

  /** A mark opens. */
  lemma {:induction false} OpenPasses(md: string, s: Scan, t: seq<Event>) returns (u: Scan)
    requires s.i <= |md| && t != [] && md[s.i..] == Render(t) && Clear(md[..s.i], t, s.marks) && t[0].Opened?
    ensures u.i == s.i + |EventText(t[0])| <= |md| && Scanned(md, s) == Scanned(md, u) && u.marks == Then(t[0], s.marks)
    ensures Heard(u) == Heard(s)
  {
    hide Render, Scanned, Heard, Get, Put, Toggled, Clear, EventText, ClosesAt, Without, IsSpace;
    var m := t[0].mark;
    var d, y := OpenText(m.name), Render(t[1..]);
    ClearStep(md[..s.i], t, s.marks);
    KnownTexts(m);
    PastEvent(md, s.i, t);
    var k := CloseComes(md, s.i + |d|, t[1..], s.marks + [m], m);
    if Paired(m.name) {
      CloserIs(md, m.name, s.i + |d| + 1, k);
      OpensHere(md, s, m.name, y);
    } else {
      BacktickOpens(md, s, k, y);
    }
    u := Toggled(s, m.name, |d|);
    ToggledHeard(s, m.name, |d|);
    PutNew(s.marks, m);
    NoWords(t[0]);
  }

  lemma {:induction false} NoWords(e: Event)
    ensures e.Opened? || e.Closed? ==> WordsOf(e) == ""
  {
  }

  lemma {:induction false} ClearStep(before: string, t: seq<Event>, open: seq<Field>)
    requires t != [] && !EndsBoth(t) && !Crosses(t) && Clear(before, t, open)
    ensures Placed(before, t, open) && Clear(before + EventText(t[0]), t[1..], Then(t[0], open))
  {
  }

  lemma {:induction false} CloserIs(md: string, name: string, from: nat, k: nat)
    requires Paired(name) && from <= k && ClosesAt(md, name, k)
    ensures Closer(md, OpenText(name), from)
  {
    hide Closer, OccursAt, Closable;
    Delimiters(name);
    CloserAt(md, OpenText(name), from, k);
  }

  lemma {:induction false} BacktickOpens(md: string, s: Scan, k: nat, y: string)
    requires s.i <= |md| && md[s.i..] == "`" + y && s.i + 1 < k && ClosesAt(md, "inlineCode", k)
    ensures Scanned(md, s) == Scanned(md, Toggled(s, "inlineCode", 1))
  {
    hide Toggled, IndexOf, Passed;
    After(md, s.i, "`", y);
    IndexOfIs(md, "`", s.i + 1);
    CodeStep(md, s);
    Unfold(md, s);
  }

  /** A mark closes. */
  lemma {:induction false} ClosePasses(md: string, s: Scan, t: seq<Event>) returns (u: Scan)
    requires s.i <= |md| && t != [] && md[s.i..] == Render(t) && Placed(md[..s.i], t, s.marks) && t[0].Closed?
        && Filled(s)
    ensures u.i == s.i + |EventText(t[0])| <= |md| && Scanned(md, s) == Scanned(md, u) && u.marks == Then(t[0], s.marks)
    ensures Heard(u) == Heard(s) && Filled(u)
  {
    hide Render, Scanned, Heard, Get, Put, Toggled, EventText, Without, EndsWell;
    var m := t[0].mark;
    var d, y := OpenText(m.name), Render(t[1..]);
    KnownTexts(m);
    PastEvent(md, s.i, t);
    WithoutLast(s.marks, m.name);
    if Paired(m.name) {
      HasText(s, m.name);
      BeforeIsNoSpace(md, s.i, m.name);
      ClosesHere(md, s, m.name, y);
    } else {
      After(md, s.i, "`", y);
      CodeStep(md, s);
      Unfold(md, s);
    }
    u := Toggled(s, m.name, |d|);
    ToggledHeard(s, m.name, |d|);
    ClosedFilled(s, m.name, |d|);
  }

  lemma {:induction false} BeforeIsNoSpace(md: string, k: nat, name: string)
    requires k <= |md| && EndsWell(name, md[..k])
    ensures k > 0 && !SpaceAt(md, k - 1)
  {
    hide IsSpace, Carries;
    assert md[..k][k - 1] == md[k - 1];
  }

  lemma {:induction false} HasText(s: Scan, name: string)
    requires Filled(s) && Get(s.marks, name).Some?
    ensures HasContent(s, name)
  {
    hide Get;
    GetIsMember(s.marks, name);
  }

  /** Three stars end bold first, then emphasis. */
  lemma {:induction false} BothPass(md: string, s: Scan, t: seq<Event>) returns (u: Scan)
    requires s.i <= |md| && md[s.i..] == Render(t) && EndsBoth(t) && Filled(s) && s.marks == [STRONG, EM]
    requires EndsWell("strong", md[..s.i]) && !Starred(Render(t[2..]))
    ensures u.i == s.i + 3 <= |md| && Scanned(md, s) == Scanned(md, u) && u.marks == []
    ensures Heard(u) == Heard(s) && Filled(u)
  {
    hide Render, Scanned, Heard, Toggled, EventText, EndsWell, HasContent, IsSpace, InCode, Filled;
    PastBoth(md, s.i, t);
    var y := Render(t[2..]);
    TwoMarksOpen(s, "strong", "em");
    HasText(s, "strong");
    BeforeIsNoSpace(md, s.i, "strong");
    assert "***" + y == "**" + ("*" + y);
    ClosesHere(md, s, "strong", "*" + y);
    var v := Toggled(s, "strong", 2);
    ToggledHeard(s, "strong", 2);
    ClosedFilled(s, "strong", 2);
    StrongRemoved();
    After(md, s.i, "**", "*" + y);
    OneMarkOpen(v, "em");
    HasText(v, "em");
    StarsNotSpace();
    assert !SpaceAt(md, v.i - 1);
    ClosesHere(md, v, "em", y);
    u := Toggled(v, "em", 1);
    ToggledHeard(v, "em", 1);
    ClosedFilled(v, "em", 1);
  }

  /** Three stars open bold first, then end emphasis, which has text and bold has none. */
  lemma {:induction false} CrossPasses(md: string, s: Scan, t: seq<Event>) returns (u: Scan)
    requires s.i <= |md| && md[s.i..] == Render(t) && Crosses(t) && Filled(s) && s.marks == [EM]
    requires Clear(md[..s.i], t, s.marks)
    ensures u.i == s.i + 3 <= |md| && Scanned(md, s) == Scanned(md, u) && u.marks == [STRONG] && Heard(u) == Heard(s)
  {
    hide Render, Scanned, Heard, Toggled, EventText, EndsWell, IsSpace, InCode, Filled, Clear, ClosesAt, Closer, Get,
        Begins;
    PastCross(md, s.i, t);
    var y := Render(t[3..]);
    CrossOpen(md[..s.i], t, s.marks);
    var k := CloseComes(md, s.i + 3, t[3..], [STRONG], STRONG);
    CloserIs(md, "strong", s.i + 3, k);
    assert "***" + y == "**" + ("*" + y);
    OneMarkOpen(s, "em");
    OtherMarkClosed(s, "em", "strong");
    StarsNotSpace();
    OpensHere(md, s, "strong", "*" + y);
    var v := Toggled(s, "strong", 2);
    ToggledHeard(s, "strong", 2);
    StrongAdded();
    After(md, s.i, "**", "*" + y);
    CrossedOver(s);
    CrossCloses(md, v, y);
    u := Toggled(v, "em", 1);
    ToggledHeard(v, "em", 1);
  }

  lemma {:induction false} CrossOpen(before: string, t: seq<Event>, open: seq<Field>)
    requires Crosses(t) && Clear(before, t, open)
    ensures open == [EM] && EndsWell("em", before) && Begins(t[3..]) && Clear(before + "***", t[3..], [STRONG])
  {
  }

  lemma {:induction false} StrongAdded()
    ensures Put([EM], STRONG) == [EM, STRONG] && Without([EM, STRONG], "em") == [STRONG]
    ensures Get([EM, STRONG], "em").Some? && Get([EM, STRONG], "strong").Some? && Get([EM, STRONG], "inlineCode").None?
  {
    assert [EM, STRONG][1..] == [STRONG] && [STRONG][1..] == [] && [EM][1..] == [];
    assert Put([], STRONG) == [STRONG];
    assert Without([STRONG], "em") == [STRONG] + Without([], "em");
    assert Get([STRONG], "strong").Some? && Get([STRONG], "inlineCode") == Get([], "inlineCode");
  }

  lemma {:induction false} CrossedOver(s: Scan)
    requires s.marks == [EM] && Filled(s)
    ensures var v := Toggled(s, "strong", 2);
      && "strong" in v.since && v.since["strong"] == 0 && v.buffer == "" && "em" in v.since && v.since["em"] > 0
  {
    hide Counted;
    assert EM in s.marks && [EM][1..] == [];
    assert Get([EM], "strong") == Get([], "strong") == None;
    CountedGrows(s.since, s.marks, |s.buffer|);
  }

  /** The third star ends emphasis, whatever follows. */
  lemma {:induction false} CrossCloses(md: string, v: Scan, y: string)
    requires v.marks == [EM, STRONG] && v.buffer == "" && "strong" in v.since && v.since["strong"] == 0
    requires "em" in v.since && v.since["em"] > 0
    requires 0 < v.i <= |md| && md[v.i..] == "*" + y && !SpaceAt(md, v.i - 1)
    ensures v.i < |md| && Scanned(md, v) == Scanned(md, Toggled(v, "em", 1))
  {
    hide Toggled, Get, IsSpace, CanOpen, Passed;
    After(md, v.i, "*", y);
    StrongAdded();
    assert Delimiter(md, v) == Some(("em", 1));
    ToggleStep(md, v, "em", 1);
    Unfold(md, v);
  }

  lemma {:induction false} StrongRemoved()
    ensures Without([STRONG, EM], "strong") == [EM] && Without([EM], "em") == [] && Get([EM], "em").Some?
  {
    assert [STRONG, EM][1..] == [EM] && [EM][1..] == [];
    assert Without([], "em") == [] && Without([EM], "strong") == [EM] + Without([], "strong");
  }

  // ----- the whole trace

  /** The reader follows a clear trace to its end. */
  lemma {:induction false} TraceIsFollowed(md: string, s: Scan, t: seq<Event>)
    requires s.i <= |md| && md[s.i..] == Render(t) && Clear(md[..s.i], t, s.marks) && (Begins(t) || Filled(s))
    ensures var e := Scanned(md, s);
      e.i == |md| && e.marks == [] && Heard(e) == Heard(s) + Texts(t, s.marks)
    decreases |t|
  {
    hide Render, Scanned, Heard, Placed, Filled, EventText, Then, Begins, EndsBoth, Crosses, Letters, EndsWell, WordsOf;
    if t == [] {
      NothingLeft(md, s, t);
    } else if EndsBoth(t) {
      EndsNotBegins(t);
      BothOpen(md[..s.i], t, s.marks);
      var u := BothPass(md, s, t);
      PastBoth(md, s.i, t);
      TraceIsFollowed(md, u, t[2..]);
      BothSilent(t, s.marks);
    } else if Crosses(t) {
      CrossOpen(md[..s.i], t, s.marks);
      CrossNotBegins(t);
      var u := CrossPasses(md, s, t);
      PastCross(md, s.i, t);
      TraceIsFollowed(md, u, t[3..]);
      CrossSilent(t, s.marks);
    } else {
      ClearStep(md[..s.i], t, s.marks);
      PastEvent(md, s.i, t);
      var u := EventPasses(md, s, t);
      TraceIsFollowed(md, u, t[1..]);
      assert Texts(t, s.marks) == Letters(WordsOf(t[0]), s.marks) + Texts(t[1..], Then(t[0], s.marks));
    }
  }

  lemma {:induction false} EventPasses(md: string, s: Scan, t: seq<Event>) returns (u: Scan)
    requires s.i <= |md| && t != [] && md[s.i..] == Render(t) && Clear(md[..s.i], t, s.marks)
        && Placed(md[..s.i], t, s.marks)
    requires Begins(t) || Filled(s)
    ensures u.i == s.i + |EventText(t[0])| <= |md| && Scanned(md, s) == Scanned(md, u) && u.marks == Then(t[0], s.marks)
    ensures Heard(u) == Heard(s) + Letters(WordsOf(t[0]), s.marks)
    ensures Begins(t[1..]) || Filled(u)
  {
    hide Render, Scanned, Heard, Filled, EventText, Letters, EndsWell, WordsOf, Clear, Get;
    NoWords(t[0]);
    LettersAppend("", "", s.marks);
    match t[0]
    case Opened(_) => u := OpenPasses(md, s, t);
    case Closed(_) => u := ClosePasses(md, s, t);
    case _ => u := TextPasses(md, s, t);
  }

  lemma {:induction false} NothingLeft(md: string, s: Scan, t: seq<Event>)
    requires s.i <= |md| && t == [] && md[s.i..] == Render(t) && Clear(md[..s.i], t, s.marks)
    ensures Scanned(md, s) == s && s.i == |md| && s.marks == [] && Texts(t, s.marks) == []
  {
    assert Render(t) == "";
    AtEnd(md, s);
  }

  lemma {:induction false} BothOpen(before: string, t: seq<Event>, open: seq<Field>)
    requires EndsBoth(t) && Clear(before, t, open)
    ensures open == [STRONG, EM] && EndsWell("strong", before) && !Starred(Render(t[2..]))
    ensures Clear(before + "***", t[2..], [])
  {
  }

  lemma {:induction false} EndsNotBegins(t: seq<Event>)
    requires EndsBoth(t)
    ensures |t| > 1 && !Begins(t)
  {
  }

  lemma {:induction false} BothSilent(t: seq<Event>, open: seq<Field>)
    requires EndsBoth(t) && open == [STRONG, EM]
    ensures Texts(t, open) == Texts(t[2..], [])
  {
    assert t[1..][0] == t[1] && t[1..][1..] == t[2..];
    assert Then(t[0], open) == [STRONG] && Then(t[1], [STRONG]) == [];
    assert Texts(t[1..], [STRONG]) == Texts(t[2..], []);
  }

  lemma {:induction false} CrossNotBegins(t: seq<Event>)
    requires Crosses(t)
    ensures |t| > 2 && !Begins(t)
  {
  }

  lemma {:induction false} CrossSilent(t: seq<Event>, open: seq<Field>)
    requires Crosses(t) && open == [EM]
    ensures Texts(t, open) == Texts(t[3..], [STRONG])
  {
    var u := t[1..];
    assert u[0] == t[1] && u[1..] == t[2..] && t[2..][0] == t[2] && t[2..][1..] == t[3..];
    assert Then(t[0], open) == [] && Then(t[1], []) == [] && Then(t[2], []) == [STRONG];
    assert Texts(t[2..], []) == Texts(t[3..], [STRONG]);
    assert Texts(u, []) == Texts(t[2..], []);
  }

  /** A clear trace is read as each of its letters under the marks open where it stands. */
  lemma {:induction false} ClearIsRead(t: seq<Event>)
    requires Clear("", t, [])
    ensures Spelled(Read(Render(t))) == Texts(t, [])
  {
    hide Render, Scanned, Read, Clear, Texts, Spelled, Merged, MadeOps, IsSubseq, OpsText;
    var md := Render(t);
    assert md[0..] == md && md[..0] == "";
    LettersAppend("", "", []);
    StartFilled();
    TraceIsFollowed(md, START, t);
    var e := Scanned(md, START);
    ReadEnds(md, e);
    StartIsSound(md);
    ScannedSound(md, START);
    FlushedSound(md, e);
    FlushedMade(md, e);
    MergedIs(Flushed(e).ops);
    FlushedHeard(e);
  }

  lemma {:induction false} StartFilled()
    ensures Filled(START) && Heard(START) == []
  {
  }

  lemma {:induction false} FlushedMade(md: string, e: Scan)
    requires Sound(md, Flushed(e))
    ensures MadeOps(Flushed(e).ops)
  {
  }
}
