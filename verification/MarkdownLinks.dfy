/**
  Links around marked text, written and read back (packages/core/src/doc/inlineMarkdown.ts).
 */
module MarkdownLinks {
  import opened Common
  import opened Markdown
  import opened MarkdownReader
  import opened MarkdownTheorems
  import opened MarkdownRoundTrip
  import opened MarkdownNesting
  import opened MarkdownTraces
  import opened MarkdownParagraph

  // ----- what can stand between the brackets

  /** Read from the left, every backslash has a character of its line after it, and no other bracket closes. */
  predicate Enclosed(s: string) {
    if s == "" then true
    else if s[0] == '\\' then |s| > 1 && !LineEnd(s[1]) && Enclosed(s[2..])
    else s[0] != ']' && Enclosed(s[1..])
  }

  lemma {:induction false} EnclosedConcat(a: string, b: string)
    requires Enclosed(a) && Enclosed(b)
    ensures Enclosed(a + b)
    decreases |a|
  {
    if a == "" {
      assert a + b == b;
    } else if a[0] == '\\' {
      assert (a + b)[2..] == a[2..] + b;
      EnclosedConcat(a[2..], b);
    } else {
      assert (a + b)[1..] == a[1..] + b;
      EnclosedConcat(a[1..], b);
    }
  }

  lemma {:induction false} PlainEnclosed(s: string)
    requires '\\' !in s && ']' !in s
    ensures Enclosed(s)
  {
    if s != "" {
      assert s[0] in s;
      assert forall c <- s[1..] :: c in s;
      PlainEnclosed(s[1..]);
    }
  }

  lemma {:induction false} EscapeEnclosed(t: string)
    ensures Enclosed(Escape(t))
  {
    if t != "" {
      var e := Escape(t[1..]);
      EscapeEnclosed(t[1..]);
      if Special(t[0]) {
        assert Escape(t)[2..] == e;
      } else {
        assert Escape(t)[1..] == e;
      }
    }
  }

  /** The pattern takes the text between the brackets whole. */
  lemma {:induction false} TokensOverEnclosed(s: string, from: nat, t: string, rest: string)
    requires from <= |s| && s[from..] == t + rest && Enclosed(t) && rest != "" && rest[0] == ']'
    ensures TokensEnd(s, from, ']') == from + |t|
    decreases |t|
  {
    hide LineEnd;
    if t == "" {
      Follows(s, from, "", rest);
      assert s[from] == s[from..][0] == ']';
    } else if t[0] == '\\' {
      assert t == ['\\', t[1]] + t[2..];
      assert t + rest == ['\\', t[1]] + (t[2..] + rest);
      Follows(s, from, ['\\', t[1]], t[2..] + rest);
      TokensOverEnclosed(s, from + 2, t[2..], rest);
    } else {
      assert t == [t[0]] + t[1..];
      assert t + rest == [t[0]] + (t[1..] + rest);
      Follows(s, from, [t[0]], t[1..] + rest);
      TokensOverEnclosed(s, from + 1, t[1..], rest);
    }
  }

  function LinkAround(inner: string, href: string, title: Option<string>): string {
    "[" + inner + CloseText(LinkMark(href, title))
  }

  lemma {:induction false} LinkAroundMatches(inner: string, href: string, title: Option<string>)
    requires Enclosed(inner) && Address(href) && Quotable(title)
    ensures var s := LinkAround(inner, href, title); MatchLink(s) == Some(Link(inner, href, title, |s|))
  {
    hide TokensEnd, MatchTarget, Address, TargetText, Quotable, Enclosed, CloseText;
    var s, e := LinkAround(inner, href, title), |inner| + 1;
    var target := TargetText(href, title);
    CloseLink(href, title);
    assert s == "[" + inner + ("](" + target);
    assert s[1..] == inner + ("](" + target);
    TokensOverEnclosed(s, 1, inner, "](" + target);
    assert s[e] == ']' && s[e + 1] == '(' && s[1..e] == inner;
    assert s[e + 2..] == target;
    TargetMatches(s, s[1..e], e + 2, href, title);
  }

  // ----- a link around ops

  function UnderLink(ops: seq<Op>, link: Field): seq<Op> {
    seq(|ops|, k requires 0 <= k < |ops| => Op(ops[k].insert, ops[k].attributes + [link]))
  }

  ghost predicate Unlinked(ops: seq<Op>) {
    forall k :: 0 <= k < |ops| ==> Get(ops[k].attributes, "link").None? && Distinct(NamesOf(ops[k].attributes))
  }

  function NamesOf(marks: seq<Field>): seq<string> {
    seq(|marks|, k requires 0 <= k < |marks| => marks[k].name)
  }

  lemma {:induction false} SpreadDistinct(a: seq<Field>, b: seq<Field>)
    requires forall j, k :: 0 <= j < k < |a + b| ==> (a + b)[j].name != (a + b)[k].name
    ensures Spread(a, b) == a + b
    decreases |b|
  {
    if b == [] {
      assert a + b == a;
    } else {
      forall m <- a ensures m.name != b[0].name {
        var j :| 0 <= j < |a| && a[j] == m;
        assert (a + b)[j] == m && (a + b)[|a|] == b[0];
      }
      GetNone(a, b[0].name);
      PutNew(a, b[0]);
      assert a + [b[0]] + b[1..] == a + b;
      SpreadDistinct(a + [b[0]], b[1..]);
    }
  }

  lemma {:induction false} LinkedIsUnder(ops: seq<Op>, link: Field)
    requires Unlinked(ops) && link.name == "link"
    ensures Linked(ops, [], link) == UnderLink(ops, link)
  {
    hide Get, Spread, Put;
    forall k | 0 <= k < |ops| ensures Put(Spread([], ops[k].attributes), link) == ops[k].attributes + [link] {
      var b := ops[k].attributes;
      assert [] + b == b;
      forall i, j | 0 <= i < j < |b| ensures b[i].name != b[j].name {
        assert NamesOf(b)[i] != NamesOf(b)[j];
      }
      SpreadDistinct([], b);
      PutNew(b, link);
    }
  }

  lemma {:induction false} SameFront(a: seq<Field>, b: seq<Field>, x: Field)
    ensures a + [x] == b + [x] <==> a == b
  {
    assert (a + [x])[..|a|] == a && (b + [x])[..|b|] == b;
  }

  lemma {:induction false} UnderLinkDiffers(ops: seq<Op>, link: Field)
    requires NeighboursDiffer(ops)
    ensures NeighboursDiffer(UnderLink(ops, link))
  {
    forall k | 0 < k < |ops| ensures ops[k - 1].attributes + [link] != ops[k].attributes + [link] {
      SameFront(ops[k - 1].attributes, ops[k].attributes, link);
    }
  }

  /** A link around any text that reads without links is read as that text's ops, each under the link as well. */
  lemma {:induction false} LinkAroundIsRead(inner: string, href: string, title: Option<string>)
    requires Enclosed(inner) && Address(href) && Quotable(title) && Unlinked(Read(inner))
    ensures Read(LinkAround(inner, href, title)) == UnderLink(Read(inner), LinkMark(href, title))
  {
    hide Read, LinkAround, Address, Quotable, MatchLink, Stepped, Linked, UnderLink, Unlinked, Enclosed, Merged;
    hide NeighboursDiffer, MadeOps;
    var md, mark, ops := LinkAround(inner, href, title), LinkMark(href, title), Read(inner);
    LinkAroundMatches(inner, href, title);
    assert md[0..] == md;
    var under := UnderLink(ops, mark);
    LinkedIsUnder(ops, mark);
    assert [] + under == under;
    var e := Scan(under, [], "", map[], |md|);
    assert Passed(md, START) == e;
    Unfold(md, START);
    AtEnd(md, e);
    ReadEnds(md, e);
    ReadIsSound(inner);
    UnderLinkDiffers(ops, mark);
    MergedApart(under);
  }

  // ----- a link around written ops

  /** Code between the brackets must not hold one that closes. */
  ghost predicate NoBracketInCode(ops: seq<Op>) {
    forall k :: 0 <= k < |ops| ==> IsCode(ops[k].attributes) ==> ']' !in ops[k].insert
  }

  lemma {:induction false} EventEnclosed(e: Event)
    requires e.Core? ==> e.code ==> '\\' !in e.text && ']' !in e.text
    requires e.Space? ==> Blank(e.text)
    requires e.Opened? || e.Closed? ==> Known(e.mark)
    ensures Enclosed(EventText(e))
  {
    hide Escape, Enclosed;
    match e
    case Opened(m) => KnownNames(m); PlainEnclosed(EventText(e));
    case Closed(m) => KnownNames(m); PlainEnclosed(EventText(e));
    case Space(t) => BlankEnclosed(t);
    case Core(t, code) => if code { PlainEnclosed(t); } else { EscapeEnclosed(t); }
  }

  lemma {:induction false} BlankEnclosed(t: string)
    requires Blank(t)
    ensures Enclosed(t)
  {
    forall c <- t ensures c != '\\' && c != ']' {
      assert IsSpace(c);
    }
    PlainEnclosed(t);
  }

  /** Every event can stand between the brackets. */
  ghost predicate AllEnclosed(t: seq<Event>) {
    forall e <- t :: Enclosed(EventText(e))
  }

  lemma {:induction false} RenderEnclosed(t: seq<Event>)
    requires AllEnclosed(t)
    ensures Enclosed(Render(t))
  {
    hide Enclosed, EventText;
    if t == [] {
      PlainEnclosed("");
    } else {
      assert t[0] in t;
      assert forall e <- t[1..] :: e in t;
      RenderEnclosed(t[1..]);
      EnclosedConcat(EventText(t[0]), Render(t[1..]));
    }
  }

  lemma {:induction false} AllEnclosedConcat(a: seq<Event>, b: seq<Event>)
    requires AllEnclosed(a) && AllEnclosed(b)
    ensures AllEnclosed(a + b)
  {
    hide Enclosed, EventText;
  }

  lemma {:induction false} DelimitersEnclosed(marks: seq<Field>, k: nat)
    requires Stack(marks) && k <= |marks|
    ensures AllEnclosed(Closes(marks, k)) && AllEnclosed(Opens(marks, k))
  {
    hide Enclosed, EventText, Known, OuterFirst, Closes, Opens;
    forall m <- marks ensures Enclosed(EventText(Opened(m))) && Enclosed(EventText(Closed(m))) {
      EventEnclosed(Opened(m));
      EventEnclosed(Closed(m));
    }
    ClosesOfMarks(marks, k);
    OpensOfMarks(marks, k);
  }

  lemma {:induction false} ClosesOfMarks(marks: seq<Field>, k: nat)
    requires k <= |marks|
    ensures forall e <- Closes(marks, k) :: e.Closed? && e.mark in marks
    decreases |marks|
  {
    if k < |marks| {
      ClosesOfMarks(marks[..|marks| - 1], k);
    }
  }

  lemma {:induction false} OpensOfMarks(marks: seq<Field>, k: nat)
    requires k <= |marks|
    ensures forall e <- Opens(marks, k) :: e.Opened? && e.mark in marks
    decreases |marks| - k
  {
    if k < |marks| {
      OpensOfMarks(marks, k + 1);
    }
  }

  lemma {:induction false} TraceEnclosed(ops: seq<Op>, active: seq<Field>, held: string)
    requires Fitting(ops, active, held) && NoBracketInCode(ops) && Blank(held) && Stack(active)
    ensures AllEnclosed(TraceFrom(ops, active, held))
    decreases |ops|
  {
    hide Enclosed, EventText, Stack, Closes, Opens, Split, IsCode, AllEnclosed, Turn, TurnEvents, Blank, StarsApart,
        Stands;
    if ops == [] {
      DelimitersEnclosed(active, 0);
      SpaceEnclosed(held);
      AllEnclosedConcat(Closes(active, 0), [Space(held)]);
    } else {
      var op, rest := ops[0], ops[1..];
      var p, marks := Split(op.insert), op.attributes;
      assert forall k :: 0 <= k < |rest| ==> rest[k] == ops[k + 1];
      if p.core == "" {
        BlankConcat(held, op.insert);
        TraceEnclosed(rest, active, held + op.insert);
      } else {
        BlankConcat(held, p.lead);
        StackIsWanted(op);
        TurnIsEvents(active, held, op);
        CoreInText(op);
        TurnEnclosed(active, held + p.lead, p.core, marks);
        TraceEnclosed(rest, marks, p.trail);
        AllEnclosedConcat(Turn(active, held, op), TraceFrom(rest, marks, p.trail));
      }
    }
  }

  lemma {:induction false} CoreInText(op: Op)
    ensures forall c <- Split(op.insert).core :: c in op.insert
  {
    hide Split;
    var p := Split(op.insert);
    assert forall c <- p.core :: c in p.lead + p.core + p.trail;
  }

  lemma {:induction false} SpaceEnclosed(held: string)
    requires Blank(held)
    ensures AllEnclosed([Space(held)])
  {
    hide Enclosed, EventText;
    EventEnclosed(Space(held));
  }

  lemma {:induction false} TurnEnclosed(active: seq<Field>, gap: string, core: string, marks: seq<Field>)
    requires Stack(active) && Stack(marks) && Blank(gap) && core != "" && Stands(core, marks)
    requires IsCode(marks) ==> ']' !in core
    ensures AllEnclosed(TurnEvents(active, gap, core, marks))
  {
    hide Enclosed, EventText, Stack, Closes, Opens, IsCode, AllEnclosed, Shared, Blank;
    var k := Shared(active, marks);
    DelimitersEnclosed(active, k);
    DelimitersEnclosed(marks, k);
    SpaceEnclosed(gap);
    CoreEnclosed(core, marks);
    AllEnclosedConcat(Closes(active, k), [Space(gap)]);
    AllEnclosedConcat(Closes(active, k) + [Space(gap)], Opens(marks, k));
    AllEnclosedConcat(Closes(active, k) + [Space(gap)] + Opens(marks, k), [Core(core, IsCode(marks))]);
  }

  lemma {:induction false} CoreEnclosed(core: string, marks: seq<Field>)
    requires core != "" && Stands(core, marks) && (IsCode(marks) ==> ']' !in core)
    ensures AllEnclosed([Core(core, IsCode(marks))])
  {
    hide Enclosed, EventText, IsCode;
    EventEnclosed(Core(core, IsCode(marks)));
  }

  /** The ops of a link's text, written between its brackets, come back each under the link as well. */
  lemma {:induction false} LinkAroundOpsIsRead(ops: seq<Op>, href: string, title: Option<string>)
    requires Fitting(ops, [], "") && WhiteStays(ops, [], []) && Compact(ops) && NoBracketInCode(ops)
    requires Address(href) && Quotable(title) && AllStacks(ops)
    ensures Read(LinkAround(Render(Trace(ops)), href, title)) == UnderLink(ops, LinkMark(href, title))
  {
    hide Fitting, WhiteStays, Compact, Read, Render, TraceFrom, Address, Quotable, NoBracketInCode, Stack, UnderLink;
    hide Unlinked, AllEnclosed;
    OpsComeBackIff(ops);
    NoStack();
    TraceEnclosed(ops, [], "");
    RenderEnclosed(Trace(ops));
    StacksUnlinked(ops);
    LinkAroundIsRead(Render(Trace(ops)), href, title);
  }

  lemma {:induction false} NoStack()
    ensures Stack([])
  {
  }

  lemma {:induction false} StacksUnlinked(ops: seq<Op>)
    requires AllStacks(ops)
    ensures Unlinked(ops)
  {
    hide Known, Rank, Get;
    forall k | 0 <= k < |ops| ensures Get(ops[k].attributes, "link").None? && Distinct(NamesOf(ops[k].attributes)) {
      var a := ops[k].attributes;
      assert ops[k] in ops;
      forall m <- a ensures m.name != "link" {
        KnownNames(m);
      }
      GetNone(a, "link");
    }
  }

  // ----- what the writer writes for ops under one link

  lemma {:induction false} GetBefore(marks: seq<Field>, f: Field, name: string)
    ensures name != f.name ==> Get(marks + [f], name) == Get(marks, name)
    ensures Get(marks, f.name).None? ==> Get(marks + [f], f.name) == Some(f.value)
  {
    if marks == [] {
      assert marks + [f] == [f] && [f][1..] == [];
    } else {
      assert (marks + [f])[0] == marks[0] && (marks + [f])[1..] == marks[1..] + [f];
      GetBefore(marks[1..], f, name);
    }
  }

  lemma {:induction false} MarksBefore(marks: seq<Field>, f: Field, order: seq<string>)
    requires f.name !in order
    ensures MarksOf(marks + [f], order) == MarksOf(marks, order)
    decreases |order|
  {
    if order != [] {
      GetBefore(marks, f, order[0]);
      assert order == [order[0]] + order[1..];
      MarksBefore(marks, f, order[1..]);
    }
  }

  /** Wherever the record holds the link, it opens first. */
  lemma {:induction false} LinkIsOutermost(op: Op, link: Field)
    requires Stack(op.attributes) && link.name == "link" && link.value != Null
    ensures Wanted(Op(op.insert, op.attributes + [link])) == [link] + op.attributes && Wanted(op) == op.attributes
  {
    hide Known, Rank, OuterFirst;
    var marks, rest := op.attributes, MARK_ORDER[1..];
    StackIsWanted(op);
    forall m <- marks ensures m.name != "link" {
      KnownNames(m);
    }
    GetNone(marks, "link");
    GetBefore(marks, link, "link");
    assert rest == ["strong", "em", "strikethrough", "inlineCode"];
    MarksBefore(marks, link, rest);
    assert MARK_ORDER == ["link"] + rest;
    assert Field("link", link.value) == link;
  }

  lemma {:induction false} SharedUnder(a: seq<Field>, b: seq<Field>, link: Field)
    ensures Shared([link] + a, [link] + b) == 1 + Shared(a, b)
  {
    assert ([link] + a)[1..] == a && ([link] + b)[1..] == b;
  }

  lemma {:induction false} ClosesUnder(a: seq<Field>, k: nat, link: Field)
    ensures Closes([link] + a, k + 1) == Closes(a, k)
    decreases |a|
  {
    if |a| > k {
      assert ([link] + a)[..|a|] == [link] + a[..|a| - 1];
      ClosesUnder(a[..|a| - 1], k, link);
    }
  }

  lemma {:induction false} OpensUnder(a: seq<Field>, k: nat, link: Field)
    ensures Opens([link] + a, k + 1) == Opens(a, k)
    decreases |a| - k
  {
    if |a| > k {
      OpensUnder(a, k + 1, link);
    }
  }

  lemma {:induction false} CodeUnder(a: seq<Field>, link: Field)
    requires link.name == "link"
    ensures IsCode([link] + a) == IsCode(a)
  {
    var b := [link] + a;
    if k :| 0 <= k < |a| && a[k].name == "inlineCode" {
      assert b[k + 1] == a[k];
    }
    if k :| 0 <= k < |b| && b[k].name == "inlineCode" {
      assert k > 0 && a[k - 1] == b[k];
    }
  }

  /** Under a link that is open the turns are the same. */
  lemma {:induction false} TurnUnder(active: seq<Field>, held: string, op: Op, link: Field)
    requires Stack(op.attributes) && link.name == "link" && link.value != Null
    ensures Turn([link] + active, held, Op(op.insert, op.attributes + [link])) == Turn(active, held, op)
  {
    hide Wanted, Split, Shared, Closes, Opens, IsCode, Stack;
    var marks := op.attributes;
    LinkIsOutermost(op, link);
    SharedUnder(active, marks, link);
    ClosesUnder(active, Shared(active, marks), link);
    OpensUnder(marks, Shared(active, marks), link);
    CodeUnder(marks, link);
  }

  lemma {:induction false} ClosesWithLink(active: seq<Field>, link: Field)
    ensures Closes([link] + active, 0) == Closes(active, 0) + [Closed(link)]
    decreases |active|
  {
    if active == [] {
      assert [link] + active == [link] && [link][..0] == [];
      assert Closes([link], 0) == [Closed(link)] + Closes([], 0) == [Closed(link)];
    } else {
      assert ([link] + active)[..|active|] == [link] + active[..|active| - 1];
      ClosesWithLink(active[..|active| - 1], link);
    }
  }

  ghost predicate AllStacks(ops: seq<Op>) {
    forall op <- ops :: Stack(op.attributes)
  }

  ghost predicate EndsInText(ops: seq<Op>) {
    ops != [] && var x := ops[|ops| - 1].insert; x != "" && !IsSpace(x[|x| - 1])
  }

  lemma {:induction false} EdgeSpaces(text: string)
    requires text != ""
    ensures var p, n := Split(text), |text|;
      && (p.core == "" ==> IsSpace(text[0]) && IsSpace(text[n - 1]))
      && (p.lead != "" ==> IsSpace(text[0]))
      && (p.trail != "" ==> IsSpace(text[n - 1]))
  {
    hide IsSpace, Split;
    var p, n := Split(text), |text|;
    assert p.lead + p.core + p.trail == text;
    if p.core == "" {
      assert text[0] in text && text[n - 1] in text;
    }
    if p.lead != "" {
      assert p.lead[0] in p.lead && text[0] == p.lead[0];
    }
    if p.trail != "" {
      var c := p.trail[|p.trail| - 1];
      assert c in p.trail && text[n - 1] == c;
    }
  }

  lemma {:induction false} NoTrail(text: string)
    requires text != "" && !IsSpace(text[|text| - 1])
    ensures Split(text).core != "" && Split(text).trail == ""
  {
    hide IsSpace, Split;
    EdgeSpaces(text);
  }

  /** Under an open link the rest is written alike, and the link closes last. */
  lemma {:induction false} RestUnder(ops: seq<Op>, active: seq<Field>, held: string, link: Field)
    requires AllStacks(ops) && link.name == "link" && link.value != Null
    requires if ops == [] then held == "" else EndsInText(ops)
    ensures Render(TraceFrom(UnderLink(ops, link), [link] + active, held))
         == Render(TraceFrom(ops, active, held)) + CloseText(link)
    decreases |ops|
  {
    hide Render, Turn, Closes, Split, Stack, IsSpace, CloseText, Wanted, TraceFrom, UnderLink;
    if ops == [] {
      NoneUnder(active, link);
    } else {
      var op, rest := ops[0], ops[1..];
      var p := Split(op.insert);
      assert op in ops && forall o <- rest :: o in ops;
      StepUnder(ops, active, held, link);
      if rest == [] {
        NoTrail(op.insert);
      } else {
        assert rest[|rest| - 1] == ops[|ops| - 1];
      }
      if p.core == "" {
        RestUnder(rest, active, held + op.insert, link);
      } else {
        RestUnder(rest, op.attributes, p.trail, link);
      }
    }
  }

  lemma {:induction false} NoneUnder(active: seq<Field>, link: Field)
    requires link.name == "link"
    ensures Render(TraceFrom(UnderLink([], link), [link] + active, ""))
         == Render(TraceFrom([], active, "")) + CloseText(link)
  {
    hide Render, Closes, CloseText;
    TraceEnd([link] + active, "");
    TraceEnd(active, "");
    ClosesWithLink(active, link);
    RenderConcat(Closes(active, 0), [Closed(link)]);
    RenderOne(Closed(link));
  }

  /** One op, with the link open and without it. */
  lemma {:induction false} StepUnder(ops: seq<Op>, active: seq<Field>, held: string, link: Field)
    requires ops != [] && Stack(ops[0].attributes) && link.name == "link" && link.value != Null
    ensures var op, rest := ops[0], ops[1..]; var p, under := Split(op.insert), UnderLink(rest, link);
      && Render(TraceFrom(UnderLink(ops, link), [link] + active, held)) == (
           if p.core == "" then Render(TraceFrom(under, [link] + active, held + op.insert))
           else Render(Turn(active, held, op)) + Render(TraceFrom(under, [link] + op.attributes, p.trail)))
      && Render(TraceFrom(ops, active, held)) == (
           if p.core == "" then Render(TraceFrom(rest, active, held + op.insert))
           else Render(Turn(active, held, op)) + Render(TraceFrom(rest, op.attributes, p.trail)))
  {
    hide Render, Turn, Split, Stack, Wanted, TraceFrom;
    var op, rest, under := ops[0], ops[1..], UnderLink(ops, link);
    assert under[0] == Op(op.insert, op.attributes + [link]);
    assert under[1..] == UnderLink(rest, link);
    assert under[0..] == under && ops[0..] == ops;
    TraceStep(under, 0, [link] + active, held);
    TraceStep(ops, 0, active, held);
    TurnUnder(active, held, op, link);
    LinkIsOutermost(op, link);
  }

  /** Ops under one link, whose text starts and ends with a letter, are written between the link's brackets. */
  lemma {:induction false} LinkIsWrittenAround(ops: seq<Op>, href: string, title: Option<string>)
    requires AllStacks(ops) && EndsInText(ops) && ops[0].insert != "" && !IsSpace(ops[0].insert[0])
    ensures Render(Trace(UnderLink(ops, LinkMark(href, title)))) == LinkAround(Render(Trace(ops)), href, title)
  {
    hide Render, Split, Stack, IsSpace, CloseText, TraceFrom, Turn, UnderLink;
    var link := LinkMark(href, title);
    var op, rest := ops[0], ops[1..];
    var p, marks := Split(op.insert), op.attributes;
    assert op in ops && forall o <- rest :: o in ops;
    NoLead(op.insert);
    FirstUnder(ops, link);
    FirstTurn(op, link);
    if rest == [] {
      NoTrail(op.insert);
    } else {
      assert rest[|rest| - 1] == ops[|ops| - 1];
    }
    RestUnder(rest, marks, p.trail, link);
  }

  lemma {:induction false} FirstUnder(ops: seq<Op>, link: Field)
    requires ops != [] && Stack(ops[0].attributes) && link.name == "link" && link.value != Null
    requires Split(ops[0].insert).core != ""
    ensures var op, rest, under := ops[0], ops[1..], UnderLink(ops[1..], link); var trail := Split(op.insert).trail;
      && Render(Trace(UnderLink(ops, link))) == Render(Turn([], "", Op(op.insert, op.attributes + [link])))
           + Render(TraceFrom(under, [link] + op.attributes, trail))
      && Render(Trace(ops)) == Render(Turn([], "", op)) + Render(TraceFrom(rest, op.attributes, trail))
  {
    hide Render, Turn, Split, Stack, Wanted, TraceFrom;
    var op, rest, under := ops[0], ops[1..], UnderLink(ops, link);
    assert under[0] == Op(op.insert, op.attributes + [link]) && under[1..] == UnderLink(rest, link);
    assert under[0..] == under && ops[0..] == ops;
    TraceStep(under, 0, [], "");
    TraceStep(ops, 0, [], "");
    LinkIsOutermost(op, link);
  }

  lemma {:induction false} NoLead(text: string)
    requires text != "" && !IsSpace(text[0])
    ensures Split(text).core != "" && Split(text).lead == ""
  {
    hide IsSpace, Split;
    EdgeSpaces(text);
  }

  /** The first turn opens the link before the rest. */
  lemma {:induction false} FirstTurn(op: Op, link: Field)
    requires Stack(op.attributes) && link.name == "link" && link.value != Null && Split(op.insert).lead == ""
    ensures Render(Turn([], "", Op(op.insert, op.attributes + [link]))) == "[" + Render(Turn([], "", op))
  {
    hide Render, Split, Stack, Wanted, Opens, Closes, IsCode, Turn, Escape;
    var marks, p := op.attributes, Split(op.insert);
    var under := Op(op.insert, marks + [link]);
    LinkIsOutermost(op, link);
    TurnText([], "", under);
    TurnText([], "", op);
    NothingOpen();
    CodeUnder(marks, link);
    OpensUnder(marks, 0, link);
    OpensHead([link] + marks);
    RenderHead(Opens([link] + marks, 0));
    var body := if IsCode(marks) then p.core else Escape(p.core);
    assert "" + ("" + "") + ("[" + Render(Opens(marks, 0))) + body
        == "[" + ("" + ("" + "") + Render(Opens(marks, 0)) + body);
  }

  lemma {:induction false} OpensHead(marks: seq<Field>)
    requires marks != []
    ensures var o := Opens(marks, 0); o != [] && o[0] == Opened(marks[0]) && o[1..] == Opens(marks, 1)
  {
    assert Opens(marks, 0) == [Opened(marks[0])] + Opens(marks, 1);
  }

  /** Ops under one link come back from what the writer writes for them, each with its marks and the link. */
  lemma {:induction false} LinkedOpsComeBack(ops: seq<Op>, href: string, title: Option<string>)
    requires Fitting(ops, [], "") && WhiteStays(ops, [], []) && Compact(ops) && NoBracketInCode(ops) && AllStacks(ops)
    requires EndsInText(ops) && !IsSpace(ops[0].insert[0]) && Address(href) && Quotable(title)
    ensures var linked := UnderLink(ops, LinkMark(href, title)); Read(Render(Trace(linked))) == linked
  {
    hide Fitting, WhiteStays, NoBracketInCode, Read, Render, TraceFrom, Address, Quotable, Stack, UnderLink, IsSpace;
    hide LinkAround;
    assert ops[0] in ops;
    LinkIsWrittenAround(ops, href, title);
    LinkAroundOpsIsRead(ops, href, title);
  }
}
