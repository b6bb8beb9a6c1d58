/**
  Which ops the Markdown reader gives back as they were (packages/core/src/doc/inlineMarkdown.ts).

  The ops may be many and each under several marks. They come back when the writer moves no white space out of a mark,
  each text can stand before its closing delimiters, and no star of one mark runs into the stars of another.
 */
module MarkdownParagraph {
  import opened Common
  import opened Markdown
  import opened MarkdownReader
  import opened MarkdownTheorems
  import opened MarkdownRoundTrip
  import opened MarkdownNesting
  import opened MarkdownTraces

  // ----- the ops

  /** Marks as the writer orders them, each without attributes of its own. */
  ghost predicate Stack(marks: seq<Field>) {
    (forall m <- marks :: Known(m)) && OuterFirst(marks)
  }

  /** Can the text, without white space around it, stand under its marks? */
  ghost predicate Stands(core: string, marks: seq<Field>)
    requires core != ""
  {
    if IsCode(marks) then '\\' !in core && '`' !in core
    else forall m <- marks :: Carries(m.name, core)
  }

  ghost predicate AllUnder(letters: seq<Letter>, marks: seq<Field>) {
    forall x <- letters :: x.marks == marks
  }

  /**
    Do the stars stay apart between a text under `a` and one directly after it under `b`? Bold with emphasis is not
    followed by emphasis alone, which would be written with four stars.
   */
  predicate StarsApart(a: seq<Field>, b: seq<Field>) {
    !(STRONG in a && EM in a && STRONG !in b && EM in b)
  }

  /** From the marks `active`, with white space held back: do the texts, their marks and the stars fit? */
  ghost predicate Fitting(ops: seq<Op>, active: seq<Field>, held: string) {
    if ops == [] then true
    else
      var p, marks := Split(ops[0].insert), ops[0].attributes;
      if p.core == "" then Fitting(ops[1..], active, held + ops[0].insert)
      else
        && Stack(marks) && Stands(p.core, marks)
        && (held + p.lead == "" ==> StarsApart(active, marks))
        && Fitting(ops[1..], marks, p.trail)
  }

  /** Does all white space stand under the marks that the texts before and after it share? */
  ghost predicate WhiteStays(ops: seq<Op>, active: seq<Field>, held: seq<Letter>) {
    if ops == [] then AllUnder(held, [])
    else
      var p, marks := Split(ops[0].insert), ops[0].attributes;
      if p.core == "" then WhiteStays(ops[1..], active, held + Letters(ops[0].insert, marks))
      else
        && AllUnder(held + Letters(p.lead, marks), active[..Shared(active, marks)])
        && WhiteStays(ops[1..], marks, Letters(p.trail, marks))
  }

  // ----- marks in order

  lemma {:induction false} KnownNames(m: Field)
    requires Known(m)
    ensures m.name in {"strong", "em", "strikethrough", "inlineCode"}
    ensures m.name == "strong" ==> m == STRONG
    ensures m.name == "em" ==> m == EM
    ensures EventText(Opened(m)) == EventText(Closed(m)) == OpenText(m.name)
    ensures OpenText(m.name)
         == if m.name == "strong" then "**" else if m.name == "em" then "*"
           else if m.name == "strikethrough" then "~~" else "`"
    ensures Rank(m.name)
         == if m.name == "strong" then 1 else if m.name == "em" then 2 else if m.name == "strikethrough" then 3 else 4
  {
  }

  /** What the marks of an op that are in order tell the writer. */
  lemma {:induction false} StackIsWanted(op: Op)
    requires Stack(op.attributes)
    ensures Wanted(op) == op.attributes
  {
    var a := op.attributes;
    hide Known, Rank;
    forall m <- a ensures m.name in MARK_ORDER && m.value != Null {
      OrderHas(m);
    }
    OrderIsRanked();
    StackIsPicked(a, MARK_ORDER);
  }

  lemma {:induction false} OrderHas(m: Field)
    requires Known(m)
    ensures m.name in MARK_ORDER && m.value != Null
  {
    assert MARK_ORDER[1] == "strong" && MARK_ORDER[2] == "em";
    assert MARK_ORDER[3] == "strikethrough" && MARK_ORDER[4] == "inlineCode";
  }

  ghost predicate Ranked(order: seq<string>) {
    forall j, k :: 0 <= j < k < |order| ==> Rank(order[j]) < Rank(order[k])
  }

  /** Picking the marks in the writer's order from marks in that order gives all of them. */
  lemma {:induction false} StackIsPicked(a: seq<Field>, order: seq<string>)
    requires Ranked(order) && OuterFirst(a) && forall m <- a :: m.name in order && m.value != Null
    ensures MarksOf(a, order) == a
    decreases |order|
  {
    hide Rank, Get, MarksOf;
    if a == [] {
      NothingPicked(order);
      return;
    }
    assert a[0] in a;
    if a[0].name == order[0] {
      assert order == [order[0]] + order[1..] && a == [a[0]] + a[1..];
      forall m <- a[1..] ensures m.name in order[1..] {
        var k :| 0 <= k < |a[1..]| && a[1..][k] == m;
        assert a[k + 1] == m && m in a;
      }
      StackIsPicked(a[1..], order[1..]);
      PickedRest(a, order);
    } else {
      assert order == [order[0]] + order[1..];
      forall m <- a ensures m.name in order[1..] {
        if m.name == order[0] {
          FirstIsFirst(a, order, m);
        }
      }
      GetNone(a, order[0]);
      StackIsPicked(a, order[1..]);
      NotPicked(a, order);
    }
  }

  lemma {:induction false} NotPicked(a: seq<Field>, order: seq<string>)
    requires order != [] && Get(a, order[0]).None?
    ensures MarksOf(a, order) == MarksOf(a, order[1..])
  {
    hide Get;
  }

  lemma {:induction false} NothingPicked(order: seq<string>)
    ensures MarksOf([], order) == []
  {
    if order != [] {
      NothingPicked(order[1..]);
    }
  }

  lemma {:induction false} FirstIsFirst(a: seq<Field>, order: seq<string>, m: Field)
    requires Ranked(order) && OuterFirst(a) && (forall x <- a :: x.name in order) && order != []
    requires m in a && m.name == order[0]
    ensures a[0].name == order[0]
  {
    hide Rank;
    var k :| 0 <= k < |a| && a[k] == m;
    assert a[0] in a;
    var j :| 0 <= j < |order| && order[j] == a[0].name;
  }

  lemma {:induction false} GetNone(a: seq<Field>, name: string)
    requires forall m <- a :: m.name != name
    ensures Get(a, name).None?
  {
    if a != [] {
      assert a[0] in a;
      assert forall m <- a[1..] :: m in a;
      GetNone(a[1..], name);
    }
  }

  /** The first mark does not matter to the rest of the order. */
  lemma {:induction false} PickedRest(a: seq<Field>, order: seq<string>)
    requires Ranked(order) && order != [] && a != [] && a[0].name == order[0] && a[0].value != Null
    requires MarksOf(a[1..], order[1..]) == a[1..]
    ensures MarksOf(a, order) == a
  {
    assert order[0] !in order[1..] by {
      assert forall k :: 0 <= k < |order[1..]| ==> order[1..][k] == order[k + 1];
    }
    WithoutFirst(a, order[1..]);
    assert a == [a[0]] + a[1..];
  }

  lemma {:induction false} WithoutFirst(a: seq<Field>, order: seq<string>)
    requires a != [] && a[0].name !in order
    ensures MarksOf(a, order) == MarksOf(a[1..], order)
    decreases |order|
  {
    if order != [] {
      assert order == [order[0]] + order[1..];
      WithoutFirst(a, order[1..]);
    }
  }

  lemma {:induction false} StackPrefix(marks: seq<Field>, n: nat)
    requires Stack(marks) && n <= |marks|
    ensures Stack(marks[..n])
  {
    hide Known, Rank;
    assert forall m <- marks[..n] :: m in marks;
  }

  /** A mark is not open before it opens. */
  lemma {:induction false} NotYet(marks: seq<Field>, k: nat)
    requires Stack(marks) && k < |marks|
    ensures Get(marks[..k], marks[k].name).None? && Get(marks[..k], "inlineCode").None?
  {
    hide Known, Rank;
    assert marks[k] in marks;
    KnownNames(marks[k]);
    forall m <- marks[..k] ensures m.name != marks[k].name && m.name != "inlineCode" {
      var j :| 0 <= j < k && marks[j] == m;
      assert m in marks;
      KnownNames(m);
    }
    GetNone(marks[..k], marks[k].name);
    GetNone(marks[..k], "inlineCode");
  }

  lemma {:induction false} CodeIsOpen(marks: seq<Field>)
    ensures CodeOpen(marks) <==> IsCode(marks)
  {
    if marks != [] {
      CodeIsOpen(marks[1..]);
      if k :| 0 <= k < |marks| && marks[k].name == "inlineCode" {
        assert k > 0 ==> marks[1..][k - 1].name == "inlineCode";
      }
      if k :| 0 <= k < |marks[1..]| && marks[1..][k].name == "inlineCode" {
        assert marks[k + 1].name == "inlineCode";
      }
    }
  }

  lemma {:induction false} RanksGrow(marks: seq<Field>, k: nat)
    requires Stack(marks) && k < |marks|
    ensures k < Rank(marks[k].name)
  {
    hide Known, Rank;
    assert marks[k] in marks;
    KnownNames(marks[k]);
    if k > 0 {
      RanksGrow(marks, k - 1);
    }
  }

  /** The mark below emphasis is bold, and nothing is below bold. */
  lemma {:induction false} BelowStars(marks: seq<Field>)
    requires Stack(marks)
    ensures forall k :: 0 <= k < |marks| && marks[k].name == "strong" ==> k == 0
    ensures forall k :: 0 <= k < |marks| && marks[k].name == "em" ==> k == 0 || (k == 1 && marks[0] == STRONG)
  {
    hide Known, Rank;
    forall k | 0 <= k < |marks| && marks[k].name in {"strong", "em"}
      ensures k == 0 || (k == 1 && marks[k].name == "em" && marks[0] == STRONG)
    {
      assert marks[k] in marks && marks[0] in marks;
      RanksGrow(marks, k);
      KnownNames(marks[k]);
      KnownNames(marks[0]);
    }
  }

  // ----- closing

  /** May every mark from `keep` on close after this text? */
  ghost predicate MayClose(before: string, marks: seq<Field>, keep: nat) {
    forall k :: keep <= k < |marks| && marks[k].name != "inlineCode" ==>
      IsCode(marks) || EndsWell(marks[k].name, before)
  }

  lemma {:induction false} AfterDelimiter(before: string, name: string, outer: string)
    requires Paired(outer) && name != outer && !(outer == "strong" && name == "em")
    requires Paired(name) || name == "inlineCode"
    ensures EndsWell(outer, before + OpenText(name))
  {
    var z := before + OpenText(name);
    assert z[|z| - 1] in "*~`";
  }

  /** When the text may end them, the marks close in a row. */
  lemma {:induction false} ClosesAreClear(before: string, marks: seq<Field>, keep: nat, rest: seq<Event>)
    requires Stack(marks) && keep <= |marks| && MayClose(before, marks, keep)
    requires rest != [] && rest[0] != Closed(STRONG)
    requires |marks| > keep && marks[keep] == EM ==> !Crosses([Closed(EM)] + rest)
    requires Clear(before + Render(Closes(marks, keep)), rest, marks[..keep])
    requires (exists k :: keep <= k < |marks| && marks[k] == EM) ==> !Starred(Render(rest))
    ensures Clear(before, Closes(marks, keep) + rest, marks)
    decreases |marks|
  {
    hide Render, Clear, EventText, Starred, Closes, MayClose, Stack, Crosses, EndsBoth, Placed;
    var n := |marks|;
    var t := Closes(marks, keep) + rest;
    if n == keep {
      NothingCloses(before, marks, rest);
    } else {
      var m, less := marks[n - 1], marks[..n - 1];
      var next := before + EventText(Closed(m));
      OneCloses(before, marks, keep, rest);
      if m == EM && n - 2 >= keep {
        OnlyBoth(marks, keep);
        BothAreClear(before, rest, t);
      } else {
        StackPrefix(marks, n - 1);
        assert less[..keep] == marks[..keep];
        MayCloseNext(before, marks, keep);
        ClosesAreClear(next, less, keep, rest);
        NotBoth(marks, keep, rest);
        CloseFits(before, t, marks, keep, rest);
        ClearCons(before, t, marks);
      }
    }
  }

  lemma {:induction false} OneCloses(before: string, marks: seq<Field>, keep: nat, rest: seq<Event>)
    requires keep < |marks|
    ensures var m, less := marks[|marks| - 1], marks[..|marks| - 1];
      && (Closes(marks, keep) + rest)[0] == Closed(m)
      && (Closes(marks, keep) + rest)[1..] == Closes(less, keep) + rest
      && before + Render(Closes(marks, keep)) == before + EventText(Closed(m)) + Render(Closes(less, keep))
  {
    hide Render, EventText;
    var m, less := marks[|marks| - 1], marks[..|marks| - 1];
    assert Closes(marks, keep) == [Closed(m)] + Closes(less, keep);
    RenderHead(Closes(marks, keep));
    assert Closes(marks, keep)[1..] == Closes(less, keep);
  }

  lemma {:induction false} OnlyBoth(marks: seq<Field>, keep: nat)
    requires Stack(marks) && |marks| - 2 >= keep && marks[|marks| - 1] == EM
    ensures marks == [STRONG, EM] && keep == 0
  {
    hide Known, OuterFirst, Stack;
    BelowStars(marks);
  }

  lemma {:induction false} NothingCloses(before: string, marks: seq<Field>, rest: seq<Event>)
    requires Clear(before + Render(Closes(marks, |marks|)), rest, marks[..|marks|])
    ensures Clear(before, Closes(marks, |marks|) + rest, marks)
  {
    hide Clear;
    assert marks[..|marks|] == marks && Closes(marks, |marks|) + rest == rest;
    assert Render([]) == "" && before + "" == before;
  }

  lemma {:induction false} ClearCons(before: string, t: seq<Event>, open: seq<Field>)
    requires t != [] && !EndsBoth(t) && !Crosses(t) && Placed(before, t, open)
    requires Clear(before + EventText(t[0]), t[1..], Then(t[0], open))
    ensures Clear(before, t, open)
  {
    hide Placed, EventText, Then;
  }

  lemma {:induction false} BothAreClear(before: string, rest: seq<Event>, t: seq<Event>)
    requires MayClose(before, [STRONG, EM], 0) && t == Closes([STRONG, EM], 0) + rest
    requires Clear(before + Render(Closes([STRONG, EM], 0)), rest, [])
    requires !Starred(Render(rest))
    ensures Clear(before, t, [STRONG, EM])
  {
    hide EndsWell, Starred, Render;
    var both := [STRONG, EM];
    assert both[..1] == [STRONG] && both[..1][..0] == [];
    assert Closes([STRONG], 0) == [Closed(STRONG)] + Closes([], 0) == [Closed(STRONG)];
    assert Closes(both, 0) == [Closed(EM)] + [Closed(STRONG)] == [Closed(EM), Closed(STRONG)];
    assert t[2..] == rest && EndsBoth(t);
    BothText();
    assert both[0] == STRONG && !IsCode(both);
  }

  lemma {:induction false} BothText()
    ensures Render([Closed(EM), Closed(STRONG)]) == "***"
  {
    hide Render;
    RenderConcat([Closed(EM)], [Closed(STRONG)]);
    RenderOne(Closed(EM));
    RenderOne(Closed(STRONG));
    assert EventText(Closed(EM)) == "*" && EventText(Closed(STRONG)) == "**";
    assert [Closed(EM), Closed(STRONG)] == [Closed(EM)] + [Closed(STRONG)];
  }

  /** After the last mark closed, the others still may. */
  lemma {:induction false} MayCloseNext(before: string, marks: seq<Field>, keep: nat)
    requires Stack(marks) && keep < |marks| && !(marks[|marks| - 1] == EM && |marks| - 2 >= keep)
    ensures MayClose(before + EventText(Closed(marks[|marks| - 1])), marks[..|marks| - 1], keep)
  {
    hide Known, Rank, EndsWell;
    var n := |marks|;
    var m := marks[n - 1];
    BelowStars(marks);
    forall k | keep <= k < n - 1 && marks[k].name != "inlineCode"
      ensures EndsWell(marks[k].name, before + EventText(Closed(m)))
    {
      assert m in marks && marks[k] in marks;
      KnownNames(m);
      KnownNames(marks[k]);
      assert Rank(marks[k].name) < Rank(m.name);
      AfterDelimiter(before, m.name, marks[k].name);
    }
  }

  lemma {:induction false} NotBoth(marks: seq<Field>, keep: nat, rest: seq<Event>)
    requires Stack(marks) && keep < |marks| && !(marks[|marks| - 1] == EM && |marks| - 2 >= keep)
    requires rest != [] && rest[0] != Closed(STRONG)
    requires marks[keep] == EM ==> !Crosses([Closed(EM)] + rest)
    ensures !EndsBoth(Closes(marks, keep) + rest) && !Crosses(Closes(marks, keep) + rest)
  {
    hide Known, Rank;
    var n := |marks|;
    var less := marks[..n - 1];
    if n - 1 == keep {
      assert Closes(less, keep) == [] && Closes(marks, keep) == [Closed(marks[keep])];
      assert (Closes(marks, keep) + rest)[1] == rest[0];
    } else {
      assert Closes(marks, keep) == [Closed(marks[n - 1])] + Closes(less, keep);
      assert (Closes(marks, keep) + rest)[1] == Closed(less[n - 2]);
    }
  }

  lemma {:induction false} CloseFits(before: string, t: seq<Event>, marks: seq<Field>, keep: nat, rest: seq<Event>)
    requires Stack(marks) && keep < |marks| && !(marks[|marks| - 1] == EM && |marks| - 2 >= keep)
    requires MayClose(before, marks, keep) && t == Closes(marks, keep) + rest
    requires marks[|marks| - 1] == EM ==> !Starred(Render(rest))
    ensures Placed(before, t, marks) && t[0] == Closed(marks[|marks| - 1])
  {
    hide Known, Rank, EndsWell, Render, Starred, CodeOpen, Stack, MayClose;
    var n := |marks|;
    var m, less := marks[n - 1], marks[..n - 1];
    LastKnown(before, marks, keep);
    NotYet(marks, n - 1);
    CodeIsOpen(marks);
    GetLast(marks, "inlineCode");
    CodeCodes(marks);
    assert Closes(marks, keep) == [Closed(m)] + Closes(less, keep);
    if m == EM {
      assert Closes(less, keep) == [];
      assert t[1..] == rest;
    }
    assert m.name == "em" ==> m == EM by {
      KnownNames(m);
    }
  }

  lemma {:induction false} LastKnown(before: string, marks: seq<Field>, keep: nat)
    requires Stack(marks) && keep < |marks| && MayClose(before, marks, keep)
    ensures var m := marks[|marks| - 1];
      Known(m) && (m.name != "inlineCode" ==> IsCode(marks) || EndsWell(m.name, before))
  {
    hide Known, EndsWell, Rank;
    assert marks[|marks| - 1] in marks;
  }

  // ----- opening

  /** Marks open in a row before the text. */
  lemma {:induction false} OpensAreClear(before: string, marks: seq<Field>, k: nat, rest: seq<Event>)
    requires Stack(marks) && k <= |marks| && Begins(rest) && rest[0].Core?
    requires var text := rest[0].text; !IsSpace(text[0]) && rest[0].code == IsCode(marks)
    requires Clear(before + Render(Opens(marks, k)), rest, marks)
    ensures Clear(before, Opens(marks, k) + rest, marks[..k])
    decreases |marks| - k
  {
    hide Known, Rank, Render, Clear, EventText, OuterFirst, IsSpace, Placed, Stack, Begins, IsCode;
    if k == |marks| {
      assert marks[..k] == marks && Opens(marks, k) + rest == rest;
      NothingOpens(before);
    } else {
      var m, tail := marks[k], Opens(marks, k + 1) + rest;
      var t := Opens(marks, k) + rest;
      assert Opens(marks, k) == [Opened(m)] + Opens(marks, k + 1);
      assert t == [Opened(m)] + tail && t[1..] == tail;
      RenderHead(Opens(marks, k));
      assert Opens(marks, k)[1..] == Opens(marks, k + 1);
      var next := before + EventText(Opened(m));
      assert before + Render(Opens(marks, k)) == next + Render(Opens(marks, k + 1));
      OpensAreClear(next, marks, k + 1, rest);
      assert marks[..k] + [m] == marks[..k + 1] == Then(t[0], marks[..k]);
      OpenFits(before, t, marks, k, rest);
      ClearCons(before, t, marks[..k]);
    }
  }

  lemma {:induction false} NothingOpens(before: string)
    ensures Render([]) == "" && before + "" == before
  {
  }

  lemma {:induction false} OpenFits(before: string, t: seq<Event>, marks: seq<Field>, k: nat, rest: seq<Event>)
    requires Stack(marks) && k < |marks| && Begins(rest) && rest[0].Core?
    requires !IsSpace(rest[0].text[0]) && rest[0].code == IsCode(marks)
    requires t == Opens(marks, k) + rest
    ensures Placed(before, t, marks[..k]) && t[0] == Opened(marks[k])
  {
    hide Known, Rank, Render, EventText, OuterFirst, IsSpace, Stack, IsCode, Get, Placed, Begins, Opens;
    OpensStep(marks, k, rest);
    AllKnown(marks);
    NotYet(marks, k);
    NextOpens(marks, k, rest);
    OpenIsPlaced(before, t, marks[..k]);
  }

  lemma {:induction false} OpensStep(marks: seq<Field>, k: nat, rest: seq<Event>)
    requires k < |marks|
    ensures var t := Opens(marks, k) + rest; t != [] && t[0] == Opened(marks[k]) && t[1..] == Opens(marks, k + 1) + rest
  {
  }

  lemma {:induction false} OpenIsPlaced(before: string, t: seq<Event>, open: seq<Field>)
    requires t != [] && t[0].Opened? && Known(t[0].mark) && Begins(t[1..])
    requires Get(open, t[0].mark.name).None? && Get(open, "inlineCode").None?
    requires var y := Render(t[1..]); y != "" && !IsSpace(y[0]) && (t[0].mark.name == "em" ==> y[0] != '*')
    ensures Placed(before, t, open)
  {
    hide Known, Render, IsSpace, Get, Begins;
  }

  lemma {:induction false} AllKnown(marks: seq<Field>)
    requires Stack(marks)
    ensures forall k :: 0 <= k < |marks| ==> Known(marks[k])
  {
    hide Known, OuterFirst;
    forall k | 0 <= k < |marks| ensures Known(marks[k]) {
      assert marks[k] in marks;
    }
  }

  /** What follows an opening delimiter: another one, or the text. */
  lemma {:induction false} NextOpens(marks: seq<Field>, k: nat, rest: seq<Event>)
    requires Stack(marks) && k < |marks| && Begins(rest) && rest[0].Core?
    requires !IsSpace(rest[0].text[0]) && rest[0].code == IsCode(marks)
    ensures var tail := Opens(marks, k + 1) + rest; var y := Render(tail);
      Begins(tail) && y != "" && !IsSpace(y[0]) && (marks[k].name == "em" ==> y[0] != '*')
  {
    hide Render, EventText, OuterFirst, IsSpace, Stack, Rank, Known;
    var tail := Opens(marks, k + 1) + rest;
    AllKnown(marks);
    KnownNames(marks[k]);
    RenderHead(tail);
    if k + 1 < |marks| {
      var m := marks[k + 1];
      KnownNames(m);
      assert tail[0] == Opened(m);
      DelimiterStarts(m);
      NextRank(marks, k);
    } else {
      assert tail == rest;
      TextStarts(rest[0]);
      if marks[k].name == "em" {
        NoCodeBelow(marks, k);
      }
    }
  }

  lemma {:induction false} NextRank(marks: seq<Field>, k: nat)
    requires Stack(marks) && k + 1 < |marks|
    ensures Rank(marks[k].name) < Rank(marks[k + 1].name)
  {
    hide Rank, Known;
  }

  lemma {:induction false} NoCodeBelow(marks: seq<Field>, k: nat)
    requires Stack(marks) && k + 1 == |marks| && marks[k].name == "em"
    ensures !IsCode(marks)
  {
    hide Rank, Known;
    AllKnown(marks);
    forall j | 0 <= j < |marks| ensures marks[j].name != "inlineCode" {
      KnownNames(marks[j]);
      KnownNames(marks[k]);
    }
  }

  lemma {:induction false} DelimiterStarts(m: Field)
    requires Known(m)
    ensures var x := EventText(Opened(m));
      x != "" && !IsSpace(x[0]) && (x[0] == '*' <==> m.name == "strong" || m.name == "em")
  {
  }

  lemma {:induction false} TextStarts(e: Event)
    requires e.Core? && e.text != "" && !IsSpace(e.text[0])
    ensures var x := EventText(e); x != "" && !IsSpace(x[0]) && (!e.code ==> x[0] != '*')
  {
    hide Escape, IsSpace, Special;
    EscapeEnds(e.text);
    FirstCharacters(e.text[0], Escape(e.text)[0]);
  }

  // ----- one op

  /** The events from one text to the next. */
  function TurnEvents(active: seq<Field>, gap: string, core: string, marks: seq<Field>): seq<Event> {
    var k := Shared(active, marks);
    Closes(active, k) + [Space(gap)] + Opens(marks, k) + [Core(core, IsCode(marks))]
  }

  lemma {:induction false} EndsAsText(before: string, core: string, marks: seq<Field>)
    requires Stack(marks) && core != "" && !IsSpace(core[|core| - 1]) && Stands(core, marks)
    ensures MayClose(before + EventText(Core(core, IsCode(marks))), marks, 0)
  {
    hide IsSpace, Escape, Stack;
    if !IsCode(marks) {
      EscapeEnds(core);
      forall k | 0 <= k < |marks| ensures EndsWell(marks[k].name, before + Escape(core)) {
        assert marks[k] in marks;
      }
    }
  }

  /** Emphasis ends where bold begins. */
  predicate Crossing(active: seq<Field>, marks: seq<Field>) {
    active != [] && active[0] == EM && marks != [] && marks[0] == STRONG
  }

  /** The stars of what closes and of what opens stay apart. */
  lemma {:induction false} NoStarFollows(
      active: seq<Field>, gap: string, core: string, marks: seq<Field>, rest: seq<Event>)
    requires Stack(active) && Stack(marks) && Blank(gap) && (gap == "" ==> StarsApart(active, marks))
    requires core != "" && !IsSpace(core[0]) && (gap == "" ==> !Crossing(active, marks))
    ensures var k := Shared(active, marks);
      (exists j :: k <= j < |active| && active[j] == EM) ==>
        !Starred(Render([Space(gap)] + (Opens(marks, k) + ([Core(core, IsCode(marks))] + rest))))
  {
    hide IsSpace, Render, Known, Rank, OuterFirst, Stack, IsCode, EventText, StarsApart;
    var k := Shared(active, marks);
    var x := [Core(core, IsCode(marks))] + rest;
    var y := Opens(marks, k) + x;
    var t := [Space(gap)] + y;
    assert t[1..] == y;
    RenderHead(t);
    BlankStarts(gap);
    if gap != "" {
      return;
    }
    if j :| k <= j < |active| && active[j] == EM {
      RenderHead(y);
      if k < |marks| {
        assert y[0] == Opened(marks[k]);
        AllKnown(marks);
        DelimiterStarts(marks[k]);
        KnownNames(marks[k]);
        OpensNoStar(active, marks, j);
      } else {
        assert y[0] == x[0];
        TextStarts(x[0]);
        CodeIsInner(active, marks, j);
      }
    }
  }

  lemma {:induction false} BlankStarts(gap: string)
    requires Blank(gap)
    ensures EventText(Space(gap)) == gap && !Starred(gap)
  {
    hide IsSpace;
    StarsNotSpace();
    assert gap != "" ==> gap[0] in gap;
  }

  lemma {:induction false} OpensNoStar(active: seq<Field>, marks: seq<Field>, j: nat)
    requires Stack(active) && Stack(marks) && StarsApart(active, marks)
    requires var k := Shared(active, marks); k < |marks| && k <= j < |active| && active[j] == EM
    ensures var k := Shared(active, marks); marks[k] != EM && (marks[k] == STRONG ==> Crossing(active, marks))
  {
    hide Known, OuterFirst, Stack;
    var k := Shared(active, marks);
    BelowStars(active);
    BelowStars(marks);
    SamePoints(active, marks, k);
    assert EM in active && marks[k] in marks;
  }

  lemma {:induction false} CodeIsInner(active: seq<Field>, marks: seq<Field>, j: nat)
    requires Stack(active) && Stack(marks) && Shared(active, marks) == |marks| <= j < |active| && active[j] == EM
    ensures !IsCode(marks)
  {
    hide Known;
    SamePoints(active, marks, |marks|);
    forall i | 0 <= i < |marks| ensures marks[i].name != "inlineCode" {
      assert active[i] == marks[i];
      assert Rank(active[i].name) < Rank(active[j].name);
    }
  }

  /** One turn, when what comes after it is clear. */
  lemma {:induction false} TurnIsClear(
      before: string, active: seq<Field>, gap: string, core: string, marks: seq<Field>, rest: seq<Event>)
    requires Stack(active) && Stack(marks) && Blank(gap) && MayClose(before, active, 0)
    requires gap == "" ==> StarsApart(active, marks)
    requires core != "" && !IsSpace(core[0]) && Stands(core, marks)
    requires Clear(before + Render(TurnEvents(active, gap, core, marks)), rest, marks)
    ensures Clear(before, TurnEvents(active, gap, core, marks) + rest, active)
  {
    hide IsSpace, Render, Stack, IsCode, EventText, StarsApart, Clear, MayClose, Blank, CodeOpen, Starred;
    var k := Shared(active, marks);
    var word := Core(core, IsCode(marks));
    var c, o := Closes(active, k), Opens(marks, k);
    var x := [word] + rest;
    var y := o + x;
    var z := [Space(gap)] + y;
    TurnTexts(active, gap, core, marks);
    var b1 := before + Render(c);
    var b2 := b1 + EventText(Space(gap));
    var b3 := b2 + Render(o);
    assert before + Render(TurnEvents(active, gap, core, marks)) == b3 + EventText(word);
    CoreIsPlaced(b3, x, marks);
    assert x[1..] == rest && z[1..] == y;
    ClearCons(b3, x, marks);
    assert TurnEvents(active, gap, core, marks) + rest == c + z;
    if gap == "" && Crossing(active, marks) {
      CrossingIsClear(before, active, marks, x);
      return;
    }
    OpensAreClear(b2, marks, k, x);
    assert active[..k] == marks[..k];
    assert Placed(b1, z, active[..k]);
    ClearCons(b1, z, active[..k]);
    NoStarFollows(active, gap, core, marks, rest);
    MayCloseFewer(before, active, k);
    NoCross(active, gap, marks, x);
    ClosesAreClear(before, active, k, z);
  }

  lemma {:induction false} NoCross(active: seq<Field>, gap: string, marks: seq<Field>, x: seq<Event>)
    requires Stack(active) && Stack(marks) && !(gap == "" && Crossing(active, marks))
    requires x != [] && x[0].Core?
    ensures var k := Shared(active, marks); var z := [Space(gap)] + (Opens(marks, k) + x);
      k < |active| && active[k] == EM ==> !Crosses([Closed(EM)] + z)
  {
    hide Known, Stack, OuterFirst;
    var k := Shared(active, marks);
    var y := Opens(marks, k) + x;
    var t := [Closed(EM)] + ([Space(gap)] + y);
    assert t[1] == Space(gap) && |t| > 2 && t[2] == y[0];
    if k < |marks| {
      assert y[0] == Opened(marks[k]);
      BelowStars(marks);
    } else {
      assert y[0] == x[0];
    }
  }

  /** Emphasis ends and bold begins with nothing between. */
  lemma {:induction false} CrossingIsClear(before: string, active: seq<Field>, marks: seq<Field>, x: seq<Event>)
    requires Stack(active) && Stack(marks) && MayClose(before, active, 0) && Crossing(active, marks)
    requires Begins(x) && x[0].Core? && !IsSpace(x[0].text[0]) && x[0].code == IsCode(marks)
    requires Clear(before + Render(Closes(active, 0)) + EventText(Space("")) + Render(Opens(marks, 0)), x, marks)
    ensures Clear(before, Closes(active, 0) + ([Space("")] + (Opens(marks, 0) + x)), active)
  {
    hide IsSpace, Render, Stack, IsCode, EventText, Clear, MayClose, Starred, EndsWell;
    var o := Opens(marks, 1) + x;
    var z := [Space("")] + (Opens(marks, 0) + x);
    var t := [Closed(EM)] + z;
    var b := before + Render(Closes(active, 1));
    CrossTexts(before, active, marks);
    OpensAreClear(b + "***", marks, 1, x);
    assert marks[..1] == [STRONG];
    assert Opens(marks, 0) == [Opened(STRONG)] + Opens(marks, 1);
    assert t == [Closed(EM), Space(""), Opened(STRONG)] + o && t[3..] == o && Crosses(t);
    OpensBegin(marks, x);
    MayCloseEm(before, active);
    CrossClear(b, t, o);
    MayCloseFewer(before, active, 1);
    assert active[..1] == [EM];
    EmIsFirst(active);
    ClosesAreClear(before, active, 1, t);
    ClosesLast(active);
    assert Closes(active, 0) + z == Closes(active, 1) + t;
  }

  lemma {:induction false} CrossClear(b: string, t: seq<Event>, o: seq<Event>)
    requires Crosses(t) && t[3..] == o && EndsWell("em", b) && Begins(o) && Clear(b + "***", o, [STRONG])
    ensures Clear(b, t, [EM])
  {
    hide EndsWell, Begins;
    assert !EndsBoth(t);
  }

  lemma {:induction false} OpensBegin(marks: seq<Field>, x: seq<Event>)
    requires Begins(x) && marks != []
    ensures Begins(Opens(marks, 1) + x)
  {
    if |marks| == 1 {
      assert Opens(marks, 1) + x == x;
    }
  }

  lemma {:induction false} EmIsFirst(active: seq<Field>)
    requires Stack(active) && active != [] && active[0] == EM
    ensures forall k :: 1 <= k < |active| ==> active[k] != EM && active[k] != STRONG
  {
    hide Known, Stack, OuterFirst;
    BelowStars(active);
  }

  /** Closing all but the first, then the first. */
  lemma {:induction false} ClosesLast(active: seq<Field>)
    requires active != []
    ensures Closes(active, 0) == Closes(active, 1) + [Closed(active[0])]
    decreases |active|
  {
    if |active| == 1 {
      assert Closes(active[..0], 0) == [];
    } else {
      ClosesLast(active[..|active| - 1]);
    }
  }

  lemma {:induction false} CrossTexts(before: string, active: seq<Field>, marks: seq<Field>)
    requires Crossing(active, marks)
    ensures before + Render(Closes(active, 0)) + EventText(Space("")) + Render(Opens(marks, 0))
         == before + Render(Closes(active, 1)) + "***" + Render(Opens(marks, 1))
  {
    hide Render, Closes;
    ClosesLast(active);
    RenderConcat(Closes(active, 1), [Closed(EM)]);
    RenderOne(Closed(EM));
    assert Opens(marks, 0) == [Opened(STRONG)] + Opens(marks, 1);
    RenderConcat([Opened(STRONG)], Opens(marks, 1));
    RenderOne(Opened(STRONG));
    StarTexts();
    var c, o := Render(Closes(active, 1)), Render(Opens(marks, 1));
    assert before + (c + "*") + "" + ("**" + o) == before + c + "***" + o;
  }

  lemma {:induction false} StarTexts()
    ensures EventText(Closed(EM)) == "*" && EventText(Opened(STRONG)) == "**" && EventText(Space("")) == ""
  {
  }

  /** After the inner marks, emphasis may close. */
  lemma {:induction false} MayCloseEm(before: string, active: seq<Field>)
    requires Stack(active) && MayClose(before, active, 0) && active != [] && active[0] == EM
    ensures EndsWell("em", before + Render(Closes(active, 1)))
    decreases |active|
  {
    hide Known, Stack, Render, EndsWell, EventText;
    var n := |active|;
    if n == 1 {
      assert Closes(active, 1) == [] && Render([]) == "" && before + "" == before by {
        NothingOpens(before);
      }
      EmAlone(before, active);
    } else {
      var m, less := active[n - 1], active[..n - 1];
      var next := before + EventText(Closed(m));
      EmIsFirst(active);
      StackPrefix(active, n - 1);
      MayCloseFewer(before, active, 0);
      MayCloseNext(before, active, 0);
      MayCloseEm(next, less);
      RenderHead(Closes(active, 1));
      assert Closes(active, 1)[1..] == Closes(less, 1);
      assert before + Render(Closes(active, 1)) == next + Render(Closes(less, 1));
    }
  }

  lemma {:induction false} EmAlone(before: string, active: seq<Field>)
    requires active == [EM] && MayClose(before, active, 0)
    ensures EndsWell("em", before)
  {
    hide EndsWell;
    assert active[0] == EM && !IsCode(active);
  }

  lemma {:induction false} MayCloseFewer(before: string, active: seq<Field>, k: nat)
    requires MayClose(before, active, 0)
    ensures MayClose(before, active, k)
  {
    hide EndsWell, IsCode;
  }

  lemma {:induction false} CoreIsPlaced(before: string, x: seq<Event>, marks: seq<Field>)
    requires x != [] && x[0].Core? && x[0].code == IsCode(marks) && x[0].text != "" && Stands(x[0].text, marks)
    ensures Placed(before, x, marks) && Begins(x)
  {
    hide Render, CodeOpen;
    CodeIsOpen(marks);
  }

  lemma {:induction false} TurnTexts(active: seq<Field>, gap: string, core: string, marks: seq<Field>)
    ensures var k := Shared(active, marks);
      Render(TurnEvents(active, gap, core, marks)) == Render(Closes(active, k)) + EventText(Space(gap))
        + Render(Opens(marks, k)) + EventText(Core(core, IsCode(marks)))
  {
    hide Render, IsCode, EventText;
    var k := Shared(active, marks);
    var a, b, c, d := Closes(active, k), [Space(gap)], Opens(marks, k), [Core(core, IsCode(marks))];
    RenderConcat(a + b + c, d);
    RenderConcat(a + b, c);
    RenderConcat(a, b);
    RenderOne(b[0]);
    RenderOne(d[0]);
  }

  // ----- what the trace says

  lemma {:induction false} ClosesSay(active: seq<Field>, k: nat, rest: seq<Event>)
    requires k <= |active|
    ensures Texts(Closes(active, k) + rest, active) == Texts(rest, active[..k])
    decreases |active|
  {
    if |active| > k {
      var less := active[..|active| - 1];
      ClosesSay(less, k, rest);
      assert less[..k] == active[..k];
      assert (Closes(active, k) + rest)[1..] == Closes(less, k) + rest;
    } else {
      assert active[..k] == active && Closes(active, k) + rest == rest;
    }
  }

  lemma {:induction false} OneOpens(m: Field, rest: seq<Event>, open: seq<Field>)
    ensures Texts([Opened(m)] + rest, open) == Texts(rest, open + [m])
  {
    LettersAppend("", "", open);
    assert ([Opened(m)] + rest)[1..] == rest;
  }

  lemma {:induction false} OpensSay(marks: seq<Field>, k: nat, rest: seq<Event>)
    requires k <= |marks|
    ensures Texts(Opens(marks, k) + rest, marks[..k]) == Texts(rest, marks)
    decreases |marks| - k
  {
    if |marks| > k {
      hide Texts;
      OpensSay(marks, k + 1, rest);
      assert marks[..k] + [marks[k]] == marks[..k + 1];
      var tail := Opens(marks, k + 1) + rest;
      assert Opens(marks, k) + rest == [Opened(marks[k])] + tail;
      OneOpens(marks[k], tail, marks[..k]);
    } else {
      assert marks[..k] == marks && Opens(marks, k) + rest == rest;
    }
  }

  lemma {:induction false} TextSays(e: Event, rest: seq<Event>, open: seq<Field>)
    requires e.Space? || e.Core?
    ensures Texts([e] + rest, open) == Letters(e.text, open) + Texts(rest, open)
  {
    hide Letters;
    assert ([e] + rest)[1..] == rest;
  }

  lemma {:induction false} TurnSays(active: seq<Field>, gap: string, core: string, marks: seq<Field>, rest: seq<Event>)
    ensures Texts(TurnEvents(active, gap, core, marks) + rest, active)
         == Letters(gap, active[..Shared(active, marks)]) + Letters(core, marks) + Texts(rest, marks)
  {
    hide Texts, Letters, IsCode;
    var k := Shared(active, marks);
    var word := Core(core, IsCode(marks));
    var x := [word] + rest;
    var y := Opens(marks, k) + x;
    assert TurnEvents(active, gap, core, marks) + rest == Closes(active, k) + ([Space(gap)] + y);
    ClosesSay(active, k, [Space(gap)] + y);
    TextSays(Space(gap), y, active[..k]);
    OpensSay(marks, k, x);
    TextSays(word, rest, marks);
  }

  // ----- all ops

  /** The letters of the white space held back. */
  ghost predicate Says(held: seq<Letter>, text: string) {
    |held| == |text| && forall k :: 0 <= k < |text| ==> held[k].letter == text[k]
  }

  lemma {:induction false} SaysUnderIff(held: seq<Letter>, text: string, marks: seq<Field>)
    requires Says(held, text)
    ensures Letters(text, marks) == held <==> AllUnder(held, marks)
  {
    if AllUnder(held, marks) {
      forall k | 0 <= k < |text| ensures Letters(text, marks)[k] == held[k] {
        assert held[k] in held;
      }
    }
  }

  lemma {:induction false} SaysMore(held: seq<Letter>, text: string, more: string, marks: seq<Field>)
    requires Says(held, text)
    ensures Says(held + Letters(more, marks), text + more)
  {
  }

  lemma {:induction false} SpelledHead(ops: seq<Op>)
    requires ops != []
    ensures Spelled(ops) == Letters(ops[0].insert, ops[0].attributes) + Spelled(ops[1..])
    decreases |ops|
  {
    hide Letters, Spelled;
    var n := |ops|;
    SpelledUnfold(ops);
    if n == 1 {
      assert ops[..0] == [] && ops[1..] == [];
      SpelledNone();
    } else {
      var tail := ops[1..];
      SpelledHead(ops[..n - 1]);
      SpelledUnfold(tail);
      assert ops[..n - 1][1..] == tail[..n - 2] && tail[n - 2] == ops[n - 1];
    }
  }

  lemma {:induction false} SplitLetters(op: Op)
    ensures var p := Split(op.insert); var m := op.attributes;
      Letters(op.insert, m) == Letters(p.lead, m) + Letters(p.core, m) + Letters(p.trail, m)
  {
    hide Split;
    var p := Split(op.insert);
    LettersAppend(p.lead + p.core, p.trail, op.attributes);
    LettersAppend(p.lead, p.core, op.attributes);
  }

  /** The trace of ops that fit is clear. */
  lemma {:induction false} FittingIsClear(before: string, ops: seq<Op>, active: seq<Field>, held: string)
    requires Fitting(ops, active, held) && Blank(held) && Stack(active) && MayClose(before, active, 0)
    ensures Clear(before, TraceFrom(ops, active, held), active)
    decreases |ops|
  {
    hide Clear, Stack, MayClose, Blank, Turn, TurnEvents, Split, Closes, IsSpace;
    hide StarsApart, Stands, Shared, Wanted, Render;
    if ops == [] {
      EndIsClear(before, active, held);
    } else {
      var op, rest := ops[0], ops[1..];
      var p, marks := Split(op.insert), op.attributes;
      if p.core == "" {
        BlankConcat(held, op.insert);
        FittingIsClear(before, rest, active, held + op.insert);
      } else {
        var gap := held + p.lead;
        BlankConcat(held, p.lead);
        StackIsWanted(op);
        TurnIsEvents(active, held, op);
        TurnEnds(before, active, gap, p.core, marks);
        FittingIsClear(before + Render(TurnEvents(active, gap, p.core, marks)), rest, marks, p.trail);
        TurnIsClear(before, active, gap, p.core, marks, TraceFrom(rest, marks, p.trail));
      }
    }
  }

  lemma {:induction false} TurnIsEvents(active: seq<Field>, held: string, op: Op)
    requires Wanted(op) == op.attributes
    ensures var p := Split(op.insert);
      Turn(active, held, op) == TurnEvents(active, held + p.lead, p.core, op.attributes)
  {
    hide Split, Closes, Opens, Wanted, Shared, IsCode;
  }

  lemma {:induction false} TurnEnds(before: string, active: seq<Field>, gap: string, core: string, marks: seq<Field>)
    requires Stack(marks) && core != "" && !IsSpace(core[|core| - 1]) && Stands(core, marks)
    ensures MayClose(before + Render(TurnEvents(active, gap, core, marks)), marks, 0)
  {
    hide Stack, IsSpace, Stands, MayClose, Render, EventText, IsCode, TurnEvents;
    TurnTexts(active, gap, core, marks);
    var k := Shared(active, marks);
    var b := before + (Render(Closes(active, k)) + EventText(Space(gap)) + Render(Opens(marks, k)));
    EndsAsText(b, core, marks);
    assert before + Render(TurnEvents(active, gap, core, marks)) == b + EventText(Core(core, IsCode(marks)));
  }

  lemma {:induction false} EndIsClear(before: string, active: seq<Field>, held: string)
    requires Blank(held) && Stack(active) && MayClose(before, active, 0)
    ensures Clear(before, TraceFrom([], active, held), active)
  {
    hide Closes, MayClose, Stack, IsSpace, Render;
    var z := [Space(held)];
    var next := before + Render(Closes(active, 0));
    assert z[1..] == [] && active[..0] == [];
    assert Clear(next + EventText(z[0]), [], []);
    ClearCons(next, z, []);
    RenderOne(Space(held));
    SpacesNoStar(held);
    ClosesAreClear(before, active, 0, z);
  }

  lemma {:induction false} SpacesNoStar(text: string)
    requires Blank(text)
    ensures !Starred(EventText(Space(text)))
  {
    hide IsSpace, Starred;
    BlankStarts(text);
  }

  // ----- white space

  /** The trace says what the ops say exactly when white space stays under its marks. */
  lemma {:induction false} TraceSaysOpsIff(ops: seq<Op>, active: seq<Field>, text: string, held: seq<Letter>)
    requires Fitting(ops, active, text) && Says(held, text)
    ensures Texts(TraceFrom(ops, active, text), active) == held + Spelled(ops) <==> WhiteStays(ops, active, held)
    decreases |ops|
  {
    hide Texts, Spelled, Letters, Says, Stack, Turn, TurnEvents, Split, Closes, IsSpace, AllUnder;
    hide StarsApart, Stands, Shared, Wanted;
    if ops == [] {
      EndSays(active, text, held);
    } else {
      var op, rest := ops[0], ops[1..];
      var p, marks := Split(op.insert), op.attributes;
      SpelledHead(ops);
      if p.core == "" {
        SaysMore(held, text, op.insert, marks);
        TraceSaysOpsIff(rest, active, text + op.insert, held + Letters(op.insert, marks));
        assert held + Letters(op.insert, marks) + Spelled(rest) == held + Spelled(ops);
      } else {
        var gap, shared := held + Letters(p.lead, marks), active[..Shared(active, marks)];
        var after := TraceFrom(rest, marks, p.trail);
        SaysMore(held, text, p.lead, marks);
        SaysNothing(p.trail, marks);
        StackIsWanted(op);
        TurnIsEvents(active, text, op);
        TraceSaysOpsIff(rest, marks, p.trail, Letters(p.trail, marks));
        TurnSays(active, text + p.lead, p.core, marks, after);
        SaysUnderIff(gap, text + p.lead, shared);
        SplitLetters(op);
        SameSize(shared, text + p.lead, gap);
        Regroup(
          held, Letters(p.lead, marks), Letters(p.core, marks), Letters(p.trail, marks), Spelled(rest),
          Letters(op.insert, marks));
        PartsAgreeIff(
          Letters(text + p.lead, shared), gap, Letters(p.core, marks), Texts(after, marks),
          Letters(p.trail, marks) + Spelled(rest));
      }
    }
  }

  lemma {:induction false} SameSize(marks: seq<Field>, text: string, held: seq<Letter>)
    requires Says(held, text)
    ensures |Letters(text, marks)| == |held|
  {
  }

  lemma {:induction false} Regroup(
      h: seq<Letter>, l: seq<Letter>, c: seq<Letter>, t: seq<Letter>, d: seq<Letter>, all: seq<Letter>)
    requires all == l + c + t
    ensures h + (all + d) == h + l + c + (t + d)
  {
  }

  lemma {:induction false} PartsAgreeIff(a: seq<Letter>, b: seq<Letter>, c: seq<Letter>, x: seq<Letter>, y: seq<Letter>)
    requires |a| == |b|
    ensures a + c + x == b + c + y <==> a == b && x == y
  {
    var n, m := |a|, |a| + |c|;
    assert (a + c + x)[..n] == a && (b + c + y)[..n] == b;
    assert (a + c + x)[m..] == x && (b + c + y)[m..] == y;
  }

  lemma {:induction false} SpelledNone()
    ensures Spelled([]) == []
  {
  }

  lemma {:induction false} SaysNothing(text: string, marks: seq<Field>)
    ensures Says(Letters(text, marks), text)
  {
  }

  lemma {:induction false} EndSays(active: seq<Field>, text: string, held: seq<Letter>)
    requires Says(held, text)
    ensures Texts(TraceFrom([], active, text), active) == held + Spelled([]) <==> AllUnder(held, [])
  {
    hide Closes, Letters, Says, AllUnder;
    var z := [Space(text)];
    assert active[..0] == [];
    ClosesSay(active, 0, z);
    TextSays(z[0], [], []);
    assert z + [] == z;
    SpelledNone();
    SaysUnderIff(held, text, []);
    assert Letters(text, []) + Texts([], []) == Letters(text, []) && held + [] == held;
  }

  // ----- the same letters in the same ops

  ghost predicate Compact(ops: seq<Op>) {
    NeighboursDiffer(ops) && forall op <- ops :: op.insert != ""
  }

  lemma {:induction false} CompactInit(ops: seq<Op>)
    requires Compact(ops) && ops != []
    ensures Compact(ops[..|ops| - 1]) && ops[|ops| - 1].insert != ""
  {
    assert forall op <- ops[..|ops| - 1] :: op in ops;
    assert ops[|ops| - 1] in ops;
  }

  lemma {:induction false} LastLetter(ops: seq<Op>)
    requires Compact(ops) && ops != []
    ensures var l := Spelled(ops); l != [] && l[|l| - 1].marks == ops[|ops| - 1].attributes
  {
    CompactInit(ops);
  }

  /** The last op cannot reach further back in one than in the other. */
  lemma {:induction false} LastNoLonger(a: seq<Op>, b: seq<Op>)
    requires Compact(a) && Compact(b) && a != [] && b != [] && Spelled(a) == Spelled(b)
    ensures |a[|a| - 1].insert| <= |b[|b| - 1].insert|
  {
    hide Spelled, Letters, Compact;
    var x, y := a[|a| - 1], b[|b| - 1];
    var front := b[..|b| - 1];
    LastLetter(a);
    LastLetter(b);
    LastOp(a);
    LastOp(b);
    var l, n := Spelled(a), |y.insert|;
    if |x.insert| > n {
      CompactInit(b);
      var j := |l| - n - 1;
      var h := |Spelled(a[..|a| - 1])|;
      assert |l| == h + |x.insert| && h <= j;
      assert l[j].marks == x.attributes;
      assert Spelled(front) != [] && l[j] == Spelled(front)[j] && j == |Spelled(front)| - 1;
      FrontNotEmpty(front);
      LastLetter(front);
      FrontDiffers(b);
    }
  }

  lemma {:induction false} FrontNotEmpty(front: seq<Op>)
    requires Spelled(front) != []
    ensures front != []
  {
  }

  lemma {:induction false} FrontDiffers(ops: seq<Op>)
    requires Compact(ops) && |ops| > 1
    ensures var front := ops[..|ops| - 1]; front[|front| - 1].attributes != ops[|ops| - 1].attributes
  {
    assert ops[|ops| - 2].attributes != ops[|ops| - 1].attributes;
  }

  lemma {:induction false} LastOp(ops: seq<Op>)
    requires ops != []
    ensures var op, front := ops[|ops| - 1], Spelled(ops[..|ops| - 1]); var l := Spelled(ops);
      && l == front + Letters(op.insert, op.attributes) && |l| == |front| + |op.insert|
      && forall k :: |front| <= k < |l| ==> l[k] == Letter(op.insert[k - |front|], op.attributes)
  {
    hide Spelled;
    SpelledUnfold(ops);
  }

  lemma {:induction false} SpelledUnfold(ops: seq<Op>)
    requires ops != []
    ensures Spelled(ops) == Spelled(ops[..|ops| - 1]) + Letters(ops[|ops| - 1].insert, ops[|ops| - 1].attributes)
  {
  }

  /** Ops with something in them and other marks than the next are settled by their letters. */
  lemma {:induction false} LettersSettleOps(a: seq<Op>, b: seq<Op>)
    requires Compact(a) && Compact(b) && Spelled(a) == Spelled(b)
    ensures a == b
    decreases |a|
  {
    hide Spelled, Letters, Compact;
    if a == [] || b == [] {
      NoOps(a);
      NoOps(b);
    } else {
      LastNoLonger(a, b);
      LastNoLonger(b, a);
      LastOp(a);
      LastOp(b);
      LastLetter(a);
      LastLetter(b);
      var x, y, f, g := a[|a| - 1], b[|b| - 1], Spelled(a[..|a| - 1]), Spelled(b[..|b| - 1]);
      var l := Spelled(a);
      assert f == l[..|f|] && g == l[..|g|] && |f| == |g|;
      assert x.insert == y.insert by {
        forall k | 0 <= k < |x.insert| ensures x.insert[k] == y.insert[k] {
          assert l[|f| + k] == Letter(x.insert[|f| + k - |f|], x.attributes);
          assert l[|g| + k] == Letter(y.insert[|g| + k - |g|], y.attributes);
        }
      }
      CompactInit(a);
      CompactInit(b);
      LettersSettleOps(a[..|a| - 1], b[..|b| - 1]);
      assert a == a[..|a| - 1] + [x] && b == b[..|b| - 1] + [y];
    }
  }

  lemma {:induction false} NoOps(ops: seq<Op>)
    requires Compact(ops)
    ensures Spelled(ops) == [] <==> ops == []
  {
    hide Spelled, Letters, Compact;
    if ops == [] {
      SpelledNone();
    } else {
      LastLetter(ops);
    }
  }

  // ----- the round trip

  /** Ops that fit, written and read, give each letter under the marks it was written under. */
  lemma {:induction false} FittingIsRead(ops: seq<Op>)
    requires Fitting(ops, [], "")
    ensures Spelled(Read(Render(Trace(ops)))) == Texts(Trace(ops), [])
  {
    hide Fitting, Spelled, Read, Render, Clear, Texts;
    FittingIsClear("", ops, [], "");
    ClearIsRead(Trace(ops));
  }

  /** They give the letters and marks of the ops exactly when no white space is moved out of a mark. */
  lemma {:induction false} LettersComeBackIff(ops: seq<Op>)
    requires Fitting(ops, [], "")
    ensures Spelled(Read(Render(Trace(ops)))) == Spelled(ops) <==> WhiteStays(ops, [], [])
  {
    hide Fitting, WhiteStays, Spelled, Read, Render, Texts;
    FittingIsRead(ops);
    TraceSaysOpsIff(ops, [], "", []);
    assert [] + Spelled(ops) == Spelled(ops);
  }

  /** And the very ops, when they hold text and no two in a row have the same marks. */
  lemma {:induction false} OpsComeBackIff(ops: seq<Op>)
    requires Fitting(ops, [], "")
    ensures Read(Render(Trace(ops))) == ops <==> WhiteStays(ops, [], []) && Compact(ops)
  {
    hide Fitting, WhiteStays, Spelled, Read, Render, AllMade, NeighboursDiffer;
    var md := Render(Trace(ops));
    LettersComeBackIff(ops);
    ReadIsSound(md);
    MadeIsCompact(Read(md));
    if WhiteStays(ops, [], []) && Compact(ops) {
      LettersSettleOps(Read(md), ops);
    }
  }

  lemma {:induction false} MadeIsCompact(ops: seq<Op>)
    requires MadeOps(ops) && NeighboursDiffer(ops)
    ensures Compact(ops)
  {
    hide AllMade, NeighboursDiffer;
  }

  // ----- four stars

  const FOUR: string := "***b****c***d**"

  /** Bold emphasis, emphasis and bold directly after one another. */
  const FOUR_OPS: seq<Op> := [Op("b", [STRONG, EM]), Op("c", [EM]), Op("d", [STRONG])]

  lemma {:induction false} FourPlaces()
    ensures var md := FOUR;
      && |md| == 15 && md[3] == 'b' && md[8] == 'c' && md[12] == 'd'
      && forall k :: 0 <= k < 15 && k != 3 && k != 8 && k != 12 ==> md[k] == '*'
  {
  }

  lemma {:induction false} FourClosers()
    ensures Closer(FOUR, "**", 3) && Closer(FOUR, "**", 9) && Closer(FOUR, "*", 4)
    ensures !Closer(FOUR, "**", 16) && !Closer(FOUR, "*", 15)
  {
    hide IsSpace, Closer;
    var md := FOUR;
    FourPlaces();
    StarsNotSpace();
    LettersNotSpace();
    assert md[4..6] == "**" && md[9..11] == "**" && md[4..5] == "*";
    OccursPair(md, '*', 3);
    OccursPair(md, '*', 8);
    CloserAt(md, "**", 3, 4);
    CloserAt(md, "**", 9, 9);
    CloserAt(md, "*", 4, 4);
    NoIndex(md, "**", 16);
    NoIndex(md, "*", 15);
    CloserUnfold(md, "**", 16);
    CloserUnfold(md, "*", 15);
  }

  lemma {:induction false} LettersNotSpace()
    ensures forall c | c in "bcd" :: !IsSpace(c)
  {
  }

  lemma {:induction false} TwoGets()
    ensures Get([STRONG], "em").None? && Get([STRONG, EM], "strong").Some? && Get([EM], "strong").None?
    ensures Get([EM, STRONG], "strong").Some? && Get([EM], "em").Some?
    ensures Get([STRONG], "inlineCode").None? && Get([EM], "inlineCode").None?
    ensures Get([STRONG, EM], "inlineCode").None? && Get([EM, STRONG], "inlineCode").None?
    ensures Put([STRONG], EM) == [STRONG, EM] && Put([EM], STRONG) == [EM, STRONG]
    ensures Without([STRONG, EM], "strong") == [EM] && Without([EM, STRONG], "strong") == [EM]
        && Without([EM], "em") == []
  {
    assert [STRONG, EM][1..] == [EM] && [EM, STRONG][1..] == [STRONG] && [EM][1..] == [] && [STRONG][1..] == [];
    assert Without([], "strong") == [] && Without([], "em") == [];
    assert Without([EM], "strong") == [EM] + [] && Without([STRONG], "strong") == [];
    assert Put([], EM) == [EM] && Put([], STRONG) == [STRONG];
    assert Get([EM], "strong") == Get([], "strong") && Get([STRONG], "em") == Get([], "em");
    assert Get([STRONG, EM], "inlineCode") == Get([EM], "inlineCode") == Get([], "inlineCode");
    assert Get([EM, STRONG], "inlineCode") == Get([STRONG], "inlineCode") == Get([], "inlineCode");
    assert Get([EM, STRONG], "strong") == Get([STRONG], "strong");
  }

  const S1: Scan := Scan([], [STRONG], "", map["strong" := 0], 2)
  const S2: Scan := Scan([], [STRONG, EM], "b", map["strong" := 0, "em" := 0], 4)
  const S3: Scan := Scan([Op("b", [STRONG, EM])], [EM], "", map["em" := 1], 6)
  const S4: Scan := Scan(S3.ops, [EM, STRONG], "c", map["em" := 1, "strong" := 0], 9)
  const S5: Scan := Scan(S3.ops + [Op("c", [EM, STRONG])], [EM], "", map["em" := 2], 11)
  const S6: Scan := Scan(S5.ops, [], "d", map[], 13)

  lemma {:induction false} FourOpens()
    ensures Scanned(FOUR, START) == Scanned(FOUR, S2)
  {
    hide Scanned, Closer, IsSpace, Get, Put, Without;
    var md := FOUR;
    FourPlaces();
    FourClosers();
    StarsNotSpace();
    LettersNotSpace();
    TwoGets();
    NoMarks();
    assert md[0..] == "**" + "*b****c***d**" && md[2..] == "*" + "b****c***d**";
    OpensHere(md, START, "strong", "*b****c***d**");
    ToggledFromStart("strong", 2);
    OpensHere(md, S1, "em", "b****c***d**");
    var s := Toggled(S1, "em", 1);
    assert s == Scan([], [STRONG, EM], "", map["strong" := 0, "em" := 0], 3);
    LetterPasses(s, 'b');
  }

  lemma {:induction false} LetterPasses(s: Scan, c: char)
    requires s.i < |FOUR| && FOUR[s.i] == c && c in "bcd" && !InCode(s) && s.buffer == ""
    ensures Scanned(FOUR, s) == Scanned(FOUR, s.(buffer := [c], i := s.i + 1))
  {
    hide InCode, Delimiter;
    assert !Special(c);
    PlainHasNoDelimiter(FOUR, s);
    TakeStep(FOUR, s);
    Unfold(FOUR, s);
    assert "" + [c] == [c];
  }

  lemma {:induction false} FourBold()
    ensures Scanned(FOUR, S2) == Scanned(FOUR, S3)
  {
    hide Scanned, IsSpace, Get, Put, Without;
    var md := FOUR;
    FourPlaces();
    LettersNotSpace();
    TwoGets();
    assert md[4..] == "**" + "**c***d**";
    ClosesHere(md, S2, "strong", "**c***d**");
    FourCounts();
    assert Toggled(S2, "strong", 2) == S3;
  }

  lemma {:induction false} FourCounts()
    ensures Counted(S2.since, S2.marks, 1) == map["strong" := 1, "em" := 1]
    ensures Counted(S4.since, S4.marks, 1) == map["em" := 2, "strong" := 1]
  {
    assert S2.marks[1..] == [EM] && S4.marks[1..] == [STRONG] && [EM][1..] == [] && [STRONG][1..] == [];
    var a := map["strong" := 0, "em" := 0]["strong" := 1];
    assert a == map["strong" := 1, "em" := 0] && a["em" := 1] == map["strong" := 1, "em" := 1];
    var b := map["em" := 1, "strong" := 0]["em" := 2];
    assert b == map["em" := 2, "strong" := 0] && b["strong" := 1] == map["em" := 2, "strong" := 1];
    assert Counted(map["strong" := 1, "em" := 0], [EM], 1) == Counted(map["strong" := 1, "em" := 1], [], 1);
    assert Counted(map["em" := 2, "strong" := 0], [STRONG], 1) == Counted(map["em" := 2, "strong" := 1], [], 1);
  }

  /** The third and the fourth star open bold again, since bold is closed later. */
  lemma {:induction false} FourReopens()
    ensures Scanned(FOUR, S3) == Scanned(FOUR, S4)
  {
    hide Scanned, Closer, IsSpace, Get, Put, Without;
    var md := FOUR;
    FourPlaces();
    FourClosers();
    LettersNotSpace();
    TwoGets();
    assert md[6..] == "**" + "c***d**";
    OpensHere(md, S3, "strong", "c***d**");
    var s := Toggled(S3, "strong", 2);
    assert s == Scan(S3.ops, [EM, STRONG], "", map["em" := 1, "strong" := 0], 8);
    LetterPasses(s, 'c');
  }

  lemma {:induction false} FourCloses()
    ensures Scanned(FOUR, S4) == Scanned(FOUR, S5)
  {
    hide Scanned, IsSpace, Get, Put, Without;
    var md := FOUR;
    FourPlaces();
    LettersNotSpace();
    TwoGets();
    assert md[9..] == "**" + "*d**";
    ClosesHere(md, S4, "strong", "*d**");
    FourCounts();
    assert Toggled(S4, "strong", 2) == S5;
  }

  lemma {:induction false} FourEnds()
    ensures Scanned(FOUR, S5) == Scanned(FOUR, S6)
  {
    hide Scanned, IsSpace, Get, Put, Without;
    var md := FOUR;
    FourPlaces();
    StarsNotSpace();
    TwoGets();
    assert md[11..] == "*" + "d**";
    ClosesHere(md, S5, "em", "d**");
    var s := Toggled(S5, "em", 1);
    assert s == Scan(S5.ops, [], "", map[], 12);
    NoMarks();
    LetterPasses(s, 'd');
  }

  lemma {:induction false} NoMarks()
    ensures forall name :: Get([], name).None?
  {
  }

  /** The last two stars find nothing to close. */
  lemma {:induction false} FourStars()
    ensures Scanned(FOUR, S6) == S6.(buffer := "d**", i := 15)
  {
    hide Scanned, Closer, IsSpace, Get;
    var md := FOUR;
    FourPlaces();
    FourClosers();
    NoMarks();
    assert md[13..14] == "*";
    TakeStep(md, S6);
    Unfold(md, S6);
    var s := Taken(S6, "*", 1);
    TakeStep(md, s);
    Unfold(md, s);
    assert "d" + "*" + "*" == "d**";
    AtEnd(md, Taken(s, "*", 1));
  }

  lemma {:induction false} OneLetter(c: char, marks: seq<Field>)
    requires c in "bcd" && Stack(marks)
    ensures var op := Op([c], marks);
      Split(op.insert) == Parts("", [c], "") && Wanted(op) == marks && Escape([c]) == [c]
  {
    hide Stack, Split, Escape;
    StackIsWanted(Op([c], marks));
    SplitCore([c]);
    assert !Special(c);
    EscapeLetter(c);
  }

  lemma {:induction false} EscapeLetter(c: char)
    requires !Special(c)
    ensures Escape([c]) == [c]
  {
    assert Escape([c][1..]) == "";
  }

  lemma {:induction false} FourStacks()
    ensures Stack([STRONG, EM]) && Stack([EM]) && Stack([STRONG])
    ensures !IsCode([STRONG, EM]) && !IsCode([EM]) && !IsCode([STRONG])
    ensures Shared([], [STRONG, EM]) == 0 && Shared([STRONG, EM], [EM]) == 0 && Shared([EM], [STRONG]) == 0
  {
    assert Rank("strong") == 1 && Rank("em") == 2;
  }

  lemma {:induction false} FourDelimiters()
    ensures Render(Closes([], 0)) == "" && Render(Closes([STRONG, EM], 0)) == "***"
    ensures Render(Closes([EM], 0)) == "*" && Render(Closes([STRONG], 0)) == "**"
    ensures Render(Opens([STRONG, EM], 0)) == "***" && Render(Opens([EM], 0)) == "*"
        && Render(Opens([STRONG], 0)) == "**"
  {
    hide Render;
    BothText();
    NothingOpen();
    OneMarkTexts(EM);
    OneMarkTexts(STRONG);
    assert [STRONG, EM][..1] == [STRONG] && [STRONG][..0] == [];
    assert Closes([STRONG], 0) == [Closed(STRONG)] + Closes([], 0) == [Closed(STRONG)];
    assert Closes([STRONG, EM], 0) == [Closed(EM)] + [Closed(STRONG)] == [Closed(EM), Closed(STRONG)];
    assert Opens([STRONG, EM], 0) == [Opened(STRONG)] + Opens([STRONG, EM], 1);
    assert Opens([STRONG, EM], 1) == [Opened(EM)] + Opens([STRONG, EM], 2) == [Opened(EM)];
    RenderConcat([Opened(STRONG)], [Opened(EM)]);
    RenderOne(Opened(STRONG));
    RenderOne(Opened(EM));
  }

  lemma {:induction false} FourTurn(k: nat, active: seq<Field>, c: char, marks: seq<Field>, x: string, y: string)
    requires k < 3 && FOUR_OPS[k] == Op([c], marks) && c in "bcd" && Stack(marks) && !IsCode(marks)
    requires Shared(active, marks) == 0 && Render(Closes(active, 0)) == x && Render(Opens(marks, 0)) == y
    ensures Render(TraceFrom(FOUR_OPS[k..], active, ""))
         == (x + y + [c]) + Render(TraceFrom(FOUR_OPS[k + 1..], marks, ""))
  {
    hide Render, Turn, Wanted, Split, Stack, Closes, Opens, Shared, Escape, IsCode, TraceFrom;
    OneLetter(c, marks);
    TraceStep(FOUR_OPS, k, active, "");
    TurnText(active, "", FOUR_OPS[k]);
    assert x + ("" + "") + y + [c] == x + y + [c];
  }

  /** It is what the writer writes. */
  lemma {:induction false} FourIsWritten()
    ensures Render(Trace(FOUR_OPS)) == FOUR
  {
    hide Render, Stack, Closes, Opens, Shared, IsCode, TraceFrom;
    var ops := FOUR_OPS;
    FourStacks();
    FourDelimiters();
    assert ops[0..] == ops && ops[3..] == [];
    FourTurn(0, [], 'b', [STRONG, EM], "", "***");
    FourTurn(1, [STRONG, EM], 'c', [EM], "***", "*");
    FourTurn(2, [EM], 'd', [STRONG], "*", "**");
    TraceEnd([STRONG], "");
    assert "" + "***" + ['b'] == "***b" && "***" + "*" + ['c'] == "****c" && "*" + "**" + ['d'] == "***d"
        && "**" + "" == "**";
    assert FOUR == "***b" + ("****c" + ("***d" + "**"));
  }

  /**
    Bold with emphasis directly before emphasis: the stars run together, and what is read has other words and marks.
   */
  lemma {:induction false} FourStarsAreMisread()
    ensures Read(Render(Trace(FOUR_OPS))) == [Op("b", [STRONG, EM]), Op("c", [EM, STRONG]), Op("d**", [])]
  {
    hide Scanned, Read, Merged, Render, Trace;
    FourIsWritten();
    FourOpens();
    FourBold();
    FourReopens();
    FourCloses();
    FourEnds();
    FourStars();
    var e := S6.(buffer := "d**", i := 15);
    ReadEnds(FOUR, e);
    var ops := [Op("b", [STRONG, EM]), Op("c", [EM, STRONG]), Op("d**", [])];
    assert Flushed(e).ops == ops;
    assert [STRONG, EM][0] != [EM, STRONG][0];
    MergedApart(ops);
  }
}
