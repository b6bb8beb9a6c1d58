/**
  Code spans, written and read back (packages/core/src/doc/inlineMarkdown.ts).

  The reader emits at most one letter for each character it passes. A code text comes back only if
  the two delimiters are all that is dropped, which settles when it does.
 */
module MarkdownCode {
  import opened Common
  import opened Markdown
  import opened MarkdownReader
  import opened MarkdownTheorems
  import opened MarkdownRoundTrip

  // ----- letters emitted and characters passed

  /** The letters taken so far. */
  function Emitted(s: Scan): nat {
    |OpsText(s.ops)| + |s.buffer|
  }

  lemma {:induction false} FlushedEmits(s: Scan)
    ensures Emitted(Flushed(s)) == Emitted(s)
  {
    hide OpsText, Counted;
    OpsTextConcat(s.ops, [Op(s.buffer, s.marks)]);
    TextOfOne(s.buffer, s.marks);
  }

  lemma {:induction false} ToggledEmits(s: Scan, name: string, len: nat)
    ensures Emitted(Toggled(s, name, len)) == Emitted(s) && Toggled(s, name, len).i == s.i + len
  {
    hide OpsText, Flushed;
    FlushedEmits(s);
    FlushedPlace(s);
  }

  lemma {:induction false} SubseqIsShorter(a: string, b: string)
    requires IsSubseq(a, b)
    ensures |a| <= |b|
    decreases |b|
  {
    if a != "" {
      if a[0] == b[0] && IsSubseq(a[1..], b[1..]) {
        SubseqIsShorter(a[1..], b[1..]);
      } else {
        SubseqIsShorter(a, b[1..]);
      }
    }
  }

  lemma {:induction false} LinkEmits(s: Scan, link: Link)
    ensures Emitted(LinkTaken(s, link, Read(link.inner))) <= Emitted(s) + |link.inner|
    ensures LinkTaken(s, link, Read(link.inner)).i == s.i + link.length
  {
    hide OpsText, Flushed, Read, Linked, IsSubseq;
    var inner, f := Read(link.inner), Flushed(s);
    var mark := LinkMark(link.href, link.title);
    FlushedEmits(s);
    FlushedPlace(s);
    ReadIsSound(link.inner);
    SubseqIsShorter(OpsText(inner), link.inner);
    LinkedText(inner, f.marks, mark);
    OpsTextConcat(f.ops, Linked(inner, f.marks, mark));
  }

  lemma {:induction false} LinkedText(inner: seq<Op>, marks: seq<Field>, mark: Field)
    ensures OpsText(Linked(inner, marks, mark)) == OpsText(inner)
  {
    hide Put, Spread;
    SameText(inner, Linked(inner, marks, mark));
  }

  /** A pass emits at most what it passes, and as much only when it takes the character it is at. */
  lemma {:induction false} PassedEmits(markdown: string, s: Scan)
    requires s.i < |markdown|
    ensures var r := Passed(markdown, s);
      && Emitted(r) <= Emitted(s) + (r.i - s.i)
      && (Emitted(r) == Emitted(s) + (r.i - s.i) ==> r == Taken(s, [markdown[s.i]], 1))
  {
    hide Toggled, LinkTaken, Read, Delimiter, LinkAt, InCode, IndexOf, OpsText;
    var link := LinkHere(markdown, s);
    if link.Some? {
      LinkEmits(s, link.value);
    } else {
      ToggledEmits(s, "inlineCode", 1);
      var d := Delimiter(markdown, s);
      if d.Some? {
        ToggledEmits(s, d.value.0, d.value.1);
      }
    }
  }

  /** So does the whole loop: as many letters as characters only when every one of them was taken as it stood. */
  lemma {:induction false} ScannedEmits(markdown: string, s: Scan)
    requires s.i <= |markdown|
    ensures var e := Scanned(markdown, s);
      && Emitted(e) <= Emitted(s) + (|markdown| - s.i)
      && (Emitted(e) == Emitted(s) + (|markdown| - s.i) ==> e == Taken(s, markdown[s.i..], |markdown| - s.i))
    decreases |markdown| - s.i
  {
    hide Passed, OpsText;
    if s.i == |markdown| {
      AtEnd(markdown, s);
      assert s.buffer + markdown[s.i..] == s.buffer;
    } else {
      Unfold(markdown, s);
      PassedEmits(markdown, s);
      var r := Passed(markdown, s);
      ScannedEmits(markdown, r);
      if r == Taken(s, [markdown[s.i]], 1) {
        assert markdown[s.i..] == [markdown[s.i]] + markdown[s.i + 1..];
        assert s.buffer + [markdown[s.i]] + markdown[s.i + 1..] == s.buffer + markdown[s.i..];
      }
    }
  }

  // ----- inside code

  lemma {:induction false} CodeStep(markdown: string, s: Scan)
    requires s.i < |markdown| && markdown[s.i] == '`' && (InCode(s) || IndexOf(markdown, "`", s.i + 1).Some?)
    ensures Passed(markdown, s) == Toggled(s, "inlineCode", 1)
  {
    hide Toggled, Delimiter, IndexOf;
  }

  lemma {:induction false} InsideCode(markdown: string, s: Scan)
    requires s.i < |markdown| && InCode(s) && markdown[s.i] != '`' && markdown[s.i] != '\\'
    ensures Passed(markdown, s) == Taken(s, [markdown[s.i]], 1)
  {
  }

  /** In code, text without backslash and backtick is taken as it stands. */
  lemma {:induction false} PassCode(markdown: string, s: Scan, text: string, rest: string)
    requires s.i <= |markdown| && markdown[s.i..] == text + rest && InCode(s) && '\\' !in text && '`' !in text
    ensures s.i + |text| <= |markdown|
    ensures Scanned(markdown, s) == Scanned(markdown, Taken(s, text, |text|))
    decreases |text|
  {
    hide Passed;
    if text == "" {
      assert s.buffer + "" == s.buffer;
    } else {
      assert markdown[s.i] == markdown[s.i..][0] == text[0];
      assert markdown[s.i + 1..] == markdown[s.i..][1..] == text[1..] + rest;
      InsideCode(markdown, s);
      PassCode(markdown, Taken(s, [text[0]], 1), text[1..], rest);
      assert s.buffer + [text[0]] + text[1..] == s.buffer + text;
    }
  }

  function CodeText(text: string): string {
    "`" + text + "`"
  }

  const CODE: Field := PairMark("inlineCode")

  const OPENED: Scan := Scan([], [CODE], "", map["inlineCode" := 0], 1)

  /** The first backtick opens code, since another one follows. */
  lemma {:induction false} CodeOpens(text: string)
    ensures Scanned(CodeText(text), START) == Scanned(CodeText(text), OPENED)
    ensures InCode(OPENED) && CodeText(text)[1..] == text + "`"
  {
    hide Passed, Toggled, IndexOf;
    var md := CodeText(text);
    var n := |md|;
    assert md[n - 1..n] == "`";
    IndexOfIs(md, "`", 1);
    assert OccursAt(md, "`", n - 1);
    CodeStep(md, START);
    ToggledFromStart("inlineCode", 1);
  }

  /** A written code text without backslash and backtick comes back. */
  lemma {:induction false} CodeIsRead(text: string)
    requires text != "" && '\\' !in text && '`' !in text
    ensures Read(CodeText(text)) == [Op(text, [CODE])]
  {
    hide Read, Passed, Toggled, IndexOf;
    var md := CodeText(text);
    CodeOpens(text);
    PassCode(md, OPENED, text, "`");
    var u := Taken(OPENED, text, |text|);
    assert "" + text == text && md[u.i] == '`';
    CodeStep(md, u);
    var e := Toggled(u, "inlineCode", 1);
    ToggledToEnd(u, "inlineCode", 1);
    AtEnd(md, e);
    ReadEnds(md, e);
    MergedOne(Op(text, [CODE]));
  }

  // ----- what does not come back

  lemma {:induction false} WithoutHasNot(fields: seq<Field>, f: Field, name: string)
    requires f in Without(fields, name)
    ensures f.name != name && f in fields
  {
    if f !in Without(fields[1..], name) {
      assert f == fields[0];
    } else {
      WithoutHasNot(fields[1..], f, name);
    }
  }

  lemma {:induction false} WithoutAllHasNot(fields: seq<Field>, names: seq<Field>, f: Field)
    requires f in WithoutAll(fields, names)
    ensures f in fields && forall g <- names :: g.name != f.name
    decreases |names|
  {
    hide Without;
    if names != [] {
      WithoutAllHasNot(Without(fields, names[0].name), names[1..], f);
      WithoutHasNot(fields, f, names[0].name);
      assert names == [names[0]] + names[1..];
    }
  }

  lemma {:induction false} GetIsMember(fields: seq<Field>, name: string)
    requires Get(fields, name).Some?
    ensures exists f :: f in fields && f.name == name
  {
    if fields[0].name == name {
      assert fields[0] in fields;
    } else {
      GetIsMember(fields[1..], name);
      var f :| f in fields[1..] && f.name == name;
      assert f in fields;
    }
  }

  /**
    Merging keeps each op's marks: what an op of the result carries, some op carried, and the last op's marks stay
    last.
   */
  lemma {:induction false} MergedMarks(ops: seq<Op>)
    ensures ops != [] ==> Merged(ops) != [] && Merged(ops)[|Merged(ops)| - 1].attributes == ops[|ops| - 1].attributes
    ensures forall m <- Merged(ops) :: exists op :: op in ops && op.attributes == m.attributes
    decreases |ops|
  {
    if ops != [] {
      var init, op := ops[..|ops| - 1], ops[|ops| - 1];
      MergedMarks(init);
      var m := Merged(init);
      assert ops == init + [op] && Merged(ops) == Joined(m, op);
      forall x <- Merged(ops) ensures exists o :: o in ops && o.attributes == x.attributes {
        if x in m {
          var o :| o in init && o.attributes == x.attributes;
          assert o in ops;
        } else {
          assert x.attributes == op.attributes && op in ops;
        }
      }
    }
  }

  /** A mark still open at the end is on no op of the result. */
  lemma {:induction false} OpenCodeIsDropped(ops: seq<Op>, open: seq<Field>, text: string)
    requires Get(open, "inlineCode").Some?
    ensures Merged(Cleaned(ops, open)) != [Op(text, [CODE])]
  {
    hide Merged, Get, WithoutAll;
    var r := Merged(Cleaned(ops, open));
    if r == [Op(text, [CODE])] {
      MergedMarks(Cleaned(ops, open));
      assert r[0] in r;
      var o :| o in Cleaned(ops, open) && o.attributes == [CODE];
      var k :| 0 <= k < |ops| && Cleaned(ops, open)[k] == o;
      assert CODE in WithoutAll(ops[k].attributes, open);
      WithoutAllHasNot(ops[k].attributes, open, CODE);
      GetIsMember(open, "inlineCode");
    }
  }

  /** If the result is the code text, all its letters were emitted and code was closed. */
  lemma {:induction false} ReadBackMeans(text: string)
    requires Read(CodeText(text)) == [Op(text, [CODE])]
    ensures var e := Scanned(CodeText(text), START);
      Emitted(e) == |text| && !InCode(e)
  {
    hide Scanned, Merged, Cleaned, OpsText, Flushed, MadeOps, IsSubseq;
    var md := CodeText(text);
    var e := Scanned(md, START);
    var f := Flushed(e);
    FlushedEmits(e);
    FlushedPlace(e);
    StartIsSound(md);
    ScannedSound(md, START);
    FlushedSound(md, e);
    CleanedIs(f.ops, f.marks);
    MergedIs(Cleaned(f.ops, f.marks));
    TextOfOne(text, [CODE]);
    if InCode(e) {
      OpenCodeIsDropped(f.ops, f.marks, text);
    }
  }

  /** The first place of a backslash or a backtick. */
  lemma {:induction false} FirstSpecial(text: string) returns (p: nat)
    requires '\\' in text || '`' in text
    ensures p < |text| && (text[p] == '\\' || text[p] == '`') && '\\' !in text[..p] && '`' !in text[..p]
  {
    if text[0] == '\\' || text[0] == '`' {
      p := 0;
    } else {
      assert text == [text[0]] + text[1..];
      var q := FirstSpecial(text[1..]);
      p := q + 1;
      assert text[..p] == [text[0]] + text[1..][..q];
    }
  }

  lemma {:induction false} SpecialIsLost(text: string)
    requires '\\' in text || '`' in text
    ensures Read(CodeText(text)) != [Op(text, [CODE])]
  {
    hide Read, Scanned, Passed, Toggled, Emitted;
    var md := CodeText(text);
    var p := FirstSpecial(text);
    CodeOpens(text);
    var rest := text[p..] + "`";
    assert md[1..] == text[..p] + rest;
    PassCode(md, OPENED, text[..p], rest);
    var s := Taken(OPENED, text[..p], p);
    assert "" + text[..p] == text[..p] && md[s.i] == text[p];
    Unfold(md, s);
    if text[p] == '\\' {
      BackslashIsLost(text, p, s);
    } else {
      BacktickIsLost(text, p, s);
    }
    if Read(md) == [Op(text, [CODE])] {
      ReadBackMeans(text);
    }
  }

  /** The backslash is a third character dropped, unless code stays open. */
  lemma {:induction false} BackslashIsLost(text: string, p: nat, s: Scan)
    requires p < |text| && text[p] == '\\' && s == Taken(OPENED, text[..p], p)
    ensures var e := Scanned(CodeText(text), Passed(CodeText(text), s)); Emitted(e) == |text| ==> InCode(e)
  {
    hide Scanned, Passed, OpsText;
    var md := CodeText(text);
    assert md[s.i] == text[p] && s.i + 1 < |md|;
    EscapeStep(md, s);
    var r := Taken(s, [md[s.i + 1]], 2);
    NoText();
    assert Emitted(r) == p + 1;
    ScannedEmits(md, r);
  }

  /** The backtick closes code: either a third character is dropped, or the last letter is outside code. */
  lemma {:induction false} BacktickIsLost(text: string, p: nat, s: Scan)
    requires p < |text| && text[p] == '`' && s == Taken(OPENED, text[..p], p)
    requires Scanned(CodeText(text), START) == Scanned(CodeText(text), Passed(CodeText(text), s))
    ensures Emitted(Scanned(CodeText(text), START)) == |text| ==> Read(CodeText(text)) != [Op(text, [CODE])]
  {
    hide Scanned, Passed, Toggled, Read, OpsText, Merged;
    var md := CodeText(text);
    assert md[s.i] == text[p] && InCode(s);
    CodeStep(md, s);
    var r := Toggled(s, "inlineCode", 1);
    ToggledEmits(s, "inlineCode", 1);
    CodeClosed(s);
    NoText();
    ScannedEmits(md, r);
    var e := Taken(r, md[r.i..], |md| - r.i);
    if Emitted(Scanned(md, START)) == |text| {
      assert Scanned(md, START) == e;
      ReadEnds(md, e);
      MergedMarks(Flushed(e).ops);
      assert Read(md)[|Read(md)| - 1].attributes == [];
    }
  }

  lemma {:induction false} NoText()
    ensures OpsText([]) == ""
  {
  }

  lemma {:induction false} CodeClosed(s: Scan)
    requires s.marks == [CODE] && s.ops == []
    ensures Toggled(s, "inlineCode", 1).marks == [] && Toggled(s, "inlineCode", 1).buffer == ""
  {
    hide Counted;
    assert s.marks[1..] == [] && Without([], "inlineCode") == [];
    assert Get(s.marks, "inlineCode").Some? && Without(s.marks, "inlineCode") == [];
  }

  /** A written code text comes back exactly when it is not empty and holds neither a backslash nor a backtick. */
  lemma {:induction false} CodeReadsBackIff(text: string)
    ensures Read(CodeText(text)) == [Op(text, [CODE])] <==> text != "" && '\\' !in text && '`' !in text
  {
    hide Read, CodeText, MadeOps;
    if '\\' in text || '`' in text {
      SpecialIsLost(text);
    } else if text == "" {
      ReadIsSound(CodeText(text));
      EmptyIsNotMade(Read(CodeText(text)));
    } else {
      CodeIsRead(text);
    }
  }

  lemma {:induction false} EmptyIsNotMade(r: seq<Op>)
    requires MadeOps(r)
    ensures r != [Op("", [CODE])]
  {
    hide AllMade;
    assert r != [] ==> r[0].insert != "";
  }
}
