/**
  What the Markdown reader promises (packages/core/src/doc/inlineMarkdown.ts): of every input, and of
  what the writer writes.
 */
module MarkdownTheorems {
  import opened Common
  import opened Markdown
  import opened MarkdownReader

  // ----- marks the reader makes

  lemma {:induction false} PutMade(fields: seq<Field>, f: Field)
    requires AllMade(fields) && Made(f)
    ensures AllMade(Put(fields, f))
  {
    hide Made;
    if fields != [] {
      PutMade(fields[1..], f);
    }
  }

  lemma {:induction false} SpreadMade(a: seq<Field>, b: seq<Field>)
    requires AllMade(a) && AllMade(b)
    ensures AllMade(Spread(a, b))
    decreases |b|
  {
    hide Made;
    if b != [] {
      PutMade(a, b[0]);
      SpreadMade(Put(a, b[0]), b[1..]);
    }
  }

  lemma {:induction false} WithoutMade(fields: seq<Field>, name: string)
    requires AllMade(fields)
    ensures AllMade(Without(fields, name))
  {
    hide Made;
    if fields != [] {
      WithoutMade(fields[1..], name);
    }
  }

  lemma {:induction false} WithoutAllMade(fields: seq<Field>, names: seq<Field>)
    requires AllMade(fields)
    ensures AllMade(WithoutAll(fields, names))
    decreases |names|
  {
    hide Made, Without;
    if names != [] {
      WithoutMade(fields, names[0].name);
      WithoutAllMade(Without(fields, names[0].name), names[1..]);
    }
  }

  // ----- text and merging

  lemma {:induction false} SubseqAppend(a: string, b: string, x: string, y: string)
    requires IsSubseq(a, b) && IsSubseq(x, y)
    ensures IsSubseq(a + x, b + y)
    decreases |b|
  {
    if b == "" {
      assert a + x == x && b + y == y;
    } else {
      assert (b + y)[0] == b[0] && (b + y)[1..] == b[1..] + y;
      if a == "" {
        SubseqAppend(a, b[1..], x, y);
      } else {
        assert (a + x)[0] == a[0] && (a + x)[1..] == a[1..] + x;
        if a[0] == b[0] && IsSubseq(a[1..], b[1..]) {
          SubseqAppend(a[1..], b[1..], x, y);
        } else {
          SubseqAppend(a, b[1..], x, y);
        }
      }
    }
  }

  lemma {:induction false} SubseqSelf(s: string)
    ensures IsSubseq(s, s)
  {
    if s != "" {
      SubseqSelf(s[1..]);
    }
  }

  lemma {:induction false} OpsTextConcat(a: seq<Op>, b: seq<Op>)
    ensures OpsText(a + b) == OpsText(a) + OpsText(b)
    decreases |a|
  {
    if a == [] {
      assert a + b == b;
    } else {
      assert (a + b)[0] == a[0] && (a + b)[1..] == a[1..] + b;
      OpsTextConcat(a[1..], b);
    }
  }

  datatype Letter = Letter(letter: char, marks: seq<Field>)

  function Letters(text: string, marks: seq<Field>): seq<Letter> {
    seq(|text|, k requires 0 <= k < |text| => Letter(text[k], marks))
  }

  /** The text letter by letter, each with its marks. */
  function Spelled(ops: seq<Op>): seq<Letter> {
    if ops == [] then []
    else Spelled(ops[..|ops| - 1]) + Letters(ops[|ops| - 1].insert, ops[|ops| - 1].attributes)
  }

  ghost predicate NeighboursDiffer(ops: seq<Op>) {
    forall k :: 0 < k < |ops| ==> ops[k - 1].attributes != ops[k].attributes
  }

  /** Merging changes no letter and no letter's marks, and leaves no neighbours with the same marks. */
  lemma {:induction false} MergedIs(ops: seq<Op>)
    requires MadeOps(ops)
    ensures var m := Merged(ops);
      && Spelled(m) == Spelled(ops) && OpsText(m) == OpsText(ops)
      && MadeOps(m) && NeighboursDiffer(m) && (ops != [] ==> m != [])
    decreases |ops|
  {
    hide AllMade, Spelled, OpsText, Letters;
    if ops != [] {
      var init, op := ops[..|ops| - 1], ops[|ops| - 1];
      var m := Merged(init);
      MergedIs(init);
      assert ops == init + [op];
      SpelledAppend(init, op);
      OpsTextConcat(init, [op]);
      if m != [] && m[|m| - 1].attributes == op.attributes {
        MergeInto(m, op);
      } else {
        SpelledAppend(m, op);
        OpsTextConcat(m, [op]);
      }
    } else {
      assert Merged(ops) == ops;
    }
  }

  lemma {:induction false} SpelledAppend(ops: seq<Op>, op: Op)
    ensures Spelled(ops + [op]) == Spelled(ops) + Letters(op.insert, op.attributes)
  {
    assert (ops + [op])[..|ops|] == ops;
  }

  lemma {:induction false} MergeInto(merged: seq<Op>, op: Op)
    requires merged != [] && merged[|merged| - 1].attributes == op.attributes
    ensures var last := |merged| - 1;
      var grown := merged[last := Op(merged[last].insert + op.insert, op.attributes)];
      && Spelled(grown) == Spelled(merged) + Letters(op.insert, op.attributes)
      && OpsText(grown) == OpsText(merged) + OpsText([op])
  {
    var last := |merged| - 1;
    var both := Op(merged[last].insert + op.insert, op.attributes);
    var grown := merged[last := both];
    assert grown[..last] == merged[..last];
    assert grown == merged[..last] + [both] && merged == merged[..last] + [merged[last]];
    OpsTextConcat(merged[..last], [both]);
    OpsTextConcat(merged[..last], [merged[last]]);
    assert Letters(both.insert, op.attributes)
        == Letters(merged[last].insert, op.attributes) + Letters(op.insert, op.attributes);
  }

  lemma {:induction false} CleanedIs(ops: seq<Op>, open: seq<Field>)
    requires MadeOps(ops)
    ensures MadeOps(Cleaned(ops, open)) && OpsText(Cleaned(ops, open)) == OpsText(ops)
  {
    hide AllMade, WithoutAll;
    forall k | 0 <= k < |ops| ensures AllMade(WithoutAll(ops[k].attributes, open)) {
      WithoutAllMade(ops[k].attributes, open);
    }
    SameText(ops, Cleaned(ops, open));
  }

  // ----- of every input

  /** So far only characters of the input were taken, in order, and only marks the reader makes were put on. */
  ghost predicate Sound(markdown: string, s: Scan) {
    && s.i <= |markdown| && MadeOps(s.ops) && AllMade(s.marks)
    && IsSubseq(OpsText(s.ops) + s.buffer, markdown[..s.i])
  }

  lemma {:induction false} FlushedSound(markdown: string, s: Scan)
    requires Sound(markdown, s)
    ensures Sound(markdown, Flushed(s))
  {
    hide AllMade, IsSubseq, Counted, OpsText;
    OpsTextConcat(s.ops, [Op(s.buffer, s.marks)]);
    TextOfOne(s.buffer, s.marks);
    assert OpsText(s.ops) + s.buffer + "" == OpsText(s.ops) + s.buffer;
  }

  lemma {:induction false} TextOfOne(text: string, marks: seq<Field>)
    ensures OpsText([Op(text, marks)]) == text
  {
    assert [Op(text, marks)][1..] == [];
    assert text + "" == text;
  }

  lemma {:induction false} TakenSound(markdown: string, s: Scan, text: string, len: nat)
    requires Sound(markdown, s) && s.i + len <= |markdown| && IsSubseq(text, markdown[s.i..s.i + len])
    ensures Sound(markdown, Taken(s, text, len))
  {
    hide AllMade, MadeOps, IsSubseq, OpsText;
    SubseqAppend(OpsText(s.ops) + s.buffer, markdown[..s.i], text, markdown[s.i..s.i + len]);
    assert markdown[..s.i] + markdown[s.i..s.i + len] == markdown[..s.i + len];
    assert OpsText(s.ops) + s.buffer + text == OpsText(s.ops) + (s.buffer + text);
  }

  lemma {:induction false} ToggledSound(markdown: string, s: Scan, name: string, len: nat)
    requires Sound(markdown, s) && s.i + len <= |markdown| && name in MARK_ORDER && name != "link"
    ensures Sound(markdown, Toggled(s, name, len))
  {
    hide AllMade, MadeOps, IsSubseq, OpsText, Flushed;
    var f := Flushed(s);
    FlushedSound(markdown, s);
    FlushedPlace(s);
    Nothing(markdown[f.i..f.i + len]);
    TakenSound(markdown, f, "", len);
    assert f.buffer + "" == f.buffer;
    WithoutMade(f.marks, name);
    PutMade(f.marks, Field(name, Object([])));
  }

  lemma {:induction false} FlushedPlace(s: Scan)
    ensures Flushed(s).i == s.i && Flushed(s).marks == s.marks && Flushed(s).buffer == ""
  {
  }

  lemma {:induction false} SteppedSound(markdown: string, s: Scan)
    requires Sound(markdown, s) && s.i < |markdown|
    ensures Sound(markdown, Stepped(markdown, s))
  {
    hide Sound, Toggled, Taken, Delimiter, IndexOf, IsSubseq;
    SoundPlace(markdown, s);
    var c := markdown[s.i];
    assert markdown[s.i..s.i + 1] == [c];
    SubseqSelf([c]);
    if c == '\\' && s.i + 1 < |markdown| {
      Escaped(markdown[s.i..s.i + 2]);
      TakenSound(markdown, s, [markdown[s.i + 1]], 2);
    } else {
      TakenSound(markdown, s, [c], 1);
      ToggledSound(markdown, s, "inlineCode", 1);
      var d := Delimiter(markdown, s);
      if d.Some? {
        ToggledSound(markdown, s, d.value.0, d.value.1);
      }
    }
  }

  lemma {:induction false} SoundPlace(markdown: string, s: Scan)
    requires Sound(markdown, s)
    ensures s.i <= |markdown|
  {
  }

  lemma {:induction false} LinkSound(markdown: string, s: Scan, link: Link, inner: seq<Op>)
    requires Sound(markdown, s) && LinkAt(markdown, s) == Some(link)
    requires MadeOps(inner) && IsSubseq(OpsText(inner), link.inner)
    ensures Sound(markdown, LinkTaken(s, link, inner))
  {
    hide AllMade, IsSubseq, OpsText, Flushed, Made, Linked, MatchLink, Address;
    var f, mark := Flushed(s), LinkMark(link.href, link.title);
    FlushedSound(markdown, s);
    FlushedPlace(s);
    MatchedTitle(markdown[s.i..]);
    LinkMade(link.href, link.title);
    LinkedIs(inner, f.marks, mark);
    OpsTextConcat(f.ops, Linked(inner, f.marks, mark));
    WithinLink(markdown, s.i, link, OpsText(inner));
    SubseqAppend(OpsText(f.ops) + "", markdown[..s.i], OpsText(inner), markdown[s.i..s.i + link.length]);
    assert OpsText(f.ops) + "" + OpsText(inner) == OpsText(f.ops) + OpsText(inner) + "";
  }

  lemma {:induction false} ScannedSound(markdown: string, s: Scan)
    requires Sound(markdown, s)
    ensures Sound(markdown, Scanned(markdown, s)) && Scanned(markdown, s).i == |markdown|
    decreases |markdown|, 2, |markdown| - s.i
  {
    hide Sound, Stepped, LinkTaken, LinkAt, Read, InCode, MadeOps, IsSubseq;
    SoundPlace(markdown, s);
    if s.i < |markdown| {
      var link := LinkHere(markdown, s);
      if link.Some? {
        ReadIsSound(link.value.inner);
        LinkSound(markdown, s, link.value, Read(link.value.inner));
      } else {
        SteppedSound(markdown, s);
      }
      ScannedSound(markdown, Passed(markdown, s));
    }
  }

  /**
    Whatever the input: the text read is the input with characters left out, every op has something in
    it and other marks than the next, and only the five marks appear, a link's address without white
    space or `)`.
   */
  lemma {:induction false} ReadIsSound(markdown: string)
    ensures MadeOps(Read(markdown)) && NeighboursDiffer(Read(markdown))
    ensures IsSubseq(OpsText(Read(markdown)), markdown)
    decreases |markdown|, 3, 0
  {
    hide Scanned, Flushed, Cleaned, Merged, IsSubseq, OpsText, AllMade, MadeOps, NeighboursDiffer;
    var u := Scanned(markdown, START);
    StartIsSound(markdown);
    ScannedSound(markdown, START);
    var s := Flushed(u);
    FlushedSound(markdown, u);
    FlushedPlace(u);
    CleanedIs(s.ops, s.marks);
    MergedIs(Cleaned(s.ops, s.marks));
    assert OpsText(s.ops) + "" == OpsText(s.ops) && markdown[..s.i] == markdown;
  }

  lemma {:induction false} StartIsSound(markdown: string)
    ensures Sound(markdown, START)
  {
  }

  lemma {:induction false} LinkedIs(inner: seq<Op>, marks: seq<Field>, link: Field)
    requires MadeOps(inner) && AllMade(marks) && Made(link)
    ensures MadeOps(Linked(inner, marks, link)) && OpsText(Linked(inner, marks, link)) == OpsText(inner)
    ensures forall t :: inner == [Op(t, [])] && marks == [] ==> Linked(inner, marks, link) == [Op(t, [link])]
  {
    hide Made, AllMade, Spread, Put;
    forall k | 0 <= k < |inner| ensures AllMade(Put(Spread(marks, inner[k].attributes), link)) {
      SpreadMade(marks, inner[k].attributes);
      PutMade(Spread(marks, inner[k].attributes), link);
    }
    SameText(inner, Linked(inner, marks, link));
    PutNone(link);
  }

  lemma {:induction false} PutNone(link: Field)
    ensures Put(Spread([], []), link) == [link]
  {
  }

  lemma {:induction false} SameText(a: seq<Op>, b: seq<Op>)
    requires |a| == |b| && forall k :: 0 <= k < |a| ==> a[k].insert == b[k].insert
    ensures OpsText(a) == OpsText(b)
  {
    if a != [] {
      SameText(a[1..], b[1..]);
    }
  }

  lemma {:induction false} Escaped(pair: string)
    requires |pair| == 2
    ensures IsSubseq([pair[1]], pair)
  {
    SubseqSelf(pair[1..]);
    assert pair[1..] == [pair[1]];
  }

  lemma {:induction false} LinkMade(href: string, title: Option<string>)
    requires Address(href) && Quotable(title)
    ensures Made(LinkMark(href, title))
  {
    hide Address, Quotable;
  }

  lemma {:induction false} WithinLink(markdown: string, i: nat, link: Link, text: string)
    requires i <= |markdown| && MatchLink(markdown[i..]) == Some(link) && IsSubseq(text, link.inner)
    ensures i + link.length <= |markdown| && IsSubseq(text, markdown[i..i + link.length])
    ensures markdown[..i] + markdown[i..i + link.length] == markdown[..i + link.length]
  {
    hide IsSubseq, MatchLink;
    var s := markdown[i..];
    var a, b := s[..1], s[|link.inner| + 1..link.length];
    Nothing(a);
    Nothing(b);
    SubseqAppend("", a, text, link.inner);
    SubseqAppend("" + text, a + link.inner, "", b);
    assert "" + text + "" == text && a + link.inner + b == s[..link.length];
    assert s[..link.length] == markdown[i..i + link.length];
  }

  lemma {:induction false} Nothing(s: string)
    ensures IsSubseq("", s)
  {
  }

  // ----- texts the writer writes

  lemma {:induction false} TokensOverEscaped(s: string, from: nat, t: string, rest: string)
    requires from <= |s| && s[from..] == Escape(t) + rest && rest != "" && rest[0] == ']'
    ensures TokensEnd(s, from, ']') == from + |Escape(t)|
    decreases |t|
  {
    if t == "" {
      assert s[from] == s[from..][0] == ']';
    } else if Special(t[0]) {
      assert s[from] == s[from..][0] == '\\' && s[from + 1] == s[from..][1] == t[0];
      assert s[from + 2..] == s[from..][2..] == Escape(t[1..]) + rest;
      TokensOverEscaped(s, from + 2, t[1..], rest);
    } else {
      assert s[from] == s[from..][0] == t[0];
      assert s[from + 1..] == s[from..][1..] == Escape(t[1..]) + rest;
      TokensOverEscaped(s, from + 1, t[1..], rest);
    }
  }

  // ----- titles

  /** Read from the left, every backslash pairs with a character that is neither a quote nor a line end. */
  predicate PairsUp(t: string) {
    if t == "" then true
    else if t[0] != '\\' then PairsUp(t[1..])
    else |t| > 1 && t[1] != '"' && !LineEnd(t[1]) && PairsUp(t[2..])
  }

  lemma {:induction false} RunWithoutHead(t: string, i: nat)
    requires 0 < i <= |t| && t[0] != '\\'
    ensures BackslashesBefore(t, i) == BackslashesBefore(t[1..], i - 1)
  {
    if i > 1 {
      assert t[1..][i - 2] == t[i - 1];
      RunWithoutHead(t, i - 1);
    }
  }

  lemma {:induction false} RunWithoutPair(t: string, i: nat)
    requires 1 < i <= |t| && t[0] == '\\'
    ensures BackslashesBefore(t, i) % 2 == BackslashesBefore(t[2..], i - 2) % 2
  {
    if i > 2 {
      assert t[2..][i - 3] == t[i - 1];
      RunWithoutPair(t, i - 1);
    } else {
      assert BackslashesBefore(t, 1) == 1 + BackslashesBefore(t, 0) == 1;
    }
  }

  /** The two ways to say which titles can be quoted. */
  lemma {:induction false} PairsUpIffBalanced(t: string)
    ensures PairsUp(t) <==> Balanced(t)
    decreases |t|
  {
    hide LineEnd, BackslashesBefore;
    if t == "" {
      NoRun(t);
    } else if t[0] != '\\' {
      var rest := t[1..];
      PairsUpIffBalanced(rest);
      NoRun(t);
      forall i | 0 < i <= |t| ensures EvenAt(t, i) <==> EvenAt(rest, i - 1) {
        RunWithoutHead(t, i);
      }
      assert forall i :: 0 <= i <= |rest| ==> (EvenAt(rest, i) <==> EvenAt(t, i + 1));
    } else {
      PairAtHead(t);
      if |t| > 1 && t[1] != '"' && !LineEnd(t[1]) {
        var rest := t[2..];
        PairsUpIffBalanced(rest);
        forall i | 1 < i <= |t| ensures EvenAt(t, i) <==> EvenAt(rest, i - 2) {
          RunWithoutPair(t, i);
        }
        assert forall i :: 0 <= i <= |rest| ==> (EvenAt(rest, i) <==> EvenAt(t, i + 2));
      } else {
        assert !EvenAt(t, 1);
      }
    }
  }

  lemma {:induction false} NoRun(t: string)
    ensures BackslashesBefore(t, 0) == 0
  {
  }

  lemma {:induction false} PairAtHead(t: string)
    requires t != "" && t[0] == '\\'
    ensures EvenAt(t, 0) && BackslashesBefore(t, 1) == 1
  {
    assert BackslashesBefore(t, 0) == 0;
  }

  lemma {:induction false} TokensOverTitle(s: string, from: nat, t: string, rest: string)
    requires from <= |s| && s[from..] == EscapeQuotes(t) + rest && rest != "" && rest[0] == '"' && PairsUp(t)
    ensures TokensEnd(s, from, '"') == from + |EscapeQuotes(t)|
    decreases |t|
  {
    hide EscapeQuotes, PairsUp, LineEnd;
    QuoteUnfold(t);
    QuoteIsNoLineEnd();
    if t == "" {
      Follows(s, from, "", rest);
      assert s[from] == rest[0];
    } else if t[0] == '"' {
      var e := EscapeQuotes(t[1..]);
      assert s[from..] == "\\\"" + (e + rest);
      Follows(s, from, "\\\"", e + rest);
      TokensOverTitle(s, from + 2, t[1..], rest);
    } else if t[0] == '\\' {
      var e := EscapeQuotes(t[2..]);
      assert s[from..] == ['\\', t[1]] + (e + rest);
      Follows(s, from, ['\\', t[1]], e + rest);
      TokensOverTitle(s, from + 2, t[2..], rest);
    } else {
      var e := EscapeQuotes(t[1..]);
      assert s[from..] == [t[0]] + (e + rest);
      Follows(s, from, [t[0]], e + rest);
      TokensOverTitle(s, from + 1, t[1..], rest);
    }
  }

  lemma {:induction false} QuoteIsNoLineEnd()
    ensures !LineEnd('"')
  {
  }

  lemma {:induction false} QuoteUnfold(t: string)
    requires PairsUp(t)
    ensures t == "" ==> EscapeQuotes(t) == ""
    ensures t != "" && t[0] == '"' ==> EscapeQuotes(t) == "\\\"" + EscapeQuotes(t[1..]) && PairsUp(t[1..])
    ensures t != "" && t[0] == '\\' ==>
      |t| > 1 && EscapeQuotes(t) == ['\\', t[1]] + EscapeQuotes(t[2..]) && !LineEnd(t[1]) && PairsUp(t[2..])
    ensures t != "" && t[0] != '"' && t[0] != '\\' ==>
      EscapeQuotes(t) == [t[0]] + EscapeQuotes(t[1..]) && PairsUp(t[1..])
  {
    hide LineEnd;
    if t != "" && t[0] == '\\' {
      assert t[1..][1..] == t[2..];
    }
  }

  /** Quoting a title and removing the quoting gives the title back, whatever it holds. */
  lemma {:induction false} QuotesComeBack(t: string)
    ensures UnescapeQuotes(EscapeQuotes(t)) == t
  {
    if t != "" {
      var rest := EscapeQuotes(t[1..]);
      QuotesComeBack(t[1..]);
      QuotedStart(t[1..]);
      if t[0] == '"' {
        assert EscapeQuotes(t)[2..] == rest;
      } else {
        assert EscapeQuotes(t)[1..] == rest;
      }
      assert t == [t[0]] + t[1..];
    }
  }

  lemma {:induction false} QuotedStart(t: string)
    ensures EscapeQuotes(t) != "" ==> EscapeQuotes(t)[0] != '"'
  {
  }

  /** What the pattern finds between quotes can be quoted again. */
  lemma {:induction false} TokensPairUp(s: string, from: nat)
    requires from <= |s|
    ensures PairsUp(UnescapeQuotes(s[from..TokensEnd(s, from, '"')]))
    decreases |s| - from
  {
    hide LineEnd, PairsUp, UnescapeQuotes;
    var e := TokensEnd(s, from, '"');
    TokensSteps(s, from);
    if e == from {
      assert s[from..e] == "";
      NothingPairsUp();
    } else if s[from] != '\\' {
      TokensPairUp(s, from + 1);
      assert s[from..e] == [s[from]] + s[from + 1..e];
      PlainPairsUp(s[from], s[from + 1..e]);
    } else {
      TokensPairUp(s, from + 2);
      assert s[from..e] == ['\\', s[from + 1]] + s[from + 2..e];
      TokensStart(s, from + 2);
      PairPairsUp(s[from + 1], s[from + 2..e]);
    }
  }

  lemma {:induction false} TokensSteps(s: string, from: nat)
    requires from <= |s|
    ensures var e := TokensEnd(s, from, '"');
      e > from ==> (if s[from] != '\\' then s[from] != '"' && TokensEnd(s, from + 1, '"') == e
                    else from + 1 < |s| && !LineEnd(s[from + 1]) && TokensEnd(s, from + 2, '"') == e)
  {
    hide LineEnd;
  }

  lemma {:induction false} TokensStart(s: string, from: nat)
    requires from <= |s|
    ensures var e := TokensEnd(s, from, '"'); s[from..e] != "" ==> s[from..e][0] != '"'
  {
    hide LineEnd;
  }

  lemma {:induction false} NothingPairsUp()
    ensures PairsUp(UnescapeQuotes(""))
  {
  }

  lemma {:induction false} PlainPairsUp(c: char, rest: string)
    requires c != '\\' && PairsUp(UnescapeQuotes(rest))
    ensures PairsUp(UnescapeQuotes([c] + rest))
  {
    var u := UnescapeQuotes(rest);
    assert ([c] + rest)[1..] == rest && ([c] + u)[1..] == u;
  }

  lemma {:induction false} PairPairsUp(c: char, rest: string)
    requires !LineEnd(c) && PairsUp(UnescapeQuotes(rest)) && (rest != "" ==> rest[0] != '"')
    ensures PairsUp(UnescapeQuotes(['\\', c] + rest))
  {
    hide LineEnd;
    var u, s := UnescapeQuotes(rest), ['\\', c] + rest;
    assert s[2..] == rest && s[1..] == [c] + rest && s[1..][1..] == rest;
    if c == '"' {
      assert UnescapeQuotes(s) == "\"" + u && ("\"" + u)[1..] == u;
    } else {
      assert UnescapeQuotes(s) == ['\\'] + UnescapeQuotes([c] + rest);
      assert UnescapeQuotes([c] + rest) == [c] + u;
      assert ['\\'] + ([c] + u) == ['\\', c] + u && (['\\', c] + u)[2..] == u;
    }
  }

  lemma {:induction false} UnescapedNotEmpty(t: string)
    requires t != ""
    ensures UnescapeQuotes(t) != ""
  {
  }

  /** A title found by the pattern is one it can hold. */
  lemma {:induction false} MatchedTitle(s: string)
    ensures MatchLink(s).Some? ==> Quotable(MatchLink(s).value.title)
  {
    hide Balanced, PairsUp, UnescapeQuotes, AddressEnd, SpacesEnd, TokensEnd, Address;
    var link := MatchLink(s);
    if link.Some? && link.value.title.Some? {
      var from := TokensEnd(s, 1, ']') + 2;
      var q := SpacesEnd(s, AddressEnd(s, from));
      TokensPairUp(s, q + 1);
      PairsUpIffBalanced(link.value.title.value);
      UnescapedNotEmpty(s[q + 1..TokensEnd(s, q + 1, '"')]);
    }
  }

  lemma {:induction false} AddressOver(s: string, from: nat, href: string, rest: string)
    requires from <= |s| && s[from..] == href + rest && Address(href)
    requires rest != "" && (rest[0] == ')' || IsSpace(rest[0]))
    ensures AddressEnd(s, from) == from + |href|
    decreases |href|
  {
    hide IsSpace;
    if href == "" {
      assert s[from] == s[from..][0] == rest[0];
    } else {
      assert s[from] == s[from..][0] == href[0] && href[0] in href;
      assert s[from + 1..] == s[from..][1..] == href[1..] + rest;
      AddressOver(s, from + 1, href[1..], rest);
    }
  }

  /** What the writer writes for a text under one link. */
  function LinkText(text: string, href: string, title: Option<string>): string {
    "[" + Escape(text) + CloseText(LinkMark(href, title))
  }

  function TargetText(href: string, title: Option<string>): string {
    href + (if title.Some? then " \"" + EscapeQuotes(title.value) + "\")" else ")")
  }

  lemma {:induction false} LinkTextIs(text: string, href: string, title: Option<string>)
    requires Quotable(title)
    ensures LinkText(text, href, title) == "[" + Escape(text) + "](" + TargetText(href, title)
  {
    hide Escape, CloseText;
    CloseLink(href, title);
    var target := TargetText(href, title);
    assert "[" + Escape(text) + ("](" + target) == "[" + Escape(text) + "](" + target;
  }

  lemma {:induction false} CloseLink(href: string, title: Option<string>)
    requires Quotable(title)
    ensures CloseText(LinkMark(href, title)) == "](" + TargetText(href, title)
  {
    hide EscapeQuotes;
    LinkFields(href, title);
    if title.Some? {
      var q := EscapeQuotes(title.value);
      assert "](" + href + " \"" + q + "\")" == "](" + (href + (" \"" + q + "\")"));
    } else {
      assert "](" + href + ")" == "](" + (href + ")");
    }
  }

  lemma {:induction false} LinkFields(href: string, title: Option<string>)
    ensures var fields := LinkValue(href, title).fields;
      Get(fields, "href") == Some(Text(href))
        && Get(fields, "title") == Some(if title.Some? then Text(title.value) else Null)
  {
    var fields := LinkValue(href, title).fields;
    assert fields[1..][0] == fields[1];
  }

  /** What the writer writes for one op under one mark. */
  lemma {:induction false} OneMarkIsWritten(text: string, mark: Field)
    requires text != "" && !IsSpace(text[0]) && !IsSpace(text[|text| - 1])
    requires mark.name in MARK_ORDER && mark.value != Null
    ensures Render(Trace([Op(text, [mark])]))
         == OpenText(mark.name) + (if mark.name == "inlineCode" then text else Escape(text)) + CloseText(mark)
  {
    hide IsSpace, Split, Escape, CloseText, OpenText, Wanted, Closes, Opens, Render, TraceFrom, Turn, IsCode, Shared;
    var ops := [Op(text, [mark])];
    OneMark(ops[0], mark);
    SplitCore(text);
    OneMarkTexts(mark);
    assert ops[0..] == ops && ops[1..] == [];
    TraceStep(ops, 0, [], "");
    TurnText([], "", ops[0]);
    TraceEnd([mark], "");
    var body := if mark.name == "inlineCode" then text else Escape(text);
    NothingAround(OpenText(mark.name), body, CloseText(mark));
  }

  lemma {:induction false} NothingAround(a: string, b: string, c: string)
    ensures "" + ("" + "") + a + b + (c + "") == a + b + c
  {
    assert "" + "" == "" && "" + a == a && c + "" == c;
  }

  lemma {:induction false} OneMarkTexts(mark: Field)
    ensures Shared([], [mark]) == 0 && Render(Closes([], 0)) == ""
    ensures Render(Opens([mark], 0)) == OpenText(mark.name) && Render(Closes([mark], 0)) == CloseText(mark)
  {
    hide CloseText, OpenText;
    assert [mark][..0] == [];
    assert Opens([mark], 0) == [Opened(mark)] + Opens([mark], 1) == [Opened(mark)];
    assert Closes([mark], 0) == [Closed(mark)] + Closes([], 0) == [Closed(mark)];
    RenderOne(Opened(mark));
    RenderOne(Closed(mark));
  }

  lemma {:induction false} SplitCore(text: string)
    requires text != "" && !IsSpace(text[0]) && !IsSpace(text[|text| - 1])
    ensures Split(text) == Parts("", text, "")
  {
    hide IsSpace;
    assert LeadLength(text) == 0 && TrailStart(text) == |text|;
  }

  lemma {:induction false} OneMark(op: Op, mark: Field)
    requires op.attributes == [mark] && mark.name in MARK_ORDER && mark.value != Null
    ensures Wanted(op) == [mark] && (IsCode([mark]) <==> mark.name == "inlineCode")
  {
    MarkOnce([mark], MARK_ORDER);
    assert [mark][0] == mark;
  }

  lemma {:induction false} MarkOnce(attributes: seq<Field>, order: seq<string>)
    requires |attributes| == 1 && attributes[0].value != Null && Distinct(order)
    ensures MarksOf(attributes, order) == if attributes[0].name in order then attributes else []
  {
    if order != [] {
      var rest := order[1..];
      MarkOnce(attributes, rest);
      assert order == [order[0]] + rest && attributes[1..] == [];
      assert order[0] !in rest by {
        assert forall k :: 0 <= k < |rest| ==> rest[k] == order[k + 1];
      }
      assert Get(attributes, order[0])
          == if attributes[0].name == order[0] then Some(attributes[0].value) else Get([], order[0]);
      assert attributes == [attributes[0]];
    }
  }

  lemma {:induction false} TargetMatches(s: string, inner: string, from: nat, href: string, title: Option<string>)
    requires from <= |s| && s[from..] == TargetText(href, title) && Address(href) && Quotable(title)
    ensures MatchTarget(s, inner, from) == Some(Link(inner, href, title, |s|))
  {
    hide Escape, EscapeQuotes, TokensEnd, AddressEnd, IsSpace, Address, Balanced, PairsUp;
    var h := from + |href|;
    var rest := s[h..];
    assert s[from..h] == s[from..][..|href|] == href && rest == s[from..][|href|..];
    if title.None? {
      assert rest == ")";
      AddressOver(s, from, href, rest);
    } else {
      PairsUpIffBalanced(title.value);
      TitleMatches(s, from, h, h + 2, href, title.value);
    }
  }

  lemma {:induction false} BlankThenQuote()
    ensures IsSpace(' ') && !IsSpace('"')
  {
  }

  lemma {:induction false} OneSpace(s: string, h: nat)
    requires h + 1 < |s| && IsSpace(s[h]) && !IsSpace(s[h + 1])
    ensures SpacesEnd(s, h) == h + 1
  {
    hide IsSpace;
  }

  lemma {:induction false} TitleMatches(s: string, from: nat, h: nat, k: nat, href: string, title: string)
    requires from <= |s| && s[from..] == href + (" \"" + EscapeQuotes(title) + "\")") && Address(href)
    requires title != "" && PairsUp(title) && h == from + |href| && k == h + 2
    ensures var q := EscapeQuotes(title); var e := k + |q|;
      && AddressEnd(s, from) == h < |s| && s[h] != ')' && s[from..h] == href && SpacesEnd(s, h) == h + 1 < |s|
      && s[h + 1] == '"' && TokensEnd(s, k, '"') == e && e + 2 == |s| && s[k..e] == q
      && s[e] == '"' && s[e + 1] == ')'
      && UnescapeQuotes(q) == title && q != ""
  {
    hide Address, AddressEnd, TokensEnd, UnescapeQuotes, EscapeQuotes, IsSpace, SpacesEnd, PairsUp;
    var q := EscapeQuotes(title);
    var rest := " \"" + q + "\")";
    BlankThenQuote();
    AddressOver(s, from, href, rest);
    Follows(s, from, href, rest);
    assert rest == " \"" + (q + "\")");
    Follows(s, h, " \"", q + "\")");
    Follows(s, k, q, "\")");
    Follows(s, k + |q|, "\")", "");
    OneSpace(s, h);
    TokensOverTitle(s, k, title, "\")");
    QuotesComeBack(title);
    QuotesNotEmpty(title);
  }

  lemma {:induction false} QuotesNotEmpty(title: string)
    requires title != ""
    ensures EscapeQuotes(title) != ""
  {
  }

  lemma {:induction false} Follows(s: string, from: nat, a: string, b: string)
    requires from <= |s| && s[from..] == a + b
    ensures from + |a| <= |s| && s[from..from + |a|] == a && s[from + |a|..] == b
    ensures |a| > 0 ==> s[from] == a[0]
    ensures |a| > 1 ==> s[from + 1] == a[1]
  {
    assert s[from..from + |a|] == s[from..][..|a|];
    assert s[from + |a|..] == s[from..][|a|..];
    assert |a| > 0 ==> s[from] == s[from..][0];
    assert |a| > 1 ==> s[from + 1] == s[from..][1];
  }

  /** The pattern finds the whole of a written link exactly when it can hold its address and its title. */
  lemma {:induction false} LinkMatches(text: string, href: string, title: Option<string>)
    ensures var s := LinkText(text, href, title);
      MatchLink(s) == Some(Link(Escape(text), href, title, |s|)) <==> Address(href) && Quotable(title)
  {
    hide MatchLink, LinkText, Address, Quotable;
    MatchedTitle(LinkText(text, href, title));
    if Address(href) && Quotable(title) {
      WrittenLinkMatches(text, href, title);
    }
  }

  lemma {:induction false} WrittenLinkMatches(text: string, href: string, title: Option<string>)
    requires Address(href) && Quotable(title)
    ensures var s := LinkText(text, href, title); MatchLink(s) == Some(Link(Escape(text), href, title, |s|))
  {
    hide Escape, TokensEnd, MatchTarget, LinkText, Address, TargetText, Quotable;
    var s, e := LinkText(text, href, title), |Escape(text)| + 1;
    var target := TargetText(href, title);
    LinkTextIs(text, href, title);
    assert s[1..] == Escape(text) + ("](" + target);
    TokensOverEscaped(s, 1, text, "](" + target);
    assert s[e] == ']' && s[e + 1] == '(' && s[1..e] == Escape(text);
    assert s[e + 2..] == target;
    TargetMatches(s, s[1..e], e + 2, href, title);
  }
}
