/**
  Text nobody marked, read as Markdown (packages/core/src/doc/inlineMarkdown.ts): when stars, underscores and brackets
  are only characters.
 */
module MarkdownPlain {
  import opened Common
  import opened Markdown
  import opened MarkdownReader
  import opened MarkdownTheorems
  import opened MarkdownRoundTrip
  import opened MarkdownCode
  import opened MarkdownNesting

  // ----- characters that stand for themselves

  /**
    A character that the same one later could close: it is not followed by white space, and the later one follows
    a letter.
   */
  ghost predicate Emphasises(s: string, k: nat) {
    && k + 1 < |s| && !IsSpace(s[k + 1])
    && exists j :: k + 2 <= j < |s| && s[j] == s[k] && !IsSpace(s[j - 1]) && s[j - 1] != '\\'
  }

  ghost predicate Strikes(s: string, k: nat) {
    k + 2 < |s| && s[k + 1] == '~' && !IsSpace(s[k + 2]) && Closer(s, "~~", k + 3)
  }

  /** Does the character here mean nothing but itself when no mark is open? */
  ghost predicate Inert(s: string, k: nat)
    requires k < |s|
  {
    match s[k]
    case '\\' => k + 1 == |s|
    case '`' => '`' !in s[k + 1..]
    case '[' => MatchLink(s[k..]).None?
    case '~' => !Strikes(s, k)
    case '*' => !Emphasises(s, k)
    case '_' => (WordAt(s, k - 1) && WordAt(s, k + 1)) || !Emphasises(s, k)
    case _ => true
  }

  lemma {:induction false} CloserOfPairMeans(s: string, c: char, from: nat)
    requires Closer(s, [c, c], from)
    ensures Closer(s, [c], from)
    decreases |s| - from
  {
    hide IndexOf, Closable;
    CloserUnfold(s, [c, c], from);
    IndexOfIs(s, [c, c], from);
    var j := IndexOf(s, [c, c], from).value;
    OccursPair(s, c, j);
    CloserOfOne(s, c, from);
    if !Closable(s, j) {
      CloserOfPairMeans(s, c, j + 2);
      CloserOfOne(s, c, j + 2);
    }
  }

  lemma {:induction false} EmphasisesIff(s: string, k: nat)
    requires k < |s|
    ensures CanOpen(s, k, 1) <==> Emphasises(s, k)
  {
    hide IsSpace, Closer;
    if k + 1 < |s| {
      assert s[k..k + 1] == [s[k]];
      CloserOfOne(s, s[k], k + 2);
    }
  }

  lemma {:induction false} StrikesIff(s: string, k: nat)
    requires k + 1 < |s| && s[k] == '~' && s[k + 1] == '~'
    ensures CanOpen(s, k, 2) <==> Strikes(s, k)
  {
    hide IsSpace, Closer;
    assert s[k..k + 2] == "~~";
  }

  /** Bold opens only where emphasis could. */
  lemma {:induction false} BoldEmphasises(s: string, k: nat)
    requires k + 1 < |s| && s[k] == '*' && s[k + 1] == '*' && CanOpen(s, k, 2)
    ensures Emphasises(s, k)
  {
    hide IsSpace, Closer;
    assert s[k..k + 2] == "**";
    CloserOfPairMeans(s, '*', k + 3);
    CloserOfOne(s, '*', k + 3);
    StarsNotSpace();
  }

  /** Without open marks the place acts on the text exactly when it is not inert. */
  lemma {:induction false} ActsIff(s: string, u: Scan)
    requires u.i < |s| && u.marks == []
    ensures Passed(s, u) == Taken(u, [s[u.i]], 1) <==> Inert(s, u.i)
  {
    hide IsSpace, Closer, CanOpen, Emphasises, Strikes, MatchLink, Toggled, LinkTaken, Read, IndexOf, Taken;
    var k, c := u.i, s[u.i];
    NoMarkIsOpen();
    if c in "*_" {
      EmphasisesIff(s, k);
    }
    if k + 1 < |s| && c == s[k + 1] == '~' {
      StrikesIff(s, k);
    }
    if k + 1 < |s| && c == s[k + 1] == '*' && CanOpen(s, k, 2) {
      BoldEmphasises(s, k);
    }
    BacktickIff(s, k);
    NotTaken(s, u);
    DelimiterIff(s, u);
  }

  lemma {:induction false} NoMarkIsOpen()
    ensures forall name :: Get([], name).None?
  {
  }

  lemma {:induction false} BacktickIff(s: string, k: nat)
    requires k < |s|
    ensures IndexOf(s, "`", k + 1).Some? <==> '`' in s[k + 1..]
  {
    hide IndexOf;
    var r := IndexOf(s, "`", k + 1);
    IndexOfIs(s, "`", k + 1);
    if r.Some? {
      BacktickHere(s, r.value);
      assert s[k + 1..][r.value - (k + 1)] == '`';
    } else if '`' in s[k + 1..] {
      var j :| 0 <= j < |s[k + 1..]| && s[k + 1..][j] == '`';
      BacktickHere(s, k + 1 + j);
    }
  }

  lemma {:induction false} BacktickHere(s: string, k: nat)
    requires k < |s|
    ensures OccursAt(s, "`", k) <==> s[k] == '`'
  {
    assert s[k..k + 1] == [s[k]];
  }

  /** What the reader takes the character for when no mark is open. */
  lemma {:induction false} DelimiterIff(s: string, u: Scan)
    requires u.i < |s| && u.marks == []
    requires var k := u.i; s[k] in "*_" ==> (CanOpen(s, k, 1) <==> Emphasises(s, k))
    requires var k := u.i; k + 1 < |s| && s[k] == s[k + 1] == '~' ==> (CanOpen(s, k, 2) <==> Strikes(s, k))
    requires var k := u.i; k + 1 < |s| && s[k] == s[k + 1] == '*' && CanOpen(s, k, 2) ==> Emphasises(s, k)
    ensures s[u.i] in "*_~" ==> (Delimiter(s, u).None? <==> Inert(s, u.i))
    ensures s[u.i] !in "*_~" ==> Delimiter(s, u).None?
  {
    hide IsSpace, Closer, CanOpen, Emphasises, MatchLink, WordAt;
    NoMarkIsOpen();
  }

  /** Anything else than taking the character makes another state. */
  lemma {:induction false} NotTaken(s: string, u: Scan)
    requires u.i < |s|
    ensures forall name, len: nat :: Toggled(u, name, len) != Taken(u, [s[u.i]], 1)
    ensures forall x: char :: Taken(u, [x], 2) != Taken(u, [s[u.i]], 1)
    ensures forall link, inner :: LinkTaken(u, link, inner) != Taken(u, [s[u.i]], 1)
  {
    hide Counted, Linked;
    var t := Taken(u, [s[u.i]], 1);
    assert t.buffer != "";
    forall name, len: nat ensures Toggled(u, name, len).buffer == "" {}
    forall link, inner ensures LinkTaken(u, link, inner).buffer == "" {}
  }

  // ----- whole texts

  ghost predicate AllInert(s: string, from: nat) {
    forall k :: from <= k < |s| ==> Inert(s, k)
  }

  /** As many letters come out as went in exactly when every character is inert. */
  lemma {:induction false} NothingLostIff(s: string, u: Scan)
    requires u.i <= |s| && u.marks == []
    ensures Emitted(Scanned(s, u)) == Emitted(u) + (|s| - u.i) <==> AllInert(s, u.i)
    decreases |s| - u.i
  {
    hide Scanned, Passed, Emitted, Inert;
    if u.i == |s| {
      AtEnd(s, u);
    } else {
      var r, t := Passed(s, u), Taken(u, [s[u.i]], 1);
      Unfold(s, u);
      PassedEmits(s, u);
      ScannedEmits(s, r);
      ActsIff(s, u);
      TakenEmits(u, s[u.i]);
      if r == t {
        NothingLostIff(s, t);
      }
    }
  }

  lemma {:induction false} TakenEmits(u: Scan, c: char)
    ensures Emitted(Taken(u, [c], 1)) == Emitted(u) + 1
  {
    hide OpsText;
  }

  lemma {:induction false} ReadLetters(s: string)
    ensures |OpsText(Read(s))| == Emitted(Scanned(s, START))
  {
    hide Scanned, Merged, Cleaned, OpsText, Flushed, MadeOps, IsSubseq;
    var e := Scanned(s, START);
    var f := Flushed(e);
    FlushedEmits(e);
    FlushedPlace(e);
    StartIsSound(s);
    ScannedSound(s, START);
    FlushedSound(s, e);
    CleanedIs(f.ops, f.marks);
    MergedIs(Cleaned(f.ops, f.marks));
  }

  /**
    A text is read as it stands exactly when each of its characters is inert: a star or an underscore next to white
    space or inside a word, or with none to close it, is a character.
   */
  lemma {:induction false} TextIsReadAsItIsIff(s: string)
    ensures Read(s) == PlainOps(s) <==> AllInert(s, 0)
  {
    hide Read, Scanned, AllInert, OpsText;
    var e := Scanned(s, START);
    NoText();
    NothingLostIff(s, START);
    ScannedEmits(s, START);
    ReadLetters(s);
    TextOfOne(s, []);
    if AllInert(s, 0) {
      assert s[0..] == s && "" + s == s;
      assert e == Taken(START, s, |s|);
      ReadEnds(s, e);
      MergedOne(Op(s, []));
    }
  }

  /** What a word is made of. */
  predicate InWords(c: char) {
    'a' <= c <= 'z' || 'A' <= c <= 'Z' || '0' <= c <= '9' || c == '_'
  }

  /** Stars before spaces, as in arithmetic, and underscores inside words are characters. */
  lemma {:induction false} ArithmeticAndNamesAreText(s: string)
    requires forall c <- s :: c !in "\\`[~"
    requires forall k :: 0 <= k < |s| && s[k] == '*' ==> k + 1 == |s| || s[k + 1] == ' '
    requires forall k :: 0 <= k < |s| && s[k] == '_' ==> 0 < k < |s| - 1 && InWords(s[k - 1]) && InWords(s[k + 1])
    ensures Read(s) == PlainOps(s)
  {
    hide Read, Inert;
    forall k | 0 <= k < |s| ensures Inert(s, k) {
      assert s[k] in s;
      PlaceIsInert(s, k);
    }
    TextIsReadAsItIsIff(s);
  }

  lemma {:induction false} PlaceIsInert(s: string, k: nat)
    requires k < |s| && s[k] !in "\\`[~"
    requires s[k] == '*' ==> k + 1 == |s| || s[k + 1] == ' '
    requires s[k] == '_' ==> 0 < k < |s| - 1 && InWords(s[k - 1]) && InWords(s[k + 1])
    ensures Inert(s, k)
  {
    hide InWords, WordAt, IsSpace, MatchLink, Strikes;
    BlankThenQuote();
    if s[k] == '_' {
      WordsAre(s, k - 1);
      WordsAre(s, k + 1);
    }
  }

  lemma {:induction false} WordsAre(s: string, k: nat)
    requires k < |s| && InWords(s[k])
    ensures WordAt(s, k)
  {
  }

  // ----- underscores

  /** Underscores around escaped text are emphasis, like stars. */
  lemma {:induction false} UnderscoresAreEmphasis(text: string)
    requires IsCore(text) && Carries("em", text)
    ensures Read("_" + Escape(text) + "_") == [Op(text, [PairMark("em")])]
  {
    hide Escape, IsSpace, Read, Passed, Toggled, Closer, WordAt, OccursAt;
    var e := Escape(text);
    var md := "_" + e + "_";
    var n := |md|;
    UnderscorePlaces(text);
    CloserOfOne(md, '_', 2);
    assert Closable(md, n - 1);
    assert md[0..1] == "_";
    assert Delimiter(md, START) == Some(("em", 1));
    ToggleStep(md, START, "em", 1);
    Unfold(md, START);
    ToggledFromStart("em", 1);
    var s := Scan([], [PairMark("em")], "", map["em" := 0], 1);
    OneMarkOpen(s, "em");
    PassEscaped(md, s, text, "_");
    var u := Taken(s, text, |e|);
    assert "" + text == text;
    OneMarkOpen(u, "em");
    assert Delimiter(md, u) == Some(("em", 1));
    ToggleStep(md, u, "em", 1);
    Unfold(md, u);
    var v := Toggled(u, "em", 1);
    ToggledToEnd(u, "em", 1);
    AtEnd(md, v);
    ReadEnds(md, v);
    MergedOne(Op(text, [PairMark("em")]));
  }

  lemma {:induction false} UnderscorePlaces(text: string)
    requires IsCore(text) && Carries("em", text)
    ensures var e := Escape(text); var md := "_" + e + "_"; var n := |md|;
      && n == |e| + 2 > 2 && md[0] == '_' && !IsSpace(md[1]) && md[1..] == e + "_"
      && md[n - 1] == '_' && !IsSpace(md[n - 2]) && md[n - 2] != '\\'
      && !WordAt(md, -1) && !WordAt(md, n) && At(md, n) == ""
  {
    hide Escape, IsSpace, Special;
    var e := Escape(text);
    EscapeEnds(text);
    FirstCharacters(text[0], e[0]);
    var md := "_" + e + "_";
    assert md[1] == e[0] && md[|md| - 2] == e[|e| - 1];
  }

  // ----- a delimiter after white space

  /** Where the mark is open, its delimiter after white space does not close it. */
  lemma {:induction false} SpaceKeepsOpen(md: string, s: Scan, name: string, y: string)
    requires (name == "em" || name == "strikethrough") && s.marks == [PairMark(name)]
    requires 0 < s.i <= |md| && md[s.i..] == OpenText(name) + y && IsSpace(md[s.i - 1])
    requires y != "" && y[0] != '*' && y[0] != '~'
    ensures var t := Taken(s, OpenText(name), |OpenText(name)|); t.i <= |md| && Scanned(md, s) == Scanned(md, t)
  {
    hide IsSpace, Get, CanOpen, HasContent, Taken;
    var d := OpenText(name);
    Delimiters(name);
    After(md, s.i, d, y);
    OneMarkOpen(s, name);
    assert md[s.i + |d|] == md[s.i + |d|..][0];
    assert Delimiter(md, s) == None;
    TakeStep(md, s);
    Unfold(md, s);
    TakenTwice(s, d[0], '~');
    if name == "strikethrough" {
      var u := Taken(s, "~", 1);
      assert d[1] == '~' && md[s.i + 1] == d[1];
      OneMarkOpen(u, name);
      assert At(md, u.i + 1) == [y[0]];
      TildeIsCharacter(md, u);
      TakeStep(md, u);
      Unfold(md, u);
      assert d == "~~";
    } else {
      assert [d[0]] == d;
    }
  }

  lemma {:induction false} TakenTwice(s: Scan, a: char, b: char)
    ensures var u := Taken(s, [a], 1); u.i == s.i + 1 && u.marks == s.marks && Taken(u, [b], 1) == Taken(s, [a, b], 2)
  {
    assert s.buffer + [a] + [b] == s.buffer + [a, b];
  }

  /** So such a delimiter is a character of the marked text. */
  lemma {:induction false} SpacedDelimiterIsText(name: string, a: string, c: string)
    requires name == "em" || name == "strikethrough"
    requires a != "" && !IsSpace(a[0]) && IsSpace(a[|a| - 1]) && c != "" && EndsWell(name, c)
    ensures Read(Around(name, a, OpenText(name), c)) == [Op(a + OpenText(name) + c, [PairMark(name)])]
  {
    hide Escape, IsSpace, Around, Read, Merged, Carries, Taken, EndsWell, OpenText, Scanned;
    var m, d := PairMark(name), OpenText(name);
    var md, e := Around(name, a, d, c), Escape(a);
    Delimiters(name);
    OuterOpens(name, a, d, c);
    var s := Scan([], [m], a, map[name := 0], |d| + |e|);
    BeforeMiddle(name, a, c);
    EscapedStarts(c, d);
    SpaceKeepsOpen(md, s, name, Escape(c) + d);
    var t := Taken(s, d, |d|);
    TakenIs(s, d);
    OneMarkOpen(t, name);
    PassEscaped(md, t, c, d);
    var u := Taken(t, c, |Escape(c)|);
    TakenIs(t, c);
    BufferIsContent(u, name);
    AroundEnd(name, a, d, c);
    LastIsNoSpace(name, md, c);
    LastCloses(md, u, name);
    assert u.ops + [Op(u.buffer, [m])] == [Op(a + d + c, [m])];
    MergedOne(Op(a + d + c, [m]));
  }

  lemma {:induction false} EscapedStarts(c: string, d: string)
    requires c != ""
    ensures var y := Escape(c) + d; y != "" && y[0] != '*' && y[0] != '~'
  {
    EscapeEnds(c);
  }

  lemma {:induction false} BeforeMiddle(name: string, a: string, c: string)
    requires Paired(name) && a != "" && !IsSpace(a[0]) && c != "" && EndsWell(name, c)
    ensures var md, k := Around(name, a, OpenText(name), c), |OpenText(name)| + |Escape(a)|;
      && 0 < k <= |md| && md[k..] == OpenText(name) + (Escape(c) + OpenText(name)) && md[k - 1] == a[|a| - 1]
  {
    hide Escape, IsSpace, Around, EndsWell, OpenText, Special;
    var d, e := OpenText(name), Escape(a);
    Delimiters(name);
    AroundPlaces(name, a, d, c);
    EscapeEnds(a);
    var md := Around(name, a, d, c);
    After(md, |d|, e, d + Escape(c) + d);
    assert md[|d| + (|e| - 1)] == e[|e| - 1];
  }
}
