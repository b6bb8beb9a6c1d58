/**
  Word-level comparison of two texts (packages/core/src/doc/diff.ts): a table of longest common
  subsequence lengths, filled from the end, and a walk over it that merges runs of the same kind.
 */
module Diff {
  import opened Common

  datatype Kind = Same | Added | Removed
  datatype WordChange = WordChange(kind: Kind, text: string)

  const LIMIT := 400

  function Concat(parts: seq<string>): string {
    if parts == [] then "" else parts[0] + Concat(parts[1..])
  }

  // ----- words

  /** How many leading characters are like the first: all spaces, or none. */
  function RunLength(text: string, space: bool): (n: nat)
    ensures n <= |text|
    ensures forall k :: 0 <= k < n ==> IsSpace(text[k]) == space
    ensures n < |text| ==> IsSpace(text[n]) != space
  {
    if text == "" || IsSpace(text[0]) != space then 0 else 1 + RunLength(text[1..], space)
  }

  /** The text cut where a run of white space begins or ends; the spaces are words too. */
  function Words(text: string): seq<string>
    decreases |text|
  {
    if text == "" then []
    else
      var n := RunLength(text, IsSpace(text[0]));
      [text[..n]] + Words(text[n..])
  }

  lemma {:induction false} WordsConcat(text: string)
    ensures Concat(Words(text)) == text
    decreases |text|
  {
    if text != "" {
      WordsConcat(text[RunLength(text, IsSpace(text[0]))..]);
    }
  }

  ghost predicate Uniform(w: string, space: bool) {
    w != "" && forall c <- w :: IsSpace(c) == space
  }

  /** Every word is a non-empty run of spaces or of non-spaces, and neighbours are of different sorts. */
  lemma {:induction false} WordsAlternate(text: string)
    ensures forall k :: 0 <= k < |Words(text)| ==> Uniform(Words(text)[k], IsSpace(text[0]) == (k % 2 == 0))
    decreases |text|
  {
    if text != "" {
      var n := RunLength(text, IsSpace(text[0]));
      var w := Words(text[n..]);
      WordsAlternate(text[n..]);
      forall k | 0 <= k < |Words(text)| ensures Uniform(Words(text)[k], IsSpace(text[0]) == (k % 2 == 0)) {
        if k > 0 {
          assert Words(text)[k] == w[k - 1];
        }
      }
    }
  }

  // ----- longest common subsequences

  /** The length of the longest common subsequence of `a[i..]` and `b[j..]`. */
  function Lcs(a: seq<string>, b: seq<string>, i: nat, j: nat): nat
    requires i <= |a| && j <= |b|
    decreases |a| - i + |b| - j
  {
    if i == |a| || j == |b| then 0
    else if a[i] == b[j] then Lcs(a, b, i + 1, j + 1) + 1
    else Max(Lcs(a, b, i + 1, j), Lcs(a, b, i, j + 1))
  }

  lemma {:induction false} SubseqTail(c: seq<string>, s: seq<string>)
    requires c != [] && IsSubseq(c, s)
    ensures IsSubseq(c[1..], s)
  {
    if IsSubseq(c, s[1..]) {
      SubseqTail(c, s[1..]);
    }
    if c[1..] != [] {
      assert IsSubseq(c[1..], s[1..]);
    }
  }

  /** No common subsequence is longer than the table says. */
  lemma {:induction false} LcsIsMaximal(a: seq<string>, b: seq<string>, i: nat, j: nat, c: seq<string>)
    requires i <= |a| && j <= |b|
    requires IsSubseq(c, a[i..]) && IsSubseq(c, b[j..])
    ensures |c| <= Lcs(a, b, i, j)
    decreases |a| - i + |b| - j
  {
    if c != [] {
      assert a[i..][1..] == a[i + 1..] && b[j..][1..] == b[j + 1..];
      if a[i] == b[j] {
        SubseqRest(c, a[i..]);
        SubseqRest(c, b[j..]);
        LcsIsMaximal(a, b, i + 1, j + 1, c[1..]);
      } else if c[0] != a[i] {
        LcsIsMaximal(a, b, i + 1, j, c);
      } else {
        LcsIsMaximal(a, b, i, j + 1, c);
      }
    }
  }

  lemma {:induction false} SubseqRest(c: seq<string>, s: seq<string>)
    requires c != [] && IsSubseq(c, s)
    ensures IsSubseq(c[1..], s[1..])
  {
    if IsSubseq(c, s[1..]) {
      SubseqTail(c, s[1..]);
    }
  }

  // ----- the walk

  /** What the walk over the table produces from `i`, `j`, one change per word. */
  function Script(a: seq<string>, b: seq<string>, i: nat, j: nat): seq<WordChange>
    requires i <= |a| && j <= |b|
    decreases |a| - i + |b| - j
  {
    if i == |a| && j == |b| then []
    else if i == |a| then [WordChange(Added, b[j])] + Script(a, b, i, j + 1)
    else if j == |b| then [WordChange(Removed, a[i])] + Script(a, b, i + 1, j)
    else if a[i] == b[j] then [WordChange(Same, a[i])] + Script(a, b, i + 1, j + 1)
    else if Lcs(a, b, i + 1, j) >= Lcs(a, b, i, j + 1) then [WordChange(Removed, a[i])] + Script(a, b, i + 1, j)
    else [WordChange(Added, b[j])] + Script(a, b, i, j + 1)
  }

  /** The text of the changes of these kinds. */
  function Side(s: seq<WordChange>, kinds: set<Kind>): string {
    if s == [] then ""
    else (if s[0].kind in kinds then s[0].text else "") + Side(s[1..], kinds)
  }

  function OldText(s: seq<WordChange>): string { Side(s, {Same, Removed}) }

  function NewText(s: seq<WordChange>): string { Side(s, {Same, Added}) }

  /** The words reported as unchanged. */
  function Kept(s: seq<WordChange>): seq<string> {
    if s == [] then []
    else (if s[0].kind == Same then [s[0].text] else []) + Kept(s[1..])
  }

  lemma {:induction false} ScriptTexts(a: seq<string>, b: seq<string>, i: nat, j: nat)
    requires i <= |a| && j <= |b|
    ensures OldText(Script(a, b, i, j)) == Concat(a[i..])
    ensures NewText(Script(a, b, i, j)) == Concat(b[j..])
    decreases |a| - i + |b| - j
  {
    hide Lcs;
    if i < |a| { assert a[i..][1..] == a[i + 1..]; }
    if j < |b| { assert b[j..][1..] == b[j + 1..]; }
    if i < |a| && j < |b| && a[i] == b[j] {
      ScriptTexts(a, b, i + 1, j + 1);
    } else if i < |a| && (j == |b| || Lcs(a, b, i + 1, j) >= Lcs(a, b, i, j + 1)) {
      ScriptTexts(a, b, i + 1, j);
    } else if j < |b| {
      ScriptTexts(a, b, i, j + 1);
    }
  }

  /** The unchanged words are a common subsequence of the greatest possible length. */
  lemma {:induction false} ScriptKeepsLcs(a: seq<string>, b: seq<string>, i: nat, j: nat)
    requires i <= |a| && j <= |b|
    ensures var k := Kept(Script(a, b, i, j));
      |k| == Lcs(a, b, i, j) && IsSubseq(k, a[i..]) && IsSubseq(k, b[j..])
    decreases |a| - i + |b| - j
  {
    hide IsSubseq, Kept;
    if i < |a| { assert a[i..][1..] == a[i + 1..]; }
    if j < |b| { assert b[j..][1..] == b[j + 1..]; }
    if i == |a| && j == |b| {
      NothingKept(a[i..], b[j..]);
    } else if i < |a| && j < |b| && a[i] == b[j] {
      var k := Kept(Script(a, b, i + 1, j + 1));
      ScriptKeepsLcs(a, b, i + 1, j + 1);
      KeptCons(WordChange(Same, a[i]), Script(a, b, i + 1, j + 1));
      SubseqCons(a[i], k, a[i..]);
      SubseqCons(b[j], k, b[j..]);
    } else if i < |a| && (j == |b| || Lcs(a, b, i + 1, j) >= Lcs(a, b, i, j + 1)) {
      ScriptKeepsLcs(a, b, i + 1, j);
      KeptCons(WordChange(Removed, a[i]), Script(a, b, i + 1, j));
      SubseqSkip(Kept(Script(a, b, i + 1, j)), a[i..]);
    } else if j < |b| {
      ScriptKeepsLcs(a, b, i, j + 1);
      KeptCons(WordChange(Added, b[j]), Script(a, b, i, j + 1));
      SubseqSkip(Kept(Script(a, b, i, j + 1)), b[j..]);
    }
  }

  lemma {:induction false} NothingKept(a: seq<string>, b: seq<string>)
    ensures Kept([]) == [] && IsSubseq([], a) && IsSubseq([], b)
  {
  }

  lemma {:induction false} KeptCons(x: WordChange, s: seq<WordChange>)
    ensures Kept([x] + s) == if x.kind == Same then [x.text] + Kept(s) else Kept(s)
  {
    assert ([x] + s)[1..] == s;
  }

  lemma {:induction false} SubseqCons(x: string, c: seq<string>, s: seq<string>)
    requires s != [] && s[0] == x && IsSubseq(c, s[1..])
    ensures IsSubseq([x] + c, s)
  {
    assert ([x] + c)[1..] == c;
  }

  lemma {:induction false} SubseqSkip(c: seq<string>, s: seq<string>)
    requires s != [] && IsSubseq(c, s[1..])
    ensures IsSubseq(c, s)
  {
  }

  // ----- merging runs

  /** Append, merging with the previous run of the same kind. */
  function Push(out: seq<WordChange>, x: WordChange): seq<WordChange> {
    if out != [] && out[|out| - 1].kind == x.kind then
      out[|out| - 1 := out[|out| - 1].(text := out[|out| - 1].text + x.text)]
    else out + [x]
  }

  function PushAll(out: seq<WordChange>, s: seq<WordChange>): seq<WordChange>
    decreases |s|
  {
    if s == [] then out else PushAll(Push(out, s[0]), s[1..])
  }

  ghost predicate NoTwins(s: seq<WordChange>) {
    forall k :: 0 < k < |s| ==> s[k - 1].kind != s[k].kind
  }

  lemma {:induction false} SideConcat(s: seq<WordChange>, t: seq<WordChange>, kinds: set<Kind>)
    ensures Side(s + t, kinds) == Side(s, kinds) + Side(t, kinds)
  {
    if s == [] {
      assert s + t == t;
    } else {
      assert (s + t)[1..] == s[1..] + t;
      SideConcat(s[1..], t, kinds);
    }
  }

  lemma {:induction false} SideOne(x: WordChange)
    ensures forall kinds :: Side([x], kinds) == if x.kind in kinds then x.text else ""
  {
  }

  lemma {:induction false} PushKeepsText(out: seq<WordChange>, x: WordChange, kinds: set<Kind>)
    ensures Side(Push(out, x), kinds) == Side(out, kinds) + if x.kind in kinds then x.text else ""
  {
    SideOne(x);
    if out != [] && out[|out| - 1].kind == x.kind {
      var init, last := out[..|out| - 1], out[|out| - 1];
      var merged := last.(text := last.text + x.text);
      assert out == init + [last] && Push(out, x) == init + [merged];
      hide Push;
      SideOne(last);
      SideOne(merged);
      SideConcat(init, [last], kinds);
      SideConcat(init, [merged], kinds);
    } else {
      SideConcat(out, [x], kinds);
    }
  }

  lemma {:induction false} PushAllKeepsText(out: seq<WordChange>, s: seq<WordChange>, kinds: set<Kind>)
    ensures Side(PushAll(out, s), kinds) == Side(out, kinds) + Side(s, kinds)
    decreases |s|
  {
    if s != [] {
      PushKeepsText(out, s[0], kinds);
      PushAllKeepsText(Push(out, s[0]), s[1..], kinds);
    }
  }

  lemma {:induction false} PushAllHasNoTwins(out: seq<WordChange>, s: seq<WordChange>)
    requires NoTwins(out)
    ensures NoTwins(PushAll(out, s))
    decreases |s|
  {
    if s != [] {
      assert NoTwins(Push(out, s[0]));
      PushAllHasNoTwins(Push(out, s[0]), s[1..]);
    }
  }

  // ----- the method

  method LcsTable(a: seq<string>, b: seq<string>) returns (lengths: array2<nat>)
    ensures lengths.Length0 == |a| + 1 && lengths.Length1 == |b| + 1
    ensures forall i, j :: 0 <= i <= |a| && 0 <= j <= |b| ==> lengths[i, j] == Lcs(a, b, i, j)
  {
    lengths := new nat[|a| + 1, |b| + 1]((i, j) => 0);
    var i := |a|;
    while i > 0
      invariant 0 <= i <= |a|
      invariant forall k, l :: i <= k <= |a| && 0 <= l <= |b| ==> lengths[k, l] == Lcs(a, b, k, l)
      invariant forall k :: 0 <= k < i ==> lengths[k, |b|] == 0
    {
      i := i - 1;
      FillRow(a, b, lengths, i);
    }
  }

  /** The inner loop of the table: one row, from the end. */
  method FillRow(a: seq<string>, b: seq<string>, lengths: array2<nat>, i: nat)
    requires i < |a| && lengths.Length0 == |a| + 1 && lengths.Length1 == |b| + 1
    requires forall k, l :: k == i + 1 && 0 <= l <= |b| ==> lengths[k, l] == Lcs(a, b, k, l)
    requires lengths[i, |b|] == 0
    modifies lengths
    ensures forall l :: 0 <= l <= |b| ==> lengths[i, l] == Lcs(a, b, i, l)
    ensures forall k, l :: 0 <= k <= |a| && k != i && 0 <= l <= |b| ==> lengths[k, l] == old(lengths[k, l])
  {
    var j := |b|;
    while j > 0
      invariant 0 <= j <= |b|
      invariant forall l :: j <= l <= |b| ==> lengths[i, l] == Lcs(a, b, i, l)
      invariant forall k, l :: 0 <= k <= |a| && k != i && 0 <= l <= |b| ==> lengths[k, l] == old(lengths[k, l])
    {
      j := j - 1;
      lengths[i, j] := if a[i] == b[j] then lengths[i + 1, j + 1] + 1 else Max(lengths[i + 1, j], lengths[i, j + 1]);
    }
  }

  method Walk(a: seq<string>, b: seq<string>, lengths: array2<nat>) returns (out: seq<WordChange>)
    requires lengths.Length0 == |a| + 1 && lengths.Length1 == |b| + 1
    requires forall i, j :: 0 <= i <= |a| && 0 <= j <= |b| ==> lengths[i, j] == Lcs(a, b, i, j)
    ensures out == PushAll([], Script(a, b, 0, 0))
  {
    hide Lcs, Push;
    out := [];
    var i, j := 0, 0;
    while i < |a| && j < |b|
      invariant i <= |a| && j <= |b|
      invariant PushAll(out, Script(a, b, i, j)) == PushAll([], Script(a, b, 0, 0))
    {
      if a[i] == b[j] {
        out := Push(out, WordChange(Same, a[i]));
        i, j := i + 1, j + 1;
      } else if lengths[i + 1, j] >= lengths[i, j + 1] {
        out := Push(out, WordChange(Removed, a[i]));
        i := i + 1;
      } else {
        out := Push(out, WordChange(Added, b[j]));
        j := j + 1;
      }
    }
    while i < |a|
      invariant i <= |a| && j <= |b| && (i < |a| ==> j == |b|)
      invariant PushAll(out, Script(a, b, i, j)) == PushAll([], Script(a, b, 0, 0))
    {
      out := Push(out, WordChange(Removed, a[i]));
      i := i + 1;
    }
    while j < |b|
      invariant j <= |b|
      invariant PushAll(out, Script(a, b, i, j)) == PushAll([], Script(a, b, 0, 0))
    {
      out := Push(out, WordChange(Added, b[j]));
      j := j + 1;
    }
  }

  /** The comparison the source returns. */
  function DiffOf(before: string, after: string): seq<WordChange> {
    if |Words(before)| > LIMIT || |Words(after)| > LIMIT then [WordChange(Removed, before), WordChange(Added, after)]
    else PushAll([], Script(Words(before), Words(after), 0, 0))
  }

  method DiffWords(before: string, after: string) returns (out: seq<WordChange>)
    ensures out == DiffOf(before, after)
  {
    var a, b := Words(before), Words(after);
    if |a| > LIMIT || |b| > LIMIT {
      return [WordChange(Removed, before), WordChange(Added, after)];
    }
    var lengths := LcsTable(a, b);
    out := Walk(a, b, lengths);
  }

  /**
    For all texts: dropping what was added gives the old text, dropping what was removed the new one, and runs are
    merged.
   */
  lemma {:induction false} DiffReadsBothTexts(before: string, after: string)
    ensures OldText(DiffOf(before, after)) == before
    ensures NewText(DiffOf(before, after)) == after
    ensures NoTwins(DiffOf(before, after))
  {
    var d := DiffOf(before, after);
    if |Words(before)| > LIMIT || |Words(after)| > LIMIT {
      SideConcat([WordChange(Removed, before)], [WordChange(Added, after)], {Same, Removed});
      SideConcat([WordChange(Removed, before)], [WordChange(Added, after)], {Same, Added});
      assert d == [WordChange(Removed, before)] + [WordChange(Added, after)];
      SideOne(WordChange(Removed, before));
      SideOne(WordChange(Added, after));
    } else {
      hide Words, Script, PushAll;
      var a, b := Words(before), Words(after);
      var s := Script(a, b, 0, 0);
      WordsConcat(before);
      WordsConcat(after);
      assert a[0..] == a && b[0..] == b;
      ScriptTexts(a, b, 0, 0);
      PushAllKeepsText([], s, {Same, Removed});
      PushAllKeepsText([], s, {Same, Added});
      PushAllHasNoTwins([], s);
    }
  }

  // ----- removed before added

  /** What was added never stands directly before what was removed. */
  ghost predicate RemovedFirst(s: seq<WordChange>) {
    forall k :: 0 < k < |s| ==> !(s[k - 1].kind == Added && s[k].kind == Removed)
  }

  /** Fewer words on one side share no more. */
  lemma {:induction false} LcsMonotone(a: seq<string>, b: seq<string>, i: nat, j: nat)
    requires i <= |a| && j < |b|
    ensures Lcs(a, b, i, j) >= Lcs(a, b, i, j + 1)
  {
    hide Lcs, IsSubseq, Script;
    var k := Kept(Script(a, b, i, j + 1));
    ScriptKeepsLcs(a, b, i, j + 1);
    assert b[j..][1..] == b[j + 1..];
    SubseqSkip(k, b[j..]);
    LcsIsMaximal(a, b, i, j, k);
  }

  /** A word is added only when the old word can still be kept; so it is kept before anything is removed. */
  lemma {:induction false} AddedIsNotBeforeRemoved(a: seq<string>, b: seq<string>, i: nat, j: nat)
    requires i < |a| && j < |b| && a[i] != b[j] && Lcs(a, b, i + 1, j) < Lcs(a, b, i, j + 1)
    ensures Script(a, b, i, j + 1) != [] && Script(a, b, i, j + 1)[0].kind != Removed
  {
    if j + 1 < |b| && a[i] != b[j + 1] {
      LcsMonotone(a, b, i + 1, j);
    }
  }

  lemma {:induction false} RemovedFirstCons(x: WordChange, s: seq<WordChange>)
    requires RemovedFirst(s) && (x.kind == Added && s != [] ==> s[0].kind != Removed)
    ensures RemovedFirst([x] + s)
  {
  }

  lemma {:induction false} ScriptRemovesFirst(a: seq<string>, b: seq<string>, i: nat, j: nat)
    requires i <= |a| && j <= |b|
    ensures RemovedFirst(Script(a, b, i, j))
    ensures i == |a| && Script(a, b, i, j) != [] ==> Script(a, b, i, j)[0].kind == Added
    decreases |a| - i + |b| - j
  {
    hide Lcs, RemovedFirst;
    if i == |a| && j == |b| {
      NothingRemoved();
    } else if i < |a| && j < |b| && a[i] == b[j] {
      ScriptRemovesFirst(a, b, i + 1, j + 1);
      RemovedFirstCons(WordChange(Same, a[i]), Script(a, b, i + 1, j + 1));
    } else if i < |a| && (j == |b| || Lcs(a, b, i + 1, j) >= Lcs(a, b, i, j + 1)) {
      ScriptRemovesFirst(a, b, i + 1, j);
      RemovedFirstCons(WordChange(Removed, a[i]), Script(a, b, i + 1, j));
    } else {
      ScriptRemovesFirst(a, b, i, j + 1);
      if i < |a| {
        AddedIsNotBeforeRemoved(a, b, i, j);
      }
      RemovedFirstCons(WordChange(Added, b[j]), Script(a, b, i, j + 1));
    }
  }

  lemma {:induction false} NothingRemoved()
    ensures RemovedFirst([])
  {
  }

  /** The end of an output can be followed by this change. */
  ghost predicate MayFollow(out: seq<WordChange>, s: seq<WordChange>) {
    out != [] && s != [] ==> !(out[|out| - 1].kind == Added && s[0].kind == Removed)
  }

  lemma {:induction false} PushAllRemovesFirst(out: seq<WordChange>, s: seq<WordChange>)
    requires RemovedFirst(out) && RemovedFirst(s) && MayFollow(out, s)
    ensures RemovedFirst(PushAll(out, s))
    decreases |s|
  {
    if s != [] {
      var next := Push(out, s[0]);
      assert next[|next| - 1].kind == s[0].kind;
      PushAllRemovesFirst(next, s[1..]);
    }
  }

  /** For all texts, within and beyond the limit, what was removed is reported before what replaced it. */
  lemma {:induction false} DiffRemovesFirst(before: string, after: string)
    ensures RemovedFirst(DiffOf(before, after))
  {
    hide Words, Script, PushAll;
    if |Words(before)| <= LIMIT && |Words(after)| <= LIMIT {
      ScriptRemovesFirst(Words(before), Words(after), 0, 0);
      PushAllRemovesFirst([], Script(Words(before), Words(after), 0, 0));
    }
  }

  /** Texts of more than 400 words are not compared. */
  lemma {:induction false} LongTextsAreReplaced(before: string, after: string)
    requires |Words(before)| > 400 || |Words(after)| > 400
    ensures DiffOf(before, after) == [WordChange(Removed, before), WordChange(Added, after)]
  {
    hide Words;
  }
}
