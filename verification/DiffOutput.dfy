/**
  The words a comparison reports as unchanged (packages/core/src/doc/diff.ts), read off its output.

  A run of the output is several words merged into one text. Cut into words again, the unchanged runs
  are the words the walk kept, because neighbouring words of a text are of different sorts.
 */
module DiffOutput {
  import opened Common
  import opened Diff

  /** The words of the unchanged runs of an output. */
  function SameWords(out: seq<WordChange>): seq<string> {
    if out == [] then []
    else (if out[0].kind == Same then Words(out[0].text) else []) + SameWords(out[1..])
  }

  lemma {:induction false} SameWordsConcat(a: seq<WordChange>, b: seq<WordChange>)
    ensures SameWords(a + b) == SameWords(a) + SameWords(b)
    decreases |a|
  {
    hide Words;
    if a == [] {
      assert a + b == b;
    } else {
      assert (a + b)[0] == a[0] && (a + b)[1..] == a[1..] + b;
      SameWordsConcat(a[1..], b);
    }
  }

  lemma {:induction false} SameWordsOne(x: WordChange)
    ensures SameWords([x]) == if x.kind == Same then Words(x.text) else []
  {
    hide Words;
    assert [x][1..] == [];
  }

  // ----- cutting merged words

  lemma {:induction false} RunIs(text: string, space: bool, n: nat)
    requires n <= |text| && (forall k :: 0 <= k < n ==> IsSpace(text[k]) == space)
    requires n < |text| ==> IsSpace(text[n]) != space
    ensures RunLength(text, space) == n
  {
    hide IsSpace;
    var m := RunLength(text, space);
    assert m <= |text|;
  }

  lemma {:induction false} OneWord(w: string, space: bool)
    requires Uniform(w, space)
    ensures Words(w) == [w]
  {
    hide IsSpace, RunLength;
    RunIs(w, space, |w|);
    assert w[..|w|] == w && w[|w|..] == "";
    assert Words("") == [];
  }

  lemma {:induction false} WordsCons(text: string, n: nat)
    requires text != "" && n == RunLength(text, IsSpace(text[0]))
    ensures n > 0 && Words(text) == [text[..n]] + Words(text[n..])
  {
    hide IsSpace;
  }

  /** A word of the other sort stays a word of its own when it is appended. */
  lemma {:induction false} WordsAppend(u: string, w: string, space: bool)
    requires u != "" && Uniform(w, space) && IsSpace(u[|u| - 1]) != space
    ensures Words(u + w) == Words(u) + [w]
    decreases |u|
  {
    hide IsSpace, RunLength, Words;
    var t, sort := u + w, IsSpace(u[0]);
    var n := RunLength(u, sort);
    WordsCons(u, n);
    RunIs(t, sort, n);
    WordsCons(t, n);
    assert t[..n] == u[..n];
    if n == |u| {
      assert t[n..] == w && u[n..] == "";
      OneWord(w, space);
      NoWords();
    } else {
      assert t[n..] == u[n..] + w;
      WordsAppend(u[n..], w, space);
    }
  }

  lemma {:induction false} NoWords()
    ensures Words("") == []
  {
  }

  // ----- pushing a script

  /** Neighbours are of different sorts, as the words of a text are. */
  ghost predicate Alternating(a: seq<string>, first: bool) {
    forall k :: 0 <= k < |a| ==> Uniform(a[k], SortOf(first, k))
  }

  predicate SortOf(first: bool, k: nat) {
    first == (k % 2 == 0)
  }

  /** An unchanged run at the end of the output ends with the word before `i`. */
  ghost predicate EndsBefore(out: seq<WordChange>, first: bool, i: nat) {
    out != [] && out[|out| - 1].kind == Same ==>
      var text := out[|out| - 1].text;
      i > 0 && text != "" && IsSpace(text[|text| - 1]) == SortOf(first, i - 1)
  }

  lemma {:induction false} PushSame(out: seq<WordChange>, w: string, first: bool, i: nat)
    requires EndsBefore(out, first, i) && Uniform(w, SortOf(first, i))
    ensures var next := Push(out, WordChange(Same, w));
      SameWords(next) == SameWords(out) + [w] && EndsBefore(next, first, i + 1)
  {
    hide Words, IsSpace;
    var x := WordChange(Same, w);
    assert w[|w| - 1] in w;
    OneWord(w, SortOf(first, i));
    SameWordsOne(x);
    if out != [] && out[|out| - 1].kind == Same {
      var init, last := out[..|out| - 1], out[|out| - 1];
      var grown := last.(text := last.text + w);
      WordsAppend(last.text, w, SortOf(first, i));
      SameWordsOne(last);
      SameWordsOne(grown);
      SameWordsConcat(init, [last]);
      SameWordsConcat(init, [grown]);
      assert out == init + [last] && Push(out, x) == init + [grown];
    } else {
      SameWordsConcat(out, [x]);
    }
  }

  lemma {:induction false} PushOther(out: seq<WordChange>, x: WordChange, first: bool, i: nat)
    requires x.kind != Same
    ensures SameWords(Push(out, x)) == SameWords(out) && EndsBefore(Push(out, x), first, i)
  {
    hide Words, IsSpace;
    SameWordsOne(x);
    if out != [] && out[|out| - 1].kind == x.kind {
      var init, last := out[..|out| - 1], out[|out| - 1];
      var grown := last.(text := last.text + x.text);
      SameWordsOne(last);
      SameWordsOne(grown);
      SameWordsConcat(init, [last]);
      SameWordsConcat(init, [grown]);
      assert out == init + [last] && Push(out, x) == init + [grown];
    } else {
      SameWordsConcat(out, [x]);
    }
  }

  lemma {:induction false} PushAllCons(out: seq<WordChange>, x: WordChange, s: seq<WordChange>)
    ensures PushAll(out, [x] + s) == PushAll(Push(out, x), s)
  {
    assert ([x] + s)[1..] == s;
  }

  lemma {:induction false} PushedWords(
      out: seq<WordChange>, a: seq<string>, b: seq<string>, i: nat, j: nat, first: bool)
    requires i <= |a| && j <= |b| && Alternating(a, first) && EndsBefore(out, first, i)
    ensures SameWords(PushAll(out, Script(a, b, i, j))) == SameWords(out) + Kept(Script(a, b, i, j))
    decreases |a| - i + |b| - j
  {
    hide Lcs, SameWords, Push, PushAll, Kept, EndsBefore, Uniform, SortOf, Script;
    ScriptStep(a, b, i, j);
    if i == |a| && j == |b| {
      NothingPushed(out);
    } else if i < |a| && j < |b| && a[i] == b[j] {
      var x, rest := WordChange(Same, a[i]), Script(a, b, i + 1, j + 1);
      PushSame(out, a[i], first, i);
      PushedWords(Push(out, x), a, b, i + 1, j + 1, first);
      PushAllCons(out, x, rest);
      KeptCons(x, rest);
    } else if i < |a| && (j == |b| || Lcs(a, b, i + 1, j) >= Lcs(a, b, i, j + 1)) {
      var x, rest := WordChange(Removed, a[i]), Script(a, b, i + 1, j);
      PushOther(out, x, first, i + 1);
      PushedWords(Push(out, x), a, b, i + 1, j, first);
      PushAllCons(out, x, rest);
      KeptCons(x, rest);
    } else {
      var x, rest := WordChange(Added, b[j]), Script(a, b, i, j + 1);
      PushOther(out, x, first, i);
      PushedWords(Push(out, x), a, b, i, j + 1, first);
      PushAllCons(out, x, rest);
      KeptCons(x, rest);
    }
  }

  lemma {:induction false} ScriptStep(a: seq<string>, b: seq<string>, i: nat, j: nat)
    requires i <= |a| && j <= |b|
    ensures Script(a, b, i, j) == (
      if i == |a| && j == |b| then []
      else if i < |a| && j < |b| && a[i] == b[j] then [WordChange(Same, a[i])] + Script(a, b, i + 1, j + 1)
      else if i < |a| && (j == |b| || Lcs(a, b, i + 1, j) >= Lcs(a, b, i, j + 1)) then
        [WordChange(Removed, a[i])] + Script(a, b, i + 1, j)
      else [WordChange(Added, b[j])] + Script(a, b, i, j + 1))
  {
    hide Lcs;
  }

  lemma {:induction false} NothingPushed(out: seq<WordChange>)
    ensures PushAll(out, []) == out && Kept([]) == []
  {
  }

  lemma {:induction false} WordsAreAlternating(text: string)
    ensures Alternating(Words(text), text != "" && IsSpace(text[0]))
  {
    hide IsSpace, Uniform;
    if text != "" {
      WordsAlternate(text);
    }
  }

  /**
    Up to the limit, the words of the unchanged runs of the output are a common subsequence of the words of
    the two texts, and no common subsequence has more.
   */
  lemma {:induction false} DiffKeepsTheMost(before: string, after: string, c: seq<string>)
    requires |Words(before)| <= 400 && |Words(after)| <= 400
    ensures var a, b, kept := Words(before), Words(after), SameWords(DiffOf(before, after));
      && IsSubseq(kept, a) && IsSubseq(kept, b)
      && (IsSubseq(c, a) && IsSubseq(c, b) ==> |c| <= |kept|)
  {
    hide Words, Script, PushAll, SameWords, Kept, Lcs, IsSubseq, IsSpace;
    var a, b := Words(before), Words(after);
    assert a[0..] == a && b[0..] == b;
    ScriptKeepsLcs(a, b, 0, 0);
    WordsAreAlternating(before);
    PushedWords([], a, b, 0, 0, before != "" && IsSpace(before[0]));
    NoSameWords();
    var s := Script(a, b, 0, 0);
    assert DiffOf(before, after) == PushAll([], s) && [] + Kept(s) == Kept(s);
    if IsSubseq(c, a) && IsSubseq(c, b) {
      LcsIsMaximal(a, b, 0, 0, c);
    }
  }

  lemma {:induction false} NoSameWords()
    ensures SameWords([]) == []
  {
  }
}
