/**
  Which edits of the forest the editor's subtree commands are.

  Parents are those of `Forest.Parent`, which `Reader` proves to be the parents the
  server-side tree reader reports for the same sequence.
 */
module OutlineTheorems {
  import opened Common
  import opened Forest
  import opened Edits
  import opened Outline

  /** The same block, at whatever level. */
  ghost predicate SameBlock(a: Node, b: Node) {
    a.(indent := b.indent) == b
  }

  /** `lo..hi` is exactly the subtree rooted at `lo`. */
  ghost predicate IsSubtree(d: seq<nat>, lo: nat, hi: nat) {
    && lo < hi <= |d|
    && forall k :: 0 <= k < |d| ==> (lo <= k < hi <==> (k == lo || Ancestor(d, lo, k)))
  }

  // ----- indent

  /** Indenting is refused exactly when there is no previous sibling to become the parent. */
  lemma {:induction false} IndentRefusedIffNoSibling(s: seq<Node>, i: nat)
    requires Stepped(Levels(s)) && i < |s|
    ensures Indented(s, i).None? <==> PrevSibling(Levels(s), i) == -1
  {
    var d := Levels(s);
    PrevSiblingByLevel(d, i);
    var q := Shallower(d, i, d[i] + 1);
    if i > 0 && d[i] <= d[i - 1] && 0 <= q < i - 1 {
      assert d[q + 1] >= d[i] + 1;
    }
  }

  /**
    Indenting makes the block the last child of its previous sibling. No other block changes
    parent and no block changes in anything but its level.
   */
  lemma {:induction false} IndentIsReparenting(s: seq<Node>, i: nat)
    requires Stepped(Levels(s)) && i < |s|
    requires Indented(s, i).Some?
    ensures var d, t := Levels(s), Indented(s, i).value; var d', q := Levels(t), PrevSibling(d, i);
      && |t| == |s|
      && Stepped(d')
      && 0 <= q == Parent(d', i)
      && (forall k :: i < k < |s| ==> Parent(d', k) != q)
      && (forall k :: 0 <= k < |s| && k != i ==> Parent(d', k) == Parent(d, k))
      && (forall k :: 0 <= k < |s| ==> SameBlock(s[k], t[k]))
  {
    var d, t := Levels(s), Indented(s, i).value;
    var d' := Levels(t);
    IndentRefusedIffNoSibling(s, i);
    RaiseReparents(d, d', i, PrevSibling(d, i));
    forall k | 0 <= k < |s| && k != i ensures Parent(d', k) == Parent(d, k) {
      RaiseKeepsOthers(d, d', i, k);
    }
  }

  /**
    The command has no cap of its own: the result is well-formed exactly when nothing in the subtree sat at the
    cap.
   */
  lemma {:induction false} IndentWellFormedIff(s: seq<Node>, i: nat)
    requires WellFormed(s) && i < |s|
    requires Indented(s, i).Some?
    ensures WellFormed(Indented(s, i).value)
       <==> forall k :: 0 <= k < |s| && (k == i || Ancestor(Levels(s), i, k)) ==> s[k].indent < MAX_BLOCK_DEPTH
  {
    var t, e := Indented(s, i).value, RunEnd(Levels(s), i);
    assert Stepped(Levels(t)) by {
      hide Levels, Indented;
      IndentIsReparenting(s, i);
    }
    assert IsSubtree(Levels(s), i, e) by {
      SubtreeIsInterval(Levels(s), i);
    }
    hide Stepped, Ancestor, Parent;
    forall k | 0 <= k < |s| ensures t[k].indent == if i <= k < e then s[k].indent + 1 else s[k].indent {}
  }

  /** Thirty-four blocks, one level deeper each until the cap, and the last one beside its predecessor. */
  function AtCap(): seq<Node> {
    seq(34, k requires 0 <= k < 34 => Node(None, "paragraph", if k < 32 then k else 32, false, ""))
  }

  /** A block at the cap still indents, to a level the reader does not read. */
  lemma {:induction false} IndentPassesTheCap()
    ensures WellFormed(AtCap()) && Indented(AtCap(), 33).Some? && !WellFormed(Indented(AtCap(), 33).value)
  {
    var s := AtCap();
    assert s[33].indent == 32 && s[32].indent == 32;
    forall k | 0 < k < |s| ensures Levels(s)[k] <= Levels(s)[k - 1] + 1 {
    }
    var t := Indented(s, 33).value;
    assert RunEnd(Levels(s), 33) == 34;
    assert t[33].indent == 33;
  }

  // ----- outdent

  /**
    Outdenting makes the block the next sibling of its parent. Its later siblings, which now
    follow a shallower block, become its last children; every other parent is unchanged.
   */
  lemma {:induction false} OutdentIsReparenting(s: seq<Node>, i: nat)
    requires Stepped(Levels(s)) && i < |s|
    ensures Outdented(s, i).None? <==> Parent(Levels(s), i) == -1
    ensures Outdented(s, i).Some? ==>
      var d, t := Levels(s), Outdented(s, i).value; var d', p := Levels(t), Parent(d, i);
      && |t| == |s|
      && Stepped(d')
      && 0 <= p == PrevSibling(d', i)
      && Parent(d', i) == Parent(d, p)
      && (forall k :: i < k < |s| && Parent(d, k) == p ==> Parent(d', k) == i)
      && (forall k :: 0 <= k < |s| && k != i && !(i < k && Parent(d, k) == p) ==> Parent(d', k) == Parent(d, k))
      && (forall k :: 0 <= k < |s| ==> SameBlock(s[k], t[k]))
  {
    var d := Levels(s);
    ParentOneLevelUp(d, i);
    if Outdented(s, i).Some? {
      var d', p := Levels(Outdented(s, i).value), Parent(d, i);
      LowerReparents(d, d', i);
      forall k | i < k < |s| && Parent(d, k) == p ensures Parent(d', k) == i {
        LowerAdopts(d, d', i, k);
      }
      forall k | 0 <= k < |s| && k != i && !(i < k && Parent(d, k) == p) ensures Parent(d', k) == Parent(d, k) {
        LowerKeepsOthers(d, d', i, k);
      }
    }
  }

  lemma {:induction false} OutdentKeepsWellFormed(s: seq<Node>, i: nat)
    requires WellFormed(s) && i < |s| && Outdented(s, i).Some?
    ensures WellFormed(Outdented(s, i).value)
  {
    OutdentIsReparenting(s, i);
  }

  // ----- the two undo each other

  /** Outdenting at the same place undoes an indent, on every sequence. */
  lemma {:induction false} OutdentUndoesIndent(s: seq<Node>, i: nat)
    requires i < |s| && Indented(s, i).Some?
    ensures Outdented(Indented(s, i).value, i) == Some(s)
  {
    var t := Indented(s, i).value;
    RunEndIs(Levels(t), i, RunEnd(Levels(s), i));
    assert Outdented(t, i).value == s;
  }

  /** Indenting again undoes an outdent exactly when the block had no later sibling to adopt. */
  lemma {:induction false} IndentUndoesOutdentIff(s: seq<Node>, i: nat)
    requires Stepped(Levels(s)) && i < |s| && Outdented(s, i).Some?
    ensures Indented(Outdented(s, i).value, i) == Some(s)
       <==> forall k :: i < k < |s| ==> Parent(Levels(s), k) != Parent(Levels(s), i)
  {
    var d := Levels(s);
    if k :| i < k < |s| && Parent(d, k) == Parent(d, i) {
      AdoptedSiblingIsSwept(s, i, k);
    } else {
      NoSiblingToSweep(s, i);
    }
  }

  /** A root with two children. */
  function TwoChildren(): seq<Node> {
    [Node(None, "paragraph", 0, false, ""), Node(None, "paragraph", 1, false, ""),
      Node(None, "paragraph", 1, false, "")]
  }

  /** Outdenting the first child adopts the second, and indenting it again takes both below the root's child. */
  lemma {:induction false} OutdentAdoptsForGood()
    ensures WellFormed(TwoChildren()) && Outdented(TwoChildren(), 1).Some?
    ensures var t := Outdented(TwoChildren(), 1).value;
      Indented(t, 1).Some? && Levels(Indented(t, 1).value) == [0, 1, 2]
  {
    var s := TwoChildren();
    RunEndIs(Levels(s), 1, 2);
    var t := Outdented(s, 1).value;
    assert Levels(t) == [0, 0, 1];
    RunEndIs(Levels(t), 1, 3);
  }

  lemma {:induction false} AdoptedSiblingIsSwept(s: seq<Node>, i: nat, k: nat)
    requires Stepped(Levels(s)) && i < k < |s| && Outdented(s, i).Some?
    requires Parent(Levels(s), k) == Parent(Levels(s), i)
    ensures Indented(Outdented(s, i).value, i) != Some(s)
  {
    var t := Outdented(s, i).value;
    LowerAdopts(Levels(s), Levels(t), i, k);
    AncestorIffInRun(Levels(t), i, k);
    assert t[k] == s[k];
    if Indented(t, i).Some? {
      assert Indented(t, i).value[k].indent == s[k].indent + 1;
    }
  }

  lemma {:induction false} NoSiblingToSweep(s: seq<Node>, i: nat)
    requires Stepped(Levels(s)) && i < |s| && Outdented(s, i).Some?
    requires forall k :: i < k < |s| ==> Parent(Levels(s), k) != Parent(Levels(s), i)
    ensures Indented(Outdented(s, i).value, i) == Some(s)
  {
    var t, e := Outdented(s, i).value, RunEnd(Levels(s), i);
    assert Indented(t, i).Some? by {
      LowerReparents(Levels(s), Levels(t), i);
      IndentRefusedIffNoSibling(t, i);
    }
    assert RunEnd(Levels(t), i) == e by {
      if e < |s| {
        SiblingAtRunEnd(Levels(s), i);
      }
      RunEndIs(Levels(t), i, e);
    }
    assert t == ShiftRun(s, i, e, -1);
    hide ShiftRun;
    ShiftBack(s, i, e);
  }

  lemma {:induction false} SiblingAtRunEnd(d: seq<nat>, i: nat)
    requires i < |d| && RunEnd(d, i) < |d|
    ensures d[RunEnd(d, i)] == d[i] ==> Parent(d, RunEnd(d, i)) == Parent(d, i)
  {
    if d[RunEnd(d, i)] == d[i] {
      ParentIs(d, RunEnd(d, i), Parent(d, i));
    }
  }

  lemma {:induction false} ShiftBack(s: seq<Node>, i: nat, e: nat)
    requires i <= e <= |s| && forall k :: i <= k < e ==> s[k].indent > 0
    ensures ShiftRun(ShiftRun(s, i, e, -1), i, e, 1) == s
  {
  }

  // ----- move

  lemma {:induction false} ExchangeLevels(s: seq<Node>, a: nat, b: nat, c: nat)
    requires a <= b <= c <= |s|
    ensures Exchanged(s, Exchange(s, a, b, c), a, b, c)
    ensures Exchanged(Levels(s), Levels(Exchange(s, a, b, c)), a, b, c)
  {
  }

  /** What a successful move is: the two sibling subtrees `a..b` and `b..c` change places, and nothing else. */
  ghost predicate ExchangesSiblings(s: seq<Node>, t: seq<Node>, a: nat, b: nat, c: nat) {
    && a < b < c <= |s| == |t|
    && PrevSibling(Levels(s), b) == a
    && IsSubtree(Levels(s), a, b)
    && IsSubtree(Levels(s), b, c)
    && SameForest(s, t, a, b, c)
    && multiset(t) == multiset(s)
    && Stepped(Levels(t))
    && (Capped(s) ==> Capped(t))
  }

  /** Every block is still there, at its new place, with the same parent at that parent's new place. */
  ghost predicate SameForest(s: seq<Node>, t: seq<Node>, a: nat, b: nat, c: nat)
    requires a <= b <= c <= |s| == |t|
  {
    forall k :: 0 <= k < |s| ==>
      && 0 <= Place(a, b, c, k) < |t|
      && t[Place(a, b, c, k)] == s[k]
      && Parent(Levels(t), Place(a, b, c, k)) == Place(a, b, c, Parent(Levels(s), k))
  }

  lemma {:induction false} ExchangeTheorem(s: seq<Node>, a: nat, b: nat, c: nat)
    requires Stepped(Levels(s)) && SiblingRuns(Levels(s), a, b, c)
    ensures ExchangesSiblings(s, Exchange(s, a, b, c), a, b, c)
  {
    hide Levels, Exchange, SameForest, Stepped, Capped, PrevSibling, Ancestor, RunEnd;
    ExchangeSameForest(s, a, b, c);
    ExchangeWellFormed(s, a, b, c);
    SubtreeIsInterval(Levels(s), a);
    SubtreeIsInterval(Levels(s), b);
    SiblingRunsAreSiblings(Levels(s), a, b, c);
    ExchangeIsPermutation(s, a, b, c);
  }

  lemma {:induction false} SiblingRunsAreSiblings(d: seq<nat>, a: nat, b: nat, c: nat)
    requires Stepped(d) && SiblingRuns(d, a, b, c)
    ensures PrevSibling(d, b) == a
  {
    PrevSiblingByLevel(d, b);
  }

  lemma {:induction false} ExchangeWellFormed(s: seq<Node>, a: nat, b: nat, c: nat)
    requires Stepped(Levels(s)) && SiblingRuns(Levels(s), a, b, c)
    ensures Stepped(Levels(Exchange(s, a, b, c)))
    ensures Capped(s) ==> Capped(Exchange(s, a, b, c))
  {
    ExchangeLevels(s, a, b, c);
    ExchangeStepped(Levels(s), Levels(Exchange(s, a, b, c)), a, b, c);
  }

  lemma {:induction false} ExchangeIsPermutation<T>(s: seq<T>, a: nat, b: nat, c: nat)
    requires a <= b <= c <= |s|
    ensures multiset(Exchange(s, a, b, c)) == multiset(s)
  {
    assert s == s[..a] + s[a..b] + s[b..c] + s[c..];
  }

  lemma {:induction false} ExchangeSameForest(s: seq<Node>, a: nat, b: nat, c: nat)
    requires SiblingRuns(Levels(s), a, b, c)
    ensures SameForest(s, Exchange(s, a, b, c), a, b, c)
  {
    var t := Exchange(s, a, b, c);
    ExchangeLevels(s, a, b, c);
    ExchangeInverse(s, t, a, b, c);
    forall k | 0 <= k < |s| ensures Parent(Levels(t), Place(a, b, c, k)) == Place(a, b, c, Parent(Levels(s), k)) {
      ExchangeKeepsParent(Levels(s), Levels(t), a, b, c, k);
    }
  }

  /** Moving up succeeds exactly when there is a previous sibling, and exchanges the two subtrees. */
  lemma {:induction false} MoveUpExchangesSiblings(s: seq<Node>, i: nat)
    requires Stepped(Levels(s)) && i < |s|
    ensures MovedUp(s, i).Some? <==> PrevSibling(Levels(s), i) >= 0
    ensures MovedUp(s, i).Some? ==>
      var m := MovedUp(s, i).value;
      m.index == PrevSibling(Levels(s), i) && ExchangesSiblings(s, m.doc, m.index, i, RunEnd(Levels(s), i))
  {
    var d := Levels(s);
    hide Exchange, ExchangesSiblings;
    PrevSiblingByLevel(d, i);
    if MovedUp(s, i).Some? {
      var q := PrecedingRun(s, i);
      RunEndIs(d, q, i);
      ExchangeTheorem(s, q, i, RunEnd(d, i));
    }
  }

  /** Moving down succeeds exactly when some block has this one as its previous sibling. */
  lemma {:induction false} MoveDownExchangesSiblings(s: seq<Node>, i: nat)
    requires Stepped(Levels(s)) && i < |s|
    ensures MovedDown(s, i).Some? <==> exists k :: 0 <= k < |s| && PrevSibling(Levels(s), k) == i
    ensures MovedDown(s, i).Some? ==>
      var d := Levels(s); var e := RunEnd(d, i);
      && e < |s| && PrevSibling(d, e) == i
      && ExchangesSiblings(s, MovedDown(s, i).value.doc, i, e, RunEnd(d, e))
      && MovedDown(s, i).value.index == Place(i, e, RunEnd(d, e), i)
  {
    hide Exchange, ExchangesSiblings, Stepped;
    var d := Levels(s);
    var e := RunEnd(d, i);
    if MovedDown(s, i).Some? {
      SiblingRunsAreSiblings(d, i, e, RunEnd(d, e));
      ExchangeTheorem(s, i, e, RunEnd(d, e));
    } else {
      NoNextSibling(d, i);
    }
  }

  lemma {:induction false} NoNextSibling(d: seq<nat>, i: nat)
    requires Stepped(d) && i < |d| && (RunEnd(d, i) < |d| ==> d[RunEnd(d, i)] != d[i])
    ensures forall k :: 0 <= k < |d| ==> PrevSibling(d, k) != i
  {
    forall k | 0 <= k < |d| ensures PrevSibling(d, k) != i {
      PrevSiblingByLevel(d, k);
    }
  }

  /** A move up is an exchange with the sibling run before it. */
  lemma {:induction false} MovedUpIs(s: seq<Node>, a: nat, b: nat, c: nat)
    requires SiblingRuns(Levels(s), a, b, c)
    ensures MovedUp(s, b) == Some(Moved(Exchange(s, a, b, c), a))
  {
    hide Exchange;
    PrecedingRunIs(s, a, b);
  }

  lemma {:induction false} MovedUpRuns(s: seq<Node>, i: nat)
    requires i < |s| && MovedUp(s, i).Some?
    ensures SiblingRuns(Levels(s), MovedUp(s, i).value.index, i, RunEnd(Levels(s), i))
  {
    hide Exchange;
    RunEndIs(Levels(s), PrecedingRun(s, i), i);
  }

  /** A move down is an exchange with the sibling run after it. */
  lemma {:induction false} MovedDownIs(s: seq<Node>, a: nat, b: nat, c: nat)
    requires SiblingRuns(Levels(s), a, b, c)
    ensures MovedDown(s, a) == Some(Moved(Exchange(s, a, b, c), a + (c - b)))
  {
    hide Exchange;
  }

  /** Moving down from the new place undoes a move up, on every sequence. */
  lemma {:induction false} MoveDownUndoesMoveUp(s: seq<Node>, i: nat)
    requires i < |s| && MovedUp(s, i).Some?
    ensures var m := MovedUp(s, i).value; m.index < |m.doc| && MovedDown(m.doc, m.index) == Some(Moved(s, i))
  {
    hide MovedDown, MovedUp, Exchange, Levels;
    MovedUpRuns(s, i);
    var q, e := MovedUp(s, i).value.index, RunEnd(Levels(s), i);
    MovedUpIs(s, q, i, e);
    ExchangeBack(s, q, i, e);
    MovedDownIs(Exchange(s, q, i, e), q, q + (e - i), e);
  }

  /** Moving up from the new place undoes a move down, on every sequence. */
  lemma {:induction false} MoveUpUndoesMoveDown(s: seq<Node>, i: nat)
    requires i < |s| && MovedDown(s, i).Some?
    ensures var m := MovedDown(s, i).value; m.index < |m.doc| && MovedUp(m.doc, m.index) == Some(Moved(s, i))
  {
    hide MovedUp, Exchange;
    var e := RunEnd(Levels(s), i);
    var f := RunEnd(Levels(s), e);
    ExchangeBack(s, i, e, f);
    MovedUpIs(Exchange(s, i, e, f), i, i + (f - e), f);
  }

  lemma {:induction false} PrecedingRunIs(s: seq<Node>, a: nat, b: nat)
    requires a < b < |s| && RunEnd(Levels(s), a) == b && s[a].indent == s[b].indent
    ensures PrecedingRun(s, b) == a
  {
    var q := Shallower(Levels(s), b, s[b].indent + 1);
    assert q >= a ==> q == a;
  }

  lemma {:induction false} ExchangeUndone<T>(s: seq<T>, a: nat, b: nat, c: nat)
    requires a <= b <= c <= |s|
    ensures Exchange(Exchange(s, a, b, c), a, a + (c - b), c) == s
  {
  }

  lemma {:induction false} ExchangeBack(s: seq<Node>, a: nat, b: nat, c: nat)
    requires SiblingRuns(Levels(s), a, b, c)
    ensures var t := Exchange(s, a, b, c); var m := a + (c - b);
      Exchange(t, a, m, c) == s && SiblingRuns(Levels(t), a, m, c)
  {
    hide Levels, Exchanged, Place;
    var t := Exchange(s, a, b, c);
    ExchangeUndone(s, a, b, c);
    ExchangeLevels(s, a, b, c);
    ExchangeRuns(Levels(s), Levels(t), a, b, c);
  }

  // ----- duplicate

  /** The blocks of `s` in `t`, where a copy of `i..e` was inserted at `e`: same blocks, same parents. */
  ghost predicate OriginalsKept(s: seq<Node>, t: seq<Node>, i: nat, e: nat)
    requires i < e <= |s| && |t| == |s| + (e - i)
  {
    forall k :: 0 <= k < |s| ==>
      && t[AfterCopy(i, e, k)] == s[k]
      && Parent(Levels(t), AfterCopy(i, e, k)) == AfterCopy(i, e, Parent(Levels(s), k))
  }

  /**
    The copy in `t` of the subtree `i..e` of `s`: no ids, the root beside the original, the rest below it as
    before.
   */
  ghost predicate CopyIsIsomorphic(s: seq<Node>, t: seq<Node>, i: nat, e: nat)
    requires i < e <= |s| && |t| == |s| + (e - i)
  {
    forall k :: i <= k < e ==>
      && t[CopyPlace(i, e, k)] == s[k].(id := None)
      && (k > i ==> Parent(Levels(s), k) >= i)
      && Parent(Levels(t), CopyPlace(i, e, k))
         == if k == i then Parent(Levels(s), i) else CopyPlace(i, e, Parent(Levels(s), k))
  }

  /**
    Duplicating inserts, directly after the subtree, a copy of it that has no ids and is the next
    sibling: inside the copy parents are those of the original, and no original block is reparented.
   */
  lemma {:induction false} DuplicateInsertsSibling(s: seq<Node>, i: nat)
    requires Stepped(Levels(s)) && i < |s|
    ensures var t, e := Duplicated(s, i), RunEnd(Levels(s), i);
      && IsSubtree(Levels(s), i, e)
      && |t| == |s| + (e - i)
      && Stepped(Levels(t)) && (Capped(s) ==> Capped(t))
      && PrevSibling(Levels(t), e) == i
      && OriginalsKept(s, t, i, e)
      && CopyIsIsomorphic(s, t, i, e)
  {
    hide Levels, Spliced, Stepped, Capped, PrevSibling, Ancestor, RunEnd, Parent;
    var d := Levels(s);
    var e := RunEnd(d, i);
    SubtreeIsInterval(d, i);
    DuplicateShape(s, i, e);
    DuplicateForest(d, Levels(Duplicated(s, i)), i, e);
  }

  lemma {:induction false} DuplicateForest(d: seq<nat>, d': seq<nat>, i: nat, e: nat)
    requires Stepped(d) && i < |d| && e == RunEnd(d, i) && Repeated(d, d', i, e)
    ensures Stepped(d') && PrevSibling(d', e) == i
    ensures forall k :: 0 <= k < |d| ==> Parent(d', AfterCopy(i, e, k)) == AfterCopy(i, e, Parent(d, k))
    ensures forall k :: i <= k < e ==>
      && (k > i ==> Parent(d, k) >= i)
      && Parent(d', CopyPlace(i, e, k)) == if k == i then Parent(d, i) else CopyPlace(i, e, Parent(d, k))
  {
    RepeatIsSibling(d, d', i);
    forall k | 0 <= k < |d| ensures Parent(d', AfterCopy(i, e, k)) == AfterCopy(i, e, Parent(d, k)) {
      RepeatKeepsParent(d, d', i, k);
    }
    forall k | i <= k < e
      ensures k > i ==> Parent(d, k) >= i
      ensures Parent(d', CopyPlace(i, e, k)) == if k == i then Parent(d, i) else CopyPlace(i, e, Parent(d, k))
    {
      RepeatCopiesParent(d, d', i, k);
    }
  }

  lemma {:induction false} DuplicateShape(s: seq<Node>, i: nat, e: nat)
    requires i < e <= |s|
    ensures var t := Spliced(s, i, e);
      && Repeated(Levels(s), Levels(t), i, e)
      && (forall k :: 0 <= k < |s| ==> t[AfterCopy(i, e, k)] == s[k])
      && (forall k :: i <= k < e ==> t[CopyPlace(i, e, k)] == s[k].(id := None))
      && (Capped(s) ==> Capped(t))
  {
    hide Spliced;
    var t := Spliced(s, i, e);
    forall k | 0 <= k < |s| ensures t[AfterCopy(i, e, k)] == s[k] {
      SplicedAt(s, i, e, AfterCopy(i, e, k));
    }
    forall k | i <= k < e ensures t[CopyPlace(i, e, k)] == s[k].(id := None) {
      SplicedAt(s, i, e, CopyPlace(i, e, k));
    }
    forall k | 0 <= k < |t| ensures t[k].indent == s[CopySource(i, e, k)].indent {
      SplicedAt(s, i, e, k);
    }
  }

  lemma {:induction false} SplicedAt(s: seq<Node>, i: nat, e: nat, k: nat)
    requires i < e <= |s| && k < |s| + (e - i)
    ensures CopySource(i, e, k) < |s|
    ensures var source := s[CopySource(i, e, k)];
      Spliced(s, i, e)[k] == if e <= k < e + (e - i) then source.(id := None) else source
  {
  }

  // ----- delete

  /** The blocks of `s` outside `i..e` in `t`, where that run was removed: same blocks, same parents. */
  ghost predicate SurvivorsKept(s: seq<Node>, t: seq<Node>, i: nat, e: nat)
    requires i < e <= |s| && |t| == |s| - (e - i)
  {
    forall k :: 0 <= k < |s| && !(i <= k < e) ==>
      && t[AfterRemoval(i, e, k)] == s[k]
      && !(i <= Parent(Levels(s), k) < e)
      && Parent(Levels(t), AfterRemoval(i, e, k)) == AfterRemoval(i, e, Parent(Levels(s), k))
  }

  /**
    Deleting removes exactly the subtree. Survivors keep their parents, the result is as
    well-formed as the input and never empty; a page that was one subtree becomes one empty paragraph.
   */
  lemma {:induction false} DeleteKeepsSurvivors(s: seq<Node>, i: nat)
    requires Stepped(Levels(s)) && i < |s|
    ensures var t, e := Deleted(s, i), RunEnd(Levels(s), i);
      && IsSubtree(Levels(s), i, e)
      && |t| > 0
      && Stepped(Levels(t)) && (Capped(s) ==> Capped(t))
      && if e - i == |s| then t == [Node(None, "paragraph", 0, false, "")]
        else |t| == |s| - (e - i) && SurvivorsKept(s, t, i, e)
  {
    var d, e := Levels(s), RunEnd(Levels(s), i);
    SubtreeIsInterval(d, i);
    if e - i < |s| {
      DeleteShape(s, i, e);
      DeleteForest(d, Levels(Deleted(s, i)), i, e);
    }
  }

  lemma {:induction false} DeleteForest(d: seq<nat>, d': seq<nat>, i: nat, e: nat)
    requires Stepped(d) && i < |d| && e == RunEnd(d, i) && Removed(d, d', i, e)
    ensures Stepped(d')
    ensures forall k :: 0 <= k < |d| && !(i <= k < e) ==>
      !(i <= Parent(d, k) < e) && Parent(d', AfterRemoval(i, e, k)) == AfterRemoval(i, e, Parent(d, k))
  {
    RemovalStepped(d, d', i);
    forall k | 0 <= k < |d| && !(i <= k < e)
      ensures !(i <= Parent(d, k) < e) && Parent(d', AfterRemoval(i, e, k)) == AfterRemoval(i, e, Parent(d, k))
    {
      RemovalKeepsParent(d, d', i, k);
    }
  }

  lemma {:induction false} DeleteShape(s: seq<Node>, i: nat, e: nat)
    requires i < e <= |s|
    ensures var t := s[..i] + s[e..];
      && Removed(Levels(s), Levels(t), i, e)
      && (forall k :: 0 <= k < |s| && !(i <= k < e) ==> t[AfterRemoval(i, e, k)] == s[k])
      && (Capped(s) ==> Capped(t))
  {
    hide Levels;
    var t := s[..i] + s[e..];
    LevelsRemoved(s, i, e);
    forall k | 0 <= k < |s| && !(i <= k < e) ensures t[AfterRemoval(i, e, k)] == s[k] {}
  }

  lemma {:induction false} LevelsRemoved(s: seq<Node>, i: nat, e: nat)
    requires i < e <= |s|
    ensures Removed(Levels(s), Levels(s[..i] + s[e..]), i, e)
  {
  }
}
