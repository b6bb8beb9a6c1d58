/**
  What the server's tree reader reports before and after an editor command
  (packages/editor/src/blockOps.ts, packages/core/src/doc/blockTree.ts).

  `OutlineTheorems` says what a command does to the forest of the stored levels and `ReaderTheorems` that
  the reader reports that forest; here the two are put together, in terms of reported ids, parents and depths.
 */
module CommandsRead {
  import opened Common
  import opened Forest
  import opened Edits
  import opened Outline
  import opened OutlineTheorems
  import opened Reader
  import opened ReaderTheorems

  /** `b` is the listing of the page that holds the run, as `ReadBlockTree` promises it. */
  ghost predicate Reads(s: seq<Node>, b: seq<TreeBlock>) {
    LabelsOf(b) == Container(AsPage(s), 0) && Linked(b)
  }

  /** The id the forest of the stored levels gives for the parent of block `k`. */
  function ParentId(s: seq<Node>, k: nat): Option<string>
    requires k < |s|
  {
    var p := Parent(Levels(s), k);
    if p < 0 || s[p].id.None? then None else s[p].id
  }

  /** The reported block says of the stored one all that is stored. */
  ghost predicate Reports(t: TreeBlock, s: seq<Node>, k: nat)
    requires k < |s|
  {
    && s[k].id == Some(t.id) && t.kind == s[k].kind && t.text == s[k].content
    && t.depth == s[k].indent && t.parentId == ParentId(s, k)
  }

  lemma {:induction false} WellFormedIsReported(s: seq<Node>, b: seq<TreeBlock>)
    requires Identified(s) && WellFormed(s) && Reads(s, b)
    ensures |b| == |s| && forall k :: 0 <= k < |s| ==> Reports(b[k], s, k)
  {
    hide WellFormed, Linked, Container, AsPage;
    ReaderAgreesIffWellFormed(s, b);
    ReaderParentsAreOutlineParents(s, b);
    forall k | 0 <= k < |s| ensures b[k].kind == s[k].kind && b[k].depth == s[k].indent {
      assert b[k].depth == Depths(b)[k];
      KindIsReported(s, b, k);
    }
  }

  lemma {:induction false} KindIsReported(s: seq<Node>, b: seq<TreeBlock>, k: nat)
    requires Identified(s) && LabelsOf(b) == Container(AsPage(s), 0) && k < |b| == |s|
    ensures b[k].kind == s[k].kind
  {
    hide AsPage, ReadLevels;
    FlatRunIsListed(s, -1);
    assert LabelsOf(b)[k] == LabelAt(s[k], ReadLevels(s, -1)[k]);
  }

  /** Two reports of one block that differ at most in its position and the order of its children. */
  ghost predicate SamePlace(x: TreeBlock, y: TreeBlock) {
    y == x.(position := y.position, childIds := y.childIds)
  }

  /** The same ids are listed, and every id with the same parent and depth. */
  ghost predicate SameTree(b: seq<TreeBlock>, b': seq<TreeBlock>) {
    && multiset(Ids(b')) == multiset(Ids(b))
    && forall j, k :: 0 <= j < |b| && 0 <= k < |b'| && b[j].id == b'[k].id ==> SamePlace(b[j], b'[k])
  }

  // ----- move

  /**
    After an exchange of sibling subtrees every block is reported at its new place, with the parent and depth it
    had.
   */
  lemma {:induction false} ExchangeIsReported(
      s: seq<Node>, t: seq<Node>, a: nat, b: nat, c: nat, x: seq<TreeBlock>, y: seq<TreeBlock>)
    requires Identified(s) && WellFormed(s) && ExchangesSiblings(s, t, a, b, c) && Reads(s, x) && Reads(t, y)
    ensures |y| == |x| && forall k :: 0 <= k < |x| ==>
        0 <= Place(a, b, c, k) < |y| && SamePlace(x[k], y[Place(a, b, c, k)])
    ensures multiset(Ids(y)) == multiset(Ids(x))
  {
    hide Reads, Stepped, Ancestor, PrevSibling, Levels, Capped, Parent;
    ExchangedIsIdentified(s, t);
    WellFormedIsReported(s, x);
    WellFormedIsReported(t, y);
    forall k | 0 <= k < |x| ensures 0 <= Place(a, b, c, k) < |y| && SamePlace(x[k], y[Place(a, b, c, k)]) {
      var j := Place(a, b, c, k);
      assert 0 <= j < |t| && t[j] == s[k] && Reports(x[k], s, k) && Reports(y[j], t, j);
      assert Parent(Levels(s), k) < |s|;
      SameParentId(s, t, a, b, c, k);
    }
    IdsArePermuted(x, y, a, b, c);
  }

  lemma {:induction false} IdsArePermuted(x: seq<TreeBlock>, y: seq<TreeBlock>, a: nat, b: nat, c: nat)
    requires a <= b <= c <= |x| == |y|
    requires forall k :: 0 <= k < |x| ==> 0 <= Place(a, b, c, k) < |y| && y[Place(a, b, c, k)].id == x[k].id
    ensures multiset(Ids(y)) == multiset(Ids(x))
  {
    hide Exchange;
    var m := a + (c - b);
    ExchangeIsExchanged(Ids(x), a, b, c);
    forall k | 0 <= k < |y| ensures Ids(y)[k] == Exchange(Ids(x), a, b, c)[k] {
      assert Place(a, b, c, Place(a, m, c, k)) == k;
    }
    assert Ids(y) == Exchange(Ids(x), a, b, c);
    ExchangeIsPermutation(Ids(x), a, b, c);
  }

  lemma {:induction false} ExchangeIsExchanged<T>(s: seq<T>, a: nat, b: nat, c: nat)
    requires a <= b <= c <= |s|
    ensures Exchanged(s, Exchange(s, a, b, c), a, b, c)
  {
  }

  lemma {:induction false} ExchangedIsIdentified(s: seq<Node>, t: seq<Node>)
    requires Identified(s) && multiset(t) == multiset(s)
    ensures Identified(t)
  {
    forall k | 0 <= k < |t| ensures t[k].id.Some? && t[k].id.value != "" {
      assert t[k] in multiset(t);
      assert t[k] in s;
    }
  }

  lemma {:induction false} SameParentId(s: seq<Node>, t: seq<Node>, a: nat, b: nat, c: nat, k: nat)
    requires a <= b <= c <= |s| == |t| && SameForest(s, t, a, b, c) && k < |s|
    ensures ParentId(t, Place(a, b, c, k)) == ParentId(s, k)
  {
    hide Levels, Parent;
    var p := Parent(Levels(s), k);
    if p >= 0 {
      assert t[Place(a, b, c, p)] == s[p];
    }
  }

  lemma {:induction false} PlacedIsSameTree(x: seq<TreeBlock>, y: seq<TreeBlock>, a: nat, b: nat, c: nat)
    requires a <= b <= c <= |x| == |y| && Distinct(Ids(x)) && multiset(Ids(y)) == multiset(Ids(x))
    requires forall k :: 0 <= k < |x| ==> 0 <= Place(a, b, c, k) < |y| && SamePlace(x[k], y[Place(a, b, c, k)])
    ensures SameTree(x, y)
  {
    var m := a + (c - b);
    forall j, k | 0 <= j < |x| && 0 <= k < |y| && x[j].id == y[k].id ensures SamePlace(x[j], y[k]) {
      var i := Place(a, m, c, k);
      assert Place(a, b, c, i) == k;
      assert SamePlace(x[i], y[k]);
      assert Ids(x)[i] == Ids(x)[j];
    }
  }

  /** `t` is `s` after the subtree at `i` was moved, up or down. */
  ghost predicate IsMoved(s: seq<Node>, i: nat, t: seq<Node>)
    requires i < |s|
  {
    || (MovedUp(s, i).Some? && t == MovedUp(s, i).value.doc)
    || (MovedDown(s, i).Some? && t == MovedDown(s, i).value.doc)
  }

  lemma {:induction false} MoveIsExchange(s: seq<Node>, i: nat, t: seq<Node>) returns (a: nat, b: nat, c: nat)
    requires Stepped(Levels(s)) && i < |s| && IsMoved(s, i, t)
    ensures SiblingRuns(Levels(s), a, b, c) && t == Exchange(s, a, b, c) && (i == a || i == b)
  {
    hide Stepped, Exchange;
    var d := Levels(s);
    if MovedUp(s, i).Some? && t == MovedUp(s, i).value.doc {
      a, b, c := PrecedingRun(s, i), i, RunEnd(d, i);
      RunEndIs(d, a, b);
    } else {
      a, b, c := i, RunEnd(d, i), RunEnd(d, RunEnd(d, i));
    }
  }

  /** Moving a subtree up or down: the server lists the same ids, each with the same parent and depth. */
  lemma {:induction false} MoveKeepsTheReportedTree(
      s: seq<Node>, i: nat, t: seq<Node>, x: seq<TreeBlock>, y: seq<TreeBlock>)
    requires Identified(s) && WellFormed(s) && i < |s| && IsMoved(s, i, t)
    requires Reads(s, x) && Reads(t, y) && Distinct(Ids(x))
    ensures SameTree(x, y)
  {
    hide Reads, ExchangesSiblings, Exchange, IsMoved, SameTree, Distinct;
    var a, b, c := MoveIsExchange(s, i, t);
    ExchangeTheorem(s, a, b, c);
    ExchangeIsSameTree(s, t, a, b, c, x, y);
  }

  lemma {:induction false} ExchangeIsSameTree(
      s: seq<Node>, t: seq<Node>, a: nat, b: nat, c: nat, x: seq<TreeBlock>, y: seq<TreeBlock>)
    requires Identified(s) && WellFormed(s) && ExchangesSiblings(s, t, a, b, c) && Reads(s, x) && Reads(t, y)
        && Distinct(Ids(x))
    ensures SameTree(x, y)
  {
    hide Reads, SamePlace, Ids, Identified, Stepped, IsSubtree, PrevSibling, SameForest;
    ExchangeIsReported(s, t, a, b, c, x, y);
    ListingLength(s, x);
    PlacedIsSameTree(x, y, a, b, c);
  }

  lemma {:induction false} ListingLength(s: seq<Node>, b: seq<TreeBlock>)
    requires Identified(s) && WellFormed(s) && Reads(s, b)
    ensures |b| == |s|
  {
    hide Reads, WellFormed;
    WellFormedIsReported(s, b);
  }

  // ----- the order of children after a move

  lemma {:induction false} ChildrenOfConcat(u: seq<TreeBlock>, v: seq<TreeBlock>, id: string)
    ensures ChildrenOf(u + v, id) == ChildrenOf(u, id) + ChildrenOf(v, id)
    decreases |v|
  {
    if v == [] {
      assert u + v == u;
    } else {
      var n := |v| - 1;
      assert (u + v)[..|u + v| - 1] == u + v[..n] && (u + v)[|u + v| - 1] == v[n];
      ChildrenOfConcat(u, v[..n], id);
    }
  }

  lemma {:induction false} ChildrenInFour(b: seq<TreeBlock>, i: nat, j: nat, k: nat, id: string)
    requires i <= j <= k <= |b|
    ensures ChildrenOf(b, id)
         == ChildrenOf(b[..i], id) + ChildrenOf(b[i..j], id) + ChildrenOf(b[j..k], id) + ChildrenOf(b[k..], id)
  {
    hide ChildrenOf;
    assert b == b[..i] + b[i..j] + b[j..k] + b[k..];
    ChildrenOfConcat(b[..i] + b[i..j] + b[j..k], b[k..], id);
    ChildrenOfConcat(b[..i] + b[i..j], b[j..k], id);
    ChildrenOfConcat(b[..i], b[i..j], id);
  }

  /** In the listing of a subtree only its root can be a child of a block outside. */
  lemma {:induction false} ChildrenInRun(x: seq<TreeBlock>, lo: nat, hi: nat, j: nat)
    requires Linked(x) && Distinct(Ids(x)) && lo < |x| && j < |x| && hi == RunEnd(Depths(x), lo)
    requires !(lo <= j < hi)
    ensures ChildrenOf(x[lo..hi], x[j].id) == if Parent(Depths(x), lo) == j then [x[lo].id] else []
  {
    hide Linked, Distinct, Ids, Depths, Parent, RunEnd;
    var run := x[lo..hi];
    forall k | lo <= k < hi ensures x[k].parentId == Some(x[j].id) <==> k == lo && Parent(Depths(x), lo) == j {
      ReportedParent(x, k);
      assert ReportsParent(x, k, j) <==> j == Parent(Depths(x), k);
      if k > lo {
        ParentWithinRun(Depths(x), lo, k);
      }
    }
    assert run == [x[lo]] + x[lo + 1..hi];
    ChildrenOfConcat([x[lo]], x[lo + 1..hi], x[j].id);
    NoChildren(x[lo + 1..hi], x[j].id);
  }

  /** `t` is `s` with the neighbours `p` and `q` exchanged. */
  ghost predicate SwapsNeighbours<T(!new)>(s: seq<T>, t: seq<T>, p: T, q: T) {
    exists u, v :: s == u + [p, q] + v && t == u + [q, p] + v
  }

  /** The same listing pieces at other places have the same children. */
  lemma {:induction false} PiecesMoved(x: seq<TreeBlock>, y: seq<TreeBlock>, a: nat, b: nat, c: nat, id: string)
    requires a <= b <= c <= |x| == |y|
    requires forall k :: 0 <= k < |x| ==> 0 <= Place(a, b, c, k) < |y| && SamePlace(x[k], y[Place(a, b, c, k)])
    ensures ChildrenOf(y, id)
         == ChildrenOf(x[..a], id) + ChildrenOf(x[b..c], id) + ChildrenOf(x[a..b], id) + ChildrenOf(x[c..], id)
  {
    hide ChildrenOf;
    var m := a + (c - b);
    ChildrenInFour(y, a, m, c, id);
    PieceMoved(x, y, a, b, c, 0, a, id);
    PieceMoved(x, y, a, b, c, b, c, id);
    PieceMoved(x, y, a, b, c, a, b, id);
    PieceMoved(x, y, a, b, c, c, |x|, id);
    assert x[0..a] == x[..a] && y[0..a] == y[..a] && x[c..|x|] == x[c..] && y[c..|y|] == y[c..];
  }

  lemma {:induction false} PieceMoved(
      x: seq<TreeBlock>, y: seq<TreeBlock>, a: nat, b: nat, c: nat, lo: nat, hi: nat, id: string)
    requires a <= b <= c <= |x| == |y| && lo <= hi <= |x|
    requires (lo, hi) in {(0, a), (a, b), (b, c), (c, |x|)}
    requires forall k :: 0 <= k < |x| ==> 0 <= Place(a, b, c, k) < |y| && SamePlace(x[k], y[Place(a, b, c, k)])
    ensures var at := if lo == a && hi == b then a + (c - b) else if lo == b && hi == c then a else lo;
      at + (hi - lo) <= |y| && ChildrenOf(y[at..at + (hi - lo)], id) == ChildrenOf(x[lo..hi], id)
  {
    hide ChildrenOf;
    var at := if lo == a && hi == b then a + (c - b) else if lo == b && hi == c then a else lo;
    var u, v := x[lo..hi], y[at..at + (hi - lo)];
    forall k | 0 <= k < |u| ensures v[k].parentId == u[k].parentId && v[k].id == u[k].id {
      assert SamePlace(x[lo + k], y[Place(a, b, c, lo + k)]);
    }
    ChildrenIgnoreChildren(u, v, id);
  }

  /** The children of the block at `j`, now at `k`: exchanged if it is the parent, and otherwise as they were. */
  ghost predicate SwapsAt(x: seq<TreeBlock>, y: seq<TreeBlock>, parent: int, a: nat, b: nat, j: nat, k: nat)
    requires a < |x| && b < |x| && j < |x| && k < |y|
  {
    if j == parent then SwapsNeighbours(x[j].childIds, y[k].childIds, x[a].id, x[b].id)
    else y[k].childIds == x[j].childIds
  }

  lemma {:induction false} ExchangeSwapsChildren(
      s: seq<Node>, t: seq<Node>, a: nat, b: nat, c: nat, x: seq<TreeBlock>, y: seq<TreeBlock>, j: nat)
    requires Identified(s) && WellFormed(s) && SiblingRuns(Levels(s), a, b, c) && t == Exchange(s, a, b, c)
    requires Reads(s, x) && Reads(t, y) && Distinct(Ids(x)) && ChildrenListed(x) && ChildrenListed(y)
    requires j < |x|
    ensures |y| == |x| == |s| && 0 <= Place(a, b, c, j) < |y| && y[Place(a, b, c, j)].id == x[j].id
    ensures SwapsAt(x, y, Parent(Levels(s), b), a, b, j, Place(a, b, c, j))
  {
    hide Identified, Capped, Stepped, Reads, Exchange, ExchangesSiblings, Distinct, Linked, Levels, ChildrenOf,
        RunEnd, Ids, Depths;
    ExchangeTheorem(s, a, b, c);
    ExchangeIsReported(s, t, a, b, c, x, y);
    DepthsAreLevels(s, x);
    var d, id := Levels(s), x[j].id;
    assert Parent(d, a) == Parent(d, b) by { SiblingsShareParent(d, a, b, c); }
    PiecesMoved(x, y, a, b, c, id);
    ChildrenInFour(x, a, b, c, id);
    assert Place(a, b, c, j) < |y| && SamePlace(x[j], y[Place(a, b, c, j)]);
    if !(a <= j < b) {
      ChildrenInRun(x, a, b, j);
    }
    if !(b <= j < c) {
      ChildrenInRun(x, b, c, j);
    }
    var u, v := ChildrenOf(x[..a], id), ChildrenOf(x[c..], id);
    if j == Parent(d, b) {
      assert u + [x[a].id] + [x[b].id] + v == u + [x[a].id, x[b].id] + v;
      assert u + [x[b].id] + [x[a].id] + v == u + [x[b].id, x[a].id] + v;
    } else {
      assert ChildrenOf(x[a..b], id) == [] || ChildrenOf(x[b..c], id) == [];
      assert u + [] == u;
    }
  }

  /**
    Moving a subtree up or down: in the parent's list of children the block changes places with its sibling, and
    every other block keeps its list of children.
   */
  lemma {:induction false} MoveSwapsChildren(
      s: seq<Node>, i: nat, t: seq<Node>, x: seq<TreeBlock>, y: seq<TreeBlock>) returns (a: nat, b: nat, c: nat)
    requires Identified(s) && WellFormed(s) && i < |s| && IsMoved(s, i, t)
    requires Reads(s, x) && Reads(t, y) && Distinct(Ids(x)) && ChildrenListed(x) && ChildrenListed(y)
    ensures |y| == |x| == |s| && (i == a || i == b) && a < b < c <= |s| && PrevSibling(Levels(s), b) == a
    ensures forall j :: 0 <= j < |x| ==>
      && 0 <= Place(a, b, c, j) < |y| && y[Place(a, b, c, j)].id == x[j].id
      && SwapsAt(x, y, Parent(Levels(s), b), a, b, j, Place(a, b, c, j))
  {
    hide Reads, Exchange, IsMoved, Distinct, Identified, Ids, ChildrenListed, PrevSibling, Stepped, Capped, SwapsAt;
    a, b, c := MoveIsExchange(s, i, t);
    SiblingRunsAreSiblings(Levels(s), a, b, c);
    forall j | 0 <= j < |x|
      ensures |y| == |x| == |s| && 0 <= Place(a, b, c, j) < |y| && y[Place(a, b, c, j)].id == x[j].id
      ensures SwapsAt(x, y, Parent(Levels(s), b), a, b, j, Place(a, b, c, j))
    {
      ExchangeSwapsChildren(s, t, a, b, c, x, y, j);
    }
    assert |x| == |s| == |y| by {
      ListingLength(s, x);
      ExchangeSwapsChildren(s, t, a, b, c, x, y, 0);
    }
  }

  lemma {:induction false} SiblingsShareParent(d: seq<nat>, a: nat, b: nat, c: nat)
    requires SiblingRuns(d, a, b, c)
    ensures Parent(d, a) == Parent(d, b) < a
  {
    ParentIs(d, b, Parent(d, a));
  }

  lemma {:induction false} DepthsAreLevels(s: seq<Node>, b: seq<TreeBlock>)
    requires Identified(s) && WellFormed(s) && Reads(s, b)
    ensures |b| == |s| && Depths(b) == Levels(s) && Linked(b)
  {
    hide WellFormed, Linked, Depths, Levels;
    ReaderAgreesIffWellFormed(s, b);
  }

  // ----- delete

  /** Deleting a subtree: the server lists the other blocks in the order they had, each with its parent and depth. */
  lemma {:induction false} DeleteKeepsTheReportedTree(s: seq<Node>, i: nat, x: seq<TreeBlock>, y: seq<TreeBlock>)
    requires Identified(s) && WellFormed(s) && i < |s| && Reads(s, x) && Reads(Deleted(s, i), y)
    ensures |x| == |s|
    ensures var e := RunEnd(Levels(s), i);
      && (Distinct(Ids(x)) ==> SubtreeEndsAt(x, i, e))
      && |y| == |x| - (e - i)
      && forall k :: 0 <= k < |x| && !(i <= k < e) ==> SamePlace(x[k], y[AfterRemoval(i, e, k)])
  {
    hide Reads, Linked, Ancestor, Levels, Capped, Parent, RunEnd, Stepped, Ids, Distinct;
    var t, e := Deleted(s, i), RunEnd(Levels(s), i);
    WellFormedIsReported(s, x);
    RunsAreReported(s, x, i);
    DeleteKeepsSurvivors(s, i);
    if e - i == |s| {
      EmptyParagraphIsNotListed(y);
    } else {
      assert Identified(t);
      WellFormedIsReported(t, y);
      forall k | 0 <= k < |x| && !(i <= k < e) ensures SamePlace(x[k], y[AfterRemoval(i, e, k)]) {
        var j := AfterRemoval(i, e, k);
        assert t[j] == s[k] && Reports(x[k], s, k) && Reports(y[j], t, j);
        SurvivorsParentId(s, t, i, e, k);
      }
    }
  }

  /** The paragraph that replaces an emptied page has no id yet, so the server lists nothing. */
  lemma {:induction false} EmptyParagraphIsNotListed(b: seq<TreeBlock>)
    requires Reads([EMPTY_PARAGRAPH], b)
    ensures b == []
  {
    var page := AsPage([EMPTY_PARAGRAPH]);
    assert !IsBlock(page[0]) && page[1..] == [];
    assert Labels(page, 0, -1) == Labels([], 0, -1);
    assert |LabelsOf(b)| == 0;
  }

  lemma {:induction false} SurvivorsParentId(s: seq<Node>, t: seq<Node>, i: nat, e: nat, k: nat)
    requires i < e <= |s| && |t| == |s| - (e - i) && SurvivorsKept(s, t, i, e) && k < |s| && !(i <= k < e)
    ensures ParentId(t, AfterRemoval(i, e, k)) == ParentId(s, k)
  {
    hide Levels, Parent;
    var p := Parent(Levels(s), k);
    if p >= 0 {
      assert t[AfterRemoval(i, e, p)] == s[p];
    }
  }

  lemma {:induction false} RunsAreReported(s: seq<Node>, b: seq<TreeBlock>, i: nat)
    requires Identified(s) && WellFormed(s) && Reads(s, b) && i < |s| == |b|
    ensures Distinct(Ids(b)) ==> SubtreeEndsAt(b, i, RunEnd(Levels(s), i))
  {
    hide WellFormed, Linked, SubtreeEndsAt, RunEnd, Distinct, Ids;
    ReaderAgreesIffWellFormed(s, b);
    if Distinct(Ids(b)) {
      SubtreesAreIntervals(b, i);
    }
  }

  // ----- indent and outdent

  /** Reported as before, apart from a shift in depth. */
  ghost predicate SamePlaceAt(x: TreeBlock, y: TreeBlock, delta: int) {
    y.depth == x.depth + delta && SamePlace(x.(depth := y.depth), y)
  }

  /**
    Indenting, unless it passes the cap: the server reports the block below its previous sibling, the
    subtree one level deeper, and nothing else changed.
   */
  lemma {:induction false} IndentIsReported(s: seq<Node>, i: nat, x: seq<TreeBlock>, y: seq<TreeBlock>)
    requires Identified(s) && WellFormed(s) && i < |s| && Indented(s, i).Some? && WellFormed(Indented(s, i).value)
    requires Reads(s, x) && Reads(Indented(s, i).value, y)
    ensures |y| == |x| == |s|
    ensures var e, q := RunEnd(Levels(s), i), PrevSibling(Levels(s), i);
      && 0 <= q && y[i].parentId == Some(x[q].id)
      && forall k :: 0 <= k < |x| ==>
        SamePlaceAt(if k == i then x[k].(parentId := y[k].parentId) else x[k], y[k], if i <= k < e then 1 else 0)
  {
    hide Reads, Levels, Capped, Parent, Stepped, PrevSibling, RunEnd;
    var t, e := Indented(s, i).value, RunEnd(Levels(s), i);
    IndentIsReparenting(s, i);
    ShiftKeepsIds(s, i, e, 1);
    WellFormedIsReported(s, x);
    WellFormedIsReported(t, y);
    forall k | 0 <= k < |x|
      ensures SamePlaceAt(if k == i then x[k].(parentId := y[k].parentId) else x[k], y[k], if i <= k < e then 1 else 0)
    {
      assert Reports(x[k], s, k) && Reports(y[k], t, k);
    }
  }

  lemma {:induction false} ShiftKeepsIds(s: seq<Node>, lo: nat, hi: nat, delta: int)
    requires lo <= hi <= |s| && Identified(s)
    ensures Identified(ShiftRun(s, lo, hi, delta))
    ensures forall k :: 0 <= k < |s| ==> ShiftRun(s, lo, hi, delta)[k].id == s[k].id
  {
  }

  /**
    Outdenting: the server reports the block below its grandparent and its later siblings below it, the
    subtree one level up, and nothing else changed.
   */
  lemma {:induction false} OutdentIsReported(s: seq<Node>, i: nat, x: seq<TreeBlock>, y: seq<TreeBlock>)
    requires Identified(s) && WellFormed(s) && i < |s| && Outdented(s, i).Some?
    requires Reads(s, x) && Reads(Outdented(s, i).value, y)
    ensures |y| == |x| == |s|
    ensures var d := Levels(s); var e, p := RunEnd(d, i), Parent(d, i);
      && 0 <= p && x[i].parentId == Some(x[p].id) && y[i].parentId == x[p].parentId
      && (forall k :: i < k < |x| && Parent(d, k) == p ==> y[k].parentId == Some(x[i].id))
      && forall k :: 0 <= k < |x| ==>
        SamePlaceAt(
          if k == i || (i < k && Parent(d, k) == p) then x[k].(parentId := y[k].parentId) else x[k],
          y[k], if i <= k < e then -1 else 0)
  {
    hide Reads, Levels, Capped, Parent, Stepped, PrevSibling, RunEnd;
    var t, e, d := Outdented(s, i).value, RunEnd(Levels(s), i), Levels(s);
    OutdentIsReparenting(s, i);
    OutdentKeepsWellFormed(s, i);
    ShiftKeepsIds(s, i, e, -1);
    WellFormedIsReported(s, x);
    WellFormedIsReported(t, y);
    assert Reports(x[i], s, i) && Reports(y[i], t, i);
    assert Reports(x[Parent(d, i)], s, Parent(d, i));
    forall k | 0 <= k < |x|
      ensures SamePlaceAt(
        if k == i || (i < k && Parent(d, k) == Parent(d, i)) then x[k].(parentId := y[k].parentId) else x[k],
        y[k], if i <= k < e then -1 else 0)
      ensures i < k && Parent(d, k) == Parent(d, i) ==> y[k].parentId == Some(x[i].id)
    {
      assert Reports(x[k], s, k) && Reports(y[k], t, k);
      LowerFromRun(s, i, k);
    }
  }

  lemma {:induction false} LowerFromRun(s: seq<Node>, i: nat, k: nat)
    requires i < |s| && Outdented(s, i).Some? && k < |s|
    ensures Outdented(s, i).value[k].indent == s[k].indent + if i <= k < RunEnd(Levels(s), i) then -1 else 0
  {
  }
}
