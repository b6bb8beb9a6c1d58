/**
  What the listing of `readBlockTree` means, and its agreement with what the editor shows.
 */
module ReaderTheorems {
  import opened Common
  import opened Forest
  import opened Reader
  import Outline

  /** Read a whole page. */
  method ReadBlockTree(doc: seq<Xml>) returns (blocks: seq<TreeBlock>, warnings: seq<Warning>)
    ensures LabelsOf(blocks) == Container(doc, 0)
    ensures warnings == ContainerWarnings(doc, 0)
    ensures Linked(blocks)
    ensures Distinct(Ids(blocks)) ==> ChildrenListed(blocks)
  {
    var reader := new TreeReader();
    reader.Visit(doc, None, 0);
    return reader.blocks, reader.warnings;
  }

  // ----- the listing is a forest in preorder

  /** `a` is above `k` along the reported parent ids. */
  ghost predicate ReportedAbove(b: seq<TreeBlock>, a: nat, k: nat)
    requires a < |b| && k < |b|
    decreases k
  {
    exists p :: 0 <= p < k && ReportsParent(b, k, p) && (p == a || ReportedAbove(b, a, p))
  }

  ghost predicate ReportsParent(b: seq<TreeBlock>, k: nat, p: nat)
    requires k < |b| && p < |b|
  {
    b[k].parentId == Some(b[p].id)
  }

  /** Each parent precedes its child, is exactly one level up, and is the nearest such block. */
  ghost predicate ParentsOneLevelUp(b: seq<TreeBlock>) {
    forall k :: 0 <= k < |b| ==>
      if b[k].depth == 0 then b[k].parentId == None
      else exists p :: 0 <= p < k && IsParentAt(b, p, k)
  }

  ghost predicate IsParentAt(b: seq<TreeBlock>, p: nat, k: nat)
    requires p < k < |b|
  {
    && b[k].parentId == Some(b[p].id)
    && b[k].depth == b[p].depth + 1
    && forall j :: p < j < k ==> b[j].depth >= b[k].depth
  }

  /** The block at `a` and everything reported below it is the interval `a..e`. */
  ghost predicate SubtreeEndsAt(b: seq<TreeBlock>, a: nat, e: nat)
    requires a < |b|
  {
    && a < e <= |b|
    && forall k :: 0 <= k < |b| ==> (a <= k < e <==> (k == a || ReportedAbove(b, a, k)))
  }

  lemma {:induction false} LinkedParents(b: seq<TreeBlock>)
    requires Linked(b)
    ensures ParentsOneLevelUp(b)
    ensures forall k :: 0 <= k < |b| ==> b[k].position == k
  {
    var d := Depths(b);
    forall k | 0 <= k < |b|
      ensures if b[k].depth == 0 then b[k].parentId == None else exists p :: 0 <= p < k && IsParentAt(b, p, k)
    {
      ParentOneLevelUp(d, k);
      var p := Parent(d, k);
      if p >= 0 {
        assert IsParentAt(b, p, k);
      }
    }
  }

  lemma {:induction false} ReportedIsAncestor(b: seq<TreeBlock>, a: nat, k: nat)
    requires Linked(b) && Distinct(Ids(b)) && a < |b| && k < |b|
    ensures ReportedAbove(b, a, k) <==> Ancestor(Depths(b), a, k)
    decreases k
  {
    hide Linked, Depths, Ids, Distinct, Parent, ReportsParent;
    var q := Parent(Depths(b), k);
    ReportedParent(b, k);
    if q >= 0 {
      ReportedIsAncestor(b, a, q);
    }
    if ReportedAbove(b, a, k) {
      var p :| 0 <= p < k && ReportsParent(b, k, p) && (p == a || ReportedAbove(b, a, p));
      assert p == q;
    }
    if Ancestor(Depths(b), a, k) {
      assert ReportsParent(b, k, q) && (q == a || ReportedAbove(b, a, q));
    }
  }

  /** When ids are distinct, the reported id names exactly the parent in the forest of depths. */
  lemma {:induction false} ReportedParent(b: seq<TreeBlock>, k: nat)
    requires Linked(b) && Distinct(Ids(b)) && k < |b|
    ensures var q := Parent(Depths(b), k);
      forall p :: 0 <= p < |b| ==> (ReportsParent(b, k, p) <==> p == q)
  {
    var ids, q := Ids(b), Parent(Depths(b), k);
    assert b[k].parentId == Owner(Depths(b), ids, k, b[k].depth);
    hide Linked;
    forall p | 0 <= p < |b| ensures ReportsParent(b, k, p) <==> p == q {
      assert ids[p] == b[p].id;
      assert q >= 0 && p != q ==> ids[p] != ids[q];
    }
  }

  /** When ids are distinct, each subtree is a contiguous interval of the listing. */
  lemma {:induction false} SubtreesAreIntervals(b: seq<TreeBlock>, a: nat)
    requires Linked(b) && Distinct(Ids(b)) && a < |b|
    ensures SubtreeEndsAt(b, a, RunEnd(Depths(b), a))
  {
    hide Linked;
    SubtreeIsInterval(Depths(b), a);
    forall k | 0 <= k < |b| ensures ReportedAbove(b, a, k) <==> Ancestor(Depths(b), a, k) {
      ReportedIsAncestor(b, a, k);
    }
  }

  /** No block is reported deeper than twice the cap. */
  lemma {:induction false} DepthBound(doc: seq<Xml>, b: seq<TreeBlock>)
    requires LabelsOf(b) == Container(doc, 0)
    ensures forall k :: 0 <= k < |b| ==> b[k].depth <= 2 * MAX_BLOCK_DEPTH
  {
    ContainerDepths(doc, 0);
    forall k | 0 <= k < |b| ensures b[k].depth <= 2 * MAX_BLOCK_DEPTH {
      assert LabelsOf(b)[k] in Container(doc, 0);
    }
  }

  // ----- the editor's flat run, read by the server

  /** The attribute the editor writes for a level: omitted when zero (`writeIndent`). */
  function WriteIndent(n: nat): IndentAttr {
    if n > 0 then Parsed(n) else Missing
  }

  /** A block of the editor's run as the element the server sees. */
  function AsElement(n: Outline.Node): Xml {
    Element(
      n.kind, if n.id.Some? then n.id.value else "", WriteIndent(n.indent), "",
      if n.content == "" then [] else [Text(n.content)])
  }

  function AsPage(s: seq<Outline.Node>): (x: seq<Xml>)
    ensures |x| == |s|
  {
    seq(|s|, k requires 0 <= k < |s| => AsElement(s[k]))
  }

  ghost predicate Identified(s: seq<Outline.Node>) {
    forall k :: 0 <= k < |s| ==> s[k].id.Some? && s[k].id.value != ""
  }

  function LabelAt(n: Outline.Node, level: nat): Label
    requires n.id.Some?
  {
    Label(n.id.value, n.kind, level, n.content)
  }

  /** The levels the reader gives to a flat run, `prev` being the level before it. */
  function ReadLevels(s: seq<Outline.Node>, prev: int): (d: seq<nat>)
    requires prev >= -1
    ensures |d| == |s|
  {
    if s == [] then []
    else
      var level := Min(Min(s[0].indent, MAX_BLOCK_DEPTH), prev + 1);
      [level] + ReadLevels(s[1..], level)
  }

  lemma {:induction false} FlatRunIsListed(s: seq<Outline.Node>, prev: int)
    requires Identified(s) && prev >= -1
    ensures var l, d := Labels(AsPage(s), 0, prev), ReadLevels(s, prev);
      |l| == |s| && forall k :: 0 <= k < |s| ==> l[k] == LabelAt(s[k], d[k])
  {
    if s != [] {
      var x := AsElement(s[0]);
      assert AsPage(s)[0] == x && AsPage(s)[1..] == AsPage(s[1..]);
      ElementIsLeaf(s[0], Level(x, prev));
      FlatRunIsListed(s[1..], Level(x, prev));
      hide Inside, InlineText;
      assert Labels(AsPage(s), 0, prev) == [LabelAt(s[0], Level(x, prev))] + Labels(AsPage(s[1..]), 0, Level(x, prev));
    }
  }

  lemma {:induction false} ElementIsLeaf(n: Outline.Node, depth: nat)
    ensures var x := AsElement(n); Inside(x, depth) == [] && InlineText(x.children, 0) == n.content
  {
    var x := AsElement(n);
    if x.children != [] {
      assert x.children[1..] == [];
      assert Labels(x.children, depth + 1, -1) == Labels([], depth + 1, -1);
    }
  }

  /** The level before `k`. */
  function Before(s: seq<Outline.Node>, prev: int, k: nat): int
    requires k < |s|
  {
    if k == 0 then prev else s[k - 1].indent
  }

  /** Nothing in the run needs clamping. */
  ghost predicate Unclamped(s: seq<Outline.Node>, prev: int) {
    forall k :: 0 <= k < |s| ==> s[k].indent <= MAX_BLOCK_DEPTH && s[k].indent <= Before(s, prev, k) + 1
  }

  lemma {:induction false} UnclampedTail(s: seq<Outline.Node>, prev: int)
    requires s != []
    ensures Unclamped(s, prev)
       <==> s[0].indent <= MAX_BLOCK_DEPTH && s[0].indent <= prev + 1 && Unclamped(s[1..], s[0].indent)
  {
    var tail := s[1..];
    forall k | 0 <= k < |tail| ensures tail[k] == s[k + 1] && Before(tail, s[0].indent, k) == Before(s, prev, k + 1) {}
    if Unclamped(tail, s[0].indent) {
      forall k | 0 < k < |s| ensures s[k].indent <= MAX_BLOCK_DEPTH && s[k].indent <= Before(s, prev, k) + 1 {
        assert tail[k - 1].indent <= Before(tail, s[0].indent, k - 1) + 1;
      }
    }
  }

  lemma {:induction false} ReadLevelsAgree(s: seq<Outline.Node>, prev: int)
    requires prev >= -1
    ensures ReadLevels(s, prev) == Outline.Levels(s) <==> Unclamped(s, prev)
  {
    if s != [] {
      hide Unclamped;
      var d, tail := ReadLevels(s, prev), s[1..];
      UnclampedTail(s, prev);
      assert Outline.Levels(s) == [s[0].indent] + Outline.Levels(tail);
      assert d[0] == Outline.Levels(s)[0] <==> s[0].indent <= MAX_BLOCK_DEPTH && s[0].indent <= prev + 1;
      assert d[1..] == ReadLevels(tail, d[0]) && Outline.Levels(s)[1..] == Outline.Levels(tail);
      ReadLevelsAgree(tail, d[0]);
    }
  }

  /** Reading a run that needs no clamping gives no indent warning. */
  lemma {:induction false} UnclampedIsSilent(s: seq<Outline.Node>, prev: int)
    requires Identified(s) && prev >= -1 && Unclamped(s, prev)
    ensures forall w <- LabelWarnings(AsPage(s), 0, prev) :: !w.IndentClamped?
  {
    if s != [] {
      hide Unclamped, InsideWarnings;
      var x := AsElement(s[0]);
      UnclampedTail(s, prev);
      assert AsPage(s)[0] == x && AsPage(s)[1..] == AsPage(s[1..]);
      LeafIsSilent(s[0], Level(x, prev));
      UnclampedIsSilent(s[1..], Level(x, prev));
    }
  }

  lemma {:induction false} LeafIsSilent(n: Outline.Node, depth: nat)
    ensures forall w <- InsideWarnings(AsElement(n), depth) :: !w.IndentClamped?
  {
    var x := AsElement(n);
    if x.children != [] {
      assert x.children[1..] == [];
      assert LabelWarnings(x.children, depth + 1, -1)
          == (if Blank(n.content) then [] else [LooseText]) + LabelWarnings([], depth + 1, -1);
    }
  }

  lemma {:induction false} UnclampedIsWellFormed(s: seq<Outline.Node>)
    ensures Unclamped(s, -1) <==> Outline.WellFormed(s)
  {
    var d := Outline.Levels(s);
    if Outline.WellFormed(s) {
      forall k | 0 <= k < |s| ensures s[k].indent <= MAX_BLOCK_DEPTH && s[k].indent <= Before(s, -1, k) + 1 {
        assert k > 0 ==> d[k] <= d[k - 1] + 1;
      }
    }
    if Unclamped(s, -1) {
      forall k | 0 < k < |d| ensures d[k] <= d[k - 1] + 1 {
        assert s[k].indent <= Before(s, -1, k) + 1;
      }
    }
  }

  /**
    The server reads the levels the editor stores exactly when the run is well-formed: on any other
    run some block is shown at one depth and stored at another.
   */
  lemma {:induction false} ReaderAgreesIffWellFormed(s: seq<Outline.Node>, b: seq<TreeBlock>)
    requires Identified(s) && LabelsOf(b) == Container(AsPage(s), 0)
    ensures |b| == |s| && forall k :: 0 <= k < |s| ==> b[k].id == s[k].id.value && b[k].text == s[k].content
    ensures Depths(b) == Outline.Levels(s) <==> Outline.WellFormed(s)
  {
    FlatRunIsListed(s, -1);
    ReadLevelsAgree(s, -1);
    UnclampedIsWellFormed(s);
    hide Outline.WellFormed, Unclamped, ReadLevels;
    assert |b| == |s|;
    forall k | 0 <= k < |s| ensures LabelOf(b[k]) == LabelAt(s[k], ReadLevels(s, -1)[k]) {
      assert LabelsOf(b)[k] == LabelAt(s[k], ReadLevels(s, -1)[k]);
    }
    assert Depths(b) == ReadLevels(s, -1);
  }

  /** Two blocks stored at levels 5 and 3, so that the second does not stand below the first. */
  function FiveThenThree(): seq<Outline.Node> {
    [Outline.Node(Some("a"), "paragraph", 5, false, ""), Outline.Node(Some("b"), "paragraph", 3, false, "")]
  }

  /** The server shows the second below the first; for the editor neither is below anything. */
  lemma {:induction false} ClampedLevelsDisagree(b: seq<TreeBlock>)
    requires LabelsOf(b) == Container(AsPage(FiveThenThree()), 0) && Linked(b)
    ensures Depths(b) == [0, 1] && b[1].parentId == Some("a")
    ensures Outline.Levels(FiveThenThree()) == [5, 3] && Parent([5, 3], 1) == -1
  {
    var s := FiveThenThree();
    FlatRunIsListed(s, -1);
    FiveThenThreeIsRead();
    assert |LabelsOf(b)| == 2;
    assert LabelsOf(b)[0] == LabelAt(s[0], 0) && LabelsOf(b)[1] == LabelAt(s[1], 1);
    assert b[0].depth == 0 && b[1].depth == 1 && b[0].id == "a";
    ParentIs(Depths(b), 1, 0);
    ParentIs([5, 3], 1, -1);
  }

  lemma {:induction false} FiveThenThreeIsRead()
    ensures ReadLevels(FiveThenThree(), -1) == [0, 1]
  {
    var s := FiveThenThree();
    assert s[1..] == [s[1]] && s[1..][1..] == [];
  }

  /** On a well-formed run the parents the server reports are the parents the editor's commands preserve. */
  lemma {:induction false} ReaderParentsAreOutlineParents(s: seq<Outline.Node>, b: seq<TreeBlock>)
    requires Identified(s) && Outline.WellFormed(s)
    requires LabelsOf(b) == Container(AsPage(s), 0) && Linked(b)
    ensures |b| == |s| && forall k :: 0 <= k < |s| ==>
      b[k].parentId == var p := Parent(Outline.Levels(s), k); if p < 0 then None else Some(s[p].id.value)
  {
    ReaderAgreesIffWellFormed(s, b);
  }
}
