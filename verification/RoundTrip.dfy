/**
  Writing a forest of blocks as flat, indented siblings and reading it back
  (packages/core/src/doc/blockTree.ts, `buildBlock`, `setPageBlocks` and `readBlockTree`).
 */
module RoundTrip {
  import opened Common
  import opened Forest
  import opened Reader
  import opened ReaderTheorems
  import Outline

  // ----- writing

  datatype NewBlock = NewBlock(id: string, kind: string, text: string, indent: int, children: seq<NewBlock>)

  function BuildBlock(n: NewBlock): Xml {
    Element(n.kind, n.id, if n.indent > 0 then Parsed(n.indent) else Missing, "",
      (if n.text != "" then [Text(n.text)] else []) + SetPageBlocks(n.children))
  }

  /** The body of a page holding these blocks. */
  function SetPageBlocks(s: seq<NewBlock>): (r: seq<Xml>)
    ensures |r| == |s| && forall k :: 0 <= k < |s| ==> r[k] == BuildBlock(s[k])
  {
    if s == [] then [] else [BuildBlock(s[0])] + SetPageBlocks(s[1..])
  }

  // ----- forests

  datatype Tree = Tree(id: string, kind: string, text: string, children: seq<Tree>)

  /** The preorder of a forest whose roots are at `depth`. */
  function Preorder(f: seq<Tree>, depth: nat): seq<Label> {
    if f == [] then []
    else [Label(f[0].id, f[0].kind, depth, f[0].text)] + Preorder(f[0].children, depth + 1) + Preorder(f[1..], depth)
  }

  /** The ids of the parents, in the same order. */
  function PreorderParents(f: seq<Tree>, parent: Option<string>): seq<Option<string>> {
    if f == [] then []
    else [parent] + PreorderParents(f[0].children, Some(f[0].id)) + PreorderParents(f[1..], parent)
  }

  /** A forest as flat blocks: preorder, with the depth as the indent. */
  function Flatten(l: seq<Label>): (r: seq<NewBlock>)
    ensures |r| == |l| && forall k :: 0 <= k < |l| ==> r[k] == NewBlock(l[k].id, l[k].kind, l[k].text, l[k].depth, [])
  {
    seq(|l|, k requires 0 <= k < |l| => NewBlock(l[k].id, l[k].kind, l[k].text, l[k].depth, []))
  }

  /** The forest a listing denotes, with what is left after the blocks at `depth` or below. */
  function Regrow(l: seq<Label>, depth: nat): (r: (seq<Tree>, seq<Label>))
    ensures |r.1| <= |l|
    decreases |l|
  {
    if l == [] || l[0].depth != depth then ([], l)
    else
      var (kids, more) := Regrow(l[1..], depth + 1);
      var (siblings, rest) := Regrow(more, depth);
      ([Tree(l[0].id, l[0].kind, l[0].text, kids)] + siblings, rest)
  }

  // ----- preorder listings

  /** Depths that start at `depth`, never fall below it and step down by at most one. */
  ghost predicate SteppedFrom(l: seq<Label>, depth: nat) {
    && (l != [] ==> l[0].depth == depth)
    && (forall k :: 0 <= k < |l| ==> l[k].depth >= depth)
    && (forall k :: 0 < k < |l| ==> l[k].depth <= l[k - 1].depth + 1)
  }

  lemma {:induction false} PreorderStepped(f: seq<Tree>, depth: nat)
    ensures SteppedFrom(Preorder(f, depth), depth)
  {
    if f != [] {
      PreorderStepped(f[0].children, depth + 1);
      PreorderStepped(f[1..], depth);
      JoinStepped(
        Label(f[0].id, f[0].kind, depth, f[0].text), Preorder(f[0].children, depth + 1), Preorder(f[1..], depth));
    }
  }

  lemma {:induction false} JoinStepped(root: Label, below: seq<Label>, after: seq<Label>)
    requires SteppedFrom(below, root.depth + 1) && SteppedFrom(after, root.depth)
    ensures SteppedFrom([root] + below + after, root.depth)
  {
    var l := [root] + below + after;
    forall k | 0 < k < |l| ensures l[k].depth <= l[k - 1].depth + 1 {
      if 1 < k <= |below| {
        assert l[k] == below[k - 1] && l[k - 1] == below[k - 2];
      } else if k > |below| + 1 {
        assert l[k] == after[k - 1 - |below|] && l[k - 1] == after[k - 2 - |below|];
      }
    }
  }

  function RootLabel(t: Tree, depth: nat): Label {
    Label(t.id, t.kind, depth, t.text)
  }

  lemma {:induction false} PreorderCons(f: seq<Tree>, depth: nat, rest: seq<Label>)
    requires f != []
    ensures Preorder(f, depth) + rest
         == [RootLabel(f[0], depth)] + (Preorder(f[0].children, depth + 1) + (Preorder(f[1..], depth) + rest))
  {
  }

  /** Regrowing undoes preorder. */
  lemma {:induction false} RegrowPreorder(f: seq<Tree>, depth: nat, rest: seq<Label>)
    requires rest == [] || rest[0].depth < depth
    ensures Regrow(Preorder(f, depth) + rest, depth) == (f, rest)
    decreases f
  {
    if f == [] {
      assert Preorder(f, depth) + rest == rest;
    } else {
      hide Preorder;
      var kids, more := Preorder(f[0].children, depth + 1), Preorder(f[1..], depth) + rest;
      var l := Preorder(f, depth) + rest;
      PreorderStepped(f[1..], depth);
      PreorderCons(f, depth, rest);
      assert l[0] == RootLabel(f[0], depth) && l[1..] == kids + more;
      assert more == [] || more[0].depth < depth + 1;
      RegrowPreorder(f[0].children, depth + 1, more);
      RegrowPreorder(f[1..], depth, rest);
      assert [f[0]] + f[1..] == f;
    }
  }

  /** No block is more than one level deeper than the one before it. */
  ghost predicate Steps(l: seq<Label>) {
    forall k :: 0 < k < |l| ==> l[k].depth <= l[k - 1].depth + 1
  }

  /** Every stepped listing is the preorder of the forest it regrows to. */
  lemma {:induction false} PreorderRegrow(l: seq<Label>, depth: nat)
    requires Steps(l) && (l != [] ==> l[0].depth <= depth)
    ensures var r := Regrow(l, depth); l == Preorder(r.0, depth) + r.1 && (r.1 != [] ==> r.1[0].depth < depth)
    decreases |l|
  {
    hide Preorder, Steps, Regrow;
    if l == [] || l[0].depth != depth {
      RegrowsNothing(l, depth);
    } else {
      var below := Regrow(l[1..], depth + 1);
      var after := Regrow(below.1, depth);
      assert l == [l[0]] + l[1..];
      StepsOfSuffix(l, [l[0]], l[1..]);
      assert l[1..] != [] ==> l[1..][0].depth <= depth + 1 by {
        if |l| > 1 { FirstStep(l); }
      }
      PreorderRegrow(l[1..], depth + 1);
      SuffixSteps(l, Preorder(below.0, depth + 1), below.1);
      PreorderRegrow(below.1, depth);
      RegrowStep(l, depth);
      RootAndRest(l, depth, below.0, below.1, after.0, after.1);
    }
  }

  lemma {:induction false} RegrowsNothing(l: seq<Label>, depth: nat)
    requires l == [] || l[0].depth != depth
    ensures Regrow(l, depth) == ([], l) && l == Preorder([], depth) + l
  {
  }

  lemma {:induction false} SuffixSteps(l: seq<Label>, kids: seq<Label>, more: seq<Label>)
    requires l != [] && Steps(l) && l[1..] == kids + more
    ensures Steps(more)
  {
    hide Steps;
    assert l == ([l[0]] + kids) + more;
    StepsOfSuffix(l, [l[0]] + kids, more);
  }

  lemma {:induction false} RootAndRest(
      l: seq<Label>, depth: nat, kids: seq<Tree>, more: seq<Label>, next: seq<Tree>, rest: seq<Label>)
    requires l != [] && l[0].depth == depth && l[1..] == Preorder(kids, depth + 1) + more
    requires more == Preorder(next, depth) + rest
    ensures l == Preorder([Tree(l[0].id, l[0].kind, l[0].text, kids)] + next, depth) + rest
  {
    hide Preorder;
    var f := [Tree(l[0].id, l[0].kind, l[0].text, kids)] + next;
    assert f[1..] == next && RootLabel(f[0], depth) == l[0];
    PreorderCons(f, depth, rest);
    assert l == [l[0]] + l[1..];
  }

  lemma {:induction false} RegrowStep(l: seq<Label>, depth: nat)
    requires l != [] && l[0].depth == depth
    ensures var below := Regrow(l[1..], depth + 1); var after := Regrow(below.1, depth);
      Regrow(l, depth) == ([Tree(l[0].id, l[0].kind, l[0].text, below.0)] + after.0, after.1)
  {
  }

  lemma {:induction false} FirstStep(l: seq<Label>)
    requires Steps(l) && |l| > 1
    ensures l[1].depth <= l[0].depth + 1
  {
  }

  lemma {:induction false} StepsOfSuffix(l: seq<Label>, init: seq<Label>, more: seq<Label>)
    requires Steps(l) && l == init + more
    ensures Steps(more)
  {
    var n := |init|;
    forall k | 0 < k < |more| ensures more[k].depth <= more[k - 1].depth + 1 {
      assert more[k] == l[n + k] && more[k - 1] == l[n + k - 1];
    }
  }

  // ----- the round trip

  lemma {:induction false} FlatPageIsPage(l: seq<Label>, s: seq<Outline.Node>)
    requires |s| == |l|
    requires forall k :: 0 <= k < |l| ==> s[k] == Outline.Node(Some(l[k].id), l[k].kind, l[k].depth, false, l[k].text)
    ensures SetPageBlocks(Flatten(l)) == AsPage(s)
  {
    forall k | 0 <= k < |l| ensures SetPageBlocks(Flatten(l))[k] == AsPage(s)[k] {
      assert SetPageBlocks(Flatten(l)[k].children) == [];
    }
  }

  /** Any stepped listing within the cap, written flat, is read back as itself. */
  lemma {:induction false} StoredListingIsRead(l: seq<Label>)
    requires SteppedFrom(l, 0) && forall k :: 0 <= k < |l| ==> l[k].depth <= MAX_BLOCK_DEPTH && l[k].id != ""
    ensures Container(SetPageBlocks(Flatten(l)), 0) == l
    ensures forall w <- ContainerWarnings(SetPageBlocks(Flatten(l)), 0) :: !w.IndentClamped?
  {
    hide Labels, LabelWarnings, ReadLevels, SetPageBlocks, Flatten, Unclamped;
    var s := seq(|l|, k requires 0 <= k < |l| => Outline.Node(Some(l[k].id), l[k].kind, l[k].depth, false, l[k].text));
    FlatPageIsPage(l, s);
    FlatRunIsListed(s, -1);
    ReadLevelsAgree(s, -1);
    SteppedIsUnclamped(l, s);
    UnclampedIsSilent(s, -1);
    var read := Labels(AsPage(s), 0, -1);
    forall k | 0 <= k < |l| ensures read[k] == l[k] {
      assert read[k] == LabelAt(s[k], Outline.Levels(s)[k]);
    }
  }

  lemma {:induction false} SteppedIsUnclamped(l: seq<Label>, s: seq<Outline.Node>)
    requires SteppedFrom(l, 0) && |s| == |l|
    requires forall k :: 0 <= k < |l| ==> l[k].depth <= MAX_BLOCK_DEPTH && s[k].indent == l[k].depth
    ensures Unclamped(s, -1)
  {
    forall k | 0 <= k < |s| ensures s[k].indent <= MAX_BLOCK_DEPTH && s[k].indent <= Before(s, -1, k) + 1 {
      assert k > 0 ==> l[k].depth <= l[k - 1].depth + 1;
    }
  }

  /**
    Round trip: a forest no deeper than the cap, flattened to preorder with the depth as indent, written
    and read, is listed exactly as itself without an indent warning, and that listing regrows to the same forest.
   */
  lemma {:induction false} ForestRoundTrip(f: seq<Tree>)
    requires forall l <- Preorder(f, 0) :: l.depth <= MAX_BLOCK_DEPTH && l.id != ""
    ensures var page := SetPageBlocks(Flatten(Preorder(f, 0)));
      && Container(page, 0) == Preorder(f, 0)
      && Regrow(Container(page, 0), 0) == (f, [])
      && forall w <- ContainerWarnings(page, 0) :: !w.IndentClamped?
  {
    hide Container, ContainerWarnings;
    PreorderStepped(f, 0);
    StoredListingIsRead(Preorder(f, 0));
    RegrowPreorder(f, 0, []);
    assert Preorder(f, 0) + [] == Preorder(f, 0);
  }

  // ----- parents

  /** `parents[k]` names the nearest block before `k` that is shallower, or is `parent` for a root at `depth`. */
  ghost predicate NearestIsParent(
      l: seq<Label>, parents: seq<Option<string>>, parent: Option<string>, depth: nat, k: nat)
    requires k < |l| == |parents|
  {
    var p := Shallower(LabelDepthsOf(l), k, l[k].depth);
    if p < 0 then l[k].depth == depth && parents[k] == parent else parents[k] == Some(l[p].id)
  }

  /** In a preorder listing, the nearest shallower block is the parent in the tree. */
  lemma {:induction false} PreorderParentsAreNearest(f: seq<Tree>, parent: Option<string>, depth: nat, k: nat)
    requires k < |Preorder(f, depth)|
    ensures |PreorderParents(f, parent)| == |Preorder(f, depth)|
    ensures NearestIsParent(Preorder(f, depth), PreorderParents(f, parent), parent, depth, k)
    decreases f, k
  {
    hide Preorder, PreorderParents, SteppedFrom, NearestIsParent, Join;
    PreorderOfNone(depth);
    PreorderUnfold(f, parent, depth);
    ParentsLength(f[0].children, Some(f[0].id), depth + 1);
    ParentsLength(f[1..], parent, depth);
    var below := Preorder(f[0].children, depth + 1);
    if 0 < k <= |below| {
      PreorderParentsAreNearest(f[0].children, Some(f[0].id), depth + 1, k - 1);
    } else if |below| < k {
      PreorderParentsAreNearest(f[1..], parent, depth, k - 1 - |below|);
    }
    PreorderStepped(f[0].children, depth + 1);
    LiftNearest(RootLabel(f[0], depth), below, Preorder(f[1..], depth),
      PreorderParents(f[0].children, Some(f[0].id)), PreorderParents(f[1..], parent), parent, k);
  }

  lemma {:induction false} PreorderOfNone(depth: nat)
    ensures Preorder([], depth) == []
  {
  }

  lemma {:induction false} LiftNearest(
      root: Label, below: seq<Label>, after: seq<Label>, pb: seq<Option<string>>, pa: seq<Option<string>>,
      parent: Option<string>, k: nat)
    requires |pb| == |below| && |pa| == |after| && k <= |below| + |after|
    requires SteppedFrom(below, root.depth + 1)
    requires 0 < k <= |below| ==> NearestIsParent(below, pb, Some(root.id), root.depth + 1, k - 1)
    requires |below| < k ==> NearestIsParent(after, pa, parent, root.depth, k - 1 - |below|)
    ensures NearestIsParent(Join(root, below, after), Join(parent, pb, pa), parent, root.depth, k)
  {
    hide SteppedFrom, NearestIsParent, Join;
    var parents := Join(parent, pb, pa);
    JoinAt(parent, pb, pa, k);
    if k == 0 {
      RootIsFirst(root, below, after, parents, parent);
    } else if k <= |below| {
      LiftBelow(root, below, after, pb, parents, parent, k - 1);
    } else {
      LiftAfter(root, below, after, pa, parents, parent, k - 1 - |below|, k);
    }
  }

  /** A root, what is below it and what comes after. */
  function Join<T>(root: T, below: seq<T>, after: seq<T>): (r: seq<T>)
    ensures |r| == 1 + |below| + |after|
  {
    [root] + below + after
  }

  lemma {:induction false} JoinAt<T>(root: T, below: seq<T>, after: seq<T>, k: nat)
    requires k <= |below| + |after|
    ensures Join(root, below, after)[k]
         == if k == 0 then root else if k <= |below| then below[k - 1] else after[k - 1 - |below|]
  {
  }

  lemma {:induction false} RootIsFirst(
      root: Label, below: seq<Label>, after: seq<Label>, parents: seq<Option<string>>, parent: Option<string>)
    requires |parents| == 1 + |below| + |after| && parents[0] == parent
    ensures NearestIsParent(Join(root, below, after), parents, parent, root.depth, 0)
  {
  }

  lemma {:induction false} LiftBelow(
      root: Label, below: seq<Label>, after: seq<Label>, pb: seq<Option<string>>, parents: seq<Option<string>>,
      parent: Option<string>, j: nat)
    requires |pb| == |below| && |parents| == 1 + |below| + |after| && j < |below|
    requires parents[1 + j] == pb[j]
    requires SteppedFrom(below, root.depth + 1)
    requires NearestIsParent(below, pb, Some(root.id), root.depth + 1, j)
    ensures NearestIsParent(Join(root, below, after), parents, parent, root.depth, 1 + j)
  {
    DepthsAbove(below, root.depth + 1);
    JoinDepths(root, below, after);
    hide LabelDepthsOf, SteppedFrom, Join;
    NearestBelowRoot(root.depth, LabelDepthsOf(below), LabelDepthsOf(after), j);
    var q := Shallower(LabelDepthsOf(below), j, below[j].depth);
    JoinAt(root, below, after, 1 + j);
    JoinAt(root, below, after, if q < 0 then 0 else 1 + q);
  }

  lemma {:induction false} LiftAfter(
      root: Label, below: seq<Label>, after: seq<Label>, pa: seq<Option<string>>, parents: seq<Option<string>>,
      parent: Option<string>, j: nat, k: nat)
    requires |pa| == |after| && |parents| == 1 + |below| + |after| && j < |after| && k == 1 + |below| + j
    requires parents[k] == pa[j]
    requires SteppedFrom(below, root.depth + 1)
    requires NearestIsParent(after, pa, parent, root.depth, j)
    ensures NearestIsParent(Join(root, below, after), parents, parent, root.depth, k)
  {
    hide LabelDepthsOf, SteppedFrom, Join;
    var x, y := LabelDepthsOf(below), LabelDepthsOf(after);
    DepthsAbove(below, root.depth + 1);
    JoinDepths(root, below, after);
    JoinAt(root, below, after, k);
    NearestAfter(root.depth, x, y, j);
    var q := Shallower(y, j, y[j]);
    if q >= 0 {
      JoinAt(root, below, after, 1 + |below| + q);
    }
  }

  lemma {:induction false} PreorderUnfold(f: seq<Tree>, parent: Option<string>, depth: nat)
    requires f != []
    ensures Preorder(f, depth)
         == Join(RootLabel(f[0], depth), Preorder(f[0].children, depth + 1), Preorder(f[1..], depth))
    ensures PreorderParents(f, parent)
         == Join(parent, PreorderParents(f[0].children, Some(f[0].id)), PreorderParents(f[1..], parent))
  {
  }

  lemma {:induction false} DepthsAbove(l: seq<Label>, depth: nat)
    requires SteppedFrom(l, depth)
    ensures forall k :: 0 <= k < |l| ==> LabelDepthsOf(l)[k] >= depth
  {
  }

  lemma {:induction false} ParentsLength(f: seq<Tree>, parent: Option<string>, depth: nat)
    ensures |PreorderParents(f, parent)| == |Preorder(f, depth)|
  {
    if f != [] {
      ParentsLength(f[0].children, Some(f[0].id), depth + 1);
      ParentsLength(f[1..], parent, depth);
    }
  }

  lemma {:induction false} JoinDepths(root: Label, below: seq<Label>, after: seq<Label>)
    ensures LabelDepthsOf(Join(root, below, after)) == [root.depth] + LabelDepthsOf(below) + LabelDepthsOf(after)
  {
  }

  lemma {:induction false} NearestBelowRoot(r: nat, y: seq<nat>, z: seq<nat>, j: nat)
    requires j < |y| && y[j] > r
    ensures var q := Shallower(y, j, y[j]);
      Shallower([r] + y + z, 1 + j, y[j]) == if q < 0 then 0 else 1 + q
  {
    ShallowerPrefix([r] + y, z, 1 + j, y[j]);
    ShallowerConcat([r], y, j, y[j]);
  }

  lemma {:induction false} NearestAfter(r: nat, y: seq<nat>, z: seq<nat>, j: nat)
    requires j < |z| && forall k :: 0 <= k < |y| ==> y[k] > r
    requires Shallower(z, j, z[j]) < 0 ==> z[j] == r
    ensures var q := Shallower(z, j, z[j]);
      Shallower([r] + y + z, 1 + |y| + j, z[j]) == if q < 0 then -1 else 1 + |y| + q
  {
    ShallowerConcat([r] + y, z, j, z[j]);
  }

  /** A linked listing that shows a forest reports the forest's own parents. */
  lemma {:induction false} ListedForestParents(f: seq<Tree>, b: seq<TreeBlock>)
    requires LabelsOf(b) == Preorder(f, 0) && Linked(b)
    ensures |b| == |PreorderParents(f, None)|
    ensures forall k :: 0 <= k < |b| ==> b[k].parentId == PreorderParents(f, None)[k]
  {
    hide Preorder, PreorderParents, Stepped, Shallower;
    var l := Preorder(f, 0);
    ParentsLength(f, None, 0);
    assert |b| == |l|;
    forall k | 0 <= k < |b| ensures b[k].depth == l[k].depth && b[k].id == l[k].id {
      assert LabelsOf(b)[k] == l[k];
    }
    assert Depths(b) == LabelDepthsOf(l);
    forall k | 0 <= k < |b| ensures b[k].parentId == PreorderParents(f, None)[k] {
      PreorderParentsAreNearest(f, None, 0, k);
      assert b[k].parentId == Owner(Depths(b), Ids(b), k, b[k].depth);
    }
  }

  /** What is read back from a stored forest also reports the forest's own parents. */
  lemma {:induction false} StoredForestParents(f: seq<Tree>, b: seq<TreeBlock>)
    requires forall l <- Preorder(f, 0) :: l.depth <= MAX_BLOCK_DEPTH && l.id != ""
    requires LabelsOf(b) == Container(SetPageBlocks(Flatten(Preorder(f, 0))), 0) && Linked(b)
    ensures |b| == |PreorderParents(f, None)|
    ensures forall k :: 0 <= k < |b| ==> b[k].parentId == PreorderParents(f, None)[k]
  {
    hide Container, Preorder, PreorderParents, SetPageBlocks, Flatten, Linked;
    ForestRoundTrip(f);
    ListedForestParents(f, b);
  }

  // ----- rewriting the levels that were read

  /** The same document with every block's indent replaced by the level it was read at. */
  function Normalised(nodes: seq<Xml>, prev: int): (r: seq<Xml>)
    requires prev >= -1
    ensures |r| == |nodes|
  {
    if nodes == [] then []
    else if !IsBlock(nodes[0]) then [nodes[0]] + Normalised(nodes[1..], prev)
    else
      var level := Level(nodes[0], prev);
      [nodes[0].(indent := WriteIndent(level), children := Normalised(nodes[0].children, -1))]
      + Normalised(nodes[1..], level)
  }

  lemma {:induction false} NormalisedBlocks(nodes: seq<Xml>, prev: int, nesting: nat)
    requires prev >= -1
    ensures HasBlockIn(Normalised(nodes, prev)) == HasBlockIn(nodes)
    ensures InlineText(Normalised(nodes, prev), nesting) == InlineText(nodes, nesting)
    decreases nodes
  {
    if nodes != [] {
      var r := Normalised(nodes, prev);
      var next := if IsBlock(nodes[0]) then Level(nodes[0], prev) else prev;
      assert r[1..] == Normalised(nodes[1..], next);
      NormalisedBlocks(nodes[1..], next, nesting);
      assert HasBlockIn(nodes) <==> IsBlock(nodes[0]) || HasBlockIn(nodes[1..]) by { InHeadOrTail(nodes); }
      assert HasBlockIn(r) <==> IsBlock(r[0]) || HasBlockIn(r[1..]) by { InHeadOrTail(r); }
    }
  }

  lemma {:induction false} InHeadOrTail(nodes: seq<Xml>)
    requires nodes != []
    ensures HasBlockIn(nodes) <==> IsBlock(nodes[0]) || HasBlockIn(nodes[1..])
  {
    assert nodes == [nodes[0]] + nodes[1..];
  }

  lemma {:induction false} NormalisedInside(x: Xml, level: nat, depth: nat)
    requires IsBlock(x)
    ensures var y := x.(indent := WriteIndent(level), children := Normalised(x.children, -1));
      && Inside(y, depth) == Inside(x, depth)
      && InlineText(y.children, 0) == InlineText(x.children, 0)
      && forall w <- InsideWarnings(y, depth) :: !w.IndentClamped?
    decreases x
  {
    hide InlineText, HasBlockIn, Labels, LabelWarnings;
    NormalisedBlocks(x.children, -1, 0);
    NormalisedReadsTheSame(x.children, depth + 1, -1);
  }

  /** Rewriting the levels that were read and reading again changes nothing, at every nesting level. */
  lemma {:induction false} NormalisedReadsTheSame(nodes: seq<Xml>, base: nat, prev: int)
    requires prev >= -1
    ensures Labels(Normalised(nodes, prev), base, prev) == Labels(nodes, base, prev)
    ensures forall w <- LabelWarnings(Normalised(nodes, prev), base, prev) :: !w.IndentClamped?
    decreases nodes
  {
    if nodes != [] {
      hide InlineText, Inside, InsideWarnings, Blank;
      var r := Normalised(nodes, prev);
      if IsBlock(nodes[0]) {
        var level := Level(nodes[0], prev);
        assert r[1..] == Normalised(nodes[1..], level);
        assert Level(r[0], prev) == level == ReadIndent(r[0].indent);
        NormalisedReadsTheSame(nodes[1..], base, level);
        NormalisedInside(nodes[0], level, base + level);
      } else {
        assert r[1..] == Normalised(nodes[1..], prev);
        NormalisedReadsTheSame(nodes[1..], base, prev);
      }
    }
  }
}
