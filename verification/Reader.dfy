/**
  Reading a page's block tree (packages/core/src/doc/blockTree.ts).

  A page is a sequence of nested XML nodes. Two mechanisms make parents: a textless container
  holds its children as XML children, and inside one container a block is the child of the
  nearest earlier block with a smaller indent. The reader is a class whose `Visit` method is the
  source's loop with its push/pop stack; `Labels` says which blocks are listed, in which order,
  at which depth and with which text, and `Linked` says that the parent of every listed block is
  its parent in the forest of depths.
 */
module Reader {
  import opened Common
  import opened Forest

  /** The `indent` attribute: absent, not a number, or a number. */
  datatype IndentAttr = Missing | Unparsable | Parsed(value: int)

  datatype Xml =
    | Text(text: string)
    | Other
    | Element(kind: string, id: string, indent: IndentAttr, caption: string, children: seq<Xml>)

  datatype Warning =
    | TooDeep
    | LooseText
    | NoBlockId(kind: string)
    | IndentClamped(id: string, raw: nat, level: nat)

  datatype TreeBlock = TreeBlock(
    id: string, kind: string, parentId: Option<string>, position: nat, depth: nat, text: string, childIds: seq<string>)

  /** What the reader reports about one block apart from its links. */
  datatype Label = Label(id: string, kind: string, depth: nat, text: string)

  // ----- one element

  function ReadIndent(a: IndentAttr): (n: nat)
    ensures n <= MAX_BLOCK_DEPTH
  {
    match a
    case Missing => 0
    case Unparsable => 0
    case Parsed(v) => if v < 0 then 0 else Min(v, MAX_BLOCK_DEPTH)
  }

  /** An element carrying a block id is a block. */
  predicate IsBlock(x: Xml) {
    x.Element? && x.id != ""
  }

  predicate Structural(kind: string) {
    kind == "columns" || kind == "column"
  }

  predicate HasBlockIn(nodes: seq<Xml>) {
    exists x <- nodes :: IsBlock(x)
  }

  predicate HoldsBlocks(x: Xml)
    requires x.Element?
  {
    Structural(x.kind) || HasBlockIn(x.children)
  }

  /** The inline text of an element, not counting its blocks. */
  function InlineText(nodes: seq<Xml>, nesting: nat): string
    decreases nodes
  {
    if nesting > MAX_BLOCK_DEPTH || nodes == [] then ""
    else
      var rest := InlineText(nodes[1..], nesting);
      match nodes[0]
      case Text(t) => t + rest
      case Other => rest
      case Element(kind, id, _, caption, children) =>
        if id != "" then rest
        else if kind == "mention" then "@" + caption + rest
        else InlineText(children, nesting + 1) + rest
  }

  // ----- the listing

  /** A block may be at most one level deeper than the block before it in its container. */
  function Level(x: Xml, prev: int): (n: nat)
    requires IsBlock(x) && prev >= -1
    ensures n <= prev + 1 && n <= MAX_BLOCK_DEPTH
  {
    Min(ReadIndent(x.indent), prev + 1)
  }

  /** The blocks of a container at depth `base`, in reading order; `prev` is the level of the block before `nodes`. */
  function Labels(nodes: seq<Xml>, base: nat, prev: int): seq<Label>
    requires prev >= -1
    decreases nodes, 0
  {
    if nodes == [] then []
    else if !IsBlock(nodes[0]) then Labels(nodes[1..], base, prev)
    else
      var x, level := nodes[0], Level(nodes[0], prev);
      [Label(x.id, x.kind, base + level, InlineText(x.children, 0))]
      + Inside(x, base + level)
      + Labels(nodes[1..], base, level)
  }

  /** The blocks held as XML children by a block at `depth`. */
  function Inside(x: Xml, depth: nat): seq<Label>
    requires x.Element?
    decreases x, 2
  {
    if HoldsBlocks(x) then Container(x.children, depth + 1) else []
  }

  function Container(nodes: seq<Xml>, base: nat): seq<Label>
    decreases nodes, 1
  {
    if base > MAX_BLOCK_DEPTH then [] else Labels(nodes, base, -1)
  }

  // ----- the warnings

  function LabelWarnings(nodes: seq<Xml>, base: nat, prev: int): seq<Warning>
    requires prev >= -1
    decreases nodes, 0
  {
    if nodes == [] then []
    else match nodes[0]
      case Text(t) => (if Blank(t) then [] else [LooseText]) + LabelWarnings(nodes[1..], base, prev)
      case Other => LabelWarnings(nodes[1..], base, prev)
      case Element(kind, id, indent, _, _) =>
        if id == "" then [NoBlockId(kind)] + LabelWarnings(nodes[1..], base, prev)
        else
          var x, level := nodes[0], Level(nodes[0], prev);
          (if level == ReadIndent(indent) then [] else [IndentClamped(id, ReadIndent(indent), level)])
          + InsideWarnings(x, base + level)
          + LabelWarnings(nodes[1..], base, level)
  }

  function InsideWarnings(x: Xml, depth: nat): seq<Warning>
    requires x.Element?
    decreases x, 2
  {
    if HoldsBlocks(x) then ContainerWarnings(x.children, depth + 1) else []
  }

  function ContainerWarnings(nodes: seq<Xml>, base: nat): seq<Warning>
    decreases nodes, 1
  {
    if base > MAX_BLOCK_DEPTH then [TooDeep] else LabelWarnings(nodes, base, -1)
  }

  // ----- the links

  function Depths(b: seq<TreeBlock>): (d: seq<nat>)
    ensures |d| == |b| && forall k :: 0 <= k < |b| ==> d[k] == b[k].depth
  {
    seq(|b|, k requires 0 <= k < |b| => b[k].depth)
  }

  function LabelOf(t: TreeBlock): Label {
    Label(t.id, t.kind, t.depth, t.text)
  }

  function LabelsOf(b: seq<TreeBlock>): (s: seq<Label>)
    ensures |s| == |b| && forall k :: 0 <= k < |b| ==> s[k] == LabelOf(b[k])
  {
    seq(|b|, k requires 0 <= k < |b| => LabelOf(b[k]))
  }

  function Ids(b: seq<TreeBlock>): (s: seq<string>)
    ensures |s| == |b| && forall k :: 0 <= k < |b| ==> s[k] == b[k].id
  {
    seq(|b|, k requires 0 <= k < |b| => b[k].id)
  }

  /** The id of the nearest block before `n` that is shallower than `level`. */
  function Owner(d: seq<nat>, ids: seq<string>, n: nat, level: nat): Option<string>
    requires n <= |d| == |ids|
  {
    var p := Shallower(d, n, level);
    if p < 0 then None else Some(ids[p])
  }

  /** The owner of `level` for a block that would be listed next. */
  function NextOwner(b: seq<TreeBlock>, level: nat): Option<string> {
    Owner(Depths(b), Ids(b), |b|, level)
  }

  /** A preorder listing of a forest: positions count up, depths are stepped and parents are those of the depths. */
  ghost predicate Linked(b: seq<TreeBlock>) {
    && Stepped(Depths(b))
    && forall k :: 0 <= k < |b| ==> b[k].position == k && b[k].parentId == Owner(Depths(b), Ids(b), k, b[k].depth)
  }

  /** The ids of the blocks whose parent is `id`, in listing order. */
  function ChildrenOf(b: seq<TreeBlock>, id: string): seq<string> {
    if b == [] then []
    else
      var last := b[|b| - 1];
      ChildrenOf(b[..|b| - 1], id) + if last.parentId == Some(id) then [last.id] else []
  }

  /** `childIds` is the ordered inverse of `parentId`. */
  ghost predicate ChildrenListed(b: seq<TreeBlock>) {
    forall k :: 0 <= k < |b| ==> b[k].childIds == ChildrenOf(b, b[k].id)
  }

  ghost predicate Indexed(b: seq<TreeBlock>, byId: map<string, nat>) {
    && (forall k :: 0 <= k < |b| ==> b[k].id in byId && byId[b[k].id] == k)
    && (forall id <- byId :: byId[id] < |b| && b[byId[id]].id == id)
  }

  /** One more than the last depth: the deepest the next block may be. */
  function NextDepth(b: seq<TreeBlock>): nat {
    if b == [] then 0 else b[|b| - 1].depth + 1
  }

  // ----- facts about the listing

  /** Every depth lies between the container's and twice the cap. */
  lemma {:induction false} LabelDepths(nodes: seq<Xml>, base: nat, prev: int)
    requires prev >= -1 && base <= MAX_BLOCK_DEPTH
    ensures forall l <- Labels(nodes, base, prev) :: base <= l.depth <= 2 * MAX_BLOCK_DEPTH
    decreases nodes, 0
  {
    if nodes != [] {
      if IsBlock(nodes[0]) {
        var level := Level(nodes[0], prev);
        if HoldsBlocks(nodes[0]) {
          ContainerDepths(nodes[0].children, base + level + 1);
        }
        LabelDepths(nodes[1..], base, level);
      } else {
        LabelDepths(nodes[1..], base, prev);
      }
    }
  }

  lemma {:induction false} ContainerDepths(nodes: seq<Xml>, base: nat)
    ensures forall l <- Container(nodes, base) :: base <= l.depth <= 2 * MAX_BLOCK_DEPTH
    decreases nodes, 1
  {
    if base <= MAX_BLOCK_DEPTH {
      LabelDepths(nodes, base, -1);
    }
  }

  lemma {:induction false} OwnerPrefix(
      d: seq<nat>, ids: seq<string>, d': seq<nat>, ids': seq<string>, n: nat, level: nat)
    requires n <= |d| == |ids| && |d'| == |ids'|
    ensures Owner(d + d', ids + ids', n, level) == Owner(d, ids, n, level)
  {
    ShallowerPrefix(d, d', n, level);
  }

  /** Blocks listed at or below `level` do not change which block owns `level`. */
  lemma {:induction false} OwnerStable(b: seq<TreeBlock>, b': seq<TreeBlock>, more: seq<Label>, level: nat)
    requires LabelsOf(b') == LabelsOf(b) + more
    requires forall l <- more :: l.depth >= level
    ensures NextOwner(b', level) == NextOwner(b, level)
  {
    ViewsOfMore(b, b', more);
    var y := LabelDepthsOf(more);
    hide Depths, Ids, LabelsOf;
    ShallowerConcat(Depths(b), y, |y|, level);
  }

  function LabelDepthsOf(s: seq<Label>): (d: seq<nat>)
    ensures |d| == |s| && forall k :: 0 <= k < |s| ==> d[k] == s[k].depth
  {
    seq(|s|, k requires 0 <= k < |s| => s[k].depth)
  }

  lemma {:induction false} ViewsOfMore(b: seq<TreeBlock>, b': seq<TreeBlock>, more: seq<Label>)
    requires LabelsOf(b') == LabelsOf(b) + more
    ensures |b'| == |b| + |more|
    ensures Depths(b') == Depths(b) + LabelDepthsOf(more)
    ensures Ids(b) <= Ids(b')
  {
    assert |b'| == |b| + |more|;
    forall k | 0 <= k < |b'| ensures LabelOf(b'[k]) == if k < |b| then LabelOf(b[k]) else more[k - |b|] {
      assert LabelsOf(b')[k] == (LabelsOf(b) + more)[k];
    }
  }

  lemma {:induction false} SteppedAppend(d: seq<nat>, x: nat)
    requires Stepped(d) && x <= if d == [] then 0 else d[|d| - 1] + 1
    ensures Stepped(d + [x])
  {
  }

  lemma {:induction false} AppendViews(b: seq<TreeBlock>, x: TreeBlock)
    ensures Depths(b + [x]) == Depths(b) + [x.depth]
    ensures Ids(b + [x]) == Ids(b) + [x.id]
    ensures LabelsOf(b + [x]) == LabelsOf(b) + [LabelOf(x)]
  {
  }

  /** Adding one block that fits keeps the listing a forest. */
  lemma {:induction false} LinkedAppend(b: seq<TreeBlock>, x: TreeBlock)
    requires Linked(b)
    requires x.depth <= NextDepth(b) && x.position == |b| && x.parentId == NextOwner(b, x.depth)
    ensures Linked(b + [x])
  {
    hide Owner, Stepped, Depths, Ids;
    var b' := b + [x];
    AppendViews(b, x);
    SteppedAppend(Depths(b), x.depth);
    forall k | 0 <= k < |b'|
      ensures b'[k].position == k && b'[k].parentId == Owner(Depths(b'), Ids(b'), k, b'[k].depth)
    {
      OwnerPrefix(Depths(b), Ids(b), [x.depth], [x.id], k, b'[k].depth);
    }
  }

  /** A listing with the same depths, ids and parents is the same forest, whatever its `childIds`. */
  lemma {:induction false} LinkedIgnoresChildren(b: seq<TreeBlock>, b': seq<TreeBlock>)
    requires |b'| == |b| && forall k :: 0 <= k < |b| ==> b'[k].(childIds := []) == b[k].(childIds := [])
    requires Linked(b)
    ensures Linked(b') && LabelsOf(b') == LabelsOf(b)
  {
    hide Owner;
    forall k | 0 <= k < |b| ensures b'[k].depth == b[k].depth && b'[k].id == b[k].id && LabelOf(b'[k]) == LabelOf(b[k])
      && b'[k].position == b[k].position && b'[k].parentId == b[k].parentId
    {
      assert b'[k].(childIds := []) == b[k].(childIds := []);
    }
    assert Depths(b') == Depths(b) && Ids(b') == Ids(b);
    assert LabelsOf(b') == LabelsOf(b);
  }

  // ----- children as the inverse of parents

  lemma {:induction false} ChildrenIgnoreChildren(b: seq<TreeBlock>, b': seq<TreeBlock>, id: string)
    requires |b'| == |b| && forall k :: 0 <= k < |b| ==> b'[k].parentId == b[k].parentId && b'[k].id == b[k].id
    ensures ChildrenOf(b', id) == ChildrenOf(b, id)
  {
    if b != [] {
      ChildrenIgnoreChildren(b[..|b| - 1], b'[..|b| - 1], id);
    }
  }

  lemma {:induction false} NoChildren(b: seq<TreeBlock>, id: string)
    requires forall k :: 0 <= k < |b| ==> b[k].parentId != Some(id)
    ensures ChildrenOf(b, id) == []
  {
    if b != [] {
      NoChildren(b[..|b| - 1], id);
    }
  }

  /** In a forest every parent is a listed block. */
  lemma {:induction false} ParentsAreListed(b: seq<TreeBlock>)
    requires Linked(b)
    ensures forall k :: 0 <= k < |b| && b[k].parentId.Some? ==> b[k].parentId.value in Ids(b)
  {
  }

  /** `b[k]` after `x` was entered among its parent's children. */
  function Grown(t: TreeBlock, x: TreeBlock): TreeBlock {
    t.(childIds := t.childIds + if x.parentId == Some(t.id) then [x.id] else [])
  }

  /** `b'` is `b` with `x` listed and entered among its parent's children. */
  ghost predicate GrownBy(b: seq<TreeBlock>, x: TreeBlock, b': seq<TreeBlock>) {
    && |b'| == |b| + 1 && b'[|b|] == x
    && forall k :: 0 <= k < |b| ==> b'[k] == Grown(b[k], x)
  }

  /**
    Listing one more block and appending its id to its parent's children keeps `childIds` the inverse of
    `parentId`.
   */
  lemma {:induction false} ChildrenAppend(b: seq<TreeBlock>, x: TreeBlock, b': seq<TreeBlock>)
    requires Linked(b) && ChildrenListed(b)
    requires x.id !in Ids(b) && x.parentId != Some(x.id) && x.childIds == []
    requires GrownBy(b, x, b')
    ensures ChildrenListed(b')
  {
    hide Linked, Ids;
    forall k | 0 <= k < |b'| ensures b'[k].childIds == ChildrenOf(b', b'[k].id) {
      var id := b'[k].id;
      ChildrenOfLonger(b, x, b', id);
      if k == |b| {
        ParentsAreListed(b);
        NoChildren(b, id);
      }
    }
  }

  lemma {:induction false} ChildrenOfLonger(b: seq<TreeBlock>, x: TreeBlock, b': seq<TreeBlock>, id: string)
    requires |b'| == |b| + 1 && b'[|b|] == x
    requires forall k :: 0 <= k < |b| ==> b'[k].parentId == b[k].parentId && b'[k].id == b[k].id
    ensures ChildrenOf(b', id) == ChildrenOf(b, id) + if x.parentId == Some(id) then [x.id] else []
  {
    ChildrenIgnoreChildren(b, b'[..|b|], id);
  }

  /** The block listed last owns the level below it. */
  lemma {:induction false} ListedOwner(b: seq<TreeBlock>, row: Label)
    requires |b| > 0 && LabelsOf(b)[|b| - 1] == row
    ensures NextOwner(b, row.depth + 1) == Some(row.id) && NextDepth(b) == row.depth + 1
  {
  }

  /** What the stack needs after a block and everything inside it were listed. */
  lemma {:induction false} OwnersAfterBlock(b: seq<TreeBlock>, b': seq<TreeBlock>, row: Label, inside: seq<Label>)
    requires LabelsOf(b') == LabelsOf(b) + [row] + inside
    requires forall l <- inside :: l.depth > row.depth
    ensures forall level :: 0 <= level <= row.depth ==> NextOwner(b', level) == NextOwner(b, level)
    ensures NextOwner(b', row.depth + 1) == Some(row.id)
    ensures row.depth + 1 <= NextDepth(b')
  {
    forall level | 0 <= level <= row.depth ensures NextOwner(b', level) == NextOwner(b, level) {
      assert LabelsOf(b) + [row] + inside == LabelsOf(b) + ([row] + inside);
      OwnerStable(b, b', [row] + inside, level);
    }
    var b1 := b'[..|b| + 1];
    assert |b'| == |b| + 1 + |inside|;
    assert LabelsOf(b1) == LabelsOf(b')[..|b| + 1] == LabelsOf(b) + [row];
    ListedOwner(b1, row);
    OwnerStable(b1, b', inside, row.depth + 1);
    if inside != [] {
      assert LabelsOf(b')[|b'| - 1] == inside[|inside| - 1];
    }
  }

  /** What holds of the listing and the index at every point of the reading. */
  ghost predicate Sound(b: seq<TreeBlock>, byId: map<string, nat>) {
    && Linked(b)
    && (forall id <- byId :: byId[id] < |b|)
    && (Distinct(Ids(b)) ==> Indexed(b, byId) && ChildrenListed(b))
  }

  /** The listing after `x` was pushed and entered among the children of whatever the index gives for its parent. */
  function Entered(b: seq<TreeBlock>, byId: map<string, nat>, x: TreeBlock): (r: seq<TreeBlock>)
    ensures |r| == |b| + 1
  {
    var listed := b + [x];
    if x.parentId.Some? && x.parentId.value in byId && byId[x.parentId.value] <= |b| then
      var j := byId[x.parentId.value];
      listed[j := listed[j].(childIds := listed[j].childIds + [x.id])]
    else listed
  }

  lemma {:induction false} EnteredIsSound(b: seq<TreeBlock>, byId: map<string, nat>, x: TreeBlock)
    requires Sound(b, byId)
    requires x.depth <= NextDepth(b) && x.position == |b| && x.parentId == NextOwner(b, x.depth) && x.childIds == []
    ensures var byId' := byId[x.id := |b|]; var b' := Entered(b, byId', x);
      Sound(b', byId') && LabelsOf(b') == LabelsOf(b) + [LabelOf(x)]
  {
    hide Owner, Depths, Indexed, ChildrenListed, LabelsOf, Stepped;
    var byId' := byId[x.id := |b|];
    var b' := Entered(b, byId', x);
    LinkedAppend(b, x);
    AppendViews(b, x);
    forall k | 0 <= k <= |b| ensures b'[k].(childIds := []) == (b + [x])[k].(childIds := []) {}
    LinkedIgnoresChildren(b + [x], b');
    if Distinct(Ids(b')) {
      IdsOfEntered(b, byId', x);
      DistinctPrefix(Ids(b), x.id);
      ListedOnce(b, byId, x);
    }
  }

  lemma {:induction false} IdsOfEntered(b: seq<TreeBlock>, byId: map<string, nat>, x: TreeBlock)
    ensures Ids(Entered(b, byId, x)) == Ids(b) + [x.id]
  {
  }

  lemma {:induction false} DistinctPrefix<T>(s: seq<T>, x: T)
    requires Distinct(s + [x])
    ensures Distinct(s) && x !in s
  {
    var t := s + [x];
    assert forall k :: 0 <= k < |s| ==> t[k] == s[k] && t[k] != t[|s|];
  }

  /** When the ids are distinct, listing a block keeps the index and the children lists exact. */
  lemma {:induction false} ListedOnce(b: seq<TreeBlock>, byId: map<string, nat>, x: TreeBlock)
    requires Linked(b) && Indexed(b, byId) && ChildrenListed(b)
    requires x.childIds == [] && x.parentId == NextOwner(b, x.depth) && x.id !in Ids(b)
    ensures var byId' := byId[x.id := |b|]; var b' := Entered(b, byId', x);
      Indexed(b', byId') && ChildrenListed(b')
  {
    hide Linked, Entered, Ids, NextOwner, ChildrenListed, GrownBy;
    EnteredInto(b, byId, x);
    ChildrenAppend(b, x, Entered(b, byId[x.id := |b|], x));
  }

  /** Exactly the parent's children list grows. */
  lemma {:induction false} EnteredInto(b: seq<TreeBlock>, byId: map<string, nat>, x: TreeBlock)
    requires Indexed(b, byId) && x.id !in Ids(b)
    requires x.parentId == NextOwner(b, x.depth)
    ensures var byId' := byId[x.id := |b|]; var b' := Entered(b, byId', x);
      && x.parentId != Some(x.id)
      && Indexed(b', byId')
      && GrownBy(b, x, b')
  {
    hide Depths;
    var p := x.parentId;
    assert p.Some? ==> p.value in Ids(b);
    var byId' := byId[x.id := |b|];
    var b' := Entered(b, byId', x);
    forall k | 0 <= k <= |b| ensures b'[k].id == (b + [x])[k].id {}
  }

  method HasBlockChildren(nodes: seq<Xml>) returns (found: bool)
    ensures found == HasBlockIn(nodes)
  {
    for i := 0 to |nodes|
      invariant !HasBlockIn(nodes[..i])
    {
      if IsBlock(nodes[i]) {
        return true;
      }
    }
    assert nodes[..|nodes|] == nodes;
    return false;
  }

  // ----- the reader

  /** An ancestor implied by indentation. */
  datatype Open = Open(id: string, indent: nat)

  class TreeReader {
    var blocks: seq<TreeBlock>
    var byId: map<string, nat>
    var position: nat
    var warnings: seq<Warning>

    ghost predicate Valid()
      reads this
    {
      Sound(blocks, byId) && position == |blocks|
    }

    constructor ()
      ensures Valid() && blocks == [] && warnings == []
    {
      blocks, byId, position, warnings := [], map[], 0, [];
    }

    /** List one block and enter it among its parent's children. */
    method List(id: string, kind: string, parentId: Option<string>, depth: nat, text: string)
      requires Valid()
      requires depth <= NextDepth(blocks) && parentId == NextOwner(blocks, depth)
      modifies this
      ensures Valid()
      ensures LabelsOf(blocks) == old(LabelsOf(blocks)) + [Label(id, kind, depth, text)]
      ensures warnings == old(warnings)
    {
      hide NextOwner, NextDepth, LabelsOf, Linked, Distinct;
      var block := TreeBlock(id, kind, parentId, position, depth, text, []);
      EnteredIsSound(blocks, byId, block);
      position := position + 1;
      blocks := blocks + [block];
      byId := byId[id := |blocks| - 1];
      if parentId.Some? && parentId.value in byId {
        var j := byId[parentId.value];
        blocks := blocks[j := blocks[j].(childIds := blocks[j].childIds + [id])];
      }
      assert blocks == Entered(old(blocks), byId, block);
    }

    /** Read one container: the source's loop over its children. */
    method Visit(container: seq<Xml>, structuralParentId: Option<string>, baseDepth: nat)
      requires Valid()
      requires baseDepth <= NextDepth(blocks) && structuralParentId == NextOwner(blocks, baseDepth)
      modifies this
      ensures Valid()
      ensures LabelsOf(blocks) == old(LabelsOf(blocks)) + Container(container, baseDepth)
      ensures warnings == old(warnings) + ContainerWarnings(container, baseDepth)
      decreases container
    {
      hide Sound, NextOwner, NextDepth, LabelsOf, Inside, InsideWarnings, Blank, InlineText;
      if baseDepth > MAX_BLOCK_DEPTH {
        warnings := warnings + [TooDeep];
        return;
      }
      var stack: seq<Open> := [];
      for i := 0 to |container|
        invariant Valid()
        invariant baseDepth + |stack| <= NextDepth(blocks)
        invariant NextOwner(blocks, baseDepth) == structuralParentId
        invariant forall k :: 0 <= k < |stack| ==>
          stack[k].indent == k && NextOwner(blocks, baseDepth + k + 1) == Some(stack[k].id)
        invariant old(LabelsOf(blocks)) + Labels(container, baseDepth, -1)
               == LabelsOf(blocks) + Labels(container[i..], baseDepth, |stack| - 1)
        invariant old(warnings) + LabelWarnings(container, baseDepth, -1)
               == warnings + LabelWarnings(container[i..], baseDepth, |stack| - 1)
      {
        var child := container[i];
        assert container[i..][0] == child && container[i..][1..] == container[i + 1..];
        if child.Text? {
          if !Blank(child.text) {
            warnings := warnings + [LooseText];
          }
          continue;
        }
        if child.Other? {
          continue;
        }
        if child.id == "" {
          warnings := warnings + [NoBlockId(child.kind)];
          continue;
        }
        stack := VisitBlock(child, structuralParentId, baseDepth, stack);
      }
    }

    /** Read one block of a container: the rest of the source's loop body. */
    method VisitBlock(
        child: Xml, structuralParentId: Option<string>, baseDepth: nat, open: seq<Open>) returns (stack: seq<Open>)
      requires Valid() && IsBlock(child)
      requires baseDepth + |open| <= NextDepth(blocks)
      requires NextOwner(blocks, baseDepth) == structuralParentId
      requires forall k :: 0 <= k < |open| ==>
        open[k].indent == k && NextOwner(blocks, baseDepth + k + 1) == Some(open[k].id)
      modifies this
      ensures Valid()
      ensures |stack| == Level(child, |open| - 1) + 1
      ensures baseDepth + |stack| <= NextDepth(blocks)
      ensures NextOwner(blocks, baseDepth) == structuralParentId
      ensures forall k :: 0 <= k < |stack| ==>
        stack[k].indent == k && NextOwner(blocks, baseDepth + k + 1) == Some(stack[k].id)
      ensures var level := Level(child, |open| - 1);
        && LabelsOf(blocks) == old(LabelsOf(blocks))
             + [Label(child.id, child.kind, baseDepth + level, InlineText(child.children, 0))]
             + Inside(child, baseDepth + level)
        && warnings == old(warnings)
             + (if level == ReadIndent(child.indent) then []
               else [IndentClamped(child.id, ReadIndent(child.indent), level)])
             + InsideWarnings(child, baseDepth + level)
      decreases child
    {
      hide Sound, NextOwner, NextDepth, LabelsOf, Labels, LabelWarnings, Container, ContainerWarnings, InlineText,
          HasBlockIn;
      stack := open;
      var rawIndent := ReadIndent(child.indent);
      var previousIndent := if |stack| > 0 then stack[|stack| - 1].indent else -1;
      var indent := Min(rawIndent, previousIndent + 1);
      if indent != rawIndent {
        warnings := warnings + [IndentClamped(child.id, rawIndent, indent)];
      }
      while |stack| > 0 && stack[|stack| - 1].indent >= indent
        invariant indent <= |stack| <= |open| && stack == open[..|stack|]
      {
        stack := stack[..|stack| - 1];
      }
      var parentId := if |stack| > 0 then Some(stack[|stack| - 1].id) else structuralParentId;
      var depth := baseDepth + |stack|;
      ghost var row := Label(child.id, child.kind, depth, InlineText(child.children, 0));
      List(child.id, child.kind, parentId, depth, InlineText(child.children, 0));
      stack := stack + [Open(child.id, indent)];
      ghost var inside := [];
      var holds := HasBlockChildren(child.children);
      if Structural(child.kind) || holds {
        inside := Container(child.children, depth + 1);
        ContainerDepths(child.children, depth + 1);
        ListedOwner(blocks, row);
        Visit(child.children, Some(child.id), depth + 1);
      }
      OwnersAfterBlock(old(blocks), blocks, row, inside);
    }
  }
}
