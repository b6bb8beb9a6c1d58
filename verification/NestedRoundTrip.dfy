/**
  Writing and reading a forest in which a block may hold children in both ways at once: as XML children, which
  columns do, and as later blocks with a deeper indent (packages/core/src/doc/blockTree.ts).
 */
module NestedRoundTrip {
  import opened Common
  import opened Forest
  import opened Reader
  import opened ReaderTheorems
  import opened RoundTrip

  /** A block with the children stored inside its element and those stored after it with a deeper indent. */
  datatype Mixed = Mixed(id: string, kind: string, text: string, nested: seq<Mixed>, indented: seq<Mixed>)

  /** The forest it stands for: nested children come before indented ones. */
  function AsForest(f: seq<Mixed>): (r: seq<Tree>)
    ensures |r| == |f|
  {
    if f == [] then []
    else [Tree(f[0].id, f[0].kind, f[0].text, AsForest(f[0].nested) + AsForest(f[0].indented))] + AsForest(f[1..])
  }

  /**
    The blocks of one container: each level of indented children is one indent deeper, and nested children start
    afresh.
   */
  function Store(f: seq<Mixed>, level: nat): seq<NewBlock> {
    if f == [] then []
    else
      [NewBlock(f[0].id, f[0].kind, f[0].text, level, Store(f[0].nested, 0))]
      + Store(f[0].indented, level + 1)
      + Store(f[1..], level)
  }

  /** Every block has an id, no indent passes the cap, and no container in use lies deeper than the cap. */
  predicate Fits(f: seq<Mixed>, level: nat, base: nat) {
    f == [] ||
    (&& f[0].id != "" && level <= MAX_BLOCK_DEPTH
     && (f[0].nested != [] ==> base + level + 1 <= MAX_BLOCK_DEPTH)
     && Fits(f[0].nested, 0, base + level + 1)
     && Fits(f[0].indented, level + 1, base)
     && Fits(f[1..], level, base))
  }

  lemma {:induction false} PagesConcat(u: seq<NewBlock>, v: seq<NewBlock>)
    ensures SetPageBlocks(u + v) == SetPageBlocks(u) + SetPageBlocks(v)
  {
  }

  lemma {:induction false} PreorderConcat(f: seq<Tree>, g: seq<Tree>, depth: nat)
    ensures Preorder(f + g, depth) == Preorder(f, depth) + Preorder(g, depth)
    decreases f
  {
    if f == [] {
      assert f + g == g;
    } else {
      assert (f + g)[0] == f[0] && (f + g)[1..] == f[1..] + g;
      PreorderConcat(f[1..], g, depth);
    }
  }

  /** The listing of a forest, tree by tree and the two kinds of children apart. */
  lemma {:induction false} MixedPreorder(f: seq<Mixed>, depth: nat)
    requires f != []
    ensures Preorder(AsForest(f), depth)
         == [Label(f[0].id, f[0].kind, depth, f[0].text)]
          + Preorder(AsForest(f[0].nested), depth + 1) + Preorder(AsForest(f[0].indented), depth + 1)
          + Preorder(AsForest(f[1..]), depth)
  {
    hide Preorder, AsForest;
    AsForestUnfold(f);
    FirstTree(AsForest(f), depth);
    PreorderConcat(AsForest(f[0].nested), AsForest(f[0].indented), depth + 1);
  }

  lemma {:induction false} AsForestUnfold(f: seq<Mixed>)
    requires f != []
    ensures AsForest(f)[0] == Tree(f[0].id, f[0].kind, f[0].text, AsForest(f[0].nested) + AsForest(f[0].indented))
    ensures AsForest(f)[1..] == AsForest(f[1..])
  {
  }

  lemma {:induction false} FirstTree(f: seq<Tree>, depth: nat)
    requires f != []
    ensures Preorder(f, depth)
         == [RootLabel(f[0], depth)] + Preorder(f[0].children, depth + 1) + Preorder(f[1..], depth)
  {
  }

  // ----- reading piece by piece

  /** The level of the last block of a container read so far. */
  function LastRead(nodes: seq<Xml>, prev: int): (n: int)
    requires prev >= -1
    ensures n >= -1
  {
    if nodes == [] then prev
    else LastRead(nodes[1..], if IsBlock(nodes[0]) then Level(nodes[0], prev) else prev)
  }

  lemma {:induction false} LabelsConcat(u: seq<Xml>, v: seq<Xml>, base: nat, prev: int)
    requires prev >= -1
    ensures Labels(u + v, base, prev) == Labels(u, base, prev) + Labels(v, base, LastRead(u, prev))
    ensures LastRead(u + v, prev) == LastRead(v, LastRead(u, prev))
    decreases |u|
  {
    hide InlineText, Inside;
    if u == [] {
      assert u + v == v;
    } else {
      assert (u + v)[0] == u[0] && (u + v)[1..] == u[1..] + v;
      LabelsConcat(u[1..], v, base, if IsBlock(u[0]) then Level(u[0], prev) else prev);
    }
  }

  /** What is read of the stored blocks of one container at depth `base`, after a block at level `prev`. */
  function Read(f: seq<Mixed>, level: nat, base: nat, prev: int): seq<Label>
    requires prev >= -1
  {
    Labels(SetPageBlocks(Store(f, level)), base, prev)
  }

  function ReadTo(f: seq<Mixed>, level: nat, prev: int): (n: int)
    requires prev >= -1
    ensures n >= -1
  {
    LastRead(SetPageBlocks(Store(f, level)), prev)
  }

  /** The element a block is stored as. */
  function Head(m: Mixed, level: nat): (x: Xml)
    ensures x.Element?
  {
    BuildBlock(NewBlock(m.id, m.kind, m.text, level, Store(m.nested, 0)))
  }

  lemma {:induction false} StoreUnfold(f: seq<Mixed>, level: nat)
    requires f != []
    ensures SetPageBlocks(Store(f, level))
         == [Head(f[0], level)] + SetPageBlocks(Store(f[0].indented, level + 1)) + SetPageBlocks(Store(f[1..], level))
  {
    var h := NewBlock(f[0].id, f[0].kind, f[0].text, level, Store(f[0].nested, 0));
    var u, v := Store(f[0].indented, level + 1), Store(f[1..], level);
    assert Store(f, level) == [h] + u + v;
    PagesConcat([h] + u, v);
    PagesConcat([h], u);
    assert SetPageBlocks([h]) == [BuildBlock(h)];
  }

  /** The head's level as it is read, or `prev` when the head is no block. */
  function HeadLevel(m: Mixed, level: nat, prev: int): (n: int)
    requires prev >= -1
    ensures n >= -1
  {
    if m.id == "" then prev else Min(Min(level, MAX_BLOCK_DEPTH), prev + 1)
  }

  lemma {:induction false} ReadUnfold(f: seq<Mixed>, level: nat, base: nat, prev: int)
    requires f != [] && prev >= -1
    ensures var x, n := Head(f[0], level), HeadLevel(f[0], level, prev);
      var m := ReadTo(f[0].indented, level + 1, n);
      && Read(f, level, base, prev)
         == (if f[0].id == "" then []
             else [Label(f[0].id, f[0].kind, base + n, InlineText(x.children, 0))] + Inside(x, base + n))
          + Read(f[0].indented, level + 1, base, n) + Read(f[1..], level, base, m)
      && ReadTo(f, level, prev) == ReadTo(f[1..], level, m)
  {
    hide Store, SetPageBlocks, InlineText, Inside, Labels, LastRead, Head, HeadLevel;
    var x := Head(f[0], level);
    var u, v := SetPageBlocks(Store(f[0].indented, level + 1)), SetPageBlocks(Store(f[1..], level));
    StoreUnfold(f, level);
    LabelsConcat([x] + u, v, base, prev);
    LabelsConcat([x], u, base, prev);
    HeadIsRead(f[0], level, base, prev);
  }

  lemma {:induction false} HeadIsRead(m: Mixed, level: nat, base: nat, prev: int)
    requires prev >= -1
    ensures var x, n := Head(m, level), HeadLevel(m, level, prev);
      && Labels([x], base, prev)
         == (if m.id == "" then []
             else [Label(m.id, m.kind, base + n, InlineText(x.children, 0))] + Inside(x, base + n))
      && LastRead([x], prev) == n
  {
    hide Store, SetPageBlocks, InlineText, Inside;
    var x := Head(m, level);
    assert [x][1..] == [];
    assert Labels([], base, prev) == [];
  }

  // ----- how much is read

  function Size(f: seq<Mixed>): nat {
    if f == [] then 0 else 1 + Size(f[0].nested) + Size(f[0].indented) + Size(f[1..])
  }

  lemma {:induction false} SizeIs(f: seq<Mixed>, depth: nat)
    ensures |Preorder(AsForest(f), depth)| == Size(f)
    decreases f
  {
    if f != [] {
      hide Preorder, AsForest;
      MixedPreorder(f, depth);
      SizeIs(f[0].nested, depth + 1);
      SizeIs(f[0].indented, depth + 1);
      SizeIs(f[1..], depth);
    }
  }

  /** A text before the blocks of an element is not listed. */
  lemma {:induction false} HeadInside(m: Mixed, level: nat, depth: nat)
    ensures Inside(Head(m, level), depth)
         == if HoldsBlocks(Head(m, level)) && depth + 1 <= MAX_BLOCK_DEPTH then Read(m.nested, 0, depth + 1, -1) else []
  {
    hide Store, SetPageBlocks;
    var x, page := Head(m, level), SetPageBlocks(Store(m.nested, 0));
    if m.text != "" {
      assert x.children == [Text(m.text)] + page && x.children[1..] == page;
      TextIsSkipped(m.text, page, depth + 1);
    } else {
      assert x.children == page;
    }
  }

  lemma {:induction false} TextIsSkipped(t: string, page: seq<Xml>, base: nat)
    ensures Labels([Text(t)] + page, base, -1) == Labels(page, base, -1)
  {
    assert ([Text(t)] + page)[1..] == page;
  }

  /** Never more is read than was stored, and less when a block has no id. */
  lemma {:induction false} ReadIsNoLonger(f: seq<Mixed>, level: nat, base: nat, prev: int)
    requires prev >= -1
    ensures |Read(f, level, base, prev)| <= Size(f)
    decreases f
  {
    if f != [] {
      hide Read, ReadTo, Head, Inside, InlineText;
      ReadUnfold(f, level, base, prev);
      var n := HeadLevel(f[0], level, prev);
      ReadIsNoLonger(f[0].indented, level + 1, base, n);
      ReadIsNoLonger(f[1..], level, base, ReadTo(f[0].indented, level + 1, n));
      if f[0].id != "" {
        HeadInside(f[0], level, base + n);
        ReadIsNoLonger(f[0].nested, 0, base + n + 1, -1);
      }
    } else {
      assert Store(f, level) == [];
    }
  }

  // ----- the round trip

  lemma {:induction false} StoredText(f: seq<Mixed>, level: nat, base: nat)
    requires Fits(f, level, base)
    ensures InlineText(SetPageBlocks(Store(f, level)), 0) == ""
    ensures f != [] ==> HasBlockIn(SetPageBlocks(Store(f, level)))
  {
    hide SetPageBlocks, Store;
    StoredIds(f, level, base);
    var s := Store(f, level);
    BlockText(s);
    if f != [] {
      assert s[0] in s && SetPageBlocks(s)[0] in SetPageBlocks(s) && IsBlock(SetPageBlocks(s)[0]);
    }
  }

  lemma {:induction false} BlockText(s: seq<NewBlock>)
    requires forall n <- s :: n.id != ""
    ensures InlineText(SetPageBlocks(s), 0) == ""
  {
    if s != [] {
      BlockText(s[1..]);
      assert SetPageBlocks(s)[1..] == SetPageBlocks(s[1..]);
    }
  }

  lemma {:induction false} StoredIds(f: seq<Mixed>, level: nat, base: nat)
    requires Fits(f, level, base)
    ensures forall n <- Store(f, level) :: n.id != ""
    ensures f == [] <==> Store(f, level) == []
    decreases f
  {
    if f != [] {
      StoredIds(f[0].indented, level + 1, base);
      StoredIds(f[1..], level, base);
    }
  }

  /** The element of a block whose nested blocks have ids holds its text, and is read as a container when it must be. */
  lemma {:induction false} HeadText(m: Mixed, level: nat, base: nat)
    requires Fits(m.nested, 0, base)
    ensures InlineText(Head(m, level).children, 0) == m.text
    ensures m.nested != [] ==> HoldsBlocks(Head(m, level))
  {
    hide Store, SetPageBlocks, Fits;
    StoredText(m.nested, 0, base);
    var x, page := Head(m, level), SetPageBlocks(Store(m.nested, 0));
    if m.text != "" {
      assert x.children[1..] == page;
    } else {
      assert x.children == page;
    }
  }

  lemma {:induction false} NoneRead(level: nat, base: nat, prev: int)
    requires prev >= -1
    ensures Read([], level, base, prev) == [] && ReadTo([], level, prev) == prev
    ensures Preorder(AsForest([]), base) == []
  {
    assert Store([], level) == [];
  }

  /** The blocks nested in the first block are read as they are exactly when they fit. */
  lemma {:induction false} NestedIsRead(m: Mixed, level: nat, base: nat)
    requires var d := base + level + 1;
      Read(m.nested, 0, d, -1) == Preorder(AsForest(m.nested), d) <==> Fits(m.nested, 0, d)
    requires level <= MAX_BLOCK_DEPTH
    ensures Inside(Head(m, level), base + level) == Preorder(AsForest(m.nested), base + level + 1)
       <==> Fits(m.nested, 0, base + level + 1) && (m.nested != [] ==> base + level + 1 <= MAX_BLOCK_DEPTH)
  {
    hide Read, Head, Inside, Fits, Preorder, AsForest;
    HeadInside(m, level, base + level);
    SizeIs(m.nested, base + level + 1);
    if m.nested == [] {
      NoneRead(0, base + level + 1, -1);
    } else if Fits(m.nested, 0, base + level + 1) {
      HeadText(m, level, base + level + 1);
    }
  }

  /**
    Lists of four pieces, the last three of them no longer than their counterparts, are equal exactly when the
    pieces are.
   */
  lemma {:induction false} PiecesEqual<T>(
      h: T, a: seq<T>, b: seq<T>, c: seq<T>, h': T, a': seq<T>, b': seq<T>, c': seq<T>)
    requires |a| <= |a'| && |b| <= |b'| && |c| <= |c'|
    ensures [h] + a + b + c == [h'] + a' + b' + c' <==> h == h' && a == a' && b == b' && c == c'
  {
    var s, s' := [h] + a + b + c, [h'] + a' + b' + c';
    if s == s' {
      assert |s| == |s'|;
      assert h == s[0] && h' == s'[0];
      assert a == s[1..1 + |a|] && a' == s'[1..1 + |a|];
      assert b == s[1 + |a|..1 + |a| + |b|] && b' == s'[1 + |a|..1 + |a| + |b|];
      assert c == s[1 + |a| + |b|..] && c' == s'[1 + |a| + |b|..];
    }
  }

  /** A first block without an id is not listed, and one beyond the cap is listed higher. */
  lemma {:induction false} HeadIsLost(f: seq<Mixed>, level: nat, base: nat, prev: int)
    requires f != [] && prev >= -1 && (f[0].id == "" || level > MAX_BLOCK_DEPTH)
    ensures Read(f, level, base, prev) != Preorder(AsForest(f), base + level)
  {
    hide Read, ReadTo, Head, Inside, InlineText, Preorder, AsForest;
    var n := HeadLevel(f[0], level, prev);
    ReadUnfold(f, level, base, prev);
    if f[0].id == "" {
      ReadIsNoLonger(f[0].indented, level + 1, base, n);
      ReadIsNoLonger(f[1..], level, base, ReadTo(f[0].indented, level + 1, n));
      SizeIs(f, base + level);
    } else {
      MixedPreorder(f, base + level);
      assert Read(f, level, base, prev)[0].depth == base + n;
    }
  }

  /** What is read is the listing of the forest exactly when each of its pieces is. */
  lemma {:induction false} PiecesOfRead(f: seq<Mixed>, level: nat, base: nat, prev: int)
    requires f != [] && prev >= -1 && level <= prev + 1 && f[0].id != "" && level <= MAX_BLOCK_DEPTH
    ensures var t, x, d := f[0], Head(f[0], level), base + level;
      Read(f, level, base, prev) == Preorder(AsForest(f), d)
        <==>
          && InlineText(x.children, 0) == t.text
          && Inside(x, d) == Preorder(AsForest(t.nested), d + 1)
          && Read(t.indented, level + 1, base, level) == Preorder(AsForest(t.indented), d + 1)
          && Read(f[1..], level, base, ReadTo(t.indented, level + 1, level)) == Preorder(AsForest(f[1..]), d)
  {
    hide Read, ReadTo, Head, Inside, InlineText, Preorder, AsForest;
    var t, x, d, m := f[0], Head(f[0], level), base + level, ReadTo(f[0].indented, level + 1, level);
    ReadUnfold(f, level, base, prev);
    MixedPreorder(f, d);
    HeadInside(t, level, d);
    ReadIsNoLonger(t.nested, 0, d + 1, -1);
    ReadIsNoLonger(t.indented, level + 1, base, level);
    ReadIsNoLonger(f[1..], level, base, m);
    SizeIs(t.nested, d + 1);
    SizeIs(t.indented, d + 1);
    SizeIs(f[1..], d);
    PiecesEqual(Label(t.id, t.kind, d, InlineText(x.children, 0)), Inside(x, d),
      Read(t.indented, level + 1, base, level), Read(f[1..], level, base, m),
      Label(t.id, t.kind, d, t.text), Preorder(AsForest(t.nested), d + 1),
      Preorder(AsForest(t.indented), d + 1), Preorder(AsForest(f[1..]), d));
  }

  /** Stored blocks are read as the forest they stand for exactly when they fit. */
  lemma {:induction false} MixedReadsBackIff(f: seq<Mixed>, level: nat, base: nat, prev: int)
    requires prev >= -1 && level <= prev + 1
    ensures Read(f, level, base, prev) == Preorder(AsForest(f), base + level) <==> Fits(f, level, base)
    ensures Fits(f, level, base) ==> level <= ReadTo(f, level, prev) + 1
    decreases f
  {
    hide Read, ReadTo, Head, Inside, InlineText, Preorder, AsForest;
    if f == [] {
      NoneRead(level, base + level, prev);
      NoneRead(level, base, prev);
    } else if f[0].id == "" || level > MAX_BLOCK_DEPTH {
      HeadIsLost(f, level, base, prev);
    } else {
      var t, m := f[0], ReadTo(f[0].indented, level + 1, level);
      ReadUnfold(f, level, base, prev);
      PiecesOfRead(f, level, base, prev);
      MixedReadsBackIff(t.nested, 0, base + level + 1, -1);
      NestedIsRead(t, level, base);
      MixedReadsBackIff(t.indented, level + 1, base, level);
      if Fits(t.indented, level + 1, base) {
        MixedReadsBackIff(f[1..], level, base, m);
      }
      if Fits(t.nested, 0, base + level + 1) {
        HeadText(t, level, base + level + 1);
      }
    }
  }

  // ----- warnings

  lemma {:induction false} WarningsConcat(u: seq<Xml>, v: seq<Xml>, base: nat, prev: int)
    requires prev >= -1
    ensures LabelWarnings(u + v, base, prev) == LabelWarnings(u, base, prev) + LabelWarnings(v, base, LastRead(u, prev))
    decreases |u|
  {
    hide InsideWarnings, Blank;
    if u == [] {
      assert u + v == v;
    } else {
      assert (u + v)[0] == u[0] && (u + v)[1..] == u[1..] + v;
      WarningsConcat(u[1..], v, base, if IsBlock(u[0]) then Level(u[0], prev) else prev);
    }
  }

  ghost predicate NoneClamped(warnings: seq<Warning>) {
    forall w <- warnings :: !w.IndentClamped?
  }

  function Warned(f: seq<Mixed>, level: nat, base: nat, prev: int): seq<Warning>
    requires prev >= -1
  {
    LabelWarnings(SetPageBlocks(Store(f, level)), base, prev)
  }

  lemma {:induction false} WarnedUnfold(f: seq<Mixed>, level: nat, base: nat, prev: int)
    requires f != [] && prev >= -1 && level <= prev + 1 && level <= MAX_BLOCK_DEPTH && f[0].id != ""
    ensures Warned(f, level, base, prev)
         == InsideWarnings(Head(f[0], level), base + level) + Warned(f[0].indented, level + 1, base, level)
          + Warned(f[1..], level, base, ReadTo(f[0].indented, level + 1, level))
  {
    hide Store, SetPageBlocks, InsideWarnings, LabelWarnings, Labels, LastRead, Head;
    var x := Head(f[0], level);
    var u, v := SetPageBlocks(Store(f[0].indented, level + 1)), SetPageBlocks(Store(f[1..], level));
    StoreUnfold(f, level);
    HeadIsRead(f[0], level, base, prev);
    LabelsConcat([x], u, base, prev);
    WarningsConcat([x] + u, v, base, prev);
    WarningsConcat([x], u, base, prev);
    HeadWarns(f[0], level, base, prev);
  }

  lemma {:induction false} HeadWarns(m: Mixed, level: nat, base: nat, prev: int)
    requires prev >= -1 && level <= prev + 1 && level <= MAX_BLOCK_DEPTH && m.id != ""
    ensures LabelWarnings([Head(m, level)], base, prev) == InsideWarnings(Head(m, level), base + level)
  {
    hide Store, SetPageBlocks, InsideWarnings;
    var x := Head(m, level);
    assert [x][1..] == [] && LabelWarnings([], base, level) == [];
  }

  lemma {:induction false} HeadIsSilent(m: Mixed, level: nat, depth: nat)
    requires depth + 1 <= MAX_BLOCK_DEPTH ==> NoneClamped(Warned(m.nested, 0, depth + 1, -1))
    ensures NoneClamped(InsideWarnings(Head(m, level), depth))
  {
    hide Store, SetPageBlocks, HoldsBlocks, Blank;
    var x, page := Head(m, level), SetPageBlocks(Store(m.nested, 0));
    if m.text != "" {
      assert x.children == [Text(m.text)] + page;
      WarningsConcat([Text(m.text)], page, depth + 1, -1);
      assert [Text(m.text)][1..] == [];
      assert LastRead([Text(m.text)], -1) == LastRead([], -1) == -1;
      assert LabelWarnings([Text(m.text)], depth + 1, -1)
          == (if Blank(m.text) then [] else [LooseText]) + LabelWarnings([], depth + 1, -1);
    } else {
      assert x.children == page;
    }
  }

  lemma {:induction false} FittingIsSilent(f: seq<Mixed>, level: nat, base: nat, prev: int)
    requires prev >= -1 && level <= prev + 1 && Fits(f, level, base)
    ensures NoneClamped(Warned(f, level, base, prev))
    decreases f
  {
    hide Read, ReadTo, Head, InsideWarnings, Warned, Preorder, AsForest;
    if f == [] {
      NoneWarned(level, base, prev);
    } else {
      WarnedUnfold(f, level, base, prev);
      FittingIsSilent(f[0].nested, 0, base + level + 1, -1);
      HeadIsSilent(f[0], level, base + level);
      FittingIsSilent(f[0].indented, level + 1, base, level);
      MixedReadsBackIff(f[0].indented, level + 1, base, level);
      FittingIsSilent(f[1..], level, base, ReadTo(f[0].indented, level + 1, level));
    }
  }

  lemma {:induction false} NoneWarned(level: nat, base: nat, prev: int)
    requires prev >= -1
    ensures Warned([], level, base, prev) == []
  {
    assert Store([], level) == [];
  }

  // ----- the whole page

  /**
    A page is read back as the forest it stands for exactly when it fits: every block has an id, no indent passes
    the cap and no block that holds XML children is at the cap or beyond. Then no indent is clamped, and the listing
    regrows to the same forest.
   */
  lemma {:induction false} MixedForestRoundTripIff(f: seq<Mixed>)
    ensures var page := SetPageBlocks(Store(f, 0));
      && (Container(page, 0) == Preorder(AsForest(f), 0) <==> Fits(f, 0, 0))
      && (Fits(f, 0, 0) ==>
            Regrow(Container(page, 0), 0) == (AsForest(f), []) && NoneClamped(ContainerWarnings(page, 0)))
  {
    hide Store, SetPageBlocks, Preorder, AsForest, Fits, Labels, LabelWarnings, Regrow, NoneClamped;
    MixedReadsBackIff(f, 0, 0, -1);
    if Fits(f, 0, 0) {
      FittingIsSilent(f, 0, 0, -1);
      RegrowPreorder(AsForest(f), 0, []);
      assert Preorder(AsForest(f), 0) + [] == Preorder(AsForest(f), 0);
    }
  }

  /** A forest whose blocks have ids and lie no deeper than the cap fits, whichever way each child is stored. */
  lemma {:induction false} ShallowFits(f: seq<Mixed>, level: nat, base: nat)
    requires forall l <- Preorder(AsForest(f), base + level) :: l.id != "" && l.depth <= MAX_BLOCK_DEPTH
    ensures Fits(f, level, base)
    decreases f
  {
    hide Preorder, AsForest;
    if f != [] {
      var d := base + level;
      var x, y := Preorder(AsForest(f[0].nested), d + 1), Preorder(AsForest(f[0].indented), d + 1);
      var z := Preorder(AsForest(f[1..]), d);
      MixedPreorder(f, d);
      var head := Label(f[0].id, f[0].kind, d, f[0].text);
      assert head in [head] && Preorder(AsForest(f), d) == [head] + x + y + z;
      assert head in Preorder(AsForest(f), d);
      ShallowFits(f[0].nested, 0, d + 1);
      ShallowFits(f[0].indented, level + 1, base);
      ShallowFits(f[1..], level, base);
      if f[0].nested != [] {
        MixedPreorder(f[0].nested, d + 1);
        assert x[0].depth == d + 1 && x[0] in Preorder(AsForest(f), d);
      }
    }
  }

  /** The parents reported for such a page are the forest's, whichever way each child was stored. */
  lemma {:induction false} MixedForestParents(f: seq<Mixed>, b: seq<TreeBlock>)
    requires Fits(f, 0, 0)
    requires LabelsOf(b) == Container(SetPageBlocks(Store(f, 0)), 0) && Linked(b)
    ensures |b| == |PreorderParents(AsForest(f), None)|
    ensures forall k :: 0 <= k < |b| ==> b[k].parentId == PreorderParents(AsForest(f), None)[k]
  {
    hide Container, Preorder, PreorderParents, Store, SetPageBlocks, AsForest, Regrow, Linked, Fits;
    MixedForestRoundTripIff(f);
    ListedForestParents(AsForest(f), b);
  }
}
