/**
  What the reader does with a document that is not as it should be (packages/core/src/doc/blockTree.ts): which
  indents it does not take as they are, what it skips, and that it says so.
 */
module ReaderWarnings {
  import opened Common
  import opened Reader
  import opened ReaderTheorems
  import opened NestedRoundTrip
  import Outline

  /** An indent that is missing, unreadable or negative is none, and one beyond the cap is the cap. */
  lemma {:induction false} OddIndents(x: Xml, prev: int)
    requires IsBlock(x) && prev >= -1
    ensures x.indent in {Missing, Unparsable} ==> Level(x, prev) == 0
    ensures x.indent.Parsed? && x.indent.value < 0 ==> Level(x, prev) == 0
    ensures x.indent.Parsed? && 0 <= x.indent.value <= 32 ==> Level(x, prev) == Min(x.indent.value, prev + 1)
    ensures x.indent.Parsed? && x.indent.value > 32 ==> Level(x, prev) == Min(32, prev + 1)
  {
  }

  /** Stray text and elements without a block id are not listed, and each is reported unless it is blank text. */
  lemma {:induction false} StrayIsReported(u: seq<Xml>, x: Xml, v: seq<Xml>, base: nat)
    requires !IsBlock(x)
    ensures Labels(u + [x] + v, base, -1) == Labels(u + v, base, -1)
    ensures var own := if x.Text? then (if Blank(x.text) then [] else [LooseText])
        else if x.Element? then [NoBlockId(x.kind)] else [];
      LabelWarnings(u + [x] + v, base, -1)
        == LabelWarnings(u, base, -1) + own + LabelWarnings(v, base, LastRead(u, -1))
  {
    hide Labels, Blank, LabelWarnings, LastRead;
    var p := LastRead(u, -1);
    LabelsConcat(u + [x], v, base, -1);
    LabelsConcat(u, [x], base, -1);
    LabelsConcat(u, v, base, -1);
    WarningsConcat(u + [x], v, base, -1);
    WarningsConcat(u, [x], base, -1);
    StrayAlone(x, base, p);
  }

  lemma {:induction false} StrayAlone(x: Xml, base: nat, prev: int)
    requires !IsBlock(x) && prev >= -1
    ensures Labels([x], base, prev) == [] && LastRead([x], prev) == prev
    ensures LabelWarnings([x], base, prev)
         == if x.Text? then (if Blank(x.text) then [] else [LooseText]) else if x.Element? then [NoBlockId(x.kind)]
           else []
  {
    hide Blank;
    assert [x][1..] == [];
    assert LabelWarnings([x][1..], base, prev) == [] && Labels([x][1..], base, prev) == [];
  }

  /** A container deeper than 32 is not read, and that is reported once; at 32 it is read. */
  lemma {:induction false} DeepContainers(nodes: seq<Xml>, base: nat)
    ensures base > 32 ==> Container(nodes, base) == [] && ContainerWarnings(nodes, base) == [TooDeep]
    ensures base <= 32 ==> Container(nodes, base) == Labels(nodes, base, -1)
    ensures base <= 32 ==> ContainerWarnings(nodes, base) == LabelWarnings(nodes, base, -1)
  {
  }

  /** Columns are read as containers even when they hold no block. */
  lemma {:induction false} ColumnsAreRead(kind: string, id: string, indent: IndentAttr, nodes: seq<Xml>, depth: nat)
    ensures var x := Element(kind, id, indent, "", nodes);
      && (kind == "columns" || kind == "column" || HasBlockIn(nodes) ==>
            Inside(x, depth) == Container(nodes, depth + 1)
            && InsideWarnings(x, depth) == ContainerWarnings(nodes, depth + 1))
      && (kind != "columns" && kind != "column" && !HasBlockIn(nodes) ==>
            Inside(x, depth) == [] && InsideWarnings(x, depth) == [])
  {
  }

  // ----- clamped indents

  /** Block `k` is read at `d[k]`, below its indent, and the warning says so. */
  ghost predicate ClampedAt(s: seq<Outline.Node>, d: seq<nat>, k: nat, w: Warning)
    requires Identified(s) && k < |s| == |d|
  {
    d[k] < Min(s[k].indent, 32) && w == IndentClamped(s[k].id.value, Min(s[k].indent, 32), d[k])
  }

  ghost predicate SomeClamped(s: seq<Outline.Node>, d: seq<nat>, w: Warning)
    requires Identified(s) && |s| == |d|
  {
    exists k :: 0 <= k < |s| && ClampedAt(s, d, k, w)
  }

  lemma {:induction false} ClampsFrom(s: seq<Outline.Node>, prev: int, w: Warning)
    requires Identified(s) && prev >= -1 && w.IndentClamped?
    ensures w in LabelWarnings(AsPage(s), 0, prev) <==> SomeClamped(s, ReadLevels(s, prev), w)
    decreases |s|
  {
    if s != [] {
      hide InsideWarnings, LabelWarnings, SomeClamped;
      var x, tail := AsElement(s[0]), s[1..];
      var d := ReadLevels(s, prev);
      assert AsPage(s)[0] == x && AsPage(s)[1..] == AsPage(tail);
      LeafIsSilent(s[0], d[0]);
      HeadWarnings(s, prev);
      ClampsFrom(tail, d[0], w);
      assert d[1..] == ReadLevels(tail, d[0]);
      var here := ClampedAt(s, d, 0, w);
      assert w in LabelWarnings(AsPage(s), 0, prev) <==> here || w in LabelWarnings(AsPage(tail), 0, d[0]);
      ClampsApart(s, d, w);
    }
  }

  /** A clamped block is the first one or one of the rest. */
  lemma {:induction false} ClampsApart(s: seq<Outline.Node>, d: seq<nat>, w: Warning)
    requires Identified(s) && |s| == |d| > 0
    ensures SomeClamped(s, d, w) <==> ClampedAt(s, d, 0, w) || SomeClamped(s[1..], d[1..], w)
  {
    if k :| 0 <= k < |s| && ClampedAt(s, d, k, w) {
      assert k > 0 ==> ClampedAt(s[1..], d[1..], k - 1, w);
    }
    if k :| 0 <= k < |s| - 1 && ClampedAt(s[1..], d[1..], k, w) {
      assert ClampedAt(s, d, k + 1, w);
    }
  }

  lemma {:induction false} HeadWarnings(s: seq<Outline.Node>, prev: int)
    requires Identified(s) && prev >= -1 && s != []
    ensures var x, d, raw := AsElement(s[0]), ReadLevels(s, prev)[0], Min(s[0].indent, 32);
      LabelWarnings(AsPage(s), 0, prev)
        == (if d == raw then [] else [IndentClamped(s[0].id.value, raw, d)]) + InsideWarnings(x, d)
         + LabelWarnings(AsPage(s[1..]), 0, d)
  {
    hide InsideWarnings;
    assert AsPage(s)[0] == AsElement(s[0]) && AsPage(s)[1..] == AsPage(s[1..]);
  }

  /** Exactly the blocks that are read at another level than their indent are reported, each with both. */
  lemma {:induction false} ClampedAreReported(s: seq<Outline.Node>, w: Warning)
    requires Identified(s) && w.IndentClamped?
    ensures w in ContainerWarnings(AsPage(s), 0)
       <==> exists k :: 0 <= k < |s| && ClampedAt(s, ReadLevels(s, -1), k, w)
  {
    hide LabelWarnings, ReadLevels, ClampedAt;
    ClampsFrom(s, -1, w);
  }
}
