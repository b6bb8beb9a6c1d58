/**
  The text the reader reports for a block (packages/core/src/doc/blockTree.ts, `inlineText`), said of what
  the block holds: runs of text, mentions, other inline elements, things that are neither, and blocks.
 */
module ReaderText {
  import opened Common
  import opened Reader
  import opened NestedRoundTrip

  /** One piece of a block's content. */
  datatype Piece =
    | Said(text: string)
    | Mentioned(name: string)
    | Wrapped(kind: string, inner: seq<Piece>)
    | Inner(block: Xml)
    | Mute

  /** The nodes the pieces are stored as. */
  function Written(p: seq<Piece>): (r: seq<Xml>)
    ensures |r| == |p|
  {
    if p == [] then []
    else
      [match p[0]
       case Said(text) => Text(text)
       case Mentioned(name) => Element("mention", "", Missing, name, [])
       case Wrapped(kind, inner) => Element(kind, "", Missing, "", Written(inner))
       case Inner(block) => block
       case Mute => Other]
      + Written(p[1..])
  }

  /** What the pieces say: text as it is, a mention as its name after an `@`, and nothing for blocks. */
  function Spoken(p: seq<Piece>): string {
    if p == [] then ""
    else
      (match p[0]
       case Said(text) => text
       case Mentioned(name) => "@" + name
       case Wrapped(_, inner) => Spoken(inner)
       case Inner(_) => ""
       case Mute => "")
      + Spoken(p[1..])
  }

  /** How deep inline elements nest. */
  function Nesting(p: seq<Piece>): nat {
    if p == [] then 0
    else if p[0].Wrapped? then Max(1 + Nesting(p[0].inner), Nesting(p[1..]))
    else Nesting(p[1..])
  }

  /** A block has an id, and what wraps text is neither a block nor a mention. */
  predicate Proper(p: seq<Piece>) {
    p == [] ||
    (&& (p[0].Inner? ==> IsBlock(p[0].block))
     && (p[0].Wrapped? ==> p[0].kind != "mention" && Proper(p[0].inner))
     && Proper(p[1..]))
  }

  lemma {:induction false} TextIsSpoken(p: seq<Piece>, nesting: nat)
    requires Proper(p) && nesting + Nesting(p) <= 32
    ensures InlineText(Written(p), nesting) == Spoken(p)
    decreases p
  {
    if p != [] {
      assert Written(p)[1..] == Written(p[1..]);
      TextIsSpoken(p[1..], nesting);
      if p[0].Wrapped? {
        TextIsSpoken(p[0].inner, nesting + 1);
      }
    }
  }

  /**
    Wherever a block stands in its container, it is listed there with the text its pieces say, as long as inline
    elements nest within the cap.
   */
  lemma {:induction false} BlockSays(
      u: seq<Xml>, kind: string, id: string, indent: IndentAttr, p: seq<Piece>, v: seq<Xml>, base: nat)
    requires id != "" && Proper(p) && Nesting(p) <= 32
    ensures var l, at := Labels(u + [Element(kind, id, indent, "", Written(p))] + v, base, -1), |Labels(u, base, -1)|;
      at < |l| && l[at].id == id && l[at].kind == kind && l[at].text == Spoken(p)
  {
    hide Written, Spoken, Nesting, Proper, InlineText, Inside;
    var x := Element(kind, id, indent, "", Written(p));
    TextIsSpoken(p, 0);
    LabelsConcat(u + [x], v, base, -1);
    LabelsConcat(u, [x], base, -1);
    FirstLabel(x, base, LastRead(u, -1));
  }

  lemma {:induction false} FirstLabel(x: Xml, base: nat, prev: int)
    requires IsBlock(x) && prev >= -1
    ensures var l := Labels([x], base, prev);
      l != [] && l[0] == Label(x.id, x.kind, base + Level(x, prev), InlineText(x.children, 0))
  {
    hide InlineText, Inside;
  }
}
