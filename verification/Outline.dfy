/**
  The editor's subtree commands over a flat run of blocks (packages/editor/src/blockOps.ts).

  A parent node is the sequence of its children and a command is applied at an index.
  Every command has an executable method with the source's loops, a function that says
  what the resulting sequence is, and theorems that say which edit of the forest it is.
 */
module Outline {
  import opened Common
  import opened Forest

  datatype Node = Node(id: Option<string>, kind: string, indent: nat, collapsed: bool, content: string)

  datatype BlockRange = BlockRange(index: nat, endIndex: nat, indent: nat)

  /** A moved subtree: the new sequence and where the moved block now is. */
  datatype Moved = Moved(doc: seq<Node>, index: nat)

  function Levels(s: seq<Node>): (d: seq<nat>)
    ensures |d| == |s| && forall k :: 0 <= k < |s| ==> d[k] == s[k].indent
  {
    seq(|s|, k requires 0 <= k < |s| => s[k].indent)
  }

  /** What a well-formed run of blocks is: stepped, and no deeper than the reader's cap. */
  ghost predicate WellFormed(s: seq<Node>) {
    Stepped(Levels(s)) && Capped(s)
  }

  ghost predicate Capped(s: seq<Node>) {
    forall k :: 0 <= k < |s| ==> s[k].indent <= MAX_BLOCK_DEPTH
  }

  // ----- what the commands produce

  function Shifted(n: Node, delta: int): Node {
    n.(indent := Max(0, n.indent + delta))
  }

  /** `s` with the levels of `lo..hi` shifted. */
  function ShiftRun(s: seq<Node>, lo: nat, hi: nat, delta: int): (r: seq<Node>)
    requires lo <= hi <= |s|
    ensures |r| == |s|
  {
    seq(|s|, k requires 0 <= k < |s| => if lo <= k < hi then Shifted(s[k], delta) else s[k])
  }

  /** `s` with the adjacent pieces `a..b` and `b..c` exchanged. */
  function Exchange<T>(s: seq<T>, a: nat, b: nat, c: nat): (r: seq<T>)
    requires a <= b <= c <= |s|
    ensures |r| == |s|
  {
    s[..a] + s[b..c] + s[a..b] + s[c..]
  }

  function Indented(s: seq<Node>, i: nat): Option<seq<Node>>
    requires i < |s|
  {
    if i == 0 || s[i].indent > s[i - 1].indent then None
    else Some(ShiftRun(s, i, RunEnd(Levels(s), i), 1))
  }

  function Outdented(s: seq<Node>, i: nat): Option<seq<Node>>
    requires i < |s|
  {
    if s[i].indent == 0 then None
    else Some(ShiftRun(s, i, RunEnd(Levels(s), i), -1))
  }

  /** The start of the run before `i`: the nearest earlier block at most as deep, or the first block. */
  function PrecedingRun(s: seq<Node>, i: nat): (q: nat)
    requires 0 < i < |s|
    ensures q < i
  {
    Max(0, Shallower(Levels(s), i, s[i].indent + 1))
  }

  function MovedUp(s: seq<Node>, i: nat): Option<Moved>
    requires i < |s|
  {
    if i == 0 then None else
    var q := PrecedingRun(s, i);
    if s[q].indent != s[i].indent then None
    else Some(Moved(Exchange(s, q, i, RunEnd(Levels(s), i)), q))
  }

  function MovedDown(s: seq<Node>, i: nat): Option<Moved>
    requires i < |s|
  {
    var e := RunEnd(Levels(s), i);
    if e == |s| || s[e].indent != s[i].indent then None
    else var f := RunEnd(Levels(s), e);
         Some(Moved(Exchange(s, i, e, f), i + (f - e)))
  }

  function Anonymous(s: seq<Node>): (r: seq<Node>)
    ensures |r| == |s|
  {
    seq(|s|, k requires 0 <= k < |s| => s[k].(id := None))
  }

  /** `s` with an anonymous copy of `i..e` inserted at `e`. */
  function Spliced(s: seq<Node>, i: nat, e: nat): (r: seq<Node>)
    requires i <= e <= |s|
    ensures |r| == |s| + (e - i)
  {
    s[..e] + Anonymous(s[i..e]) + s[e..]
  }

  function Duplicated(s: seq<Node>, i: nat): seq<Node>
    requires i < |s|
  {
    Spliced(s, i, RunEnd(Levels(s), i))
  }

  /** The block the schema creates by default. */
  const EMPTY_PARAGRAPH: Node := Node(None, "paragraph", 0, false, "")

  function Deleted(s: seq<Node>, i: nat): seq<Node>
    requires i < |s|
  {
    var e := RunEnd(Levels(s), i);
    if e - i >= |s| then [EMPTY_PARAGRAPH] else s[..i] + s[e..]
  }

  // ----- the commands, with the source's loops

  method BlockRangeAt(s: seq<Node>, index: int) returns (r: Option<BlockRange>)
    ensures r.None? <==> !(0 <= index < |s|)
    ensures 0 <= index < |s| ==> r == Some(BlockRange(index, RunEnd(Levels(s), index), s[index].indent))
  {
    if index < 0 || index >= |s| {
      return None;
    }
    var indent := s[index].indent;
    var endIndex := index + 1;
    while endIndex < |s|
      invariant index < endIndex <= |s|
      invariant RunEndFrom(Levels(s), index, index + 1) == RunEndFrom(Levels(s), index, endIndex)
    {
      if s[endIndex].indent <= indent {
        break;
      }
      endIndex := endIndex + 1;
    }
    return Some(BlockRange(index, endIndex, indent));
  }

  method ShiftIndents(s: seq<Node>, range: BlockRange, delta: int) returns (result: seq<Node>)
    requires range.index <= range.endIndex <= |s|
    ensures result == ShiftRun(s, range.index, range.endIndex, delta)[range.index..range.endIndex]
  {
    result := [];
    var i := range.index;
    while i < range.endIndex
      invariant range.index <= i <= range.endIndex
      invariant result == ShiftRun(s, range.index, range.endIndex, delta)[range.index..i]
    {
      var next := Max(0, s[i].indent + delta);
      result := result + [s[i].(indent := next)];
      i := i + 1;
    }
  }

  method IndentBlockSubtree(s: seq<Node>, index: int) returns (r: Option<seq<Node>>)
    ensures r == if 0 <= index < |s| then Indented(s, index) else None
  {
    var range := BlockRangeAt(s, index);
    if range.None? || range.value.index == 0 {
      return None;
    }
    var previousIndent := s[index - 1].indent;
    if range.value.indent > previousIndent {
      return None;
    }
    var shifted := ShiftIndents(s, range.value, 1);
    r := Some(s[..range.value.index] + shifted + s[range.value.endIndex..]);
    assert r.value == Indented(s, index).value;
  }

  method OutdentBlockSubtree(s: seq<Node>, index: int) returns (r: Option<seq<Node>>)
    ensures r == if 0 <= index < |s| then Outdented(s, index) else None
  {
    var range := BlockRangeAt(s, index);
    if range.None? || range.value.indent == 0 {
      return None;
    }
    var shifted := ShiftIndents(s, range.value, -1);
    r := Some(s[..range.value.index] + shifted + s[range.value.endIndex..]);
    assert r.value == Outdented(s, index).value;
  }

  method MoveBlockUp(s: seq<Node>, index: int) returns (r: Option<Moved>)
    ensures r == if 0 <= index < |s| then MovedUp(s, index) else None
  {
    var range := BlockRangeAt(s, index);
    if range.None? || range.value.index == 0 {
      return None;
    }
    var previousIndex := index - 1;
    while previousIndex > 0
      invariant 0 <= previousIndex < index
      invariant Shallower(Levels(s), index, s[index].indent + 1)
          == Shallower(Levels(s), previousIndex + 1, s[index].indent + 1)
    {
      if s[previousIndex].indent <= range.value.indent {
        break;
      }
      previousIndex := previousIndex - 1;
    }
    assert previousIndex == PrecedingRun(s, index);
    var previous := BlockRangeAt(s, previousIndex);
    if previous.None? || previous.value.indent != range.value.indent {
      return None;
    }
    assert previous.value.endIndex == index;
    var moving := s[range.value.index..range.value.endIndex];
    var displaced := s[previous.value.index..previous.value.endIndex];
    r := Some(Moved(s[..previousIndex] + moving + displaced + s[range.value.endIndex..], previousIndex));
  }

  method MoveBlockDown(s: seq<Node>, index: int) returns (r: Option<Moved>)
    ensures r == if 0 <= index < |s| then MovedDown(s, index) else None
  {
    var range := BlockRangeAt(s, index);
    if range.None? || range.value.endIndex >= |s| {
      return None;
    }
    var next := BlockRangeAt(s, range.value.endIndex);
    if next.None? || next.value.indent != range.value.indent {
      return None;
    }
    var moving := s[range.value.index..range.value.endIndex];
    var displaced := s[next.value.index..next.value.endIndex];
    r := Some(Moved(s[..index] + displaced + moving + s[next.value.endIndex..], index + |displaced|));
  }

  method DuplicateBlockSubtree(s: seq<Node>, index: int) returns (r: Option<seq<Node>>)
    ensures r == if 0 <= index < |s| then Some(Duplicated(s, index)) else None
  {
    var range := BlockRangeAt(s, index);
    if range.None? {
      return None;
    }
    var copies: seq<Node> := [];
    var i := range.value.index;
    while i < range.value.endIndex
      invariant range.value.index <= i <= range.value.endIndex
      invariant copies == Anonymous(s[range.value.index..range.value.endIndex])[..i - range.value.index]
    {
      copies := copies + [s[i].(id := None)];
      i := i + 1;
    }
    assert copies == Anonymous(s[range.value.index..range.value.endIndex]);
    r := Some(s[..range.value.endIndex] + copies + s[range.value.endIndex..]);
  }

  method DeleteBlockSubtree(s: seq<Node>, index: int) returns (r: Option<seq<Node>>)
    ensures r == if 0 <= index < |s| then Some(Deleted(s, index)) else None
  {
    var range := BlockRangeAt(s, index);
    if range.None? {
      return None;
    }
    var removing := range.value.endIndex - range.value.index;
    if removing >= |s| {
      return Some([EMPTY_PARAGRAPH]);
    }
    return Some(s[..range.value.index] + s[range.value.endIndex..]);
  }
}
