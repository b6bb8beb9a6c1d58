/**
  List numbering in one pass over a document's blocks in document order (packages/editor/src/listNumbers.ts).
  Entering a column starts every count afresh; nothing else divides the blocks.

  A hole that JavaScript leaves when an array is lengthened reads as `undefined`, and the source
  reads `undefined` as 0; holes are 0 here, which the source never stores.
 */
module Numbering {
  import opened Common
  import opened Forest
  import opened Outline

  datatype NumberedItem = NumberedItem(pos: nat, indent: nat, number: nat)

  predicate IsNumbered(n: Node) {
    n.kind == "numberedList"
  }

  /** Assigning an array's `length`. */
  function Resized(a: seq<nat>, n: nat): (r: seq<nat>)
    ensures |r| == n
    ensures forall k :: 0 <= k < n ==> r[k] == At(a, k)
  {
    seq(n, k requires 0 <= k < n => At(a, k))
  }

  function At(a: seq<nat>, k: nat): nat {
    if k < |a| then a[k] else 0
  }

  /** How many numbered items the run at `level` that is open before `i` has so far. */
  function Running(s: seq<Node>, i: nat, level: nat): nat
    requires i <= |s|
    decreases i, 0
  {
    var q := Shallower(Levels(s), i, level + 1);
    if q >= 0 && s[q].indent == level && IsNumbered(s[q]) then Number(s, q) else 0
  }

  function Number(s: seq<Node>, i: nat): nat
    requires i < |s|
    decreases i, 1
  {
    Running(s, i, s[i].indent) + 1
  }

  predicate IsColumn(n: Node) {
    n.kind == "column"
  }

  /** Where the blocks after the last column before `i` start. */
  function Since(s: seq<Node>, i: nat): (c: nat)
    requires i <= |s|
    ensures c <= i && (forall k :: c <= k < i ==> !IsColumn(s[k])) && (c > 0 ==> IsColumn(s[c - 1]))
  {
    if i == 0 then 0 else if IsColumn(s[i - 1]) then i else Since(s, i - 1)
  }

  /** The number of a block among the blocks since the last column. */
  function NumberHere(s: seq<Node>, i: nat): nat
    requires i < |s|
  {
    Number(s[Since(s, i)..], i - Since(s, i))
  }

  /** The numbered items among the first `n` blocks. */
  function ItemsTo(s: seq<Node>, n: nat): seq<NumberedItem>
    requires n <= |s|
  {
    if n == 0 then []
    else
      ItemsTo(s, n - 1)
      + if IsNumbered(s[n - 1]) then [NumberedItem(n - 1, s[n - 1].indent, NumberHere(s, n - 1))] else []
  }

  /** Every level's counter is the length of the run open at that level. */
  ghost predicate Counts(counters: seq<nat>, s: seq<Node>, i: nat)
    requires i <= |s|
  {
    CountsIn(counters, s[Since(s, i)..], i - Since(s, i))
  }

  ghost predicate CountsIn(counters: seq<nat>, s: seq<Node>, i: nat)
    requires i <= |s|
  {
    forall level: nat :: At(counters, level) == Running(s, i, level)
  }

  /** The counters after a block. */
  function Advanced(counters: seq<nat>, n: Node): seq<nat> {
    if IsNumbered(n) then Resized(counters, n.indent + 1)[n.indent := At(counters, n.indent) + 1]
    else Resized(counters, n.indent)
  }

  lemma {:induction false} CountsInNext(counters: seq<nat>, s: seq<Node>, i: nat)
    requires i < |s| && CountsIn(counters, s, i)
    ensures CountsIn(Advanced(counters, s[i]), s, i + 1)
  {
    hide Running;
    forall level: nat ensures At(Advanced(counters, s[i]), level) == Running(s, i + 1, level) {
      RunningStep(s, i, level);
      assert At(counters, level) == Running(s, i, level);
    }
  }

  method ComputeListNumbers(s: seq<Node>) returns (items: seq<NumberedItem>)
    ensures items == ItemsTo(s, |s|)
  {
    hide Counts, Number, Running;
    items := [];
    var counters: seq<nat> := [];
    NothingCounted(s, 0);
    for i := 0 to |s|
      invariant items == ItemsTo(s, i)
      invariant Counts(counters, s, i)
    {
      if s[i].kind == "column" {
        counters := [];
        NothingCounted(s, i + 1);
        continue;
      }
      var indent := s[i].indent;
      CountsNext(counters, s, i);
      if IsNumbered(s[i]) {
        counters := Resized(counters, indent + 1);
        counters := counters[indent := counters[indent] + 1];
        items := items + [NumberedItem(i, indent, counters[indent])];
      } else {
        counters := Resized(counters, indent);
      }
    }
  }

  lemma {:induction false} NothingCounted(s: seq<Node>, i: nat)
    requires i <= |s| && (i == 0 || IsColumn(s[i - 1]))
    ensures Counts([], s, i)
  {
    assert Since(s, i) == i;
  }

  lemma {:induction false} CountsNext(counters: seq<nat>, s: seq<Node>, i: nat)
    requires i < |s| && !IsColumn(s[i]) && Counts(counters, s, i)
    ensures Counts(Advanced(counters, s[i]), s, i + 1)
    ensures At(counters, s[i].indent) + 1 == NumberHere(s, i)
  {
    hide Advanced, Running;
    var c := Since(s, i);
    assert Since(s, i + 1) == c && s[c..][i - c] == s[i];
    CountsInNext(counters, s[c..], i - c);
    assert At(counters, s[i].indent) == Running(s[c..], i - c, s[i].indent);
  }

  /** Without columns there is one piece: the whole run. */
  lemma {:induction false} FlatNumbers(s: seq<Node>, i: nat)
    requires i < |s| && forall k :: 0 <= k < |s| ==> s[k].kind != "column"
    ensures NumberHere(s, i) == Number(s, i)
  {
    hide Number;
    assert Since(s, i) == 0 && s[0..] == s;
  }

  /** After a column the counts start afresh, and go on until the next column. */
  lemma {:induction false} ColumnRestarts(s: seq<Node>, c: nat, i: nat)
    requires c <= i < |s| && (c > 0 ==> s[c - 1].kind == "column")
    requires forall k :: c <= k < i ==> s[k].kind != "column"
    ensures NumberHere(s, i) == Number(s[c..], i - c)
  {
    hide Number;
    SinceColumn(s, c, i);
  }

  lemma {:induction false} SinceColumn(s: seq<Node>, c: nat, i: nat)
    requires c <= i <= |s| && (c > 0 ==> s[c - 1].kind == "column")
    requires forall k :: c <= k < i ==> s[k].kind != "column"
    ensures Since(s, i) == c
  {
    if i > c {
      SinceColumn(s, c, i - 1);
    }
  }

  /** What one more block does to the open runs: deeper ones end, its own continues or ends, shallower ones stay. */
  lemma {:induction false} RunningStep(s: seq<Node>, i: nat, level: nat)
    requires i < |s|
    ensures Running(s, i + 1, level)
         == if level < s[i].indent then Running(s, i, level)
            else if level == s[i].indent && IsNumbered(s[i]) then Running(s, i, level) + 1
            else 0
  {
    var d := Levels(s);
    assert Shallower(d, i + 1, level + 1) == if d[i] < level + 1 then i else Shallower(d, i, level + 1);
  }

  // ----- the number in the forest

  /** How many siblings immediately before `i`, without a gap, are numbered. */
  function NumberedBefore(s: seq<Node>, i: nat): nat
    requires i < |s|
  {
    var q := PrevSibling(Levels(s), i);
    if q >= 0 && IsNumbered(s[q]) then NumberedBefore(s, q) + 1 else 0
  }

  /** An item's number is one more than the unbroken run of numbered siblings before it in the forest. */
  lemma {:induction false} NumberCountsSiblings(s: seq<Node>, i: nat)
    requires Stepped(Levels(s)) && i < |s|
    ensures Number(s, i) == NumberedBefore(s, i) + 1
  {
    hide Stepped, PrevSibling, Levels, Parent;
    PrevSiblingByLevel(Levels(s), i);
    var q := PrevSibling(Levels(s), i);
    if q >= 0 {
      NumberCountsSiblings(s, q);
    }
  }

  /** What comes after a block does not change its number. */
  lemma {:induction false} NumberPrefix(s: seq<Node>, n: nat, i: nat)
    requires i < n <= |s|
    ensures Number(s[..n], i) == Number(s, i)
    decreases i
  {
    hide Levels;
    var t, level := s[..n], s[i].indent;
    assert Levels(s) == Levels(t) + Levels(s[n..]);
    ShallowerPrefix(Levels(t), Levels(s[n..]), i, level + 1);
    var q := Shallower(Levels(s), i, level + 1);
    if q >= 0 {
      NumberPrefix(s, n, q);
    }
  }

  /** The blocks since the last column, up to and with the one at `i`. */
  function Piece(s: seq<Node>, i: nat): (r: seq<Node>)
    requires i < |s|
    ensures |r| == i - Since(s, i) + 1
  {
    s[Since(s, i)..i + 1]
  }

  /**
    So it is between columns, in the forest of the blocks since the last one; nothing is asked of the levels of
    later blocks or of other columns.
   */
  lemma {:induction false} NumberHereCountsSiblings(s: seq<Node>, i: nat)
    requires i < |s| && Stepped(Levels(Piece(s, i)))
    ensures NumberHere(s, i) == NumberedBefore(Piece(s, i), |Piece(s, i)| - 1) + 1
  {
    hide Number, NumberedBefore, Stepped, Levels;
    var c := Since(s, i);
    assert s[c..][..i + 1 - c] == Piece(s, i);
    NumberPrefix(s[c..], i + 1 - c, i - c);
    NumberCountsSiblings(Piece(s, i), i - c);
  }

  /** Every numbered block gets an item, in order, and nothing else does. */
  lemma {:induction false} ItemsAreNumberedBlocks(s: seq<Node>, n: nat)
    requires n <= |s|
    ensures forall it <- ItemsTo(s, n) ::
      it.pos < n && s[it.pos].kind == "numberedList"
        && it == NumberedItem(it.pos, s[it.pos].indent, NumberHere(s, it.pos))
    ensures forall i :: 0 <= i < n && s[i].kind == "numberedList" ==>
      NumberedItem(i, s[i].indent, NumberHere(s, i)) in ItemsTo(s, n)
    ensures forall j, k :: 0 <= j < k < |ItemsTo(s, n)| ==> ItemsTo(s, n)[j].pos < ItemsTo(s, n)[k].pos
  {
    hide NumberHere;
    if n > 0 {
      ItemsAreNumberedBlocks(s, n - 1);
      var init, items := ItemsTo(s, n - 1), ItemsTo(s, n);
      assert forall j :: 0 <= j < |init| ==> items[j] == init[j] && init[j] in init;
    }
  }
}
