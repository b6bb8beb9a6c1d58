/**
  The forest a sequence of levels stands for (ADR-0018).

  A page stores its blocks as flat siblings and each carries a level. The parent of
  a block is the nearest earlier block with a smaller level. Every other module reads
  or edits this encoding with a loop of its own; this one fixes what the encoding means.
  `-1` stands for "no parent" (the container itself).
 */
module Forest {

  /** The largest index below `i` whose level is under `level`, or -1. */
  function Shallower(d: seq<nat>, i: nat, level: int): (p: int)
    requires i <= |d|
    ensures -1 <= p < i
    ensures p >= 0 ==> d[p] < level
    ensures forall k :: p < k < i ==> d[k] >= level
  {
    if i == 0 then -1
    else if d[i - 1] < level then i - 1
    else Shallower(d, i - 1, level)
  }

  function Parent(d: seq<nat>, i: nat): (p: int)
    requires i < |d|
    ensures -1 <= p < i
  {
    Shallower(d, i, d[i])
  }

  /** `a` lies on the chain of parents above `i`. */
  predicate Ancestor(d: seq<nat>, a: nat, i: nat)
    requires i < |d|
    decreases i
  {
    var p := Parent(d, i);
    p >= 0 && (p == a || Ancestor(d, a, p))
  }

  /** One past the last block of the run that starts at `i`: the first later block at most as deep, or the end. */
  function RunEnd(d: seq<nat>, i: nat): (e: nat)
    requires i < |d|
    ensures i < e <= |d|
    ensures forall k :: i < k < e ==> d[k] > d[i]
    ensures e < |d| ==> d[e] <= d[i]
  {
    RunEndFrom(d, i, i + 1)
  }

  function RunEndFrom(d: seq<nat>, i: nat, j: nat): (e: nat)
    requires i < j <= |d|
    ensures j <= e <= |d|
    ensures forall k :: j <= k < e ==> d[k] > d[i]
    ensures e < |d| ==> d[e] <= d[i]
    decreases |d| - j
  {
    if j < |d| && d[j] > d[i] then RunEndFrom(d, i, j + 1) else j
  }

  /** The sibling directly before `i`: the nearest earlier block with the same parent, or -1. */
  function PrevSibling(d: seq<nat>, i: nat): (q: int)
    requires i < |d|
    ensures -1 <= q < i
  {
    PrevWithParent(d, i, Parent(d, i))
  }

  function PrevWithParent(d: seq<nat>, i: nat, p: int): (q: int)
    requires i <= |d|
    ensures -1 <= q < i
    ensures q >= 0 ==> Parent(d, q) == p
    ensures forall k :: q < k < i ==> Parent(d, k) != p
  {
    if i == 0 then -1
    else if Parent(d, i - 1) == p then i - 1
    else PrevWithParent(d, i - 1, p)
  }

  /** Levels as a document should store them: start at 0 and never step down by more than one. */
  ghost predicate Stepped(d: seq<nat>) {
    && (|d| > 0 ==> d[0] == 0)
    && forall k :: 0 < k < |d| ==> d[k] <= d[k - 1] + 1
  }

  /** The parent is the only index with these properties. */
  lemma {:induction false} ParentIs(d: seq<nat>, i: nat, p: int)
    requires -1 <= p < i < |d|
    requires p >= 0 ==> d[p] < d[i]
    requires forall k :: p < k < i ==> d[k] >= d[i]
    ensures Parent(d, i) == p
  {
  }

  /** A run's end is the only index with these properties. */
  lemma {:induction false} RunEndIs(d: seq<nat>, i: nat, e: nat)
    requires i < e <= |d|
    requires forall k :: i < k < e ==> d[k] > d[i]
    requires e < |d| ==> d[e] <= d[i]
    ensures RunEnd(d, i) == e
  {
  }

  /** A block after a run that reaches back past the run's end reaches back past the whole run. */
  lemma {:induction false} ParentPastRun(d: seq<nat>, i: nat, k: nat)
    requires i < |d| && RunEnd(d, i) <= k < |d|
    ensures Parent(d, k) < i || RunEnd(d, i) <= Parent(d, k)
  {
  }

  /** Inside a run, parents stay inside the run. */
  lemma {:induction false} ParentWithinRun(d: seq<nat>, i: nat, k: nat)
    requires i < k < |d| && k < RunEnd(d, i)
    ensures i <= Parent(d, k)
  {
  }

  // ----- the forest and its runs

  /** Ancestry is exactly membership of the run: no step back to the ancestor's level in between. */
  lemma {:induction false} AncestorIffInRun(d: seq<nat>, a: nat, i: nat)
    requires i < |d|
    ensures Ancestor(d, a, i) <==> a < i < RunEnd(d, a)
    decreases i
  {
    var p := Parent(d, i);
    if p >= 0 && p != a {
      AncestorIffInRun(d, a, p);
    }
  }

  /** A subtree is one contiguous interval: its root followed by all and only its descendants. */
  lemma {:induction false} SubtreeIsInterval(d: seq<nat>, a: nat)
    requires a < |d|
    ensures forall i :: 0 <= i < |d| ==> ((a <= i < RunEnd(d, a)) <==> (i == a || Ancestor(d, a, i)))
  {
    forall i | 0 <= i < |d| ensures (a <= i < RunEnd(d, a)) <==> (i == a || Ancestor(d, a, i)) {
      AncestorIffInRun(d, a, i);
    }
  }

  /** In a stepped sequence a parent is exactly one level up, and only level 0 has none. */
  lemma {:induction false} ParentOneLevelUp(d: seq<nat>, i: nat)
    requires Stepped(d) && i < |d|
    ensures Parent(d, i) == -1 <==> d[i] == 0
    ensures Parent(d, i) >= 0 ==> d[Parent(d, i)] == d[i] - 1
  {
    var p := Parent(d, i);
    if p == -1 {
      assert d[0] >= d[i];
    } else {
      assert d[p + 1] >= d[i] && d[p + 1] <= d[p] + 1;
    }
  }

  /**
    The sibling before `i`, found by levels alone: walk back to the nearest block at most as
    deep; it is a sibling when it is just as deep, and otherwise the parent.
   */
  lemma {:induction false} PrevSiblingByLevel(d: seq<nat>, i: nat)
    requires Stepped(d) && i < |d|
    ensures var q := Shallower(d, i, d[i] + 1);
            PrevSibling(d, i) == if q >= 0 && d[q] == d[i] then q else -1
  {
    var q := Shallower(d, i, d[i] + 1);
    forall k | q < k < i && k >= 0 ensures Parent(d, k) != Parent(d, i) {
      ParentOneLevelUp(d, k);
      ParentOneLevelUp(d, i);
    }
    if q >= 0 && d[q] == d[i] {
      assert Parent(d, q) == Parent(d, i);
    } else {
      // q is the parent itself: nothing earlier can share it
      assert Parent(d, i) == q;
      forall k | 0 <= k <= q ensures Parent(d, k) != q {}
    }
  }

  // ----- moving the window

  /**
    Looking back inside `x + y` stays in `y` when something there is shallow enough, and continues in `x`
    otherwise.
   */
  lemma {:induction false} ShallowerConcat(x: seq<nat>, y: seq<nat>, k: nat, level: int)
    requires k <= |y|
    ensures Shallower(x + y, |x| + k, level)
         == if Shallower(y, k, level) >= 0 then |x| + Shallower(y, k, level) else Shallower(x, |x|, level)
  {
    if k == 0 {
      ShallowerPrefix(x, y, |x|, level);
    } else {
      assert (x + y)[|x| + k - 1] == y[k - 1];
      if y[k - 1] >= level {
        ShallowerConcat(x, y, k - 1, level);
      }
    }
  }

  lemma {:induction false} ShallowerPrefix(x: seq<nat>, y: seq<nat>, i: nat, level: int)
    requires i <= |x|
    ensures Shallower(x + y, i, level) == Shallower(x, i, level)
  {
    if i > 0 && x[i - 1] >= level {
      ShallowerPrefix(x, y, i - 1, level);
    }
  }
}
