/**
  Hiding what a collapsed toggle holds (packages/editor/src/collapse.ts), in one pass over a flat run.
 */
module Collapse {
  import opened Common
  import opened Forest
  import opened Outline

  predicate IsCollapsed(n: Node) {
    n.kind == "toggle" && n.collapsed
  }

  /** A block is hidden when some collapsed toggle is above it in the forest. */
  ghost predicate Hidden(s: seq<Node>, i: nat)
    requires i < |s|
  {
    exists a :: 0 <= a < i && IsCollapsed(s[a]) && Ancestor(Levels(s), a, i)
  }

  /** The run of `a` has not ended before `i`. */
  ghost predicate Reaches(d: seq<nat>, a: nat, i: nat)
    requires i <= |d|
  {
    a < i && forall k :: a < k < i ==> d[k] > d[a]
  }

  lemma {:induction false} AncestorIffReaches(d: seq<nat>, a: nat, i: nat)
    requires a < i < |d|
    ensures Ancestor(d, a, i) <==> Reaches(d, a, i) && d[i] > d[a]
  {
    AncestorIffInRun(d, a, i);
  }

  /** No collapsed toggle's run reaches `i`. */
  ghost predicate NoneOpen(s: seq<Node>, i: nat)
    requires i <= |s|
  {
    forall a :: 0 <= a < i && IsCollapsed(s[a]) ==> !Reaches(Levels(s), a, i)
  }

  /** `h` is a collapsed toggle that is shown and whose run reaches `i`. */
  ghost predicate HidingFrom(s: seq<Node>, h: nat, i: nat)
    requires i <= |s|
  {
    h < i && IsCollapsed(s[h]) && !Hidden(s, h) && Reaches(Levels(s), h, i)
  }

  method HiddenBlockPositions(s: seq<Node>) returns (hidden: seq<nat>)
    ensures forall i <- hidden :: i < |s|
    ensures forall i :: 0 <= i < |s| ==> (i in hidden <==>
      exists a :: 0 <= a < i && s[a].kind == "toggle" && s[a].collapsed && Ancestor(Levels(s), a, i))
    ensures forall j, k :: 0 <= j < k < |hidden| ==> hidden[j] < hidden[k]
    ensures |hidden| == CountHidden(s, |s|)
  {
    hide Hidden, NoneOpen, HidingFrom, Listed;
    hidden := [];
    NothingListed(s);
    var hidingFrom: Option<nat> := None;
    ghost var h := 0;
    for i := 0 to |s|
      invariant Listed(s, hidden, i)
      invariant hidingFrom.None? ==> NoneOpen(s, i)
      invariant hidingFrom.Some? ==> HidingFrom(s, h, i) && h < |s| && hidingFrom.value == s[h].indent
    {
      ListedNext(s, hidden, i);
      var indent := s[i].indent;
      if hidingFrom.Some? {
        if indent > hidingFrom.value {
          StillHiding(s, h, i);
          hidden := hidden + [i];
          continue;
        }
        RunEnded(s, h, i);
        hidingFrom := None;
      } else {
        NothingHides(s, i);
      }
      if s[i].kind == "toggle" && s[i].collapsed {
        hidingFrom := Some(indent);
        h := i;
        StartsHiding(s, i);
      }
    }
    ListedAll(s, hidden);
    HiddenMeans(s);
  }

  lemma {:induction false} HiddenMeans(s: seq<Node>)
    ensures forall i :: 0 <= i < |s| ==> (Hidden(s, i) <==>
      exists a :: 0 <= a < i && s[a].kind == "toggle" && s[a].collapsed && Ancestor(Levels(s), a, i))
  {
    hide Ancestor, Levels;
  }

  /** The hidden blocks before `i`, in order and each once. */
  ghost predicate Listed(s: seq<Node>, hidden: seq<nat>, i: nat)
    requires i <= |s|
  {
    && (forall j :: 0 <= j < |hidden| ==> hidden[j] < i)
    && (forall j, k :: 0 <= j < k < |hidden| ==> hidden[j] < hidden[k])
    && (forall j :: 0 <= j < i ==> (j in hidden <==> Hidden(s, j)))
    && |hidden| == CountHidden(s, i)
  }

  lemma {:induction false} NothingListed(s: seq<Node>)
    ensures Listed(s, [], 0) && NoneOpen(s, 0)
  {
    hide Hidden;
  }

  lemma {:induction false} ListedNext(s: seq<Node>, hidden: seq<nat>, i: nat)
    requires i < |s| && Listed(s, hidden, i)
    ensures Listed(s, if Hidden(s, i) then hidden + [i] else hidden, i + 1)
  {
    hide Hidden;
  }

  lemma {:induction false} ListedAll(s: seq<Node>, hidden: seq<nat>)
    requires Listed(s, hidden, |s|)
    ensures forall i <- hidden :: i < |s|
    ensures forall i :: 0 <= i < |s| ==> (i in hidden <==> Hidden(s, i))
    ensures forall j, k :: 0 <= j < k < |hidden| ==> hidden[j] < hidden[k]
    ensures |hidden| == CountHidden(s, |s|)
  {
    hide Hidden, CountHidden;
  }

  lemma {:induction false} StillHiding(s: seq<Node>, h: nat, i: nat)
    requires i < |s| && HidingFrom(s, h, i) && s[i].indent > s[h].indent
    ensures Hidden(s, i) && HidingFrom(s, h, i + 1)
  {
    AncestorIffReaches(Levels(s), h, i);
  }

  /** Back at or above the toggle's level nothing else can be hiding: an outer one would hide the toggle too. */
  lemma {:induction false} RunEnded(s: seq<Node>, h: nat, i: nat)
    requires i < |s| && HidingFrom(s, h, i) && s[i].indent <= s[h].indent
    ensures !Hidden(s, i)
    ensures IsCollapsed(s[i]) || NoneOpen(s, i + 1)
  {
    var d := Levels(s);
    forall a | 0 <= a < i && IsCollapsed(s[a]) ensures !(Reaches(d, a, i) && d[i] > d[a]) {
      if a < h {
        AncestorIffReaches(d, a, h);
        assert !Ancestor(d, a, h);
      }
    }
    NotHidden(s, i);
  }

  lemma {:induction false} NotHidden(s: seq<Node>, i: nat)
    requires i < |s|
    requires forall a :: 0 <= a < i && IsCollapsed(s[a]) ==> !(Reaches(Levels(s), a, i) && s[i].indent > s[a].indent)
    ensures !Hidden(s, i)
    ensures IsCollapsed(s[i]) || NoneOpen(s, i + 1)
  {
    var d := Levels(s);
    forall a | 0 <= a < i && IsCollapsed(s[a]) ensures !Ancestor(d, a, i) && !Reaches(d, a, i + 1) {
      AncestorIffReaches(d, a, i);
    }
  }

  lemma {:induction false} NothingHides(s: seq<Node>, i: nat)
    requires i < |s| && NoneOpen(s, i)
    ensures !Hidden(s, i)
    ensures IsCollapsed(s[i]) || NoneOpen(s, i + 1)
  {
    NotHidden(s, i);
  }

  lemma {:induction false} StartsHiding(s: seq<Node>, i: nat)
    requires i < |s| && IsCollapsed(s[i]) && !Hidden(s, i)
    ensures HidingFrom(s, i, i + 1)
  {
  }

  // ----- counting

  /** How many blocks a toggle is hiding: all its descendants in the forest. */
  method HiddenChildCount(s: seq<Node>, toggle: nat) returns (count: nat)
    ensures count == if toggle < |s| then RunEnd(Levels(s), toggle) - toggle - 1 else 0
  {
    count := 0;
    var started := false;
    var toggleIndent := 0;
    ghost var d := Levels(s);
    for i := 0 to |s|
      invariant i <= toggle ==> !started && count == 0
      invariant i > toggle && started ==>
        toggleIndent == s[toggle].indent && count == i - toggle - 1 && i <= RunEnd(d, toggle)
      invariant i > toggle && !started ==> count == RunEnd(d, toggle) - toggle - 1
    {
      if i == toggle {
        started := true;
        toggleIndent := s[i].indent;
      } else if started {
        if s[i].indent > toggleIndent {
          count := count + 1;
        } else {
          started := false;
        }
      }
    }
  }

  ghost predicate ShownToggle(s: seq<Node>, a: nat)
    requires a < |s|
  {
    IsCollapsed(s[a]) && !Hidden(s, a)
  }

  /** How much of the run of `a` lies before `n`. */
  ghost function HeldBefore(s: seq<Node>, a: nat, n: nat): nat
    requires a < n <= |s|
  {
    Min(RunEnd(Levels(s), a), n) - a - 1
  }

  /** The blocks before `n` held by the shown collapsed toggles before `m`. */
  ghost function SumHeld(s: seq<Node>, m: nat, n: nat): nat
    requires m <= n <= |s|
  {
    if m == 0 then 0
    else SumHeld(s, m - 1, n) + if ShownToggle(s, m - 1) then HeldBefore(s, m - 1, n) else 0
  }

  ghost function CountHidden(s: seq<Node>, n: nat): nat
    requires n <= |s|
  {
    if n == 0 then 0 else CountHidden(s, n - 1) + if Hidden(s, n - 1) then 1 else 0
  }

  /** The sum of the counts shown on the markers: one count for every collapsed toggle that is shown. */
  ghost function SumOfCounts(s: seq<Node>, m: nat): nat
    requires m <= |s|
  {
    if m == 0 then 0
    else SumOfCounts(s, m - 1) + if ShownToggle(s, m - 1) then RunEnd(Levels(s), m - 1) - m else 0
  }

  /** A hidden block is held by exactly one toggle that is itself shown. */
  lemma {:induction false} OneShownHolder(s: seq<Node>, i: nat)
    requires i < |s|
    ensures Hidden(s, i) <==> exists a :: 0 <= a < i && ShownToggle(s, a) && Ancestor(Levels(s), a, i)
    ensures forall a, b | 0 <= a < b < i && ShownToggle(s, a) && ShownToggle(s, b) ::
      !(Ancestor(Levels(s), a, i) && Ancestor(Levels(s), b, i))
  {
    if Hidden(s, i) {
      var a :| 0 <= a < i && IsCollapsed(s[a]) && Ancestor(Levels(s), a, i);
      ShownAbove(s, a, i);
    }
    forall a, b | 0 <= a < b < i && ShownToggle(s, a) && Ancestor(Levels(s), a, i)
      ensures !(ShownToggle(s, b) && Ancestor(Levels(s), b, i))
    {
      AncestorIffInRun(Levels(s), a, i);
      AncestorIffInRun(Levels(s), a, b);
      assert Hidden(s, b);
    }
  }

  lemma {:induction false} ShownAbove(s: seq<Node>, a: nat, i: nat)
    requires a < i < |s| && IsCollapsed(s[a]) && Ancestor(Levels(s), a, i)
    ensures exists h :: 0 <= h < i && ShownToggle(s, h) && Ancestor(Levels(s), h, i)
    decreases a
  {
    if Hidden(s, a) {
      var a' :| 0 <= a' < a && IsCollapsed(s[a']) && Ancestor(Levels(s), a', a);
      AncestorIffInRun(Levels(s), a', a);
      AncestorIffInRun(Levels(s), a, i);
      AncestorIffInRun(Levels(s), a', i);
      AncestorRuns(Levels(s), a', a, i);
      ShownAbove(s, a', i);
    } else {
      assert ShownToggle(s, a);
    }
  }

  /** The run of an inner block ends within the run of the outer one. */
  lemma {:induction false} AncestorRuns(d: seq<nat>, a: nat, b: nat, i: nat)
    requires a < b < i < |d| && b < RunEnd(d, a) && i < RunEnd(d, b)
    ensures i < RunEnd(d, a)
  {
  }

  /** Which of the toggles before `m` hold block `i`, counted. */
  ghost function Holders(s: seq<Node>, m: nat, i: nat): nat
    requires m <= i < |s|
  {
    if m == 0 then 0
    else Holders(s, m - 1, i) + if ShownToggle(s, m - 1) && Ancestor(Levels(s), m - 1, i) then 1 else 0
  }

  lemma {:induction false} SumHeldStep(s: seq<Node>, m: nat, i: nat)
    requires m <= i < |s|
    ensures SumHeld(s, m, i + 1) == SumHeld(s, m, i) + Holders(s, m, i)
  {
    if m > 0 {
      SumHeldStep(s, m - 1, i);
      AncestorIffInRun(Levels(s), m - 1, i);
    }
  }

  lemma {:induction false} HoldersAtMostOne(s: seq<Node>, m: nat, i: nat)
    requires m <= i < |s|
    ensures Holders(s, m, i)
         == if exists a :: 0 <= a < m && ShownToggle(s, a) && Ancestor(Levels(s), a, i) then 1 else 0
  {
    if m > 0 {
      HoldersAtMostOne(s, m - 1, i);
      OneShownHolder(s, i);
    }
  }

  lemma {:induction false} HeldSoFar(s: seq<Node>, n: nat)
    requires n <= |s|
    ensures SumHeld(s, n, n) == CountHidden(s, n)
  {
    hide Hidden, Ancestor, ShownToggle, HeldBefore, Holders;
    if n > 0 {
      HeldSoFar(s, n - 1);
      SumHeldStep(s, n - 1, n - 1);
      HeldByOneIffHidden(s, n - 1);
      LastHoldsNothing(s, n);
    }
  }

  lemma {:induction false} LastHoldsNothing(s: seq<Node>, n: nat)
    requires 0 < n <= |s|
    ensures HeldBefore(s, n - 1, n) == 0
  {
  }

  lemma {:induction false} HeldByOneIffHidden(s: seq<Node>, i: nat)
    requires i < |s|
    ensures Holders(s, i, i) == if Hidden(s, i) then 1 else 0
  {
    hide Hidden, Ancestor, ShownToggle, Holders;
    HoldersAtMostOne(s, i, i);
    OneShownHolder(s, i);
  }

  lemma {:induction false} SumHeldIsSumOfCounts(s: seq<Node>, m: nat)
    requires m <= |s|
    ensures SumHeld(s, m, |s|) == SumOfCounts(s, m)
  {
    if m > 0 {
      SumHeldIsSumOfCounts(s, m - 1);
    }
  }

  /**
    The counts on the shown collapsed toggles add up to the number of hidden blocks: nothing is counted twice or
    missed.
   */
  lemma {:induction false} CountsAddUp(s: seq<Node>)
    ensures SumOfCounts(s, |s|) == CountHidden(s, |s|)
  {
    HeldSoFar(s, |s|);
    SumHeldIsSumOfCounts(s, |s|);
  }
}
