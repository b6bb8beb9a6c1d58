/**
  The four ways a subtree command changes a sequence of levels, and what each does to the forest:
  shifting a run, exchanging two adjacent sibling runs, repeating a run and removing a run.
 */
module Edits {
  import opened Forest

  // ----- shifting a run

  /** `t` is `d` with the levels of `i..e` raised by `delta`. */
  ghost predicate ShiftedBy(d: seq<nat>, t: seq<nat>, i: nat, e: nat, delta: int) {
    && |t| == |d|
    && forall k :: 0 <= k < |d| ==> t[k] == if i <= k < e then d[k] + delta else d[k]
  }

  lemma {:induction false} RaiseKeepsOthers(d: seq<nat>, t: seq<nat>, i: nat, k: nat)
    requires Stepped(d) && i < |d| && k < |d| && k != i
    requires ShiftedBy(d, t, i, RunEnd(d, i), 1)
    ensures Parent(t, k) == Parent(d, k)
  {
    var e, p := RunEnd(d, i), Parent(d, k);
    if i < k < e {
      ParentWithinRun(d, i, k);
    } else if e <= k {
      ParentPastRun(d, i, k);
    }
    ParentIs(t, k, p);
  }

  lemma {:induction false} RaiseReparents(d: seq<nat>, t: seq<nat>, i: nat, q: nat)
    requires Stepped(d) && q < i < |d| && q == PrevSibling(d, i)
    requires ShiftedBy(d, t, i, RunEnd(d, i), 1)
    ensures Stepped(t)
    ensures Parent(t, i) == q
    ensures forall k :: i < k < |d| ==> Parent(t, k) != q
  {
    PrevSiblingByLevel(d, i);
    ParentIs(t, i, q);
    assert d[i - 1] >= d[i];
    forall k | i < k < |d| ensures Parent(t, k) != q {
      RaiseKeepsOthers(d, t, i, k);
    }
  }

  lemma {:induction false} LowerKeepsOthers(d: seq<nat>, t: seq<nat>, i: nat, k: nat)
    requires Stepped(d) && i < |d| && d[i] > 0
    requires ShiftedBy(d, t, i, RunEnd(d, i), -1)
    requires k < |d| && k != i && !(i < k && Parent(d, k) == Parent(d, i))
    ensures Parent(t, k) == Parent(d, k)
  {
    var e, p := RunEnd(d, i), Parent(d, k);
    if i < k < e {
      ParentWithinRun(d, i, k);
    } else if e <= k {
      ParentPastRun(d, i, k);
      ParentOneLevelUp(d, k);
      ParentOneLevelUp(d, i);
    }
    ParentIs(t, k, p);
  }

  lemma {:induction false} LowerAdopts(d: seq<nat>, t: seq<nat>, i: nat, k: nat)
    requires Stepped(d) && i < k < |d| && d[i] > 0
    requires ShiftedBy(d, t, i, RunEnd(d, i), -1)
    requires Parent(d, k) == Parent(d, i)
    ensures RunEnd(d, i) <= k && d[k] == d[i]
    ensures Parent(t, k) == i
  {
    var e := RunEnd(d, i);
    ParentOneLevelUp(d, k);
    ParentOneLevelUp(d, i);
    ParentIs(t, k, i);
  }

  lemma {:induction false} LowerReparents(d: seq<nat>, t: seq<nat>, i: nat)
    requires Stepped(d) && i < |d| && d[i] > 0
    requires ShiftedBy(d, t, i, RunEnd(d, i), -1)
    ensures Stepped(t)
    ensures 0 <= Parent(d, i) == PrevSibling(t, i)
    ensures Parent(t, i) == Parent(d, Parent(d, i))
  {
    var p := Parent(d, i);
    ParentOneLevelUp(d, i);
    ParentOneLevelUp(d, p);
    LowerStepped(d, t, i);
    ParentIs(t, i, Parent(d, p));
    hide Stepped;
    PrevSiblingByLevel(t, i);
    assert Shallower(t, i, t[i] + 1) >= p;
  }

  lemma {:induction false} LowerStepped(d: seq<nat>, t: seq<nat>, i: nat)
    requires Stepped(d) && i < |d| && d[i] > 0
    requires ShiftedBy(d, t, i, RunEnd(d, i), -1)
    ensures Stepped(t)
  {
  }

  // ----- exchanging two adjacent runs

  /** Where exchanging `a..b` and `b..c` puts index `k`; anything outside, and -1, stays. */
  function Place(a: nat, b: nat, c: nat, k: int): int
    requires a <= b <= c
  {
    if a <= k < b then k + (c - b) else if b <= k < c then k - (b - a) else k
  }

  /** `t` is `d` with `a..b` and `b..c` exchanged; stated from the result's indices. */
  ghost predicate Exchanged<T>(d: seq<T>, t: seq<T>, a: nat, b: nat, c: nat) {
    && a <= b <= c <= |d| == |t|
    && forall k :: 0 <= k < |d| ==> t[k] == d[Place(a, a + (c - b), c, k)]
  }

  ghost predicate SiblingRuns(d: seq<nat>, a: nat, b: nat, c: nat) {
    a < b < |d| && RunEnd(d, a) == b && RunEnd(d, b) == c && d[a] == d[b]
  }

  lemma {:induction false} ExchangeKeepsParent(d: seq<nat>, t: seq<nat>, a: nat, b: nat, c: nat, k: nat)
    requires SiblingRuns(d, a, b, c) && Exchanged(d, t, a, b, c)
    requires k < |d|
    ensures Parent(t, Place(a, b, c, k)) == Place(a, b, c, Parent(d, k))
  {
    var p, k' := Parent(d, k), Place(a, b, c, k);
    if a < k < b {
      ParentWithinRun(d, a, k);
    } else if b < k < c {
      ParentWithinRun(d, b, k);
    } else if k == b {
      assert p < a;
    } else if c <= k {
      ParentPastRun(d, b, k);
      if p < a {
        assert c < k ==> d[c] >= d[k];
      }
    }
    ParentIs(t, k', Place(a, b, c, p));
  }

  lemma {:induction false} ExchangeRuns(d: seq<nat>, t: seq<nat>, a: nat, b: nat, c: nat)
    requires SiblingRuns(d, a, b, c) && Exchanged(d, t, a, b, c)
    ensures SiblingRuns(t, a, a + (c - b), c)
  {
    var m := a + (c - b);
    RunEndIs(t, a, m);
    RunEndIs(t, m, c);
  }

  lemma {:induction false} ExchangeInverse<T>(d: seq<T>, t: seq<T>, a: nat, b: nat, c: nat)
    requires Exchanged(d, t, a, b, c)
    ensures Exchanged(t, d, a, a + (c - b), c)
  {
    var m := a + (c - b);
    forall k | 0 <= k < |d| ensures d[k] == t[Place(a, b, c, k)] {
      assert Place(a, m, c, Place(a, b, c, k)) == k;
    }
  }

  lemma {:induction false} ExchangeStepped(d: seq<nat>, t: seq<nat>, a: nat, b: nat, c: nat)
    requires SiblingRuns(d, a, b, c) && Exchanged(d, t, a, b, c) && Stepped(d)
    ensures Stepped(t)
  {
    var m := a + (c - b);
    forall k | 0 < k < |t| ensures t[k] <= t[k - 1] + 1 {
      if k == a || k == m || k == c {
        assert t[k] <= d[a] || k == a;
      } else {
        var j := Place(a, m, c, k);
        assert t[k] == d[j] && t[k - 1] == d[j - 1];
      }
    }
  }

  // ----- repeating a run

  /** Where inserting a copy of `i..e` at `e` puts index `k`. */
  function AfterCopy(i: nat, e: nat, k: int): int
    requires i <= e
  {
    if k < e then k else k + (e - i)
  }

  /** Where the copy of index `k` is. */
  function CopyPlace(i: nat, e: nat, k: nat): nat
    requires i <= e
  {
    k + (e - i)
  }

  /** Which index of the original the repeated sequence shows at `k`. */
  function CopySource(i: nat, e: nat, k: nat): nat
    requires i <= e
  {
    if k < e then k else k - (e - i)
  }

  ghost predicate Repeated(d: seq<nat>, t: seq<nat>, i: nat, e: nat) {
    && i < e <= |d| && |t| == |d| + (e - i)
    && forall k :: 0 <= k < |t| ==> t[k] == d[CopySource(i, e, k)]
  }

  lemma {:induction false} RepeatKeepsParent(d: seq<nat>, t: seq<nat>, i: nat, k: nat)
    requires i < |d| && k < |d| && Repeated(d, t, i, RunEnd(d, i))
    ensures Parent(t, AfterCopy(i, RunEnd(d, i), k)) == AfterCopy(i, RunEnd(d, i), Parent(d, k))
  {
    var e, p := RunEnd(d, i), Parent(d, k);
    if e <= k {
      ParentPastRun(d, i, k);
      if p < i && e < k {
        assert d[e] >= d[k];
      }
    }
    ParentIs(t, AfterCopy(i, e, k), AfterCopy(i, e, p));
  }

  lemma {:induction false} RepeatCopiesParent(d: seq<nat>, t: seq<nat>, i: nat, k: nat)
    requires i < |d| && i <= k < RunEnd(d, i) && Repeated(d, t, i, RunEnd(d, i))
    ensures k > i ==> Parent(d, k) >= i
    ensures Parent(t, CopyPlace(i, RunEnd(d, i), k))
         == if k == i then Parent(d, i) else CopyPlace(i, RunEnd(d, i), Parent(d, k))
  {
    var e, p := RunEnd(d, i), Parent(d, k);
    var w, k' := e - i, CopyPlace(i, RunEnd(d, i), k);
    assert t[k'] == d[k];
    if k == i {
      ParentIs(t, k', p);
    } else {
      ParentWithinRun(d, i, k);
      assert t[p + w] == d[p];
      forall j | p + w < j < k' ensures t[j] >= d[k] {
        assert t[j] == d[j - w];
      }
      hide CopySource, RunEnd, Parent;
      ParentIs(t, k', p + w);
    }
  }

  lemma {:induction false} RepeatIsSibling(d: seq<nat>, t: seq<nat>, i: nat)
    requires Stepped(d) && i < |d| && Repeated(d, t, i, RunEnd(d, i))
    ensures Stepped(t) && PrevSibling(t, RunEnd(d, i)) == i
  {
    hide Stepped, RunEnd, PrevSibling, Shallower;
    var e := RunEnd(d, i);
    RepeatIsStepped(d, t, i);
    assert t[e] == d[i] == t[i];
    PrevSiblingByLevel(t, e);
    var q := Shallower(t, e, t[e] + 1);
    assert i <= q && t[q] == d[q];
  }

  lemma {:induction false} RepeatIsStepped(d: seq<nat>, t: seq<nat>, i: nat)
    requires Stepped(d) && i < |d| && Repeated(d, t, i, RunEnd(d, i))
    ensures Stepped(t)
  {
    hide Shallower;
    var e := RunEnd(d, i);
    assert t[e] == d[i] == t[i] && t[e - 1] == d[e - 1];
    forall k | 0 < k < |t| ensures t[k] <= t[k - 1] + 1 {
      var j := CopySource(i, e, k);
      if k == e + (e - i) {
        assert t[k - 1] == d[e - 1] && t[k] == d[e];
      } else if k != e {
        assert t[k] == d[j] && t[k - 1] == d[j - 1];
      }
    }
  }

  // ----- removing a run

  function AfterRemoval(i: nat, e: nat, k: int): int
    requires i <= e
  {
    if k < e then k else k - (e - i)
  }

  /** Which index of the original the shortened sequence shows at `k`. */
  function RemovalSource(i: nat, e: nat, k: nat): nat
    requires i <= e
  {
    if k < i then k else k + (e - i)
  }

  ghost predicate Removed(d: seq<nat>, t: seq<nat>, i: nat, e: nat) {
    && i < e <= |d| && |t| == |d| - (e - i)
    && forall k :: 0 <= k < |t| ==> t[k] == d[RemovalSource(i, e, k)]
  }

  lemma {:induction false} RemovalKeepsParent(d: seq<nat>, t: seq<nat>, i: nat, k: nat)
    requires i < |d| && Removed(d, t, i, RunEnd(d, i))
    requires k < |d| && !(i <= k < RunEnd(d, i))
    ensures !(i <= Parent(d, k) < RunEnd(d, i))
    ensures Parent(t, AfterRemoval(i, RunEnd(d, i), k)) == AfterRemoval(i, RunEnd(d, i), Parent(d, k))
  {
    var e, p := RunEnd(d, i), Parent(d, k);
    if e <= k {
      ParentPastRun(d, i, k);
    }
    ParentIs(t, AfterRemoval(i, e, k), AfterRemoval(i, e, p));
  }

  lemma {:induction false} RemovalStepped(d: seq<nat>, t: seq<nat>, i: nat)
    requires Stepped(d) && i < |d| && Removed(d, t, i, RunEnd(d, i))
    ensures Stepped(t)
  {
    var e := RunEnd(d, i);
    if e < |d| && i > 0 {
      assert d[e] <= d[i] <= d[i - 1] + 1;
    }
  }
}
