/**
  Repairing block ids (packages/editor/src/blockIds.ts).

  The plugin walks the document, collects the positions that need an id and patches them one by one;
  the importer rebuilds the tree. Both see the nodes in document order. A node's position is its
  place in that order, and `gen` is the id generator, called for the n-th time with n.
 */
module BlockIds {
  import opened Common

  /** An editor document; `id` is absent when the attribute is not a string. */
  datatype Doc =
    | Text(text: string)
    | Node(block: bool, id: Option<string>, attrs: string, children: seq<Doc>)

  /** What the repair sees of one node. */
  datatype Slot = NotBlock | Block(id: Option<string>)

  type Generator = nat -> string

  datatype Fix = Fix(pos: nat, id: string)

  predicate Needs(s: Slot, seen: set<string>) {
    s.Block? && (s.id.None? || s.id.value == "" || s.id.value in seen)
  }

  // ----- in document order

  function SlotOf(d: Doc): Slot {
    if d.Node? && d.block then Block(d.id) else NotBlock
  }

  /** The nodes in document order, each before its children. */
  function Slots(ds: seq<Doc>): seq<Slot> {
    if ds == [] then []
    else [SlotOf(ds[0])] + (if ds[0].Node? then Slots(ds[0].children) else []) + Slots(ds[1..])
  }

  /** The ids after the repair of the rebuilding form, which remembers the ids it makes. */
  function Repaired(s: seq<Slot>, seen: set<string>, gen: Generator, n: nat): (r: seq<Slot>)
    ensures |r| == |s|
    decreases |s|
  {
    if s == [] then []
    else if Needs(s[0], seen) then [Block(Some(gen(n)))] + Repaired(s[1..], seen + {gen(n)}, gen, n + 1)
    else [s[0]] + Repaired(s[1..], Seen(s[0], seen), gen, n)
  }

  function Seen(s: Slot, seen: set<string>): set<string> {
    if s.Block? && s.id.Some? then seen + {s.id.value} else seen
  }

  /** What the plugin form collects, which does not remember the ids it makes. */
  function Fixes(s: seq<Slot>, seen: set<string>, gen: Generator, n: nat, pos: nat): seq<Fix>
    decreases |s|
  {
    if s == [] then []
    else if Needs(s[0], seen) then [Fix(pos, gen(n))] + Fixes(s[1..], seen, gen, n + 1, pos + 1)
    else Fixes(s[1..], Seen(s[0], seen), gen, n, pos + 1)
  }

  /** The ids the generator makes are all different, not empty and not in the document. */
  ghost predicate FreshFor(gen: Generator, s: seq<Slot>) {
    && (forall i: nat, j: nat :: i != j ==> gen(i) != gen(j))
    && (forall i: nat :: gen(i) != "" && Block(Some(gen(i))) !in s)
  }

  ghost predicate NotYetMade(gen: Generator, seen: set<string>, n: nat) {
    forall i: nat :: i >= n ==> gen(i) !in seen
  }

  // ----- what the repair achieves

  ghost predicate AllIdentified(s: seq<Slot>, seen: set<string>) {
    && (forall i :: 0 <= i < |s| && s[i].Block? ==> s[i].id.Some? && s[i].id.value != "" && s[i].id.value !in seen)
    && (forall i, j :: 0 <= i < j < |s| && s[i].Block? && s[j].Block? ==> s[i].id != s[j].id)
  }

  lemma {:induction false} FreshTail(gen: Generator, s: seq<Slot>)
    requires FreshFor(gen, s) && s != []
    ensures FreshFor(gen, s[1..])
  {
  }

  /** Afterwards every block has a non-empty id of its own. */
  lemma {:induction false} RepairedIsIdentified(s: seq<Slot>, seen: set<string>, gen: Generator, n: nat)
    requires FreshFor(gen, s) && NotYetMade(gen, seen, n)
    ensures AllIdentified(Repaired(s, seen, gen, n), seen)
    decreases |s|
  {
    if s != [] {
      FreshTail(gen, s);
      var head := if Needs(s[0], seen) then Block(Some(gen(n))) else s[0];
      var seen' := Seen(head, seen);
      var n' := if Needs(s[0], seen) then n + 1 else n;
      assert s[0] in s;
      RepairedIsIdentified(s[1..], seen', gen, n');
      IdentifiedCons(head, Repaired(s[1..], seen', gen, n'), seen);
    }
  }

  lemma {:induction false} IdentifiedCons(head: Slot, tail: seq<Slot>, seen: set<string>)
    requires AllIdentified(tail, Seen(head, seen)) && !Needs(head, seen)
    ensures AllIdentified([head] + tail, seen)
  {
    var s := [head] + tail;
    forall i | 0 <= i < |s| && s[i].Block? ensures s[i].id.Some? && s[i].id.value != "" && s[i].id.value !in seen {
      if i > 0 {
        assert s[i] == tail[i - 1];
      }
    }
    forall i, j | 0 <= i < j < |s| && s[i].Block? && s[j].Block? ensures s[i].id != s[j].id {
      assert s[j] == tail[j - 1];
      if i > 0 {
        assert s[i] == tail[i - 1];
      }
    }
  }

  /** The first holder of an id keeps it. */
  lemma {:induction false} FirstHolderKeeps(s: seq<Slot>, seen: set<string>, gen: Generator, n: nat, i: nat)
    requires FreshFor(gen, s) && i < |s|
    requires s[i].Block? && s[i].id.Some? && s[i].id.value != "" && s[i].id.value !in seen
    requires forall j :: 0 <= j < i ==> s[j] != s[i]
    ensures Repaired(s, seen, gen, n)[i] == s[i]
    decreases |s|
  {
    if i > 0 {
      FreshTail(gen, s);
      assert s[0] != s[i] && s[1..][i - 1] == s[i] && s[i] in s;
      assert forall j :: 0 <= j < i - 1 ==> s[1..][j] == s[j + 1];
      if Needs(s[0], seen) {
        FirstHolderKeeps(s[1..], seen + {gen(n)}, gen, n + 1, i - 1);
      } else {
        FirstHolderKeeps(s[1..], Seen(s[0], seen), gen, n, i - 1);
      }
    }
  }

  /** Nothing but ids of blocks that need one is touched. */
  lemma {:induction false} RepairKeepsKinds(s: seq<Slot>, seen: set<string>, gen: Generator, n: nat, i: nat)
    requires i < |s|
    ensures Repaired(s, seen, gen, n)[i].Block? == s[i].Block?
    decreases |s|
  {
    if i > 0 {
      if Needs(s[0], seen) {
        RepairKeepsKinds(s[1..], seen + {gen(n)}, gen, n + 1, i - 1);
      } else {
        RepairKeepsKinds(s[1..], Seen(s[0], seen), gen, n, i - 1);
      }
    }
  }

  /** A document whose blocks are identified has nothing to fix. */
  lemma {:induction false} NothingToFix(s: seq<Slot>, seen: set<string>, gen: Generator, n: nat, pos: nat)
    requires AllIdentified(s, seen)
    ensures Fixes(s, seen, gen, n, pos) == [] && Repaired(s, seen, gen, n) == s
    decreases |s|
  {
    if s != [] {
      var tail := s[1..];
      forall i | 0 <= i < |tail| && tail[i].Block?
        ensures tail[i].id.Some? && tail[i].id.value != "" && tail[i].id.value !in Seen(s[0], seen)
      {
        assert tail[i] == s[i + 1];
      }
      forall i, j | 0 <= i < j < |tail| && tail[i].Block? && tail[j].Block? ensures tail[i].id != tail[j].id {
        assert tail[i] == s[i + 1] && tail[j] == s[j + 1];
      }
      NothingToFix(tail, Seen(s[0], seen), gen, n, pos + 1);
      assert [s[0]] + tail == s;
    }
  }

  /** A second pass, with whatever generator, finds nothing. */
  lemma {:induction false} SecondPassFindsNothing(s: seq<Slot>, gen: Generator, again: Generator, n: nat)
    requires FreshFor(gen, s)
    ensures Fixes(Repaired(s, {}, gen, 0), {}, again, n, 0) == []
  {
    RepairedIsIdentified(s, {}, gen, 0);
    NothingToFix(Repaired(s, {}, gen, 0), {}, again, n, 0);
  }

  // ----- patching positions

  function Patched(s: seq<Slot>, fixes: seq<Fix>): (r: seq<Slot>)
    requires forall f <- fixes :: f.pos < |s|
    ensures |r| == |s|
    decreases |fixes|
  {
    if fixes == [] then s else Patched(s[fixes[0].pos := Block(Some(fixes[0].id))], fixes[1..])
  }

  lemma {:induction false} FixesInRange(s: seq<Slot>, seen: set<string>, gen: Generator, n: nat, pos: nat)
    ensures forall f <- Fixes(s, seen, gen, n, pos) :: pos <= f.pos < pos + |s|
    decreases |s|
  {
    if s != [] {
      if Needs(s[0], seen) {
        FixesInRange(s[1..], seen, gen, n + 1, pos + 1);
      } else {
        FixesInRange(s[1..], Seen(s[0], seen), gen, n, pos + 1);
      }
    }
  }

  /** The two sets of remembered ids differ only by ids the generator made, which the document does not hold. */
  ghost predicate SameButMade(seen: set<string>, made: set<string>, s: seq<Slot>) {
    seen <= made && forall x <- made :: x !in seen ==> Block(Some(x)) !in s
  }

  /** Patching the collected positions gives the ids the rebuilding form gives. */
  lemma {:induction false} PatchedIsRepaired(
      done: seq<Slot>, s: seq<Slot>, seen: set<string>, made: set<string>, gen: Generator, n: nat)
    requires FreshFor(gen, s) && SameButMade(seen, made, s)
    requires forall f <- Fixes(s, seen, gen, n, |done|) :: f.pos < |done + s|
    ensures Patched(done + s, Fixes(s, seen, gen, n, |done|)) == done + Repaired(s, made, gen, n)
    decreases |s|
  {
    if s == [] {
      assert done + s == done;
    } else {
      hide Fixes, Repaired, Patched;
      FreshTail(gen, s);
      assert s[0] in s;
      assert Needs(s[0], seen) <==> Needs(s[0], made);
      if Needs(s[0], seen) {
        PatchStep(done, s, seen, made, gen, n);
      } else {
        KeptUnfold(s, seen, made, gen, n, |done|);
        assert done + s == (done + [s[0]]) + s[1..];
        PatchedIsRepaired(done + [s[0]], s[1..], Seen(s[0], seen), Seen(s[0], made), gen, n);
        assert done + Repaired(s, made, gen, n) == (done + [s[0]]) + Repaired(s[1..], Seen(s[0], made), gen, n);
      }
    }
  }

  lemma {:induction false} PatchStep(
      done: seq<Slot>, s: seq<Slot>, seen: set<string>, made: set<string>, gen: Generator, n: nat)
    requires s != [] && FreshFor(gen, s[1..]) && SameButMade(seen, made, s)
    requires Needs(s[0], seen) && Needs(s[0], made) && Block(Some(gen(n))) !in s
    requires forall f <- Fixes(s, seen, gen, n, |done|) :: f.pos < |done + s|
    ensures Patched(done + s, Fixes(s, seen, gen, n, |done|)) == done + Repaired(s, made, gen, n)
    decreases |s|, 0
  {
    hide Fixes, Repaired, Patched, FreshFor, Needs;
    var x, rest := Block(Some(gen(n))), Fixes(s[1..], seen, gen, n + 1, |done| + 1);
    FixesUnfold(s, seen, gen, n, |done|);
    RepairedUnfold(s, made, gen, n);
    FixesInRange(s[1..], seen, gen, n + 1, |done| + 1);
    assert (done + s)[|done| := x] == (done + [x]) + s[1..];
    PatchedUnfold(done + s, Fix(|done|, gen(n)), rest);
    PatchedIsRepaired(done + [x], s[1..], seen, made + {gen(n)}, gen, n + 1);
  }

  lemma {:induction false} KeptUnfold(
      s: seq<Slot>, seen: set<string>, made: set<string>, gen: Generator, n: nat, pos: nat)
    requires s != [] && !Needs(s[0], seen) && !Needs(s[0], made)
    ensures Fixes(s, seen, gen, n, pos) == Fixes(s[1..], Seen(s[0], seen), gen, n, pos + 1)
    ensures Repaired(s, made, gen, n) == [s[0]] + Repaired(s[1..], Seen(s[0], made), gen, n)
  {
  }

  lemma {:induction false} FixesUnfold(s: seq<Slot>, seen: set<string>, gen: Generator, n: nat, pos: nat)
    requires s != [] && Needs(s[0], seen)
    ensures Fixes(s, seen, gen, n, pos) == [Fix(pos, gen(n))] + Fixes(s[1..], seen, gen, n + 1, pos + 1)
  {
  }

  lemma {:induction false} RepairedUnfold(s: seq<Slot>, seen: set<string>, gen: Generator, n: nat)
    requires s != [] && Needs(s[0], seen)
    ensures Repaired(s, seen, gen, n) == [Block(Some(gen(n)))] + Repaired(s[1..], seen + {gen(n)}, gen, n + 1)
  {
  }

  lemma {:induction false} PatchedUnfold(s: seq<Slot>, f: Fix, rest: seq<Fix>)
    requires f.pos < |s| && forall g <- rest :: g.pos < |s|
    ensures Patched(s, [f] + rest) == Patched(s[f.pos := Block(Some(f.id))], rest)
  {
    assert ([f] + rest)[1..] == rest;
  }

  // ----- trees

  /** The same tree with the ids of `slots`, in document order. */
  function Relabelled(ds: seq<Doc>, slots: seq<Slot>): seq<Doc>
    requires |slots| == |Slots(ds)|
  {
    if ds == [] then []
    else if ds[0].Text? then [ds[0]] + Relabelled(ds[1..], slots[1..])
    else
      var m := |Slots(ds[0].children)|;
      [WithId(ds[0], slots[0], Relabelled(ds[0].children, slots[1..m + 1]))] + Relabelled(ds[1..], slots[m + 1..])
  }

  function WithId(d: Doc, s: Slot, children: seq<Doc>): Doc
    requires d.Node?
  {
    d.(id := if s.Block? then s.id else d.id, children := children)
  }

  datatype Rebuilt = Rebuilt(docs: seq<Doc>, seen: set<string>, next: nat)

  /** `assignMissingIds`: rebuild each node before its children, threading the ids seen. */
  function Rebuild(ds: seq<Doc>, seen: set<string>, gen: Generator, n: nat): Rebuilt {
    if ds == [] then Rebuilt([], seen, n)
    else if ds[0].Text? then
      var rest := Rebuild(ds[1..], seen, gen, n);
      Rebuilt([ds[0]] + rest.docs, rest.seen, rest.next)
    else
      var s := SlotOf(ds[0]);
      var id := if Needs(s, seen) then Some(gen(n)) else ds[0].id;
      var seen' := if Needs(s, seen) then seen + {gen(n)} else Seen(s, seen);
      var inner := Rebuild(ds[0].children, seen', gen, if Needs(s, seen) then n + 1 else n);
      var rest := Rebuild(ds[1..], inner.seen, gen, inner.next);
      Rebuilt([ds[0].(id := id, children := inner.docs)] + rest.docs, rest.seen, rest.next)
  }

  function SeenAfter(s: seq<Slot>, seen: set<string>, gen: Generator, n: nat): set<string>
    decreases |s|
  {
    if s == [] then seen
    else if Needs(s[0], seen) then SeenAfter(s[1..], seen + {gen(n)}, gen, n + 1)
    else SeenAfter(s[1..], Seen(s[0], seen), gen, n)
  }

  function NextAfter(s: seq<Slot>, seen: set<string>, gen: Generator, n: nat): nat
    decreases |s|
  {
    if s == [] then n
    else if Needs(s[0], seen) then NextAfter(s[1..], seen + {gen(n)}, gen, n + 1)
    else NextAfter(s[1..], Seen(s[0], seen), gen, n)
  }

  lemma {:induction false} RepairedConcat(a: seq<Slot>, b: seq<Slot>, seen: set<string>, gen: Generator, n: nat)
    ensures var seen', n' := SeenAfter(a, seen, gen, n), NextAfter(a, seen, gen, n);
      && Repaired(a + b, seen, gen, n) == Repaired(a, seen, gen, n) + Repaired(b, seen', gen, n')
      && SeenAfter(a + b, seen, gen, n) == SeenAfter(b, seen', gen, n')
      && NextAfter(a + b, seen, gen, n) == NextAfter(b, seen', gen, n')
    decreases |a|
  {
    if a == [] {
      assert a + b == b;
    } else {
      assert (a + b)[0] == a[0] && (a + b)[1..] == a[1..] + b;
      if Needs(a[0], seen) {
        RepairedConcat(a[1..], b, seen + {gen(n)}, gen, n + 1);
      } else {
        RepairedConcat(a[1..], b, Seen(a[0], seen), gen, n);
      }
    }
  }

  lemma {:induction false} SlotsCons(ds: seq<Doc>)
    requires ds != [] && ds[0].Node?
    ensures var m := |Slots(ds[0].children)|;
      && Slots(ds) == [SlotOf(ds[0])] + (Slots(ds[0].children) + Slots(ds[1..]))
      && |Slots(ds)| == 1 + m + |Slots(ds[1..])|
  {
    hide Slots, SlotOf;
    SlotsUnfold(ds);
  }

  lemma {:induction false} SlotsUnfold(ds: seq<Doc>)
    ensures Slots(ds) == if ds == [] then [] else
      [SlotOf(ds[0])] + (if ds[0].Node? then Slots(ds[0].children) else []) + Slots(ds[1..])
  {
  }

  /** The rebuilding form gives the document the ids of the repair, and changes nothing else. */
  lemma {:induction false} RebuildRelabels(ds: seq<Doc>, seen: set<string>, gen: Generator, n: nat)
    ensures var s := Slots(ds); var r := Rebuild(ds, seen, gen, n);
      && r.docs == Relabelled(ds, Repaired(s, seen, gen, n))
      && r.seen == SeenAfter(s, seen, gen, n) && r.next == NextAfter(s, seen, gen, n)
    decreases ds
  {
    if ds != [] {
      if ds[0].Text? {
        RebuildRelabels(ds[1..], seen, gen, n);
        assert Slots(ds) == [NotBlock] + Slots(ds[1..]);
        assert Slots(ds)[1..] == Slots(ds[1..]);
      } else {
        var s, kids, rest := SlotOf(ds[0]), Slots(ds[0].children), Slots(ds[1..]);
        var seen' := if Needs(s, seen) then seen + {gen(n)} else Seen(s, seen);
        var n' := if Needs(s, seen) then n + 1 else n;
        RebuildRelabels(ds[0].children, seen', gen, n');
        RebuildRelabels(ds[1..], SeenAfter(kids, seen', gen, n'), gen, NextAfter(kids, seen', gen, n'));
        RebuildNode(ds, seen, gen, n, seen', n');
      }
    }
  }

  lemma {:induction false} RebuildNode(
      ds: seq<Doc>, seen: set<string>, gen: Generator, n: nat, seen': set<string>, n': nat)
    requires ds != [] && ds[0].Node?
    requires seen' == (if Needs(SlotOf(ds[0]), seen) then seen + {gen(n)} else Seen(SlotOf(ds[0]), seen))
    requires n' == if Needs(SlotOf(ds[0]), seen) then n + 1 else n
    requires var kids := Slots(ds[0].children); var inner := Rebuild(ds[0].children, seen', gen, n');
      inner == Rebuilt(
        Relabelled(ds[0].children, Repaired(kids, seen', gen, n')),
        SeenAfter(kids, seen', gen, n'), NextAfter(kids, seen', gen, n'))
    requires var kids, rest := Slots(ds[0].children), Slots(ds[1..]);
      var inner := Rebuild(ds[0].children, seen', gen, n');
      Rebuild(ds[1..], inner.seen, gen, inner.next)
      == Rebuilt(
        Relabelled(ds[1..], Repaired(rest, inner.seen, gen, inner.next)),
        SeenAfter(rest, inner.seen, gen, inner.next), NextAfter(rest, inner.seen, gen, inner.next))
    ensures var s := Slots(ds); var r := Rebuild(ds, seen, gen, n);
      && r.docs == Relabelled(ds, Repaired(s, seen, gen, n))
      && r.seen == SeenAfter(s, seen, gen, n) && r.next == NextAfter(s, seen, gen, n)
  {
    hide Slots, Repaired, SeenAfter, NextAfter, Relabelled, SlotOf, Needs;
    var kids, rest := Slots(ds[0].children), Slots(ds[1..]);
    var seen2, n2 := SeenAfter(kids, seen', gen, n'), NextAfter(kids, seen', gen, n');
    var a, b := Repaired(kids, seen', gen, n'), Repaired(rest, seen2, gen, n2);
    var head := if Needs(SlotOf(ds[0]), seen) then Block(Some(gen(n))) else SlotOf(ds[0]);
    SlotsCons(ds);
    RepairedConcat(kids, rest, seen', gen, n');
    RepairedHead(SlotOf(ds[0]), kids + rest, seen, gen, n, seen', n');
    assert [head] + (a + b) == [head] + a + b;
    RelabelledNode(ds, head, a, b);
    HeadId(ds[0], seen, gen, n);
  }

  lemma {:induction false} HeadId(d: Doc, seen: set<string>, gen: Generator, n: nat)
    requires d.Node?
    ensures var s := SlotOf(d); var head := if Needs(s, seen) then Block(Some(gen(n))) else s;
      (if Needs(s, seen) then Some(gen(n)) else d.id) == (if head.Block? then head.id else d.id)
  {
  }

  lemma {:induction false} RepairedHead(
      s: Slot, tail: seq<Slot>, seen: set<string>, gen: Generator, n: nat, seen': set<string>, n': nat)
    requires seen' == (if Needs(s, seen) then seen + {gen(n)} else Seen(s, seen))
    requires n' == if Needs(s, seen) then n + 1 else n
    ensures var head := if Needs(s, seen) then Block(Some(gen(n))) else s;
      && Repaired([s] + tail, seen, gen, n) == [head] + Repaired(tail, seen', gen, n')
      && SeenAfter([s] + tail, seen, gen, n) == SeenAfter(tail, seen', gen, n')
      && NextAfter([s] + tail, seen, gen, n) == NextAfter(tail, seen', gen, n')
  {
    assert ([s] + tail)[1..] == tail;
  }

  lemma {:induction false} RelabelledNode(ds: seq<Doc>, head: Slot, a: seq<Slot>, b: seq<Slot>)
    requires ds != [] && ds[0].Node? && |a| == |Slots(ds[0].children)| && |b| == |Slots(ds[1..])|
    ensures |[head] + a + b| == |Slots(ds)|
    ensures Relabelled(ds, [head] + a + b)
         == [WithId(ds[0], head, Relabelled(ds[0].children, a))] + Relabelled(ds[1..], b)
  {
    SlotsCons(ds);
    var s := [head] + a + b;
    assert s[1..|a| + 1] == a && s[|a| + 1..] == b;
  }
}
