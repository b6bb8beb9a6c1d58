/**
  The two forms of id repair on whole documents (packages/editor/src/blockIds.ts).

  The plugin form collects positions and patches them one at a time; the importer's form rebuilds the
  tree. With a fresh generator they give the same document, and the blocks a duplicate was made from
  keep their ids.
 */
module BlockRepair {
  import opened Common
  import opened BlockIds
  import opened Forest
  import Outline

  // ----- trees and their slots

  /** The slots say of each node whether it is a block, as the tree does. */
  ghost predicate SameKinds(a: seq<Slot>, b: seq<Slot>) {
    |a| == |b| && forall k :: 0 <= k < |a| ==> a[k].Block? == b[k].Block?
  }

  lemma {:induction false} SameKindsParts(head: Slot, a: seq<Slot>, b: seq<Slot>, t: seq<Slot>)
    requires SameKinds([head] + a + b, t)
    ensures var m := |a|;
      && head.Block? == t[0].Block?
      && SameKinds(a, t[1..m + 1]) && SameKinds(b, t[m + 1..])
      && t == [t[0]] + t[1..m + 1] + t[m + 1..]
  {
    var s := [head] + a + b;
    assert s[0] == head;
    forall k | 0 <= k < |a| ensures a[k].Block? == t[1..|a| + 1][k].Block? {
      assert s[k + 1] == a[k];
    }
    forall k | 0 <= k < |b| ensures b[k].Block? == t[|a| + 1..][k].Block? {
      assert s[k + 1 + |a|] == b[k];
    }
  }

  /** Relabelling writes exactly the given slots, and a second relabelling replaces the first. */
  lemma {:induction false} RelabelledSlots(ds: seq<Doc>, s: seq<Slot>, t: seq<Slot>)
    requires SameKinds(Slots(ds), s) && SameKinds(Slots(ds), t)
    ensures Slots(Relabelled(ds, s)) == s
    ensures Relabelled(Relabelled(ds, s), t) == Relabelled(ds, t)
    decreases ds
  {
    if ds != [] {
      if ds[0].Text? {
        var r := Relabelled(ds[1..], s[1..]);
        assert Slots(ds) == [NotBlock] + [] + Slots(ds[1..]);
        SameKindsParts(NotBlock, [], Slots(ds[1..]), s);
        SameKindsParts(NotBlock, [], Slots(ds[1..]), t);
        RelabelledSlots(ds[1..], s[1..], t[1..]);
        assert ([ds[0]] + r)[1..] == r;
      } else {
        RelabelledSlotsNode(ds, s, t);
      }
    }
  }

  lemma {:induction false} RelabelledSlotsNode(ds: seq<Doc>, s: seq<Slot>, t: seq<Slot>)
    requires ds != [] && ds[0].Node?
    requires SameKinds(Slots(ds), s) && SameKinds(Slots(ds), t)
    ensures Slots(Relabelled(ds, s)) == s
    ensures Relabelled(Relabelled(ds, s), t) == Relabelled(ds, t)
    decreases ds, 0
  {
    hide Slots, Relabelled, SlotOf, WithId;
    var kids, rest := Slots(ds[0].children), Slots(ds[1..]);
    var m := |kids|;
    SlotsCons(ds);
    assert Slots(ds) == [SlotOf(ds[0])] + kids + rest;
    SameKindsParts(SlotOf(ds[0]), kids, rest, s);
    SameKindsParts(SlotOf(ds[0]), kids, rest, t);
    RelabelledSlots(ds[0].children, s[1..m + 1], t[1..m + 1]);
    RelabelledSlots(ds[1..], s[m + 1..], t[m + 1..]);
    RelabelledNode(ds, s[0], s[1..m + 1], s[m + 1..]);
    RelabelledNode(ds, t[0], t[1..m + 1], t[m + 1..]);
    var a, b := Relabelled(ds[0].children, s[1..m + 1]), Relabelled(ds[1..], s[m + 1..]);
    var d := WithId(ds[0], s[0], a);
    var r := Relabelled(ds, s);
    WithIdTwice(ds[0], s[0], a, t[0], Relabelled(ds[0].children, t[1..m + 1]));
    assert r == [d] + b && r[0] == d && r[1..] == b;
    SlotsCons(r);
    assert Slots(r) == [s[0]] + s[1..m + 1] + s[m + 1..];
    RelabelledNode(r, t[0], t[1..m + 1], t[m + 1..]);
  }

  lemma {:induction false} WithIdTwice(d: Doc, s: Slot, a: seq<Doc>, t: Slot, b: seq<Doc>)
    requires d.Node? && s.Block? == SlotOf(d).Block? == t.Block?
    ensures WithId(d, s, a).Node? && WithId(d, s, a).children == a && SlotOf(WithId(d, s, a)) == s
    ensures WithId(WithId(d, s, a), t, b) == WithId(d, t, b)
  {
  }

  lemma {:induction false} RelabelledWithOwn(ds: seq<Doc>)
    ensures Relabelled(ds, Slots(ds)) == ds
    decreases ds
  {
    if ds != [] {
      RelabelledWithOwn(ds[1..]);
      if ds[0].Text? {
        assert Slots(ds)[1..] == Slots(ds[1..]);
      } else {
        RelabelledWithOwn(ds[0].children);
        SlotsCons(ds);
        assert Slots(ds) == [SlotOf(ds[0])] + Slots(ds[0].children) + Slots(ds[1..]);
        RelabelledNode(ds, SlotOf(ds[0]), Slots(ds[0].children), Slots(ds[1..]));
      }
      assert [ds[0]] + ds[1..] == ds;
    }
  }

  // ----- patching one position

  /** `setNodeAttribute`: the document with the id of the node at a position replaced. */
  function SetIdAt(ds: seq<Doc>, pos: nat, id: string): seq<Doc> {
    if ds == [] then []
    else if ds[0].Text? then (if pos == 0 then ds else [ds[0]] + SetIdAt(ds[1..], pos - 1, id))
    else if pos == 0 then [ds[0].(id := Some(id))] + ds[1..]
    else
      var m := |Slots(ds[0].children)|;
      if pos <= m then [ds[0].(children := SetIdAt(ds[0].children, pos - 1, id))] + ds[1..]
      else [ds[0]] + SetIdAt(ds[1..], pos - m - 1, id)
  }

  /** Patching a block's position relabels the document at that position and nowhere else. */
  lemma {:induction false} SetIdRelabels(ds: seq<Doc>, pos: nat, id: string)
    requires pos < |Slots(ds)| && Slots(ds)[pos].Block?
    ensures SetIdAt(ds, pos, id) == Relabelled(ds, Slots(ds)[pos := Block(Some(id))])
    decreases ds
  {
    var x := Block(Some(id));
    if ds[0].Text? {
      var rest := Slots(ds[1..]);
      assert Slots(ds) == [NotBlock] + rest;
      SetIdRelabels(ds[1..], pos - 1, id);
      assert Slots(ds)[pos := x][1..] == rest[pos - 1 := x];
    } else {
      SetIdRelabelsNode(ds, pos, id);
    }
  }

  lemma {:induction false} SetIdRelabelsNode(ds: seq<Doc>, pos: nat, id: string)
    requires ds != [] && ds[0].Node? && pos < |Slots(ds)| && Slots(ds)[pos].Block?
    ensures SetIdAt(ds, pos, id) == Relabelled(ds, Slots(ds)[pos := Block(Some(id))])
    decreases ds, 0
  {
    hide Slots, Relabelled;
    var head, kids, rest := SlotOf(ds[0]), Slots(ds[0].children), Slots(ds[1..]);
    var m, x := |kids|, Block(Some(id));
    SlotsCons(ds);
    RelabelledWithOwn(ds[0].children);
    RelabelledWithOwn(ds[1..]);
    if pos == 0 {
      assert Slots(ds)[pos := x] == [x] + kids + rest;
      RelabelledNode(ds, x, kids, rest);
    } else if pos <= m {
      assert Slots(ds)[pos] == kids[pos - 1];
      SetIdRelabels(ds[0].children, pos - 1, id);
      assert Slots(ds)[pos := x] == [head] + kids[pos - 1 := x] + rest;
      RelabelledNode(ds, head, kids[pos - 1 := x], rest);
    } else {
      assert Slots(ds)[pos] == rest[pos - m - 1];
      SetIdRelabels(ds[1..], pos - m - 1, id);
      assert Slots(ds)[pos := x] == [head] + kids + rest[pos - m - 1 := x];
      RelabelledNode(ds, head, kids, rest[pos - m - 1 := x]);
    }
  }

  // ----- patching all of them

  function PatchAll(ds: seq<Doc>, fixes: seq<Fix>): seq<Doc>
    decreases |fixes|
  {
    if fixes == [] then ds else PatchAll(SetIdAt(ds, fixes[0].pos, fixes[0].id), fixes[1..])
  }

  lemma {:induction false} PatchAllNone(ds: seq<Doc>)
    ensures PatchAll(ds, []) == ds
  {
  }

  lemma {:induction false} PatchAllUnfold(ds: seq<Doc>, fixes: seq<Fix>, k: nat)
    requires k < |fixes|
    ensures PatchAll(ds, fixes[k..]) == PatchAll(SetIdAt(ds, fixes[k].pos, fixes[k].id), fixes[k + 1..])
  {
    assert fixes[k..][1..] == fixes[k + 1..];
  }

  ghost predicate AtBlocks(s: seq<Slot>, fixes: seq<Fix>) {
    forall f <- fixes :: f.pos < |s| && s[f.pos].Block?
  }

  lemma {:induction false} PatchedKeepsKinds(s: seq<Slot>, fixes: seq<Fix>)
    requires AtBlocks(s, fixes)
    ensures SameKinds(s, Patched(s, fixes))
    decreases |fixes|
  {
    if fixes != [] {
      PatchedKeepsKinds(s[fixes[0].pos := Block(Some(fixes[0].id))], fixes[1..]);
    }
  }

  lemma {:induction false} PatchAllRelabels(ds: seq<Doc>, fixes: seq<Fix>)
    requires AtBlocks(Slots(ds), fixes)
    ensures PatchAll(ds, fixes) == Relabelled(ds, Patched(Slots(ds), fixes))
    decreases |fixes|
  {
    hide Slots, Relabelled, SetIdAt;
    if fixes == [] {
      RelabelledWithOwn(ds);
    } else {
      var f, s := fixes[0], Slots(ds);
      var s' := s[f.pos := Block(Some(f.id))];
      SetIdRelabels(ds, f.pos, f.id);
      PatchedKeepsKinds(s, fixes);
      RelabelledSlots(ds, s', Patched(s, fixes));
      PatchAllRelabels(Relabelled(ds, s'), fixes[1..]);
    }
  }

  lemma {:induction false} FixesAreAtBlocks(done: seq<Slot>, s: seq<Slot>, seen: set<string>, gen: Generator, n: nat)
    ensures AtBlocks(done + s, Fixes(s, seen, gen, n, |done|))
    decreases |s|
  {
    if s != [] {
      assert done + s == (done + [s[0]]) + s[1..];
      if Needs(s[0], seen) {
        FixesAreAtBlocks(done + [s[0]], s[1..], seen, gen, n + 1);
      } else {
        FixesAreAtBlocks(done + [s[0]], s[1..], Seen(s[0], seen), gen, n);
      }
    }
  }

  /** Patching positions and rebuilding the tree give the same document. */
  lemma {:induction false} PatchingIsRebuilding(ds: seq<Doc>, gen: Generator)
    requires FreshFor(gen, Slots(ds))
    ensures PatchAll(ds, Fixes(Slots(ds), {}, gen, 0, 0)) == Rebuild(ds, {}, gen, 0).docs
  {
    hide Slots, Fixes, Repaired, Patched, Relabelled, Rebuild, PatchAll, FreshFor;
    var s := Slots(ds);
    assert [] + s == s;
    FixesAreAtBlocks([], s, {}, gen, 0);
    PatchAllRelabels(ds, Fixes(s, {}, gen, 0, 0));
    PatchedIsRepaired([], s, {}, {}, gen, 0);
    assert [] + Repaired(s, {}, gen, 0) == Repaired(s, {}, gen, 0);
    RebuildRelabels(ds, {}, gen, 0);
  }

  /** What either form achieves on the document: identified blocks, and nothing else changed. */
  lemma {:induction false} RebuildIdentifies(ds: seq<Doc>, gen: Generator)
    requires FreshFor(gen, Slots(ds))
    ensures var r := Rebuild(ds, {}, gen, 0).docs;
      && AllIdentified(Slots(r), {})
      && SameKinds(Slots(ds), Slots(r))
      && Relabelled(r, Slots(ds)) == ds
      && (AllIdentified(Slots(ds), {}) <==> r == ds)
      && forall again: Generator :: Rebuild(r, {}, again, 0).docs == r
  {
    var s, r := Slots(ds), Rebuild(ds, {}, gen, 0).docs;
    var t := Repaired(s, {}, gen, 0);
    RebuildRelabels(ds, {}, gen, 0);
    forall k | 0 <= k < |s| ensures s[k].Block? == t[k].Block? {
      RepairKeepsKinds(s, {}, gen, 0, k);
    }
    RelabelledSlots(ds, t, s);
    RelabelledWithOwn(ds);
    RepairedIsIdentified(s, {}, gen, 0);
    if AllIdentified(s, {}) {
      NothingToFix(s, {}, gen, 0, 0);
    }
    forall again: Generator ensures Rebuild(r, {}, again, 0).docs == r {
      RebuildRelabels(r, {}, again, 0);
      NothingToFix(t, {}, again, 0, 0);
      RelabelledWithOwn(r);
    }
  }

  // ----- after a duplicate

  /** The children of a parent with copies of `i..e` inserted after them, as the duplicate command makes them. */
  function WithCopies(ds: seq<Doc>, i: nat, e: nat): seq<Doc>
    requires i <= e <= |ds|
  {
    ds[..e] + Cleared(ds[i..e]) + ds[e..]
  }

  /** Only the copied blocks' own ids are cleared: blocks inside them are copied with theirs. */
  function Cleared(ds: seq<Doc>): seq<Doc> {
    seq(|ds|, k requires 0 <= k < |ds| => if ds[k].Node? then ds[k].(id := None) else ds[k])
  }

  lemma {:induction false} SlotsConcat(a: seq<Doc>, b: seq<Doc>)
    ensures Slots(a + b) == Slots(a) + Slots(b)
    decreases |a|
  {
    if a == [] {
      assert a + b == b;
    } else {
      assert (a + b)[0] == a[0] && (a + b)[1..] == a[1..] + b;
      SlotsConcat(a[1..], b);
    }
  }

  lemma {:induction false} ClearedSlots(ds: seq<Doc>)
    ensures |Slots(Cleared(ds))| == |Slots(ds)|
    ensures forall k :: 0 <= k < |Slots(ds)| ==> Slots(Cleared(ds))[k] in [Slots(ds)[k], Block(None)]
    decreases |ds|
  {
    if ds != [] {
      assert Cleared(ds)[1..] == Cleared(ds[1..]);
      ClearedSlots(ds[1..]);
    }
  }

  /** Where slot `k` of the document is once `w` slots were inserted at `e`. */
  function After(e: nat, w: nat, k: nat): nat {
    if k < e then k else k + w
  }

  /** A block that held its id alone still holds it after the insertion of blocks repeating earlier ids. */
  lemma {:induction false} InsertedKeepsHolders(a: seq<Slot>, copies: seq<Slot>, b: seq<Slot>, gen: Generator, k: nat)
    requires AllIdentified(a + b, {}) && FreshFor(gen, a + b)
    requires forall c <- copies :: c in a || c == Block(None) || c == NotBlock
    requires k < |a + b|
    ensures FreshFor(gen, a + copies + b)
    ensures Repaired(a + copies + b, {}, gen, 0)[After(|a|, |copies|, k)] == (a + b)[k]
  {
    var s, t, k' := a + b, a + copies + b, After(|a|, |copies|, k);
    forall i: nat ensures gen(i) != "" && Block(Some(gen(i))) !in t {
      var x := Block(Some(gen(i)));
      assert x !in s;
      assert x in t ==> x in a || x in copies || x in b;
    }
    assert t[k'] == s[k];
    if s[k].Block? {
      forall j | 0 <= j < k' ensures t[j] != t[k'] {
        if j < |a| {
          assert t[j] == s[j];
        } else if j < |a| + |copies| {
          assert t[j] == copies[j - |a|];
          if t[j] in a {
            var p :| 0 <= p < |a| && a[p] == t[j];
            assert s[p] == t[j];
          }
        } else {
          assert t[j] == s[j - |copies|];
        }
      }
      FirstHolderKeeps(t, {}, gen, 0, k');
    } else {
      RepairKeepsKinds(t, {}, gen, 0, k');
    }
  }

  /**
    After a duplicate every block of the document, wherever its parent is, keeps its id: `before` and
    `after` are the rest of the document around the parent's children `ds`.
   */
  lemma {:induction false} DuplicateKeepsOriginalIds(
      before: seq<Slot>, ds: seq<Doc>, after: seq<Slot>, i: nat, e: nat, gen: Generator, k: nat)
    requires i <= e <= |ds|
    requires var s := before + Slots(ds) + after; AllIdentified(s, {}) && FreshFor(gen, s) && k < |s|
    ensures var s, t := before + Slots(ds) + after, before + Slots(WithCopies(ds, i, e)) + after;
            var at, w := |before| + |Slots(ds[..e])|, |Slots(ds[i..e])|;
      && |t| == |s| + w
      && FreshFor(gen, t)
      && Repaired(t, {}, gen, 0)[After(at, w, k)] == s[k]
  {
    hide Slots, Cleared, AllIdentified, FreshFor, Repaired;
    var copies := Slots(Cleared(ds[i..e]));
    var a, b := before + Slots(ds[..e]), Slots(ds[e..]) + after;
    SlotsConcat(ds[..e], ds[e..]);
    assert ds == ds[..e] + ds[e..];
    SlotsConcat(ds[..e], Cleared(ds[i..e]));
    SlotsConcat(ds[..e] + Cleared(ds[i..e]), ds[e..]);
    SlotsConcat(ds[..i], ds[i..e]);
    assert ds[..e] == ds[..i] + ds[i..e];
    ClearedSlots(ds[i..e]);
    assert before + Slots(ds) + after == a + b;
    assert before + Slots(WithCopies(ds, i, e)) + after == a + copies + b;
    forall c <- copies ensures c in a || c == Block(None) || c == NotBlock {
      var p :| 0 <= p < |copies| && copies[p] == c;
      assert Slots(ds[i..e])[p] in Slots(ds[..e]);
    }
    InsertedKeepsHolders(a, copies, b, gen, k);
  }

  /** A block of the editor's run as a node of the document; `attrs` renders what is not its id. */
  function AsDoc(n: Outline.Node, attrs: Outline.Node -> string): Doc {
    Doc.Node(true, n.id, attrs(n), if n.content == "" then [] else [Text(n.content)])
  }

  function AsDocs(s: seq<Outline.Node>, attrs: Outline.Node -> string): (r: seq<Doc>)
    ensures |r| == |s|
  {
    seq(|s|, k requires 0 <= k < |s| => AsDoc(s[k], attrs))
  }

  /** The duplicate command, seen as a document, inserts the cleared copies. */
  lemma {:induction false} DuplicateIsWithCopies(s: seq<Outline.Node>, i: nat, attrs: Outline.Node -> string)
    requires i < |s| && forall n: Outline.Node :: attrs(n) == attrs(n.(id := None))
    ensures var e := RunEnd(Outline.Levels(s), i);
      i <= e <= |s| && AsDocs(Outline.Duplicated(s, i), attrs) == WithCopies(AsDocs(s, attrs), i, e)
  {
    hide RunEnd;
    var e := RunEnd(Outline.Levels(s), i);
    var d := AsDocs(s, attrs);
    assert Cleared(d[i..e]) == AsDocs(Outline.Anonymous(s[i..e]), attrs);
    assert AsDocs(Outline.Duplicated(s, i), attrs)
        == AsDocs(s[..e], attrs) + AsDocs(Outline.Anonymous(s[i..e]), attrs) + AsDocs(s[e..], attrs);
    assert d[..e] == AsDocs(s[..e], attrs) && d[e..] == AsDocs(s[e..], attrs);
  }

  // ----- the two forms as the source runs them

  /** The ids the plugin form has seen after the slots: it does not remember the ones it makes. */
  function Noted(s: seq<Slot>, seen: set<string>): set<string>
    decreases |s|
  {
    if s == [] then seen else Noted(s[1..], if Needs(s[0], seen) then seen else Seen(s[0], seen))
  }

  lemma {:induction false} FixesConcat(a: seq<Slot>, b: seq<Slot>, seen: set<string>, gen: Generator, n: nat, pos: nat)
    ensures var fixes := Fixes(a, seen, gen, n, pos);
      && Fixes(a + b, seen, gen, n, pos) == fixes + Fixes(b, Noted(a, seen), gen, n + |fixes|, pos + |a|)
      && Noted(a + b, seen) == Noted(b, Noted(a, seen))
    decreases |a|
  {
    if a == [] {
      assert a + b == b;
    } else {
      assert (a + b)[0] == a[0] && (a + b)[1..] == a[1..] + b;
      if Needs(a[0], seen) {
        FixesConcat(a[1..], b, seen, gen, n + 1, pos + 1);
      } else {
        FixesConcat(a[1..], b, Seen(a[0], seen), gen, n, pos + 1);
      }
    }
  }

  lemma {:induction false} FixesOne(s: Slot, seen: set<string>, gen: Generator, n: nat, pos: nat)
    ensures Fixes([s], seen, gen, n, pos) == if Needs(s, seen) then [Fix(pos, gen(n))] else []
    ensures Noted([s], seen) == if Needs(s, seen) then seen else Seen(s, seen)
  {
    assert [s][1..] == [];
  }

  lemma {:induction false} FixesNone(seen: set<string>, gen: Generator, n: nat, pos: nat)
    ensures Fixes([], seen, gen, n, pos) == [] && Noted([], seen) == seen
  {
  }

  /** The generator, called once for each id: its calls are counted. */
  class IdSource {
    const gen: Generator
    var made: nat

    constructor (gen: Generator)
      ensures this.gen == gen && made == 0
    {
      this.gen := gen;
      made := 0;
    }

    method Generate() returns (id: string)
      modifies this
      ensures id == gen(old(made)) && made == old(made) + 1
    {
      id := gen(made);
      made := made + 1;
    }
  }

  /** `collectFixes`: the traversal in document order, and what its callback updates. */
  class FixCollector {
    const ids: IdSource
    var fixes: seq<Fix>
    var seen: set<string>
    var pos: nat

    constructor (ids: IdSource)
      ensures this.ids == ids && fixes == [] && seen == {} && pos == 0
    {
      this.ids := ids;
      fixes, seen, pos := [], {}, 0;
    }

    /** After the slots `s`: what they add to the fixes, the ids seen and the position. */
    twostate predicate Passed(s: seq<Slot>)
      reads this, ids
    {
      && fixes == old(fixes) + Fixes(s, old(seen), ids.gen, old(ids.made), old(pos))
      && seen == Noted(s, old(seen))
      && ids.made == old(ids.made) + |Fixes(s, old(seen), ids.gen, old(ids.made), old(pos))|
      && pos == old(pos) + |s|
    }

    method Callback(d: Doc)
      modifies this, ids
      ensures Passed([SlotOf(d)])
    {
      FixesOne(SlotOf(d), seen, ids.gen, ids.made, pos);
      if d.Node? && d.block {
        if d.id.None? || d.id.value == "" || d.id.value in seen {
          var id := ids.Generate();
          fixes := fixes + [Fix(pos, id)];
        } else {
          seen := seen + {d.id.value};
        }
      }
      pos := pos + 1;
    }

    method Descendants(ds: seq<Doc>)
      modifies this, ids
      ensures Passed(Slots(ds))
      decreases ds
    {
      hide Fixes, Noted, Slots, SlotOf;
      SlotsUnfold(ds);
      FixesNone(seen, ids.gen, ids.made, pos);
      if ds != [] {
        ghost var seen0, n0, pos0 := seen, ids.made, pos;
        Callback(ds[0]);
        ghost var kids := if ds[0].Node? then Slots(ds[0].children) else [];
        if ds[0].Node? {
          Descendants(ds[0].children);
        } else {
          FixesNone(seen, ids.gen, ids.made, pos);
        }
        FixesConcat([SlotOf(ds[0])], kids, seen0, ids.gen, n0, pos0);
        Descendants(ds[1..]);
        FixesConcat([SlotOf(ds[0])] + kids, Slots(ds[1..]), seen0, ids.gen, n0, pos0);
      }
    }
  }

  /** The appended transaction: nothing when nothing needs an id, else the patched document. */
  method AppendTransaction(ds: seq<Doc>, gen: Generator) returns (r: Option<seq<Doc>>)
    ensures r.None? <==> Fixes(Slots(ds), {}, gen, 0, 0) == []
    ensures r.Some? ==> r.value == PatchAll(ds, Fixes(Slots(ds), {}, gen, 0, 0))
    ensures r.None? <==> AllIdentified(Slots(ds), {})
    ensures r.Some? && FreshFor(gen, Slots(ds)) ==> r.value == Rebuild(ds, {}, gen, 0).docs
  {
    hide Fixes, Noted, Slots, PatchAll, SetIdAt, Rebuild, FreshFor, AllIdentified;
    var ids := new IdSource(gen);
    var collector := new FixCollector(ids);
    collector.Descendants(ds);
    var fixes := collector.fixes;
    assert fixes == Fixes(Slots(ds), {}, gen, 0, 0);
    UnfixedIsIdentified(Slots(ds), {}, gen, 0, 0);
    if fixes == [] {
      return None;
    }
    var doc, k := ds, 0;
    while k < |fixes|
      invariant k <= |fixes|
      invariant PatchAll(doc, fixes[k..]) == PatchAll(ds, fixes)
    {
      PatchAllUnfold(doc, fixes, k);
      doc := SetIdAt(doc, fixes[k].pos, fixes[k].id);
      k := k + 1;
    }
    assert fixes[k..] == [];
    PatchAllNone(doc);
    if FreshFor(gen, Slots(ds)) {
      PatchingIsRebuilding(ds, gen);
    }
    return Some(doc);
  }

  /** Nothing is collected exactly when every block has an id of its own. */
  lemma {:induction false} UnfixedIsIdentified(s: seq<Slot>, seen: set<string>, gen: Generator, n: nat, pos: nat)
    ensures Fixes(s, seen, gen, n, pos) == [] <==> AllIdentified(s, seen)
    decreases |s|
  {
    if AllIdentified(s, seen) {
      NothingToFix(s, seen, gen, n, pos);
    } else if s != [] && !Needs(s[0], seen) {
      UnfixedIsIdentified(s[1..], Seen(s[0], seen), gen, n, pos + 1);
      assert [s[0]] + s[1..] == s;
      if AllIdentified(s[1..], Seen(s[0], seen)) {
        IdentifiedCons(s[0], s[1..], seen);
      }
    }
  }

  /** `assignMissingIds`: the recursion that rebuilds each node, threading the ids seen. */
  class Rebuilder {
    const ids: IdSource
    var seen: set<string>

    constructor (ids: IdSource)
      ensures this.ids == ids && seen == {}
    {
      this.ids := ids;
      seen := {};
    }

    method RebuildAll(ds: seq<Doc>) returns (r: seq<Doc>)
      modifies this, ids
      ensures Rebuilt(r, seen, ids.made) == Rebuild(ds, old(seen), ids.gen, old(ids.made))
      decreases ds
    {
      if ds == [] {
        return [];
      }
      var node := ds[0];
      if node.Node? {
        if node.block {
          if node.id.None? || node.id.value == "" || node.id.value in seen {
            var id := ids.Generate();
            node := node.(id := Some(id));
          }
          seen := seen + {node.id.value};
        }
        var children := RebuildAll(ds[0].children);
        node := node.(children := children);
      }
      var rest := RebuildAll(ds[1..]);
      return [node] + rest;
    }
  }
}
