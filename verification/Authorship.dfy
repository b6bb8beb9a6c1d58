/**
  Which client wrote which characters (packages/editor/src/authorship.ts).

  A text is its list of items. `Visible` spells the text out unit by unit, and the ranges are proved to
  be the only ones that describe it.
 */
module Authorship {
  import opened Common

  datatype Content = Characters | Formatting | Embed

  datatype Item = Item(client: nat, deleted: bool, content: Content, length: nat)

  datatype Range = Range(from: nat, to: nat, client: nat)

  /** The units an item shows: its client for a character, nobody for a unit of an embed. */
  function Units(item: Item): seq<Option<nat>> {
    if item.deleted || item.content.Formatting? then []
    else seq(item.length, _ => if item.content.Characters? then Some(item.client) else None)
  }

  function Visible(items: seq<Item>): seq<Option<nat>> {
    if items == [] then [] else Visible(items[..|items| - 1]) + Units(items[|items| - 1])
  }

  // ----- what ranges say

  predicate Holds(r: Range, p: nat) {
    r.from <= p < r.to
  }

  /** Ranges in order, each with something in it and none overlapping. */
  ghost predicate Ordered(rs: seq<Range>) {
    && (forall k :: 0 <= k < |rs| ==> rs[k].from < rs[k].to)
    && (forall j, k :: 0 <= j < k < |rs| ==> rs[j].to <= rs[k].from)
  }

  /** Ranges that touch belong to different clients. */
  ghost predicate Merged(rs: seq<Range>) {
    forall j, k :: 0 <= j < k < |rs| && rs[j].to == rs[k].from ==> rs[j].client != rs[k].client
  }

  ghost predicate By(rs: seq<Range>, p: nat, client: nat) {
    exists k :: 0 <= k < |rs| && Holds(rs[k], p) && rs[k].client == client
  }

  ghost predicate Written(v: seq<Option<nat>>, p: nat, client: nat) {
    p < |v| && v[p] == Some(client)
  }

  /** The ranges say of every unit who wrote it. */
  ghost predicate Describes(rs: seq<Range>, v: seq<Option<nat>>) {
    && Ordered(rs) && Merged(rs)
    && forall p: nat, c: nat :: By(rs, p, c) <==> Written(v, p, c)
  }

  /** There is only one list of ranges that describes a text. */
  lemma {:induction false} DescriptionIsUnique(a: seq<Range>, b: seq<Range>, v: seq<Option<nat>>)
    requires Describes(a, v) && Describes(b, v)
    ensures a == b
  {
    SamePrefix(a, b, v, Min(|a|, |b|));
    SameCount(a, b, v);
    SameCount(b, a, v);
  }

  lemma {:induction false} SamePrefix(a: seq<Range>, b: seq<Range>, v: seq<Option<nat>>, k: nat)
    requires Describes(a, v) && Describes(b, v) && k <= |a| && k <= |b|
    ensures a[..k] == b[..k]
  {
    if k > 0 {
      SamePrefix(a, b, v, k - 1);
      StartsNoLater(a, b, v, k - 1);
      StartsNoLater(b, a, v, k - 1);
      assert By(a, a[k - 1].from, a[k - 1].client);
      assert By(b, b[k - 1].from, b[k - 1].client);
      EndsNoSooner(a, b, v, k - 1);
      EndsNoSooner(b, a, v, k - 1);
      assert a[..k] == a[..k - 1] + [a[k - 1]] && b[..k] == b[..k - 1] + [b[k - 1]];
    }
  }

  /** The range of `b` that holds where `a`'s range `k` starts is not an earlier one. */
  lemma {:induction false} HolderIsNotEarlier(
      a: seq<Range>, b: seq<Range>, v: seq<Option<nat>>, k: nat) returns (j: nat)
    requires Describes(a, v) && Describes(b, v) && k < |a| && k <= |b| && a[..k] == b[..k]
    ensures k <= j < |b| && Holds(b[j], a[k].from)
  {
    var p := a[k].from;
    assert forall m :: 0 <= m < k ==> a[..k][m] == a[m] && b[..k][m] == b[m];
    assert By(a, p, a[k].client);
    j :| 0 <= j < |b| && Holds(b[j], p) && b[j].client == a[k].client;
  }

  lemma {:induction false} StartsNoLater(a: seq<Range>, b: seq<Range>, v: seq<Option<nat>>, k: nat)
    requires Describes(a, v) && Describes(b, v) && k < |a| && k < |b| && a[..k] == b[..k]
    ensures b[k].from <= a[k].from
  {
    var j := HolderIsNotEarlier(a, b, v, k);
  }

  lemma {:induction false} SameCount(a: seq<Range>, b: seq<Range>, v: seq<Option<nat>>)
    requires Describes(a, v) && Describes(b, v)
    requires a[..Min(|a|, |b|)] == b[..Min(|a|, |b|)]
    ensures |a| <= |b|
  {
    if |a| > |b| {
      var j := HolderIsNotEarlier(a, b, v, |b|);
    }
  }

  lemma {:induction false} EndsNoSooner(a: seq<Range>, b: seq<Range>, v: seq<Option<nat>>, k: nat)
    requires Describes(a, v) && Describes(b, v) && k < |a| && k < |b|
    requires a[k].from == b[k].from && a[k].client == b[k].client
    ensures b[k].to <= a[k].to
  {
    var p, c := a[k].to, a[k].client;
    assert !By(a, p, c);
    assert p < b[k].to ==> Holds(b[k], p);
  }

  // ----- reading the items

  /** `authoredRanges` */
  method AuthoredRanges(items: seq<Item>) returns (ranges: seq<Range>)
    ensures Describes(ranges, Visible(items))
  {
    hide Describes, Visible, Units;
    ranges := [];
    NothingWritten();
    var index, k := 0, 0;
    while k < |items|
      invariant k <= |items|
      invariant index == |Visible(items[..k])|
      invariant WithinText(ranges, Visible(items[..k]))
    {
      var item := items[k];
      ghost var v := Visible(items[..k]);
      VisibleStep(items, k);
      if !item.deleted && !item.content.Formatting? {
        var length := item.length;
        if length > 0 && item.content.Characters? {
          ghost var before := ranges;
          if |ranges| > 0 && ranges[|ranges| - 1].client == item.client && ranges[|ranges| - 1].to == index {
            var last := |ranges| - 1;
            ranges := ranges[last := ranges[last].(to := index + length)];
            Extended(before, v, item);
          } else {
            ranges := ranges + [Range(index, index + length, item.client)];
            Pushed(before, v, item);
          }
          index := index + length;
        } else if length > 0 {
          Skipped(ranges, v, item);
          index := index + length;
        } else {
          Skipped(ranges, v, item);
        }
      } else {
        Skipped(ranges, v, item);
      }
      k := k + 1;
    }
    assert items[..k] == items;
  }

  lemma {:induction false} NothingWritten()
    ensures WithinText([], Visible([])) && |Visible([])| == 0
  {
  }

  lemma {:induction false} VisibleStep(items: seq<Item>, k: nat)
    requires k < |items|
    ensures Visible(items[..k + 1]) == Visible(items[..k]) + Units(items[k])
    ensures |Units(items[k])| == if items[k].deleted || items[k].content.Formatting? then 0 else items[k].length
  {
    assert items[..k + 1][..k] == items[..k];
  }

  ghost predicate WithinText(rs: seq<Range>, v: seq<Option<nat>>) {
    Describes(rs, v) && forall r <- rs :: r.to <= |v|
  }

  ghost predicate ShowsText(item: Item) {
    !item.deleted && item.content.Characters? && item.length > 0
  }

  /** An item that shows no characters changes no range. */
  lemma {:induction false} Skipped(rs: seq<Range>, v: seq<Option<nat>>, item: Item)
    requires WithinText(rs, v) && !ShowsText(item)
    ensures WithinText(rs, v + Units(item))
  {
    var u := Units(item);
    forall p: nat, c: nat ensures By(rs, p, c) <==> Written(v + u, p, c) {
      assert By(rs, p, c) <==> Written(v, p, c);
      if |v| <= p < |v + u| {
        assert (v + u)[p] == u[p - |v|];
      }
    }
  }

  lemma {:induction false} Pushed(rs: seq<Range>, v: seq<Option<nat>>, item: Item)
    requires WithinText(rs, v) && ShowsText(item)
    requires rs == [] || !(rs[|rs| - 1].client == item.client && rs[|rs| - 1].to == |v|)
    ensures WithinText(rs + [Range(|v|, |v| + item.length, item.client)], v + Units(item))
  {
    var r := Range(|v|, |v| + item.length, item.client);
    var rs', v' := rs + [r], v + Units(item);
    assert forall j :: 0 <= j < |rs| - 1 ==> rs[j].to <= rs[|rs| - 1].from < rs[|rs| - 1].to;
    forall p: nat, c: nat ensures By(rs', p, c) <==> Written(v', p, c) {
      assert By(rs, p, c) <==> Written(v, p, c);
      WrittenAppend(v, item, p, c);
      ByAppend(rs, r, p, c);
    }
  }

  lemma {:induction false} Extended(rs: seq<Range>, v: seq<Option<nat>>, item: Item)
    requires WithinText(rs, v) && ShowsText(item)
    requires rs != [] && rs[|rs| - 1].client == item.client && rs[|rs| - 1].to == |v|
    ensures WithinText(rs[|rs| - 1 := rs[|rs| - 1].(to := |v| + item.length)], v + Units(item))
  {
    var last := |rs| - 1;
    var r := rs[last].(to := |v| + item.length);
    var rs', v' := rs[last := r], v + Units(item);
    assert rs == rs[..last] + [rs[last]] && rs' == rs[..last] + [r];
    forall p: nat, c: nat ensures By(rs', p, c) <==> Written(v', p, c) {
      assert By(rs, p, c) <==> Written(v, p, c);
      WrittenAppend(v, item, p, c);
      ByAppend(rs[..last], rs[last], p, c);
      ByAppend(rs[..last], r, p, c);
    }
  }

  lemma {:induction false} WrittenAppend(v: seq<Option<nat>>, item: Item, p: nat, c: nat)
    requires ShowsText(item)
    ensures Written(v + Units(item), p, c)
        <==> Written(v, p, c) || (|v| <= p < |v| + item.length && c == item.client)
  {
    var u := Units(item);
    assert |v| <= p < |v| + item.length ==> (v + u)[p] == u[p - |v|];
  }

  lemma {:induction false} ByAppend(rs: seq<Range>, r: Range, p: nat, c: nat)
    ensures By(rs + [r], p, c) <==> By(rs, p, c) || (Holds(r, p) && r.client == c)
  {
    var rs' := rs + [r];
    assert rs'[|rs|] == r;
    if By(rs, p, c) {
      var k :| 0 <= k < |rs| && Holds(rs[k], p) && rs[k].client == c;
      assert rs'[k] == rs[k];
    }
  }

  // ----- keeping some clients

  ghost predicate Covers(rs: seq<Range>, p: nat) {
    exists k :: 0 <= k < |rs| && Holds(rs[k], p)
  }

  ghost predicate CoveredBy(rs: seq<Range>, clients: set<nat>, p: nat) {
    exists k :: 0 <= k < |rs| && Holds(rs[k], p) && rs[k].client in clients
  }

  ghost predicate Apart(rs: seq<Range>) {
    && (forall k :: 0 <= k < |rs| ==> rs[k].from < rs[k].to)
    && (forall j, k :: 0 <= j < k < |rs| ==> rs[j].to < rs[k].from)
  }

  /** No range ends before it starts. */
  ghost predicate Forward(rs: seq<Range>) {
    forall k :: 0 <= k < |rs| ==> rs[k].from <= rs[k].to
  }

  ghost predicate SameUnits(kept: seq<Range>, rs: seq<Range>, clients: set<nat>) {
    Forward(kept) && forall p: nat :: Covers(kept, p) <==> CoveredBy(rs, clients, p)
  }

  /** Kept ranges are apart and end before the rest starts. */
  ghost predicate Behind(kept: seq<Range>, rs: seq<Range>, i: nat) {
    Apart(kept) && forall j, k :: 0 <= j < |kept| && i <= k < |rs| ==> kept[j].to <= rs[k].from
  }

  /**
    `rangesForClients`: whatever the ranges, the units covered are those of the chosen clients; from
    ordered ranges the result is ordered and nothing in it touches.
   */
  method RangesForClients(ranges: seq<Range>, clients: set<nat>) returns (kept: seq<Range>)
    ensures Forward(ranges) ==> forall p: nat :: Covers(kept, p) <==> CoveredBy(ranges, clients, p)
    ensures Ordered(ranges) ==> Apart(kept)
  {
    hide Covers, CoveredBy, Ordered, Behind;
    kept := [];
    NothingKept(ranges, clients);
    var i := 0;
    while i < |ranges|
      invariant i <= |ranges|
      invariant Forward(ranges) ==> SameUnits(kept, ranges[..i], clients)
      invariant Ordered(ranges) ==> Behind(kept, ranges, i)
    {
      var range := ranges[i];
      ghost var before := kept;
      assert ranges[..i + 1] == ranges[..i] + [range];
      if range.client in clients {
        if |kept| > 0 && kept[|kept| - 1].to == range.from {
          var last := |kept| - 1;
          kept := kept[last := kept[last].(to := range.to)];
          if Forward(ranges) {
            CoversExtended(before, ranges[..i], range, clients);
          }
        } else {
          kept := kept + [range];
          if Forward(ranges) {
            CoversPushed(before, ranges[..i], range, clients);
          }
        }
      } else {
        CoversSkipped(ranges[..i], range, clients);
      }
      if Ordered(ranges) {
        StaysBehind(before, kept, ranges, i);
      }
      i := i + 1;
    }
    assert ranges[..i] == ranges;
    if Ordered(ranges) {
      BehindIsApart(kept, ranges, i);
    }
  }

  lemma {:induction false} NothingKept(ranges: seq<Range>, clients: set<nat>)
    ensures SameUnits([], ranges[..0], clients) && Behind([], ranges, 0)
  {
  }

  lemma {:induction false} BehindIsApart(kept: seq<Range>, ranges: seq<Range>, i: nat)
    requires Behind(kept, ranges, i)
    ensures Apart(kept)
  {
  }

  lemma {:induction false} StaysBehind(kept: seq<Range>, kept': seq<Range>, ranges: seq<Range>, i: nat)
    requires Ordered(ranges) && i < |ranges| && Behind(kept, ranges, i)
    requires
      || kept' == kept
      || (kept != [] && kept[|kept| - 1].to == ranges[i].from
        && kept' == kept[|kept| - 1 := kept[|kept| - 1].(to := ranges[i].to)])
      || (!(kept != [] && kept[|kept| - 1].to == ranges[i].from) && kept' == kept + [ranges[i]])
    ensures Behind(kept', ranges, i + 1)
  {
    if kept' == kept + [ranges[i]] {
      forall j | 0 <= j < |kept| ensures kept[j].to < ranges[i].from {
        assert j < |kept| - 1 ==> kept[j].to < kept[|kept| - 1].from < kept[|kept| - 1].to;
      }
    }
  }

  lemma {:induction false} CoversSkipped(rs: seq<Range>, r: Range, clients: set<nat>)
    requires r.client !in clients
    ensures forall p: nat :: CoveredBy(rs + [r], clients, p) <==> CoveredBy(rs, clients, p)
  {
    forall p: nat ensures CoveredBy(rs + [r], clients, p) <==> CoveredBy(rs, clients, p) {
      CoveredByAppend(rs, r, clients, p);
    }
  }

  lemma {:induction false} CoversPushed(kept: seq<Range>, rs: seq<Range>, r: Range, clients: set<nat>)
    requires r.client in clients && SameUnits(kept, rs, clients) && r.from <= r.to
    ensures SameUnits(kept + [r], rs + [r], clients)
  {
    forall p: nat ensures Covers(kept + [r], p) <==> CoveredBy(rs + [r], clients, p) {
      CoveredByAppend(rs, r, clients, p);
      CoversAppend(kept, r, p);
      assert Covers(kept, p) <==> CoveredBy(rs, clients, p);
    }
  }

  lemma {:induction false} CoversExtended(kept: seq<Range>, rs: seq<Range>, r: Range, clients: set<nat>)
    requires r.client in clients && SameUnits(kept, rs, clients)
    requires kept != [] && kept[|kept| - 1].to == r.from <= r.to
    ensures SameUnits(kept[|kept| - 1 := kept[|kept| - 1].(to := r.to)], rs + [r], clients)
  {
    var last := |kept| - 1;
    var grown := kept[last].(to := r.to);
    var kept' := kept[last := grown];
    assert kept == kept[..last] + [kept[last]] && kept' == kept[..last] + [grown];
    forall p: nat ensures Covers(kept', p) <==> CoveredBy(rs + [r], clients, p) {
      CoveredByAppend(rs, r, clients, p);
      CoversAppend(kept[..last], kept[last], p);
      CoversAppend(kept[..last], grown, p);
      assert Covers(kept, p) <==> CoveredBy(rs, clients, p);
    }
  }

  lemma {:induction false} CoversAppend(rs: seq<Range>, r: Range, p: nat)
    ensures Covers(rs + [r], p) <==> Covers(rs, p) || Holds(r, p)
  {
    var rs' := rs + [r];
    assert rs'[|rs|] == r;
    if Covers(rs, p) {
      var k :| 0 <= k < |rs| && Holds(rs[k], p);
      assert rs'[k] == rs[k];
    }
  }

  lemma {:induction false} CoveredByAppend(rs: seq<Range>, r: Range, clients: set<nat>, p: nat)
    ensures CoveredBy(rs + [r], clients, p) <==> CoveredBy(rs, clients, p) || (Holds(r, p) && r.client in clients)
  {
    var rs' := rs + [r];
    assert rs'[|rs|] == r;
    if CoveredBy(rs, clients, p) {
      var k :| 0 <= k < |rs| && Holds(rs[k], p) && rs[k].client in clients;
      assert rs'[k] == rs[k];
    }
  }

  /** The two together: a unit is highlighted exactly when a chosen client wrote it. */
  lemma {:induction false} HighlightIsExact(rs: seq<Range>, v: seq<Option<nat>>, clients: set<nat>, p: nat)
    requires Describes(rs, v)
    ensures CoveredBy(rs, clients, p) <==> p < |v| && v[p].Some? && v[p].value in clients
  {
    if CoveredBy(rs, clients, p) {
      var k :| 0 <= k < |rs| && Holds(rs[k], p) && rs[k].client in clients;
      assert By(rs, p, rs[k].client);
    }
    if p < |v| && v[p].Some? && v[p].value in clients {
      assert Written(v, p, v[p].value);
      var k :| 0 <= k < |rs| && Holds(rs[k], p) && rs[k].client == v[p].value;
    }
  }
}
