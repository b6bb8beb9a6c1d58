/**
  Inline text as Markdown (packages/core/src/doc/inlineMarkdown.ts): the writer.

  What is written is a trace of events: a mark opens or closes, white space or the core of an op is
  written. The theorems are about that trace; the method writes its rendering.
 */
module Markdown {
  import opened Common

  /** A JSON value; a string is kept apart because the writer looks for two of them. */
  datatype Value = Null | Text(text: string) | Other(json: string) | Object(fields: seq<Field>)

  /** A member of a record, in the order the record holds them. A mark is one: its name and attributes. */
  datatype Field = Field(name: string, value: Value)

  /** A delta op; a record that is absent is empty. */
  datatype Op = Op(insert: string, attributes: seq<Field>)

  const MARK_ORDER: seq<string> := ["link", "strong", "em", "strikethrough", "inlineCode"]

  function Get(fields: seq<Field>, name: string): Option<Value> {
    if fields == [] then None
    else if fields[0].name == name then Some(fields[0].value)
    else Get(fields[1..], name)
  }

  function OpsText(ops: seq<Op>): string {
    if ops == [] then "" else ops[0].insert + OpsText(ops[1..])
  }

  // ----- escaping

  predicate Special(c: char) {
    c in "\\*_`~[]"
  }

  function Escape(text: string): string {
    if text == "" then ""
    else (if Special(text[0]) then ['\\', text[0]] else [text[0]]) + Escape(text[1..])
  }

  /** Drop each backslash that has a character after it. */
  function Unescape(text: string): string {
    if text == "" then ""
    else if text[0] == '\\' && |text| > 1 then [text[1]] + Unescape(text[2..])
    else [text[0]] + Unescape(text[1..])
  }

  lemma {:induction false} UnescapeEscape(text: string)
    ensures Unescape(Escape(text)) == text
  {
    if text != "" {
      var rest := Escape(text[1..]);
      UnescapeEscape(text[1..]);
      if Special(text[0]) {
        assert Escape(text)[2..] == rest;
      } else {
        assert Escape(text)[1..] == rest;
      }
      assert text == [text[0]] + text[1..];
    }
  }

  lemma {:induction false} EscapeConcat(a: string, b: string)
    ensures Escape(a + b) == Escape(a) + Escape(b)
  {
    if a == "" {
      assert a + b == b;
    } else {
      assert (a + b)[1..] == a[1..] + b;
      EscapeConcat(a[1..], b);
    }
  }

  lemma {:induction false} SpaceIsNotSpecial(c: char)
    requires IsSpace(c)
    ensures !Special(c)
  {
  }

  lemma {:induction false} EscapeBlank(a: string)
    requires Blank(a)
    ensures Escape(a) == a
  {
    hide IsSpace, Special;
    if a != "" {
      SpaceIsNotSpecial(a[0]);
      EscapeBlank(a[1..]);
      assert a == [a[0]] + a[1..];
    }
  }

  // ----- the parts of an op

  /** The length of the white space a text starts with. */
  function LeadLength(s: string): (n: nat)
    ensures n <= |s|
    ensures Blank(s[..n]) && (n < |s| ==> !IsSpace(s[n]))
  {
    if s == "" || !IsSpace(s[0]) then 0
    else
      var n := LeadLength(s[1..]);
      assert s[1..][..n] == s[1..n + 1] && s[..n + 1] == [s[0]] + s[1..n + 1];
      n + 1
  }

  /** Where the white space a text ends with starts. */
  function TrailStart(s: string): (n: nat)
    ensures n <= |s|
    ensures Blank(s[n..]) && (n > 0 ==> !IsSpace(s[n - 1]))
  {
    if s == "" || !IsSpace(s[|s| - 1]) then |s|
    else
      var n := TrailStart(s[..|s| - 1]);
      assert s[n..] == s[..|s| - 1][n..] + [s[|s| - 1]];
      n
  }

  datatype Parts = Parts(lead: string, core: string, trail: string)

  /** The white space before, the core, and the white space after it. */
  function Split(s: string): (p: Parts)
    ensures p.lead + p.core + p.trail == s && Blank(p.lead) && Blank(p.trail)
    ensures p.core == "" <==> Blank(s)
    ensures p.core != "" ==> !IsSpace(p.core[0]) && !IsSpace(p.core[|p.core| - 1])
  {
    hide IsSpace, LeadLength, TrailStart;
    var n := LeadLength(s);
    if n == |s| then
      assert s[..n] == s;
      Parts(s, "", "")
    else
      var m := TrailStart(s);
      CoreIsNotEmpty(s, n, m);
      Parts(s[..n], s[n..m], s[m..])
  }

  lemma {:induction false} CoreIsNotEmpty(s: string, n: nat, m: nat)
    requires n < |s| && m <= |s| && !IsSpace(s[n]) && Blank(s[m..]) && (m > 0 ==> !IsSpace(s[m - 1]))
    ensures n < m && !Blank(s)
    ensures s[..n] + s[n..m] + s[m..] == s
    ensures var core := s[n..m]; core != "" && !IsSpace(core[0]) && !IsSpace(core[|core| - 1])
  {
    hide IsSpace;
    forall k | m <= k < |s| ensures IsSpace(s[k]) {
      assert s[k] == s[m..][k - m];
    }
    assert s[n] in s;
  }

  /** The marks of an op, outermost first. */
  function MarksOf(attributes: seq<Field>, order: seq<string>): seq<Field> {
    if order == [] then []
    else
      var v := Get(attributes, order[0]);
      (if v.Some? && v != Some(Null) then [Field(order[0], v.value)] else []) + MarksOf(attributes, order[1..])
  }

  function Wanted(op: Op): seq<Field> {
    MarksOf(op.attributes, MARK_ORDER)
  }

  /** An op's marks are its attributes that name a mark and are not null. */
  lemma {:induction false} MarksAre(attributes: seq<Field>, order: seq<string>, m: Field)
    ensures m in MarksOf(attributes, order)
       <==> m.name in order && Get(attributes, m.name) == Some(m.value) && m.value != Null
  {
    if order != [] {
      MarksAre(attributes, order[1..], m);
      assert order == [order[0]] + order[1..];
    }
  }

  /** How far inside a mark is written. */
  function Rank(name: string): nat {
    if name == "link" then 0
    else if name == "strong" then 1
    else if name == "em" then 2
    else if name == "strikethrough" then 3
    else 4
  }

  ghost predicate OuterFirst(m: seq<Field>) {
    forall j, k :: 0 <= j < k < |m| ==> Rank(m[j].name) < Rank(m[k].name)
  }

  /** Of two marks on one op the link opens first, then strong, em, strikethrough and code. */
  lemma {:induction false} OuterMarksFirst(op: Op)
    ensures var w := Wanted(op);
      && (forall m <- w :: m.name in {"link", "strong", "em", "strikethrough", "inlineCode"})
      && OuterFirst(w)
  {
    hide MarksOf, Rank;
    OrderIsRanked();
    MarksInOrder(op.attributes, MARK_ORDER);
    forall m <- Wanted(op) ensures m.name in {"link", "strong", "em", "strikethrough", "inlineCode"} {
      assert m.name in MARK_ORDER;
    }
  }

  lemma {:induction false} OrderIsRanked()
    ensures forall j, k :: 0 <= j < k < |MARK_ORDER| ==> Rank(MARK_ORDER[j]) < Rank(MARK_ORDER[k])
    ensures forall k :: 0 <= k < |MARK_ORDER| ==>
        MARK_ORDER[k] in {"link", "strong", "em", "strikethrough", "inlineCode"}
  {
    assert MARK_ORDER[0] == "link" && MARK_ORDER[1] == "strong" && MARK_ORDER[2] == "em";
    assert MARK_ORDER[3] == "strikethrough" && MARK_ORDER[4] == "inlineCode";
  }

  lemma {:induction false} MarksInOrder(attributes: seq<Field>, order: seq<string>)
    requires forall j, k :: 0 <= j < k < |order| ==> Rank(order[j]) < Rank(order[k])
    ensures var m := MarksOf(attributes, order);
      && (forall x <- m :: x.name in order)
      && OuterFirst(m)
  {
    hide Rank, Get;
    if order != [] {
      var m, rest := MarksOf(attributes, order), MarksOf(attributes, order[1..]);
      MarksInOrder(attributes, order[1..]);
      assert order == [order[0]] + order[1..];
      forall x <- rest ensures x.name in order && Rank(order[0]) < Rank(x.name) {
        LaterIsInner(order, x.name);
      }
      assert m == rest || (m[1..] == rest && m == [m[0]] + rest && m[0].name == order[0]);
    }
  }

  lemma {:induction false} LaterIsInner(order: seq<string>, name: string)
    requires order != [] && name in order[1..]
    requires forall j, k :: 0 <= j < k < |order| ==> Rank(order[j]) < Rank(order[k])
    ensures name in order && Rank(order[0]) < Rank(name)
  {
    hide Rank;
    var tail := order[1..];
    var j :| 0 <= j < |tail| && tail[j] == name;
    assert order[j + 1] == name;
  }

  // ----- the trace

  datatype Event = Opened(mark: Field) | Closed(mark: Field) | Space(text: string) | Core(text: string, code: bool)

  function Closes(active: seq<Field>, keep: nat): seq<Event> {
    if |active| <= keep then []
    else [Closed(active[|active| - 1])] + Closes(active[..|active| - 1], keep)
  }

  function Opens(wanted: seq<Field>, keep: nat): seq<Event>
    decreases |wanted| - keep
  {
    if |wanted| <= keep then [] else [Opened(wanted[keep])] + Opens(wanted, keep + 1)
  }

  /** How many marks from the bottom two stacks share. */
  function Shared(a: seq<Field>, b: seq<Field>): (n: nat)
    ensures n <= |a| && n <= |b| && a[..n] == b[..n]
    ensures n < |a| && n < |b| ==> a[n] != b[n]
  {
    if a == [] || b == [] || a[0] != b[0] then 0
    else
      var n := Shared(a[1..], b[1..]);
      assert a[..n + 1] == [a[0]] + a[1..][..n] && b[..n + 1] == [b[0]] + b[1..][..n];
      n + 1
  }

  predicate IsCode(marks: seq<Field>) {
    exists k :: 0 <= k < |marks| && marks[k].name == "inlineCode"
  }

  /** From one op's core to the next: close, white space, open, core. */
  function Turn(active: seq<Field>, held: string, op: Op): seq<Event> {
    var p, wanted := Split(op.insert), Wanted(op);
    Closes(active, Shared(active, wanted)) + [Space(held + p.lead)] + Opens(wanted, Shared(active, wanted))
      + [Core(p.core, IsCode(wanted))]
  }

  function TraceFrom(ops: seq<Op>, active: seq<Field>, held: string): seq<Event> {
    if ops == [] then Closes(active, 0) + [Space(held)]
    else
      var p := Split(ops[0].insert);
      if p.core == "" then TraceFrom(ops[1..], active, held + ops[0].insert)
      else Turn(active, held, ops[0]) + TraceFrom(ops[1..], Wanted(ops[0]), p.trail)
  }

  function Trace(ops: seq<Op>): seq<Event> {
    TraceFrom(ops, [], "")
  }

  // ----- reading a trace

  /** The marks open after an event, unless it closes one that was not opened last. */
  function Step(e: Event, open: seq<Field>): Option<seq<Field>> {
    match e
    case Opened(m) => Some(open + [m])
    case Closed(m) => if open == [] || open[|open| - 1] != m then None else Some(open[..|open| - 1])
    case _ => Some(open)
  }

  function Follow(trace: seq<Event>, open: seq<Field>): Option<seq<Field>> {
    if trace == [] then Some(open)
    else
      var next := Step(trace[0], open);
      if next.None? then None else Follow(trace[1..], next.value)
  }

  datatype Marked = Marked(text: string, marks: seq<Field>)

  function CoreOf(e: Event, open: seq<Field>): seq<Marked> {
    if e.Core? then [Marked(e.text, open)] else []
  }

  /** The cores of a trace, each with the marks open where it is written. */
  function Cores(trace: seq<Event>, open: seq<Field>): seq<Marked> {
    if trace == [] then []
    else
      var next := Step(trace[0], open);
      CoreOf(trace[0], open) + (if next.None? then [] else Cores(trace[1..], next.value))
  }

  function WordsOf(e: Event): string {
    if e.Space? || e.Core? then e.text else ""
  }

  /** What is left of a trace without the delimiters. */
  function Words(trace: seq<Event>): string {
    if trace == [] then "" else WordsOf(trace[0]) + Words(trace[1..])
  }

  /** The cores the ops ask for, each with its op's marks. */
  function Asked(ops: seq<Op>): seq<Marked> {
    if ops == [] then []
    else
      var core := Split(ops[0].insert).core;
      (if core == "" then [] else [Marked(core, Wanted(ops[0]))]) + Asked(ops[1..])
  }

  // ----- the theorems

  /** What a trace does from the marks `open`: the marks left open, its cores and its text. */
  ghost predicate Does(trace: seq<Event>, open: seq<Field>, left: seq<Field>, cores: seq<Marked>, text: string) {
    Follow(trace, open) == Some(left) && Cores(trace, open) == cores && Words(trace) == text
  }

  lemma {:induction false} DoesBoth(
      a: seq<Event>, b: seq<Event>, open: seq<Field>, middle: seq<Field>, left: seq<Field>, c: seq<Marked>,
      d: seq<Marked>, s: string, t: string)
    requires Does(a, open, middle, c, s) && Does(b, middle, left, d, t)
    ensures Does(a + b, open, left, c + d, s + t)
  {
    hide Follow, Cores, Words;
    FollowConcat(a, b, open);
    WordsConcat(a, b);
  }

  lemma {:induction false} FollowConcat(a: seq<Event>, b: seq<Event>, open: seq<Field>)
    requires Follow(a, open).Some?
    ensures Follow(a + b, open) == Follow(b, Follow(a, open).value)
    ensures Cores(a + b, open) == Cores(a, open) + Cores(b, Follow(a, open).value)
    decreases |a|
  {
    hide Step, CoreOf;
    if a == [] {
      assert a + b == b;
    } else {
      assert (a + b)[0] == a[0] && (a + b)[1..] == a[1..] + b;
      FollowConcat(a[1..], b, Step(a[0], open).value);
    }
  }

  lemma {:induction false} WordsConcat(a: seq<Event>, b: seq<Event>)
    ensures Words(a + b) == Words(a) + Words(b)
    decreases |a|
  {
    hide WordsOf;
    if a == [] {
      assert a + b == b;
    } else {
      assert (a + b)[0] == a[0] && (a + b)[1..] == a[1..] + b;
      WordsConcat(a[1..], b);
    }
  }

  lemma {:induction false} DoesOne(e: Event, open: seq<Field>)
    requires e.Space? || e.Core?
    ensures Does([e], open, open, CoreOf(e, open), e.text)
  {
    assert [e][1..] == [];
  }

  lemma {:induction false} ClosesFollow(active: seq<Field>, keep: nat)
    requires keep <= |active|
    ensures Does(Closes(active, keep), active, active[..keep], [], "")
    decreases |active|
  {
    if |active| > keep {
      var less := active[..|active| - 1];
      ClosesFollow(less, keep);
      assert less[..keep] == active[..keep];
      assert Closes(active, keep)[1..] == Closes(less, keep);
    } else {
      assert active[..keep] == active;
    }
  }

  lemma {:induction false} OpensFollow(wanted: seq<Field>, keep: nat)
    requires keep <= |wanted|
    ensures Does(Opens(wanted, keep), wanted[..keep], wanted, [], "")
    decreases |wanted| - keep
  {
    if |wanted| > keep {
      OpensFollow(wanted, keep + 1);
      assert wanted[..keep] + [wanted[keep]] == wanted[..keep + 1];
      assert Opens(wanted, keep)[1..] == Opens(wanted, keep + 1);
    } else {
      assert wanted[..keep] == wanted;
    }
  }

  lemma {:induction false} NoMore(s: string)
    ensures "" + s == s && s + "" == s
    ensures var none: seq<Marked> := []; none + none == none
  {
  }

  lemma {:induction false} TurnDoes(active: seq<Field>, held: string, op: Op)
    ensures var p := Split(op.insert);
      Does(Turn(active, held, op), active, Wanted(op), [Marked(p.core, Wanted(op))], held + p.lead + p.core)
  {
    hide Closes, Opens, Split, Wanted, IsCode, Does;
    var p, wanted := Split(op.insert), Wanted(op);
    var keep := Shared(active, wanted);
    var a, b, c, d := Closes(active, keep), [Space(held + p.lead)], Opens(wanted, keep), [Core(p.core, IsCode(wanted))];
    ClosesFollow(active, keep);
    DoesOne(b[0], active[..keep]);
    NoMore(held + p.lead);
    DoesBoth(a, b, active, active[..keep], active[..keep], [], [], "", held + p.lead);
    OpensFollow(wanted, keep);
    DoesBoth(a + b, c, active, wanted[..keep], wanted, [], [], held + p.lead, "");
    DoesOne(d[0], wanted);
    assert [] + [Marked(p.core, wanted)] == [Marked(p.core, wanted)];
    DoesBoth(a + b + c, d, active, wanted, wanted, [], [Marked(p.core, wanted)], held + p.lead, p.core);
  }

  /**
    The trace is properly nested and closes all it opens; every core is written under exactly its op's
    marks; without the delimiters it is the text.
   */
  lemma {:induction false} TraceDoes(ops: seq<Op>, active: seq<Field>, held: string)
    ensures Does(TraceFrom(ops, active, held), active, [], Asked(ops), held + OpsText(ops))
    decreases |ops|
  {
    hide Closes, Turn, Wanted, Does, Split;
    if ops == [] {
      NoMore(held);
      ClosesFollow(active, 0);
      DoesOne(Space(held), []);
      DoesBoth(Closes(active, 0), [Space(held)], active, [], [], [], [], "", held);
    } else {
      var p, rest := Split(ops[0].insert), ops[1..];
      if p.core == "" {
        TraceDoes(rest, active, held + ops[0].insert);
        assert [] + Asked(rest) == Asked(rest);
        assert held + OpsText(ops) == held + ops[0].insert + OpsText(rest);
      } else {
        var wanted := Wanted(ops[0]);
        TurnDoes(active, held, ops[0]);
        TraceDoes(rest, wanted, p.trail);
        DoesBoth(Turn(active, held, ops[0]), TraceFrom(rest, wanted, p.trail), active, wanted, [],
          [Marked(p.core, wanted)], Asked(rest), held + p.lead + p.core, p.trail + OpsText(rest));
        assert held + OpsText(ops) == held + p.lead + p.core + (p.trail + OpsText(rest));
      }
    }
  }

  lemma {:induction false} TraceIsNested(ops: seq<Op>)
    ensures Follow(Trace(ops), []) == Some([])
    ensures Cores(Trace(ops), []) == Asked(ops)
    ensures Words(Trace(ops)) == OpsText(ops)
  {
    TraceDoes(ops, [], "");
  }

  // ----- where marks open and close

  /** A core starts and ends with a letter, and what is between cores is white space. */
  ghost predicate Proper(e: Event) {
    && (e.Core? ==> e.text != "" && !IsSpace(e.text[0]) && !IsSpace(e.text[|e.text| - 1]))
    && (e.Space? ==> Blank(e.text))
  }

  /** A mark opens against the next core and closes against the last one. */
  predicate Fits(e: Event, next: Event) {
    && (e.Opened? ==> next.Opened? || next.Core?)
    && (next.Closed? ==> e.Closed? || e.Core?)
  }

  predicate EndsSpan(e: Event) {
    e.Closed? || e.Space?
  }

  ghost predicate Flanking(trace: seq<Event>) {
    && (forall k :: 0 <= k < |trace| ==> Proper(trace[k]))
    && (forall k :: 0 < k < |trace| ==> Fits(trace[k - 1], trace[k]))
  }

  /** No mark is closed and then, after white space only, opened again. */
  ghost predicate NoReopening(trace: seq<Event>) {
    forall k :: 0 <= k < |trace| - 1 && trace[k].Closed? ==> !ReopenedAt(trace, k)
  }

  ghost predicate ReopenedAt(trace: seq<Event>, k: nat)
    requires k < |trace| - 1 && trace[k].Closed?
  {
    || trace[k + 1] == Opened(trace[k].mark)
    || (k + 2 < |trace| && trace[k + 1].Space? && trace[k + 2] == Opened(trace[k].mark))
  }

  lemma {:induction false} FlankingConcat(a: seq<Event>, b: seq<Event>)
    requires Flanking(a) && Flanking(b) && (a != [] && b != [] ==> Fits(a[|a| - 1], b[0]))
    ensures Flanking(a + b)
  {
    hide Proper, Fits;
    var t := a + b;
    forall k | 0 <= k < |t| ensures Proper(t[k]) {
      assert k >= |a| ==> t[k] == b[k - |a|];
    }
    forall k | 0 < k < |t| ensures Fits(t[k - 1], t[k]) {
      assert k > |a| ==> t[k - 1] == b[k - |a| - 1] && t[k] == b[k - |a|];
    }
  }

  lemma {:induction false} ClosesShape(active: seq<Field>, keep: nat)
    requires keep <= |active|
    ensures var c := Closes(active, keep);
      && |c| == |active| - keep
      && (forall k :: 0 <= k < |c| ==> c[k].Closed?)
      && (c != [] ==> c[|c| - 1] == Closed(active[keep]))
    decreases |active|
  {
    if |active| > keep {
      ClosesShape(active[..|active| - 1], keep);
    }
  }

  lemma {:induction false} OpensShape(wanted: seq<Field>, keep: nat)
    requires keep <= |wanted|
    ensures var o := Opens(wanted, keep);
      && |o| == |wanted| - keep
      && (forall k :: 0 <= k < |o| ==> o[k].Opened?)
      && (o != [] ==> o[0] == Opened(wanted[keep]))
    decreases |wanted| - keep
  {
    if |wanted| > keep {
      OpensShape(wanted, keep + 1);
    }
  }

  /** A turn: marks that close, white space, marks that open, and a core. */
  ghost predicate TurnShape(t: seq<Event>, c: nat, o: nat) {
    && |t| == c + o + 2
    && (forall k :: 0 <= k < c ==> t[k].Closed?)
    && t[c].Space?
    && (forall k :: c < k <= c + o ==> t[k].Opened?)
    && t[c + o + 1].Core?
    && (c > 0 && o > 0 ==> t[c - 1].mark != t[c + 1].mark)
  }

  lemma {:induction false} TurnIsTidy(active: seq<Field>, held: string, op: Op)
    requires Blank(held) && Split(op.insert).core != ""
    ensures var t := Turn(active, held, op);
      t != [] && Flanking(t) && NoReopening(t) && EndsSpan(t[0]) && t[|t| - 1].Core?
  {
    hide Split, Wanted, IsCode, Closes, Opens, IsSpace;
    var p, wanted := Split(op.insert), Wanted(op);
    var keep := Shared(active, wanted);
    var c, o := |active| - keep, |wanted| - keep;
    var t := Turn(active, held, op);
    ClosesShape(active, keep);
    OpensShape(wanted, keep);
    assert t[c] == Space(held + p.lead) && t[c + o + 1] == Core(p.core, IsCode(wanted));
    forall k | c < k <= c + o ensures t[k].Opened? {
      assert t[k] == Opens(wanted, keep)[k - c - 1];
    }
    assert TurnShape(t, c, o);
    ShapeIsTidy(t, c, o);
  }

  lemma {:induction false} ShapeIsTidy(t: seq<Event>, c: nat, o: nat)
    requires TurnShape(t, c, o) && Proper(t[c]) && Proper(t[c + o + 1])
    ensures Flanking(t) && NoReopening(t)
  {
    hide IsSpace;
    forall k | 0 <= k < |t| ensures Proper(t[k]) {
      assert k < c || k == c || c < k <= c + o || k == c + o + 1;
    }
    forall k | 0 < k < |t| ensures Fits(t[k - 1], t[k]) {
      assert k < c || k == c || c < k <= c + o || k == c + o + 1;
    }
    forall k | 0 <= k < |t| - 1 && t[k].Closed? ensures !ReopenedAt(t, k) {
      assert k < c;
    }
  }

  lemma {:induction false} NoReopeningConcat(a: seq<Event>, b: seq<Event>)
    requires NoReopening(a) && NoReopening(b) && a != [] && a[|a| - 1].Core?
    ensures NoReopening(a + b)
  {
    var t := a + b;
    forall k | 0 <= k < |t| - 1 && t[k].Closed? ensures !ReopenedAt(t, k) {
      if k < |a| {
        assert t[k] == a[k] && t[k + 1] == a[k + 1];
        assert !ReopenedAt(a, k);
      } else {
        assert t[k] == b[k - |a|] && t[k + 1] == b[k + 1 - |a|];
        assert !ReopenedAt(b, k - |a|);
      }
    }
  }

  lemma {:induction false} TraceIsTidy(ops: seq<Op>, active: seq<Field>, held: string)
    requires Blank(held)
    ensures var t := TraceFrom(ops, active, held);
      && t != [] && Flanking(t) && NoReopening(t) && EndsSpan(t[0]) && t[|t| - 1].Space?
      && (active == [] ==> t[0].Space?)
    decreases |ops|
  {
    hide Flanking, NoReopening, Turn, Wanted, Split, Blank;
    if ops == [] {
      LastIsTidy(active, held);
    } else {
      var p, rest := Split(ops[0].insert), ops[1..];
      if p.core == "" {
        BlankConcat(held, ops[0].insert);
        TraceIsTidy(rest, active, held + ops[0].insert);
      } else {
        var turn, after := Turn(active, held, ops[0]), TraceFrom(rest, Wanted(ops[0]), p.trail);
        TurnIsTidy(active, held, ops[0]);
        FirstOfTurn(held, ops[0]);
        TraceIsTidy(rest, Wanted(ops[0]), p.trail);
        FlankingConcat(turn, after);
        NoReopeningConcat(turn, after);
      }
    }
  }

  lemma {:induction false} FirstOfTurn(held: string, op: Op)
    ensures Turn([], held, op)[0].Space?
  {
  }

  lemma {:induction false} BlankConcat(a: string, b: string)
    requires Blank(a) && Blank(b)
    ensures Blank(a + b)
  {
  }

  lemma {:induction false} LastIsTidy(active: seq<Field>, held: string)
    requires Blank(held)
    ensures var t := Closes(active, 0) + [Space(held)];
      t != [] && Flanking(t) && NoReopening(t) && EndsSpan(t[0]) && t[|t| - 1].Space? && (active == [] ==> t[0].Space?)
  {
    hide Closes, IsSpace;
    ClosesShape(active, 0);
  }

  /** Marks open and close against letters, and never for nothing. */
  lemma {:induction false} MarksHugTheWords(ops: seq<Op>)
    ensures var t := Trace(ops);
      t != [] && Flanking(t) && NoReopening(t) && t[0].Space? && t[|t| - 1].Space?
  {
    TraceIsTidy(ops, [], "");
  }

  // ----- the written text

  function OpenText(name: string): string {
    match name
    case "strong" => "**"
    case "em" => "*"
    case "strikethrough" => "~~"
    case "inlineCode" => "`"
    case "link" => "["
    case _ => ""
  }

  function EscapeQuotes(s: string): string {
    if s == "" then "" else (if s[0] == '\"' then "\\\"" else [s[0]]) + EscapeQuotes(s[1..])
  }

  function CloseText(mark: Field): string {
    if mark.name != "link" then OpenText(mark.name)
    else
      var raw := if mark.value.Object? then mark.value.fields else [];
      var href := Get(raw, "href");
      var to := if href.Some? && href.value.Text? then href.value.text else "";
      var title := Get(raw, "title");
      if title.Some? && title.value.Text? && title.value.text != "" then
        "](" + to + " \"" + EscapeQuotes(title.value.text) + "\")"
      else "](" + to + ")"
  }

  function EventText(e: Event): string {
    match e
    case Opened(mark) => OpenText(mark.name)
    case Closed(mark) => CloseText(mark)
    case Space(text) => text
    case Core(text, code) => if code then text else Escape(text)
  }

  function Render(trace: seq<Event>): string {
    if trace == [] then "" else EventText(trace[0]) + Render(trace[1..])
  }

  lemma {:induction false} RenderConcat(a: seq<Event>, b: seq<Event>)
    ensures Render(a + b) == Render(a) + Render(b)
    decreases |a|
  {
    if a == [] {
      assert a + b == b;
    } else {
      assert (a + b)[0] == a[0] && (a + b)[1..] == a[1..] + b;
      RenderConcat(a[1..], b);
    }
  }

  ghost predicate Unmarked(ops: seq<Op>) {
    forall k :: 0 <= k < |ops| ==> Wanted(ops[k]) == []
  }

  /** Ops without marks are written as their escaped text. */
  lemma {:induction false} UnmarkedIsEscaped(ops: seq<Op>, held: string)
    requires Unmarked(ops) && Blank(held)
    ensures Render(TraceFrom(ops, [], held)) == Escape(held + OpsText(ops))
    decreases |ops|
  {
    hide Wanted, Split, Blank, Escape, Render, TraceFrom, Turn;
    if ops == [] {
      EscapeBlank(held);
      assert held + "" == held;
      TraceEnd([], held);
      NothingOpen();
    } else {
      var p, rest := Split(ops[0].insert), ops[1..];
      TraceStep(ops, 0, [], held);
      assert ops[0..] == ops;
      if p.core == "" {
        BlankConcat(held, ops[0].insert);
        UnmarkedIsEscaped(rest, held + ops[0].insert);
        assert held + OpsText(ops) == held + ops[0].insert + OpsText(rest);
      } else {
        UnmarkedTurn(held, ops[0]);
        UnmarkedIsEscaped(rest, p.trail);
        EscapeConcat(held + p.lead + p.core, p.trail + OpsText(rest));
        assert held + OpsText(ops) == held + p.lead + p.core + (p.trail + OpsText(rest));
      }
    }
  }

  lemma {:induction false} NothingOpen()
    ensures Render(Closes([], 0)) == ""
  {
  }

  lemma {:induction false} RenderOne(e: Event)
    ensures Render([e]) == EventText(e)
  {
    assert [e][1..] == [];
  }

  lemma {:induction false} UnmarkedTurn(held: string, op: Op)
    requires Blank(held) && Wanted(op) == []
    ensures Render(Turn([], held, op)) == Escape(held + Split(op.insert).lead + Split(op.insert).core)
  {
    hide Wanted, Split, Blank, Escape;
    var p := Split(op.insert);
    var a, b := Space(held + p.lead), Core(p.core, false);
    assert Turn([], held, op) == [a] + [b];
    RenderConcat([a], [b]);
    RenderOne(a);
    RenderOne(b);
    BlankConcat(held, p.lead);
    EscapeBlank(held + p.lead);
    EscapeConcat(held + p.lead, p.core);
  }

  // ----- the writer

  lemma {:induction false} TraceStep(ops: seq<Op>, k: nat, active: seq<Field>, held: string)
    requires k < |ops|
    ensures var p := Split(ops[k].insert);
      Render(TraceFrom(ops[k..], active, held)) ==
        if p.core == "" then Render(TraceFrom(ops[k + 1..], active, held + ops[k].insert))
        else Render(Turn(active, held, ops[k])) + Render(TraceFrom(ops[k + 1..], Wanted(ops[k]), p.trail))
  {
    hide Render, Turn, Wanted, Split;
    var p := Split(ops[k].insert);
    assert ops[k..][1..] == ops[k + 1..];
    if p.core != "" {
      RenderConcat(Turn(active, held, ops[k]), TraceFrom(ops[k + 1..], Wanted(ops[k]), p.trail));
    }
  }

  lemma {:induction false} SamePoints(a: seq<Field>, b: seq<Field>, n: nat)
    requires n <= |a| && n <= |b| && a[..n] == b[..n]
    ensures forall k :: 0 <= k < n ==> a[k] == b[k]
  {
    assert forall k :: 0 <= k < n ==> a[..n][k] == a[k] && b[..n][k] == b[k];
  }

  lemma {:induction false} SharedIs(a: seq<Field>, b: seq<Field>, n: nat)
    requires n <= |a| && n <= |b| && a[..n] == b[..n]
    requires n < |a| && n < |b| ==> a[n] != b[n]
    ensures Shared(a, b) == n
  {
    var m := Shared(a, b);
    SamePoints(a, b, n);
    SamePoints(a, b, m);
  }

  lemma {:induction false} TurnText(active: seq<Field>, held: string, op: Op)
    ensures var p, wanted := Split(op.insert), Wanted(op); var keep := Shared(active, wanted);
      Render(Turn(active, held, op)) == Render(Closes(active, keep)) + (held + p.lead)
        + Render(Opens(wanted, keep)) + (if IsCode(wanted) then p.core else Escape(p.core))
  {
    hide Render, Closes, Opens, Wanted, Split, IsCode, Escape;
    var p, wanted := Split(op.insert), Wanted(op);
    var keep := Shared(active, wanted);
    var a, b, c, d := Closes(active, keep), [Space(held + p.lead)], Opens(wanted, keep), [Core(p.core, IsCode(wanted))];
    RenderConcat(a + b + c, d);
    RenderConcat(a + b, c);
    RenderConcat(a, b);
    RenderOne(b[0]);
    RenderOne(d[0]);
  }

  method WriteCloses(active: seq<Field>, keep: nat) returns (out: string)
    requires keep <= |active|
    ensures out == Render(Closes(active, keep))
  {
    hide EventText;
    out := "";
    var i := |active| - 1;
    assert active[..|active|] == active;
    while i >= keep
      invariant keep - 1 <= i < |active|
      invariant out + Render(Closes(active[..i + 1], keep)) == Render(Closes(active, keep))
    {
      ghost var less := active[..i + 1];
      assert less[..i] == active[..i] && Closes(less, keep)[1..] == Closes(active[..i], keep);
      out := out + CloseText(active[i]);
      assert CloseText(active[i]) == EventText(Closed(active[i])) by { EventTexts(active[i]); }
      i := i - 1;
    }
  }

  lemma {:induction false} EventTexts(m: Field)
    ensures EventText(Closed(m)) == CloseText(m) && EventText(Opened(m)) == OpenText(m.name)
  {
  }

  method WriteOpens(wanted: seq<Field>, keep: nat) returns (out: string)
    requires keep <= |wanted|
    ensures out == Render(Opens(wanted, keep))
  {
    hide EventText;
    out := "";
    var i := keep;
    while i < |wanted|
      invariant keep <= i <= |wanted|
      invariant out + Render(Opens(wanted, i)) == Render(Opens(wanted, keep))
    {
      assert Opens(wanted, i)[1..] == Opens(wanted, i + 1);
      out := out + OpenText(wanted[i].name);
      EventTexts(wanted[i]);
      i := i + 1;
    }
  }

  /** One pass of the writer's loop for an op that has a core. */
  method WriteTurn(active: seq<Field>, held: string, op: Op) returns (out: string)
    ensures out == Render(Turn(active, held, op))
  {
    hide Render, Closes, Opens, Turn, Wanted, IsCode, Escape, Split, Shared;
    var wanted, p := Wanted(op), Split(op.insert);
    var keep := 0;
    while keep < |active| && keep < |wanted| && active[keep] == wanted[keep]
      invariant keep <= |active| && keep <= |wanted| && active[..keep] == wanted[..keep]
    {
      assert active[..keep + 1] == active[..keep] + [active[keep]];
      assert wanted[..keep + 1] == wanted[..keep] + [wanted[keep]];
      keep := keep + 1;
    }
    SharedIs(active, wanted, keep);
    TurnText(active, held, op);
    var closing := WriteCloses(active, keep);
    var opening := WriteOpens(wanted, keep);
    out := closing + (held + p.lead) + opening + if IsCode(wanted) then p.core else Escape(p.core);
  }

  /** `opsToMarkdown` */
  method OpsToMarkdown(ops: seq<Op>) returns (out: string)
    ensures out == Render(Trace(ops))
    ensures Unmarked(ops) ==> out == Escape(OpsText(ops))
  {
    hide Render, Closes, Opens, Turn, Wanted, TraceFrom, IsCode, EventText, Escape, OpsText, Split, Unmarked;
    out := "";
    var active: seq<Field> := [];
    var held := "";
    var k := 0;
    assert ops[0..] == ops;
    while k < |ops|
      invariant k <= |ops|
      invariant out + Render(TraceFrom(ops[k..], active, held)) == Render(Trace(ops))
    {
      var op := ops[k];
      var p := Split(op.insert);
      TraceStep(ops, k, active, held);
      if p.core == "" {
        held := held + op.insert;
      } else {
        var turn := WriteTurn(active, held, op);
        out := out + turn;
        active, held := Wanted(op), p.trail;
      }
      k := k + 1;
    }
    TraceEnd(active, held);
    assert ops[k..] == [];
    var closing := WriteCloses(active, 0);
    out := out + closing + held;
    if Unmarked(ops) {
      assert "" + OpsText(ops) == OpsText(ops);
      UnmarkedIsEscaped(ops, "");
    }
  }

  lemma {:induction false} TraceEnd(active: seq<Field>, held: string)
    ensures Render(TraceFrom([], active, held)) == Render(Closes(active, 0)) + held
  {
    hide Render, Closes;
    RenderConcat(Closes(active, 0), [Space(held)]);
    RenderOne(Space(held));
  }
}
