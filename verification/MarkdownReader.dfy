/**
  Markdown back into inline text (packages/core/src/doc/inlineMarkdown.ts): what the reader computes.

  The state of its loop is a value and each branch a function of it. The loop itself is in InlineReader
  and what it promises in MarkdownTheorems.
 */
module MarkdownReader {
  import opened Common
  import opened Markdown

  // ----- characters

  /** The character at a place, or nothing outside the text. */
  function At(s: string, k: int): string {
    if 0 <= k < |s| then [s[k]] else ""
  }

  predicate SpaceAt(s: string, k: int) {
    0 <= k < |s| && IsSpace(s[k])
  }

  predicate WordAt(s: string, k: int) {
    0 <= k < |s| && ('a' <= s[k] <= 'z' || 'A' <= s[k] <= 'Z' || '0' <= s[k] <= '9' || s[k] == '_')
  }

  /** What `.` does not match. */
  predicate LineEnd(c: char) {
    c in "\n\r\U{2028}\U{2029}"
  }

  function IndexOf(s: string, delim: string, from: nat): (r: Option<nat>)
    ensures r.Some? ==> from <= r.value && r.value + |delim| <= |s|
    decreases |s| - from
  {
    if from + |delim| > |s| then None
    else if s[from..from + |delim|] == delim then Some(from)
    else if from == |s| then None
    else IndexOf(s, delim, from + 1)
  }

  // ----- records

  /** Assign a member of a record: in place when it is there, else at the end. */
  function Put(fields: seq<Field>, f: Field): seq<Field> {
    if fields == [] then [f]
    else if fields[0].name == f.name then [f] + fields[1..]
    else [fields[0]] + Put(fields[1..], f)
  }

  /** The members of `b` assigned to `a` in order. */
  function Spread(a: seq<Field>, b: seq<Field>): seq<Field>
    decreases |b|
  {
    if b == [] then a else Spread(Put(a, b[0]), b[1..])
  }

  function Without(fields: seq<Field>, name: string): seq<Field> {
    if fields == [] then []
    else (if fields[0].name == name then [] else [fields[0]]) + Without(fields[1..], name)
  }

  function WithoutAll(fields: seq<Field>, names: seq<Field>): seq<Field>
    decreases |names|
  {
    if names == [] then fields else WithoutAll(Without(fields, names[0].name), names[1..])
  }

  // ----- marks the reader makes

  /** An address the link pattern can hold. */
  predicate Address(href: string) {
    forall c <- href :: c != ')' && !IsSpace(c)
  }

  function LinkValue(href: string, title: Option<string>): Value {
    Object([Field("href", Text(href)), Field("title", if title.Some? then Text(title.value) else Null)])
  }

  /** How many backslashes stand directly before a place. */
  function BackslashesBefore(t: string, i: nat): nat
    requires i <= |t|
  {
    if i > 0 && t[i - 1] == '\\' then 1 + BackslashesBefore(t, i - 1) else 0
  }

  predicate EvenAt(t: string, i: nat)
    requires i <= |t|
  {
    (i == |t| || t[i] == '"' || LineEnd(t[i])) ==> BackslashesBefore(t, i) % 2 == 0
  }

  /** No odd run of backslashes directly before a quote, a line end or the end. */
  ghost predicate Balanced(t: string) {
    forall i :: 0 <= i <= |t| ==> EvenAt(t, i)
  }

  /** A title the link pattern can hold between quotes. */
  ghost predicate Quotable(title: Option<string>) {
    title.Some? ==> title.value != "" && Balanced(title.value)
  }

  ghost predicate IsLinkValue(v: Value) {
    exists href, title :: v == LinkValue(href, title) && Address(href) && Quotable(title)
  }

  /** A mark as the reader writes it. */
  ghost predicate Made(f: Field) {
    if f.name == "link" then IsLinkValue(f.value) else f.name in MARK_ORDER && f.value == Object([])
  }

  ghost predicate AllMade(fields: seq<Field>) {
    forall k :: 0 <= k < |fields| ==> Made(fields[k])
  }

  /** Ops with something in them and the reader's marks on them. */
  ghost predicate MadeOps(ops: seq<Op>) {
    forall k :: 0 <= k < |ops| ==> ops[k].insert != "" && AllMade(ops[k].attributes)
  }

  // ----- the link pattern

  /** Where a run of characters and escaped pairs, without a bare `stop` or backslash, ends. */
  function TokensEnd(s: string, from: nat, stop: char): (e: nat)
    requires from <= |s|
    ensures from <= e <= |s|
    decreases |s| - from
  {
    if from == |s| || s[from] == stop then from
    else if s[from] != '\\' then TokensEnd(s, from + 1, stop)
    else if from + 1 < |s| && !LineEnd(s[from + 1]) then TokensEnd(s, from + 2, stop)
    else from
  }

  function AddressEnd(s: string, from: nat): (e: nat)
    requires from <= |s|
    ensures from <= e <= |s| && Address(s[from..e])
    decreases |s| - from
  {
    if from == |s| || s[from] == ')' || IsSpace(s[from]) then from
    else
      var e := AddressEnd(s, from + 1);
      assert s[from..e] == [s[from]] + s[from + 1..e];
      e
  }

  function SpacesEnd(s: string, from: nat): (e: nat)
    requires from <= |s|
    ensures from <= e <= |s|
    decreases |s| - from
  {
    if from < |s| && IsSpace(s[from]) then SpacesEnd(s, from + 1) else from
  }

  function UnescapeQuotes(s: string): string {
    if s == "" then ""
    else if |s| > 1 && s[0] == '\\' && s[1] == '"' then "\"" + UnescapeQuotes(s[2..])
    else [s[0]] + UnescapeQuotes(s[1..])
  }

  datatype Link = Link(inner: string, href: string, title: Option<string>, length: nat)

  /** The link a text starts with: `[`inner`](`address, perhaps a quoted title, `)`. */
  function MatchLink(s: string): (r: Option<Link>)
    ensures r.Some? ==>
      && s != "" && s[0] == '['
      && r.value.length <= |s| && |r.value.inner| + 4 <= r.value.length
      && r.value.inner == s[1..|r.value.inner| + 1]
      && Address(r.value.href)
  {
    if |s| == 0 || s[0] != '[' then None
    else
      var e := TokensEnd(s, 1, ']');
      if e + 1 >= |s| || s[e] != ']' || s[e + 1] != '(' then None
      else MatchTarget(s, s[1..e], e + 2)
  }

  /** The part of the pattern after `](`. */
  function MatchTarget(s: string, inner: string, from: nat): (r: Option<Link>)
    requires from <= |s|
    ensures r.Some? ==> r.value.inner == inner && from < r.value.length <= |s| && Address(r.value.href)
  {
    var h := AddressEnd(s, from);
    var href := s[from..h];
    if h < |s| && s[h] == ')' then Some(Link(inner, href, None, h + 1))
    else
      var q := SpacesEnd(s, h);
      if q == h || q == |s| || s[q] != '"' then None
      else
        var t := TokensEnd(s, q + 1, '"');
        if t + 1 >= |s| || s[t] != '"' || s[t + 1] != ')' then None
        else
          var title := s[q + 1..t];
          Some(Link(inner, href, if title == "" then None else Some(UnescapeQuotes(title)), t + 2))
  }

  // ----- closers

  /** Does one of the delimiters from here on, taken one after the other, stand after a character it can close on? */
  predicate Closer(s: string, delim: string, from: nat)
    requires |delim| > 0
    decreases |s| - from
  {
    var j := IndexOf(s, delim, from);
    j.Some? && ((!SpaceAt(s, j.value - 1) && At(s, j.value - 1) != "\\") || Closer(s, delim, j.value + |delim|))
  }

  predicate CanOpen(s: string, i: nat, len: nat)
    requires 0 < len && i + len <= |s|
  {
    i + len < |s| && !IsSpace(s[i + len]) && Closer(s, s[i..i + len], i + len + 1)
  }

  // ----- the state of the loop

  /**
    What the loop has made so far, the marks open, the text not yet in an op, how much text each open mark has,
    and the place.
   */
  datatype Scan = Scan(ops: seq<Op>, marks: seq<Field>, buffer: string, since: map<string, nat>, i: nat)

  const START: Scan := Scan([], [], "", map[], 0)

  function Counted(since: map<string, nat>, marks: seq<Field>, n: nat): map<string, nat>
    decreases |marks|
  {
    if marks == [] then since
    else
      var name := marks[0].name;
      Counted(since[name := (if name in since then since[name] else 0) + n], marks[1..], n)
  }

  function Flushed(s: Scan): Scan {
    if s.buffer == "" then s
    else s.(ops := s.ops + [Op(s.buffer, s.marks)], since := Counted(s.since, s.marks, |s.buffer|), buffer := "")
  }

  /** Open or close a mark and pass its delimiter. */
  function Toggled(s: Scan, name: string, len: nat): Scan {
    var f := Flushed(s);
    if Get(f.marks, name).Some? then
      f.(marks := Without(f.marks, name), since := f.since - {name}, i := f.i + len)
    else
      f.(marks := Put(f.marks, Field(name, Object([]))), since := f.since[name := 0], i := f.i + len)
  }

  function Taken(s: Scan, text: string, len: nat): Scan {
    s.(buffer := s.buffer + text, i := s.i + len)
  }

  predicate HasContent(s: Scan, name: string) {
    (name in s.since && s.since[name] > 0) || s.buffer != ""
  }

  /** Can the delimiter at the place open its mark, or close it when it is open? */
  predicate Delimits(markdown: string, s: Scan, name: string, len: nat)
    requires 0 < len && s.i + len <= |markdown|
  {
    if Get(s.marks, name).None? then CanOpen(markdown, s.i, len)
    else s.i > 0 && !SpaceAt(markdown, s.i - 1) && HasContent(s, name)
  }

  predicate InCode(s: Scan) {
    Get(s.marks, "inlineCode").Some?
  }

  predicate InWord(markdown: string, i: nat)
    requires i < |markdown|
  {
    markdown[i] == '_' && WordAt(markdown, i - 1) && WordAt(markdown, i + 1)
  }

  /** The mark a delimiter at the place opens or closes, and the delimiter's length. */
  function Delimiter(markdown: string, s: Scan): (r: Option<(string, nat)>)
    requires s.i < |markdown|
    ensures r.Some? ==> r.value.0 in MARK_ORDER && r.value.0 != "link" && 0 < r.value.1 && s.i + r.value.1 <= |markdown|
  {
    var c, next := markdown[s.i], At(markdown, s.i + 1);
    if c == '*' && next == "*" && Delimits(markdown, s, "strong", 2) then Some(("strong", 2))
    else if c == '~' && next == "~" && Delimits(markdown, s, "strikethrough", 2) then Some(("strikethrough", 2))
    else if (c == '*' || c == '_') && !InWord(markdown, s.i) && Delimits(markdown, s, "em", 1) then Some(("em", 1))
    else None
  }

  function LinkMark(href: string, title: Option<string>): Field {
    Field("link", LinkValue(href, title))
  }

  /** The ops of a link's text under the marks open around it and the link. */
  function Linked(inner: seq<Op>, marks: seq<Field>, link: Field): (r: seq<Op>)
    ensures |r| == |inner|
  {
    seq(|inner|, k requires 0 <= k < |inner| => Op(inner[k].insert, Put(Spread(marks, inner[k].attributes), link)))
  }

  function LinkAt(markdown: string, s: Scan): (r: Option<Link>)
    ensures r.Some? ==>
      s.i + r.value.length <= |markdown| && |r.value.inner| + 4 <= r.value.length && Address(r.value.href)
  {
    if s.i < |markdown| && markdown[s.i] == '[' then MatchLink(markdown[s.i..]) else None
  }

  function LinkTaken(s: Scan, link: Link, inner: seq<Op>): Scan {
    var f := Flushed(s);
    f.(ops := f.ops + Linked(inner, f.marks, LinkMark(link.href, link.title)), i := f.i + link.length)
  }

  /** One pass of the loop at a place where no link starts. */
  function Stepped(markdown: string, s: Scan): (r: Scan)
    requires s.i < |markdown|
    ensures s.i < r.i <= |markdown|
  {
    var c := markdown[s.i];
    if c == '\\' && s.i + 1 < |markdown| then Taken(s, [markdown[s.i + 1]], 2)
    else if InCode(s) then (if c == '`' then Toggled(s, "inlineCode", 1) else Taken(s, [c], 1))
    else if c == '`' && IndexOf(markdown, "`", s.i + 1).Some? then Toggled(s, "inlineCode", 1)
    else
      var d := Delimiter(markdown, s);
      if d.Some? then Toggled(s, d.value.0, d.value.1) else Taken(s, [c], 1)
  }

  /** Inside code a bracket is a character. */
  function LinkHere(markdown: string, s: Scan): (r: Option<Link>)
    ensures r.Some? ==>
      s.i + r.value.length <= |markdown| && |r.value.inner| + 4 <= r.value.length && Address(r.value.href)
  {
    if InCode(s) then None else LinkAt(markdown, s)
  }

  /** One pass of the loop. */
  function Passed(markdown: string, s: Scan): (r: Scan)
    requires s.i < |markdown|
    ensures s.i < r.i <= |markdown|
    decreases |markdown|, 1, 0
  {
    var link := LinkHere(markdown, s);
    if link.Some? then LinkTaken(s, link.value, Read(link.value.inner)) else Stepped(markdown, s)
  }

  function Scanned(markdown: string, s: Scan): Scan
    requires s.i <= |markdown|
    decreases |markdown|, 2, |markdown| - s.i
  {
    if s.i == |markdown| then s else Scanned(markdown, Passed(markdown, s))
  }

  /** The ops of a text. */
  function Read(markdown: string): seq<Op>
    decreases |markdown|, 3, 0
  {
    var s := Flushed(Scanned(markdown, START));
    Merged(Cleaned(s.ops, s.marks))
  }

  /** Ops without the marks that never closed. */
  function Cleaned(ops: seq<Op>, open: seq<Field>): (r: seq<Op>)
    ensures |r| == |ops|
  {
    seq(|ops|, k requires 0 <= k < |ops| => Op(ops[k].insert, WithoutAll(ops[k].attributes, open)))
  }

  /** Append, merging with the last op when it has the same marks. */
  function Joined(merged: seq<Op>, op: Op): seq<Op> {
    if merged != [] && merged[|merged| - 1].attributes == op.attributes then
      merged[|merged| - 1 := Op(merged[|merged| - 1].insert + op.insert, op.attributes)]
    else merged + [op]
  }

  function Merged(ops: seq<Op>): seq<Op> {
    if ops == [] then [] else Joined(Merged(ops[..|ops| - 1]), ops[|ops| - 1])
  }
}
