/**
  The Markdown reader in its own form (packages/core/src/doc/inlineMarkdown.ts): the variables its
  closures update are fields, and each method computes the function MarkdownReader gives for it.
 */
module InlineReader {
  import opened Common
  import opened Markdown
  import opened MarkdownReader

  method HasCloser(s: string, from: nat, delim: string) returns (r: bool)
    requires |delim| > 0
    ensures r == Closer(s, delim, from + 1)
  {
    hide IndexOf, SpaceAt, At;
    var j := IndexOf(s, delim, from + 1);
    ghost var here: nat := from + 1;
    while j.Some?
      invariant j == IndexOf(s, delim, here)
      invariant Closer(s, delim, from + 1) == Closer(s, delim, here)
      decreases if j.Some? then |s| - j.value else -1
    {
      if !SpaceAt(s, j.value - 1) && At(s, j.value - 1) != "\\" {
        return true;
      }
      here := j.value + |delim|;
      j := IndexOf(s, delim, j.value + |delim|);
    }
    return false;
  }

  class Scanner {
    const markdown: string
    var ops: seq<Op>
    var marks: seq<Field>
    var buffer: string
    var since: map<string, nat>
    var i: nat

    ghost function View(): Scan
      reads this
    {
      Scan(ops, marks, buffer, since, i)
    }

    constructor (markdown: string)
      ensures this.markdown == markdown && View() == START
    {
      this.markdown := markdown;
      ops, marks, buffer, since, i := [], [], "", map[], 0;
    }

    method Opens(len: nat) returns (r: bool)
      requires 0 < len && i + len <= |markdown|
      ensures r == CanOpen(markdown, i, len)
    {
      hide IsSpace, Closer;
      if i + len == |markdown| || IsSpace(markdown[i + len]) {
        return false;
      }
      r := HasCloser(markdown, i + len, markdown[i..i + len]);
    }

    method Flush()
      modifies this`ops, this`buffer, this`since
      ensures View() == Flushed(old(View()))
    {
      if buffer == "" {
        return;
      }
      since := Counted(since, marks, |buffer|);
      ops := ops + [Op(buffer, marks)];
      buffer := "";
    }

    method Toggle(name: string, len: nat)
      modifies this
      ensures View() == Toggled(old(View()), name, len)
    {
      Flush();
      if Get(marks, name).Some? {
        marks := Without(marks, name);
        since := since - {name};
      } else {
        marks := Put(marks, Field(name, Object([])));
        since := since[name := 0];
      }
      i := i + len;
    }

    method Take(text: string, len: nat)
      modifies this`buffer, this`i
      ensures View() == Taken(old(View()), text, len)
    {
      buffer := buffer + text;
      i := i + len;
    }

    /** Does the delimiter here open or close its mark? */
    method Acts(name: string, len: nat) returns (r: bool)
      requires 0 < len && i + len <= |markdown|
      ensures r == Delimits(markdown, View(), name, len)
    {
      hide CanOpen, Get, SpaceAt;
      var opening := Get(marks, name).None?;
      var opens := Opens(len);
      var content := (name in since && since[name] > 0) || buffer != "";
      r := (opening && opens) || (!opening && i > 0 && !SpaceAt(markdown, i - 1) && content);
    }

    /** A delimiter here, if it opens or closes a mark. */
    method TakeDelimiter() returns (done: bool)
      requires i < |markdown|
      modifies this
      ensures var d := Delimiter(markdown, old(View()));
        done == d.Some? && View() == if done then Toggled(old(View()), d.value.0, d.value.1) else old(View())
    {
      hide Delimits, Toggled, InWord;
      var c := markdown[i];
      if c == '*' && At(markdown, i + 1) == "*" {
        var acts := Acts("strong", 2);
        if acts {
          Toggle("strong", 2);
          return true;
        }
      }
      if c == '~' && At(markdown, i + 1) == "~" {
        var acts := Acts("strikethrough", 2);
        if acts {
          Toggle("strikethrough", 2);
          return true;
        }
      }
      if c == '*' || c == '_' {
        var inWord := InWord(markdown, i);
        var acts := Acts("em", 1);
        if !inWord && acts {
          Toggle("em", 1);
          return true;
        }
      }
      return false;
    }

    method TakeLink(link: Link)
      requires LinkAt(markdown, View()) == Some(link)
      modifies this
      ensures View() == LinkTaken(old(View()), link, Read(link.inner))
      decreases |markdown|, 1
    {
      hide Read, LinkAt, Spread, Put;
      Flush();
      var inner := MarkdownToOps(link.inner);
      var mark := LinkMark(link.href, link.title);
      var k := 0;
      ghost var before := ops;
      while k < |inner|
        invariant k <= |inner| && ops == before + Linked(inner, marks, mark)[..k]
        modifies this`ops
      {
        ops := ops + [Op(inner[k].insert, Put(Spread(marks, inner[k].attributes), mark))];
        k := k + 1;
      }
      assert Linked(inner, marks, mark)[..k] == Linked(inner, marks, mark);
      i := i + link.length;
    }

    /** One pass of the loop. */
    method Pass()
      requires i < |markdown|
      modifies this
      ensures View() == Passed(markdown, old(View()))
      decreases |markdown|, 2
    {
      hide Read, LinkTaken, MatchLink, Toggled, Delimiter, IndexOf, Get;
      var c := markdown[i];
      if c == '\\' && i + 1 < |markdown| {
        Take([markdown[i + 1]], 2);
        return;
      }
      if Get(marks, "inlineCode").Some? {
        if c == '`' {
          Toggle("inlineCode", 1);
        } else {
          Take([c], 1);
        }
        return;
      }
      if c == '`' && IndexOf(markdown, "`", i + 1).Some? {
        Toggle("inlineCode", 1);
        return;
      }
      if c == '[' {
        var link := MatchLink(markdown[i..]);
        if link.Some? {
          TakeLink(link.value);
          return;
        }
      }
      var done := TakeDelimiter();
      if !done {
        Take([c], 1);
      }
    }
  }

  /** `markdownToOps` */
  method MarkdownToOps(markdown: string) returns (r: seq<Op>)
    ensures r == Read(markdown)
    decreases |markdown|, 3
  {
    hide Passed, Cleaned, Merged;
    var scanner := new Scanner(markdown);
    while scanner.i < |markdown|
      invariant fresh(scanner) && scanner.markdown == markdown && scanner.i <= |markdown|
      invariant Scanned(markdown, scanner.View()) == Scanned(markdown, START)
      decreases |markdown| - scanner.i
    {
      scanner.Pass();
    }
    scanner.Flush();
    r := MergeOps(Cleaned(scanner.ops, scanner.marks));
  }

  /** Adjacent ops with the same marks become one. */
  method MergeOps(ops: seq<Op>) returns (merged: seq<Op>)
    ensures merged == Merged(ops)
  {
    merged := [];
    for k := 0 to |ops|
      invariant merged == Merged(ops[..k])
    {
      assert ops[..k + 1][..k] == ops[..k];
      var op := ops[k];
      if |merged| > 0 && merged[|merged| - 1].attributes == op.attributes {
        var last := |merged| - 1;
        merged := merged[last := Op(merged[last].insert + op.insert, op.attributes)];
      } else {
        merged := merged + [op];
      }
    }
    assert ops[..|ops|] == ops;
  }
}
