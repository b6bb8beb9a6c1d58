/**
  `packStored` in its own form: buffers written field by field, a running offset, the directory collected
  while the bodies are written, and one output buffer filled part by part.
 */
module ZipWriter {
  import opened Crc
  import opened Bytes
  import opened Zip
  import opened ZipTheorems
  import opened Common

  /** `DataView.setUint16` and `setUint32`, little-endian. */
  method SetUint(view: array<Byte>, at: nat, width: nat, value: nat)
    requires at + width <= view.Length
    modifies view
    ensures view[..] == Overwritten(old(view[..]), at, Encode(value, width))
  {
    ghost var was := view[..];
    var v := value;
    for k := 0 to width
      invariant forall j :: 0 <= j < k ==> view[at + j] == Encode(value, width)[j]
      invariant forall j :: 0 <= j < view.Length && !(at <= j < at + k) ==> view[j] == was[j]
      invariant Encode(v, width - k) == Encode(value, width)[k..]
    {
      assert Encode(v, width - k)[0] == v % 256;
      assert Encode(value, width)[k] == v % 256;
      view[at + k] := v % 256;
      assert Encode(v, width - k)[1..] == Encode(v / 256, width - k - 1);
      assert Encode(value, width)[k + 1..] == Encode(value, width)[k..][1..];
      v := v / 256;
    }
    forall j | 0 <= j < view.Length ensures view[j] == Overwritten(was, at, Encode(value, width))[j] {
      assert at <= j < at + width ==> view[at + (j - at)] == Encode(value, width)[j - at];
    }
  }

  /** A record written field by field into a new buffer. */
  method WriteRecord(fields: seq<Field>, size: nat) returns (bytes: seq<Byte>)
    requires Fitting(fields, size)
    ensures bytes == Laid(fields, size)
  {
    var view := new Byte[size](_ => 0);
    assert view[..] == Zeros(size);
    assert fields[..0] == [];
    for k := 0 to |fields|
      invariant Fitting(fields[..k], size) && view[..] == Laid(fields[..k], size)
    {
      assert fields[..k + 1][..k] == fields[..k];
      SetUint(view, fields[k].at, fields[k].width, fields[k].value);
    }
    assert fields[..|fields|] == fields;
    bytes := view[..];
  }

  function Flat(parts: seq<seq<Byte>>): seq<Byte> {
    if parts == [] then [] else Flat(parts[..|parts| - 1]) + parts[|parts| - 1]
  }

  lemma {:induction false} FlatAppend(parts: seq<seq<Byte>>, part: seq<Byte>)
    ensures Flat(parts + [part]) == Flat(parts) + part
  {
    assert (parts + [part])[..|parts|] == parts;
  }

  lemma {:induction false} FlatConcat(a: seq<seq<Byte>>, b: seq<seq<Byte>>)
    ensures Flat(a + b) == Flat(a) + Flat(b)
  {
    if b == [] {
      assert a + b == a;
    } else {
      hide Flat;
      var n := |b| - 1;
      FlatConcat(a, b[..n]);
      assert a + b == (a + b[..n]) + [b[n]] && b == b[..n] + [b[n]];
      FlatAppend(a + b[..n], b[n]);
      FlatAppend(b[..n], b[n]);
      assert Flat(a) + (Flat(b[..n]) + b[n]) == Flat(a) + Flat(b[..n]) + b[n];
    }
  }

  lemma {:induction false} FlatPrefix(parts: seq<seq<Byte>>, i: nat)
    requires i <= |parts|
    ensures |Flat(parts[..i])| <= |Flat(parts)|
  {
    if i == |parts| {
      assert parts[..i] == parts;
    } else {
      assert parts[..|parts| - 1][..i] == parts[..i];
      FlatPrefix(parts[..|parts| - 1], i);
    }
  }

  /** The size of all parts, and one buffer holding them in order. */
  method Assemble(parts: seq<seq<Byte>>) returns (bytes: seq<Byte>)
    ensures bytes == Flat(parts)
  {
    var size := 0;
    assert parts[..0] == [];
    for i := 0 to |parts|
      invariant size == |Flat(parts[..i])|
    {
      assert parts[..i + 1][..i] == parts[..i];
      size := size + |parts[i]|;
    }
    assert parts[..|parts|] == parts;
    var out := new Byte[size](_ => 0);
    var at := 0;
    for i := 0 to |parts|
      invariant at == |Flat(parts[..i])| <= size
      invariant out[..at] == Flat(parts[..i])
    {
      assert parts[..i + 1][..i] == parts[..i];
      FlatPrefix(parts, i + 1);
      CopyInto(out, at, parts[i]);
      at := at + |parts[i]|;
    }
    assert parts[..|parts|] == parts;
    bytes := out[..];
  }

  /** `Uint8Array.set`. */
  method CopyInto(out: array<Byte>, at: nat, part: seq<Byte>)
    requires at + |part| <= out.Length
    modifies out
    ensures out[..at + |part|] == old(out[..at]) + part
  {
    for k := 0 to |part|
      invariant out[..at + k] == old(out[..at]) + part[..k]
    {
      out[at + k] := part[k];
      assert out[..at + (k + 1)] == out[..at + k] + [part[k]];
    }
    assert part[..|part|] == part;
  }

  /** The two refusals, else the archive. */
  function PackedOf(entries: seq<StoredEntry>): Packed {
    if |entries| > MAX_STORED_ENTRIES then Refused(TooManyFiles)
    else if TotalBytes(entries) > MAX_STORED_BYTES then Refused(TooLarge)
    else Archive(ArchiveOf(entries))
  }

  method PackStored(entries: seq<StoredEntry>) returns (r: Packed)
    ensures r == PackedOf(entries)
    ensures |entries| > 200 ==> r == Refused(TooManyFiles)
    ensures |entries| <= 200 && TotalBytes(entries) > 64 * 1024 * 1024 ==> r == Refused(TooLarge)
    ensures |entries| <= 200 && TotalBytes(entries) <= 64 * 1024 * 1024 ==> r.Archive?
    ensures r.Archive? ==> (ReadZip(r.bytes) == Some(Files(entries)) <==> NamesFit(entries))
  {
    hide ReadZip, NamesFit, ArchiveOf;
    if |entries| > MAX_STORED_ENTRIES {
      return Refused(TooManyFiles);
    }
    var total := SumBodies(entries);
    if total > MAX_STORED_BYTES {
      return Refused(TooLarge);
    }
    var local, central, offset, centralSize := WriteEntries(entries);
    EndOrdered(|entries|, centralSize, offset);
    var end := WriteRecord(EndFields(|entries|, centralSize, offset), 22);
    var bytes := Assemble(local + central + [end]);
    FlatConcat(local, central);
    FlatAppend(local + central, end);
    ArchiveParts(entries);
    ZipRoundTripIff(entries);
    r := Archive(bytes);
  }

  method SumBodies(entries: seq<StoredEntry>) returns (total: nat)
    ensures total == TotalBytes(entries)
  {
    total := 0;
    for i := 0 to |entries|
      invariant total == TotalBytes(entries[..i])
    {
      assert entries[..i + 1][..i] == entries[..i];
      total := total + |entries[i].body|;
    }
    assert entries[..|entries|] == entries;
  }

  /** The loop over the entries: bodies and directory in one pass, with the running offset. */
  method WriteEntries(entries: seq<StoredEntry>)
    returns (local: seq<seq<Byte>>, central: seq<seq<Byte>>, offset: nat, centralSize: nat)
    ensures Flat(local) == Locals(entries) && Flat(central) == Centrals(entries)
    ensures offset == |Locals(entries)| && centralSize == |Centrals(entries)|
  {
    local, central, offset, centralSize := [], [], 0, 0;
    var table := MakeTable();
    for i := 0 to |entries|
      invariant forall n :: 0 <= n < 256 ==> Word(table[n]) == ShiftBy(OfByte(n), 8)
      invariant Flat(local) == Locals(entries[..i]) && offset == |Locals(entries[..i])|
      invariant Flat(central) == Centrals(entries[..i]) && centralSize == |Centrals(entries[..i])|
    {
      hide LocalFieldsWith, CentralFieldsWith, Laid, Crc32Of, Flat, FeedBits, ShiftBy;
      var entry := entries[i];
      assert entries[..i + 1][..i] == entries[..i];
      var crc := Crc32(entry.body, table);
      LocalOrdered(entry);
      var header := WriteRecord(LocalFieldsWith(entry, crc as int), 30);
      CentralOrdered(entry, offset);
      var record := WriteRecord(CentralFieldsWith(entry, crc as int, offset), 46);
      AppendThree(local, header, entry.name, entry.body);
      AppendTwo(central, record, entry.name);
      local := local + [header, entry.name, entry.body];
      central := central + [record, entry.name];
      centralSize := centralSize + 46 + |entry.name|;
      offset := offset + 30 + |entry.name| + |entry.body|;
    }
    assert entries[..|entries|] == entries;
  }

  lemma {:induction false} AppendTwo(parts: seq<seq<Byte>>, a: seq<Byte>, b: seq<Byte>)
    ensures Flat(parts + [a, b]) == Flat(parts) + (a + b)
  {
    assert parts + [a, b] == (parts + [a]) + [b];
    FlatAppend(parts + [a], b);
    FlatAppend(parts, a);
  }

  lemma {:induction false} AppendThree(parts: seq<seq<Byte>>, a: seq<Byte>, b: seq<Byte>, c: seq<Byte>)
    ensures Flat(parts + [a, b, c]) == Flat(parts) + (a + b + c)
  {
    assert parts + [a, b, c] == (parts + [a, b]) + [c];
    FlatAppend(parts + [a, b], c);
    AppendTwo(parts, a, b);
  }
}
