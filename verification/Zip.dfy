/**
  Packing files into an archive without compression (packages/core/src/archive/packStored.ts), and a
  reader that follows sections 4.3.7, 4.3.12 and 4.3.16 of the ZIP application note.

  The file name is given as the bytes `TextEncoder` produces and the time as the two numbers `dosTime` computes.
 */
module Zip {
  import opened Common
  import opened Crc
  import opened Bytes

  const MAX_STORED_ENTRIES := 200
  const MAX_STORED_BYTES := 64 * 1024 * 1024

  const LOCAL_SIGNATURE := 0x0403_4b50
  const CENTRAL_SIGNATURE := 0x0201_4b50
  const END_SIGNATURE := 0x0605_4b50

  /** The flag that says the name is UTF-8, and the method that says the data is as it was. */
  const UTF8 := 0x0800
  const STORED := 0

  datatype StoredEntry = StoredEntry(name: seq<Byte>, body: seq<Byte>, time: nat, date: nat)

  datatype PackError = TooManyFiles | TooLarge
  datatype Packed = Archive(bytes: seq<Byte>) | Refused(error: PackError)

  function CrcValue(body: seq<Byte>): (c: nat)
    ensures c < 0x1_0000_0000
  {
    Crc32Of(body) as int
  }

  /** The value of a checksum field is the checksum. */
  lemma {:induction false} CrcValueIs(body: seq<Byte>)
    ensures CrcValue(body) == Crc32Of(body) as int
  {
  }

  // ----- the records

  function LocalFieldsWith(e: StoredEntry, crc: nat): seq<Field> {
    [Field(0, 4, LOCAL_SIGNATURE), Field(4, 2, 20), Field(6, 2, UTF8), Field(8, 2, STORED), Field(10, 2, e.time),
     Field(12, 2, e.date), Field(14, 4, crc), Field(18, 4, |e.body|), Field(22, 4, |e.body|),
     Field(26, 2, |e.name|), Field(28, 2, 0)]
  }

  function CentralFieldsWith(e: StoredEntry, crc: nat, offset: nat): seq<Field> {
    [Field(0, 4, CENTRAL_SIGNATURE), Field(4, 2, 20), Field(6, 2, 20), Field(8, 2, UTF8), Field(10, 2, STORED),
     Field(12, 2, e.time), Field(14, 2, e.date), Field(16, 4, crc), Field(20, 4, |e.body|),
     Field(24, 4, |e.body|), Field(28, 2, |e.name|), Field(42, 4, offset)]
  }

  function LocalFields(e: StoredEntry): seq<Field> {
    LocalFieldsWith(e, CrcValue(e.body))
  }

  function CentralFields(e: StoredEntry, offset: nat): seq<Field> {
    CentralFieldsWith(e, CrcValue(e.body), offset)
  }

  function EndFields(count: nat, size: nat, offset: nat): seq<Field> {
    [Field(0, 4, END_SIGNATURE), Field(8, 2, count), Field(10, 2, count), Field(12, 4, size), Field(16, 4, offset)]
  }

  /** Fields that follow one another without overlapping. */
  ghost predicate Ordered(f: seq<Field>, size: nat) {
    && (forall i :: 0 <= i < |f| ==> f[i].at + f[i].width <= size)
    && (forall i, j :: 0 <= i < j < |f| ==> f[i].at + f[i].width <= f[j].at)
  }

  lemma {:induction false} LocalOrdered(e: StoredEntry)
    ensures Ordered(LocalFields(e), 30)
  {
  }

  lemma {:induction false} CentralOrdered(e: StoredEntry, offset: nat)
    ensures Ordered(CentralFields(e, offset), 46)
  {
  }

  lemma {:induction false} EndOrdered(count: nat, size: nat, offset: nat)
    ensures Ordered(EndFields(count, size, offset), 22)
  {
  }

  lemma {:induction false} FieldOf(f: seq<Field>, size: nat, k: nat)
    requires Ordered(f, size) && k < |f|
    ensures Fitting(f, size) && f[k].at + f[k].width <= size
    ensures var r := Read(Laid(f, size), f[k].at, f[k].width);
      r == f[k].value % Pow256(f[k].width)
  {
    LaidField(f, size, k);
  }

  function LocalHeader(e: StoredEntry): (s: seq<Byte>)
    ensures |s| == 30
  {
    LocalOrdered(e);
    Laid(LocalFields(e), 30)
  }

  function CentralRecord(e: StoredEntry, offset: nat): (s: seq<Byte>)
    ensures |s| == 46
  {
    CentralOrdered(e, offset);
    Laid(CentralFields(e, offset), 46)
  }

  function EndRecord(count: nat, size: nat, offset: nat): (s: seq<Byte>)
    ensures |s| == 22
  {
    EndOrdered(count, size, offset);
    Laid(EndFields(count, size, offset), 22)
  }

  lemma {:induction false} Widths()
    ensures Pow256(2) == 0x1_0000 && Pow256(4) == 0x1_0000_0000
  {
    assert Pow256(1) == 256 && Pow256(3) == 0x100_0000;
  }

  lemma {:induction false} LocalReadsAs(e: StoredEntry)
    ensures var h := LocalHeader(e);
      && Read(h, 0, 4) == 0x0403_4b50 && Read(h, 4, 2) == 20
      && Read(h, 6, 2) == 0x0800 && Read(h, 8, 2) == 0
      && Read(h, 10, 2) == e.time % 0x1_0000 && Read(h, 12, 2) == e.date % 0x1_0000
      && Read(h, 14, 4) == CrcValue(e.body)
      && Read(h, 18, 4) == Read(h, 22, 4) == |e.body| % 0x1_0000_0000
      && Read(h, 26, 2) == |e.name| % 0x1_0000 && Read(h, 28, 2) == 0
  {
    hide Read, Laid, Pow256, Ordered, Fitting, CrcValue;
    Widths();
    LocalOrdered(e);
    var f := LocalFields(e);
    FieldOf(f, 30, 0);
    FieldOf(f, 30, 1);
    FieldOf(f, 30, 2);
    FieldOf(f, 30, 3);
    FieldOf(f, 30, 4);
    FieldOf(f, 30, 5);
    FieldOf(f, 30, 6);
    FieldOf(f, 30, 7);
    FieldOf(f, 30, 8);
    FieldOf(f, 30, 9);
    FieldOf(f, 30, 10);
  }

  /** Every field of a local header. */
  lemma {:induction false} LocalReads(e: StoredEntry)
    ensures var h := LocalHeader(e);
      && Read(h, 0, 4) == 0x0403_4b50 && Read(h, 4, 2) == 20
      && Read(h, 6, 2) == 0x0800 && Read(h, 8, 2) == 0
      && Read(h, 10, 2) == e.time % 0x1_0000 && Read(h, 12, 2) == e.date % 0x1_0000
      && Read(h, 14, 4) == Crc32Of(e.body) as int
      && Read(h, 18, 4) == Read(h, 22, 4) == |e.body| % 0x1_0000_0000
      && Read(h, 26, 2) == |e.name| % 0x1_0000 && Read(h, 28, 2) == 0
  {
    hide Read, LocalHeader, CrcValue, Crc32Of;
    LocalReadsAs(e);
    CrcValueIs(e.body);
  }

  lemma {:induction false} CentralReadsAs(e: StoredEntry, offset: nat)
    ensures var r := CentralRecord(e, offset);
      && Read(r, 0, 4) == 0x0201_4b50 && Read(r, 4, 2) == 20 && Read(r, 6, 2) == 20
      && Read(r, 8, 2) == 0x0800 && Read(r, 10, 2) == 0
      && Read(r, 12, 2) == e.time % 0x1_0000 && Read(r, 14, 2) == e.date % 0x1_0000
      && Read(r, 16, 4) == CrcValue(e.body)
      && Read(r, 20, 4) == Read(r, 24, 4) == |e.body| % 0x1_0000_0000
      && Read(r, 28, 2) == |e.name| % 0x1_0000
      && Read(r, 30, 2) == 0 && Read(r, 32, 2) == 0 && Read(r, 34, 2) == 0 && Read(r, 36, 2) == 0 && Read(r, 38, 4) == 0
      && Read(r, 42, 4) == offset % 0x1_0000_0000
  {
    hide Read, Laid, Pow256, Ordered, Fitting, CrcValue;
    Widths();
    CentralOrdered(e, offset);
    var f := CentralFields(e, offset);
    FieldOf(f, 46, 0);
    FieldOf(f, 46, 1);
    FieldOf(f, 46, 2);
    FieldOf(f, 46, 3);
    FieldOf(f, 46, 4);
    FieldOf(f, 46, 5);
    FieldOf(f, 46, 6);
    FieldOf(f, 46, 7);
    FieldOf(f, 46, 8);
    FieldOf(f, 46, 9);
    FieldOf(f, 46, 10);
    FieldOf(f, 46, 11);
    CentralGaps(e, offset);
  }

  /** Every field of a directory record, and the lengths it leaves at zero. */
  lemma {:induction false} CentralReads(e: StoredEntry, offset: nat)
    ensures var r := CentralRecord(e, offset);
      && Read(r, 0, 4) == 0x0201_4b50 && Read(r, 4, 2) == 20 && Read(r, 6, 2) == 20
      && Read(r, 8, 2) == 0x0800 && Read(r, 10, 2) == 0
      && Read(r, 12, 2) == e.time % 0x1_0000 && Read(r, 14, 2) == e.date % 0x1_0000
      && Read(r, 16, 4) == Crc32Of(e.body) as int
      && Read(r, 20, 4) == Read(r, 24, 4) == |e.body| % 0x1_0000_0000
      && Read(r, 28, 2) == |e.name| % 0x1_0000
      && Read(r, 30, 2) == 0 && Read(r, 32, 2) == 0 && Read(r, 34, 2) == 0 && Read(r, 36, 2) == 0 && Read(r, 38, 4) == 0
      && Read(r, 42, 4) == offset % 0x1_0000_0000
  {
    hide Read, CentralRecord, CrcValue, Crc32Of;
    CentralReadsAs(e, offset);
    CrcValueIs(e.body);
  }

  /** The extra-field and comment lengths, the disk and the attributes of a directory record are left at zero. */
  lemma {:induction false} CentralGaps(e: StoredEntry, offset: nat)
    ensures Read(CentralRecord(e, offset), 30, 2) == 0 && Read(CentralRecord(e, offset), 32, 2) == 0
    ensures Read(CentralRecord(e, offset), 34, 2) == 0 && Read(CentralRecord(e, offset), 36, 2) == 0
    ensures Read(CentralRecord(e, offset), 38, 4) == 0
  {
    hide Read, Laid;
    CentralOrdered(e, offset);
    var f := CentralFields(e, offset);
    assert forall i :: 0 <= i < |f| ==> Apart(f[i], 30, 2) && Apart(f[i], 32, 2) && Apart(f[i], 34, 2);
    assert forall i :: 0 <= i < |f| ==> Apart(f[i], 36, 2) && Apart(f[i], 38, 4);
    LaidGap(f, 46, 30, 2);
    LaidGap(f, 46, 32, 2);
    LaidGap(f, 46, 34, 2);
    LaidGap(f, 46, 36, 2);
    LaidGap(f, 46, 38, 4);
  }

  /** Every field of the end record, and the comment length it leaves at zero. */
  lemma {:induction false} EndReads(count: nat, size: nat, offset: nat)
    ensures var r := EndRecord(count, size, offset);
      && Read(r, 0, 4) == 0x0605_4b50 && Read(r, 8, 2) == Read(r, 10, 2) == count % 0x1_0000
      && Read(r, 12, 4) == size % 0x1_0000_0000 && Read(r, 16, 4) == offset % 0x1_0000_0000
      && Read(r, 4, 2) == 0 && Read(r, 6, 2) == 0 && Read(r, 20, 2) == 0
  {
    hide Read, Laid, Pow256, Ordered;
    Widths();
    EndOrdered(count, size, offset);
    var f := EndFields(count, size, offset);
    FieldOf(f, 22, 0);
    FieldOf(f, 22, 1);
    FieldOf(f, 22, 2);
    FieldOf(f, 22, 3);
    FieldOf(f, 22, 4);
    assert forall i :: 0 <= i < |f| ==> Apart(f[i], 4, 2) && Apart(f[i], 6, 2) && Apart(f[i], 20, 2);
    LaidGap(f, 22, 4, 2);
    LaidGap(f, 22, 6, 2);
    LaidGap(f, 22, 20, 2);
  }

  // ----- the archive

  function Local(e: StoredEntry): (s: seq<Byte>)
    ensures |s| == 30 + |e.name| + |e.body|
  {
    LocalHeader(e) + e.name + e.body
  }

  function Central(e: StoredEntry, offset: nat): (s: seq<Byte>)
    ensures |s| == 46 + |e.name|
  {
    CentralRecord(e, offset) + e.name
  }

  function Locals(es: seq<StoredEntry>): seq<Byte> {
    if es == [] then [] else Locals(es[..|es| - 1]) + Local(es[|es| - 1])
  }

  /** The directory: each record carries the offset at which the bodies before it end. */
  function Centrals(es: seq<StoredEntry>): seq<Byte> {
    if es == [] then []
    else Centrals(es[..|es| - 1]) + Central(es[|es| - 1], |Locals(es[..|es| - 1])|)
  }

  function ArchiveOf(es: seq<StoredEntry>): seq<Byte> {
    Locals(es) + Centrals(es) + EndRecord(|es|, |Centrals(es)|, |Locals(es)|)
  }

  function TotalBytes(es: seq<StoredEntry>): nat {
    if es == [] then 0 else TotalBytes(es[..|es| - 1]) + |es[|es| - 1].body|
  }

  // ----- the reader

  datatype File = File(name: seq<Byte>, body: seq<Byte>)

  datatype DirectoryEntry = DirectoryEntry(file: File, next: nat)

  /** What a directory record says that the local header says again. */
  datatype Listing = Listing(flags: nat, crc: nat, size: nat, name: seq<Byte>)

  /** Section 4.3.7: a local header that agrees with its directory record, its name and extra field, then the data. */
  function ReadLocal(z: seq<Byte>, at: nat, l: Listing): Option<seq<Byte>> {
    if at + 30 > |z| || Read(z, at, 4) != LOCAL_SIGNATURE then None
    else if Read(z, at + 6, 2) != l.flags || Read(z, at + 8, 2) != STORED || Read(z, at + 14, 4) != l.crc then None
    else if Read(z, at + 18, 4) != l.size || Read(z, at + 22, 4) != l.size || Read(z, at + 26, 2) != |l.name| then None
    else
      var nameEnd := at + 30 + |l.name|;
      var start := nameEnd + Read(z, at + 28, 2);
      if start + l.size > |z| || z[at + 30..nameEnd] != l.name then None
      else Some(z[start..start + l.size])
  }

  /** Section 4.3.12: a directory record, and through its offset the file it stands for. */
  function ReadEntry(z: seq<Byte>, at: nat): Option<DirectoryEntry> {
    if at + 46 > |z| || Read(z, at, 4) != CENTRAL_SIGNATURE || Read(z, at + 10, 2) != STORED then None
    else
      var nameEnd := at + 46 + Read(z, at + 28, 2);
      var next := nameEnd + Read(z, at + 30, 2) + Read(z, at + 32, 2);
      if next > |z| || Read(z, at + 20, 4) != Read(z, at + 24, 4) then None
      else
        var l := Listing(Read(z, at + 8, 2), Read(z, at + 16, 4), Read(z, at + 24, 4), z[at + 46..nameEnd]);
        var body := ReadLocal(z, Read(z, at + 42, 4), l);
        if body.None? || CrcValue(body.value) != l.crc then None
        else Some(DirectoryEntry(File(l.name, body.value), next))
  }

  function ReadDirectory(z: seq<Byte>, at: nat, count: nat): Option<seq<File>>
    decreases count
  {
    if count == 0 then Some([])
    else
      var e := ReadEntry(z, at);
      if e.None? then None
      else
        var rest := ReadDirectory(z, e.value.next, count - 1);
        if rest.None? then None else Some([e.value.file] + rest.value)
  }

  /** Section 4.3.16: the end record of an archive without a comment says where the directory is. */
  function ReadZip(z: seq<Byte>): Option<seq<File>> {
    if |z| < 22 then None
    else
      var at := |z| - 22;
      if Read(z, at, 4) != END_SIGNATURE || Read(z, at + 20, 2) != 0 then None
      else if Read(z, at + 8, 2) != Read(z, at + 10, 2) then None
      else if Read(z, at + 16, 4) + Read(z, at + 12, 4) != at then None
      else ReadDirectory(z, Read(z, at + 16, 4), Read(z, at + 10, 2))
  }
}
