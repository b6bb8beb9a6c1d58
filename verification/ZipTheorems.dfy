/**
  The archive `packStored` writes is read back exactly, and when it is not.
 */
module ZipTheorems {
  import opened Common
  import opened Crc
  import opened Bytes
  import opened Zip

  function Files(es: seq<StoredEntry>): (s: seq<File>)
    ensures |s| == |es| && forall k :: 0 <= k < |es| ==> s[k] == File(es[k].name, es[k].body)
  {
    seq(|es|, k requires 0 <= k < |es| => File(es[k].name, es[k].body))
  }

  /** `part` stands at `at` in `z`. */
  ghost predicate StandsAt(z: seq<Byte>, at: nat, part: seq<Byte>) {
    at + |part| <= |z| && z[at..at + |part|] == part
  }

  lemma {:induction false} SliceOfSlice<T>(z: seq<T>, a: nat, b: nat, k: nat, n: nat)
    requires a <= b <= |z| && k + n <= b - a
    ensures z[a..b][k..k + n] == z[a + k..a + k + n]
  {
    var l, r := z[a..b][k..k + n], z[a + k..a + k + n];
    assert |l| == |r| == n;
    forall j | 0 <= j < n ensures l[j] == r[j] {
      assert l[j] == z[a..b][k + j] == z[a + (k + j)];
      assert r[j] == z[(a + k) + j];
    }
  }

  lemma {:induction false} ReadAt(z: seq<Byte>, at: nat, part: seq<Byte>, k: nat, n: nat)
    requires StandsAt(z, at, part) && k + n <= |part|
    ensures at + k + n <= |z| && Read(z, at + k, n) == Read(part, k, n)
  {
    SliceOfSlice(z, at, at + |part|, k, n);
  }

  lemma {:induction false} PartAt(z: seq<Byte>, at: nat, a: seq<Byte>, b: seq<Byte>)
    requires StandsAt(z, at, a + b)
    ensures StandsAt(z, at, a) && StandsAt(z, at + |a|, b)
  {
    assert (a + b)[..|a|] == a && (a + b)[|a|..] == b;
    assert z[at..at + |a|] == z[at..at + |a| + |b|][..|a|];
    assert z[at + |a|..at + |a| + |b|] == z[at..at + |a| + |b|][|a|..];
  }

  // ----- one entry

  function ListingOf(e: StoredEntry): Listing {
    Listing(UTF8, CrcValue(e.body), |e.body|, e.name)
  }

  lemma {:induction false} LocalIsRead(z: seq<Byte>, at: nat, e: StoredEntry)
    requires StandsAt(z, at, Local(e)) && |e.name| < 0x1_0000 && |e.body| < 0x1_0000_0000
    ensures ReadLocal(z, at, ListingOf(e)) == Some(e.body)
  {
    hide Read, LocalHeader, CrcValue;
    PartAt(z, at, LocalHeader(e) + e.name, e.body);
    PartAt(z, at, LocalHeader(e), e.name);
    LocalReadsAs(e);
    var h := LocalHeader(e);
    ReadAt(z, at, h, 0, 4);
    ReadAt(z, at, h, 6, 2);
    ReadAt(z, at, h, 8, 2);
    ReadAt(z, at, h, 14, 4);
    ReadAt(z, at, h, 18, 4);
    ReadAt(z, at, h, 22, 4);
    ReadAt(z, at, h, 26, 2);
    ReadAt(z, at, h, 28, 2);
  }

  /** What the reader finds in a directory record. */
  lemma {:induction false} RecordIsRead(z: seq<Byte>, at: nat, e: StoredEntry, offset: nat)
    requires StandsAt(z, at, Central(e, offset))
    requires |e.name| < 0x1_0000 && |e.body| < 0x1_0000_0000 && offset < 0x1_0000_0000
    ensures at + 46 + |e.name| <= |z| && StandsAt(z, at + 46, e.name)
    ensures Read(z, at, 4) == CENTRAL_SIGNATURE && Read(z, at + 8, 2) == UTF8 && Read(z, at + 10, 2) == STORED
    ensures Read(z, at + 16, 4) == CrcValue(e.body)
    ensures Read(z, at + 20, 4) == |e.body| && Read(z, at + 24, 4) == |e.body|
    ensures Read(z, at + 28, 2) == |e.name|
    ensures Read(z, at + 30, 2) == 0 && Read(z, at + 32, 2) == 0 && Read(z, at + 42, 4) == offset
  {
    hide Read, CentralRecord, CrcValue;
    var r := CentralRecord(e, offset);
    PartAt(z, at, r, e.name);
    CentralReadsAs(e, offset);
    ReadAt(z, at, r, 0, 4);
    ReadAt(z, at, r, 8, 2);
    ReadAt(z, at, r, 10, 2);
    ReadAt(z, at, r, 16, 4);
    ReadAt(z, at, r, 20, 4);
    ReadAt(z, at, r, 24, 4);
    ReadAt(z, at, r, 28, 2);
    ReadAt(z, at, r, 30, 2);
    ReadAt(z, at, r, 32, 2);
    ReadAt(z, at, r, 42, 4);
  }

  lemma {:induction false} EntryIsRead(z: seq<Byte>, at: nat, offset: nat, e: StoredEntry)
    requires StandsAt(z, at, Central(e, offset)) && StandsAt(z, offset, Local(e))
    requires |e.name| < 0x1_0000 && |e.body| < 0x1_0000_0000 && offset < 0x1_0000_0000
    ensures ReadEntry(z, at) == Some(DirectoryEntry(File(e.name, e.body), at + 46 + |e.name|))
  {
    hide Read, CrcValue, Local, Central, ReadLocal;
    RecordIsRead(z, at, e, offset);
    LocalIsRead(z, offset, e);
  }

  lemma {:induction false} ShortRead(z: seq<Byte>, at: nat)
    requires at + 2 <= |z|
    ensures Read(z, at, 2) < 0x1_0000
  {
    DecodeBound(z[at..at + 2]);
    assert Pow256(2) == 256 * Pow256(1) == 0x1_0000;
  }

  /** Whatever the bytes, a name that is read fits its 16-bit length field. */
  lemma {:induction false} NamesReadAreShort(z: seq<Byte>, at: nat, count: nat)
    ensures var r := ReadDirectory(z, at, count); r.Some? ==> forall f <- r.value :: |f.name| < 0x1_0000
    decreases count
  {
    hide Read, CrcValue, ReadLocal;
    if count > 0 && ReadEntry(z, at).Some? {
      ShortRead(z, at + 28);
      NamesReadAreShort(z, ReadEntry(z, at).value.next, count - 1);
    }
  }

  // ----- where the parts stand

  lemma {:induction false} LocalsPrefix(es: seq<StoredEntry>, i: nat)
    requires i <= |es|
    ensures Locals(es[..i]) <= Locals(es)
    decreases |es|
  {
    if i < |es| {
      var init := es[..|es| - 1];
      LocalsPrefix(init, i);
      assert init[..i] == es[..i];
    } else {
      assert es[..i] == es;
    }
  }

  lemma {:induction false} CentralsPrefix(es: seq<StoredEntry>, i: nat)
    requires i <= |es|
    ensures Centrals(es[..i]) <= Centrals(es)
    decreases |es|
  {
    if i < |es| {
      var init := es[..|es| - 1];
      CentralsPrefix(init, i);
      assert init[..i] == es[..i];
    } else {
      assert es[..i] == es;
    }
  }

  lemma {:induction false} PrefixStands(z: seq<Byte>, before: seq<Byte>, part: seq<Byte>)
    requires before + part <= z
    ensures StandsAt(z, |before|, part)
  {
    assert z[..|before| + |part|] == before + part;
    assert z[|before|..|before| + |part|] == z[..|before| + |part|][|before|..];
  }

  lemma {:induction false} StandsInside(z: seq<Byte>, at: nat, whole: seq<Byte>, k: nat, part: seq<Byte>)
    requires StandsAt(z, at, whole) && StandsAt(whole, k, part)
    ensures StandsAt(z, at + k, part)
  {
    SliceOfSlice(z, at, at + |whole|, k, |part|);
  }

  lemma {:induction false} ArchiveParts(es: seq<StoredEntry>)
    ensures var z := ArchiveOf(es);
      && z == Locals(es) + Centrals(es) + EndRecord(|es|, |Centrals(es)|, |Locals(es)|)
      && Locals(es) <= z && Locals(es) + Centrals(es) <= z
  {
  }

  lemma {:induction false} EntryParts(es: seq<StoredEntry>, i: nat)
    requires i < |es|
    ensures Locals(es[..i + 1]) == Locals(es[..i]) + Local(es[i])
    ensures Centrals(es[..i + 1]) == Centrals(es[..i]) + Central(es[i], |Locals(es[..i])|)
  {
    assert es[..i + 1][..i] == es[..i];
  }

  /** Each recorded offset is the true position of its local header. */
  lemma {:induction false} EntryStands(es: seq<StoredEntry>, i: nat)
    requires i < |es|
    ensures var z, offset := ArchiveOf(es), |Locals(es[..i])|;
      && StandsAt(z, offset, Local(es[i]))
      && StandsAt(z, |Locals(es)| + |Centrals(es[..i])|, Central(es[i], offset))
  {
    hide Local, Central, StandsAt, Locals, Centrals, ArchiveOf;
    var z := ArchiveOf(es);
    ArchiveParts(es);
    EntryParts(es, i);
    LocalsPrefix(es, i + 1);
    CentralsPrefix(es, i + 1);
    PrefixStands(z, Locals(es[..i]), Local(es[i]));
    PrefixStands(Centrals(es), Centrals(es[..i]), Central(es[i], |Locals(es[..i])|));
    PrefixStands(z, Locals(es), Centrals(es));
    StandsInside(z, |Locals(es)|, Centrals(es), |Centrals(es[..i])|, Central(es[i], |Locals(es[..i])|));
  }

  lemma {:induction false} OffsetFits(es: seq<StoredEntry>, i: nat)
    requires i <= |es|
    ensures |Locals(es[..i])| <= |ArchiveOf(es)|
  {
    LocalsPrefix(es, i);
  }

  lemma {:induction false} NextRecord(es: seq<StoredEntry>, i: nat)
    requires i < |es|
    ensures |Centrals(es[..i + 1])| == |Centrals(es[..i])| + 46 + |es[i].name|
  {
    assert es[..i + 1][..i] == es[..i];
  }

  // ----- sizes

  ghost predicate NamesFit(es: seq<StoredEntry>) {
    forall e <- es :: |e.name| < 0x1_0000
  }

  lemma {:induction false} Sizes(es: seq<StoredEntry>)
    requires NamesFit(es)
    ensures |Locals(es)| <= |es| * 65565 + TotalBytes(es)
    ensures |Centrals(es)| <= |es| * 65581
  {
    hide Local, Central;
    if es != [] {
      var init := es[..|es| - 1];
      assert forall e <- init :: e in es;
      Sizes(init);
      assert |es[|es| - 1].name| < 0x1_0000;
    }
  }

  lemma {:induction false} BodyIsBounded(es: seq<StoredEntry>, i: nat)
    requires i < |es|
    ensures |es[i].body| <= TotalBytes(es)
  {
    if i < |es| - 1 {
      BodyIsBounded(es[..|es| - 1], i);
    }
  }

  /** Within the limits the writer checks and with names under 2^16 bytes, every position fits 32 bits. */
  lemma {:induction false} ArchiveFits(es: seq<StoredEntry>)
    requires |es| <= MAX_STORED_ENTRIES && TotalBytes(es) <= MAX_STORED_BYTES && NamesFit(es)
    ensures |ArchiveOf(es)| < 0x1_0000_0000
  {
    Sizes(es);
  }

  // ----- the round trip

  /** Reading the directory from its `i`-th record on. */
  lemma {:induction false} DirectoryIsRead(es: seq<StoredEntry>, i: nat)
    requires i <= |es| && TotalBytes(es) <= MAX_STORED_BYTES && |ArchiveOf(es)| < 0x1_0000_0000 && NamesFit(es)
    ensures ReadDirectory(ArchiveOf(es), |Locals(es)| + |Centrals(es[..i])|, |es| - i) == Some(Files(es)[i..])
    decreases |es| - i
  {
    hide Local, Central, EndRecord, ReadEntry, StandsAt, Locals, Centrals, ArchiveOf;
    if i == |es| {
      assert Files(es)[i..] == [];
    } else {
      var z, at, offset := ArchiveOf(es), |Locals(es)| + |Centrals(es[..i])|, |Locals(es[..i])|;
      EntryStands(es, i);
      BodyIsBounded(es, i);
      OffsetFits(es, i);
      assert es[i] in es;
      EntryIsRead(z, at, offset, es[i]);
      NextRecord(es, i);
      DirectoryIsRead(es, i + 1);
      assert Files(es)[i..] == [File(es[i].name, es[i].body)] + Files(es)[i + 1..];
    }
  }

  lemma {:induction false} EndIsRead(es: seq<StoredEntry>)
    requires |es| <= MAX_STORED_ENTRIES && |ArchiveOf(es)| < 0x1_0000_0000
    ensures var z := ArchiveOf(es); var at := |z| - 22;
      && |z| >= 22
      && Read(z, at, 4) == END_SIGNATURE && Read(z, at + 20, 2) == 0 && Read(z, at + 8, 2) == |es|
      && Read(z, at + 16, 4) == |Locals(es)| && Read(z, at + 12, 4) == |Centrals(es)| && Read(z, at + 10, 2) == |es|
      && at == |Locals(es)| + |Centrals(es)|
  {
    hide Read, EndRecord, ArchiveOf, Locals, Centrals, StandsAt;
    var z, r := ArchiveOf(es), EndRecord(|es|, |Centrals(es)|, |Locals(es)|);
    ArchiveParts(es);
    EndReads(|es|, |Centrals(es)|, |Locals(es)|);
    PrefixStands(z, Locals(es) + Centrals(es), r);
    var at := |z| - 22;
    ReadAt(z, at, r, 0, 4);
    ReadAt(z, at, r, 8, 2);
    ReadAt(z, at, r, 10, 2);
    ReadAt(z, at, r, 12, 4);
    ReadAt(z, at, r, 16, 4);
    ReadAt(z, at, r, 20, 2);
  }

  /**
    Round trip: the reader recovers exactly the packed names and bodies, in order, if and only if every
    encoded name is shorter than 2^16 bytes. The writer checks the other two limits and not this one.
   */
  lemma {:induction false} ZipRoundTripIff(es: seq<StoredEntry>)
    requires |es| <= MAX_STORED_ENTRIES && TotalBytes(es) <= MAX_STORED_BYTES
    ensures ReadZip(ArchiveOf(es)) == Some(Files(es)) <==> NamesFit(es)
  {
    hide Read, ReadDirectory, Locals, Centrals, EndRecord, ArchiveOf;
    if NamesFit(es) {
      ArchiveFits(es);
      EndIsRead(es);
      assert es[..0] == [] && Files(es)[0..] == Files(es);
      NoCentrals();
      DirectoryIsRead(es, 0);
    } else if ReadZip(ArchiveOf(es)) == Some(Files(es)) {
      var z := ArchiveOf(es);
      NamesReadAreShort(z, Read(z, |z| - 22 + 16, 4), Read(z, |z| - 22 + 10, 2));
      FilesNames(es);
    }
  }

  lemma {:induction false} FilesNames(es: seq<StoredEntry>)
    requires forall f <- Files(es) :: |f.name| < 0x1_0000
    ensures NamesFit(es)
  {
    forall e <- es ensures |e.name| < 0x1_0000 {
      assert File(e.name, e.body) in Files(es);
    }
  }

  lemma {:induction false} NoCentrals()
    ensures Centrals([]) == []
  {
  }

  /** One file with a name of 2^16 bytes is packed and does not read back. */
  lemma {:induction false} LongNameIsLost(name: seq<Byte>)
    requires |name| == 0x1_0000
    ensures var es := [StoredEntry(name, [], 0, 0)];
      |es| <= MAX_STORED_ENTRIES && TotalBytes(es) <= MAX_STORED_BYTES && ReadZip(ArchiveOf(es)) != Some(Files(es))
  {
    hide ReadZip, ArchiveOf;
    var e := StoredEntry(name, [], 0, 0);
    assert [e][..0] == [] && TotalBytes([]) == 0;
    assert e in [e];
    ZipRoundTripIff([e]);
  }
}
