/**
  Little-endian fields of a fixed-size buffer, as `DataView.setUint16` and `setUint32` write them.
 */
module Bytes {
  import opened Crc

  function Pow256(n: nat): (p: nat)
    ensures p >= 1
  {
    if n == 0 then 1 else 256 * Pow256(n - 1)
  }

  /** The `n` low bytes of `v`, lowest first; anything above is dropped, as a `DataView` does. */
  function Encode(v: nat, n: nat): (s: seq<Byte>)
    ensures |s| == n
  {
    if n == 0 then [] else [v % 256] + Encode(v / 256, n - 1)
  }

  function Decode(s: seq<Byte>): nat {
    if s == [] then 0 else s[0] + 256 * Decode(s[1..])
  }

  lemma {:induction false} AtLeastOnce(m: nat, d: nat)
    requires d >= 1
    ensures m * d >= m
  {
    assert m * d == m * (d - 1) + m;
  }

  lemma {:induction false} Multiple(m: int, a: int, b: int)
    ensures m * a - m * b == m * (a - b)
  {
  }

  lemma {:induction false} RemainderIs(x: nat, m: nat, k: nat, r: nat)
    requires x == m * k + r && r < m
    ensures x % m == r
  {
    var q, s := x / m, x % m;
    assert x == m * q + s;
    if q > k {
      Multiple(m, q, k);
      AtLeastOnce(m, q - k);
      assert false;
    } else if q < k {
      Multiple(m, k, q);
      AtLeastOnce(m, k - q);
      assert false;
    }
  }

  /** A value reads back as its remainder modulo the width, so one that fits as itself. */
  lemma {:induction false} DecodeEncode(v: nat, n: nat)
    ensures Decode(Encode(v, n)) == v % Pow256(n)
  {
    if n > 0 {
      var q, p := v / 256, Pow256(n - 1);
      DecodeEncode(q, n - 1);
      assert Encode(v, n)[1..] == Encode(q, n - 1);
      Digits(v, p);
    }
  }

  lemma {:induction false} Digits(v: nat, p: nat)
    requires p > 0
    ensures v % (256 * p) == v % 256 + 256 * ((v / 256) % p)
  {
    var q := v / 256;
    var k, r := q / p, q % p;
    assert q == p * k + r;
    assert 256 * q == 256 * p * k + 256 * r by {
      Distribute(p, k, r);
    }
    RemainderIs(v, 256 * p, k, 256 * r + v % 256);
  }

  lemma {:induction false} Distribute(p: nat, k: nat, r: nat)
    ensures 256 * (p * k + r) == 256 * p * k + 256 * r
  {
  }

  /** Nothing larger than the width can be read back. */
  lemma {:induction false} DecodeBound(s: seq<Byte>)
    ensures Decode(s) < Pow256(|s|)
  {
    if s != [] {
      DecodeBound(s[1..]);
    }
  }

  // ----- buffers

  datatype Field = Field(at: nat, width: nat, value: nat)

  function Zeros(n: nat): (s: seq<Byte>)
    ensures |s| == n && forall k :: 0 <= k < n ==> s[k] == 0
  {
    seq(n, k => 0)
  }

  /** `s` with `bytes` written at `at`. */
  function Overwritten(s: seq<Byte>, at: nat, bytes: seq<Byte>): (r: seq<Byte>)
    requires at + |bytes| <= |s|
    ensures |r| == |s|
    ensures forall k :: 0 <= k < |s| ==> r[k] == if at <= k < at + |bytes| then bytes[k - at] else s[k]
  {
    s[..at] + bytes + s[at + |bytes|..]
  }

  ghost predicate Fitting(fields: seq<Field>, size: nat) {
    forall i :: 0 <= i < |fields| ==> fields[i].at + fields[i].width <= size
  }

  /** The buffer after the fields were written in order, on zeros. */
  function Laid(fields: seq<Field>, size: nat): (s: seq<Byte>)
    requires Fitting(fields, size)
    ensures |s| == size
  {
    if fields == [] then Zeros(size)
    else
      var init, f := fields[..|fields| - 1], fields[|fields| - 1];
      assert Fitting(init, size);
      Overwritten(Laid(init, size), f.at, Encode(f.value, f.width))
  }

  /** The number stored little-endian in the `n` bytes at `at`. */
  function Read(s: seq<Byte>, at: nat, n: nat): nat
    requires at + n <= |s|
  {
    Decode(s[at..at + n])
  }

  ghost predicate Apart(f: Field, at: nat, n: nat) {
    f.at + f.width <= at || at + n <= f.at
  }

  lemma {:induction false} ReadWritten(s: seq<Byte>, f: Field)
    requires f.at + f.width <= |s|
    ensures var r := Read(Overwritten(s, f.at, Encode(f.value, f.width)), f.at, f.width);
      r == f.value % Pow256(f.width)
  {
    var r := Overwritten(s, f.at, Encode(f.value, f.width));
    assert r[f.at..f.at + f.width] == Encode(f.value, f.width);
    DecodeEncode(f.value, f.width);
  }

  lemma {:induction false} ReadElsewhere(s: seq<Byte>, f: Field, at: nat, n: nat)
    requires f.at + f.width <= |s| && at + n <= |s| && Apart(f, at, n)
    ensures Read(Overwritten(s, f.at, Encode(f.value, f.width)), at, n) == Read(s, at, n)
  {
    var r := Overwritten(s, f.at, Encode(f.value, f.width));
    assert r[at..at + n] == s[at..at + n];
  }

  /** Fields written later do not touch what is apart from them. */
  lemma {:induction false} LaidUntouched(fields: seq<Field>, size: nat, k: nat, at: nat, n: nat)
    requires Fitting(fields, size) && k <= |fields| && at + n <= size
    requires forall i :: k <= i < |fields| ==> Apart(fields[i], at, n)
    ensures Fitting(fields[..k], size)
    ensures Read(Laid(fields, size), at, n) == Read(Laid(fields[..k], size), at, n)
    decreases |fields|
  {
    if k == |fields| {
      assert fields[..k] == fields;
    } else {
      var init, f := fields[..|fields| - 1], fields[|fields| - 1];
      LaidUntouched(init, size, k, at, n);
      assert init[..k] == fields[..k];
      ReadElsewhere(Laid(init, size), f, at, n);
    }
  }

  /** Every field of a layout without overlaps reads back as its value, truncated to its width. */
  lemma {:induction false} LaidField(fields: seq<Field>, size: nat, k: nat)
    requires Fitting(fields, size) && k < |fields|
    requires forall i :: k < i < |fields| ==> Apart(fields[i], fields[k].at, fields[k].width)
    ensures fields[k].at + fields[k].width <= size
    ensures var f := fields[k]; var r := Read(Laid(fields, size), f.at, f.width);
      r == f.value % Pow256(f.width)
  {
    var f := fields[k];
    LaidUntouched(fields, size, k + 1, f.at, f.width);
    assert fields[..k + 1][..k] == fields[..k];
    assert Fitting(fields[..k], size);
    ReadWritten(Laid(fields[..k], size), f);
  }

  lemma {:induction false} DecodeZeros(n: nat)
    ensures Decode(Zeros(n)) == 0
  {
    if n > 0 {
      assert Zeros(n)[1..] == Zeros(n - 1);
      DecodeZeros(n - 1);
    }
  }

  /** What no field covers reads as zero. */
  lemma {:induction false} LaidGap(fields: seq<Field>, size: nat, at: nat, n: nat)
    requires Fitting(fields, size) && at + n <= size
    requires forall i :: 0 <= i < |fields| ==> Apart(fields[i], at, n)
    ensures Read(Laid(fields, size), at, n) == 0
  {
    LaidUntouched(fields, size, 0, at, n);
    assert Zeros(size)[at..at + n] == Zeros(n);
    DecodeZeros(n);
  }
}
