/**
  The table-driven CRC-32 of packages/core/src/archive/packStored.ts, against the bit-by-bit register
  with the reflected polynomial 0xEDB88320 (section 4.4.7 of the ZIP application note).

  A register is a 32-bit word; words are wrapped so that their algebra is proved once, on bit vectors,
  and used from then on without unfolding them.
 */
module Crc {

  /** A byte of a file. */
  type Byte = b: int | 0 <= b < 256

  datatype Word = Word(bits: bv32)

  const POLYNOMIAL: bv32 := 0xEDB8_8320

  // ----- words

  function XorBits(a: bv32, b: bv32): bv32 {
    a ^ b
  }

  function Xor(a: Word, b: Word): Word {
    Word(XorBits(a.bits, b.bits))
  }

  /** Logical shift right by one. */
  function Half(a: Word): Word {
    Word(HalfBits(a.bits))
  }

  function HalfBits(a: bv32): bv32 {
    a >> 1
  }

  function LowBit(a: Word): Word {
    Word(a.bits & 1)
  }

  function LowByte(a: Word): Word {
    Word(a.bits & 0xFF)
  }

  function HighBytes(a: Word): Word {
    Word(a.bits & 0xFFFF_FF00)
  }

  /** Logical shift right by eight. */
  function Drop8(a: Word): Word {
    Word(a.bits >> 8)
  }

  function OfByte(b: Byte): (w: Word)
    ensures w.bits & 0xFFFF_FF00 == 0
  {
    Word((b as bv8) as bv32)
  }

  function ShiftBits(c: bv32): bv32 {
    if c & 1 == 1 then POLYNOMIAL ^ (c >> 1) else c >> 1
  }

  /** One step of the register. */
  function Shift(c: Word): Word {
    Word(ShiftBits(c.bits))
  }

  function ShiftBy(c: Word, n: nat): Word
    decreases n
  {
    if n == 0 then c else ShiftBy(Shift(c), n - 1)
  }

  // ----- the reference: one bit at a time

  /** Feed the `n` lowest bits of `bits`, least significant first: each is added to the register before a step. */
  function FeedBits(c: Word, bits: Word, n: nat): Word
    decreases n
  {
    if n == 0 then c else FeedBits(Shift(Xor(c, LowBit(bits))), Half(bits), n - 1)
  }

  /** The register after the bits of `data`, started with all ones. */
  function Register(data: seq<Byte>): Word {
    if data == [] then Word(0xFFFF_FFFF)
    else FeedBits(Register(data[..|data| - 1]), OfByte(data[|data| - 1]), 8)
  }

  function Crc32Of(data: seq<Byte>): bv32 {
    Complement(Register(data).bits)
  }

  // ----- the algebra of words

  lemma {:induction false} XorShift(x: bv32, y: bv32)
    ensures (x ^ y) >> 1 == (x >> 1) ^ (y >> 1)
    ensures (x ^ y) & 1 == (x & 1) ^ (y & 1)
    ensures (x & 1 == 0 || x & 1 == 1) && (y & 1 == 0 || y & 1 == 1)
  {
  }

  lemma {:induction false} XorCancel(p: bv32, a: bv32, b: bv32)
    ensures (p ^ a) ^ (p ^ b) == a ^ b
    ensures (p ^ a) ^ b == p ^ (a ^ b) && a ^ (p ^ b) == p ^ (a ^ b)
  {
  }

  lemma {:induction false} XorBitsIs(a: bv32, b: bv32)
    ensures XorBits(a, b) == a ^ b
  {
  }

  lemma {:induction false} ShiftBitsLinear(a: bv32, b: bv32)
    ensures ShiftBits(XorBits(a, b)) == XorBits(ShiftBits(a), ShiftBits(b))
  {
    hide XorBits, ShiftBits;
    RawShiftLinear(a, b);
    XorBitsIs(a, b);
    XorBitsIs(ShiftBits(a), ShiftBits(b));
  }

  lemma {:induction false} RawShiftLinear(a: bv32, b: bv32)
    ensures ShiftBits(a ^ b) == ShiftBits(a) ^ ShiftBits(b)
  {
    XorShift(a, b);
    XorCancel(POLYNOMIAL, a >> 1, b >> 1);
    if a & 1 == 1 {
      if b & 1 == 1 {
        assert (a ^ b) & 1 == 0;
      } else {
        assert (a ^ b) & 1 == 1;
      }
    } else {
      if b & 1 == 1 {
        assert (a ^ b) & 1 == 1;
      } else {
        assert (a ^ b) & 1 == 0;
      }
    }
  }

  /** A step of a sum is the sum of the steps. */
  lemma {:induction false} ShiftLinear(x: Word, y: Word)
    ensures Shift(Xor(x, y)) == Xor(Shift(x), Shift(y))
  {
    hide ShiftBits, XorBits;
    ShiftBitsLinear(x.bits, y.bits);
  }

  lemma {:induction false} XorTwice(a: Word, b: Word)
    ensures Xor(Xor(a, b), b) == a
  {
  }

  function Even(a: Word): Word {
    Word(EvenBits(a.bits))
  }

  function EvenBits(a: bv32): bv32 {
    a & 0xFFFF_FFFE
  }

  lemma {:induction false} EvenPart(c: Word, bits: Word)
    ensures Xor(Xor(c, LowBit(bits)), Even(bits)) == Xor(c, bits)
  {
    hide XorBits;
    EvenXor(c.bits, bits.bits);
  }

  lemma {:induction false} EvenHalf(bits: Word)
    ensures Shift(Even(bits)) == Half(bits)
  {
    hide ShiftBits, EvenBits, HalfBits;
    EvenShift(bits.bits);
  }

  lemma {:induction false} EvenXor(c: bv32, b: bv32)
    ensures XorBits(XorBits(c, b & 1), b & 0xFFFF_FFFE) == XorBits(c, b)
  {
    hide XorBits;
    var low, even := b & 1, b & 0xFFFF_FFFE;
    HalvesXor(b);
    XorAssociates(c, low, even);
  }

  lemma {:induction false} HalvesXor(b: bv32)
    ensures XorBits(b & 1, b & 0xFFFF_FFFE) == b
  {
  }

  lemma {:induction false} XorAssociates(a: bv32, b: bv32, c: bv32)
    ensures XorBits(XorBits(a, b), c) == XorBits(a, XorBits(b, c))
  {
  }

  lemma {:induction false} EvenShift(b: bv32)
    ensures ShiftBits(EvenBits(b)) == HalfBits(b)
  {
    EvenHasNoLowBit(b);
  }

  lemma {:induction false} EvenHasNoLowBit(b: bv32)
    ensures (b & 0xFFFF_FFFE) & 1 == 0 && (b & 0xFFFF_FFFE) >> 1 == b >> 1
  {
  }

  lemma {:induction false} SplitBytes(x: Word)
    ensures Xor(LowByte(x), HighBytes(x)) == x
  {
  }

  lemma {:induction false} Xor0(x: Word)
    ensures Xor(x, Word(0)) == x
  {
  }

  // ----- the table does what the bits do

  lemma {:induction false} ShiftByLinear(x: Word, y: Word, n: nat)
    ensures ShiftBy(Xor(x, y), n) == Xor(ShiftBy(x, n), ShiftBy(y, n))
    decreases n
  {
    hide Shift, Xor;
    if n > 0 {
      ShiftLinear(x, y);
      ShiftByLinear(Shift(x), Shift(y), n - 1);
    }
  }

  function HalveBy(y: Word, n: nat): Word
    decreases n
  {
    if n == 0 then y else HalveBy(Half(y), n - 1)
  }

  lemma {:induction false} FeedOne(c: Word, bits: Word)
    ensures Shift(Xor(c, bits)) == Xor(Shift(Xor(c, LowBit(bits))), Half(bits))
  {
    hide Shift, Xor, LowBit, Half, Even;
    EvenPart(c, bits);
    EvenHalf(bits);
    ShiftLinear(Xor(c, LowBit(bits)), Even(bits));
  }

  /** Feeding bits one at a time is adding them all at once, stepping, and adding what was not yet consumed. */
  lemma {:induction false} FeedIsShift(c: Word, bits: Word, n: nat)
    ensures FeedBits(c, bits, n) == Xor(ShiftBy(Xor(c, bits), n), HalveBy(bits, n))
    decreases n
  {
    hide Shift, Xor, LowBit, Half;
    if n == 0 {
      XorTwice(c, bits);
    } else {
      FeedOne(c, bits);
      FeedIsShift(Shift(Xor(c, LowBit(bits))), Half(bits), n - 1);
    }
  }

  /** The steps of a word whose low byte is zero only move it down. */
  lemma {:induction false} ShiftIsHalve(z: Word, n: nat)
    requires n <= 8 && forall k: nat :: k < n ==> HalveBy(z, k).bits & 1 == 0
    ensures ShiftBy(z, n) == HalveBy(z, n)
    decreases n
  {
    if n > 0 {
      assert HalveBy(z, 0).bits & 1 == 0;
      assert Shift(z) == Half(z);
      forall k: nat | k < n - 1 ensures HalveBy(Half(z), k).bits & 1 == 0 {
        assert HalveBy(z, k + 1).bits & 1 == 0;
      }
      ShiftIsHalve(Half(z), n - 1);
    }
  }

  lemma {:induction false} Halve4(y: Word)
    ensures HalveBy(y, 0) == y && HalveBy(y, 1) == Half(y) && HalveBy(y, 2) == Half(Half(y))
    ensures HalveBy(y, 3) == Half(Half(Half(y))) && HalveBy(y, 4) == Half(Half(Half(Half(y))))
  {
    hide Half;
  }

  lemma {:induction false} HalveSplit(y: Word, m: nat, n: nat)
    ensures HalveBy(y, m + n) == HalveBy(HalveBy(y, m), n)
    decreases m
  {
    hide Half;
    if m > 0 {
      HalveSplit(Half(y), m - 1, n);
    }
  }

  lemma {:induction false} Halve8(y: Word)
    ensures HalveBy(y, 8) == Drop8(y)
  {
    hide HalveBy, Half, Drop8;
    HalveSplit(y, 4, 4);
    Halve4(y);
    Halve4(HalveBy(y, 4));
    EightHalves(y);
  }

  lemma {:induction false} EightHalves(y: Word)
    ensures Half(Half(Half(Half(Half(Half(Half(Half(y)))))))) == Drop8(y)
  {
  }

  lemma {:induction false} HighBytesMoveDown(x: Word)
    ensures ShiftBy(HighBytes(x), 8) == Drop8(x)
  {
    hide ShiftBy, HalveBy, HighBytes, Drop8;
    var z := HighBytes(x);
    forall k: nat | k < 8 ensures HalveBy(z, k).bits & 1 == 0 {
      HalveLow(x, k);
    }
    ShiftIsHalve(z, 8);
    Halve8(z);
    HighThenDrop(x);
  }

  lemma {:induction false} HighThenDrop(x: Word)
    ensures Drop8(HighBytes(x)) == Drop8(x)
  {
  }

  lemma {:induction false} HalveLow(x: Word, k: nat)
    requires k < 8
    ensures HalveBy(HighBytes(x), k).bits & 1 == 0
  {
    var z := HighBytes(x);
    Halve4(z);
    if k > 4 {
      HalveSplit(z, 4, k - 4);
      Halve4(HalveBy(z, 4));
    }
  }

  lemma {:induction false} DropByte(b: Byte, c: Word)
    ensures Drop8(OfByte(b)) == Word(0)
    ensures Drop8(Xor(c, OfByte(b))) == Drop8(c)
  {
    hide XorBits;
    DropBits(OfByte(b).bits, c.bits);
    XorBitsIs(c.bits, OfByte(b).bits);
  }

  lemma {:induction false} DropBits(w: bv32, c: bv32)
    requires w & 0xFFFF_FF00 == 0
    ensures w >> 8 == 0 && (c ^ w) >> 8 == c >> 8
  {
  }

  /** One table lookup does what feeding the eight bits of a byte does. */
  lemma {:induction false} TableStep(c: Word, b: Byte)
    ensures FeedBits(c, OfByte(b), 8) == Xor(ShiftBy(LowByte(Xor(c, OfByte(b))), 8), Drop8(c))
  {
    hide Xor, ShiftBy, FeedBits, HalveBy, OfByte, LowByte, HighBytes, Drop8;
    var w := OfByte(b);
    var x := Xor(c, w);
    FeedIsShift(c, w, 8);
    Halve8(w);
    DropByte(b, c);
    Xor0(ShiftBy(x, 8));
    SplitBytes(x);
    ShiftByLinear(LowByte(x), HighBytes(x), 8);
    HighBytesMoveDown(x);
  }

  // ----- the table and the loop

  method MakeTable() returns (table: array<bv32>)
    ensures table.Length == 256
    ensures forall n :: 0 <= n < 256 ==> Word(table[n]) == ShiftBy(OfByte(n), 8)
  {
    table := new bv32[256];
    for n := 0 to 256
      invariant forall m :: 0 <= m < n ==> Word(table[m]) == ShiftBy(OfByte(m), 8)
    {
      hide OfByte;
      var c := OfByte(n).bits;
      for k := 0 to 8
        invariant ShiftBy(Word(c), 8 - k) == ShiftBy(OfByte(n), 8)
      {
        c := if c & 1 == 1 then POLYNOMIAL ^ (c >> 1) else c >> 1;
      }
      table[n] := c;
    }
  }

  /** The new register: a table entry and what is left of the old one. */
  function Combined(entry: bv32, c: bv32): bv32 {
    entry ^ (c >> 8)
  }

  function Complement(c: bv32): bv32 {
    c ^ 0xFFFF_FFFF
  }

  /** The loop of the source: one lookup per byte. */
  method Crc32(data: seq<Byte>, table: array<bv32>) returns (crc: bv32)
    requires table.Length == 256
    requires forall n :: 0 <= n < 256 ==> Word(table[n]) == ShiftBy(OfByte(n), 8)
    ensures crc == Crc32Of(data)
  {
    hide FeedBits, ShiftBy, OfByte, Combined, IndexOf, Complement;
    var c: bv32 := 0xFFFF_FFFF;
    for i := 0 to |data|
      invariant Word(c) == Register(data[..i])
    {
      var index := IndexOf(c, data[i]);
      LookupStep(c, data[i], table[index]);
      c := Combined(table[index], c);
      assert data[..i + 1][..i] == data[..i];
    }
    assert data[..|data|] == data;
    crc := Complement(c);
  }

  /** The low byte of the sum of register and byte. */
  function IndexOf(c: bv32, b: Byte): (i: int)
    ensures 0 <= i < 256
  {
    (((c ^ OfByte(b).bits) & 0xFF) as bv8) as int
  }

  lemma {:induction false} ByteAndBack(y: bv8)
    ensures (y as int) as bv8 == y
  {
  }

  lemma {:induction false} IndexIsLowByte(c: bv32, b: Byte)
    ensures OfByte(IndexOf(c, b)) == LowByte(Xor(Word(c), OfByte(b)))
  {
    var x := c ^ OfByte(b).bits;
    ByteAndBack((x & 0xFF) as bv8);
    Narrow(x);
  }

  lemma {:induction false} Narrow(x: bv32)
    ensures ((x & 0xFF) as bv8) as bv32 == x & 0xFF
  {
  }

  lemma {:induction false} CombinedIsXor(entry: bv32, c: bv32)
    ensures Word(Combined(entry, c)) == Xor(Word(entry), Drop8(Word(c)))
  {
  }

  lemma {:induction false} LookupStep(c: bv32, b: Byte, entry: bv32)
    requires Word(entry) == ShiftBy(OfByte(IndexOf(c, b)), 8)
    ensures Word(Combined(entry, c)) == FeedBits(Word(c), OfByte(b), 8)
  {
    hide Xor, Drop8, ShiftBy, FeedBits, OfByte, LowByte, IndexOf, Combined;
    CombinedIsXor(entry, c);
    TableStep(Word(c), b);
    IndexIsLowByte(c, b);
  }
}
