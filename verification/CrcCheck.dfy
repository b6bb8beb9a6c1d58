/**
  Laws of the CRC-32 that other readers rely on (packages/core/src/archive/packStored.ts): the residue that
  is left when a checksum is appended to its data, and the check value of the catalogue.
 */
module CrcCheck {
  import opened Crc

  // ----- bytes and words

  function Octet(x: bv32): Byte {
    ((x & 0xFF) as bv8) as int
  }

  function Down8(x: bv32): bv32 {
    x >> 8
  }

  /** A checksum as the four bytes a little-endian field holds. */
  function LittleEndian(c: bv32): seq<Byte> {
    [Octet(c), Octet(Down8(c)), Octet(Down8(Down8(c))), Octet(Down8(Down8(Down8(c))))]
  }

  lemma {:induction false} OctetIs(x: bv32)
    ensures OfByte(Octet(x)) == LowByte(Word(x))
  {
    ByteAndBack((x & 0xFF) as bv8);
    Narrow(x);
  }

  // ----- one byte

  lemma {:induction false} Eight(c: Word)
    ensures ShiftBy(c, 8) == Shift(Shift(Shift(Shift(Shift(Shift(Shift(Shift(c))))))))
  {
    hide Shift;
    var d := Shift(Shift(Shift(Shift(c))));
    assert ShiftBy(c, 8) == ShiftBy(Shift(Shift(c)), 6) == ShiftBy(d, 4) == ShiftBy(Shift(Shift(d)), 2);
  }

  /** A byte is added to the register, which then takes eight steps. */
  lemma {:induction false} FedByte(c: Word, b: Byte)
    ensures FeedBits(c, OfByte(b), 8) == ShiftBy(Xor(c, OfByte(b)), 8)
  {
    hide Xor, ShiftBy, FeedBits, HalveBy, OfByte, Drop8;
    FeedIsShift(c, OfByte(b), 8);
    Halve8(OfByte(b));
    DropByte(b, c);
    Xor0(ShiftBy(Xor(c, OfByte(b)), 8));
  }

  lemma {:induction false} RegisterNext(data: seq<Byte>, b: Byte)
    ensures Register(data + [b]) == FeedBits(Register(data), OfByte(b), 8)
  {
    assert (data + [b])[..|data|] == data;
  }

  // ----- the residue

  /**
    Adding the low byte and stepping does what adding the whole word and stepping does, up to what is left of the
    word.
   */
  lemma {:induction false} FedLow(c: Word, w: Word)
    ensures ShiftBy(Xor(c, LowByte(w)), 8) == Xor(ShiftBy(Xor(c, w), 8), Drop8(w))
  {
    hide Xor, ShiftBy, LowByte, HighBytes, Drop8;
    SplitBytes(w);
    XorAssociates(c, LowByte(w), HighBytes(w));
    ShiftByLinear(Xor(c, LowByte(w)), HighBytes(w), 8);
    HighBytesMoveDown(w);
    XorTwice(ShiftBy(Xor(c, LowByte(w)), 8), Drop8(w));
  }

  lemma {:induction false} XorAssociates(a: Word, b: Word, c: Word)
    ensures Xor(a, Xor(b, c)) == Xor(Xor(a, b), c)
  {
  }

  /** One byte of the checksum: what the register and the rest of the checksum differ by takes eight steps. */
  lemma {:induction false} FedOctet(c: Word, w: Word, b: Byte)
    requires OfByte(b) == LowByte(w)
    ensures Xor(FeedBits(c, OfByte(b), 8), Drop8(w)) == ShiftBy(Xor(c, w), 8)
  {
    hide Xor, ShiftBy, LowByte, Drop8, FeedBits, OfByte;
    FedByte(c, b);
    FedLow(c, w);
    XorTwice(ShiftBy(Xor(c, w), 8), Drop8(w));
  }

  lemma {:induction false} DropOne(x: bv32)
    ensures Drop8(Word(x)) == Word(Down8(x))
  {
  }

  lemma {:induction false} NothingLeft(x: bv32)
    ensures Down8(Down8(Down8(Down8(x)))) == 0
  {
  }

  lemma {:induction false} FourBytes(data: seq<Byte>, b: seq<Byte>, w: seq<Word>)
    requires |b| == 4 && |w| == 5 && w[4] == Word(0)
    requires forall k :: 0 <= k < 4 ==> OfByte(b[k]) == LowByte(w[k]) && Drop8(w[k]) == w[k + 1]
    ensures Register(data + b) == ShiftBy(ShiftBy(ShiftBy(ShiftBy(Xor(Register(data), w[0]), 8), 8), 8), 8)
  {
    hide Xor, ShiftBy, LowByte, Drop8, FeedBits, OfByte, Register;
    var d1, d2, d3 := data + [b[0]], data + [b[0]] + [b[1]], data + [b[0]] + [b[1]] + [b[2]];
    assert data + b == d3 + [b[3]];
    RegisterNext(data, b[0]);
    RegisterNext(d1, b[1]);
    RegisterNext(d2, b[2]);
    RegisterNext(d3, b[3]);
    FedOctet(Register(data), w[0], b[0]);
    FedOctet(Register(d1), w[1], b[1]);
    FedOctet(Register(d2), w[2], b[2]);
    FedOctet(Register(d3), w[3], b[3]);
    Xor0(Register(d3 + [b[3]]));
  }

  /** After the four bytes of a word the register is what the sum of the two becomes in thirty-two steps. */
  lemma {:induction false} FedWord(data: seq<Byte>, w: bv32)
    ensures Register(data + LittleEndian(w))
         == ShiftBy(ShiftBy(ShiftBy(ShiftBy(Xor(Register(data), Word(w)), 8), 8), 8), 8)
  {
    hide Xor, ShiftBy, LowByte, Drop8, OfByte, Register, Octet, Down8;
    var x, y := Down8(w), Down8(Down8(w));
    var z := Down8(y);
    OctetIs(w);
    OctetIs(x);
    OctetIs(y);
    OctetIs(z);
    DropOne(w);
    DropOne(x);
    DropOne(y);
    DropOne(z);
    NothingLeft(w);
    FourBytes(data, LittleEndian(w), [Word(w), Word(x), Word(y), Word(z), Word(0)]);
  }

  // ----- constants, step by step

  lemma {:induction false} Steps8(c: bv32, d: bv32)
    requires d == ShiftBits(ShiftBits(ShiftBits(ShiftBits(ShiftBits(ShiftBits(ShiftBits(ShiftBits(c))))))))
    ensures ShiftBy(Word(c), 8) == Word(d)
  {
    hide ShiftBits;
    Eight(Word(c));
  }

  /** What all ones become in thirty-two steps. */
  lemma {:induction false} OnesAfter32()
    ensures ShiftBy(ShiftBy(ShiftBy(ShiftBy(Word(0xFFFF_FFFF), 8), 8), 8), 8) == Word(0xDEBB_20E3)
  {
    hide ShiftBy;
    Steps8(0xFFFF_FFFF, 0x2DFD_1072);
    Steps8(0x2DFD_1072, 0xBE26_ED00);
    Steps8(0xBE26_ED00, 0x00BE_26ED);
    Steps8(0x00BE_26ED, 0xDEBB_20E3);
  }

  lemma {:induction false} SelfComplement(c: bv32)
    ensures c ^ (c ^ 0xFFFF_FFFF) == 0xFFFF_FFFF
  {
  }

  lemma {:induction false} ComplementOf(c: bv32)
    ensures Xor(Word(c), Word(Complement(c))) == Word(0xFFFF_FFFF)
    ensures Complement(0xDEBB_20E3) == 0x2144_DF1C
  {
    SelfComplement(c);
  }

  /**
    The residue: whatever the data, the checksum of the data followed by their own checksum in little-endian order is
    the same constant.
   */
  lemma {:induction false} Residue(data: seq<Byte>)
    ensures Crc32Of(data + LittleEndian(Crc32Of(data))) == 0x2144_DF1C
  {
    hide Xor, ShiftBy, Register, Complement, LittleEndian;
    var c := Register(data).bits;
    ComplementOf(c);
    FedWord(data, Complement(c));
    OnesAfter32();
  }

  // ----- the check value

  /** One more byte, with the register given before and after it. */
  lemma {:induction false} NextByte(data: seq<Byte>, b: Byte, c: bv32, w: bv32, d: bv32)
    requires Register(data) == Word(c) && OfByte(b) == Word(w) && ShiftBy(Word(c ^ w), 8) == Word(d)
    ensures Register(data + [b]) == Word(d)
  {
    hide ShiftBy, Register, OfByte, FeedBits;
    RegisterNext(data, b);
    FedByte(Word(c), b);
  }

  lemma {:induction false} Digits()
    ensures OfByte(49) == Word(0x31) && OfByte(50) == Word(0x32) && OfByte(51) == Word(0x33)
    ensures OfByte(52) == Word(0x34) && OfByte(53) == Word(0x35) && OfByte(54) == Word(0x36)
    ensures OfByte(55) == Word(0x37) && OfByte(56) == Word(0x38) && OfByte(57) == Word(0x39)
  {
  }

  /** The check value: the checksum of the digits "123456789". */
  lemma {:induction false} CheckValue()
    ensures Crc32Of([49, 50, 51, 52, 53, 54, 55, 56, 57]) == 0xCBF4_3926
  {
    hide ShiftBy, Register, OfByte, Complement;
    Digits();
    RegisterStarts();
    NineSteps();
    NextByte([], 49, 0xFFFF_FFFF, 0x31, 0x7C23_1048);
    assert [49] == [] + [49];
    NextByte([49], 50, 0x7C23_1048, 0x32, 0xB0AC_BB32);
    assert [49, 50] == [49] + [50];
    NextByte([49, 50], 51, 0xB0AC_BB32, 0x33, 0x77B7_9C2D);
    assert [49, 50, 51] == [49, 50] + [51];
    NextByte([49, 50, 51], 52, 0x77B7_9C2D, 0x34, 0x641C_1F5C);
    assert [49, 50, 51, 52] == [49, 50, 51] + [52];
    NextByte([49, 50, 51, 52], 53, 0x641C_1F5C, 0x35, 0x340A_C5E3);
    assert [49, 50, 51, 52, 53] == [49, 50, 51, 52] + [53];
    NextByte([49, 50, 51, 52, 53], 54, 0x340A_C5E3, 0x36, 0xF68D_2C9E);
    assert [49, 50, 51, 52, 53, 54] == [49, 50, 51, 52, 53] + [54];
    NextByte([49, 50, 51, 52, 53, 54], 55, 0xF68D_2C9E, 0x37, 0xAFFC_9660);
    assert [49, 50, 51, 52, 53, 54, 55] == [49, 50, 51, 52, 53, 54] + [55];
    NextByte([49, 50, 51, 52, 53, 54, 55], 56, 0xAFFC_9660, 0x38, 0x651F_2550);
    assert [49, 50, 51, 52, 53, 54, 55, 56] == [49, 50, 51, 52, 53, 54, 55] + [56];
    NextByte([49, 50, 51, 52, 53, 54, 55, 56], 57, 0x651F_2550, 0x39, 0x340B_C6D9);
    assert [49, 50, 51, 52, 53, 54, 55, 56, 57] == [49, 50, 51, 52, 53, 54, 55, 56] + [57];
    LastComplement();
  }

  lemma {:induction false} LastComplement()
    ensures Complement(0x340B_C6D9) == 0xCBF4_3926
  {
  }

  lemma {:induction false} RegisterStarts()
    ensures Register([]) == Word(0xFFFF_FFFF)
  {
  }

  lemma {:induction false} NineSteps()
    ensures ShiftBy(Word(0xFFFF_FFFF ^ 0x31), 8) == Word(0x7C23_1048)
    ensures ShiftBy(Word(0x7C23_1048 ^ 0x32), 8) == Word(0xB0AC_BB32)
    ensures ShiftBy(Word(0xB0AC_BB32 ^ 0x33), 8) == Word(0x77B7_9C2D)
    ensures ShiftBy(Word(0x77B7_9C2D ^ 0x34), 8) == Word(0x641C_1F5C)
    ensures ShiftBy(Word(0x641C_1F5C ^ 0x35), 8) == Word(0x340A_C5E3)
    ensures ShiftBy(Word(0x340A_C5E3 ^ 0x36), 8) == Word(0xF68D_2C9E)
    ensures ShiftBy(Word(0xF68D_2C9E ^ 0x37), 8) == Word(0xAFFC_9660)
    ensures ShiftBy(Word(0xAFFC_9660 ^ 0x38), 8) == Word(0x651F_2550)
    ensures ShiftBy(Word(0x651F_2550 ^ 0x39), 8) == Word(0x340B_C6D9)
  {
    hide ShiftBy;
    Steps8(0xFFFF_FFCE, 0x7C23_1048);
    Steps8(0x7C23_107A, 0xB0AC_BB32);
    Steps8(0xB0AC_BB01, 0x77B7_9C2D);
    Steps8(0x77B7_9C19, 0x641C_1F5C);
    Steps8(0x641C_1F69, 0x340A_C5E3);
    Steps8(0x340A_C5D5, 0xF68D_2C9E);
    Steps8(0xF68D_2CA9, 0xAFFC_9660);
    Steps8(0xAFFC_9658, 0x651F_2550);
    Steps8(0x651F_2569, 0x340B_C6D9);
  }
}
