/**
 * The MC6809 condition-code register (CC) and the helpers that set and
 * clear its bits (source/cpu.c:523-617, bit numbers and masks from
 * source/cpu.h:36-62).
 *
 * The register is a byte whose eight bits are flags. The model keeps it as
 * its eight bits, bit 0 (C) first, so that `is_cc_bit_set(CC_Z_BIT)` reads
 * `cc[ZBit]` and `set_cc_bit(CC_H_BIT)` reads `cc[HBit := true]`; `ByteOf`
 * and `BitsOf` convert to and from the byte wherever the source treats CC as
 * a number (stacking, TFR/EXG, ANDCC/ORCC, CWAI, reset), and the lemmas
 * below tie each byte-level idiom of the source to its bit-level reading.
 */
module ConditionCodes {
  import opened Bits
  import opened Bytes

  /** The eight flag bits, bit 0 (C) first, bit 7 (E) last. */
  type Cc = s: seq<bool> | |s| == 8 witness [false, false, false, false, false, false, false, false]

  /** `CC_*_BIT`: the bit numbers of the eight flags. */
  const CBit := 0
  const VBit := 1
  const ZBit := 2
  const NBit := 3
  const IBit := 4
  const HBit := 5
  const FBit := 6
  const EBit := 7

  /** `SIGN_BIT_8`, `SIGN_BIT_16` */
  const SignBit8 := 7
  const SignBit16 := 15

  /** `MASK_*`: AND-ing CC with one of these clears the named flags. */
  const MaskZC: Byte := 0xFA
  const MaskNZ: Byte := 0xF3
  const MaskNZC: Byte := 0xF2
  const MaskNZV: Byte := 0xF1
  const MaskNZVC: Byte := 0xF0

  /** `is_cc_bit_set(bit)`, that is `((reg.cc >> bit) & 1) == 1`, reads bit `bit` of the CC byte. */
  lemma {:induction false} FlagIsBit(cc: Cc, bit: nat)
    requires bit < 8
    ensures cc[bit] <==> Bit(ByteOf(cc), bit)
  {
    BitsOfByte(cc);
    ToBitsBit(ByteOf(cc), 8, bit);
  }

  /** `set_cc_bit(bit)`, that is `reg.cc |= (1 << bit)`, sets that flag and keeps the others. */
  lemma {:induction false} SetFlagIsOr(cc: Cc, bit: nat)
    requires bit < 8
    ensures Pow2(bit) < 256
    ensures BitsOf(Or8(ByteOf(cc), Pow2(bit))) == cc[bit := true]
  {
    SetBitIsOr(ByteOf(cc), bit);
    BitsOfByte(cc);
  }

  /** `clr_cc_bit(bit)`, that is `reg.cc &= ~(1 << bit)`, clears that flag and keeps the others. */
  lemma {:induction false} ClearFlagIsAnd(cc: Cc, bit: nat)
    requires bit < 8
    ensures 0 <= 255 - Pow2(bit) < 256
    ensures BitsOf(And8(ByteOf(cc), 255 - Pow2(bit))) == cc[bit := false]
  {
    ClearBitIsAnd(ByteOf(cc), bit);
    BitsOfByte(cc);
  }

  /** `flp_cc_bit(bit)`, that is `reg.cc ^= (1 << bit)`, flips that flag and keeps the others. */
  lemma {:induction false} FlipFlagIsXor(cc: Cc, bit: nat)
    requires bit < 8
    ensures Pow2(bit) < 256
    ensures BitsOf(Xor8(ByteOf(cc), Pow2(bit))) == cc[bit := !cc[bit]]
  {
    FlipBitIsXor(ByteOf(cc), bit);
    BitsOfByte(cc);
  }

  /** AND-ing the CC byte with a byte (ANDCC, CWAI) ANDs each flag with the byte's bit. */
  lemma {:induction false} AndIsAndFlags(cc: Cc, m: Byte)
    ensures BitsOf(And8(ByteOf(cc), m)) == Zip(AndOp, cc, BitsOf(m))
  {
    BitwiseBits(AndOp, ByteOf(cc), m, 8);
    BitsOfByte(cc);
  }

  /** OR-ing the CC byte with a byte (ORCC) ORs each flag with the byte's bit. */
  lemma {:induction false} OrIsOrFlags(cc: Cc, m: Byte)
    ensures BitsOf(Or8(ByteOf(cc), m)) == Zip(OrOp, cc, BitsOf(m))
  {
    BitwiseBits(OrOp, ByteOf(cc), m, 8);
    BitsOfByte(cc);
  }

  /** `reg.cc &= MASK_NZ` */
  function ClearNz(cc: Cc): Cc { cc[NBit := false][ZBit := false] }

  /** `clr_cc_nzv()`, that is `reg.cc &= MASK_NZV` */
  function ClearNzv(cc: Cc): Cc { cc[NBit := false][ZBit := false][VBit := false] }

  /** `reg.cc &= MASK_NZVC` */
  function ClearNzvc(cc: Cc): Cc { cc[NBit := false][ZBit := false][VBit := false][CBit := false] }

  /** `reg.cc &= MASK_NZC` */
  function ClearNzc(cc: Cc): Cc { cc[NBit := false][ZBit := false][CBit := false] }

  /** `reg.cc &= MASK_ZC` */
  function ClearZc(cc: Cc): Cc { cc[ZBit := false][CBit := false] }

  /** A mask clears exactly the flags whose bits it has clear. */
  lemma {:induction false} MaskClears(cc: Cc, m: Byte, cleared: Cc)
    requires forall j :: 0 <= j < 8 ==> cleared[j] == (cc[j] && BitsOf(m)[j])
    ensures BitsOf(And8(ByteOf(cc), m)) == cleared
  {
    AndIsAndFlags(cc, m);
  }

  /** `reg.cc &= MASK_NZ` clears N and Z and keeps the other flags. */
  lemma {:induction false} MaskNZClears(cc: Cc)
    ensures BitsOf(And8(ByteOf(cc), MaskNZ)) == ClearNz(cc)
  {
    assert BitsOf(MaskNZ) == [true, true, false, false, true, true, true, true];
    MaskClears(cc, MaskNZ, ClearNz(cc));
  }

  /** `reg.cc &= MASK_NZV` clears N, Z and V and keeps the other flags. */
  lemma {:induction false} MaskNZVClears(cc: Cc)
    ensures BitsOf(And8(ByteOf(cc), MaskNZV)) == ClearNzv(cc)
  {
    assert BitsOf(MaskNZV) == [true, false, false, false, true, true, true, true];
    MaskClears(cc, MaskNZV, ClearNzv(cc));
  }

  /** `reg.cc &= MASK_NZVC` clears N, Z, V and C and keeps the other flags. */
  lemma {:induction false} MaskNZVCClears(cc: Cc)
    ensures BitsOf(And8(ByteOf(cc), MaskNZVC)) == ClearNzvc(cc)
  {
    assert BitsOf(MaskNZVC) == [false, false, false, false, true, true, true, true];
    MaskClears(cc, MaskNZVC, ClearNzvc(cc));
  }

  /** `reg.cc &= MASK_NZC` clears N, Z and C and keeps the other flags. */
  lemma {:induction false} MaskNZCClears(cc: Cc)
    ensures BitsOf(And8(ByteOf(cc), MaskNZC)) == ClearNzc(cc)
  {
    assert BitsOf(MaskNZC) == [false, true, false, false, true, true, true, true];
    MaskClears(cc, MaskNZC, ClearNzc(cc));
  }

  /** `reg.cc &= MASK_ZC` clears Z and C and keeps the other flags. */
  lemma {:induction false} MaskZCClears(cc: Cc)
    ensures BitsOf(And8(ByteOf(cc), MaskZC)) == ClearZc(cc)
  {
    assert BitsOf(MaskZC) == [false, true, false, true, true, true, true, true];
    MaskClears(cc, MaskZC, ClearZc(cc));
  }

  /**
   * `set_cc_nz(value, is_16_bit)`: N and Z cleared, then Z set when the
   * value is 0 and N when its sign bit (7 or 15) is set.
   */
  function SetNz(cc: Cc, value: Word, is16: bool): Cc {
    var cleared := ClearNz(cc);
    var withZ := if value == 0 then cleared[ZBit := true] else cleared;
    if Bit(value, if is16 then SignBit16 else SignBit8) then withZ[NBit := true] else withZ
  }

  /** After `set_cc_nz` on a byte: Z iff it is 0, N iff it is negative, the other six flags kept. */
  lemma {:induction false} SetNz8Meaning(cc: Cc, value: Byte)
    ensures SetNz(cc, value, false) == cc[ZBit := value == 0][NBit := value >= 0x80]
  {
    Negative8(value);
  }

  /** After `set_cc_nz` on a word: Z iff it is 0, N iff it is negative, the other six flags kept. */
  lemma {:induction false} SetNz16Meaning(cc: Cc, value: Word)
    ensures SetNz(cc, value, true) == cc[ZBit := value == 0][NBit := value >= 0x8000]
  {
    Negative16(value);
  }

  /** `set_cc_after_clr()`: N, V, C cleared and Z set. */
  function AfterClear(cc: Cc): Cc { ClearNzvc(cc)[ZBit := true] }

  /** `set_cc_after_load(value, is_16_bit)` and `set_cc_after_store`: V cleared, N and Z from the value. */
  function AfterLoad(cc: Cc, value: Word, is16: bool): Cc {
    SetNz(ClearNzv(cc), value, is16)
  }

  /** Loading a byte: V clear, N and Z from the byte, C, H, I, F, E kept. */
  lemma {:induction false} AfterLoad8Meaning(cc: Cc, value: Byte)
    ensures AfterLoad(cc, value, false) == cc[VBit := false][ZBit := value == 0][NBit := value >= 0x80]
  {
    SetNz8Meaning(ClearNzv(cc), value);
  }

  /** Loading a word: V clear, N and Z from the word, C, H, I, F, E kept. */
  lemma {:induction false} AfterLoad16Meaning(cc: Cc, value: Word)
    ensures AfterLoad(cc, value, true) == cc[VBit := false][ZBit := value == 0][NBit := value >= 0x8000]
  {
    SetNz16Meaning(ClearNzv(cc), value);
  }
}
