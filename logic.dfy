/**
 * The logical, shift, rotate, increment and decrement helpers of the
 * emulated MC6809 (source/cpu.c:1837-2071 and the TST operation at
 * 1477-1494).
 *
 * The shift and rotate helpers move bits one at a time in a loop, setting
 * or clearing bit `i` from its neighbour with `|= (1 << i)` and
 * `&= ~(1 << i)`; they are methods with those loops here, each proved
 * against a function that says what the shift computes in numbers.
 */
module Logic {
  import opened Bits
  import opened Bytes
  import opened ConditionCodes
  import opened Adder

  /** `do_and(value, amount)`: V cleared, the bitwise AND, N and Z from it. */
  function And(cc: Cc, value: Byte, amount: Byte): Result8 {
    var answer := And8(value, amount);
    Result8(answer, SetNz(cc[VBit := false], answer, false))
  }

  /** `do_or(value, amount)`: V cleared, the bitwise OR, N and Z from it. */
  function Or(cc: Cc, value: Byte, amount: Byte): Result8 {
    var answer := Or8(value, amount);
    Result8(answer, SetNz(cc[VBit := false], answer, false))
  }

  /** `do_xor(value, amount)`: V cleared, the bitwise exclusive OR, N and Z from it. */
  function Xor(cc: Cc, value: Byte, amount: Byte): Result8 {
    var answer := Xor8(value, amount);
    Result8(answer, SetNz(cc[VBit := false], answer, false))
  }

  /** The bitwise operations work bit by bit. */
  lemma {:induction false} LogicBits(cc: Cc, value: Byte, amount: Byte, i: nat)
    requires i < 8
    ensures BitsOf(And(cc, value, amount).value)[i] == (BitsOf(value)[i] && BitsOf(amount)[i])
    ensures BitsOf(Or(cc, value, amount).value)[i] == (BitsOf(value)[i] || BitsOf(amount)[i])
    ensures BitsOf(Xor(cc, value, amount).value)[i] == (BitsOf(value)[i] != BitsOf(amount)[i])
  {
    BitwiseBits(AndOp, value, amount, 8);
    BitwiseBits(OrOp, value, amount, 8);
    BitwiseBits(XorOp, value, amount, 8);
  }

  /** AND, OR and EOR clear V, set N and Z from the answer and keep C, H, I, F and E. */
  lemma {:induction false} LogicFlags(cc: Cc, value: Byte, amount: Byte)
    ensures var r := And(cc, value, amount);
      r.cc == cc[VBit := false][ZBit := r.value == 0][NBit := r.value >= 0x80]
    ensures var r := Or(cc, value, amount);
      r.cc == cc[VBit := false][ZBit := r.value == 0][NBit := r.value >= 0x80]
    ensures var r := Xor(cc, value, amount);
      r.cc == cc[VBit := false][ZBit := r.value == 0][NBit := r.value >= 0x80]
  {
    SetNz8Meaning(cc[VBit := false], And8(value, amount));
    SetNz8Meaning(cc[VBit := false], Or8(value, amount));
    SetNz8Meaning(cc[VBit := false], Xor8(value, amount));
  }

  /** AND sets Z exactly when the two bytes have no set bit in common (BITA, BITB). */
  lemma {:induction false} AndZeroFlag(cc: Cc, value: Byte, amount: Byte)
    ensures And(cc, value, amount).cc[ZBit] <==> forall i :: 0 <= i < 8 ==> !(Bit(value, i) && Bit(amount, i))
  {
    AndZero(value, amount, 8);
    SetNz8Meaning(cc[VBit := false], And8(value, amount));
  }

  /** EOR with the same byte twice gives the value back. */
  lemma {:induction false} XorTwiceRestores(cc: Cc, value: Byte, amount: Byte)
    ensures var once := Xor(cc, value, amount);
      Xor(once.cc, once.value, amount).value == value
  {
    Pow2Values();
    XorTwice(value, amount, 8);
  }

  /** `test(value)`: N, Z and V cleared, then N and Z from the value. */
  function Test(cc: Cc, value: Byte): (r: Cc) {
    SetNz(ClearNzv(cc), value, false)
  }

  /** TST: V clear, Z iff the byte is 0, N iff it is negative, C, H, I, F and E kept. */
  lemma {:induction false} TestMeaning(cc: Cc, value: Byte)
    ensures Test(cc, value) == cc[VBit := false][ZBit := value == 0][NBit := value >= 0x80]
  {
    AfterLoad8Meaning(cc, value);
  }

  /**
   * The bits of a byte while the right-shift loop runs: bits below `i` have
   * taken the value of their left neighbour, the others are unchanged.
   */
  function ShiftedRightBelow(value: Byte, i: nat): (s: seq<bool>)
    requires i < 8
    ensures |s| == 8
  {
    BitsOf(value)[1..i + 1] + BitsOf(value)[i..]
  }

  /** One step of the right-shift loop: bit `i` takes the value of bit `i + 1`. */
  lemma {:induction false} ShiftedRightStep(value: Byte, i: nat)
    requires i < 7
    ensures var s := ShiftedRightBelow(value, i); s[i := s[i + 1]] == ShiftedRightBelow(value, i + 1)
  {
    var s := ShiftedRightBelow(value, i);
    var t := ShiftedRightBelow(value, i + 1);
    forall k | 0 <= k < 8 ensures s[i := s[i + 1]][k] == t[k] {
      if k < i {
        assert s[k] == BitsOf(value)[k + 1] == t[k];
      } else if k == i {
        assert s[i + 1] == BitsOf(value)[i + 1] == t[k];
      } else {
        assert s[k] == BitsOf(value)[k] == t[k];
      }
    }
  }

  /** The bits of a byte while the left-shift loop runs: bits from `i` up have taken the value of their right neighbour. */
  function ShiftedLeftFrom(value: Byte, i: nat): (s: seq<bool>)
    requires 1 <= i <= 8
    ensures |s| == 8
  {
    BitsOf(value)[..i] + BitsOf(value)[i - 1..7]
  }

  /** `is_bit_set(value, i)` reads bit `i` of the byte's bits. */
  lemma {:induction false} BitOfByte(value: Byte, i: nat)
    requires i < 8
    ensures Bit(value, i) == BitsOf(value)[i]
  {
    ToBitsBit(value, 8, i);
  }

  /** Setting bit `i` to its left neighbour's value: `|= (1 << i)` if set, `&= ~(1 << i)` if not. */
  method CopyBit(answer: Byte, from: nat, to: nat) returns (r: Byte)
    requires from < 8 && to < 8
    ensures BitsOf(r) == BitsOf(answer)[to := BitsOf(answer)[from]]
  {
    BitOfByte(answer, from);
    Pow2Values();
    Pow2Below(to, 8);
    if Bit(answer, from) {
      SetBitIsOr(answer, to);
      r := Or8(answer, Pow2(to));
    } else {
      ClearBitIsAnd(answer, to);
      r := And8(answer, 255 - Pow2(to));
    }
  }

  /** The loop of `partial_shift_right` and `rotate_right`: bits 0 to 6 each take the value of the bit above; bit 7 stays. */
  method ShiftBitsRight(value: Byte) returns (answer: Byte)
    ensures BitsOf(answer) == BitsOf(value)[1..] + [BitsOf(value)[7]]
  {
    answer := value;
    for i := 0 to 7
      invariant BitsOf(answer) == ShiftedRightBelow(value, i)
    {
      ShiftedRightStep(value, i);
      answer := CopyBit(answer, i + 1, i);
    }
  }

  /** The loop of `logic_shift_left` and `rotate_left`: bits 7 down to 1 each take the value of the bit below; bit 0 stays. */
  method ShiftBitsLeft(value: Byte) returns (answer: Byte)
    ensures BitsOf(answer) == [BitsOf(value)[0]] + BitsOf(value)[..7]
  {
    answer := value;
    for i := 8 downto 1
      invariant BitsOf(answer) == ShiftedLeftFrom(value, i)
    {
      answer := CopyBit(answer, i - 1, i);
      assert BitsOf(answer) == ShiftedLeftFrom(value, i);
    }
  }

  /** Clearing bit `i` with `&= ~(1 << i)` subtracts `1 << i` when the bit was set. */
  lemma {:induction false} ClearBitSubtracts(value: Byte, i: nat)
    requires i < 8
    ensures 0 <= 255 - Pow2(i) < 256
    ensures And8(value, 255 - Pow2(i)) == value - (if Bit(value, i) then Pow2(i) else 0)
  {
    ClearBitIsAnd(value, i);
    FromBitsUpdate(BitsOf(value), i, false);
    ToBitsBit(value, 8, i);
    ByteOfBits(value);
    ByteOfBits(And8(value, 255 - Pow2(i)));
  }

  /** Bit 6 of a byte in numbers. */
  lemma {:induction false} Bit6(value: Byte)
    ensures Bit(value, 6) <==> value % 128 >= 0x40
  {
    BitDiv(value, 6);
    Pow2Values();
    assert Pow2(6) == 64;
    DivModUnique(value, 128, value / 128, value % 128);
    DivModUnique(value % 128, 64, if value % 128 >= 64 then 1 else 0, value % 64);
    DivModUnique(value, 64, 2 * (value / 128) + (if value % 128 >= 64 then 1 else 0), value % 64);
  }

  /** Every bit moved one place down, bit 7 kept: the byte halved, with its sign bit kept. */
  lemma {:induction false} ShiftRightValue(value: Byte)
    ensures ByteOf(BitsOf(value)[1..] + [BitsOf(value)[7]]) == value / 2 + (if value >= 0x80 then 0x80 else 0)
  {
    Pow2Values();
    var s := BitsOf(value);
    assert s[1..] == ToBits(value / 2, 7);
    FromBitsAppend(s[1..], s[7]);
    FromToBitsExact(value / 2, 7);
    BitOfByte(value, 7);
    Negative8(value);
  }

  /** Every bit moved one place up, bit 0 kept: bit 0 plus twice the low seven bits. */
  lemma {:induction false} ShiftLeftValue(value: Byte)
    ensures ByteOf([BitsOf(value)[0]] + BitsOf(value)[..7]) == (if value % 2 == 1 then 1 else 0) + 2 * (value % 128)
  {
    Pow2Values();
    var s := BitsOf(value);
    var t := [s[0]] + s[..7];
    assert t[1..] == s[..7];
    ToBitsPrefix(value, 8, 7);
    FromToBits(value, 7);
    assert Pow2(7) == 128;
  }

  /** The byte and its low bit after the left-shift loop. */
  lemma {:induction false} ShiftedLeftLowBit(value: Byte, x: Byte)
    requires x == (if value % 2 == 1 then 1 else 0) + 2 * (value % 128)
    ensures Bit(x, 0) <==> value % 2 == 1
  {}

  /** What ASR computes: the byte halved with its sign kept, C the bit shifted out, N and Z from the answer. */
  function Asr(cc: Cc, value: Byte): Result8 {
    var answer := value / 2 + (if value >= 0x80 then 0x80 else 0);
    Result8(answer, SetNz(ClearNzc(cc)[CBit := value % 2 == 1], answer, false))
  }

  /** What LSR computes: the byte halved, C the bit shifted out, N clear and Z if the answer is 0. */
  function Lsr(cc: Cc, value: Byte): Result8 {
    var answer := value / 2;
    var flags := ClearNzc(cc)[CBit := value % 2 == 1];
    Result8(answer, if answer == 0 then flags[ZBit := true] else flags)
  }

  /** What ASL (LSL) computes: the byte doubled in 8 bits, C the bit shifted out, V if bits 7 and 6 differed. */
  function Asl(cc: Cc, value: Byte): Result8 {
    var answer := 2 * (value % 128);
    var flags := ClearNzvc(cc)[CBit := value >= 0x80][VBit := (value >= 0x80) != (value % 128 >= 0x40)];
    Result8(answer, SetNz(flags, answer, false))
  }

  /** What ROL computes: ASL with the old C shifted into bit 0. */
  function Rol(cc: Cc, value: Byte): Result8 {
    var answer := 2 * (value % 128) + (if cc[CBit] then 1 else 0);
    var flags := ClearNzvc(cc)[CBit := value >= 0x80][VBit := (value >= 0x80) != (value % 128 >= 0x40)];
    Result8(answer, SetNz(flags, answer, false))
  }

  /** What ROR computes: the byte halved with the old C shifted into bit 7, C the bit shifted out. */
  function Ror(cc: Cc, value: Byte): Result8 {
    var answer := value / 2 + (if cc[CBit] then 0x80 else 0);
    Result8(answer, SetNz(ClearNzc(cc)[CBit := value % 2 == 1], answer, false))
  }

  /** `partial_shift_right(value)`: N, Z, C cleared, C from bit 0, then the right-shift loop. */
  method PartialShiftRight(cc: Cc, value: Byte) returns (answer: Byte, flags: Cc)
    ensures answer == value / 2 + (if value >= 0x80 then 0x80 else 0)
    ensures flags == ClearNzc(cc)[CBit := value % 2 == 1]
  {
    flags := ClearNzc(cc);
    LowBit(value);
    if Bit(value, 0) {
      flags := flags[CBit := true];
    }
    answer := ShiftBitsRight(value);
    ShiftRightValue(value);
    ByteOfBits(answer);
  }

  /** `arith_shift_right(value)`: ASR. */
  method ArithShiftRight(cc: Cc, value: Byte) returns (r: Result8)
    ensures r == Asr(cc, value)
  {
    var answer, flags := PartialShiftRight(cc, value);
    r := Result8(answer, SetNz(flags, answer, false));
  }

  /** `logic_shift_right(value)`: LSR, the partial shift with bit 7 cleared and Z set if the answer is 0. */
  method LogicShiftRight(cc: Cc, value: Byte) returns (r: Result8)
    ensures r == Lsr(cc, value)
  {
    var answer, flags := PartialShiftRight(cc, value);
    answer := SetBit7(answer, false);
    if answer == 0 {
      flags := flags[ZBit := true];
    }
    r := Result8(answer, flags);
  }

  /** The flags `logic_shift_left` and `rotate_left` set before their loop: C from bit 7, V if bits 7 and 6 differ. */
  method ShiftLeftFlags(cc: Cc, value: Byte) returns (flags: Cc)
    ensures flags == ClearNzvc(cc)[CBit := value >= 0x80][VBit := (value >= 0x80) != (value % 128 >= 0x40)]
  {
    flags := ClearNzvc(cc);
    Negative8(value);
    Bit6(value);
    if Bit(value, 7) {
      flags := flags[CBit := true];
    }
    if Bit(value, 7) != Bit(value, 6) {
      flags := flags[VBit := true];
    }
  }

  /** Bit 0 set with `|= 1` or cleared with `&= 0xFE`. */
  method SetBit0(value: Byte, bit: bool) returns (r: Byte)
    ensures r == value - value % 2 + (if bit then 1 else 0)
  {
    Pow2Values();
    LowBit(value);
    if bit {
      SetBitAdds(value, 0);
      r := Or8(value, 1);
    } else {
      ClearBitSubtracts(value, 0);
      r := And8(value, 0xFE);
    }
  }

  /** Bit 7 set with `|= 0x80` or cleared with `&= 0x7F`. */
  method SetBit7(value: Byte, bit: bool) returns (r: Byte)
    ensures r == value % 128 + (if bit then 0x80 else 0)
  {
    Pow2Values();
    Negative8(value);
    DivModUnique(value, 128, if value >= 0x80 then 1 else 0, if value >= 0x80 then value - 0x80 else value);
    if bit {
      assert Or8(value, 0x80) == value % 128 + 0x80 by {
        SetBitAdds(value, 7);
      }
      r := Or8(value, 0x80);
    } else {
      assert And8(value, 0x7F) == value % 128 by {
        ClearBitSubtracts(value, 7);
      }
      r := And8(value, 0x7F);
    }
  }

  /** `logic_shift_left(value)`: ASL and LSL. */
  method LogicShiftLeft(cc: Cc, value: Byte) returns (r: Result8)
    ensures r == Asl(cc, value)
  {
    var flags := ShiftLeftFlags(cc, value);
    var answer := ShiftBitsLeft(value);
    assert answer == (if value % 2 == 1 then 1 else 0) + 2 * (value % 128) by {
      ShiftLeftValue(value);
      ByteOfBits(answer);
    }
    DivModUnique(answer, 2, value % 128, if value % 2 == 1 then 1 else 0);
    answer := SetBit0(answer, false);
    r := Result8(answer, SetNz(flags, answer, false));
  }

  /** `rotate_left(value)`: ROL. */
  method RotateLeft(cc: Cc, value: Byte) returns (r: Result8)
    ensures r == Rol(cc, value)
  {
    var carry := cc[CBit];
    var flags := ShiftLeftFlags(cc, value);
    var answer := ShiftBitsLeft(value);
    assert answer == (if value % 2 == 1 then 1 else 0) + 2 * (value % 128) by {
      ShiftLeftValue(value);
      ByteOfBits(answer);
    }
    DivModUnique(answer, 2, value % 128, if value % 2 == 1 then 1 else 0);
    answer := SetBit0(answer, carry);
    r := Result8(answer, SetNz(flags, answer, false));
  }

  /** `rotate_right(value)`: ROR, whose flags and loop are those of `partial_shift_right`, then bit 7 from the old C. */
  method RotateRight(cc: Cc, value: Byte) returns (r: Result8)
    ensures r == Ror(cc, value)
  {
    var carry := cc[CBit];
    var answer, flags := PartialShiftRight(cc, value);
    DivModUnique(answer, 128, if value >= 0x80 then 1 else 0, value / 2);
    answer := SetBit7(answer, carry);
    r := Result8(answer, SetNz(flags, answer, false));
  }

  /**
   * ASR: the answer read as signed is the value read as signed, halved and
   * rounded down; C is the bit shifted out, N and Z describe the answer,
   * and V, H, I, F, E are kept.
   */
  lemma {:induction false} AsrMeaning(cc: Cc, value: Byte)
    ensures var r := Asr(cc, value);
      && Signed8(r.value) == Signed8(value) / 2
      && r.cc == cc[CBit := value % 2 == 1][ZBit := r.value == 0][NBit := value >= 0x80]
  {
    var r := Asr(cc, value);
    SetNz8Meaning(ClearNzc(cc)[CBit := value % 2 == 1], r.value);
    if value >= 0x80 {
      DivModUnique(value - 256, 2, (value - 256) / 2, value % 2);
    }
  }

  /** LSR: the answer is the value halved and rounded down; C is the bit shifted out, N is clear and Z says the answer is 0. */
  lemma {:induction false} LsrMeaning(cc: Cc, value: Byte)
    ensures var r := Lsr(cc, value);
      && r.value == value / 2
      && r.cc == cc[CBit := value % 2 == 1][ZBit := value < 2][NBit := false]
  {}

  /**
   * ASL: the answer and C make up twice the value; V says that doubling
   * overflows as a signed byte; N and Z describe the answer.
   */
  lemma {:induction false} AslMeaning(cc: Cc, value: Byte)
    ensures var r := Asl(cc, value);
      && r.value + (if r.cc[CBit] then 256 else 0) == 2 * value
      && (r.cc[VBit] <==> !(-128 <= 2 * Signed8(value) < 128))
      && r.cc == cc[CBit := value >= 0x80][VBit := r.cc[VBit]][ZBit := r.value == 0][NBit := r.value >= 0x80]
  {
    var r := Asl(cc, value);
    SetNz8Meaning(ClearNzvc(cc)[CBit := value >= 0x80][VBit := (value >= 0x80) != (value % 128 >= 0x40)], r.value);
    DivModUnique(value, 128, if value >= 0x80 then 1 else 0, if value >= 0x80 then value - 0x80 else value);
  }

  /** ROL: the answer and C make up twice the value plus the old C. */
  lemma {:induction false} RolMeaning(cc: Cc, value: Byte)
    ensures var r := Rol(cc, value);
      && r.value + (if r.cc[CBit] then 256 else 0) == 2 * value + (if cc[CBit] then 1 else 0)
      && r.cc == cc[CBit := value >= 0x80][VBit := r.cc[VBit]][ZBit := r.value == 0][NBit := r.value >= 0x80]
  {
    var r := Rol(cc, value);
    SetNz8Meaning(ClearNzvc(cc)[CBit := value >= 0x80][VBit := (value >= 0x80) != (value % 128 >= 0x40)], r.value);
    DivModUnique(value, 128, if value >= 0x80 then 1 else 0, if value >= 0x80 then value - 0x80 else value);
  }

  /** ROR: the answer is the value halved with the old C as bit 7; C is the bit shifted out. */
  lemma {:induction false} RorMeaning(cc: Cc, value: Byte)
    ensures var r := Ror(cc, value);
      && 2 * r.value + (if r.cc[CBit] then 1 else 0) == value + (if cc[CBit] then 256 else 0)
      && r.cc == cc[CBit := value % 2 == 1][ZBit := r.value == 0][NBit := cc[CBit]]
  {
    var r := Ror(cc, value);
    SetNz8Meaning(ClearNzc(cc)[CBit := value % 2 == 1], r.value);
  }

  /** ROR undoes ROL: the value and C come back. */
  lemma {:induction false} RorUndoesRol(cc: Cc, value: Byte)
    ensures var once := Rol(cc, value);
      var back := Ror(once.cc, once.value);
      back.value == value && back.cc[CBit] == cc[CBit]
  {
    var once := Rol(cc, value);
    RolMeaning(cc, value);
    RorMeaning(once.cc, once.value);
  }

  /** ROL undoes ROR: the value and C come back. */
  lemma {:induction false} RolUndoesRor(cc: Cc, value: Byte)
    ensures var once := Ror(cc, value);
      var back := Rol(once.cc, once.value);
      back.value == value && back.cc[CBit] == cc[CBit]
  {
    var once := Ror(cc, value);
    RorMeaning(cc, value);
    RolMeaning(once.cc, once.value);
  }

  /** LSR after ASL gives back the low seven bits of the value. */
  lemma {:induction false} LsrAfterAsl(cc: Cc, value: Byte)
    ensures var once := Asl(cc, value);
      Lsr(once.cc, once.value).value == value % 128
  {}

  /** `increment(value)`: V set only for 0x7F, the value plus one in a byte, N and Z from it. */
  function Increment(cc: Cc, value: Byte): Result8 {
    var answer := if value == 0xFF then 0 else value + 1;
    Result8(answer, SetNz(cc[VBit := value == 0x7F], answer, false))
  }

  /** `decrement(value)`: V set only for 0x80, the value minus one in a byte, N and Z from it. */
  function Decrement(cc: Cc, value: Byte): Result8 {
    var answer := if value == 0 then 0xFF else value - 1;
    Result8(answer, SetNz(cc[VBit := value == 0x80], answer, false))
  }

  /**
   * INC: the answer is one more in a byte; read as signed it is one more
   * unless V is set, which happens only when that overflows; C is kept.
   */
  lemma {:induction false} IncrementMeaning(cc: Cc, value: Byte)
    ensures var r := Increment(cc, value);
      && r.value + (if value == 0xFF then 256 else 0) == value + 1
      && (!r.cc[VBit] <==> Signed8(r.value) == Signed8(value) + 1)
      && r.cc == cc[VBit := r.cc[VBit]][ZBit := r.value == 0][NBit := r.value >= 0x80]
  {
    var r := Increment(cc, value);
    SetNz8Meaning(cc[VBit := value == 0x7F], r.value);
  }

  /**
   * DEC: the answer is one less in a byte; read as signed it is one less
   * unless V is set, which happens only when that overflows; C is kept.
   */
  lemma {:induction false} DecrementMeaning(cc: Cc, value: Byte)
    ensures var r := Decrement(cc, value);
      && r.value == value - 1 + (if value == 0 then 256 else 0)
      && (!r.cc[VBit] <==> Signed8(r.value) == Signed8(value) - 1)
      && r.cc == cc[VBit := r.cc[VBit]][ZBit := r.value == 0][NBit := r.value >= 0x80]
  {
    var r := Decrement(cc, value);
    SetNz8Meaning(cc[VBit := value == 0x80], r.value);
  }

  /** DEC undoes INC and INC undoes DEC. */
  lemma {:induction false} IncrementDecrement(cc: Cc, value: Byte)
    ensures var up := Increment(cc, value); Decrement(up.cc, up.value).value == value
    ensures var down := Decrement(cc, value); Increment(down.cc, down.value).value == value
  {
    IncrementMeaning(cc, value);
    DecrementMeaning(cc, value);
  }
}
