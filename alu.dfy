/**
 * The arithmetic and logic helpers of the emulated MC6809 built on `alu`
 * (source/cpu.c:1581-1765 and 1804-1828): 8- and 16-bit addition and
 * subtraction, negation and the compare. Each is a function from the
 * condition codes and the operands to the answer and the new condition
 * codes; the lemmas say what the answer and each flag mean arithmetically,
 * including where the source departs from the MC6809 (subtracting 0 sets C,
 * for instance).
 */
module Alu {
  import opened Bits
  import opened Bytes
  import opened ConditionCodes
  import opened Adder

  /**
   * `alu_16(value_1, value_2, use_carry)`: `alu` on the low bytes, then on
   * the high bytes with the carry out of the low ones.
   */
  function Add16(cc: Cc, v1: Word, v2: Word, useCarry: bool): Result16 {
    var low := Add(cc, Lo(v1), Lo(v2), useCarry);
    var high := Add(low.cc, Hi(v1), Hi(v2), true);
    Result16(Join(high.value, low.value), high.cc)
  }

  /** Two chained byte additions add words: the answer and C make up the exact sum. */
  lemma {:induction false} Add16Sums(cc: Cc, v1: Word, v2: Word, useCarry: bool)
    ensures var r := Add16(cc, v1, v2, useCarry);
      v1 + v2 + CarryIn(cc, useCarry) == r.value + (if r.cc[CBit] then 0x10000 else 0)
  {
    var low := Add(cc, Lo(v1), Lo(v2), useCarry);
    var high := Add(low.cc, Hi(v1), Hi(v2), true);
    AddSums(cc, Lo(v1), Lo(v2), useCarry);
    AddSums(low.cc, Hi(v1), Hi(v2), true);
    JoinSplit(v1);
    JoinSplit(v2);
  }

  /** `add_no_carry(value, amount)`: `alu` without the carry, then N and Z from the answer. */
  function AddNoCarry(cc: Cc, value: Byte, amount: Byte): Result8 {
    var r := Add(cc, value, amount, false);
    Result8(r.value, SetNz(r.cc, r.value, false))
  }

  /** `add_with_carry(value, amount)`: `alu` with the carry, then N and Z from the answer. */
  function AddWithCarry(cc: Cc, value: Byte, amount: Byte): Result8 {
    var r := Add(cc, value, amount, true);
    Result8(r.value, SetNz(r.cc, r.value, false))
  }

  /**
   * ADD and ADC: the answer and C make up the exact sum, V is set exactly
   * when the signed answer is not the signed sum, Z and N describe the
   * answer, H is the carry out of the low nibbles, and I, F, E are kept.
   */
  lemma {:induction false} AddWithCarryMeaning(cc: Cc, value: Byte, amount: Byte)
    ensures var r := AddWithCarry(cc, value, amount);
      var cin := if cc[CBit] then 1 else 0;
      && value + amount + cin == r.value + (if r.cc[CBit] then 256 else 0)
      && (!r.cc[VBit] <==> Signed8(r.value) == Signed8(value) + Signed8(amount) + cin)
      && (r.cc[ZBit] <==> r.value == 0)
      && (r.cc[NBit] <==> r.value >= 0x80)
      && (r.cc[HBit] <==> cc[HBit] || value % 16 + amount % 16 + cin >= 16)
      && r.cc[IBit] == cc[IBit] && r.cc[FBit] == cc[FBit] && r.cc[EBit] == cc[EBit]
  {
    var a := Add(cc, value, amount, true);
    AddSums(cc, value, amount, true);
    SetNz8Meaning(a.cc, a.value);
  }

  /** ADD is ADC with the carry taken as clear. */
  lemma {:induction false} AddNoCarryIsAdc(cc: Cc, value: Byte, amount: Byte)
    ensures AddNoCarry(cc, value, amount) == AddWithCarry(cc[CBit := false], value, amount)
  {
    assert cc[CBit := false][HBit := cc[HBit]] == cc[CBit := false];
  }

  /** With only C set (CC 0x01), ADC of 0x3A and 0x7C gives 0xB7 and sets H, N and V (CC 0x2A). */
  lemma {:induction false} AdcExample()
    ensures var r := AddWithCarry([true, false, false, false, false, false, false, false], 0x3A, 0x7C);
      r.value == 0xB7 && r.cc == [false, true, false, true, false, true, false, false] && ByteOf(r.cc) == 0x2A
  {
    var cc: Cc := [true, false, false, false, false, false, false, false];
    var a := Add(cc, 0x3A, 0x7C, true);
    assert a.value == 0xB7;
    assert a.cc == [false, true, false, false, false, true, false, false];
    Negative8(0xB7);
  }

  /** Flipping bits `0..i-1` of a byte, as bits. */
  function FlippedBelow(value: Byte, i: nat): (s: seq<bool>)
    requires i <= 8
    ensures |s| == 8
  {
    Invert(BitsOf(value))[..i] + BitsOf(value)[i..]
  }

  /** Flipping bit `i` next extends the flipped prefix by one. */
  lemma {:induction false} FlippedNext(value: Byte, i: nat)
    requires i < 8
    ensures FlippedBelow(value, i)[i := !FlippedBelow(value, i)[i]] == FlippedBelow(value, i + 1)
  {
    var s, t := FlippedBelow(value, i)[i := !FlippedBelow(value, i)[i]], FlippedBelow(value, i + 1);
    forall j | 0 <= j < 8
      ensures s[j] == t[j]
    {
      if j < i {
        assert s[j] == Invert(BitsOf(value))[j];
      }
    }
  }

  /** All eight bits flipped is the byte 255 - value. */
  lemma {:induction false} FlippedAll(value: Byte, r: Byte)
    requires BitsOf(r) == FlippedBelow(value, 8)
    ensures r == 255 - value
  {
    assert FlippedBelow(value, 8) == Invert(BitsOf(value));
    ByteOfBits(r);
    InvertValue(BitsOf(value));
    Pow2Values();
    FromToBitsExact(value, 8);
  }

  /** `ones_complement(value)`: flip bits 0 to 7 one at a time with `value ^= (1 << i)`. */
  method OnesComplement(value: Byte) returns (r: Byte)
    ensures r == 255 - value
  {
    r := value;
    for i := 0 to 8
      invariant BitsOf(r) == FlippedBelow(value, i)
    {
      FlipBitIsXor(r, i);
      FlippedNext(value, i);
      r := Xor8(r, Pow2(i));
    }
    FlippedAll(value, r);
  }

  /** Minus a byte in 8 bits, `(256 - b) % 256`. */
  function Minus8(b: Byte): Byte { if b == 0 then 0 else 256 - b }

  /**
   * `twos_complement(value)`: the same bit-flipping loop, then `+ 1` in a
   * byte, so that 0 gives 0 back.
   */
  method TwosComplement(value: Byte) returns (r: Byte)
    ensures r == Minus8(value)
    ensures value == 0 ==> r == 0
    ensures value != 0 ==> r == 256 - value
  {
    r := OnesComplement(value);
    r := (r + 1) % 256;
  }

  /**
   * `base_sub(value, amount, use_carry)`: add the two's complement of the
   * amount; when asked to use the carry and C was set, add 0xFF (minus one)
   * to the answer with a second `alu`; then flip C (a borrow is the missing
   * carry) and set N and Z from the answer.
   */
  function BaseSub(cc: Cc, value: Byte, amount: Byte, useCarry: bool): Result8 {
    var carrySet := cc[CBit];
    var comp := Minus8(amount);
    var first := Add(cc, value, comp, false);
    var second := if useCarry && carrySet then Add(first.cc, first.value, 0xFF, false) else first;
    BorrowFlags(second)
  }

  /** The end of `base_sub`: C flipped, then N and Z from the answer. */
  function BorrowFlags(r: Result8): Result8 {
    Result8(r.value, SetNz(r.cc[CBit := !r.cc[CBit]], r.value, false))
  }

  /** `subtract(value, amount)`: SUB. */
  function Subtract(cc: Cc, value: Byte, amount: Byte): Result8 { BaseSub(cc, value, amount, false) }

  /** `sub_with_carry(value, amount)`: SBC. */
  function SubWithCarry(cc: Cc, value: Byte, amount: Byte): Result8 { BaseSub(cc, value, amount, true) }

  /** `compare(value, amount)`: CMP keeps only the flags of the subtraction. */
  function Compare(cc: Cc, value: Byte, amount: Byte): Cc { Subtract(cc, value, amount).cc }

  /** After `BorrowFlags`, C is the missing carry and N and Z describe the answer; the rest is kept. */
  lemma {:induction false} BorrowFlagsMeaning(r: Result8)
    ensures BorrowFlags(r) == Result8(r.value, r.cc[CBit := !r.cc[CBit]][ZBit := r.value == 0][NBit := r.value >= 0x80])
  {
    SetNz8Meaning(r.cc[CBit := !r.cc[CBit]], r.value);
  }

  /** The two's complement of a non-zero byte, read as signed, negates it, except for 0x80. */
  lemma SignedComplement(amount: Byte)
    requires amount != 0 && amount != 0x80
    ensures Signed8(Minus8(amount)) == -Signed8(amount)
  {}

  /** Adding the two's complement of a non-zero amount: the difference, a carry when nothing is borrowed, and V as signed overflow of the difference (for amounts other than 0x80). */
  lemma {:induction false} AddComplement(cc: Cc, value: Byte, amount: Byte)
    requires amount != 0
    ensures var first := Add(cc, value, Minus8(amount), false);
      && first.value == (value - amount) % 256
      && (first.cc[CBit] <==> value >= amount)
      && (amount != 0x80 ==> (!first.cc[VBit] <==> Signed8(first.value) == Signed8(value) - Signed8(amount)))
      && first.cc[IBit] == cc[IBit] && first.cc[FBit] == cc[FBit] && first.cc[EBit] == cc[EBit]
  {
    var first := Add(cc, value, Minus8(amount), false);
    AddSums(cc, value, Minus8(amount), false);
    DivModUnique(value - amount, 256, if value < amount then -1 else 0, first.value);
    if amount != 0x80 {
      SignedComplement(amount);
    }
  }

  /**
   * SUB of a non-zero amount: the answer is the difference in a byte, C is
   * the borrow, and Z and N describe the answer.
   */
  lemma {:induction false} SubtractMeaning(cc: Cc, value: Byte, amount: Byte)
    requires amount != 0
    ensures var r := Subtract(cc, value, amount);
      && r.value == (value - amount) % 256
      && (r.cc[CBit] <==> value < amount)
      && (r.cc[ZBit] <==> value == amount)
      && (r.cc[NBit] <==> r.value >= 0x80)
  {
    var first := Add(cc, value, Minus8(amount), false);
    SubtractUnfolds(cc, value, amount);
    AddComplement(cc, value, amount);
    BorrowFlagsMeaning(first);
  }

  /**
   * SUB of an amount other than 0 and 0x80 sets V exactly when the signed
   * answer is not the signed difference, and keeps I, F and E.
   */
  lemma {:induction false} SubtractOverflow(cc: Cc, value: Byte, amount: Byte)
    requires amount != 0 && amount != 0x80
    ensures var r := Subtract(cc, value, amount);
      && (!r.cc[VBit] <==> Signed8(r.value) == Signed8(value) - Signed8(amount))
      && r.cc[IBit] == cc[IBit] && r.cc[FBit] == cc[FBit] && r.cc[EBit] == cc[EBit]
  {
    var first := Add(cc, value, Minus8(amount), false);
    SubtractUnfolds(cc, value, amount);
    AddComplement(cc, value, amount);
    BorrowFlagsMeaning(first);
  }

  /** SUB is one `alu` with the amount's two's complement, then `BorrowFlags`. */
  lemma SubtractUnfolds(cc: Cc, value: Byte, amount: Byte)
    ensures Subtract(cc, value, amount) == BorrowFlags(Add(cc, value, Minus8(amount), false))
  {}

  /**
   * SUB of 0 sets C: the two's complement of 0 is 0, adding it carries
   * nothing, and the flip turns the missing carry into a borrow. The answer
   * is the value and V is clear.
   */
  lemma {:induction false} SubtractZeroSetsCarry(cc: Cc, value: Byte)
    ensures var r := Subtract(cc, value, 0);
      r.value == value && r.cc[CBit] && !r.cc[VBit]
  {
    AddSums(cc, value, 0, false);
  }

  /**
   * SUB of 0x80 sets V exactly when the value is negative; subtracting
   * -128 overflows exactly when the value is not negative, so V comes out
   * inverted for this amount.
   */
  lemma {:induction false} SubtractOverflowAt80(cc: Cc, value: Byte)
    ensures Subtract(cc, value, 0x80).cc[VBit] <==> value >= 0x80
    ensures !(-128 <= Signed8(value) - Signed8(0x80) < 128) <==> value < 0x80
  {
    AddSums(cc, value, 0x80, false);
  }

  /** The first `alu` of `base_sub` leaves the difference in a byte, whatever the amount. */
  lemma {:induction false} FirstDifference(cc: Cc, value: Byte, amount: Byte)
    ensures Add(cc, value, Minus8(amount), false).value == (value - amount) % 256
  {
    var comp := Minus8(amount);
    var first := Add(cc, value, comp, false);
    AddSums(cc, value, comp, false);
    if amount == 0 {
      assert first.value == value;
    } else {
      DivModUnique(value - amount, 256, if value < amount then -1 else 0, first.value);
    }
  }

  /** Adding 0xFF to a byte subtracts one from it. */
  lemma {:induction false} MinusOne(cc: Cc, value: Byte)
    ensures Add(cc, value, 0xFF, false).value == (value - 1) % 256
    ensures Add(cc, value, 0xFF, false).cc[CBit] <==> value != 0
  {
    AddSums(cc, value, 0xFF, false);
    DivModUnique(value - 1, 256, if value == 0 then -1 else 0, Add(cc, value, 0xFF, false).value);
  }

  /** SBC with a borrow in is SUB's first `alu` followed by a second one adding 0xFF. */
  lemma SubWithCarryUnfolds(cc: Cc, value: Byte, amount: Byte)
    requires cc[CBit]
    ensures var first := Add(cc, value, Minus8(amount), false);
      SubWithCarry(cc, value, amount) == BorrowFlags(Add(first.cc, first.value, 0xFF, false))
  {}

  /** Taking one off a difference already reduced to a byte. */
  lemma {:induction false} ModMinusOne(d: int)
    ensures (d % 256 - 1) % 256 == (d - 1) % 256
  {
    var m := d % 256;
    DivModUnique(d, 256, d / 256, m);
    if m == 0 {
      DivModUnique(d - 1, 256, d / 256 - 1, 255);
      DivModUnique(-1, 256, -1, 255);
    } else {
      DivModUnique(d - 1, 256, d / 256, m - 1);
      DivModUnique(m - 1, 256, 0, m - 1);
    }
  }

  /** SBC: the answer is always the difference less the borrow in, in a byte. */
  lemma {:induction false} SubWithCarryValue(cc: Cc, value: Byte, amount: Byte)
    ensures SubWithCarry(cc, value, amount).value == (value - amount - (if cc[CBit] then 1 else 0)) % 256
  {
    var first := Add(cc, value, Minus8(amount), false);
    FirstDifference(cc, value, amount);
    if cc[CBit] {
      SubWithCarryUnfolds(cc, value, amount);
      MinusOne(first.cc, first.value);
      ModMinusOne(value - amount);
    }
  }

  /** Without a borrow in, SBC is SUB. */
  lemma SubWithCarryNoBorrow(cc: Cc, value: Byte, amount: Byte)
    requires !cc[CBit]
    ensures SubWithCarry(cc, value, amount) == Subtract(cc, value, amount)
  {}

  /**
   * SBC with a borrow in: C comes from the second `alu` alone, so it is set
   * exactly when the first difference is 0, and the borrow of the first
   * subtraction is lost.
   */
  lemma {:induction false} SubWithBorrowCarry(cc: Cc, value: Byte, amount: Byte)
    requires cc[CBit]
    ensures SubWithCarry(cc, value, amount).cc[CBit] <==> (value - amount) % 256 == 0
  {
    var first := Add(cc, value, Minus8(amount), false);
    FirstDifference(cc, value, amount);
    SubWithCarryUnfolds(cc, value, amount);
    MinusOne(first.cc, first.value);
    BorrowFlagsMeaning(Add(first.cc, first.value, 0xFF, false));
  }

  /** 0x10 - 0x20 with a borrow in gives 0xEF but leaves C clear, although the subtraction borrowed. */
  lemma SbcLosesBorrow(cc: Cc)
    requires cc[CBit]
    ensures SubWithCarry(cc, 0x10, 0x20).value == 0xEF
    ensures !SubWithCarry(cc, 0x10, 0x20).cc[CBit]
  {
    SubWithCarryValue(cc, 0x10, 0x20);
    SubWithBorrowCarry(cc, 0x10, 0x20);
  }

  /**
   * `negate(value, ignore)`: the one's complement plus one through `alu`,
   * C flipped, V set for 0x80, then N and Z from the answer.
   */
  function Negate(cc: Cc, value: Byte): Result8 {
    var answer := Add(cc, 255 - value, 1, false);
    var flags := answer.cc[CBit := !answer.cc[CBit]];
    var flags' := if value == 0x80 then flags[VBit := true] else flags;
    Result8(answer.value, SetNz(flags', answer.value, false))
  }

  /** NEG: the answer is minus the value in a byte; C is set unless the value is 0, V only for 0x80. */
  lemma {:induction false} NegateValue(cc: Cc, value: Byte)
    ensures var r := Negate(cc, value);
      && r.value == (256 - value) % 256
      && (r.cc[CBit] <==> value != 0)
      && (r.cc[VBit] <==> value == 0x80)
  {
    var answer := Add(cc, 255 - value, 1, false);
    AddSums(cc, 255 - value, 1, false);
    var flags := answer.cc[CBit := !answer.cc[CBit]];
    var flags' := if value == 0x80 then flags[VBit := true] else flags;
    SetNz8Meaning(flags', answer.value);
    assert answer.value == (256 - value) % 256 && (answer.cc[CBit] <==> value == 0);
    assert answer.cc[VBit] <==> value == 0x80;
  }

  /**
   * NEG: Z and N describe the answer, H is set by a carry out of the low
   * nibble (a value ending in 0), and I, F, E are kept.
   */
  lemma {:induction false} NegateFlags(cc: Cc, value: Byte)
    ensures var r := Negate(cc, value);
      && (r.cc[ZBit] <==> r.value == 0) && (r.cc[NBit] <==> r.value >= 0x80)
      && (r.cc[HBit] <==> cc[HBit] || value % 16 == 0)
      && r.cc[IBit] == cc[IBit] && r.cc[FBit] == cc[FBit] && r.cc[EBit] == cc[EBit]
  {
    var answer := Add(cc, 255 - value, 1, false);
    var flags := answer.cc[CBit := !answer.cc[CBit]];
    var flags' := if value == 0x80 then flags[VBit := true] else flags;
    SetNz8Meaning(flags', answer.value);
    assert (255 - value) % 16 + 1 >= 16 <==> value % 16 == 0;
  }

  /** NEG sets Z exactly for 0, and N exactly when the answer is negative. */
  lemma {:induction false} NegateZero(cc: Cc, value: Byte)
    ensures var r := Negate(cc, value);
      (r.cc[ZBit] <==> value == 0) && (r.cc[NBit] <==> r.value >= 0x80)
  {
    NegateValue(cc, value);
    NegateFlags(cc, value);
  }

  /** Negating twice gives the value back. */
  lemma {:induction false} NegateTwice(cc: Cc, value: Byte)
    ensures var once := Negate(cc, value);
      Negate(once.cc, once.value).value == value
  {
    var once := Negate(cc, value);
    NegateValue(cc, value);
    NegateValue(once.cc, once.value);
  }

  /** `complement(value)`: COM, the one's complement, N and Z from it, V cleared and C set. */
  function Complement(cc: Cc, value: Byte): Result8 {
    var answer := 255 - value;
    Result8(answer, SetNz(cc, answer, false)[VBit := false][CBit := true])
  }

  /** COM: every bit of the answer is the opposite of the value's, and the answer added to the value is 0xFF. */
  lemma {:induction false} ComplementBits(cc: Cc, value: Byte)
    ensures BitsOf(Complement(cc, value).value) == Invert(BitsOf(value))
    ensures Complement(cc, value).value + value == 0xFF
  {
    var bits := BitsOf(value);
    Pow2Values();
    FromToBitsExact(value, 8);
    assert FromBits(bits) == value;
    InvertValue(bits);
    assert FromBits(Invert(bits)) == 255 - value;
    ToFromBits(Invert(bits));
    assert ToBits(255 - value, 8) == Invert(bits);
  }

  /** COM twice gives the value back and leaves Z and N as for the value; C is set and V clear. */
  lemma {:induction false} ComplementTwice(cc: Cc, value: Byte)
    ensures var once := Complement(cc, value);
      var twice := Complement(once.cc, once.value);
      twice.value == value && twice.cc == cc[ZBit := value == 0][NBit := value >= 0x80][VBit := false][CBit := true]
  {
    var once := Complement(cc, value);
    SetNz8Meaning(cc, once.value);
    SetNz8Meaning(once.cc, value);
  }
}
