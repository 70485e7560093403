/**
 * The accumulator instructions of the emulated MC6809 that do their own
 * arithmetic rather than go through `alu`: DAA (source/cpu.c:919-940), MUL
 * (source/cpu.c:1141-1152) and SEX (source/cpu.c:1297-1307).
 */
module Accumulator {
  import opened Bits
  import opened Bytes
  import opened ConditionCodes
  import opened Adder

  /** A byte holding two binary-coded decimal digits. */
  predicate Bcd(b: Byte) { b % 16 <= 9 && b / 16 <= 9 }

  /** The number two BCD digits stand for. */
  function Decimal(b: Byte): nat { b / 16 * 10 + b % 16 }

  /**
   * `daa()` as the source writes it. The low correction of 6 is added to A
   * in a byte; the high digit is then read from the corrected A and gets 6
   * more if C was set, if it is above 8, or if the original low digit was
   * above 9; C is set only if that high digit passes 0xF. Shifting the high
   * digit back into a `uint8_t` keeps its low four bits.
   */
  function DecimalAdjustAsWritten(cc: Cc, a: Byte): Result8 {
    var carry := cc[CBit];
    var cleared := cc[CBit := false];
    var lsn := a % 16;
    var low := if cc[HBit] || lsn > 9 then 6 else 0;
    var a1 := if a + low < 256 then a + low else a + low - 256;
    var msn := a1 / 16 + (if carry || a1 / 16 > 8 || lsn > 9 then 6 else 0);
    var flags := if msn > 0xF then cleared[CBit := true] else cleared;
    var value := msn % 16 * 16 + a1 % 16;
    Result8(value, SetNz(flags, value, false))
  }

  /**
   * As written, 0x15 + 0x05 (0x1A with H and C clear) is adjusted to 0x80
   * instead of 0x20: the original low digit above 9 forces the high
   * correction although the low one already carried into the high digit.
   */
  lemma DecimalAdjustAsWrittenHighDigit(cc: Cc)
    requires !cc[HBit] && !cc[CBit]
    ensures DecimalAdjustAsWritten(cc, 0x1A).value == 0x80
  {}

  /**
   * As written, 0x99 + 0x99 (0x32 with H and C set) is adjusted to 0x98 but
   * C is cleared: the carry of the addition is lost, so the hundred is.
   */
  lemma DecimalAdjustAsWrittenLosesCarry(cc: Cc)
    requires cc[HBit] && cc[CBit]
    ensures DecimalAdjustAsWritten(cc, 0x32).value == 0x98
    ensures !DecimalAdjustAsWritten(cc, 0x32).cc[CBit]
  {}

  /**
   * As written, a high digit of 9 is corrected even when no digit passed 9:
   * 0x45 + 0x50 leaves 0x95 with H and C clear, and DAA turns it into 0xF5.
   */
  lemma DecimalAdjustAsWrittenHighNine(cc: Cc)
    requires !cc[HBit] && !cc[CBit]
    ensures DecimalAdjustAsWritten(cc, 0x95).value == 0xF5
  {}

  /**
   * Where C is clear, the low digit is at most 9 and the high digit at most
   * 8, the source's DAA gives what the MC6809 gives: A, plus 6 if H is set.
   */
  lemma {:induction false} DecimalAdjustAsWrittenAgrees(cc: Cc, a: Byte)
    requires !cc[CBit] && a % 16 <= 9 && a / 16 <= 8
    ensures DecimalAdjustAsWritten(cc, a) == DecimalAdjust(cc, a)
    ensures DecimalAdjustAsWritten(cc, a).value == a + (if cc[HBit] then 6 else 0)
  {
    var low := if cc[HBit] then 6 else 0;
    assert (a + low) / 16 == a / 16 && (a + low) % 16 == a % 16 + low;
    assert cc[CBit := false] == cc;
  }

  /**
   * DAA as the MC6809 does it: both corrections are decided from the
   * original A (6 for the low digit on H or a digit above 9, 0x60 for the
   * high one on C, a high digit above 9, or a high digit of 9 with a low one
   * above 9), added to A in a byte, and C is set if it was set or the high
   * correction was needed; N and Z from the answer.
   */
  function DecimalAdjust(cc: Cc, a: Byte): Result8 {
    var lsn := a % 16;
    var msn := a / 16;
    var low := if cc[HBit] || lsn > 9 then 6 else 0;
    var high := if cc[CBit] || msn > 9 || (msn > 8 && lsn > 9) then 0x60 else 0;
    var sum := a + low + high;
    var value := if sum < 256 then sum else sum - 256;
    Result8(value, SetNz(cc[CBit := cc[CBit] || high != 0], value, false))
  }

  /** On the two examples, DAA gives 0x20, and 0x98 with C set. */
  lemma DecimalAdjustExamples(cc: Cc)
    ensures !cc[HBit] && !cc[CBit] ==> DecimalAdjust(cc, 0x1A).value == 0x20
    ensures cc[HBit] && cc[CBit] ==> DecimalAdjust(cc, 0x32).value == 0x98 && DecimalAdjust(cc, 0x32).cc[CBit]
  {}

  /** The carry digit and the low digit of adding two BCD bytes' low digits and a carry in. */
  function LowDigitSum(x: Byte, y: Byte, cin: nat): nat { x % 16 + y % 16 + cin }

  /** The decimal high digit of the sum, with the decimal carry out of the low digits. */
  function HighDigitSum(x: Byte, y: Byte, cin: nat): nat {
    x / 16 + y / 16 + (if LowDigitSum(x, y, cin) >= 10 then 1 else 0)
  }

  /**
   * The byte an 8-bit addition of two BCD bytes leaves, with H and C as the
   * binary addition sets them, and the corrections DAA then picks: 6 for
   * the low digit exactly when the low digits reach 10, 0x60 for the high
   * digit exactly when the decimal high digit does.
   */
  lemma {:induction false} DecimalAdjustPicks(cc: Cc, x: Byte, y: Byte, cin: nat, a: Byte)
    requires Bcd(x) && Bcd(y) && cin <= 1
    requires a == if x + y + cin < 256 then x + y + cin else x + y + cin - 256
    requires cc[HBit] == (x % 16 + y % 16 + cin >= 16)
    requires cc[CBit] == (x + y + cin >= 256)
    ensures (cc[HBit] || a % 16 > 9) <==> LowDigitSum(x, y, cin) >= 10
    ensures (cc[CBit] || a / 16 > 9 || (a / 16 > 8 && a % 16 > 9)) <==> HighDigitSum(x, y, cin) >= 10
  {
    var lo := LowDigitSum(x, y, cin);
    var lo16 := if lo >= 16 then lo - 16 else lo;
    var s := x / 16 + y / 16 + (if lo >= 16 then 1 else 0);
    var s16 := if s >= 16 then s - 16 else s;
    assert x == 16 * (x / 16) + x % 16 && y == 16 * (y / 16) + y % 16;
    assert x + y + cin == 16 * s + lo16;
    assert a == 16 * s16 + lo16;
    DivModUnique(a, 16, s16, lo16);
  }

  /**
   * After adding two BCD bytes (and a carry in), with H and C as the binary
   * addition sets them, DAA leaves the decimal low digit and the decimal
   * high digit less ten if it reached ten, and C set exactly when it did.
   */
  lemma {:induction false} DecimalAdjustDigits(cc: Cc, x: Byte, y: Byte, cin: nat, a: Byte)
    requires Bcd(x) && Bcd(y) && cin <= 1
    requires a == if x + y + cin < 256 then x + y + cin else x + y + cin - 256
    requires cc[HBit] == (x % 16 + y % 16 + cin >= 16)
    requires cc[CBit] == (x + y + cin >= 256)
    ensures var r := DecimalAdjust(cc, a);
      var lo, hi := LowDigitSum(x, y, cin), HighDigitSum(x, y, cin);
      && r.value == 16 * (hi % 10) + lo % 10
      && (r.cc[CBit] <==> hi >= 10)
  {
    DecimalAdjustPicks(cc, x, y, cin, a);
    var lo, hi := LowDigitSum(x, y, cin), HighDigitSum(x, y, cin);
    var lo10 := if lo >= 10 then lo - 10 else lo;
    var hi10 := if hi >= 10 then hi - 10 else hi;
    DivModUnique(lo, 10, if lo >= 10 then 1 else 0, lo10);
    DivModUnique(hi, 10, if hi >= 10 then 1 else 0, hi10);
    assert x == 16 * (x / 16) + x % 16 && y == 16 * (y / 16) + y % 16;
    assert x + y + cin + (if lo >= 10 then 6 else 0) == 16 * hi + lo10;
    assert a + (if lo >= 10 then 6 else 0) + (if hi >= 10 then 0x60 else 0) - 16 * hi10 - lo10 in {0, 256};
  }

  /**
   * After adding two BCD bytes (and a carry in), with H and C as the binary
   * addition sets them, DAA leaves the BCD digits of the decimal sum and C
   * set exactly when the decimal sum reaches 100.
   */
  lemma {:induction false} DecimalAdjustCorrects(cc: Cc, x: Byte, y: Byte, cin: nat, a: Byte)
    requires Bcd(x) && Bcd(y) && cin <= 1
    requires a == if x + y + cin < 256 then x + y + cin else x + y + cin - 256
    requires cc[HBit] == (x % 16 + y % 16 + cin >= 16)
    requires cc[CBit] == (x + y + cin >= 256)
    ensures var r := DecimalAdjust(cc, a);
      && Bcd(r.value)
      && Decimal(r.value) == (Decimal(x) + Decimal(y) + cin) % 100
      && (r.cc[CBit] <==> Decimal(x) + Decimal(y) + cin >= 100)
  {
    var r := DecimalAdjust(cc, a);
    DecimalAdjustDigits(cc, x, y, cin, a);
    var lo, hi := LowDigitSum(x, y, cin), HighDigitSum(x, y, cin);
    var lo10, hi10 := lo % 10, hi % 10;
    DivModUnique(lo, 10, if lo >= 10 then 1 else 0, if lo >= 10 then lo - 10 else lo);
    DivModUnique(hi, 10, if hi >= 10 then 1 else 0, if hi >= 10 then hi - 10 else hi);
    DivModUnique(r.value, 16, hi10, lo10);
    var d := Decimal(x) + Decimal(y) + cin;
    assert d == 10 * hi + lo10;
    DivModUnique(d, 100, if hi >= 10 then 1 else 0, 10 * hi10 + lo10);
    assert Decimal(r.value) == 10 * hi10 + lo10;
  }

  /** `mul()`: Z and C cleared, A times B into D, C from bit 7 of the product and Z if it is 0. */
  function Multiply(cc: Cc, a: Byte, b: Byte): Result16 {
    ProductBound(a, b);
    var d := a * b;
    var cleared := ClearZc(cc);
    var withC := if Bit(d, 7) then cleared[CBit := true] else cleared;
    Result16(d, if d == 0 then withC[ZBit := true] else withC)
  }

  /** The product of two bytes fits a word. */
  lemma ProductBound(a: Byte, b: Byte)
    ensures 0 <= a * b <= 255 * 255
  {
    assert a * b <= 255 * b;
  }

  /** Bit 7 of a word is the top bit of its low byte. */
  lemma {:induction false} Bit7OfWord(w: Word)
    ensures Bit(w, 7) <==> Lo(w) >= 0x80
  {
    BitDiv(w, 7);
    Pow2Values();
    DivModUnique(w, 128, w / 128, w % 128);
    DivModUnique(w, 256, (w / 128) / 2, (w / 128) % 2 * 128 + w % 128);
  }

  /** A product of bytes is 0 exactly when a factor is. */
  lemma ProductZero(a: Byte, b: Byte)
    ensures a * b == 0 <==> a == 0 || b == 0
  {
    if a != 0 && b != 0 {
      assert a * b >= b;
    }
  }

  /**
   * MUL: D is the unsigned product of A and B, Z says a factor was 0, and
   * C is the top bit of the low byte (so that ADCA #0 rounds the high byte).
   */
  lemma {:induction false} MultiplyMeaning(cc: Cc, a: Byte, b: Byte)
    ensures var r := Multiply(cc, a, b);
      && r.value == a * b
      && (r.cc[ZBit] <==> a == 0 || b == 0)
      && (r.cc[CBit] <==> Lo(r.value) >= 0x80)
  {
    ProductBound(a, b);
    ProductZero(a, b);
    Bit7OfWord(a * b);
  }

  /** MUL changes only Z and C. */
  lemma {:induction false} MultiplyKeeps(cc: Cc, a: Byte, b: Byte)
    ensures var r := Multiply(cc, a, b);
      r.cc == cc[CBit := r.cc[CBit]][ZBit := r.cc[ZBit]]
  {
    var r := Multiply(cc, a, b);
    forall i | 0 <= i < 8 ensures r.cc[i] == cc[CBit := r.cc[CBit]][ZBit := r.cc[ZBit]][i] {}
  }

  /** `sex()`: N and Z cleared; A becomes 0xFF with N set when B is negative, else 0; Z if B is 0. */
  function SignExtend(cc: Cc, b: Byte): Result8 {
    var cleared := ClearNz(cc);
    var negative := Bit(b, SignBit8);
    var value := if negative then 0xFF else 0;
    var withN := if negative then cleared[NBit := true] else cleared;
    Result8(value, if b == 0 then withN[ZBit := true] else withN)
  }

  /**
   * SEX: D read as signed is B read as signed, and N and Z describe D (as
   * they describe B); the other flags are kept.
   */
  lemma {:induction false} SignExtendMeaning(cc: Cc, b: Byte)
    ensures var r := SignExtend(cc, b);
      && Signed16(Join(r.value, b)) == Signed8(b)
      && r.cc == cc[ZBit := Join(r.value, b) == 0][NBit := Join(r.value, b) >= 0x8000]
  {
    Negative8(b);
  }
}
