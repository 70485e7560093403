/**
 * The 16-bit arithmetic of the emulated MC6809 on the D register and on
 * memory words (source/cpu.c:678-713, 1402-1434 and 1700-1727): ADDD, SUBD
 * and the subtraction behind CMPD, CMPX, CMPY, CMPU and CMPS. Each chains
 * two byte additions of `alu`, the high one taking the carry out of the low
 * one, and sets N and Z from the 16-bit answer.
 */
module Wide {
  import opened Bits
  import opened Bytes
  import opened ConditionCodes
  import opened Adder
  import opened Alu

  /** A word's signed value is its high byte's signed value times 256 plus its low byte. */
  lemma Signed16Split(w: Word)
    ensures Signed16(w) == Signed8(Hi(w)) * 256 + Lo(w)
  {}

  /**
   * Two chained byte additions overflow as signed words exactly when the
   * signed sum does not fit: V is clear iff the answer read as signed is
   * the signed sum.
   */
  lemma {:induction false} Add16Overflow(cc: Cc, v1: Word, v2: Word, useCarry: bool)
    ensures var r := Add16(cc, v1, v2, useCarry);
      !r.cc[VBit] <==> Signed16(r.value) == Signed16(v1) + Signed16(v2) + CarryIn(cc, useCarry)
  {
    var low := Add(cc, Lo(v1), Lo(v2), useCarry);
    var high := Add(low.cc, Hi(v1), Hi(v2), true);
    AddSums(cc, Lo(v1), Lo(v2), useCarry);
    AddSums(low.cc, Hi(v1), Hi(v2), true);
    Signed16Split(v1);
    Signed16Split(v2);
    Signed16Split(Join(high.value, low.value));
    SplitJoin(high.value, low.value);
  }

  /** The two chained additions touch only H, V and C. */
  lemma Add16Keeps(cc: Cc, v1: Word, v2: Word, useCarry: bool)
    ensures var r := Add16(cc, v1, v2, useCarry);
      && r.cc[ZBit] == cc[ZBit] && r.cc[NBit] == cc[NBit]
      && r.cc[IBit] == cc[IBit] && r.cc[FBit] == cc[FBit] && r.cc[EBit] == cc[EBit]
  {}

  /**
   * `add_16`, ADDD: D plus the word at M:M+1, N and Z cleared first and set
   * from the answer, H as it was before.
   */
  function AddD(cc: Cc, d: Word, m: Word): Result16 {
    var sum := Add16(ClearNz(cc), d, m, false);
    Result16(sum.value, SetNz(sum.cc, sum.value, true)[HBit := cc[HBit]])
  }

  /** ADDD adds words: the answer is the sum in 16 bits and C its carry. */
  lemma {:induction false} AddDSum(cc: Cc, d: Word, m: Word)
    ensures var r := AddD(cc, d, m);
      && r.value == (d + m) % 0x10000
      && (r.cc[CBit] <==> d + m >= 0x10000)
  {
    var sum := Add16(ClearNz(cc), d, m, false);
    Add16Sums(ClearNz(cc), d, m, false);
    DivModUnique(d + m, 0x10000, if sum.cc[CBit] then 1 else 0, sum.value);
    SetNz16Meaning(sum.cc, sum.value);
  }

  /** ADDD: the answer read as signed is the exact signed sum unless V is set. */
  lemma {:induction false} AddDOverflow(cc: Cc, d: Word, m: Word)
    ensures var r := AddD(cc, d, m);
      !r.cc[VBit] <==> Signed16(r.value) == Signed16(d) + Signed16(m)
  {
    var sum := Add16(ClearNz(cc), d, m, false);
    Add16Overflow(ClearNz(cc), d, m, false);
    SetNz16Meaning(sum.cc, sum.value);
  }

  /** ADDD: Z and N describe the answer; H, I, F and E are kept. */
  lemma {:induction false} AddDFlags(cc: Cc, d: Word, m: Word)
    ensures var r := AddD(cc, d, m);
      && (r.cc[ZBit] <==> r.value == 0)
      && (r.cc[NBit] <==> r.value >= 0x8000)
      && r.cc[HBit] == cc[HBit] && r.cc[IBit] == cc[IBit] && r.cc[FBit] == cc[FBit] && r.cc[EBit] == cc[EBit]
  {
    var sum := Add16(ClearNz(cc), d, m, false);
    Add16Keeps(ClearNz(cc), d, m, false);
    SetNz16Meaning(sum.cc, sum.value);
  }

  /** Minus a word in 16 bits, `(0x10000 - w) % 0x10000`. */
  function Minus16(w: Word): Word { if w == 0 then 0 else 0x10000 - w }

  /**
   * `subtract_16(value, amount)`: the amount's two's complement in 16 bits
   * (`uint16_t`, so 0 stays 0; `NegatedWord` shows the source's bytewise
   * complement plus one is this), added to the value with N and Z cleared
   * first and set from the answer; C then flipped to mean a borrow.
   */
  function Subtract16(cc: Cc, value: Word, amount: Word): Result16 {
    var negated := Minus16(amount);
    var sum := Add16(ClearNz(cc), value, negated, false);
    var flags := SetNz(sum.cc, sum.value, true);
    Result16(sum.value, flags[CBit := !flags[CBit]])
  }

  /** CMPD, CMPX, CMPY, CMPU, CMPS: only the condition codes of `subtract_16` are kept. */
  function Compare16(cc: Cc, value: Word, amount: Word): Cc { Subtract16(cc, value, amount).cc }

  /** The complement of each byte of a word, joined and incremented in `uint16_t`, is minus the word in 16 bits. */
  lemma NegatedWord(amount: Word)
    ensures Wrap(Join(255 - Hi(amount), 255 - Lo(amount)) + 1) == Minus16(amount)
  {}

  /** The addition behind `subtract_16` in numbers: the answer and the carry make up the value plus the negated amount. */
  lemma {:induction false} Subtract16Sum(cc: Cc, value: Word, amount: Word)
    ensures var r := Subtract16(cc, value, amount);
      value + Minus16(amount) == r.value + (if r.cc[CBit] then 0 else 0x10000)
    ensures Subtract16(cc, value, amount).cc[ZBit] <==> Subtract16(cc, value, amount).value == 0
    ensures Subtract16(cc, value, amount).cc[NBit] <==> Subtract16(cc, value, amount).value >= 0x8000
  {
    var negated := Minus16(amount);
    var sum := Add16(ClearNz(cc), value, negated, false);
    Add16Sums(ClearNz(cc), value, negated, false);
    SetNz16Meaning(sum.cc, sum.value);
  }

  /**
   * Subtracting words: the answer is the difference in 16 bits, Z says the
   * two were equal and N that the answer is negative; for a non-zero amount
   * C is the borrow, set iff the value is below the amount, as on the MC6809.
   */
  lemma {:induction false} Subtract16Meaning(cc: Cc, value: Word, amount: Word)
    ensures var r := Subtract16(cc, value, amount);
      && r.value == (value - amount) % 0x10000
      && (r.cc[ZBit] <==> value == amount)
      && (r.cc[NBit] <==> r.value >= 0x8000)
      && (amount != 0 ==> (r.cc[CBit] <==> value < amount))
  {
    var r := Subtract16(cc, value, amount);
    Subtract16Sum(cc, value, amount);
    if amount == 0 {
      DivModUnique(value, 0x10000, 0, r.value);
    } else {
      DivModUnique(value - amount, 0x10000, if r.cc[CBit] then -1 else 0, r.value);
    }
  }

  /**
   * As with the byte subtraction, the complement of 0 is 0 in `uint16_t`, so
   * subtracting 0 leaves no carry to flip and C ends up set.
   */
  lemma {:induction false} Subtract16ZeroSetsCarry(cc: Cc, value: Word)
    ensures Subtract16(cc, value, 0).value == value && Subtract16(cc, value, 0).cc[CBit]
  {
    Subtract16Sum(cc, value, 0);
  }


  /**
   * Subtracting words: the answer read as signed is the exact signed
   * difference unless V is set, except for the amounts 0 and 0x8000 whose
   * negation is themselves.
   */
  lemma {:induction false} Subtract16Overflow(cc: Cc, value: Word, amount: Word)
    requires amount != 0 && amount != 0x8000
    ensures var r := Subtract16(cc, value, amount);
      !r.cc[VBit] <==> Signed16(r.value) == Signed16(value) - Signed16(amount)
  {
    var negated := Minus16(amount);
    var sum := Add16(ClearNz(cc), value, negated, false);
    Add16Overflow(ClearNz(cc), value, negated, false);
    assert Signed16(negated) == -Signed16(amount);
    SetNz16Meaning(sum.cc, sum.value);
  }

  /** `subtract_16` leaves I, F and E as they were. */
  lemma {:induction false} Subtract16Keeps(cc: Cc, value: Word, amount: Word)
    ensures var r := Subtract16(cc, value, amount);
      r.cc[IBit] == cc[IBit] && r.cc[FBit] == cc[FBit] && r.cc[EBit] == cc[EBit]
  {
    var sum := Add16(ClearNz(cc), value, Minus16(amount), false);
    Add16Keeps(ClearNz(cc), value, Minus16(amount), false);
    SetNz16Meaning(sum.cc, sum.value);
  }

  /**
   * `sub_16` as the source writes it, SUBD: N, Z and V cleared, the word at
   * M:M+1 complemented and incremented through `alu` (with the flags those
   * steps leave restored afterwards), added to D, and N and Z set from the
   * answer. Unlike `subtract_16` it does not flip C afterwards.
   */
  function SubDAsWritten(cc: Cc, d: Word, m: Word): Result16 {
    var masked := ClearNzv(cc);
    var negated := Add16(masked, Join(255 - Hi(m), 255 - Lo(m)), 1, false).value;
    var sum := Add16(masked, d, negated, false);
    Result16(sum.value, SetNz(sum.cc, sum.value, true))
  }

  /** The increment through `alu` forms the two's complement of the word in 16 bits. */
  lemma {:induction false} SubDNegates(cc: Cc, m: Word)
    ensures Add16(cc, Join(255 - Hi(m), 255 - Lo(m)), 1, false).value == Minus16(m)
  {
    Add16Sums(cc, Join(255 - Hi(m), 255 - Lo(m)), 1, false);
  }

  /** `alu` sets V afresh, so what V was before does not matter. */
  lemma AddIgnoresV(cc: Cc, v: bool, v1: Byte, v2: Byte, useCarry: bool)
    ensures Add(cc[VBit := v], v1, v2, useCarry) == Add(cc, v1, v2, useCarry)
  {
    var a, b := Add(cc[VBit := v], v1, v2, useCarry), Add(cc, v1, v2, useCarry);
    assert a.cc == b.cc by {
      forall i | 0 <= i < 8 ensures a.cc[i] == b.cc[i] {}
    }
  }

  /** Nor does it matter to the two chained additions. */
  lemma {:induction false} Add16IgnoresV(cc: Cc, v: bool, v1: Word, v2: Word, useCarry: bool)
    ensures Add16(cc[VBit := v], v1, v2, useCarry) == Add16(cc, v1, v2, useCarry)
  {
    AddIgnoresV(cc, v, Lo(v1), Lo(v2), useCarry);
  }

  /** Flipping C twice gives the flags back. */
  lemma FlipCarryTwice(c: Cc)
    ensures var once := c[CBit := !c[CBit]]; once[CBit := !once[CBit]] == c
  {
    var once := c[CBit := !c[CBit]];
    forall i | 0 <= i < 8 ensures once[CBit := !once[CBit]][i] == c[i] {}
  }

  /**
   * SUBD as written agrees with `subtract_16` on the answer and on every
   * flag but C, which it leaves as the carry of the internal addition, the
   * opposite of the borrow.
   */
  lemma {:induction false} SubDAsWrittenCarry(cc: Cc, d: Word, m: Word)
    ensures var r := Subtract16(cc, d, m);
      SubDAsWritten(cc, d, m) == Result16(r.value, r.cc[CBit := !r.cc[CBit]])
  {
    var sum := Add16(ClearNz(cc), d, Minus16(m), false);
    SubDNegates(ClearNzv(cc), m);
    Add16IgnoresV(ClearNz(cc), false, d, Minus16(m), false);
    assert ClearNzv(cc) == ClearNz(cc)[VBit := false];
    FlipCarryTwice(SetNz(sum.cc, sum.value, true));
  }

  /** As written, SUBD of 3 from 5 reports a borrow (C set) although 5 is not below 3. */
  lemma SubDAsWrittenBorrowWrong(cc: Cc)
    ensures SubDAsWritten(cc, 5, 3).value == 2 && SubDAsWritten(cc, 5, 3).cc[CBit]
  {
    SubDAsWrittenCarry(cc, 5, 3);
    Subtract16Meaning(cc, 5, 3);
  }

  /**
   * SUBD as evidently intended, and as `subtract_16` does for the compares:
   * C set iff D is below the word subtracted (for a non-zero word).
   */
  function SubD(cc: Cc, d: Word, m: Word): (r: Result16)
    ensures r.value == (d - m) % 0x10000
    ensures m != 0 ==> (r.cc[CBit] <==> d < m)
  {
    Subtract16Meaning(cc, d, m);
    Subtract16(cc, d, m)
  }
}
