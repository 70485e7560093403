/**
 * Branch conditions of the emulated MC6809 (`do_branch`, source/cpu.c:417-463,
 * opcodes from source/ops.h:41-56 and 137).
 *
 * `Taken` is the condition the source tests for each branch opcode; the
 * lemmas pair each condition with its opposite and say what the signed and
 * unsigned branches mean after a compare.
 */
module Branch {
  import opened Bytes
  import opened ConditionCodes
  import opened Alu

  const Bra: Byte := 0x20
  const Brn: Byte := 0x21
  const Bhi: Byte := 0x22
  const Bls: Byte := 0x23
  const Bhs: Byte := 0x24
  const Blo: Byte := 0x25
  const Bne: Byte := 0x26
  const Beq: Byte := 0x27
  const Bvc: Byte := 0x28
  const Bvs: Byte := 0x29
  const Bpl: Byte := 0x2A
  const Bmi: Byte := 0x2B
  const Bge: Byte := 0x2C
  const Blt: Byte := 0x2D
  const Bgt: Byte := 0x2E
  const Ble: Byte := 0x2F
  const Bsr: Byte := 0x8D

  /** Whether `do_branch` changes PC for opcode `bop` with condition codes `cc`. */
  predicate Taken(bop: Byte, cc: Cc) {
    var lessOrEqual := cc[ZBit] || (cc[NBit] != cc[VBit]);
    var lowerOrSame := cc[CBit] || cc[ZBit];
    || bop == Bra
    || (bop == Beq && cc[ZBit]) || (bop == Bne && !cc[ZBit])
    || (bop == Bmi && cc[NBit]) || (bop == Bpl && !cc[NBit])
    || (bop == Bvs && cc[VBit]) || (bop == Bvc && !cc[VBit])
    || (bop == Blo && cc[CBit]) || (bop == Bhs && !cc[CBit])
    || (bop == Ble && lessOrEqual) || (bop == Bgt && !lessOrEqual)
    || (bop == Blt && cc[NBit] != cc[VBit]) || (bop == Bge && cc[NBit] == cc[VBit])
    || (bop == Bls && lowerOrSame) || (bop == Bhi && !lowerOrSame)
    || bop == Bsr
  }

  /** The offset read after the opcode: a signed byte, or a signed word for a long branch. */
  function Offset(isLong: bool, operand: Word): (n: int)
    requires isLong || operand < 256
    ensures isLong ==> -0x8000 <= n < 0x8000 && Wrap(n) == operand
    ensures !isLong ==> -0x80 <= n < 0x80 && Wrap8(n) == operand
  {
    if isLong then Signed16(operand) else Signed8(operand)
  }

  /**
   * BRA always branches and BRN never does; every other conditional branch
   * from BHI to BLE is the opposite of its neighbour (BHI/BLS, BHS/BLO,
   * BNE/BEQ, BVC/BVS, BPL/BMI, BGE/BLT, BGT/BLE).
   */
  lemma {:induction false} OppositeConditions(bop: Byte, cc: Cc)
    requires Bhi <= bop < Ble && bop % 2 == 0
    ensures Taken(Bra, cc) && !Taken(Brn, cc)
    ensures Taken(bop, cc) <==> !Taken(bop + 1, cc)
  {}

  /**
   * After comparing `value` with a non-zero `amount` the unsigned branches
   * follow the unsigned order: BEQ/BNE on equality, BLO/BHS on `<`/`>=` and
   * BHI/BLS on `>`/`<=`.
   */
  lemma {:induction false} UnsignedAfterCompare(cc: Cc, value: Byte, amount: Byte)
    requires amount != 0
    ensures var c := Compare(cc, value, amount);
      && (Taken(Beq, c) <==> value == amount) && (Taken(Bne, c) <==> value != amount)
      && (Taken(Blo, c) <==> value < amount) && (Taken(Bhs, c) <==> value >= amount)
      && (Taken(Bhi, c) <==> value > amount) && (Taken(Bls, c) <==> value <= amount)
  {
    SubtractMeaning(cc, value, amount);
  }

  /** A byte congruent to the difference of two signed bytes reads as it, or as it plus or minus 256. */
  lemma SignedDifference(value: Byte, amount: Byte, r: Byte)
    requires r == (value - amount) % 256
    ensures var d := Signed8(value) - Signed8(amount);
      Signed8(r) == d || Signed8(r) == d - 256 || Signed8(r) == d + 256
  {}

  /**
   * After comparing `value` with an `amount` other than 0 and 0x80 the
   * signed branches follow the two's-complement order: BLT/BGE on `<`/`>=`
   * and BGT/BLE on `>`/`<=`.
   */
  lemma {:induction false} SignedAfterCompare(cc: Cc, value: Byte, amount: Byte)
    requires amount != 0 && amount != 0x80
    ensures var c := Compare(cc, value, amount);
      && (Taken(Blt, c) <==> Signed8(value) < Signed8(amount))
      && (Taken(Bge, c) <==> Signed8(value) >= Signed8(amount))
      && (Taken(Bgt, c) <==> Signed8(value) > Signed8(amount))
      && (Taken(Ble, c) <==> Signed8(value) <= Signed8(amount))
  {
    var r := Subtract(cc, value, amount);
    SubtractMeaning(cc, value, amount);
    SubtractOverflow(cc, value, amount);
    SignedDifference(value, amount, r.value);
    assert r.cc[NBit] <==> Signed8(r.value) < 0;
    assert r.cc[NBit] != r.cc[VBit] <==> Signed8(value) - Signed8(amount) < 0;
  }

  /**
   * Because SUB and CMP of 0 set C (the two's complement of 0 is 0, whose
   * addition carries nothing, and C is then flipped), BLO after `CMP #0`
   * always branches and BHS never does.
   */
  lemma {:induction false} CompareZeroBranchesLower(cc: Cc, value: Byte)
    ensures Taken(Blo, Compare(cc, value, 0)) && !Taken(Bhs, Compare(cc, value, 0))
  {
    SubtractZeroSetsCarry(cc, value);
  }
}
