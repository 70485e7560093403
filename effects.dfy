/**
 * What whole instructions do to the machine, stated across operations:
 * compares and tests change only the flags; a store is read back by the
 * matching load; RTS returns from JSR and BSR; RTI returns from every
 * interrupt entry; masked requests are dropped; reset takes PC from the
 * vector table `init_vectors` writes.
 */
module Effects {
  import opened Bits
  import opened Bytes
  import opened ConditionCodes
  import opened Registers
  import opened AddressSpace
  import opened Stack
  import opened Addressing
  import opened Branch
  import opened Logic
  import opened Instructions

  /** The machine differs from `M` at most in CC and PC. */
  predicate OnlyFlagsAndPc(M: Machine, M': Machine) {
    M'.mem == M.mem && M'.state == M.state && M'.regs.(cc := M.regs.cc, pc := M.regs.pc) == M.regs
  }

  /** The machine differs from `M` at most in CC, PC and the index register `code` names. */
  predicate OnlyFlagsPcAndIndex(M: Machine, M': Machine, code: IndexCode) {
    && M'.mem == M.mem && M'.state == M.state
    && M'.regs.a == M.regs.a && M'.regs.b == M.regs.b && M'.regs.d == M.regs.d && M'.regs.dp == M.regs.dp
    && forall other: IndexCode :: other != code ==> RegisterValue(M'.regs, other) == RegisterValue(M.regs, other)
  }

  /**
   * CMPA/CMPB, BITA/BITB, TST and the 16-bit compares change only the
   * condition codes and PC, past the operand; in indexed mode they may also
   * move the index register the post-byte names (`,R+`, `,--R` and the
   * like), and nothing else.
   */
  lemma {:induction false} ComparesChangeOnlyFlags(M: Machine, op: Byte, ex: Byte, mode: Mode)
    ensures mode != Indexed ==>
      && OnlyFlagsAndPc(M, CompareByte(M, op, mode))
      && OnlyFlagsAndPc(M, BitTest(M, op, mode))
      && OnlyFlagsAndPc(M, TestByte(M, op, mode))
      && OnlyFlagsAndPc(M, CompareWord(M, op, ex, mode))
    ensures mode == Indexed ==> var code := IndexOf(M.mem[M.regs.pc]);
      && OnlyFlagsPcAndIndex(M, CompareByte(M, op, mode), code)
      && OnlyFlagsPcAndIndex(M, BitTest(M, op, mode), code)
      && OnlyFlagsPcAndIndex(M, TestByte(M, op, mode), code)
      && OnlyFlagsPcAndIndex(M, CompareWord(M, op, ex, mode), code)
  {
    if mode == Indexed {
      IndexedMovesOneRegister(M.regs, M.mem);
    } else {
      OperandAtMeaning(M.regs, M.mem, mode);
    }
  }

  /** The byte STA/STB stores is the byte LDA/LDB then reads at the same address, and only that byte of memory changes. */
  lemma {:induction false} StoreThenLoadByte(M: Machine, op: Byte, mode: Mode)
    ensures var loc := OperandAt(M.regs, M.mem, mode);
      var M' := StoreByte(M, op, mode);
      && M'.mem[loc.address] == (if op < 0xD7 then M.regs.a else M.regs.b)
      && (forall a :: 0 <= a < MemorySize && a != loc.address ==> M'.mem[a] == M.mem[a])
  {
    var loc := OperandAt(M.regs, M.mem, mode);
    assert loc.regs.a == M.regs.a && loc.regs.b == M.regs.b by {
      if mode == Indexed {
        var pb := M.mem[M.regs.pc];
        var r := M.regs.(pc := Next(M.regs.pc));
        if pb >= 0x80 {
          var form := IndexedForm(r, M.mem, IndexOf(pb), pb % 32);
          IncrementRegisterMeaning(r, IndexOf(pb), 1);
          IncrementRegisterMeaning(r, IndexOf(pb), 2);
          IncrementRegisterMeaning(r, IndexOf(pb), -1);
          IncrementRegisterMeaning(r, IndexOf(pb), -2);
          assert form.regs.a == r.a && form.regs.b == r.b;
        }
      }
    }
  }

  /**
   * The word a 16-bit store writes is the word at its address afterwards,
   * high byte first, and no other byte of memory changes. The word stored is
   * the register as it is once the operand has been found: in every mode
   * but indexed that is the register as it was.
   */
  lemma {:induction false} StoreThenLoadWord(M: Machine, op: Byte, ex: Byte, mode: Mode)
    ensures var loc := OperandAt(M.regs, M.mem, mode);
      var M' := StoreWord(M, op, ex, mode);
      && WordAt(M'.mem, loc.address) == StoredWord(loc.regs, op, ex)
      && forall a :: 0 <= a < MemorySize && a != loc.address && a != Next(loc.address) ==> M'.mem[a] == M.mem[a]
    ensures mode != Indexed ==> StoredWord(OperandAt(M.regs, M.mem, mode).regs, op, ex) == StoredWord(M.regs, op, ex)
  {
    var loc := OperandAt(M.regs, M.mem, mode);
    if mode != Indexed {
      OperandAtMeaning(M.regs, M.mem, mode);
    }
    var value := StoredWord(loc.regs, op, ex);
    assert StoreWord(M, op, ex, mode).mem == M.mem[loc.address := Hi(value)][Next(loc.address) := Lo(value)];
    WriteThenReadWord(M.mem, loc.address, value);
  }

  /** Writing a word high byte first at `a` and `a + 1` reads back as that word and touches no other byte. */
  lemma {:induction false} WriteThenReadWord(m: Memory, a: Word, value: Word)
    ensures var m' := m[a := Hi(value)][Next(a) := Lo(value)];
      && WordAt(m', a) == value
      && forall b :: 0 <= b < MemorySize && b != a && b != Next(a) ==> m'[b] == m[b]
  {
    assert Next(a) != a;
    JoinSplit(value);
  }

  /**
   * STX ,X++ (opcode 0xAF, post-byte 0x81) stores X after the increment
   * at the address X held before it, as `st_16` reads the register only
   * after `address_from_mode`.
   */
  lemma {:induction false} StoreAutoIncrementStoresMoved(M: Machine)
    requires M.mem[M.regs.pc] == 0x81
    ensures WordAt(StoreWord(M, 0xAF, 0, Indexed).mem, M.regs.x) == Wrap(M.regs.x + 2)
  {
    var r1 := M.regs.(pc := Next(M.regs.pc));
    assert IndexOf(0x81) == 0 && 0x81 % 32 == 1;
    var loc := OperandAt(M.regs, M.mem, Indexed);
    assert loc == IndexedForm(r1, M.mem, 0, 1);
    assert loc.address == M.regs.x && loc.regs.x == Wrap(M.regs.x + 2);
    assert StoredWord(loc.regs, 0xAF, 0) == loc.regs.x;
    StoreThenLoadWord(M, 0xAF, 0, Indexed);
  }

  /** RTS pulls back the return address JSR and BSR store below S, and S returns to where it was. */
  lemma {:induction false} CallThenReturn(r: Regs, m: Memory, target: Word)
    ensures Pull(r.(s := Prev(Prev(r.s)), pc := target), CallMemory(r, m), true, PcOnly) == r
  {
    PullPcOnly(r.(s := Prev(Prev(r.s)), pc := target), CallMemory(r, m));
    assert Prev(Prev(r.s)) != Prev(r.s);
    assert Next(Prev(Prev(r.s))) == Prev(r.s);
    JoinSplit(r.pc);
    assert Above(Prev(Prev(r.s)), 2) == r.s;
  }

  /** RTS after JSR: the registers are those JSR started from, with PC just past JSR's operand. */
  lemma {:induction false} JsrThenRts(M: Machine, mode: Mode)
    ensures ReturnFromSubroutine(JumpToSubroutine(M, mode)).regs == OperandAt(M.regs, M.mem, mode).regs
  {
    var loc := OperandAt(M.regs, M.mem, mode);
    CallThenReturn(loc.regs, M.mem, loc.address);
  }

  /** RTS after BSR or LBSR: back at the byte after the branch's offset, with S as before. */
  lemma {:induction false} BsrThenRts(M: Machine, isLong: bool)
    ensures var after := if isLong then Next(Next(M.regs.pc)) else Next(M.regs.pc);
      ReturnFromSubroutine(DoBranch(M, Bsr, isLong)).regs == M.regs.(pc := after)
  {
    var after := if isLong then Next(Next(M.regs.pc)) else Next(M.regs.pc);
    var r1 := M.regs.(pc := after);
    var B := DoBranch(M, Bsr, isLong);
    assert B.mem == CallMemory(r1, M.mem);
    CallThenReturn(r1, M.mem, B.regs.pc);
  }

  /** Every branch but BSR changes nothing but PC: the byte or word after the opcode, then the offset if taken. */
  lemma {:induction false} BranchMovesOnlyPc(M: Machine, bop: Byte, isLong: bool)
    requires bop != Bsr
    ensures var after := if isLong then Next(Next(M.regs.pc)) else Next(M.regs.pc);
      var operand := if isLong then WordAt(M.mem, M.regs.pc) else M.mem[M.regs.pc];
      DoBranch(M, bop, isLong) ==
        M.(regs := M.regs.(pc := if Taken(bop, M.regs.cc) then Wrap(after + Offset(isLong, operand)) else after))
  {}

  /**
   * RTI returns from an entry that saved every register on S with E set:
   * whatever the entry did to CC and PC afterwards, RTI restores all
   * registers and S.
   */
  lemma {:induction false} RtiAfterFullSave(r: Regs, m: Memory, cc: Cc, pc: Word)
    requires r.cc[EBit]
    ensures ReturnFromInterrupt(Machine(PushRegs(r, true, EveryRegister).(cc := cc, pc := pc), PushMemory(r, m, true, EveryRegister), State(false, false, false, 0, 0))).regs == r
  {
    var r2 := PushRegs(r, true, EveryRegister).(cc := cc, pc := pc);
    var m2 := PushMemory(r, m, true, EveryRegister);
    PullUndoesPush(r, m, true, EveryRegister);
    PullEveryOverwrites(PushRegs(r, true, EveryRegister), m2, cc, pc);
    assert Pull(r2, m2, true, 0xFF) == r;
    PullEvery(r2, m2);
    PullCcOnly(r2, m2);
    BitsOfByte(r.cc);
    var r1 := Pull(r2, m2, true, PullCc);
    assert r1.cc == r.cc;
    PullSplit(r2, m2);
  }

  /** RTI after an IRQ or NMI entry (saving every register) gives back the interrupted registers, with E set. */
  lemma {:induction false} RtiAfterInterrupt(M: Machine, irq: nat)
    requires irq == IrqBit || irq == NmiBit
    ensures ReturnFromInterrupt(ProcessInterrupt(M, irq)).regs == M.regs.(cc := M.regs.cc[EBit := true])
  {
    var r := M.regs.(cc := M.regs.cc[EBit := true]);
    var E := ProcessInterrupt(M, irq);
    RtiAfterFullSave(r, M.mem, E.regs.cc, E.regs.pc);
    assert E.regs == PushRegs(r, true, EveryRegister).(cc := E.regs.cc, pc := E.regs.pc);
  }

  /** RTI after SWI gives back the registers SWI saved, with E set. */
  lemma {:induction false} RtiAfterSwi(M: Machine)
    ensures ReturnFromInterrupt(SoftwareInterrupt(M, 1)).regs == M.regs.(cc := M.regs.cc[EBit := true])
  {
    var r := M.regs.(cc := M.regs.cc[EBit := true]);
    var E := SoftwareInterrupt(M, 1);
    RtiAfterFullSave(r, M.mem, E.regs.cc, E.regs.pc);
    assert E.regs == PushRegs(r, true, EveryRegister).(cc := E.regs.cc, pc := E.regs.pc);
  }

  /**
   * As written, IRQ and NMI save every register but CC, and RTI then takes
   * the saved A for CC: the flags after the return are the bits of A.
   */
  lemma {:induction false} RtiAfterInterruptAsWritten(M: Machine, irq: nat)
    requires irq == IrqBit || irq == NmiBit
    ensures ReturnFromInterrupt(ProcessInterruptAsWritten(M, irq)).regs.cc == BitsOf(M.regs.a)
  {
    var r := M.regs.(cc := M.regs.cc[EBit := true]);
    var E := ProcessInterruptAsWritten(M, irq);
    var top := Below(r.s, ImageSize(AllButCc));
    assert ImageSize(AllButCc) == 11;
    var image := PushImage(r, true, AllButCc);
    PushImageSize(r, true, AllButCc);
    assert image[0] == r.a;
    assert E.mem[top] == image[0] by {
      AboveBelow(top, 0);
    }
    PullCcOnly(E.regs, E.mem);
    var r1 := Pull(E.regs, E.mem, true, PullCc);
    assert r1.cc == BitsOf(M.regs.a);
    if r1.cc[EBit] {
      PullAllButCc(r1, E.mem);
    } else {
      PullPcOnly(r1, E.mem);
    }
  }

  /** RTI after a FIRQ entry (CC and PC saved, E clear) gives back the interrupted registers, with E clear. */
  lemma {:induction false} RtiAfterFastInterrupt(M: Machine)
    ensures ReturnFromInterrupt(FastInterrupt(M)).regs == M.regs.(cc := M.regs.cc[EBit := false])
  {
    var r := M.regs.(cc := M.regs.cc[EBit := false]);
    var E := FastInterrupt(M);
    PullUndoesPush(r, M.mem, true, 0x81);
    PullCcPc(PushRegs(r, true, 0x81), E.mem);
    PullCcOnly(E.regs, E.mem);
    var r1 := Pull(E.regs, E.mem, true, PullCc);
    BitsOfByte(r.cc);
    assert r1.cc == r.cc;
    PullPcOnly(r1, E.mem);
    assert Above(Next(E.regs.s), 2) == Above(E.regs.s, 3);
  }

  /** `interrupts &= ~(1 << IRQ_BIT)` on a lone IRQ request, and on NMI with IRQ. */
  lemma {:induction false} IrqMaskValues()
    ensures And8(2, 0xFD) == 0 && And8(3, 0xFD) == 1
  {
    ClearBitSubtracts(2, 1);
    ClearBitSubtracts(3, 1);
  }

  /** `interrupts &= ~(1 << FIRQ_BIT)` on a lone FIRQ request. */
  lemma {:induction false} FirqMaskValue()
    ensures And8(4, 0xFB) == 0
  {
    ClearBitSubtracts(4, 2);
  }

  /** `reg.cc &= 0xAF` in `reset_registers` clears F and I and keeps the other flags. */
  lemma {:induction false} ResetMaskClearsFI(cc: Cc)
    ensures BitsOf(And8(ByteOf(cc), 0xAF)) == cc[FBit := false][IBit := false]
  {
    assert BitsOf(0xAF) == [true, true, true, true, false, true, false, true];
    MaskClears(cc, 0xAF, cc[FBit := false][IBit := false]);
  }

  /** The machine with no request pending and none being served. */
  function Quiet(M: Machine): Machine {
    M.(state := M.state.(interrupts := 0, interruptState := IrqAsserted))
  }

  /** An IRQ request while I is set is cleared without being served: registers and memory stay as they were. */
  lemma {:induction false} MaskedIrqDropped(M: Machine)
    requires M.state.interrupts == 2 && M.regs.cc[IBit] && !M.state.isSync
    ensures ServiceInterrupts(M) == Quiet(M)
  {
    IrqMaskValues();
  }

  /** Likewise a FIRQ request while F is set. */
  lemma {:induction false} MaskedFirqDropped(M: Machine)
    requires M.state.interrupts == 4 && M.regs.cc[FBit] && !M.state.isSync
    ensures ServiceInterrupts(M) == Quiet(M)
  {
    FirqMaskValue();
  }

  /** An IRQ request while I is clear enters the IRQ routine and ends any wait. */
  lemma {:induction false} UnmaskedIrqServed(M: Machine)
    requires M.state.interrupts == 2 && !M.regs.cc[IBit]
    ensures var E := ProcessInterruptAsWritten(M, IrqBit);
      ServiceInterrupts(M) == E.(state := M.state.(waitForInterrupt := false, isSync := false, interrupts := 0, interruptState := IrqHandled))
  {
    IrqMaskValues();
  }

  /** A FIRQ request while F is clear enters the FIRQ routine and ends any wait. */
  lemma {:induction false} UnmaskedFirqServed(M: Machine)
    requires M.state.interrupts == 4 && !M.regs.cc[FBit]
    ensures var E := ProcessInterruptAsWritten(M, FirqBit);
      ServiceInterrupts(M) == E.(state := M.state.(waitForInterrupt := false, isSync := false, interrupts := 0, interruptState := IrqHandled))
  {
    FirqMaskValue();
  }

  /**
   * NMI and IRQ together: the NMI is entered first and sets I, so the IRQ
   * request is then cleared unserved; the NMI request stays.
   */
  lemma {:induction false} NmiMasksIrq(M: Machine)
    requires M.state.interrupts == 3 && !M.state.nmiDisarmed
    ensures var E := ProcessInterruptAsWritten(M, NmiBit);
      ServiceInterrupts(M) == E.(state := M.state.(waitForInterrupt := false, isSync := false, interrupts := 1, interruptState := IrqHandled))
  {
    IrqMaskValues();
    assert Bit(3, 0) && !Bit(3, 2) && Bit(3, 1);
  }

  /** While NMI is disarmed, as `init_cpu` leaves it, an NMI request changes nothing but marks the request seen. */
  lemma {:induction false} DisarmedNmiIgnored(M: Machine)
    requires M.state.interrupts == 1 && M.state.nmiDisarmed && !M.state.isSync
    ensures ServiceInterrupts(M) == M.(state := M.state.(interruptState := IrqAsserted))
  {
    assert Bit(1, 0) && !Bit(1, 1) && !Bit(1, 2);
  }

  /** `init_vectors`: vector `i` is the word at 0xFFFE - 2i, and memory below 0xFFF0 is untouched. */
  lemma {:induction false} VectorTableWords(m: Memory, vectors: seq<Word>)
    requires |vectors| == 8
    ensures forall i :: 0 <= i < 8 ==> WordAt(VectorTable(m, vectors), 0xFFFE - 2 * i) == vectors[i]
    ensures forall a :: 0 <= a < 0xFFF0 ==> VectorTable(m, vectors)[a] == m[a]
  {
    var m' := VectorTable(m, vectors);
    forall i | 0 <= i < 8 ensures WordAt(m', 0xFFFE - 2 * i) == vectors[i] {
      var a := 0xFFFE - 2 * i;
      DivModUnique(a, 2, 0x7FFF - i, 0);
      DivModUnique(a + 1, 2, 0x7FFF - i, 1);
      assert (0xFFFE - a) / 2 == i;
      assert (0xFFFF - (a + 1)) / 2 == i;
      assert Next(a) == a + 1;
      JoinSplit(vectors[i]);
    }
  }

  /** `reg.cc &= 0xAF` leaves no flag set when only F and I were. */
  lemma {:induction false} ResetMaskClearsAll(v: Byte)
    requires forall j :: 0 <= j < 8 && j != FBit && j != IBit ==> !Bit(v, j)
    ensures forall j :: 0 <= j < 8 ==> !BitsOf(And8(ByteOf(BitsOf(v)), 0xAF))[j]
  {
    ResetMaskClearsFI(BitsOf(v));
    var cleared := BitsOf(v)[FBit := false][IBit := false];
    forall j | 0 <= j < 8
      ensures !cleared[j]
    {
      ToBitsBit(v, 8, j);
    }
  }

  /** The CC `init_cpu` leaves: 0x50, then `reg.cc &= 0xAF`, so no flag is set. */
  lemma {:induction false} InitCpuFlags()
    ensures forall j :: 0 <= j < 8 ==> !BitsOf(And8(ByteOf(BitsOf(0x50)), 0xAF))[j]
  {
    assert !Bit(0x50, 0) && !Bit(0x50, 1) && !Bit(0x50, 2) && !Bit(0x50, 3) && !Bit(0x50, 5) && !Bit(0x50, 7);
    ResetMaskClearsAll(0x50);
  }

  /**
   * `init_cpu`: PC from the RESET vector, DP 0, no flag set (reset clears
   * the I and F that `init_cpu` had just set), no request pending, NMI
   * disarmed, memory untouched.
   */
  lemma {:induction false} InitCpuState(M: Machine)
    ensures var I := InitCpu(M);
      && I.regs.pc == WordAt(M.mem, ResetVector) && I.regs.dp == 0 && (forall j :: 0 <= j < 8 ==> !I.regs.cc[j])
      && I.state == State(false, false, true, 0, 0)
      && I.mem == M.mem
  {
    InitCpuFlags();
  }

  /** `init_cpu` after `init_vectors` starts at the first vector given. */
  lemma {:induction false} InitCpuAfterVectors(M: Machine, vectors: seq<Word>)
    requires |vectors| == 8
    ensures InitCpu(M.(mem := VectorTable(M.mem, vectors))).regs.pc == vectors[0]
  {
    VectorTableWords(M.mem, vectors);
    InitCpuState(M.(mem := VectorTable(M.mem, vectors)));
  }
}
