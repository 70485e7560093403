/**
 * One call of `process_next_instruction` (source/cpu.c:126-408): with the
 * CPU waiting or a request pending it only services interrupts; otherwise
 * it reads the opcode after any prefixes and performs the instruction the
 * opcode is routed to.
 */
module Execution {
  import opened Bytes
  import opened AddressSpace
  import opened Addressing
  import opened Instructions
  import opened Dispatch

  /**
   * What the call returns: 0 (no cycle counting), `BREAK_TO_MONITOR` on
   * RTI, nothing defined where the code runs off the end of the function
   * (NOP, and the `lsn == 0x0F` operations), or no return at all when the
   * prefix loop never ends (the machine is then the one the loop has
   * reached, with PC wherever the reading got to).
   */
  datatype Outcome = Cycles(n: nat) | BreakToMonitor | Unspecified | Hangs

  /** `BREAK_TO_MONITOR` */
  const BreakCode: Byte := 0xFF

  /** The machine after the instruction `instr`, opcode `op` after prefix `ex`, with PC just past the opcode. */
  function Perform(M: Machine, instr: Instruction, op: Byte, ex: Byte): Machine {
    if OnWord(instr) then PerformOnWord(M, instr, op, ex)
    else if OnByte(instr) then PerformOnByte(M, instr, op)
    else PerformInherent(M, instr, op)
  }

  /** The branches, jumps and 16-bit operations. */
  predicate OnWord(instr: Instruction) {
    || instr.BranchOp? || instr.Jmp? || instr.Jsr?
    || instr.AddWordOp? || instr.SubWordOp? || instr.CmpWordOp? || instr.LdWordOp? || instr.StWordOp?
  }

  /** The 8-bit operations on A, B or a memory byte. */
  predicate OnByte(instr: Instruction) {
    instr.Arith? || instr.Cmp? || instr.BitOp? || instr.Ld? || instr.St? || instr.Rmw? || instr.Clr? || instr.Tst?
  }

  /** The operations with one addressing mode of their own (the `msn == 1` and `msn == 3` groups, NOP), and opcodes routed nowhere. */
  function PerformInherent(M: Machine, instr: Instruction, op: Byte): Machine {
    if TakesPostByte(instr) then PerformWithPostByte(M, instr) else PerformBare(M, instr, op)
  }

  /** The inherent operations that read one more byte: a register list, a CC mask or a register pair. */
  predicate TakesPostByte(instr: Instruction) {
    instr.Psh? || instr.Pul? || instr.Orcc? || instr.Andcc? || instr.Exg? || instr.Tfr?
  }

  function PerformWithPostByte(M: Machine, instr: Instruction): Machine
    requires TakesPostByte(instr)
  {
    match instr
    case Psh(h) => PushRegisters(M, h)
    case Pul(h) => PullRegisters(M, h)
    case Orcc => OrCc(M)
    case Andcc => AndCc(M)
    case Exg => TransferRegisters(M, true)
    case Tfr => TransferRegisters(M, false)
  }

  function PerformBare(M: Machine, instr: Instruction, op: Byte): Machine {
    match instr
    case Swi(n) => SoftwareInterrupt(M, n)
    case Cwai => WaitForInterrupt(M)
    case Rti => ReturnFromInterrupt(M)
    case Lea => LoadEffectiveAddress(M, op)
    case Rts => ReturnFromSubroutine(M)
    case Abx => AddBToX(M)
    case Mul => MultiplyAB(M)
    case Sync => Synchronise(M)
    case Daa => DecimalAdjustA(M)
    case Sex => SignExtendB(M)
    case _ => M
  }

  /** The 8-bit operations, in the addressing mode of the opcode's high digit. */
  function PerformOnByte(M: Machine, instr: Instruction, op: Byte): Machine
    requires OnByte(instr)
  {
    var mode := ModeOf(op);
    match instr
    case Arith(k) => Accumulate(M, k, op, mode)
    case Cmp => CompareByte(M, op, mode)
    case BitOp => BitTest(M, op, mode)
    case Ld => LoadByte(M, op, mode)
    case St => StoreByte(M, op, mode)
    case Rmw(u) => Modify(M, u, op, mode)
    case Clr => Clear(M, op, mode)
    case Tst => TestByte(M, op, mode)
  }

  /** The branches, and the jumps and 16-bit operations in the addressing mode of the opcode's high digit. */
  function PerformOnWord(M: Machine, instr: Instruction, op: Byte, ex: Byte): Machine
    requires OnWord(instr)
  {
    var mode := ModeOf(op);
    match instr
    case BranchOp(bop, isLong) => DoBranch(M, bop, isLong)
    case Jmp => Jump(M, mode)
    case Jsr => JumpToSubroutine(M, mode)
    case AddWordOp => AddWord(M, mode)
    case SubWordOp => SubtractWord(M, mode)
    case CmpWordOp => CompareWord(M, op, ex, mode)
    case LdWordOp => LoadWord(M, op, ex, mode)
    case StWordOp => StoreWord(M, op, ex, mode)
  }

  /** The opcodes after which the function reaches its end without a `return`. */
  predicate FallsOff(op: Byte) {
    op == Nop || (op % 16 == 0xF && op / 16 != 1 && op / 16 != 2 && op / 16 != 3)
  }

  /**
   * `process_next_instruction()`. RTI returns to the monitor whenever no
   * request is pending, and a request pending means no opcode is fetched at
   * all, so RTI is never performed here.
   */
  function Step(M: Machine): (Machine, Outcome) {
    if M.state.waitForInterrupt || M.state.interrupts > 0 then (ServiceInterrupts(M), Cycles(0))
    else match FetchAt(M.mem, M.regs.pc)
      case Endless(pc) => (M.(regs := M.regs.(pc := pc)), Hangs)
      case Fetched(op, ex, pc) =>
        var M1 := M.(regs := M.regs.(pc := pc));
        var instr := DecodeAsWritten(ex, op);
        if instr == Rti then (M1, BreakToMonitor)
        else (Perform(M1, instr, op, ex), if FallsOff(op) then Unspecified else Cycles(0))
  }

  /** While the CPU waits or a request is pending, a step only services interrupts: no byte is fetched. */
  lemma {:induction false} StepServicesFirst(M: Machine)
    requires M.state.waitForInterrupt || M.state.interrupts > 0
    ensures Step(M).0 == ServiceInterrupts(M) && Step(M).1 == Cycles(0)
    ensures M.state.interrupts == 0 ==> Step(M).0 == M
  {}

  /**
   * RTI never returns from an interrupt here: met with no request pending
   * it breaks to the monitor, leaving everything but PC, which has passed
   * the opcode.
   */
  lemma {:induction false} RtiBreaksToMonitor(M: Machine)
    requires !M.state.waitForInterrupt && M.state.interrupts == 0
    requires M.mem[M.regs.pc] == 0x3B
    ensures Step(M) == (M.(regs := M.regs.(pc := Next(M.regs.pc))), BreakToMonitor)
  {
    assert FetchAt(M.mem, M.regs.pc) == Fetched(0x3B, 0, Next(M.regs.pc));
  }

  /** NOP changes nothing but PC, and the value returned for it is not defined. */
  lemma {:induction false} NopFallsOff(M: Machine)
    requires !M.state.waitForInterrupt && M.state.interrupts == 0
    requires M.mem[M.regs.pc] == Nop
    ensures Step(M) == (M.(regs := M.regs.(pc := Next(M.regs.pc))), Unspecified)
  {
    assert FetchAt(M.mem, M.regs.pc) == Fetched(Nop, 0, Next(M.regs.pc));
  }

  /** A step on an instruction with no prefix performs it with PC just past the opcode. */
  lemma {:induction false} StepPerforms(M: Machine)
    requires !M.state.waitForInterrupt && M.state.interrupts == 0
    requires !IsPrefix(M.mem[M.regs.pc]) && M.mem[M.regs.pc] != 0x3B
    ensures var op := M.mem[M.regs.pc];
      Step(M).0 == Perform(M.(regs := M.regs.(pc := Next(M.regs.pc))), DecodeAsWritten(0, op), op, 0)
    ensures Step(M).1 == (if FallsOff(M.mem[M.regs.pc]) then Unspecified else Cycles(0))
  {
    var op := M.mem[M.regs.pc];
    assert FetchAt(M.mem, M.regs.pc) == Fetched(op, 0, Next(M.regs.pc));
    assert DecodeAsWritten(0, op) != Rti;
  }

  /** A step hangs exactly when every byte of memory is a prefix and nothing is pending. */
  lemma {:induction false} StepHangs(M: Machine)
    ensures Step(M).1 == Hangs <==>
      !M.state.waitForInterrupt && M.state.interrupts == 0 && forall a :: 0 <= a < MemorySize ==> IsPrefix(M.mem[a])
  {
    EndlessIffAllPrefixes(M.mem, M.regs.pc);
  }
}
