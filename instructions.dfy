/**
 * What each MC6809 instruction of the emulator does to the machine: the
 * registers, the 64 KB memory and the emulator's state record
 * (source/cpu.c:628-1494 for the operations, 2321-2489 for LEA, PSH and
 * PUL, 2796-2860 for reset and the interrupt entries).
 *
 * Every function here takes the machine with PC just past the opcode and
 * gives the machine after the instruction; the methods of `Processor.Cpu`
 * are proved to change the real registers and memory this way. Each
 * function follows the source as written, also where it is evidently wrong;
 * for those places the intended behaviour is defined beside it and the two
 * are compared (README, Findings).
 */
module Instructions {
  import opened Bits
  import opened Bytes
  import opened ConditionCodes
  import opened Adder
  import opened Alu
  import opened Logic
  import opened Accumulator
  import opened Wide
  import opened Registers
  import opened AddressSpace
  import opened Stack
  import opened Addressing
  import opened Branch

  /** `STATE_6809` without `bus_state_pins`, which nothing reads. */
  datatype State = State(waitForInterrupt: bool, isSync: bool, nmiDisarmed: bool, interrupts: Byte, interruptState: Byte)

  /** The registers, the memory and the emulator state. */
  datatype Machine = Machine(regs: Regs, mem: Memory, state: State)

  /** `IRQ_STATE_ASSERTED`, `IRQ_STATE_HANDLED` */
  const IrqAsserted: Byte := 1
  const IrqHandled: Byte := 2

  /** `NMI_BIT`, `IRQ_BIT`, `FIRQ_BIT`, `RESET_BIT`: the bits of `state.interrupts`. */
  const NmiBit := 0
  const IrqBit := 1
  const FirqBit := 2
  const ResetBit := 3

  /** `SWI3_VECTOR` .. `RESET_VECTOR` */
  const Swi3Vector: Word := 0xFFF2
  const Swi2Vector: Word := 0xFFF4
  const FirqVector: Word := 0xFFF6
  const IrqVector: Word := 0xFFF8
  const Swi1Vector: Word := 0xFFFA
  const NmiVector: Word := 0xFFFC
  const ResetVector: Word := 0xFFFE

  /** `PUSH_PULL_CC_REG`, `PUSH_PULL_ALL_REGS`, `PUSH_PULL_EVERY_REG`, `PUSH_PULL_PC_REG` */
  const PullCc: Byte := 0x01
  const AllButCc: Byte := 0xFE
  const EveryRegister: Byte := 0xFF
  const PcOnly: Byte := 0x80

  /** The registers after `get_next_byte()`: PC one byte on. */
  function Advanced(r: Regs): Regs { r.(pc := Next(r.pc)) }

  /** The byte `get_next_byte()` returns. */
  function NextByte(M: Machine): Byte { M.mem[M.regs.pc] }

  /** The two-operand accumulator operations that go through one helper each. */
  datatype Binary = AdcOp | AddOp | AndOp | EorOp | OrOp | SbcOp | SubOp

  /** The helper each one calls: `add_with_carry`, `add_no_carry`, `do_and`, `do_xor`, `do_or`, `sub_with_carry`, `subtract`. */
  function BinaryResult(k: Binary, cc: Cc, value: Byte, amount: Byte): Result8 {
    match k
    case AdcOp => AddWithCarry(cc, value, amount)
    case AddOp => AddNoCarry(cc, value, amount)
    case AndOp => And(cc, value, amount)
    case EorOp => Xor(cc, value, amount)
    case OrOp => Or(cc, value, amount)
    case SbcOp => SubWithCarry(cc, value, amount)
    case SubOp => Subtract(cc, value, amount)
  }

  /** The first B opcode of each (`ADCB_immed` .. `SUBB_immed`): opcodes below it work on A. */
  function FirstB(k: Binary): Byte {
    match k
    case AdcOp => 0xC9
    case AddOp => 0xCB
    case AndOp => 0xC4
    case EorOp => 0xC8
    case OrOp => 0xCA
    case SbcOp => 0xC2
    case SubOp => 0xC0
  }

  /** `adc`, `add`, `and`, `eor`, `orr`, `sbc`, `sub`: A or B combined with the operand, flags from the helper. */
  function Accumulate(M: Machine, k: Binary, op: Byte, mode: Mode): Machine {
    var loc := OperandAt(M.regs, M.mem, mode);
    var r := loc.regs;
    var amount := M.mem[loc.address];
    if op < FirstB(k) then
      var res := BinaryResult(k, r.cc, r.a, amount);
      M.(regs := r.(a := res.value, cc := res.cc))
    else
      var res := BinaryResult(k, r.cc, r.b, amount);
      M.(regs := r.(b := res.value, cc := res.cc))
  }

  /** `cmp`: CMPA or CMPB (below `CMPB_immed`, 0xC1, it is A), only the flags of `subtract` kept. */
  function CompareByte(M: Machine, op: Byte, mode: Mode): Machine {
    var loc := OperandAt(M.regs, M.mem, mode);
    var r := loc.regs;
    M.(regs := r.(cc := Compare(r.cc, if op < 0xC1 then r.a else r.b, M.mem[loc.address])))
  }

  /** `bit`: BITA or BITB (below `BITB_immed`, 0xC5), only the flags of `do_and` kept. */
  function BitTest(M: Machine, op: Byte, mode: Mode): Machine {
    var loc := OperandAt(M.regs, M.mem, mode);
    var r := loc.regs;
    M.(regs := r.(cc := And(r.cc, if op < 0xC5 then r.a else r.b, M.mem[loc.address]).cc))
  }

  /** `ld`: LDA or LDB (below `LDB_immed`, 0xC6), flags as after a load. */
  function LoadByte(M: Machine, op: Byte, mode: Mode): Machine {
    var loc := OperandAt(M.regs, M.mem, mode);
    var r := loc.regs;
    var value := M.mem[loc.address];
    if op < 0xC6 then M.(regs := r.(a := value, cc := AfterLoad(r.cc, value, false)))
    else M.(regs := r.(b := value, cc := AfterLoad(r.cc, value, false)))
  }

  /** `st`: STA or STB (below `STB_direct`, 0xD7) written to the operand's address, flags as after a load. */
  function StoreByte(M: Machine, op: Byte, mode: Mode): Machine {
    var loc := OperandAt(M.regs, M.mem, mode);
    var r := loc.regs;
    var value := if op < 0xD7 then r.a else r.b;
    Machine(r.(cc := AfterLoad(r.cc, value, false)), M.mem[loc.address := value], M.state)
  }

  /** The read-modify-write operations with one operand. */
  datatype Unary = NegOp | ComOp | LsrOp | RorOp | AsrOp | AslOp | RolOp | DecOp | IncOp

  /** The helper each one calls: `negate`, `complement`, the shifts and rotates, `decrement`, `increment`. */
  function UnaryResult(k: Unary, cc: Cc, value: Byte): Result8 {
    match k
    case NegOp => Negate(cc, value)
    case ComOp => Complement(cc, value)
    case LsrOp => Lsr(cc, value)
    case RorOp => Ror(cc, value)
    case AsrOp => Asr(cc, value)
    case AslOp => Asl(cc, value)
    case RolOp => Rol(cc, value)
    case DecOp => Decrement(cc, value)
    case IncOp => Increment(cc, value)
  }

  /** The A form of each (`NEGA` .. `INCA`): in inherent mode any other opcode works on B. */
  function OnA(k: Unary): Byte {
    match k
    case NegOp => 0x40
    case ComOp => 0x43
    case LsrOp => 0x44
    case RorOp => 0x46
    case AsrOp => 0x47
    case AslOp => 0x48
    case RolOp => 0x49
    case DecOp => 0x4A
    case IncOp => 0x4C
  }

  /**
   * `neg`, `com`, `lsr`, `ror`, `asr`, `asl`, `rol`, `dec`, `inc`: in
   * inherent mode A (for the A opcode) or B is replaced; otherwise the byte
   * at the operand's address is.
   */
  function Modify(M: Machine, k: Unary, op: Byte, mode: Mode): Machine {
    var r := M.regs;
    if mode == Inherent then
      if op == OnA(k) then
        var res := UnaryResult(k, r.cc, r.a);
        M.(regs := r.(a := res.value, cc := res.cc))
      else
        var res := UnaryResult(k, r.cc, r.b);
        M.(regs := r.(b := res.value, cc := res.cc))
    else
      var loc := OperandAt(r, M.mem, mode);
      var res := UnaryResult(k, loc.regs.cc, M.mem[loc.address]);
      Machine(loc.regs.(cc := res.cc), M.mem[loc.address := res.value], M.state)
  }

  /** `clr`: A (for `CLRA`, 0x4F), B, or the byte at the operand's address set to 0; Z set, N, V, C cleared. */
  function Clear(M: Machine, op: Byte, mode: Mode): Machine {
    var r := M.regs;
    if mode == Inherent then
      var r' := if op == 0x4F then r.(a := 0) else r.(b := 0);
      M.(regs := r'.(cc := AfterClear(r.cc)))
    else
      var loc := OperandAt(r, M.mem, mode);
      Machine(loc.regs.(cc := AfterClear(r.cc)), M.mem[loc.address := 0], M.state)
  }

  /** `tst`: the flags of `test` for A (for `TSTA`, 0x4D), B, or the byte at the operand's address. */
  function TestByte(M: Machine, op: Byte, mode: Mode): Machine {
    var r := M.regs;
    if mode == Inherent then M.(regs := r.(cc := Test(r.cc, if op == 0x4D then r.a else r.b)))
    else
      var loc := OperandAt(r, M.mem, mode);
      M.(regs := loc.regs.(cc := Test(r.cc, M.mem[loc.address])))
  }

  /** The registers with D (A and B) set to a word. */
  function WithD(r: Regs, value: Word): Regs { r.(a := Hi(value), b := Lo(value)) }

  /**
   * `add_16`, ADDD: D plus the word at the operand. The operand comes from
   * `address_from_mode` alone, so an immediate word leaves PC on its second
   * byte.
   */
  function AddWord(M: Machine, mode: Mode): Machine {
    var loc := OperandAt(M.regs, M.mem, mode);
    var res := AddD(loc.regs.cc, D(loc.regs), WordAt(M.mem, loc.address));
    M.(regs := WithD(loc.regs, res.value).(cc := res.cc))
  }

  /**
   * `sub_16`, SUBD: D minus the word at the operand as `SubDAsWritten`
   * computes it (C the carry of the internal addition), with an immediate
   * word leaving PC on its second byte as in `add_16`.
   */
  function SubtractWord(M: Machine, mode: Mode): Machine {
    var loc := OperandAt(M.regs, M.mem, mode);
    var res := SubDAsWritten(loc.regs.cc, D(loc.regs), WordAt(M.mem, loc.address));
    M.(regs := WithD(loc.regs, res.value).(cc := res.cc))
  }

  /**
   * The register `cmp_16` compares as written: D, unless the opcode is 0x83
   * with prefix 0x11 (U) or is `CMPX_immed`, 0x8C (X, Y with prefix 0x10, S
   * with prefix 0x11).
   */
  function CompareTargetAsWritten(r: Regs, op: Byte, ex: Byte): Word {
    if op == 0x8C then (if ex == 0 then r.x else if ex == 0x10 then r.y else r.s)
    else if op == 0x83 && ex == 0x11 then r.u
    else D(r)
  }

  /**
   * The register a 16-bit compare is evidently meant to use, in every mode:
   * CMPD and CMPU share low digit 3 (U with prefix 0x11); CMPX, CMPY and
   * CMPS share low digit 0xC (no prefix, 0x10, 0x11).
   */
  function CompareTarget(r: Regs, op: Byte, ex: Byte): Word {
    if op % 16 == 0xC then (if ex == 0 then r.x else if ex == 0x10 then r.y else r.s)
    else if ex == 0x11 then r.u
    else D(r)
  }

  /** CMPX in direct mode (0x9C) compares D as written, and X as intended. */
  lemma CompareTargetDiffers(r: Regs)
    ensures CompareTargetAsWritten(r, 0x9C, 0) == D(r)
    ensures CompareTarget(r, 0x9C, 0) == r.x
  {}

  /** On the immediate forms the two choices agree. */
  lemma CompareTargetImmediate(r: Regs, ex: Byte)
    requires ex == 0 || ex == 0x10 || ex == 0x11
    ensures CompareTargetAsWritten(r, 0x8C, ex) == CompareTarget(r, 0x8C, ex)
    ensures CompareTargetAsWritten(r, 0x83, ex) == CompareTarget(r, 0x83, ex)
  {}

  /**
   * The intended target does not depend on the addressing mode: each of
   * CMPD, CMPU, CMPX, CMPY and CMPS compares in every mode the register it
   * compares in immediate mode, where the source picks it correctly.
   */
  lemma {:induction false} CompareTargetEveryMode(r: Regs, op: Byte, ex: Byte)
    requires op / 16 in {8, 9, 0xA, 0xB} && (op % 16 == 3 || op % 16 == 0xC)
    requires ex == 0 || ex == 0x10 || ex == 0x11
    ensures CompareTarget(r, op, ex) == CompareTargetAsWritten(r, 0x80 + op % 16, ex)
    ensures op % 16 == 0xC ==> CompareTarget(r, op, ex) == (if ex == 0 then r.x else if ex == 0x10 then r.y else r.s)
  {
    assert (0x80 + op % 16) % 16 == op % 16;
  }

  /** `cmp_16`: only the flags of `subtract_16` of the operand word from the register `CompareTargetAsWritten` picks. */
  function CompareWord(M: Machine, op: Byte, ex: Byte, mode: Mode): Machine {
    var loc := WideOperand(M.regs, M.mem, mode);
    var r := loc.regs;
    M.(regs := r.(cc := Compare16(r.cc, CompareTargetAsWritten(r, op, ex), WordAt(M.mem, loc.address))))
  }

  /**
   * `ld_16`: below 0xCC, X (Y with prefix 0x10); low digit 0xE, U (S with
   * prefix 0x10); otherwise D, through the scratch `reg.d` into A and B.
   */
  function LoadWord(M: Machine, op: Byte, ex: Byte, mode: Mode): Machine {
    var loc := WideOperand(M.regs, M.mem, mode);
    var r := loc.regs;
    var value := WordAt(M.mem, loc.address);
    var r' :=
      if op < 0xCC then (if ex == 0x10 then r.(y := value) else r.(x := value))
      else if op % 16 == 0xE then (if ex == 0x10 then r.(s := value) else r.(u := value))
      else WithD(r.(d := value), value);
    M.(regs := r'.(cc := AfterLoad(r.cc, value, true)))
  }

  /** The register `st_16` stores: below `STD_direct` (0xDD) X or Y, low digit 0xF U or S, otherwise D. */
  function StoredWord(r: Regs, op: Byte, ex: Byte): Word {
    if op < 0xDD then (if ex == 0x10 then r.y else r.x)
    else if op % 16 == 0xF then (if ex == 0x10 then r.s else r.u)
    else D(r)
  }

  /** `st_16`: the register's high byte at the operand's address and its low byte after it; flags as after a load. */
  function StoreWord(M: Machine, op: Byte, ex: Byte, mode: Mode): Machine {
    var loc := OperandAt(M.regs, M.mem, mode);
    var r := loc.regs;
    var value := StoredWord(r, op, ex);
    var r' := if op < 0xDD || op % 16 == 0xF then r else r.(d := value);
    Machine(r'.(cc := AfterLoad(r.cc, value, true)),
            M.mem[loc.address := Hi(value)][Next(loc.address) := Lo(value)], M.state)
  }

  /** `jmp`: PC set to the operand's address. */
  function Jump(M: Machine, mode: Mode): Machine {
    var loc := OperandAt(M.regs, M.mem, mode);
    M.(regs := loc.regs.(pc := loc.address))
  }

  /** The memory after `jsr` and BSR store the return address: its low byte at S-1, its high byte at S-2. */
  function CallMemory(r: Regs, m: Memory): Memory {
    m[Prev(r.s) := Lo(r.pc)][Prev(Prev(r.s)) := Hi(r.pc)]
  }

  /** `jsr`: the return address (PC past the operand) stored below S, PC set to the operand's address. */
  function JumpToSubroutine(M: Machine, mode: Mode): Machine {
    var loc := OperandAt(M.regs, M.mem, mode);
    var r := loc.regs;
    Machine(r.(s := Prev(Prev(r.s)), pc := loc.address), CallMemory(r, M.mem), M.state)
  }

  /**
   * `do_branch(bop, is_long)`: a signed offset (one byte, or two for a long
   * branch) read after the opcode; BSR stores the return address as JSR
   * does; PC moves by the offset if the branch is taken.
   */
  function DoBranch(M: Machine, bop: Byte, isLong: bool): Machine {
    var r := M.regs;
    var operand := if isLong then WordAt(M.mem, r.pc) else M.mem[r.pc];
    var after := if isLong then Next(Next(r.pc)) else Next(r.pc);
    var offset := Offset(isLong, operand);
    var r1 := r.(pc := after);
    var M1 := if bop == Bsr then Machine(r1.(s := Prev(Prev(r1.s))), CallMemory(r1, M.mem), M.state) else M.(regs := r1);
    if Taken(bop, r.cc) then M1.(regs := M1.regs.(pc := Wrap(after + offset))) else M1
  }

  /** `push(to_hardware, post_byte)` on the registers and memory. */
  function PushOnto(M: Machine, hardware: bool, postByte: Byte): Machine {
    Machine(PushRegs(M.regs, hardware, postByte), PushMemory(M.regs, M.mem, hardware, postByte), M.state)
  }

  /** PSHS (hardware) or PSHU: the post-byte read after the opcode, then `push`. */
  function PushRegisters(M: Machine, hardware: bool): Machine {
    PushOnto(M.(regs := Advanced(M.regs)), hardware, NextByte(M))
  }

  /** PULS (hardware) or PULU: the post-byte read after the opcode, then `pull`. */
  function PullRegisters(M: Machine, hardware: bool): Machine {
    M.(regs := Pull(Advanced(M.regs), M.mem, hardware, NextByte(M)))
  }

  /** `rts`: PC pulled from S. */
  function ReturnFromSubroutine(M: Machine): Machine {
    M.(regs := Pull(M.regs, M.mem, true, PcOnly))
  }

  /** `rti`: CC pulled from S, then every other register if E is set in it, or PC alone if not. */
  function ReturnFromInterrupt(M: Machine): Machine {
    var r1 := Pull(M.regs, M.mem, true, PullCc);
    M.(regs := Pull(r1, M.mem, true, if r1.cc[EBit] then AllButCc else PcOnly))
  }

  /** `abx`: X plus B, unsigned, in 16 bits. */
  function AddBToX(M: Machine): Machine {
    M.(regs := M.regs.(x := Wrap(M.regs.x + M.regs.b)))
  }

  /** `mul`: D becomes A times B, flags from `Multiply`. */
  function MultiplyAB(M: Machine): Machine {
    var res := Multiply(M.regs.cc, M.regs.a, M.regs.b);
    M.(regs := WithD(M.regs, res.value).(cc := res.cc))
  }

  /** `sex`: A from the sign of B. */
  function SignExtendB(M: Machine): Machine {
    var res := SignExtend(M.regs.cc, M.regs.b);
    M.(regs := M.regs.(a := res.value, cc := res.cc))
  }

  /** `daa`: A adjusted as `DecimalAdjustAsWritten` does it. */
  function DecimalAdjustA(M: Machine): Machine {
    var res := DecimalAdjustAsWritten(M.regs.cc, M.regs.a);
    M.(regs := M.regs.(a := res.value, cc := res.cc))
  }

  /** ANDCC: CC ANDed with the byte after the opcode. */
  function AndCc(M: Machine): Machine {
    var r := Advanced(M.regs);
    M.(regs := r.(cc := BitsOf(And8(ByteOf(r.cc), NextByte(M)))))
  }

  /** ORCC: CC ORed with the byte after the opcode. */
  function OrCc(M: Machine): Machine {
    var r := Advanced(M.regs);
    M.(regs := r.(cc := BitsOf(Or8(ByteOf(r.cc), NextByte(M)))))
  }

  /** `cwai`: CC ANDed with the byte after the opcode, E set, every register pushed on S, and the CPU waiting. */
  function WaitForInterrupt(M: Machine): Machine {
    var r := Advanced(M.regs);
    var r' := r.(cc := BitsOf(And8(ByteOf(r.cc), NextByte(M)))[EBit := true]);
    var pushed := PushOnto(M.(regs := r'), true, EveryRegister);
    pushed.(state := pushed.state.(waitForInterrupt := true))
  }

  /** `sync`: the CPU waits, in SYNC. */
  function Synchronise(M: Machine): Machine {
    M.(state := M.state.(waitForInterrupt := true, isSync := true))
  }

  /** EXG (swap) or TFR: `transfer_decode2` on the post-byte after the opcode. */
  function TransferRegisters(M: Machine, isSwap: bool): Machine {
    M.(regs := Transfer(Advanced(M.regs), NextByte(M), isSwap))
  }

  /** `lea`: the indexed address of the post-byte after the opcode into the register of `op & 3`. */
  function LoadEffectiveAddress(M: Machine, op: Byte): Machine {
    var loc := IndexedAddress(Advanced(M.regs), M.mem, NextByte(M));
    M.(regs := LoadEffective(loc.regs, loc.address, op % 4))
  }

  /**
   * `swi(number)`: E set and every register pushed on S; then for SWI1 I
   * and F set and PC from its vector, for SWI2 and SWI3 PC from theirs, and
   * for any other number nothing more.
   */
  function SoftwareInterrupt(M: Machine, number: Byte): Machine {
    var pushed := PushOnto(M.(regs := M.regs.(cc := M.regs.cc[EBit := true])), true, EveryRegister);
    var r := pushed.regs;
    if number == 1 then pushed.(regs := r.(cc := r.cc[IBit := true][FBit := true], pc := WordAt(pushed.mem, Swi1Vector)))
    else if number == 2 then pushed.(regs := r.(pc := WordAt(pushed.mem, Swi2Vector)))
    else if number == 3 then pushed.(regs := r.(pc := WordAt(pushed.mem, Swi3Vector)))
    else pushed
  }

  /** The SWI number the prefix byte evidently selects: none for SWI, 0x10 for SWI2, 0x11 for SWI3. */
  function SwiNumber(ex: Byte): Byte {
    if ex == 0x10 then 2 else if ex == 0x11 then 3 else 1
  }

  /** The vector SWI, SWI2 and SWI3 take on the MC6809. */
  function SwiVector(ex: Byte): Word {
    if ex == 0x10 then Swi2Vector else if ex == 0x11 then Swi3Vector else Swi1Vector
  }

  /**
   * With the number the prefix selects, SWI, SWI2 and SWI3 save every
   * register with E set, take PC from their own vector, and only SWI masks
   * IRQ and FIRQ.
   */
  lemma {:induction false} SoftwareInterruptVectors(M: Machine, ex: Byte)
    requires ex == 0 || ex == 0x10 || ex == 0x11
    ensures var pushed := PushOnto(M.(regs := M.regs.(cc := M.regs.cc[EBit := true])), true, EveryRegister);
      var E := SoftwareInterrupt(M, SwiNumber(ex));
      && E.mem == pushed.mem
      && E.regs.pc == WordAt(pushed.mem, SwiVector(ex))
      && E.regs.(pc := pushed.regs.pc, cc := pushed.regs.cc) == pushed.regs
      && (ex == 0 ==> E.regs.cc == pushed.regs.cc[IBit := true][FBit := true])
      && (ex != 0 ==> E.regs.cc == pushed.regs.cc)
  {}

  /**
   * The dispatcher passes the prefix byte itself (0, 0x10 or 0x11) as the
   * number, so SWI, SWI2 and SWI3 push the registers and go on with the
   * next instruction, interrupts unmasked.
   */
  lemma SoftwareInterruptAsWritten(M: Machine, ex: Byte)
    requires ex == 0 || ex == 0x10 || ex == 0x11
    ensures SoftwareInterrupt(M, ex).regs.pc == M.regs.pc
    ensures SoftwareInterrupt(M, ex).regs.cc[IBit] == M.regs.cc[IBit]
  {}

  /**
   * `process_interrupt(FIRQ_BIT)`: E cleared, CC and PC pushed on S, F and
   * I set, PC from the FIRQ vector.
   */
  function FastInterrupt(M: Machine): Machine {
    var pushed := PushOnto(M.(regs := M.regs.(cc := M.regs.cc[EBit := false])), true, 0x81);
    var r := pushed.regs;
    pushed.(regs := r.(cc := r.cc[FBit := true][IBit := true], pc := WordAt(pushed.mem, FirqVector)))
  }

  /**
   * An IRQ or NMI entry: E set, the registers of `saved` pushed on S, I set
   * (and F for an NMI), PC from the vector. The source saves
   * `PUSH_PULL_ALL_REGS` (0xFE), which leaves CC out; the entry RTI can
   * return from saves 0xFF.
   */
  function EntireInterrupt(M: Machine, saved: Byte, isNmi: bool, vector: Word): Machine {
    var pushed := PushOnto(M.(regs := M.regs.(cc := M.regs.cc[EBit := true])), true, saved);
    var r := pushed.regs;
    var cc := if isNmi then r.cc[FBit := true][IBit := true] else r.cc[IBit := true];
    pushed.(regs := r.(cc := cc, pc := WordAt(pushed.mem, vector)))
  }

  /** `process_interrupt(irq)` as intended, with every register saved; a RESET request does nothing. */
  function ProcessInterrupt(M: Machine, irq: nat): Machine {
    if irq == FirqBit then FastInterrupt(M)
    else if irq == IrqBit then EntireInterrupt(M, EveryRegister, false, IrqVector)
    else if irq == NmiBit then EntireInterrupt(M, EveryRegister, true, NmiVector)
    else M
  }

  /** `process_interrupt(irq)` as written: IRQ and NMI save 0xFE, every register but CC; a RESET request does nothing. */
  function ProcessInterruptAsWritten(M: Machine, irq: nat): Machine {
    if irq == FirqBit then FastInterrupt(M)
    else if irq == IrqBit then EntireInterrupt(M, AllButCc, false, IrqVector)
    else if irq == NmiBit then EntireInterrupt(M, AllButCc, true, NmiVector)
    else M
  }

  /** `process_interrupt(irq)` followed by `state.interrupt_state = IRQ_STATE_HANDLED`. */
  function Served(M: Machine, irq: nat): Machine {
    var e := ProcessInterruptAsWritten(M, irq);
    e.(state := e.state.(interruptState := IrqHandled))
  }

  /** The NMI test: served unless disarmed; its request bit is left set. */
  function NmiStage(M: Machine): Machine {
    if Bit(M.state.interrupts, NmiBit) && !M.state.nmiDisarmed then Served(M, NmiBit) else M
  }

  /**
   * The FIRQ (request bit 2, mask F, `clear` 0xFB) or IRQ (request bit 1,
   * mask I, `clear` 0xFD) test: a pending request is cleared, and served
   * if its mask bit is clear.
   */
  function MaskableStage(M: Machine, irq: nat, clear: Byte, mask: nat): Machine
    requires mask < 8
  {
    if Bit(M.state.interrupts, irq) then
      var cleared := M.(state := M.state.(interrupts := And8(M.state.interrupts, clear)));
      if !cleared.regs.cc[mask] then Served(cleared, irq) else cleared
    else M
  }

  /** A served request, or any request in SYNC, ends CWAI's or SYNC's wait. */
  function EndWait(M: Machine): Machine {
    if M.state.interruptState == IrqHandled || M.state.isSync then
      M.(state := M.state.(waitForInterrupt := false, isSync := false))
    else M
  }

  /**
   * The interrupt half of `process_next_instruction`, run when the CPU
   * waits or a request is pending: with requests pending, an NMI is served
   * unless disarmed (its request bit stays), a FIRQ request is cleared and
   * served if F is clear, an IRQ request is cleared and served if I is
   * clear; a served request, or any request in SYNC, ends the wait.
   */
  function ServiceInterrupts(M: Machine): Machine {
    if M.state.interrupts == 0 then M
    else
      var M0 := M.(state := M.state.(interruptState := IrqAsserted));
      EndWait(MaskableStage(MaskableStage(NmiStage(M0), FirqBit, 0xFB, FBit), IrqBit, 0xFD, IBit))
  }

  /** `reset_registers()`: DP 0, F and I cleared (`cc &= 0xAF`), PC from the reset vector. */
  function ResetRegisters(M: Machine): Machine {
    M.(regs := M.regs.(dp := 0, cc := BitsOf(And8(ByteOf(M.regs.cc), 0xAF)), pc := WordAt(M.mem, ResetVector)))
  }

  /** `clear_all_registers()`: every register 0 except S and U, which are 0x8000; the scratch D is not touched. */
  function ClearAllRegisters(M: Machine): Machine {
    M.(regs := Regs(0, 0, M.regs.d, 0, 0, 0x8000, 0x8000, 0, BitsOf(0), 0))
  }

  /** `init_cpu()`: state cleared with NMI disarmed, CC 0x50 (I and F), then `reset_registers()`. */
  function InitCpu(M: Machine): Machine {
    ResetRegisters(Machine(M.regs.(cc := BitsOf(0x50)), M.mem, State(false, false, true, 0, 0)))
  }

  /**
   * The memory after `init_vectors(vectors)`: vector `i` stored high byte
   * first at 0xFFFE - 2i, so the eight vectors fill 0xFFF0..0xFFFF with
   * vector 0 (RESET) at the top.
   */
  function VectorTable(m: Memory, vectors: seq<Word>): (m': Memory)
    requires |vectors| == 8
  {
    seq(MemorySize, (a: int) requires 0 <= a < MemorySize =>
      if a < 0xFFF0 then m[a]
      else if a % 2 == 0 then Hi(vectors[(0xFFFE - a) / 2])
      else Lo(vectors[(0xFFFF - a) / 2]))
  }
}
