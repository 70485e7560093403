/**
 * How `process_next_instruction` routes an opcode (source/cpu.c:175-408):
 * prefix bytes 0x10 and 0x11 are read until a real opcode, then the
 * opcode's high digit (`msn`) and low digit (`lsn`) choose the operation
 * and the addressing mode.
 *
 * `DecodeAsWritten` follows the source's chain of tests and is what the
 * model executes; `Decode` is the routing the MC6809 opcode map calls for,
 * which differs from it in four places (README, Findings).
 */
module Dispatch {
  import opened Bytes
  import opened AddressSpace
  import opened Addressing
  import opened Instructions

  /** `OPCODE_EXTENDED_1`, `OPCODE_EXTENDED_2`: the prefix bytes. */
  predicate IsPrefix(b: Byte) { b == 0x10 || b == 0x11 }

  /** `NOP` */
  const Nop: Byte := 0x12

  /** The operation an opcode is routed to. */
  datatype Instruction =
    | NoOperation
    | Swi(number: Byte) | Cwai | Rti | Lea | Psh(hardware: bool) | Pul(hardware: bool) | Rts | Abx | Mul
    | Sync | Daa | Orcc | Andcc | Sex | Exg | Tfr
    | Undefined
    | BranchOp(bop: Byte, isLong: bool)
    | Arith(k: Binary) | Cmp | BitOp | Ld | St | Rmw(u: Unary) | Clr | Tst | Jmp | Jsr
    | AddWordOp | SubWordOp | CmpWordOp | LdWordOp | StWordOp

  /** The addressing mode the high digit selects; 1, 2 and 3 set none. */
  function ModeOf(opcode: Byte): Mode {
    var msn := opcode / 16;
    if msn == 0x8 || msn == 0xC then Immediate
    else if msn == 0x0 || msn == 0x9 || msn == 0xD then Direct
    else if msn == 0x6 || msn == 0xA || msn == 0xE then Indexed
    else if msn == 0x7 || msn == 0xB || msn == 0xF then Extended
    else if msn == 0x4 || msn == 0x5 then Inherent
    else Unknown
  }

  /**
   * The routing as the source writes it, for opcode `opcode` after prefix
   * `ex` (0 when there was none).
   */
  function DecodeAsWritten(ex: Byte, opcode: Byte): Instruction {
    var msn := opcode / 16;
    var lsn := opcode % 16;
    if opcode == Nop then NoOperation
    else if msn == 3 then
      if lsn == 0xF then Swi(ex)
      else if lsn == 0xC then Cwai
      else if lsn == 0xB then Rti
      else if lsn < 4 then Lea
      else if lsn == 4 then Psh(true)
      else if lsn == 6 then Psh(false)
      else if lsn == 5 then Pul(true)
      else if lsn == 7 then Pul(false)
      else if lsn == 9 then Rts
      else if lsn == 0xA then Abx
      else if lsn == 0xD then Mul
      else Undefined
    else if msn == 1 then
      if lsn == 3 then Sync
      else if lsn == 6 then BranchOp(0x20, true)
      else if lsn == 7 then BranchOp(0x8D, true)
      else if lsn == 9 then Daa
      else if lsn == 0xA then Orcc
      else if lsn == 0xC then Andcc
      else if lsn == 0xD then Sex
      else if lsn == 0xE then Exg
      else if lsn == 0xF then Tfr
      else Undefined
    else if msn == 2 || opcode == 0x8D then BranchOp(opcode, ex != 0)
    else if lsn == 0 then (if msn == 7 then Arith(SubOp) else Rmw(NegOp))
    else if lsn == 1 then Cmp
    else if lsn == 2 then Arith(SbcOp)
    else if lsn == 3 then (if msn > 0xB then AddWordOp else if msn > 7 then SubWordOp else Rmw(ComOp))
    else if lsn == 4 then (if msn < 8 then Rmw(LsrOp) else Arith(AndOp))
    else if lsn == 5 then BitOp
    else if lsn == 6 then (if msn < 8 then Rmw(RorOp) else Ld)
    else if lsn == 7 then (if msn < 8 then Rmw(AsrOp) else St)
    else if lsn == 8 then (if msn < 8 then Rmw(AslOp) else Arith(EorOp))
    else if lsn == 9 then (if msn < 8 then Rmw(RolOp) else Arith(AdcOp))
    else if lsn == 0xA then (if msn < 8 then Rmw(DecOp) else Arith(OrOp))
    else if lsn == 0xB then Arith(AddOp)
    else if lsn == 0xC then (if msn < 8 then Rmw(IncOp) else if msn > 0xB then LdWordOp else CmpWordOp)
    else if lsn == 0xD then (if msn < 8 then Tst else if msn > 0xB then StWordOp else Jsr)
    else if lsn == 0xE then (if msn < 8 then Jmp else LdWordOp)
    else (if msn < 8 then Clr else StWordOp)
  }

  /**
   * The routing the opcode map calls for: SWI, SWI2 and SWI3 get their
   * numbers; low digit 0 is NEG in the columns below 8 and SUB above
   * (the source sends only column 7 to SUB); CMPD and CMPU (low digit 3
   * after a prefix) compare instead of subtracting.
   */
  function Decode(ex: Byte, opcode: Byte): (i: Instruction)
    ensures opcode / 16 == 3 && opcode % 16 == 0xF ==> i == Swi(SwiNumber(ex))
    ensures opcode / 16 >= 4 && opcode % 16 == 0 ==> i == (if opcode < 0x80 then Rmw(NegOp) else Arith(SubOp))
    ensures 8 <= opcode / 16 <= 0xB && opcode % 16 == 3 ==> i == (if ex == 0 then SubWordOp else CmpWordOp)
  {
    var msn := opcode / 16;
    var lsn := opcode % 16;
    if msn == 3 && lsn == 0xF then Swi(SwiNumber(ex))
    else if msn >= 4 && lsn == 0 then (if msn < 8 then Rmw(NegOp) else Arith(SubOp))
    else if 8 <= msn <= 0xB && lsn == 3 && ex != 0 then CmpWordOp
    else DecodeAsWritten(ex, opcode)
  }

  /** As written, SUBA immediate negates the byte after it, NEG extended subtracts, and CMPD subtracts. */
  lemma DecodeAsWrittenMisroutes()
    ensures DecodeAsWritten(0, 0x80) == Rmw(NegOp) && Decode(0, 0x80) == Arith(SubOp)
    ensures DecodeAsWritten(0, 0x70) == Arith(SubOp) && Decode(0, 0x70) == Rmw(NegOp)
    ensures DecodeAsWritten(0x10, 0x83) == SubWordOp && Decode(0x10, 0x83) == CmpWordOp
    ensures DecodeAsWritten(0x10, 0x3F) == Swi(0x10) && Decode(0x10, 0x3F) == Swi(2)
  {}

  /** Everywhere else the two routings agree. */
  lemma {:induction false} DecodeAgrees(ex: Byte, opcode: Byte)
    requires opcode % 16 != 0 || opcode < 0x40
    requires opcode % 16 != 3 || ex == 0 || opcode < 0x80 || opcode >= 0xC0
    requires opcode != 0x3F
    ensures Decode(ex, opcode) == DecodeAsWritten(ex, opcode)
  {}

  /**
   * From column 8 on the high digit's two low bits give the mode as in the
   * opcode map: immediate, direct, indexed, extended; columns 0, 6 and 7
   * are direct, indexed and extended, and 4 and 5 inherent.
   */
  lemma {:induction false} ModeColumns(opcode: Byte)
    ensures var msn := opcode / 16;
      && (msn >= 8 ==> ModeOf(opcode) == [Immediate, Direct, Indexed, Extended][msn % 4])
      && (msn == 0 ==> ModeOf(opcode) == Direct)
      && (msn == 4 || msn == 5 <==> ModeOf(opcode) == Inherent)
      && (msn == 6 ==> ModeOf(opcode) == Indexed)
      && (msn == 7 ==> ModeOf(opcode) == Extended)
      && (1 <= msn <= 3 <==> ModeOf(opcode) == Unknown)
  {}

  /**
   * The thresholds the two-operand operations compare the opcode with pick
   * A exactly in columns 8 to B and B in columns C to F.
   */
  lemma {:induction false} AccumulatorColumns(ex: Byte, opcode: Byte)
    requires opcode >= 0x80
    ensures DecodeAsWritten(ex, opcode).Arith? ==> (opcode < FirstB(DecodeAsWritten(ex, opcode).k) <==> opcode < 0xC0)
    ensures DecodeAsWritten(ex, opcode) == Cmp ==> (opcode < 0xC1 <==> opcode < 0xC0)
    ensures DecodeAsWritten(ex, opcode) == BitOp ==> (opcode < 0xC5 <==> opcode < 0xC0)
    ensures DecodeAsWritten(ex, opcode) == Ld ==> (opcode < 0xC6 <==> opcode < 0xC0)
    ensures DecodeAsWritten(ex, opcode) == St && opcode != 0xC7 ==> (opcode < 0xD7 <==> opcode < 0xC0)
  {}

  /** In inherent mode the read-modify-write operations pick A exactly in column 4. */
  lemma {:induction false} InherentColumns(ex: Byte, opcode: Byte)
    requires ModeOf(opcode) == Inherent
    ensures DecodeAsWritten(ex, opcode).Rmw? ==> (opcode == OnA(DecodeAsWritten(ex, opcode).u) <==> opcode < 0x50)
    ensures DecodeAsWritten(ex, opcode) == Clr ==> (opcode == 0x4F <==> opcode < 0x50)
    ensures DecodeAsWritten(ex, opcode) == Tst ==> (opcode == 0x4D <==> opcode < 0x50)
  {}

  /**
   * The 16-bit loads and stores pick X/Y in columns 8 to B and D or U/S
   * above, as the opcode map has them (column C has no 16-bit stores).
   */
  lemma {:induction false} WordColumns(ex: Byte, opcode: Byte)
    requires opcode >= 0x80
    ensures DecodeAsWritten(ex, opcode) == LdWordOp ==>
      (opcode < 0xCC <==> opcode < 0xC0) && (opcode >= 0xC0 ==> (opcode % 16 == 0xE <==> opcode % 16 != 0xC))
    ensures DecodeAsWritten(ex, opcode) == StWordOp && opcode / 16 != 0xC ==>
      (opcode < 0xDD <==> opcode < 0xC0) && (opcode >= 0xC0 ==> (opcode % 16 == 0xF <==> opcode % 16 != 0xD))
  {}

  /** What reading the opcode leaves: the opcode, the last prefix before it (0 if none), PC past it; or no end to the prefixes. */
  datatype Fetch = Fetched(opcode: Byte, ex: Byte, pc: Word) | Endless(pc: Word)

  /**
   * The prefix loop after `n` prefix bytes with `opcode` just read and PC
   * past it. If all 64 KB have been read as prefixes the loop would read
   * them again for ever.
   */
  function Prefixed(m: Memory, pc: Word, opcode: Byte, ex: Byte, n: nat): Fetch
    requires n < MemorySize
    decreases MemorySize - n
  {
    if !IsPrefix(opcode) then Fetched(opcode, ex, pc)
    else if n + 1 == MemorySize then Endless(pc)
    else Prefixed(m, Next(pc), m[pc], opcode, n + 1)
  }

  /** Reading an opcode at `pc`, prefixes and all. */
  function FetchAt(m: Memory, pc: Word): Fetch {
    Prefixed(m, Next(pc), m[pc], 0, 0)
  }

  /** The prefix loop from address `pc`, with `n` prefixes already read. */
  lemma {:induction false} PrefixedAt(m: Memory, start: Word, n: nat)
    requires n < MemorySize
    requires forall k :: 0 <= k < n ==> IsPrefix(m[Above(start, k)])
    ensures var f := Prefixed(m, Next(Above(start, n)), m[Above(start, n)], if n == 0 then 0 else m[Above(start, n - 1)], n);
      f.Endless? <==> forall k :: n <= k < MemorySize ==> IsPrefix(m[Above(start, k)])
    decreases MemorySize - n
  {
    var pc := Above(start, n);
    assert Next(pc) == Above(start, n + 1) || n + 1 == MemorySize;
    if IsPrefix(m[pc]) && n + 1 < MemorySize {
      PrefixedAt(m, start, n + 1);
    }
  }

  /** The prefix loop runs for ever exactly when every byte of memory is 0x10 or 0x11. */
  lemma {:induction false} EndlessIffAllPrefixes(m: Memory, pc: Word)
    ensures FetchAt(m, pc).Endless? <==> forall a :: 0 <= a < MemorySize ==> IsPrefix(m[a])
  {
    PrefixedAt(m, pc, 0);
    if forall k :: 0 <= k < MemorySize ==> IsPrefix(m[Above(pc, k)]) {
      forall a | 0 <= a < MemorySize ensures IsPrefix(m[a]) {
        var k := Distance(pc, a);
        assert Above(pc, k) == a;
      }
    }
  }
}
