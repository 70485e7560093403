/**
 * Effective addresses of the emulated MC6809 (`address_from_mode`,
 * `address_from_next_two_bytes`, `address_from_dpr` and `indexed_address`,
 * source/cpu.c:2517-2758).
 *
 * Each function takes the registers and memory before the operand is read
 * and gives the operand's address with the registers after reading it: PC
 * past the operand bytes and, for the auto-increment and auto-decrement
 * modes, the index register moved.
 */
module Addressing {
  import opened Bits
  import opened Bytes
  import opened ConditionCodes
  import opened Registers
  import opened AddressSpace

  /** `MODE_UNKNOWN` .. `MODE_INHERENT` (source/cpu.h:26-31). */
  datatype Mode = Unknown | Immediate | Direct | Indexed | Extended | Inherent

  /** An operand's address and the registers after fetching it. */
  datatype Located = Located(address: Word, regs: Regs)

  /** `address_from_next_two_bytes()`: the word at PC, with PC moved past it. */
  function NextTwoBytes(r: Regs, m: Memory): Located {
    Located(WordAt(m, r.pc), r.(pc := Next(Next(r.pc))))
  }

  /**
   * An 8-bit constant offset as `indexed_address` computes it: the byte is
   * read into an `int8_t`, which is already negative for 0x80..0xFF, and
   * 256 is subtracted again when its sign bit is set.
   */
  function Offset8AsWritten(b: Byte): (n: int)
    ensures b < 0x80 ==> n == b
    ensures b >= 0x80 ==> n == b - 512
  {
    var value := Signed8(b);
    if value < 0 then value - 256 else value
  }

  /**
   * A negative 8-bit offset lands 256 bytes below the signed reading of the
   * byte: `n,X` with n = 0xFF and X = 0x1000 gives 0x0EFF, not 0x0FFF.
   */
  lemma Offset8AsWrittenMisses()
    ensures Offset8AsWritten(0xFF) == -257
    ensures Wrap(0x1000 + Offset8AsWritten(0xFF)) == 0x0EFF
    ensures forall b: Byte :: b >= 0x80 ==> Offset8AsWritten(b) == Offset8(b) - 256
  {}

  /** An 8-bit constant offset read as the two's-complement byte it is: -128..127. */
  function Offset8(b: Byte): (n: int)
    ensures -128 <= n < 128
    ensures Wrap8(n) == b
  {
    Signed8(b)
  }

  /** The 5-bit offset in the low bits of a post-byte with bit 7 clear: -16..15. */
  function Offset5(postByte: Byte): (n: int)
    ensures -16 <= n < 16
    ensures (n - postByte) % 32 == 0
  {
    var op := postByte % 32;
    if op >= 16 then op - 32 else op
  }

  /** The index register field of a post-byte: `(post_byte & 0x60) >> 5`. */
  function IndexOf(postByte: Byte): IndexCode { postByte / 32 % 4 }

  /**
   * `indexed_address(post_byte)` for the post-byte already read (PC past it).
   * Bit 7 clear: the register plus a 5-bit offset. Otherwise the low five bits
   * pick the mode; the ones above 16 are indirect, reading the address from
   * the word at the computed one. Codes the source has no case for use the
   * register itself. The 8-bit constant and PC-relative offsets are those of
   * `Offset8AsWritten`, as the source computes them.
   */
  function IndexedAddress(r: Regs, m: Memory, postByte: Byte): Located {
    var op := postByte % 32;
    if postByte < 0x80 then Located(Wrap(RegisterValue(r, IndexOf(postByte)) + Offset5(postByte)), r)
    else
      var direct := IndexedForm(r, m, IndexOf(postByte), op);
      if op > 16 then Located(WordAt(m, direct.address), direct.regs) else direct
  }

  /**
   * The address an indexed mode computes before any indirection, for the
   * low five bits `op` of a post-byte with bit 7 set and the register `code`
   * it names.
   */
  function IndexedForm(r: Regs, m: Memory, code: IndexCode, op: int): Located {
    var base := RegisterValue(r, code);
    if op == 0 then Located(base, IncrementRegister(r, code, 1))
    else if op == 1 || op == 17 then Located(base, IncrementRegister(r, code, 2))
    else if op == 2 then
      var r' := IncrementRegister(r, code, -1);
      Located(RegisterValue(r', code), r')
    else if op == 3 || op == 19 then
      var r' := IncrementRegister(r, code, -2);
      Located(RegisterValue(r', code), r')
    else if op == 5 || op == 21 then Located(Wrap(base + Signed8(r.b)), r)
    else if op == 6 || op == 22 then Located(Wrap(base + Signed8(r.a)), r)
    else if op == 8 || op == 24 then Located(Wrap(base + Offset8AsWritten(m[r.pc])), r.(pc := Next(r.pc)))
    else if op == 9 || op == 25 then Located(Wrap(base + Signed16(WordAt(m, r.pc))), r.(pc := Next(Next(r.pc))))
    else if op == 11 || op == 27 then Located(Wrap(base + Signed16(D(r))), r)
    else if op == 12 || op == 28 then Located(Wrap(Next(r.pc) + Offset8AsWritten(m[r.pc])), r.(pc := Next(r.pc)))
    else if op == 13 || op == 29 then Located(Wrap(Next(Next(r.pc)) + Signed16(WordAt(m, r.pc))), r.(pc := Next(Next(r.pc))))
    else if op == 31 then NextTwoBytes(r, m)
    else Located(base, r)
  }

  /**
   * `address_from_mode(mode)` on entry with PC at the operand: immediate is
   * PC itself; direct is DP:the byte at PC; indexed reads a post-byte;
   * extended, and any other mode, is the word at PC.
   */
  function OperandAt(r: Regs, m: Memory, mode: Mode): Located {
    match mode
    case Immediate => Located(r.pc, r.(pc := Next(r.pc)))
    case Direct => Located(Join(r.dp, m[r.pc]), r.(pc := Next(r.pc)))
    case Indexed => IndexedAddress(r.(pc := Next(r.pc)), m, m[r.pc])
    case _ => NextTwoBytes(r, m)
  }

  /**
   * The address of a 16-bit operand: `address_from_mode` followed, for an
   * immediate operand, by the extra `reg.pc++` that `ld_16` and `cmp_16` add
   * so that PC passes both bytes.
   */
  function WideOperand(r: Regs, m: Memory, mode: Mode): (loc: Located)
    ensures mode == Immediate ==> loc.address == r.pc && loc.regs == r.(pc := Next(Next(r.pc)))
  {
    var loc := OperandAt(r, m, mode);
    if mode == Immediate then Located(loc.address, loc.regs.(pc := Next(loc.regs.pc))) else loc
  }

  /**
   * `add_16` and `sub_16` use `address_from_mode` alone, so an immediate
   * operand leaves PC on its second byte, which is then fetched as the next
   * opcode.
   */
  lemma WideImmediateAsWritten(r: Regs, m: Memory)
    ensures OperandAt(r, m, Immediate).address == r.pc
    ensures OperandAt(r, m, Immediate).regs.pc == Next(r.pc)
    ensures WideOperand(r, m, Immediate).regs.pc == Next(OperandAt(r, m, Immediate).regs.pc)
  {}

  /**
   * The non-indexed modes move only PC: one byte for immediate and direct,
   * two for extended (and any mode the dispatcher does not set); the address
   * is PC, DP:byte or the word at PC.
   */
  lemma {:induction false} OperandAtMeaning(r: Regs, m: Memory, mode: Mode)
    requires mode != Indexed
    ensures var loc := OperandAt(r, m, mode);
      && loc.regs == r.(pc := loc.regs.pc)
      && (mode == Immediate ==> loc.address == r.pc && loc.regs.pc == Above(r.pc, 1))
      && (mode == Direct ==> Hi(loc.address) == r.dp && Lo(loc.address) == m[r.pc] && loc.regs.pc == Above(r.pc, 1))
      && (mode != Immediate && mode != Direct ==> loc.address == Join(m[r.pc], m[Above(r.pc, 1)]) && loc.regs.pc == Above(r.pc, 2))
  {
    if mode == Direct {
      SplitJoin(r.dp, m[r.pc]);
    }
  }

  /** Finding an operand moves PC and perhaps an index register, never A, B, DP or CC. */
  lemma {:induction false} OperandKeepsAccumulators(r: Regs, m: Memory, mode: Mode)
    ensures var regs := OperandAt(r, m, mode).regs;
      regs.a == r.a && regs.b == r.b && regs.dp == r.dp && regs.cc == r.cc
  {
    if mode == Indexed {
      var r1 := r.(pc := Next(r.pc));
      var postByte := m[r.pc];
      if postByte >= 0x80 {
        var f := IndexedForm(r1, m, IndexOf(postByte), postByte % 32);
        assert f.regs.a == r.a && f.regs.b == r.b && f.regs.dp == r.dp && f.regs.cc == r.cc;
      }
    }
  }

  /**
   * Finding an indexed operand moves PC and at most the index register its
   * post-byte names (in the auto-increment and auto-decrement forms); A, B,
   * the scratch D, DP, CC and the other index registers stay.
   */
  lemma {:induction false} IndexedMovesOneRegister(r: Regs, m: Memory)
    ensures var regs := OperandAt(r, m, Indexed).regs;
      && regs.a == r.a && regs.b == r.b && regs.d == r.d && regs.dp == r.dp && regs.cc == r.cc
      && forall other: IndexCode :: other != IndexOf(m[r.pc]) ==> RegisterValue(regs, other) == RegisterValue(r, other)
  {
    var r1 := r.(pc := Next(r.pc));
    var postByte := m[r.pc];
    var code := IndexOf(postByte);
    if postByte >= 0x80 {
      IncrementRegisterMeaning(r1, code, 1);
      IncrementRegisterMeaning(r1, code, 2);
      IncrementRegisterMeaning(r1, code, -1);
      IncrementRegisterMeaning(r1, code, -2);
      var form := IndexedForm(r1, m, code, postByte % 32);
      assert form.regs.a == r.a && form.regs.b == r.b && form.regs.d == r.d && form.regs.dp == r.dp && form.regs.cc == r.cc;
      assert forall other: IndexCode :: other != code ==> RegisterValue(form.regs, other) == RegisterValue(r, other);
    }
  }

  /**
   * A 5-bit offset (post-byte bit 7 clear), the constant-offset modes, the
   * accumulator-offset modes and `,R` leave the index registers alone and
   * address the register plus the offset, modulo 2^16: the signed 5-bit or
   * 16-bit offset, B, A or D read as signed, and for an 8-bit offset n the
   * byte itself below 0x80 and n - 512 from 0x80 on.
   */
  lemma {:induction false} IndexedOffsets(r: Regs, m: Memory, postByte: Byte)
    ensures postByte < 0x80 ==>
      IndexedAddress(r, m, postByte) == Located(Wrap(RegisterValue(r, IndexOf(postByte)) + Offset5(postByte)), r)
    ensures postByte >= 0x80 && postByte % 32 == 8 ==>
      IndexedAddress(r, m, postByte) ==
        Located(Wrap(RegisterValue(r, IndexOf(postByte)) + m[r.pc] - (if m[r.pc] >= 0x80 then 512 else 0)), r.(pc := Above(r.pc, 1)))
    ensures postByte >= 0x80 && postByte % 32 == 9 ==>
      IndexedAddress(r, m, postByte) == Located(Wrap(RegisterValue(r, IndexOf(postByte)) + Signed16(Join(m[r.pc], m[Above(r.pc, 1)]))), r.(pc := Above(r.pc, 2)))
    ensures postByte >= 0x80 && postByte % 32 == 4 ==>
      IndexedAddress(r, m, postByte) == Located(RegisterValue(r, IndexOf(postByte)), r)
    ensures postByte >= 0x80 && postByte % 32 == 5 ==>
      IndexedAddress(r, m, postByte) == Located(Wrap(RegisterValue(r, IndexOf(postByte)) + r.b - (if r.b >= 0x80 then 256 else 0)), r)
    ensures postByte >= 0x80 && postByte % 32 == 6 ==>
      IndexedAddress(r, m, postByte) == Located(Wrap(RegisterValue(r, IndexOf(postByte)) + r.a - (if r.a >= 0x80 then 256 else 0)), r)
    ensures postByte >= 0x80 && postByte % 32 == 11 ==>
      IndexedAddress(r, m, postByte) == Located(Wrap(RegisterValue(r, IndexOf(postByte)) + D(r) - (if D(r) >= 0x8000 then 0x10000 else 0)), r)
  {}

  /**
   * Auto-increment `,R+` and `,R++` address the register as it was and move
   * it up by 1 or 2; auto-decrement `,-R` and `,--R` move it down first and
   * address the new value. Nothing else changes.
   */
  lemma {:induction false} IndexedAutoIncrement(r: Regs, m: Memory, postByte: Byte)
    requires postByte >= 0x80 && postByte % 32 < 4
    ensures var code := IndexOf(postByte);
      var step := if postByte % 32 % 2 == 0 then 1 else 2;
      var loc := IndexedAddress(r, m, postByte);
      if postByte % 32 < 2 then loc == Located(RegisterValue(r, code), IncrementRegister(r, code, step))
      else loc == Located(RegisterValue(IncrementRegister(r, code, -step), code), IncrementRegister(r, code, -step))
  {}

  /** `,-R` after `,R+` (and `,--R` after `,R++`) on the same register gives the register back and addresses the same byte. */
  lemma {:induction false} AutoDecrementUndoes(r: Regs, m: Memory, postByte: Byte)
    requires postByte >= 0x80 && postByte % 32 < 2
    ensures var first := IndexedAddress(r, m, postByte);
      var second := IndexedAddress(first.regs, m, postByte + 2);
      second.regs == r && second.address == first.address
  {
    var code := IndexOf(postByte);
    var step := if postByte % 32 == 0 then 1 else 2;
    DivModUnique(postByte + 2, 32, postByte / 32, postByte % 32 + 2);
    assert IndexOf(postByte + 2) == code;
    var first := IndexedForm(r, m, code, postByte % 32);
    assert first.regs == IncrementRegister(r, code, step);
    IncrementRegisterBack(r, code, step);
    assert IndexedForm(first.regs, m, code, postByte % 32 + 2).regs == r;
  }

  /**
   * The indirect form of an indexed mode (the same post-byte with bit 4
   * set) reads the address from the word at the address the direct form
   * gives, and moves the registers the same way.
   */
  lemma {:induction false} IndirectReadsWord(r: Regs, m: Memory, postByte: Byte)
    requires postByte >= 0x80 && postByte % 32 in {1, 3, 4, 5, 6, 8, 9, 11, 12, 13}
    ensures postByte + 16 < 0x100
    ensures var direct := IndexedAddress(r, m, postByte);
      IndexedAddress(r, m, postByte + 16) == Located(WordAt(m, direct.address), direct.regs)
  {
    assert postByte == 32 * (postByte / 32) + postByte % 32;
    DivModUnique(postByte + 16, 32, postByte / 32, postByte % 32 + 16);
    assert IndexOf(postByte + 16) == IndexOf(postByte);
    var code := IndexOf(postByte);
    var op := postByte % 32;
    assert IndexedForm(r, m, code, op + 16) == IndexedForm(r, m, code, op);
  }

  /**
   * PC-relative modes count from PC after the offset bytes, which they skip;
   * the 8-bit offset n counts as n below 0x80 and as n - 512 from 0x80 on.
   */
  lemma {:induction false} PcRelative(r: Regs, m: Memory, postByte: Byte)
    requires postByte >= 0x80 && postByte % 32 in {12, 13}
    ensures var loc := IndexedAddress(r, m, postByte);
      && loc.regs == r.(pc := loc.regs.pc)
      && (postByte % 32 == 12 ==>
            (loc.regs.pc == Above(r.pc, 1)
             && (loc.address - loc.regs.pc - m[r.pc] + (if m[r.pc] >= 0x80 then 512 else 0)) % MemorySize == 0))
      && (postByte % 32 == 13 ==> loc.regs.pc == Above(r.pc, 2) && (loc.address - loc.regs.pc - Signed16(WordAt(m, r.pc))) % MemorySize == 0)
  {}
}
