/**
 * The register file of the emulated MC6809 (`REG_6809`, source/cpu.h:103-114)
 * and the operations that pick a register by a numeric code: the index
 * registers of indexed addressing (`register_value`, `increment_register`,
 * source/cpu.c:2761-2791), the register pairs of TFR and EXG
 * (`set_reg_ptr`, `set_reg_16_ptr`, `transfer_decode2`, source/cpu.c:2074-2141),
 * the single-register swaps `exchange` and `exchange_16`
 * (source/cpu.c:2248-2318) and LEA's `load_effective` (source/cpu.c:2321-2344).
 *
 * Where the source takes a pointer to a register and writes through it, the
 * model reads and rebuilds the register record; `d` is the source's scratch
 * copy of A:B, which only TFR, EXG, LDD and STD write.
 */
module Registers {
  import opened Bits
  import opened Bytes
  import opened ConditionCodes

  /** `REG_6809`: the accumulators, the scratch `d`, the index and stack registers, PC, CC and DP. */
  datatype Regs = Regs(a: Byte, b: Byte, d: Word, x: Word, y: Word, s: Word, u: Word, pc: Word, cc: Cc, dp: Byte)

  /** `(reg.a << 8) | reg.b`: the D accumulator the instructions see. */
  function D(r: Regs): Word { Join(r.a, r.b) }

  /** Two register records that agree on everything the program can see, that is on all but the scratch `d`. */
  predicate SameVisible(r1: Regs, r2: Regs) {
    r1.(d := 0) == r2.(d := 0)
  }

  /** `REG_X` .. `REG_S`: the two-bit register field of an indexed post-byte. */
  type IndexCode = c: int | 0 <= c < 4

  /** `register_value(source_reg)`: X, Y, U or S. */
  function RegisterValue(r: Regs, code: IndexCode): Word {
    if code == 0 then r.x else if code == 1 then r.y else if code == 2 then r.u else r.s
  }

  /** `increment_register(source_reg, amount)`: the register moved by a signed amount, wrapping in 16 bits. */
  function IncrementRegister(r: Regs, code: IndexCode, amount: int): Regs {
    var moved := Wrap(RegisterValue(r, code) + amount);
    if code == 0 then r.(x := moved)
    else if code == 1 then r.(y := moved)
    else if code == 2 then r.(u := moved)
    else r.(s := moved)
  }

  /** Moving an index register changes that register, by the amount modulo 2^16, and nothing else. */
  lemma {:induction false} IncrementRegisterMeaning(r: Regs, code: IndexCode, amount: int)
    ensures var r' := IncrementRegister(r, code, amount);
      && (RegisterValue(r', code) - RegisterValue(r, code) - amount) % MemorySize == 0
      && forall other: IndexCode :: other != code ==> RegisterValue(r', other) == RegisterValue(r, other)
    ensures var r' := IncrementRegister(r, code, amount);
      r'.a == r.a && r'.b == r.b && r'.d == r.d && r'.pc == r.pc && r'.cc == r.cc && r'.dp == r.dp
  {
    var r' := IncrementRegister(r, code, amount);
    assert RegisterValue(r', code) == Wrap(RegisterValue(r, code) + amount);
  }

  /** Moving an index register up and then down by the same amount gives it back. */
  lemma {:induction false} IncrementRegisterBack(r: Regs, code: IndexCode, amount: int)
    ensures IncrementRegister(IncrementRegister(r, code, amount), code, -amount) == r
  {
    var moved := Wrap(RegisterValue(r, code) + amount);
    DivModUnique(RegisterValue(r, code) + amount, MemorySize, (RegisterValue(r, code) + amount) / MemorySize, moved);
    DivModUnique(moved - amount, MemorySize, -((RegisterValue(r, code) + amount) / MemorySize), RegisterValue(r, code));
  }

  /** `*set_reg_ptr(reg_code)`: B, CC, DP for codes 9, 10, 11 and A for any other code. */
  function Reg8(r: Regs, code: int): Byte {
    if code == 0x09 then r.b else if code == 0x0A then ByteOf(r.cc) else if code == 0x0B then r.dp else r.a
  }

  /** `*set_reg_ptr(reg_code) = value` */
  function WithReg8(r: Regs, code: int, value: Byte): Regs {
    if code == 0x09 then r.(b := value) else if code == 0x0A then r.(cc := BitsOf(value)) else if code == 0x0B then r.(dp := value) else r.(a := value)
  }

  /** `*set_reg_16_ptr(reg_code)`: X, Y, U, S, PC for codes 1 to 5 and the scratch D for any other code. */
  function Reg16(r: Regs, code: int): Word {
    if code == 1 then r.x else if code == 2 then r.y else if code == 3 then r.u else if code == 4 then r.s else if code == 5 then r.pc else r.d
  }

  /** `*set_reg_16_ptr(reg_code) = value` */
  function WithReg16(r: Regs, code: int, value: Word): Regs {
    if code == 1 then r.(x := value) else if code == 2 then r.(y := value) else if code == 3 then r.(u := value)
    else if code == 4 then r.(s := value) else if code == 5 then r.(pc := value) else r.(d := value)
  }

  /** The register a TFR/EXG nibble names as the program sees it: D is A:B, CC is its byte. */
  function Named(r: Regs, code: int): int {
    if code == 0 then D(r) else if 1 <= code <= 5 then Reg16(r, code) else if 8 <= code <= 0x0B then Reg8(r, code) else -1
  }

  /**
   * `transfer_decode2(reg_code, is_swap)`: TFR (copy) and EXG (swap) between
   * the registers named by the high (source) and low (destination) nibbles.
   * Pairs of different sizes are ignored; an 8-bit code outside 8..11 acts
   * as A, and D goes through the scratch copy of A:B.
   */
  function Transfer(r: Regs, code: Byte, isSwap: bool): Regs {
    var source := code / 16;
    var dest := code % 16;
    if source < 0x08 && dest > 0x05 then r
    else if source > 0x05 && dest < 0x08 then r
    else if source > 0x05 then
      var value := Reg8(r, dest);
      var copied := WithReg8(r, dest, Reg8(r, source));
      if isSwap then WithReg8(copied, source, value) else copied
    else
      var touchesD := source == 0 || dest == 0;
      var r0 := if touchesD then r.(d := D(r)) else r;
      var value := Reg16(r0, dest);
      var copied := WithReg16(r0, dest, Reg16(r0, source));
      var r1 := if isSwap then WithReg16(copied, source, value) else copied;
      if touchesD then r1.(a := Hi(r1.d), b := Lo(r1.d)) else r1
  }

  /** A nibble pair TFR and EXG act on: two 16-bit codes (0..5) or two 8-bit codes (8..11). */
  predicate ValidPair(source: int, dest: int) {
    (0 <= source <= 5 && 0 <= dest <= 5) || (8 <= source <= 0x0B && 8 <= dest <= 0x0B)
  }

  /** Pairs of different sizes leave every register as it was. */
  lemma {:induction false} TransferMixedIgnored(r: Regs, code: Byte, isSwap: bool)
    requires (code / 16 <= 5 && code % 16 >= 6) || (code / 16 >= 6 && code % 16 <= 7)
    ensures Transfer(r, code, isSwap) == r
  {}

  /**
   * An 8-bit transfer with a code TFR does not know (0xC to 0xF on either
   * side) reads or writes A, the register `set_reg_ptr` falls back on:
   * TFR 0x9C copies B into A, and TFR 0xC9 copies A into B.
   */
  lemma {:induction false} TransferUnknownActsAsA(r: Regs, code: Byte)
    requires code / 16 >= 8 && code % 16 >= 8
    ensures code % 16 >= 0xC ==> Transfer(r, code, false) == r.(a := Reg8(r, code / 16))
    ensures code / 16 >= 0xC ==> Transfer(r, code, false) == WithReg8(r, code % 16, r.a)
  {}

  /** Two TFR/EXG codes that name the same bits: equal codes, or D and one of its halves A, B. */
  predicate Overlap(c1: int, c2: int) {
    c1 == c2 || (c1 == 0 && (c2 == 8 || c2 == 9)) || (c2 == 0 && (c1 == 8 || c1 == 9))
  }

  /** A code TFR and EXG know. */
  predicate Known(c: int) { 0 <= c <= 5 || 8 <= c <= 0x0B }

  /** Writing an 8-bit register through its code changes that register (and D when it is A or B) and nothing else visible. */
  lemma {:induction false} Named8Update(r: Regs, c: int, v: Byte)
    requires 8 <= c <= 0x0B
    ensures Named(WithReg8(r, c, v), c) == v
    ensures forall other :: Known(other) && !Overlap(other, c) ==> Named(WithReg8(r, c, v), other) == Named(r, other)
    ensures WithReg8(r, c, v).d == r.d
  {
    ByteOfBits(v);
  }

  /** Writing X, Y, U, S or PC through its code changes that register and nothing else visible. */
  lemma {:induction false} Named16Update(r: Regs, c: int, v: Word)
    requires 1 <= c <= 5
    ensures Named(WithReg16(r, c, v), c) == v
    ensures forall other :: Known(other) && other != c ==> Named(WithReg16(r, c, v), other) == Named(r, other)
    ensures WithReg16(r, c, v).d == r.d
  {}

  /** The 16-bit path through the scratch D: write the scratch copy, then split it back into A and B. */
  lemma {:induction false} ThroughScratch(r: Regs, r1: Regs)
    requires r1.cc == r.cc && r1.dp == r.dp
    ensures var r2 := r1.(a := Hi(r1.d), b := Lo(r1.d));
      && Named(r2, 0) == r1.d
      && (forall c :: 1 <= c <= 5 ==> Named(r2, c) == Reg16(r1, c))
      && Named(r2, 0x0A) == Named(r, 0x0A) && Named(r2, 0x0B) == Named(r, 0x0B)
  {
    JoinSplit(r1.d);
  }

  /** TFR between two 16-bit registers: the destination gets the source's value and nothing else visible changes. */
  lemma {:induction false} TransferCopies16(r: Regs, code: Byte)
    requires code / 16 <= 5 && code % 16 <= 5
    ensures var r' := Transfer(r, code, false);
      && Named(r', code % 16) == Named(r, code / 16)
      && forall other :: Known(other) && !Overlap(other, code % 16) ==> Named(r', other) == Named(r, other)
  {
    var source, dest := code / 16, code % 16;
    var r' := Transfer(r, code, false);
    if source == 0 || dest == 0 {
      var r0 := r.(d := D(r));
      var copied := WithReg16(r0, dest, Reg16(r0, source));
      ThroughScratch(r, copied);
      SplitJoin(r.a, r.b);
      if dest != 0 {
        Named16Update(r0, dest, Reg16(r0, source));
      }
      assert r' == copied.(a := Hi(copied.d), b := Lo(copied.d));
    } else {
      Named16Update(r, dest, Reg16(r, source));
    }
  }

  /** TFR between two 8-bit registers: the destination gets the source's value and nothing else visible changes. */
  lemma {:induction false} TransferCopies8(r: Regs, code: Byte)
    requires 8 <= code / 16 <= 0x0B && 8 <= code % 16 <= 0x0B
    ensures var r' := Transfer(r, code, false);
      && Named(r', code % 16) == Named(r, code / 16)
      && forall other :: Known(other) && !Overlap(other, code % 16) ==> Named(r', other) == Named(r, other)
  {
    Named8Update(r, code % 16, Reg8(r, code / 16));
  }

  /** TFR copies the source into the destination and leaves every visible register not sharing bits with the destination as it was. */
  lemma {:induction false} TransferCopies(r: Regs, code: Byte)
    requires ValidPair(code / 16, code % 16)
    ensures var r' := Transfer(r, code, false);
      && Named(r', code % 16) == Named(r, code / 16)
      && forall other :: Known(other) && !Overlap(other, code % 16) ==> Named(r', other) == Named(r, other)
  {
    if code / 16 <= 5 {
      TransferCopies16(r, code);
    } else {
      TransferCopies8(r, code);
    }
  }

  /** EXG between two 16-bit registers swaps them and changes nothing else visible. */
  lemma {:induction false} ExchangeSwaps16(r: Regs, code: Byte)
    requires code / 16 <= 5 && code % 16 <= 5
    ensures var r' := Transfer(r, code, true);
      && Named(r', code % 16) == Named(r, code / 16)
      && Named(r', code / 16) == Named(r, code % 16)
      && forall other :: Known(other) && !Overlap(other, code % 16) && !Overlap(other, code / 16) ==> Named(r', other) == Named(r, other)
  {
    var source, dest := code / 16, code % 16;
    var r' := Transfer(r, code, true);
    if source == 0 || dest == 0 {
      var r0 := r.(d := D(r));
      var value := Reg16(r0, dest);
      var copied := WithReg16(r0, dest, Reg16(r0, source));
      var r1 := WithReg16(copied, source, value);
      ThroughScratch(r, r1);
      SplitJoin(r.a, r.b);
      if dest != 0 {
        Named16Update(r0, dest, Reg16(r0, source));
      }
      if source != 0 {
        Named16Update(copied, source, value);
      }
      assert r' == r1.(a := Hi(r1.d), b := Lo(r1.d));
    } else {
      var copied := WithReg16(r, dest, Reg16(r, source));
      Named16Update(r, dest, Reg16(r, source));
      Named16Update(copied, source, Reg16(r, dest));
    }
  }

  /** EXG between two 8-bit registers swaps them and changes nothing else visible. */
  lemma {:induction false} ExchangeSwaps8(r: Regs, code: Byte)
    requires 8 <= code / 16 <= 0x0B && 8 <= code % 16 <= 0x0B
    ensures var r' := Transfer(r, code, true);
      && Named(r', code % 16) == Named(r, code / 16)
      && Named(r', code / 16) == Named(r, code % 16)
      && forall other :: Known(other) && !Overlap(other, code % 16) && !Overlap(other, code / 16) ==> Named(r', other) == Named(r, other)
  {
    var source, dest := code / 16, code % 16;
    var copied := WithReg8(r, dest, Reg8(r, source));
    Named8Update(r, dest, Reg8(r, source));
    Named8Update(copied, source, Reg8(r, dest));
  }

  /** EXG swaps the two registers it names and leaves every visible register not sharing bits with them as it was. */
  lemma {:induction false} ExchangeSwaps(r: Regs, code: Byte)
    requires ValidPair(code / 16, code % 16)
    ensures var r' := Transfer(r, code, true);
      && Named(r', code % 16) == Named(r, code / 16)
      && Named(r', code / 16) == Named(r, code % 16)
      && forall other :: Known(other) && !Overlap(other, code % 16) && !Overlap(other, code / 16) ==> Named(r', other) == Named(r, other)
  {
    if code / 16 <= 5 {
      ExchangeSwaps16(r, code);
    } else {
      ExchangeSwaps8(r, code);
    }
  }

  /** The visible registers are determined by what `Named` reads. */
  lemma {:induction false} NamedDetermines(r1: Regs, r2: Regs)
    requires forall c :: Known(c) ==> Named(r1, c) == Named(r2, c)
    ensures SameVisible(r1, r2)
  {
    assert Named(r1, 1) == Named(r2, 1) && Named(r1, 2) == Named(r2, 2) && Named(r1, 3) == Named(r2, 3);
    assert Named(r1, 4) == Named(r2, 4) && Named(r1, 5) == Named(r2, 5);
    assert Named(r1, 8) == Named(r2, 8) && Named(r1, 9) == Named(r2, 9) && Named(r1, 0x0B) == Named(r2, 0x0B);
    assert Named(r1, 0x0A) == Named(r2, 0x0A);
    BitsOfByte(r1.cc);
    BitsOfByte(r2.cc);
  }

  /** EXG twice with the same post-byte gives back every visible register. */
  lemma {:induction false} ExchangeTwice(r: Regs, code: Byte)
    requires ValidPair(code / 16, code % 16)
    ensures SameVisible(Transfer(Transfer(r, code, true), code, true), r)
  {
    var source, dest := code / 16, code % 16;
    var r' := Transfer(r, code, true);
    var r'' := Transfer(r', code, true);
    ExchangeSwaps(r, code);
    ExchangeSwaps(r', code);
    if source == 0 || dest == 0 {
      // A and B, halves of D, come back with D
      assert D(r'') == D(r);
      SplitJoin(r''.a, r''.b);
      SplitJoin(r.a, r.b);
    }
    forall c | Known(c)
      ensures Named(r'', c) == Named(r, c)
    {
      if Overlap(c, source) && c != source {
        // c shares bits with the source without being it: D and a half of it
        assert c == 0 || source == 0;
      }
    }
    NamedDetermines(r'', r);
  }

  /** A register's old value and the registers after an `exchange` or `exchange_16`. */
  datatype Swap8 = Swap8(previous: Byte, regs: Regs)
  datatype Swap16 = Swap16(previous: Word, regs: Regs)

  /**
   * `exchange(value, reg_code)`: put the value into A, B, CC or DP (codes
   * 8..11) and return what was there; any other code changes nothing and
   * returns 0xFF.
   */
  function Exchange(r: Regs, value: Byte, code: int): Swap8 {
    if 8 <= code <= 0x0B then Swap8(Reg8(r, code), WithReg8(r, code, value)) else Swap8(0xFF, r)
  }

  /**
   * `exchange_16(value, reg_code)`: put the value into D (as A and B), X, Y,
   * U, S or PC (codes 0..5) and return what was there; any other code
   * changes nothing and returns 0xFFFF.
   */
  function Exchange16(r: Regs, value: Word, code: int): Swap16 {
    if code == 0 then Swap16(D(r), r.(a := Hi(value), b := Lo(value)))
    else if 1 <= code <= 5 then Swap16(Reg16(r, code), WithReg16(r, code, value))
    else Swap16(0xFFFF, r)
  }

  /** `exchange` puts the value where the code says and returns the register's old value, or changes nothing for a bad code. */
  lemma {:induction false} ExchangeMeaning(r: Regs, value: Byte, code: int)
    ensures var e := Exchange(r, value, code);
      if 8 <= code <= 0x0B then e.previous == Named(r, code) && Named(e.regs, code) == value
      else e == Swap8(0xFF, r)
  {
    ByteOfBits(value);
  }

  /** `exchange` with the returned value undoes the first `exchange`. */
  lemma {:induction false} ExchangeBack(r: Regs, value: Byte, code: int)
    requires 8 <= code <= 0x0B
    ensures var e := Exchange(r, value, code);
      Exchange(e.regs, e.previous, code) == Swap8(value, r)
  {
    ByteOfBits(value);
    BitsOfByte(r.cc);
  }

  /** `exchange_16` puts the value where the code says and returns the register's old value, or changes nothing for a bad code. */
  lemma {:induction false} Exchange16Meaning(r: Regs, value: Word, code: int)
    ensures var e := Exchange16(r, value, code);
      if 0 <= code <= 5 then e.previous == Named(r, code) && Named(e.regs, code) == value
      else e == Swap16(0xFFFF, r)
  {
    JoinSplit(value);
  }

  /** `exchange_16` with the returned value undoes the first `exchange_16`. */
  lemma {:induction false} Exchange16Back(r: Regs, value: Word, code: int)
    requires 0 <= code <= 5
    ensures var e := Exchange16(r, value, code);
      Exchange16(e.regs, e.previous, code) == Swap16(value, r)
  {
    JoinSplit(value);
    SplitJoin(r.a, r.b);
  }

  /**
   * `load_effective(amount, reg_code)` as written: the `switch` has no
   * `break`, so code 0 writes X and codes 1, 2 and 3 all fall through to U;
   * Z is set or cleared from the amount for codes 0 and 1 only.
   */
  function LoadEffective(r: Regs, amount: Word, code: IndexCode): Regs {
    var flagged := if code < 2 then r.(cc := r.cc[ZBit := amount == 0]) else r;
    if code == 0 then flagged.(x := amount) else flagged.(u := amount)
  }

  /** LEAX writes X and Z; LEAY writes U and Z; LEAS and LEAU write U only; nothing else changes. */
  lemma {:induction false} LoadEffectiveTargets(r: Regs, amount: Word, code: IndexCode)
    ensures var r' := LoadEffective(r, amount, code);
      && (code == 0 ==> r' == r.(x := amount, cc := r.cc[ZBit := amount == 0]))
      && (code == 1 ==> r' == r.(u := amount, cc := r.cc[ZBit := amount == 0]))
      && (code >= 2 ==> r' == r.(u := amount))
  {}
}
