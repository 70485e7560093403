/**
 * The emulated MC6809 as the source keeps it: the global register record
 * `reg`, the 64 KB array `mem` and the emulator state `state`
 * (source/cpu.c:66-68), changed in place by the operation functions of
 * source/cpu.c.
 *
 * Each method models one function of the source as written, including
 * its quirks, and is proved to leave the registers, memory and state
 * exactly as the matching function of `Instructions` (or `Execution.Step`)
 * says; the properties of the instructions are proved about those
 * functions. Some methods compute a value in one expression where the
 * source takes several statements (an ALU result, a word joined from two
 * bytes).
 */
module Processor {
  import opened Bits
  import opened Bytes
  import opened ConditionCodes
  import opened Alu
  import opened Logic
  import opened Accumulator
  import opened Wide
  import opened Registers
  import opened AddressSpace
  import opened Stack
  import opened Addressing
  import opened Branch
  import opened Instructions
  import Dispatch
  import Execution

  class Cpu {
    /** `reg` */
    var reg: Regs
    /** `state` */
    var state: State
    /** `mem`: one byte per address. */
    const mem: array<Byte>

    /** The memory covers the whole 16-bit address space. */
    ghost predicate Valid() { mem.Length == MemorySize }

    /** The registers, memory and state as one value. */
    function Snapshot(): Machine
      requires Valid()
      reads this, mem
    {
      Machine(reg, mem[..], state)
    }

    /** The globals as the C runtime sets them up: every register and state field 0, memory holding `image`. */
    constructor (image: Memory)
      ensures Valid() && fresh(mem)
      ensures Snapshot() == Machine(Regs(0, 0, 0, 0, 0, 0, 0, 0, BitsOf(0), 0), image, State(false, false, false, 0, 0))
    {
      reg := Regs(0, 0, 0, 0, 0, 0, 0, 0, BitsOf(0), 0);
      state := State(false, false, false, 0, 0);
      mem := new Byte[MemorySize](a requires 0 <= a < MemorySize => image[a]);
    }

    /** `get_next_byte()`: the byte at PC, PC moved past it. */
    method GetNextByte() returns (value: Byte)
      requires Valid()
      modifies this
      ensures value == mem[old(reg.pc)]
      ensures reg == Advanced(old(reg)) && state == old(state)
    {
      value := mem[reg.pc];
      reg := reg.(pc := Next(reg.pc));
    }

    /** `set_byte(address, value)`. */
    method SetByte(address: Word, value: Byte)
      requires Valid()
      modifies mem
      ensures mem[..] == old(mem[..])[address := value]
    {
      mem[address] := value;
    }

    /** `address_from_next_two_bytes()`: the big-endian word at PC, PC moved past both bytes. */
    method AddressFromNextTwoBytes() returns (address: Word)
      requires Valid()
      modifies this
      ensures Located(address, reg) == NextTwoBytes(old(reg), mem[..]) && state == old(state)
    {
      var msb := GetNextByte();
      var lsb := GetNextByte();
      address := Join(msb, lsb);
    }

    /** `address_from_dpr(0)`: DP as the high byte, the byte at PC as the low one; PC is not moved. */
    method AddressFromDpr() returns (address: Word)
      requires Valid()
      ensures Hi(address) == reg.dp && Lo(address) == mem[reg.pc]
    {
      address := Join(reg.dp, mem[reg.pc]);
      SplitJoin(reg.dp, mem[reg.pc]);
    }

    /** The address of an indexed mode with bit 7 set, before any indirection. */
    method IndexedBase(sourceReg: IndexCode, op: int) returns (address: Word)
      requires Valid()
      modifies this
      ensures Located(address, reg) == IndexedForm(old(reg), mem[..], sourceReg, op) && state == old(state)
    {
      if op in {0, 1, 2, 3, 17, 19} {
        address := IndexedStep(sourceReg, op);
      } else {
        address := IndexedOffset(sourceReg, op);
      }
    }

    /** The auto-increment and auto-decrement forms: the register moves by one or two. */
    method IndexedStep(sourceReg: IndexCode, op: int) returns (address: Word)
      requires Valid() && op in {0, 1, 2, 3, 17, 19}
      modifies this
      ensures Located(address, reg) == IndexedForm(old(reg), mem[..], sourceReg, op) && state == old(state)
    {
      address := RegisterValue(reg, sourceReg);
      if op == 0 {
        address := RegisterValue(reg, sourceReg);
        reg := IncrementRegister(reg, sourceReg, 1);
      } else if op == 1 {
        address := RegisterValue(reg, sourceReg);
        reg := IncrementRegister(reg, sourceReg, 2);
      } else if op == 2 {
        reg := IncrementRegister(reg, sourceReg, -1);
        address := RegisterValue(reg, sourceReg);
      } else if op == 3 {
        reg := IncrementRegister(reg, sourceReg, -2);
        address := RegisterValue(reg, sourceReg);
      } else if op == 17 {
        reg := IncrementRegister(reg, sourceReg, 2);
      } else {
        reg := IncrementRegister(reg, sourceReg, -2);
        address := RegisterValue(reg, sourceReg);
      }
    }

    /** The constant-, accumulator- and PC-offset forms, the plain register and extended indirect. */
    method IndexedOffset(sourceReg: IndexCode, op: int) returns (address: Word)
      requires Valid() && op !in {0, 1, 2, 3, 17, 19}
      modifies this
      ensures Located(address, reg) == IndexedForm(old(reg), mem[..], sourceReg, op) && state == old(state)
    {
      address := RegisterValue(reg, sourceReg);
      if op == 5 || op == 21 {
        address := Wrap(address + Signed8(reg.b));
      } else if op == 6 || op == 22 {
        address := Wrap(address + Signed8(reg.a));
      } else if op == 8 || op == 24 {
        var value := GetNextByte();
        var v := Signed8(value);
        address := Wrap(address + (if v < 0 then v - 256 else v));
      } else if op == 9 || op == 25 {
        var msb := GetNextByte();
        var lsb := GetNextByte();
        address := Wrap(address + Signed16(Join(msb, lsb)));
      } else if op == 11 || op == 27 {
        address := Wrap(address + Signed16(Join(reg.a, reg.b)));
      } else if op == 12 || op == 28 {
        var value := GetNextByte();
        var v := Signed8(value);
        address := Wrap(reg.pc + (if v < 0 then v - 256 else v));
      } else if op == 13 || op == 29 {
        var msb := GetNextByte();
        var lsb := GetNextByte();
        address := Wrap(reg.pc + Signed16(Join(msb, lsb)));
      } else if op == 31 {
        address := AddressFromNextTwoBytes();
      }
    }

    /** `indexed_address(post_byte)`, for a post-byte already read, with the 8-bit offsets as `Offset8AsWritten` takes them. */
    method IndexedAddress(postByte: Byte) returns (address: Word)
      requires Valid()
      modifies this
      ensures Located(address, reg) == Addressing.IndexedAddress(old(reg), mem[..], postByte) && state == old(state)
    {
      var sourceReg: IndexCode := postByte / 32 % 4;
      address := RegisterValue(reg, sourceReg);
      var op := postByte % 32;
      if postByte < 0x80 {
        var offset := if op >= 16 then op - 0x20 else op;
        address := Wrap(address + offset);
      } else {
        address := IndexedBase(sourceReg, op);
        if op > 16 {
          var pc := reg.pc;
          reg := reg.(pc := address);
          address := AddressFromNextTwoBytes();
          reg := reg.(pc := pc);
        }
      }
    }

    /** `address_from_mode(mode)`: the operand's address, PC moved past the operand bytes. */
    method AddressFromMode(mode: Mode) returns (address: Word)
      requires Valid()
      modifies this
      ensures Located(address, reg) == OperandAt(old(reg), mem[..], mode) && state == old(state)
      ensures reg.a == old(reg.a) && reg.b == old(reg.b) && reg.dp == old(reg.dp) && reg.cc == old(reg.cc)
    {
      OperandKeepsAccumulators(reg, mem[..], mode);
      if mode == Immediate {
        address := reg.pc;
        reg := reg.(pc := Next(reg.pc));
      } else if mode == Direct {
        address := AddressFromDpr();
        JoinSplit(address);
        reg := reg.(pc := Next(reg.pc));
      } else if mode == Indexed {
        var postByte := GetNextByte();
        address := IndexedAddress(postByte);
      } else {
        address := AddressFromNextTwoBytes();
      }
    }

    /** `adc`, `add`, `and`, `eor`, `orr`, `sbc`, `sub`: A, or B from the first B opcode on, combined with the operand through the operation's helper. */
    method Combine(k: Binary, op: Byte, mode: Mode)
      requires Valid()
      modifies this
      ensures Snapshot() == Accumulate(old(Snapshot()), k, op, mode)
    {
      var address := AddressFromMode(mode);
      if op < FirstB(k) {
        var res := BinaryResult(k, reg.cc, reg.a, mem[address]);
        reg := reg.(a := res.value, cc := res.cc);
      } else {
        var res := BinaryResult(k, reg.cc, reg.b, mem[address]);
        reg := reg.(b := res.value, cc := res.cc);
      }
    }

    /** `cmp`: the flags of subtracting the operand from A (below `CMPB_immed`) or B. */
    method Cmp(op: Byte, mode: Mode)
      requires Valid()
      modifies this
      ensures Snapshot() == CompareByte(old(Snapshot()), op, mode)
    {
      var address := AddressFromMode(mode);
      reg := reg.(cc := Compare(reg.cc, if op < 0xC1 then reg.a else reg.b, mem[address]));
    }

    /** `bit`: the flags of ANDing the operand with A (below `BITB_immed`) or B; the result is dropped. */
    method BitTest(op: Byte, mode: Mode)
      requires Valid()
      modifies this
      ensures Snapshot() == Instructions.BitTest(old(Snapshot()), op, mode)
    {
      var address := AddressFromMode(mode);
      var ignored := And(reg.cc, if op < 0xC5 then reg.a else reg.b, mem[address]);
      reg := reg.(cc := ignored.cc);
    }

    /** `ld`: A (below `LDB_immed`) or B loaded from the operand. */
    method Ld(op: Byte, mode: Mode)
      requires Valid()
      modifies this
      ensures Snapshot() == LoadByte(old(Snapshot()), op, mode)
    {
      var address := AddressFromMode(mode);
      if op < 0xC6 {
        reg := reg.(a := mem[address]);
        reg := reg.(cc := AfterLoad(reg.cc, reg.a, false));
      } else {
        reg := reg.(b := mem[address]);
        reg := reg.(cc := AfterLoad(reg.cc, reg.b, false));
      }
    }

    /** `st`: A (below `STB_direct`) or B written to the operand's address. */
    method St(op: Byte, mode: Mode)
      requires Valid()
      modifies this, mem
      ensures Snapshot() == StoreByte(old(Snapshot()), op, mode)
    {
      var address := AddressFromMode(mode);
      if op < 0xD7 {
        SetByte(address, reg.a);
        reg := reg.(cc := AfterLoad(reg.cc, reg.a, false));
      } else {
        SetByte(address, reg.b);
        reg := reg.(cc := AfterLoad(reg.cc, reg.b, false));
      }
    }

    /** `neg`, `com`, `lsr`, `ror`, `asr`, `asl`, `rol`, `dec`, `inc`: A, B or the operand byte replaced by the operation's helper. */
    method ReadModifyWrite(k: Unary, op: Byte, mode: Mode)
      requires Valid()
      modifies this, mem
      ensures Snapshot() == Modify(old(Snapshot()), k, op, mode)
    {
      if mode == Inherent {
        if op == OnA(k) {
          var res := UnaryResult(k, reg.cc, reg.a);
          reg := reg.(a := res.value, cc := res.cc);
        } else {
          var res := UnaryResult(k, reg.cc, reg.b);
          reg := reg.(b := res.value, cc := res.cc);
        }
      } else {
        var address := AddressFromMode(mode);
        var res := UnaryResult(k, reg.cc, mem[address]);
        reg := reg.(cc := res.cc);
        SetByte(address, res.value);
      }
    }

    /** `clr`: A (for `CLRA`), B or the operand byte set to 0, then the flags of a clear. */
    method Clr(op: Byte, mode: Mode)
      requires Valid()
      modifies this, mem
      ensures Snapshot() == Clear(old(Snapshot()), op, mode)
    {
      if mode == Inherent {
        if op == 0x4F {
          reg := reg.(a := 0);
        } else {
          reg := reg.(b := 0);
        }
      } else {
        var address := AddressFromMode(mode);
        SetByte(address, 0);
      }
      reg := reg.(cc := AfterClear(reg.cc));
    }

    /** `tst`: the flags of `test` on A (for `TSTA`), B or the operand byte. */
    method Tst(op: Byte, mode: Mode)
      requires Valid()
      modifies this
      ensures Snapshot() == TestByte(old(Snapshot()), op, mode)
    {
      if mode == Inherent {
        reg := reg.(cc := Test(reg.cc, if op == 0x4D then reg.a else reg.b));
      } else {
        var address := AddressFromMode(mode);
        reg := reg.(cc := Test(reg.cc, mem[address]));
      }
    }

    /** `add_16`: D plus the operand word; an immediate word leaves PC on its second byte. */
    method Add16(mode: Mode)
      requires Valid()
      modifies this
      ensures Snapshot() == AddWord(old(Snapshot()), mode)
    {
      var address := AddressFromMode(mode);
      var res := AddD(reg.cc, Join(reg.a, reg.b), Join(mem[address], mem[Next(address)]));
      reg := reg.(a := Hi(res.value), b := Lo(res.value), cc := res.cc);
    }

    /** `sub_16`: D minus the operand word as `SubDAsWritten` computes it; an immediate word leaves PC on its second byte. */
    method Sub16(mode: Mode)
      requires Valid()
      modifies this
      ensures Snapshot() == SubtractWord(old(Snapshot()), mode)
    {
      var address := AddressFromMode(mode);
      var res := SubDAsWritten(reg.cc, Join(reg.a, reg.b), Join(mem[address], mem[Next(address)]));
      reg := reg.(a := Hi(res.value), b := Lo(res.value), cc := res.cc);
    }

    /** `cmp_16`: the flags of subtracting the operand word from D, U, or (for opcode 0x8C only) X, Y or S. */
    method Cmp16(op: Byte, mode: Mode, ex: Byte)
      requires Valid()
      modifies this
      ensures Snapshot() == CompareWord(old(Snapshot()), op, ex, mode)
    {
      var address := AddressFromMode(mode);
      if mode == Immediate {
        reg := reg.(pc := Next(reg.pc));
      }
      var target := Join(reg.a, reg.b);
      if op == 0x83 && ex == 0x11 {
        target := reg.u;
      }
      if op == 0x8C {
        target := if ex == 0 then reg.x else if ex == 0x10 then reg.y else reg.s;
      }
      var compValue := Join(mem[address], mem[Next(address)]);
      reg := reg.(cc := Compare16(reg.cc, target, compValue));
    }

    /** `ld_16`: X or Y, U or S, or D (through the scratch `d`) loaded from the operand word. */
    method Ld16(op: Byte, mode: Mode, ex: Byte)
      requires Valid()
      modifies this
      ensures Snapshot() == LoadWord(old(Snapshot()), op, ex, mode)
    {
      var address := AddressFromMode(mode);
      if mode == Immediate {
        reg := reg.(pc := Next(reg.pc));
      }
      var value := Join(mem[address], mem[Next(address)]);
      if op < 0xCC {
        if ex == 0x10 { reg := reg.(y := value); } else { reg := reg.(x := value); }
      } else if op % 16 == 0xE {
        if ex == 0x10 { reg := reg.(s := value); } else { reg := reg.(u := value); }
      } else {
        reg := reg.(d := value);
        reg := reg.(a := Hi(reg.d), b := Lo(reg.d));
      }
      reg := reg.(cc := AfterLoad(reg.cc, value, true));
    }

    /** `st_16`: X or Y, U or S, or D (through the scratch `d`) written high byte first at the operand's address. */
    method St16(op: Byte, mode: Mode, ex: Byte)
      requires Valid()
      modifies this, mem
      ensures Snapshot() == StoreWord(old(Snapshot()), op, ex, mode)
    {
      var address := AddressFromMode(mode);
      var value: Word;
      if op < 0xDD {
        value := if ex == 0x10 then reg.y else reg.x;
      } else if op % 16 == 0xF {
        value := if ex == 0x10 then reg.s else reg.u;
      } else {
        reg := reg.(d := Join(reg.a, reg.b));
        value := reg.d;
      }
      SetByte(address, Hi(value));
      SetByte(Next(address), Lo(value));
      reg := reg.(cc := AfterLoad(reg.cc, value, true));
    }

    /** `jmp`: PC set to the operand's address. */
    method Jmp(mode: Mode)
      requires Valid()
      modifies this
      ensures Snapshot() == Jump(old(Snapshot()), mode)
    {
      var address := AddressFromMode(mode);
      reg := reg.(pc := address);
    }

    /** The return address (PC) stored below S, low byte first, as JSR and BSR do. */
    method PushReturnAddress()
      requires Valid()
      modifies this, mem
      ensures reg == old(reg).(s := Prev(Prev(old(reg.s)))) && state == old(state)
      ensures mem[..] == CallMemory(old(reg), old(mem[..]))
    {
      reg := reg.(s := Prev(reg.s));
      SetByte(reg.s, Lo(reg.pc));
      reg := reg.(s := Prev(reg.s));
      SetByte(reg.s, Hi(reg.pc));
    }

    /** `jsr`: PC (past the operand) stored low byte first below S, then PC set to the operand's address. */
    method Jsr(mode: Mode)
      requires Valid()
      modifies this, mem
      ensures Snapshot() == JumpToSubroutine(old(Snapshot()), mode)
    {
      var address := AddressFromMode(mode);
      PushReturnAddress();
      reg := reg.(pc := address);
    }

    /** `do_branch(bop, is_long)`: the signed offset read, BSR's return address stored, PC moved if the branch is taken. */
    method DoBranch(bop: Byte, isLong: bool)
      requires Valid()
      modifies this, mem
      ensures Snapshot() == Instructions.DoBranch(old(Snapshot()), bop, isLong)
    {
      var offset: int;
      if isLong {
        var operand := AddressFromNextTwoBytes();
        offset := Signed16(operand);
      } else {
        var operand := GetNextByte();
        offset := Signed8(operand);
      }
      var branch := Taken(bop, reg.cc);
      if bop == Bsr {
        PushReturnAddress();
      }
      if branch {
        reg := reg.(pc := Wrap(reg.pc + offset));
      }
    }

    /** `dest--; set_byte(dest, value)` inside `push`: the stacked image grows by one byte at its bottom. */
    method PushByte(dest: Word, value: Byte, ghost m0: Memory, ghost top: Word, ghost image: seq<Byte>) returns (dest': Word)
      requires Valid() && |image| < 16
      requires dest == Below(top, |image|) && mem[..] == Stacked(m0, dest, image)
      modifies mem
      ensures dest' == Below(top, |image| + 1) && mem[..] == Stacked(m0, dest', [value] + image)
    {
      dest' := Prev(dest);
      StackedPush(m0, dest, image, value);
      mem[dest'] := value;
    }

    /** The two `dest--; set_byte(dest, ...)` of a 16-bit register inside `push`: low byte first, so the high byte ends lower. */
    method PushWord(dest: Word, value: Word, ghost m0: Memory, ghost top: Word, ghost image: seq<Byte>) returns (dest': Word)
      requires Valid() && |image| < 14
      requires dest == Below(top, |image|) && mem[..] == Stacked(m0, dest, image)
      modifies mem
      ensures dest' == Below(top, |image| + 2) && mem[..] == Stacked(m0, dest', WordBytes(value) + image)
    {
      dest' := PushByte(dest, Lo(value), m0, top, image);
      dest' := PushByte(dest', Hi(value), m0, top, [Lo(value)] + image);
      assert [Hi(value)] + ([Lo(value)] + image) == WordBytes(value) + image;
    }

    /**
     * One block of `push`: when bit `i` of the post-byte is set, the register
     * it names (PC, U or S, Y, X, DP, B, A, CC for bits 7 down to 0) written
     * below `dest`.
     */
    method PushRegister(toHardware: bool, postByte: Byte, i: nat, dest: Word, ghost m0: Memory, ghost top: Word, ghost image: seq<Byte>)
      returns (dest': Word)
      requires Valid() && i < 8 && |image| <= 12 - (if i < 4 then i + 1 else 2 * i - 2)
      requires dest == Below(top, |image|) && mem[..] == Stacked(m0, dest, image)
      modifies mem
      ensures |Saved(reg, toHardware, postByte, i)| <= (if i < 4 then 1 else 2)
      ensures dest' == Below(top, |image| + |Saved(reg, toHardware, postByte, i)|)
      ensures mem[..] == Stacked(m0, dest', Saved(reg, toHardware, postByte, i) + image)
    {
      dest' := dest;
      if Bit(postByte, i) {
        if i == 7 {
          dest' := PushWord(dest, reg.pc, m0, top, image);
        } else if i == 6 {
          var source := if toHardware then reg.u else reg.s;
          dest' := PushWord(dest, source, m0, top, image);
        } else if i == 5 {
          dest' := PushWord(dest, reg.y, m0, top, image);
        } else if i == 4 {
          dest' := PushWord(dest, reg.x, m0, top, image);
        } else if i == 3 {
          dest' := PushByte(dest, reg.dp, m0, top, image);
        } else if i == 2 {
          dest' := PushByte(dest, reg.b, m0, top, image);
        } else if i == 1 {
          dest' := PushByte(dest, reg.a, m0, top, image);
        } else {
          dest' := PushByte(dest, ByteOf(reg.cc), m0, top, image);
        }
      }
    }

    /** Blocks 7 down to 4 of `push`: PC, U or S, Y and X. */
    method PushHigh(toHardware: bool, postByte: Byte, dest: Word, ghost m0: Memory) returns (dest': Word, ghost image: seq<Byte>)
      requires Valid() && mem[..] == m0
      modifies mem
      ensures image == Saved(reg, toHardware, postByte, 4) + (Saved(reg, toHardware, postByte, 5)
        + (Saved(reg, toHardware, postByte, 6) + Saved(reg, toHardware, postByte, 7)))
      ensures |image| <= 8 && dest' == Below(dest, |image|) && mem[..] == Stacked(m0, dest', image)
    {
      StackedNothing(m0, dest);
      image := [];
      dest' := PushRegister(toHardware, postByte, 7, dest, m0, dest, image);
      assert Saved(reg, toHardware, postByte, 7) + image == Saved(reg, toHardware, postByte, 7);
      image := Saved(reg, toHardware, postByte, 7);
      dest' := PushRegister(toHardware, postByte, 6, dest', m0, dest, image);
      image := Saved(reg, toHardware, postByte, 6) + image;
      dest' := PushRegister(toHardware, postByte, 5, dest', m0, dest, image);
      image := Saved(reg, toHardware, postByte, 5) + image;
      dest' := PushRegister(toHardware, postByte, 4, dest', m0, dest, image);
      image := Saved(reg, toHardware, postByte, 4) + image;
    }

    /** Blocks 3 down to 0 of `push`: DP, B, A and CC, below what `PushHigh` wrote. */
    method PushLow(toHardware: bool, postByte: Byte, dest: Word, ghost m0: Memory, ghost top: Word, ghost above: seq<Byte>)
      returns (dest': Word, ghost image: seq<Byte>)
      requires Valid() && |above| <= 8
      requires dest == Below(top, |above|) && mem[..] == Stacked(m0, dest, above)
      modifies mem
      ensures image == Saved(reg, toHardware, postByte, 0) + (Saved(reg, toHardware, postByte, 1)
        + (Saved(reg, toHardware, postByte, 2) + (Saved(reg, toHardware, postByte, 3) + above)))
      ensures dest' == Below(top, |image|) && mem[..] == Stacked(m0, dest', image)
    {
      image := above;
      dest' := PushRegister(toHardware, postByte, 3, dest, m0, top, image);
      image := Saved(reg, toHardware, postByte, 3) + image;
      dest' := PushRegister(toHardware, postByte, 2, dest', m0, top, image);
      image := Saved(reg, toHardware, postByte, 2) + image;
      dest' := PushRegister(toHardware, postByte, 1, dest', m0, top, image);
      image := Saved(reg, toHardware, postByte, 1) + image;
      dest' := PushRegister(toHardware, postByte, 0, dest', m0, top, image);
      image := Saved(reg, toHardware, postByte, 0) + image;
    }

    /** `push(to_hardware, post_byte)`: the selected registers written downwards from S (or U), PC first and CC last. */
    method Push(toHardware: bool, postByte: Byte)
      requires Valid()
      modifies this, mem
      ensures Snapshot() == PushOnto(old(Snapshot()), toHardware, postByte)
    {
      ghost var m0 := mem[..];
      var top := if toHardware then reg.s else reg.u;
      var dest, high := PushHigh(toHardware, postByte, top, m0);
      ghost var image;
      dest, image := PushLow(toHardware, postByte, dest, m0, top, high);
      PushImageSize(reg, toHardware, postByte);
      assert image == PushImage(reg, toHardware, postByte);
      assert dest == Below(StackPointer(reg, toHardware), ImageSize(postByte));
      assert mem[..] == Stacked(m0, Below(StackPointer(reg, toHardware), ImageSize(postByte)), PushImage(reg, toHardware, postByte));
      if toHardware {
        reg := reg.(s := dest);
      } else {
        reg := reg.(u := dest);
      }
    }

    /** `get_byte(source); source++` inside `pull`: the front of what is left of the image, and where the rest starts. */
    method PullByte(source: Word, ghost rest: seq<Byte>) returns (value: Byte, source': Word)
      requires Valid() && 0 < |rest| <= 16
      requires rest == ReadImage(mem[..], source, |rest|)
      ensures value == rest[0] && source' == Next(source)
      ensures rest[1..] == ReadImage(mem[..], source', |rest| - 1)
    {
      ReadImageStep(mem[..], source, |rest|);
      value := mem[source];
      source' := Next(source);
    }

    /**
     * `pull` after blocks 0 to `i - 1`: `consumed` bytes read from `base` up,
     * `source` on the next, and the registers so far (with the other stack
     * pointer in `dest`) those of `p`, whose rest is the unread image.
     */
    ghost predicate Reading(fromHardware: bool, postByte: Byte, i: nat, source: Word, dest: Word,
                            base: Word, consumed: nat, p: Pulling, m: Memory)
      reads this
    {
      && consumed + SizeFrom(postByte, i) == ImageSize(postByte)
      && |p.rest| == SizeFrom(postByte, i)
      && WithOther(reg, fromHardware, dest) == p.regs
      && p.rest == ReadImage(m, source, |p.rest|) && source == Above(base, consumed)
    }

    /**
     * One block of `pull`: when bit `i` of the post-byte is set, the register
     * it names (CC, A, B, DP, X, Y, the other stack pointer kept in `dest`, PC
     * for bits 0 to 7) read upwards from `source`, as `PullStep` reads it
     * from the front of what is left of the image `consumed` bytes above `base`.
     */
    method PullRegister(fromHardware: bool, postByte: Byte, i: nat, next: nat, source: Word, dest: Word,
                        ghost base: Word, ghost consumed: nat, ghost p: Pulling, ghost m: Memory)
      returns (source': Word, dest': Word, ghost consumed': nat, ghost p': Pulling)
      requires Valid() && m == mem[..] && i < 8 && next == i + 1
      requires Reading(fromHardware, postByte, i, source, dest, base, consumed, p, m)
      modifies this
      ensures consumed' == consumed + BlockSize(postByte, i) && p' == PullStep(p, fromHardware, postByte, i)
      ensures Reading(fromHardware, postByte, next, source', dest', base, consumed', p', m)
      ensures state == old(state)
    {
      source', dest' := source, dest;
      consumed', p' := consumed + BlockSize(postByte, i), PullStep(p, fromHardware, postByte, i);
      if Bit(postByte, i) {
        if i < 4 {
          var value;
          value, source' := PullByte(source, p.rest);
          if i == 0 {
            reg := reg.(cc := BitsOf(value));
          } else if i == 1 {
            reg := reg.(a := value);
          } else if i == 2 {
            reg := reg.(b := value);
          } else {
            reg := reg.(dp := value);
          }
        } else {
          var msb, lsb;
          msb, source' := PullByte(source, p.rest);
          lsb, source' := PullByte(source', p.rest[1..]);
          assert p.rest[1..][1..] == p.rest[2..];
          if i == 4 {
            reg := reg.(x := Join(msb, lsb));
          } else if i == 5 {
            reg := reg.(y := Join(msb, lsb));
          } else if i == 6 {
            dest' := Join(msb, lsb);
          } else {
            reg := reg.(pc := Join(msb, lsb));
          }
        }
      }
    }

    /** Blocks `i` to `i + 3` of `pull` in turn: the byte registers CC, A, B and DP from 0, the 16-bit ones from 4. */
    method PullFour(fromHardware: bool, postByte: Byte, i: nat, next: nat, source: Word, dest: Word,
                    ghost base: Word, ghost consumed: nat, ghost p: Pulling, ghost m: Memory)
      returns (source': Word, dest': Word, ghost consumed': nat, ghost p': Pulling)
      requires Valid() && m == mem[..] && (i == 0 || i == 4) && next == i + 4
      requires Reading(fromHardware, postByte, i, source, dest, base, consumed, p, m)
      modifies this
      ensures p' == PullStep(PullStep(PullStep(PullStep(p, fromHardware, postByte, i), fromHardware, postByte, i + 1),
                                      fromHardware, postByte, i + 2), fromHardware, postByte, i + 3)
      ensures Reading(fromHardware, postByte, next, source', dest', base, consumed', p', m)
      ensures state == old(state)
    {
      source', dest', consumed', p' := PullRegister(fromHardware, postByte, i, i + 1, source, dest, base, consumed, p, m);
      source', dest', consumed', p' := PullRegister(fromHardware, postByte, i + 1, i + 2, source', dest', base, consumed', p', m);
      source', dest', consumed', p' := PullRegister(fromHardware, postByte, i + 2, i + 3, source', dest', base, consumed', p', m);
      source', dest', consumed', p' := PullRegister(fromHardware, postByte, i + 3, next, source', dest', base, consumed', p', m);
    }

    /**
     * `pull(from_hardware, post_byte)`: the selected registers read upwards
     * from S (or U), CC first and PC last; the stack pointer ends past them.
     */
    method Pull(fromHardware: bool, postByte: Byte)
      requires Valid()
      modifies this
      ensures Snapshot() == old(Snapshot()).(regs := Stack.Pull(old(reg), mem[..], fromHardware, postByte))
    {
      var source, dest := PullBlocks(fromHardware, postByte);
      if fromHardware {
        reg := reg.(s := source, u := dest);
      } else {
        reg := reg.(u := source, s := dest);
      }
    }

    /**
     * The eight blocks of `pull` in turn from the stack pointer it reads: the
     * registers become the decoded image, with the other stack pointer
     * returned in `dest` and the pointer read returned past the image.
     */
    method PullBlocks(fromHardware: bool, postByte: Byte) returns (source: Word, dest: Word)
      requires Valid()
      modifies this
      ensures state == old(state)
      ensures source == Above(StackPointer(old(reg), fromHardware), ImageSize(postByte))
      ensures WithOther(reg, fromHardware, dest)
           == DecodeImage(old(reg), fromHardware, postByte, ReadImage(mem[..], StackPointer(old(reg), fromHardware), ImageSize(postByte)))
    {
      ghost var n := ImageSize(postByte);
      ImageSizeFrom(postByte);
      source := if fromHardware then reg.s else reg.u;
      dest := if fromHardware then reg.u else reg.s;
      ghost var base, consumed, r, m := source, 0, reg, mem[..];
      ghost var p := Pulling(reg, ReadImage(m, source, n));
      assert WithOther(reg, fromHardware, dest) == reg;
      ghost var p0 := p;
      source, dest, consumed, p := PullFour(fromHardware, postByte, 0, 4, source, dest, base, consumed, p, m);
      source, dest, consumed, p := PullFour(fromHardware, postByte, 4, 8, source, dest, base, consumed, p, m);
      assert p.regs == DecodeImage(r, fromHardware, postByte, p0.rest);
    }

    /** `rts()`: PC pulled from S. */
    method Rts()
      requires Valid()
      modifies this
      ensures Snapshot() == ReturnFromSubroutine(old(Snapshot()))
    {
      Pull(true, PcOnly);
    }

    /** `rti()`: CC pulled from S, then every other register if E is set in the CC pulled, PC alone if not. */
    method Rti()
      requires Valid()
      modifies this
      ensures Snapshot() == ReturnFromInterrupt(old(Snapshot()))
    {
      Pull(true, PullCc);
      if reg.cc[EBit] {
        Pull(true, AllButCc);
      } else {
        Pull(true, PcOnly);
      }
    }

    /** `abx()`: B added to X in 16 bits. */
    method Abx()
      requires Valid()
      modifies this
      ensures Snapshot() == AddBToX(old(Snapshot()))
    {
      reg := reg.(x := Wrap(reg.x + reg.b));
    }

    /** `mul()`: the product of A and B split into A and B, Z and C from it. */
    method Mul()
      requires Valid()
      modifies this
      ensures Snapshot() == MultiplyAB(old(Snapshot()))
    {
      var res := Multiply(reg.cc, reg.a, reg.b);
      reg := reg.(cc := res.cc);
      reg := reg.(a := Hi(res.value), b := Lo(res.value));
    }

    /** `sex()`: A from the sign of B, N and Z from B. */
    method Sex()
      requires Valid()
      modifies this
      ensures Snapshot() == SignExtendB(old(Snapshot()))
    {
      var res := SignExtend(reg.cc, reg.b);
      reg := reg.(a := res.value, cc := res.cc);
    }

    /** `daa()`: A corrected digit by digit after an addition, as `DecimalAdjustAsWritten` computes it. */
    method Daa()
      requires Valid()
      modifies this
      ensures Snapshot() == DecimalAdjustA(old(Snapshot()))
    {
      var a, cc := reg.a, reg.cc;
      var carry := cc[CBit];
      cc := cc[CBit := false];
      var correction := 0;
      var lsn := a % 16;
      if cc[HBit] || lsn > 9 {
        correction := 6;
      }
      a := if a as int + correction < 256 then a + correction else a as int + correction - 256;
      var msn: int := a / 16;
      correction := 0;
      if carry || msn > 8 || lsn > 9 {
        correction := 6;
      }
      msn := msn + correction;
      if msn > 0xF {
        cc := cc[CBit := true];
      }
      a := msn % 16 * 16 + a % 16;
      assert a == DecimalAdjustAsWritten(old(reg.cc), old(reg.a)).value && SetNz(cc, a, false) == DecimalAdjustAsWritten(old(reg.cc), old(reg.a)).cc;
      reg := reg.(a := a, cc := SetNz(cc, a, false));
    }

    /** `andcc(value)`: CC ANDed with `value`. */
    method AndCc(value: Byte)
      requires Valid()
      modifies this
      ensures reg == old(reg).(cc := BitsOf(And8(ByteOf(old(reg.cc)), value))) && state == old(state)
    {
      reg := reg.(cc := BitsOf(And8(ByteOf(reg.cc), value)));
    }

    /** `orcc(value)`: CC ORed with `value`. */
    method OrCc(value: Byte)
      requires Valid()
      modifies this
      ensures reg == old(reg).(cc := BitsOf(Or8(ByteOf(old(reg.cc)), value))) && state == old(state)
    {
      reg := reg.(cc := BitsOf(Or8(ByteOf(reg.cc), value)));
    }

    /** `cwai()`: CC ANDed with the next byte, E set, every register pushed on S, then the CPU waits. */
    method Cwai()
      requires Valid()
      modifies this, mem
      ensures Snapshot() == WaitForInterrupt(old(Snapshot()))
    {
      var value := GetNextByte();
      AndCc(value);
      reg := reg.(cc := reg.cc[EBit := true]);
      Push(true, EveryRegister);
      state := state.(waitForInterrupt := true);
    }

    /** `sync()`: the CPU waits, in SYNC. */
    method Sync()
      requires Valid()
      modifies this
      ensures Snapshot() == Synchronise(old(Snapshot()))
    {
      state := state.(waitForInterrupt := true);
      state := state.(isSync := true);
    }

    /** `transfer_decode2(reg_code, is_swap)`: TFR or EXG between the registers the code names. */
    method TransferDecode2(code: Byte, isSwap: bool)
      requires Valid()
      modifies this
      ensures reg == Transfer(old(reg), code, isSwap) && state == old(state)
    {
      reg := Transfer(reg, code, isSwap);
    }

    /** `lea(op)`: the indexed address of the next post-byte loaded into the register `op & 3` selects. */
    method Lea(op: Byte)
      requires Valid()
      modifies this
      ensures Snapshot() == LoadEffectiveAddress(old(Snapshot()), op)
    {
      var postByte := GetNextByte();
      var address := IndexedAddress(postByte);
      reg := LoadEffective(reg, address, op % 4);
    }

    /** `swi(number)`: E set, every register pushed on S, then I, F and PC as SWI1, SWI2 or SWI3 set them. */
    method Swi(number: Byte)
      requires Valid()
      modifies this, mem
      ensures Snapshot() == SoftwareInterrupt(old(Snapshot()), number)
    {
      reg := reg.(cc := reg.cc[EBit := true]);
      Push(true, EveryRegister);
      if number == 1 {
        reg := reg.(cc := reg.cc[IBit := true]);
        reg := reg.(cc := reg.cc[FBit := true]);
        reg := reg.(pc := Join(mem[Swi1Vector], mem[Swi1Vector + 1]));
      }
      if number == 2 {
        reg := reg.(pc := Join(mem[Swi2Vector], mem[Swi2Vector + 1]));
      }
      if number == 3 {
        reg := reg.(pc := Join(mem[Swi3Vector], mem[Swi3Vector + 1]));
      }
    }

    /**
     * `process_interrupt(irq)`: the registers stacked on S (for IRQ and NMI
     * `PUSH_PULL_ALL_REGS`, 0xFE, which leaves CC out), the mask bits set
     * and PC from the vector.
     */
    method ProcessInterrupt(irq: nat)
      requires Valid()
      modifies this, mem
      ensures Snapshot() == ProcessInterruptAsWritten(old(Snapshot()), irq)
    {
      if irq == FirqBit {
        reg := reg.(cc := reg.cc[EBit := false]);
        Push(true, 0x81);
        reg := reg.(cc := reg.cc[FBit := true]);
        reg := reg.(cc := reg.cc[IBit := true]);
        reg := reg.(pc := Join(mem[FirqVector], mem[FirqVector + 1]));
      }
      if irq == IrqBit {
        reg := reg.(cc := reg.cc[EBit := true]);
        Push(true, AllButCc);
        reg := reg.(cc := reg.cc[IBit := true]);
        reg := reg.(pc := Join(mem[IrqVector], mem[IrqVector + 1]));
      }
      if irq == NmiBit {
        reg := reg.(cc := reg.cc[EBit := true]);
        Push(true, AllButCc);
        reg := reg.(cc := reg.cc[FBit := true]);
        reg := reg.(cc := reg.cc[IBit := true]);
        reg := reg.(pc := Join(mem[NmiVector], mem[NmiVector + 1]));
      }
    }

    /** `process_interrupt(irq)` followed by `state.interrupt_state = IRQ_STATE_HANDLED`. */
    method Serve(irq: nat)
      requires Valid()
      modifies this, mem
      ensures Snapshot() == Served(old(Snapshot()), irq)
    {
      ProcessInterrupt(irq);
      state := state.(interruptState := IrqHandled);
    }

    /** The FIRQ or IRQ test of `process_next_instruction`: the request bit cleared, the request served if `mask` is clear. */
    method ServeMaskable(irq: nat, clear: Byte, mask: nat)
      requires Valid() && mask < 8
      modifies this, mem
      ensures Snapshot() == MaskableStage(old(Snapshot()), irq, clear, mask)
    {
      if Bit(state.interrupts, irq) {
        state := state.(interrupts := And8(state.interrupts, clear));
        if !reg.cc[mask] {
          Serve(irq);
        }
      }
    }

    /**
     * The interrupt block of `process_next_instruction`: NMI unless
     * disarmed, then FIRQ and IRQ, each request bit cleared and served if
     * its mask bit is clear; a served request or SYNC ends the wait.
     */
    method ServiceInterrupts()
      requires Valid()
      modifies this, mem
      ensures Snapshot() == Instructions.ServiceInterrupts(old(Snapshot()))
    {
      if state.interrupts > 0 {
        state := state.(interruptState := IrqAsserted);
        if Bit(state.interrupts, NmiBit) {
          if !state.nmiDisarmed {
            Serve(NmiBit);
          }
        }
        ServeMaskable(FirqBit, 0xFB, FBit);
        ServeMaskable(IrqBit, 0xFD, IBit);
        if state.interruptState == IrqHandled {
          state := state.(waitForInterrupt := false, isSync := false);
        } else if state.isSync {
          state := state.(waitForInterrupt := false, isSync := false);
        }
      }
    }

    /** `reset_registers()`: DP 0, F and I cleared, PC from the reset vector. */
    method ResetRegisters()
      requires Valid()
      modifies this
      ensures Snapshot() == Instructions.ResetRegisters(old(Snapshot()))
    {
      reg := reg.(dp := 0);
      reg := reg.(cc := BitsOf(And8(ByteOf(reg.cc), 0xAF)));
      reg := reg.(pc := Join(mem[ResetVector], mem[ResetVector + 1]));
    }

    /** `clear_all_registers()`: every register 0 but S and U, which point to 0x8000. */
    method ClearAllRegisters()
      requires Valid()
      modifies this
      ensures Snapshot() == Instructions.ClearAllRegisters(old(Snapshot()))
    {
      reg := reg.(dp := 0);
      reg := reg.(cc := BitsOf(0));
      reg := reg.(a := 0);
      reg := reg.(b := 0);
      reg := reg.(x := 0);
      reg := reg.(y := 0);
      reg := reg.(s := 0x8000);
      reg := reg.(u := 0x8000);
      reg := reg.(pc := 0);
    }

    /** `init_cpu()`: no request, no wait, CC 0x50, NMI disarmed, then `reset_registers()`. */
    method InitCpu()
      requires Valid()
      modifies this
      ensures Snapshot() == Instructions.InitCpu(old(Snapshot()))
    {
      state := state.(interruptState := 0, interrupts := 0, isSync := false, waitForInterrupt := false);
      reg := reg.(cc := BitsOf(0x50));
      state := state.(nmiDisarmed := true);
      ResetRegisters();
    }

    /** `init_vectors(vectors)`: the eight vectors written downwards from 0xFFFF, each low byte first. */
    method InitVectors(vectors: seq<Word>)
      requires Valid() && |vectors| == 8
      modifies mem
      ensures mem[..] == VectorTable(old(mem[..]), vectors)
    {
      ghost var table := VectorTable(mem[..], vectors);
      ghost var m0 := mem[..];
      var start: Word := 0xFFFF;
      var i := 0;
      while i < 8
        invariant 0 <= i <= 8 && start == 0xFFFF - 2 * i
        invariant forall a :: 0 <= a < MemorySize ==> mem[a] == if a <= start then m0[a] else table[a]
      {
        var vector := vectors[i];
        mem[start] := Lo(vector);
        start := start - 1;
        mem[start] := Hi(vector);
        start := start - 1;
        i := i + 1;
      }
      assert forall a :: 0 <= a < MemorySize ==> mem[..][a] == table[a];
    }

    /**
     * The call `process_next_instruction` makes for the operation an opcode
     * is routed to, with PC past the opcode.
     */
    method Execute(instr: Dispatch.Instruction, op: Byte, ex: Byte)
      requires Valid()
      modifies this, mem
      ensures Snapshot() == Execution.Perform(old(Snapshot()), instr, op, ex)
    {
      if Execution.OnWord(instr) {
        ExecuteOnWord(instr, op, ex);
      } else if Execution.OnByte(instr) {
        ExecuteOnByte(instr, op);
      } else {
        ExecuteInherent(instr, op);
      }
    }

    /**
     * The operations with one addressing mode of their own; PSHS, PSHU,
     * PULS, PULU, ORCC, ANDCC, EXG and TFR read their post-byte first.
     */
    method ExecuteInherent(instr: Dispatch.Instruction, op: Byte)
      requires Valid()
      modifies this, mem
      ensures Snapshot() == Execution.PerformInherent(old(Snapshot()), instr, op)
    {
      if Execution.TakesPostByte(instr) {
        ExecuteWithPostByte(instr);
      } else {
        ExecuteBare(instr, op);
      }
    }

    /** PSH, PUL, ORCC, ANDCC, EXG and TFR, which read the byte after the opcode first. */
    method ExecuteWithPostByte(instr: Dispatch.Instruction)
      requires Valid() && Execution.TakesPostByte(instr)
      modifies this, mem
      ensures Snapshot() == Execution.PerformWithPostByte(old(Snapshot()), instr)
    {
      var postByte := GetNextByte();
      match instr
      case Psh(h) => Push(h, postByte);
      case Pul(h) => Pull(h, postByte);
      case Orcc => OrCc(postByte);
      case Andcc => AndCc(postByte);
      case Exg => TransferDecode2(postByte, true);
      case Tfr => TransferDecode2(postByte, false);
    }

    /** The inherent operations that read nothing more before they act. */
    method ExecuteBare(instr: Dispatch.Instruction, op: Byte)
      requires Valid()
      modifies this, mem
      ensures Snapshot() == Execution.PerformBare(old(Snapshot()), instr, op)
    {
      match instr
      case Swi(n) => Swi(n);
      case Cwai => Cwai();
      case Rti => Rti();
      case Lea => Lea(op);
      case Rts => Rts();
      case Abx => Abx();
      case Mul => Mul();
      case Sync => Sync();
      case Daa => Daa();
      case Sex => Sex();
      case _ =>
    }

    /** The 8-bit operations on A, B or a memory byte. */
    method ExecuteOnByte(instr: Dispatch.Instruction, op: Byte)
      requires Valid() && Execution.OnByte(instr)
      modifies this, mem
      ensures Snapshot() == Execution.PerformOnByte(old(Snapshot()), instr, op)
    {
      var mode := Dispatch.ModeOf(op);
      match instr
      case Arith(k) => Combine(k, op, mode);
      case Cmp => Cmp(op, mode);
      case BitOp => BitTest(op, mode);
      case Ld => Ld(op, mode);
      case St => St(op, mode);
      case Rmw(u) => ReadModifyWrite(u, op, mode);
      case Clr => Clr(op, mode);
      case Tst => Tst(op, mode);
    }

    /** The branches, jumps and 16-bit operations. */
    method ExecuteOnWord(instr: Dispatch.Instruction, op: Byte, ex: Byte)
      requires Valid() && Execution.OnWord(instr)
      modifies this, mem
      ensures Snapshot() == Execution.PerformOnWord(old(Snapshot()), instr, op, ex)
    {
      var mode := Dispatch.ModeOf(op);
      match instr
      case BranchOp(bop, isLong) => DoBranch(bop, isLong);
      case Jmp => Jmp(mode);
      case Jsr => Jsr(mode);
      case AddWordOp => Add16(mode);
      case SubWordOp => Sub16(mode);
      case CmpWordOp => Cmp16(op, mode, ex);
      case LdWordOp => Ld16(op, mode, ex);
      case StWordOp => St16(op, mode, ex);
    }

    /**
     * The prefix loop of `process_next_instruction`: 0x10 and 0x11 are
     * remembered as the prefix and the next byte read, until an opcode that
     * is not a prefix comes; a counter stands for the loop that never ends
     * when every byte is a prefix.
     */
    method ReadOpcode() returns (fetch: Dispatch.Fetch)
      requires Valid()
      modifies this
      ensures fetch == Dispatch.FetchAt(mem[..], old(reg.pc))
      ensures reg == old(reg).(pc := fetch.pc) && state == old(state)
    {
      ghost var m, pc0 := mem[..], reg.pc;
      var opcode := GetNextByte();
      var ex: Byte := 0;
      var n: nat := 0;
      while Dispatch.IsPrefix(opcode) && n + 1 < MemorySize
        invariant n < MemorySize && mem[..] == m && state == old(state)
        invariant reg == old(reg).(pc := reg.pc)
        invariant Dispatch.Prefixed(m, reg.pc, opcode, ex, n) == Dispatch.FetchAt(m, pc0)
        decreases MemorySize - n
      {
        ex := opcode;
        opcode := GetNextByte();
        n := n + 1;
      }
      if Dispatch.IsPrefix(opcode) {
        fetch := Dispatch.Endless(reg.pc);
      } else {
        fetch := Dispatch.Fetched(opcode, ex, reg.pc);
      }
    }

    /**
     * `process_next_instruction()`: interrupts serviced if the CPU waits or
     * a request is pending; otherwise the opcode read after any prefixes
     * and the operation it is routed to performed. When every byte of
     * memory is a prefix the source's loop never ends; the method stops
     * once it has read all of memory and reports `Hangs`.
     */
    method ProcessNextInstruction() returns (outcome: Execution.Outcome)
      requires Valid()
      modifies this, mem
      ensures (Snapshot(), outcome) == Execution.Step(old(Snapshot()))
    {
      if state.waitForInterrupt || state.interrupts > 0 {
        ServiceInterrupts();
        return Execution.Cycles(0);
      }
      var fetch := ReadOpcode();
      if fetch.Endless? {
        return Execution.Hangs;
      }
      var opcode, ex := fetch.opcode, fetch.ex;
      var instr := Dispatch.DecodeAsWritten(ex, opcode);
      if instr == Dispatch.Rti {
        return Execution.BreakToMonitor;
      }
      Execute(instr, opcode, ex);
      outcome := if Execution.FallsOff(opcode) then Execution.Unspecified else Execution.Cycles(0);
    }
  }

  /** The registers with the stack pointer `pull` does not read from (U when pulling from S, S when pulling from U) set. */
  function WithOther(r: Regs, hardware: bool, value: Word): Regs {
    if hardware then r.(u := value) else r.(s := value)
  }

  /** The bytes block `i` of a post-byte moves: one for CC, A, B and DP, two for the 16-bit registers, none if its bit is clear. */
  function BlockSize(postByte: Byte, i: nat): nat {
    if !Bit(postByte, i) then 0 else if i < 4 then 1 else 2
  }

  /** The bytes blocks `i` to 7 move together. */
  function SizeFrom(postByte: Byte, i: nat): nat
    decreases 8 - i
  {
    if i >= 8 then 0 else BlockSize(postByte, i) + SizeFrom(postByte, i + 1)
  }

  /** The image of a post-byte is its eight blocks. */
  lemma ImageSizeFrom(postByte: Byte)
    ensures ImageSize(postByte) == SizeFrom(postByte, 0)
  {}
}
