# A verified model of the e6809 core

The e6809 project emulates the Motorola MC6809 8-bit processor on a
microcontroller board. This Dafny project models three parts of it and proves
what they do:

* **The CPU core** (`source/cpu.c`): the registers, the 64 KB memory and the
  interrupt state, and everything `process_next_instruction` does with them.
  This covers the bit-by-bit adder `alu` and the helpers built on it, the
  condition-code helpers, every instruction routine from `abx` to `tst`,
  `push` and `pull`, TFR/EXG, LEA, the addressing modes, the branches, the
  prefix loop, interrupt entry and service, and the reset and initialisation
  routines. The registers, memory and state live in a class `Processor.Cpu`.
  Each of its methods, loops included, is proved to leave the state that a
  specification function of the old state describes. That function lives in
  `Instructions` (one instruction) or `Execution` (one step). The lemmas about
  it (`Alu`, `Logic`, `Wide`, `Accumulator`, `Registers`, `Stack`,
  `Addressing`, `Branch`, `Effects`) state what the instruction means on the
  MC6809: sums and borrows, signed overflow, flags, push/pull round trips,
  JSR/RTS and interrupt/RTI round trips, and so on.
* **The HT16K33 display driver** (`ht16k33.c`): the 16-byte display buffer
  as an `array`, and the routines that clear it, write digits, characters,
  glyphs and the colon, and build the I2C frame.
* **The upload script** (`scripts/loader.py`): the address, data and trailer
  frames with their checksums, and the upload loop. The loop is modelled as
  methods on a `Link` class that stands in for the serial port: it records
  what is written and draws each acknowledgement from a sequence of replies
  given in advance. The model also covers `str_to_int`, which reads the start
  address.

The machine the model runs is the code as written. `Processor.Cpu`,
`Execution.Step` and `Display.SetAlpha` use the as-written definitions, quirks
included. Where the code does something the comments, the opcode map or the
MC6809 data sheet evidently do not intend, the model also defines the intended
behaviour beside the as-written one. It proves a counterexample that tells the
two apart, and proves the intended property of the corrected definition (see
"## Findings"). The quirks the running model therefore has are these:

* The opcode routing (`Dispatch.DecodeAsWritten`) sends 0x80 (SUBA immediate)
  to NEG and 0x70 (NEG extended) to SUB. It sends CMPD and CMPU to SUBD, and
  gives SWI2 and SWI3 the prefix byte as their number.
* An 8-bit indexed offset of 0x80 or more is taken 512 below its value
  (`Addressing.Offset8AsWritten`).
* ADDD and SUBD immediate leave PC on the operand's second byte
  (`Addressing.WideImmediateAsWritten`).
* SUBD leaves C as the carry of its internal addition (`Wide.SubDAsWritten`).
* CMPX, CMPY and CMPS compare D except in immediate mode
  (`Instructions.CompareTargetAsWritten`).
* DAA follows the source's digit steps (`Accumulator.DecimalAdjustAsWritten`).
* IRQ and NMI entries save every register but CC
  (`Instructions.ProcessInterruptAsWritten`).
* `ht16k33_set_alpha` shows a space as a zero (`Display.GlyphAsWritten`).

Some other behaviour of the code is easy to miss, and the model keeps it as
written:

* `init_cpu` sets I and F and then calls `reset_registers`, which clears
  them again, so the CPU starts with no flag set (`Effects.InitCpuFlags`).
* SWI, SWI2 and SWI3 are dispatched with the prefix byte as their number, so
  none of them reaches its vector (`Instructions.SoftwareInterruptAsWritten`).
* RTI is never performed by `process_next_instruction`: with no request
  pending, the opcode breaks to the monitor (`Execution.RtiBreaksToMonitor`).
* The data block for the three bytes 0x10, 0x20, 0x30 has the checksum 0x64,
  the low byte of 1 + 3 + 0x10 + 0x20 + 0x30 (`Loader.UploadExample`).
* An empty image is sent as one empty data block (`Loader.ChunksCoverImage`).

Modules, from the bottom up:

* `Bits`, `Bytes`: C integer idioms on unbounded integers (`uint8_t` and
  `uint16_t` truncation, shifts and masks, bits of a byte).
* `ConditionCodes`: CC as eight flags, and the CC helpers.
* `Adder`, `Alu`, `Wide`, `Accumulator`, `Logic`: the ALU.
* `Registers`, `AddressSpace`, `Stack`: the register file and memory, TFR/EXG
  and LEA, and push/pull as images in memory.
* `Addressing`, `Branch`, `Dispatch`: operands, branches and opcode routing.
* `Instructions`, `Execution`, `Effects`: each routine and one step as
  functions on a machine value, and what they achieve.
* `Processor`: the `Cpu` class.
* `Wrappers`: the `Option` type the display and loader modules share.
* `Display`: the HT16K33 driver.
* `Loader`, `Numbers`: the upload script.

## Model

| member | source | states |
|---|---|---|
| Bytes.Wrap | source/cpu.c:2778-2788 | truncation to `uint16_t`: a value already in range is kept, and the result is congruent to the input modulo 2^16, negative inputs included |
| Bytes.Wrap8 | source/cpu.c:1605-1610 | truncation to `uint8_t`: a value in range is kept, and the result is congruent to the input modulo 256 |
| Bytes.Next | source/cpu.c:475-478 | `reg.pc++` in 16 bits: one more, except that 0xFFFF wraps to 0 |
| Bytes.Prev | source/cpu.c:2347-2416 | `dest--` in 16 bits: one less, except that 0 wraps to 0xFFFF |
| Bytes.JoinSplit | source/cpu.c:1087-1091 | splitting a word into `(w >> 8) & 0xFF` and `w & 0xFF` and joining them with `(msb << 8) \| lsb` gives the word back |
| Bytes.SplitJoin | source/cpu.c:1355-1370 | the high and low bytes of a joined word are the two bytes it was made of |
| Bytes.Signed8 | source/cpu.c:574-579 | a byte read as two's complement lies in -128..127, is congruent to the byte, and is negative exactly when the byte's sign bit is set |
| Bytes.Signed16 | source/cpu.c:574-579 | a word read as two's complement lies in -32768..32767, is congruent to the word, and is negative exactly when bit 15 is set |
| Bytes.BitDiv | source/cpu.c:525-528 | `is_bit_set(value, i)` holds exactly when the value divided by 2^i is odd |
| Bytes.Negative8 | source/cpu.c:574-579 | bit 7 of a byte (`SIGN_BIT_8`) is set exactly when the byte is at least 0x80 |
| Bytes.Negative16 | source/cpu.c:574-579 | bit 15 of a word (`SIGN_BIT_16`) is set exactly when the word is at least 0x8000 |
| Bytes.Pow2Values | source/cpu.h:56-62 | the shifts `1 << 4`, `1 << 7`, `1 << 8`, `1 << 15` and `1 << 16` are 16, 0x80, 0x100, 0x8000 and 0x10000 |
| Bytes.LowBit | source/cpu.c:1520-1521 | `(value >> 0) & 0x01` is the byte's oddness |
| Bytes.ByteOfBits | source/cpu.c:1519-1522 | splitting a byte into the eight-element bit array `alu` uses and joining it again gives the byte back |
| Bytes.BitsOfByte | source/cpu.c:1560-1563 | joining eight bits into a byte and splitting it again gives the same bits |
| Bytes.BitsOfPow2 | source/cpu.c:541-544 | `1 << i`, for i below 8, is a byte with bit i set and every other bit clear |
| Bytes.BitsOfInvertedPow2 | source/cpu.c:547-550 | `~(1 << i)` taken as a byte has every bit but i set |
| Bytes.SetBitIsOr | source/cpu.c:541-544 | `value \| (1 << i)` sets bit i and keeps the other seven bits |
| Bytes.ClearBitIsAnd | source/cpu.c:547-550 | `value & ~(1 << i)` clears bit i and keeps the other seven bits |
| Bytes.FlipBitIsXor | source/cpu.c:553-556 | `value ^ (1 << i)` flips bit i and keeps the other seven bits |
| Bytes.SetBitAdds | source/cpu.c:1560-1563 | OR-ing in `1 << i` adds 2^i when bit i was clear and nothing when it was set |
| ConditionCodes.FlagIsBit | source/cpu.c:535-538 | `is_cc_bit_set(bit)` on the CC byte is exactly that flag of the eight-flag model |
| ConditionCodes.SetFlagIsOr | source/cpu.c:541-544 | `set_cc_bit(bit)` sets exactly that flag and keeps the other seven |
| ConditionCodes.ClearFlagIsAnd | source/cpu.c:547-550 | `clr_cc_bit(bit)` clears exactly that flag and keeps the other seven |
| ConditionCodes.FlipFlagIsXor | source/cpu.c:553-556 | `flp_cc_bit(bit)` inverts exactly that flag and keeps the other seven |
| ConditionCodes.AndIsAndFlags | source/cpu.c:737-740 | AND-ing the CC byte with a byte, as ANDCC and CWAI do, ANDs each flag with the matching bit |
| ConditionCodes.OrIsOrFlags | source/cpu.c:1199-1202 | OR-ing the CC byte with a byte, as ORCC does, ORs each flag with the matching bit |
| ConditionCodes.MaskClears | source/cpu.h:58-62 | AND-ing CC with a mask clears exactly the flags whose mask bits are clear and keeps the others |
| ConditionCodes.MaskNZClears | source/cpu.h:59 | `MASK_NZ` (0xF3) clears N and Z and keeps every other flag |
| ConditionCodes.MaskNZVClears | source/cpu.c:562-565 | `clr_cc_nzv()` with `MASK_NZV` (0xF1) clears N, Z and V and keeps every other flag |
| ConditionCodes.MaskNZVCClears | source/cpu.h:62 | `MASK_NZVC` (0xF0) clears N, Z, V and C and keeps every other flag |
| ConditionCodes.MaskNZCClears | source/cpu.h:60 | `MASK_NZC` (0xF2) clears N, Z and C and keeps every other flag |
| ConditionCodes.MaskZCClears | source/cpu.h:58 | `MASK_ZC` (0xFA) clears Z and C and keeps every other flag |
| ConditionCodes.SetNz8Meaning | source/cpu.c:574-579 | `set_cc_nz` on a byte: Z set iff it is 0, N set iff it is at least 0x80, and the other six flags kept |
| ConditionCodes.SetNz16Meaning | source/cpu.c:574-579 | `set_cc_nz` on a word: Z set iff it is 0, N set iff it is at least 0x8000, and the other six flags kept |
| ConditionCodes.AfterLoad8Meaning | source/cpu.c:600-604 | `set_cc_after_load` (and `set_cc_after_store`, 614-617) on a byte: V clear, Z and N from the byte, and C, H, I, F, E kept |
| ConditionCodes.AfterLoad16Meaning | source/cpu.c:600-604 | the same for a word, with N from bit 15 |
| Adder.AddSums | source/cpu.c:1513-1568 | what `alu` computes is an addition: the answer plus C×256 is the exact sum with the carry in; V is clear iff the signed answer is the signed sum; H is set (or stays set) iff the low nibbles carry |
| Adder.OverflowIsCarries | source/cpu.c:1553-1555 | the comment's rule "V is the carry into bit 7 XOR the carry out of it" is signed overflow: the signed sum leaves -128..127 exactly when those carries differ |
| Adder.ToBinary | source/cpu.c:1519-1522 | the first loop of `alu` fills a fresh array with the bits of the value, bit 0 first |
| Adder.FromBinary | source/cpu.c:1559-1563 | the last loop of `alu` returns the byte whose bits are the array's |
| Adder.RippleBits | source/cpu.c:1529-1547 | the ripple loop after i passes has produced i answer bits |
| Adder.RippleStepSum | source/cpu.c:1529-1547 | one pass adds the weight of the two operand bits to the answer bits plus the carry |
| Adder.RippleSum | source/cpu.c:1529-1547 | after i passes, the answer bits plus the carry (weight 2^i) are the sum of the low i bits of both operands and the carry in |
| Adder.CarryAfter | source/cpu.c:1529-1547 | the carry after k passes is set iff the low k bits of the operands plus the carry in reach 2^k |
| Adder.RippleCarries | source/cpu.c:1543-1546 | the H the loop sets is the carry out of bit 3 (the low nibbles reach 16); the recorded bit-6 carry is the carry out of bit 6 (the low seven bits reach 128) |
| Adder.LowBitsSum | source/cpu.c:1519-1522 | the low k bits of the two bit arrays, as numbers, are the operands modulo 2^k |
| Adder.HalfFromNibbles | source/cpu.c:1543 | the carry out of bit 3 happens iff the low nibbles and the carry in reach 16 |
| Adder.SixFromLowBits | source/cpu.c:1546 | the carry out of bit 6 happens iff the low seven bits and the carry in reach 128 |
| Adder.SumOutOf | source/cpu.c:1549-1563 | the eight answer bits are the sum modulo 256, and the final carry is set iff the sum reaches 256 |
| Adder.AddFromCarries | source/cpu.c:1524-1563 | the flags `alu` builds from the carries (C cleared then set from the final carry, V from C XOR the bit-6 carry, H or-ed in) are those of the addition |
| Adder.RippleResult | source/cpu.c:1529-1547 | after eight passes the loop holds the byte sum, the carry out of bit 7, and the carries out of bits 3 and 6 |
| Adder.RippleIsAdd | source/cpu.c:1513-1568 | the answer and flags `alu` reads off its loop are exactly those of the addition |
| Adder.RippleLoop | source/cpu.c:1529-1547 | the method with the ripple loop leaves the answer bits, the final carry, the bit-6 carry and H as the ripple specification says |
| Adder.Alu | source/cpu.c:1513-1568 | `alu` as a method with its three loops returns exactly the addition's answer and condition codes |
| Alu.Add16Sums | source/cpu.c:1581-1593 | `alu_16`, two chained byte additions, adds words: the answer plus C×0x10000 is the exact sum with the carry in |
| Alu.AddWithCarryMeaning | source/cpu.c:1622-1627 | ADC (`add_with_carry`): the answer and C make up the exact sum; V is clear iff the signed answer is the signed sum; Z and N describe the answer; H is the carry out of the low nibbles (or was already set); I, F and E are kept |
| Alu.AddNoCarryIsAdc | source/cpu.c:1605-1610 | ADD (`add_no_carry`) is ADC with C taken as clear |
| Alu.AdcExample | source/cpu.c:641-649 | with CC 0x01, ADC of 0x3A and 0x7C gives 0xB7 and CC 0x2A (H, N and V set, C clear) |
| Alu.FlippedNext | source/cpu.c:1770-1777 | one more pass of the `value ^= (1 << i)` loop flips bit i on top of the bits already flipped |
| Alu.FlippedAll | source/cpu.c:1770-1777 | with all eight bits flipped the byte is 255 - value |
| Alu.OnesComplement | source/cpu.c:1770-1777 | the bit-flipping loop of `ones_complement` returns 255 - value |
| Alu.TwosComplement | source/cpu.c:1783-1793 | `twos_complement` returns minus the value in a byte: 0 for 0, and 256 - value otherwise |
| Alu.BorrowFlagsMeaning | source/cpu.c:1683-1685 | the end of `base_sub` flips C and sets Z and N from the answer, keeping every other flag |
| Alu.SignedComplement | source/cpu.c:1783-1793 | the two's complement of a byte read as signed is minus the byte read as signed, for every byte but 0x80 |
| Alu.AddComplement | source/cpu.c:1669-1687 | adding a non-zero amount's two's complement gives the difference in a byte, carries exactly when nothing is borrowed, and sets V exactly on signed overflow of the difference (amount not 0x80); I, F, E kept |
| Alu.SubtractMeaning | source/cpu.c:1638-1641 | SUB (`subtract`) of a non-zero amount: the difference in a byte, C set iff value < amount, Z iff the two are equal, N iff the answer is negative |
| Alu.SubtractOverflow | source/cpu.c:1638-1641 | SUB of an amount other than 0 and 0x80: V clear iff the signed answer is the signed difference; I, F and E kept |
| Alu.SubtractUnfolds | source/cpu.c:1669-1687 | `base_sub` without the carry is one `alu` with the two's complement followed by the borrow flags |
| Alu.SubtractZeroSetsCarry | source/cpu.c:1669-1687 | as written, SUB and CMP of 0 leave the value, clear V and set C, as if something were borrowed |
| Alu.SubtractOverflowAt80 | source/cpu.c:1669-1687 | as written, SUB of 0x80 sets V exactly when the value is negative, while the signed subtraction overflows exactly when it is not |
| Alu.FirstDifference | source/cpu.c:1671-1673 | the first `alu` of `base_sub` leaves the difference modulo 256 for any amount |
| Alu.MinusOne | source/cpu.c:1677-1679 | the second `alu` of `base_sub`, adding 0xFF, subtracts one in a byte and carries exactly when the byte was not 0 |
| Alu.SubWithCarryUnfolds | source/cpu.c:1669-1687 | SBC with C set is the first `alu` followed by a second one adding 0xFF, then the borrow flags |
| Alu.SubWithCarryValue | source/cpu.c:1652-1655 | SBC (`sub_with_carry`) returns the difference less the borrow in, modulo 256 |
| Alu.SubWithCarryNoBorrow | source/cpu.c:1652-1655 | SBC with C clear is SUB |
| Alu.SubWithBorrowCarry | source/cpu.c:1669-1687 | as written, SBC with a borrow in sets C exactly when the first difference was 0: the first subtraction's borrow is lost |
| Alu.SbcLosesBorrow | source/cpu.c:1669-1687 | 0x10 - 0x20 with a borrow in gives 0xEF with C clear, although the subtraction borrowed |
| Alu.NegateValue | source/cpu.c:1741-1759 | NEG (`negate`): minus the value in a byte, C set unless the value is 0, V set only for 0x80 |
| Alu.NegateFlags | source/cpu.c:1741-1759 | NEG: Z and N describe the answer, H is set by the carry out of the low nibble (a value ending in 0) or was set, I, F, E kept |
| Alu.NegateZero | source/cpu.c:1741-1759 | NEG sets Z exactly for 0 and N exactly when the answer is negative |
| Alu.NegateTwice | source/cpu.c:1741-1759 | negating twice gives the value back |
| Alu.ComplementBits | source/cpu.c:1804-1811 | COM (`complement`): every bit of the answer is the inverse of the value's, and answer + value = 0xFF |
| Alu.ComplementTwice | source/cpu.c:1804-1811 | COM twice gives the value back, with Z and N as for the value, V clear and C set |
| Wide.Signed16Split | source/cpu.c:1581-1593 | a word read as signed is its high byte read as signed times 256 plus its low byte, the split `alu_16` works on |
| Wide.Add16Overflow | source/cpu.c:1581-1593 | `alu_16` sets V exactly when the signed sum of the words does not fit in a signed word |
| Wide.Add16Keeps | source/cpu.c:1581-1593 | `alu_16` changes only H, V and C |
| Wide.AddDSum | source/cpu.c:678-711 | ADDD (`add_16`): D becomes D + M modulo 2^16, and C is set iff the sum reaches 2^16 |
| Wide.AddDOverflow | source/cpu.c:678-711 | ADDD: V clear iff the signed answer is the exact signed sum |
| Wide.AddDFlags | source/cpu.c:678-711 | ADDD: Z and N describe the answer; H (restored by `add_16`), I, F and E are kept |
| Wide.NegatedWord | source/cpu.c:1700-1728 | complementing each byte of a word, joining them and adding 1 in `uint16_t` is minus the word modulo 2^16 |
| Wide.Subtract16Sum | source/cpu.c:1700-1728 | `subtract_16`: the answer plus the missing carry is value + (−amount mod 2^16); Z and N describe the answer |
| Wide.Subtract16Meaning | source/cpu.c:1700-1728 | `subtract_16`: difference modulo 2^16, Z iff the words are equal, N iff the answer is negative, and for a non-zero amount C set iff value < amount |
| Wide.Subtract16ZeroSetsCarry | source/cpu.c:1700-1728 | as with the byte subtraction, subtracting the word 0 sets C |
| Wide.Subtract16Overflow | source/cpu.c:1700-1728 | `subtract_16`: V clear iff the signed answer is the signed difference, for amounts other than 0 and 0x8000 |
| Wide.Subtract16Keeps | source/cpu.c:1700-1728 | `subtract_16` keeps I, F and E |
| Wide.SubDNegates | source/cpu.c:1414-1418 | the `alu` increment `sub_16` applies to the complemented word gives minus the word modulo 2^16 |
| Wide.AddIgnoresV | source/cpu.c:1524-1526 | `alu` clears V before setting it, so V before the call does not matter |
| Wide.Add16IgnoresV | source/cpu.c:1581-1593 | the same holds for `alu_16` |
| Wide.SubDAsWrittenCarry | source/cpu.c:1402-1430 | SUBD as written agrees with `subtract_16` on the answer and every flag except C, which is the inverse of the borrow |
| Wide.SubDAsWrittenBorrowWrong | source/cpu.c:1402-1430 | as written, SUBD of 3 from 5 gives 2 but sets C, reporting a borrow |
| Wide.SubD | source/cpu.c:1402-1430 | SUBD as intended: D - M modulo 2^16, and for a non-zero M, C set iff D < M |
| Accumulator.DecimalAdjustAsWrittenHighDigit | source/cpu.c:919-939 | as written, DAA after 0x15 + 0x05 (A = 0x1A, H and C clear) gives 0x80 instead of 0x20 |
| Accumulator.DecimalAdjustAsWrittenLosesCarry | source/cpu.c:919-939 | as written, DAA after 0x99 + 0x99 (A = 0x32, H and C set) gives 0x98 but clears C, losing the hundred |
| Accumulator.DecimalAdjustAsWrittenHighNine | source/cpu.c:919-939 | as written, DAA on 0x95 with H and C clear (0x45 + 0x50) gives 0xF5: a high digit of 9 alone triggers the high correction |
| Accumulator.DecimalAdjustAsWrittenAgrees | source/cpu.c:919-939 | with C clear, a low digit at most 9 and a high digit at most 8, DAA as written equals DAA as the MC6809 does it: A plus 6 if H is set |
| Accumulator.DecimalAdjustExamples | source/cpu.c:919-939 | DAA as the MC6809 does it gives 0x20 on the first example, and 0x98 with C set on the second |
| Accumulator.DecimalAdjustPicks | source/cpu.c:919-939 | after adding two BCD bytes, the conditions DAA tests (H or a low digit above 9; C, a high digit above 9, or 9 with a low digit above 9) hold exactly when the decimal low digit sum, and the decimal high digit sum with its carry, reach 10 |
| Accumulator.DecimalAdjustDigits | source/cpu.c:919-939 | after adding two BCD bytes, DAA leaves the decimal low digit and the decimal high digit (less ten if it reached ten), and sets C exactly when that high digit reached ten |
| Accumulator.DecimalAdjustCorrects | source/cpu.c:919-939 | after adding two BCD bytes and a carry, with H and C as the addition sets them, DAA leaves a BCD byte holding the decimal sum modulo 100, and C set exactly when that sum reaches 100 |
| Accumulator.ProductBound | source/cpu.c:1141-1151 | the product of two bytes fits in the `uint16_t` that `mul` keeps it in |
| Accumulator.Bit7OfWord | source/cpu.c:1141-1151 | bit 7 of the product, which `mul` copies into C, is the top bit of its low byte |
| Accumulator.ProductZero | source/cpu.c:1141-1151 | a product of bytes is 0 exactly when one factor is 0 |
| Accumulator.MultiplyMeaning | source/cpu.c:1141-1151 | MUL: D is the unsigned product A × B, Z is set iff a factor is 0, and C is bit 7 of the product |
| Accumulator.MultiplyKeeps | source/cpu.c:1141-1151 | MUL changes only Z and C |
| Accumulator.SignExtendMeaning | source/cpu.c:1297-1307 | SEX: D read as signed equals B read as signed, Z and N describe D, and the other flags are kept |
| Logic.LogicBits | source/cpu.c:1838-1880 | `do_and`, `do_or` and `do_xor` act bit by bit: each answer bit is the AND, OR or XOR of the operand bits |
| Logic.LogicFlags | source/cpu.c:1838-1880 | AND, OR and EOR clear V, set Z and N from the answer, and keep C, H, I, F and E |
| Logic.AndZeroFlag | source/cpu.c:800-804 | BIT (through `do_and`) sets Z exactly when the two bytes have no set bit in common |
| Logic.XorTwiceRestores | source/cpu.c:1874-1880 | EOR with the same byte twice gives the value back |
| Logic.TestMeaning | source/cpu.c:2492-2499 | `test` (TST): V clear, Z iff the byte is 0, N iff it is at least 0x80, and the rest kept |
| Logic.ShiftedRightStep | source/cpu.c:1959-1965 | one pass of the right-shift loop copies bit i + 1 into bit i and extends the shifted prefix by one |
| Logic.BitOfByte | source/cpu.c:525-528 | `is_bit_set(value, i)` reads bit i of the byte's bit sequence |
| Logic.CopyBit | source/cpu.c:1959-1965 | setting bit `to` with `\|= (1 << to)` or clearing it with `&= ~(1 << to)`, after the value of bit `from`, changes that bit alone |
| Logic.ShiftBitsRight | source/cpu.c:1959-1965 | the loop of `partial_shift_right` gives the bits moved one place down, with bit 7 kept |
| Logic.ShiftBitsLeft | source/cpu.c:1913-1919 | the loop of `logic_shift_left` and `rotate_left` gives the bits moved one place up, with bit 0 kept |
| Logic.ClearBitSubtracts | source/cpu.c:547-550 | clearing bit i with `& ~(1 << i)` subtracts 2^i when the bit was set, and nothing otherwise |
| Logic.Bit6 | source/cpu.c:1907-1925 | bit 6 of a byte, which the left shifts test for V, is set iff the value modulo 128 is at least 0x40 |
| Logic.ShiftRightValue | source/cpu.c:1954-1968 | the bits moved down with bit 7 kept are the byte halved, plus 0x80 when it was negative |
| Logic.ShiftLeftValue | source/cpu.c:1907-1925 | the bits moved up with bit 0 kept are bit 0 plus twice the low seven bits |
| Logic.ShiftedLeftLowBit | source/cpu.c:1907-1925 | after the left-shift loop, bit 0 is still the value's bit 0 |
| Logic.PartialShiftRight | source/cpu.c:1954-1968 | `partial_shift_right` returns the byte halved with bit 7 kept, and CC with N, Z, C cleared and then C set from bit 0 |
| Logic.ArithShiftRight | source/cpu.c:1891-1896 | `arith_shift_right` returns the ASR result: the byte and flags the ASR specification gives |
| Logic.LogicShiftRight | source/cpu.c:1936-1944 | `logic_shift_right` returns the LSR result |
| Logic.ShiftLeftFlags | source/cpu.c:1909-1911 | before their loops, the left shifts clear N, Z, V and C, then set C from bit 7 and V when bits 7 and 6 differ |
| Logic.SetBit0 | source/cpu.c:1998-2002 | setting or clearing bit 0 gives the byte with its bit 0 replaced |
| Logic.SetBit7 | source/cpu.c:2033-2037 | setting or clearing bit 7 gives the low seven bits plus 0x80 if the bit is set |
| Logic.LogicShiftLeft | source/cpu.c:1907-1925 | `logic_shift_left` returns the ASL result |
| Logic.RotateLeft | source/cpu.c:1979-2006 | `rotate_left` returns the ROL result |
| Logic.RotateRight | source/cpu.c:2017-2041 | `rotate_right` returns the ROR result |
| Logic.AsrMeaning | source/cpu.c:776-788 | ASR: the signed answer is the signed value halved and rounded down; C is the bit shifted out; Z and N describe the answer; V, H, I, F and E are kept |
| Logic.LsrMeaning | source/cpu.c:1122-1134 | LSR: the value halved and rounded down, C the bit shifted out, N clear, Z iff the answer is 0 |
| Logic.AslMeaning | source/cpu.c:753-765 | ASL/LSL: the answer and C make up twice the value; V is set iff doubling overflows as a signed byte; Z and N describe the answer |
| Logic.RolMeaning | source/cpu.c:1213-1225 | ROL: the answer and C make up twice the value plus the old C; Z and N describe the answer |
| Logic.RorMeaning | source/cpu.c:1236-1248 | ROR: twice the answer plus the new C is the value plus the old C × 256; N is the old C and Z describes the answer |
| Logic.RorUndoesRol | source/cpu.c:1213-1248 | ROR after ROL gives back the value and C |
| Logic.RolUndoesRor | source/cpu.c:1213-1248 | ROL after ROR gives back the value and C |
| Logic.LsrAfterAsl | source/cpu.c:753-765 | LSR after ASL gives back the low seven bits of the value |
| Logic.IncrementMeaning | source/cpu.c:2059-2071 | INC (`increment`): one more in a byte; V clear iff the signed answer is the signed value + 1; Z and N describe the answer; C and the rest kept |
| Logic.DecrementMeaning | source/cpu.c:2044-2057 | DEC (`decrement`): one less in a byte; V clear iff the signed answer is the signed value - 1; Z and N describe the answer; C and the rest kept |
| Logic.IncrementDecrement | source/cpu.c:2044-2071 | DEC undoes INC and INC undoes DEC |
| Registers.IncrementRegisterMeaning | source/cpu.c:2778-2788 | `increment_register` moves the named index register by the signed amount modulo 2^16 and changes no other register |
| Registers.IncrementRegisterBack | source/cpu.c:2778-2788 | moving an index register by an amount and back by its negation restores every register |
| Registers.TransferMixedIgnored | source/cpu.c:2107-2140 | TFR and EXG between an 8-bit and a 16-bit register change nothing |
| Registers.TransferUnknownActsAsA | source/cpu.c:2074-2140 | an 8-bit TFR with a code 0xC-0xF on either side reads or writes A, where `set_reg_ptr` falls back: TFR 0x9C copies B into A |
| Registers.Named8Update | source/cpu.c:2074-2086 | writing A, B, CC or DP through `set_reg_ptr` makes that register the value and leaves every register not sharing its bits as it was |
| Registers.Named16Update | source/cpu.c:2088-2104 | writing X, Y, U, S or PC through `set_reg_16_ptr` makes that register the value and leaves every other register as it was |
| Registers.ThroughScratch | source/cpu.c:2107-2140 | the path through the scratch `reg.d` (written, then split into A and B) gives D the scratch value and leaves X, Y, U, S, PC, CC and DP alone |
| Registers.TransferCopies16 | source/cpu.c:2107-2140 | TFR between two 16-bit registers: the destination gets the source's value; every register not sharing bits with the destination is kept |
| Registers.TransferCopies8 | source/cpu.c:2107-2140 | TFR between two 8-bit registers: the destination gets the source's value; every register not sharing bits with the destination is kept |
| Registers.TransferCopies | source/cpu.c:2107-2140 | TFR for any valid pair copies the source into the destination and keeps every register not overlapping the destination |
| Registers.ExchangeSwaps16 | source/cpu.c:2107-2140 | EXG between two 16-bit registers swaps them and keeps every register overlapping neither |
| Registers.ExchangeSwaps8 | source/cpu.c:2107-2140 | EXG between two 8-bit registers swaps them and keeps every register overlapping neither |
| Registers.ExchangeSwaps | source/cpu.c:2107-2140 | EXG for any valid pair swaps the two registers and keeps every register overlapping neither |
| Registers.NamedDetermines | source/cpu.c:2107-2140 | two register files that agree on every register a TFR/EXG code names agree on everything the program can see |
| Registers.ExchangeTwice | source/cpu.c:2107-2140 | EXG twice with the same post-byte gives back every visible register |
| Registers.ExchangeMeaning | source/cpu.c:2248-2277 | `exchange` with codes 8..11 returns the old A, B, CC or DP and stores the value there; any other code returns 0xFF and changes nothing |
| Registers.ExchangeBack | source/cpu.c:2248-2277 | a second `exchange` with the returned value restores the registers and returns the first value |
| Registers.Exchange16Meaning | source/cpu.c:2280-2318 | `exchange_16` with codes 0..5 returns the old D, X, Y, U, S or PC and stores the value there; any other code returns 0xFFFF and changes nothing |
| Registers.Exchange16Back | source/cpu.c:2280-2318 | a second `exchange_16` with the returned value restores the registers and returns the first value |
| Registers.LoadEffectiveTargets | source/cpu.c:2321-2344 | as written (the `switch` has no `break`), code 0 writes X and sets Z from the amount, code 1 writes U and sets Z, codes 2 and 3 write U only; nothing else changes |
| AddressSpace.Above | source/cpu.c:2419-2490 | `address + n` in `uint16_t` is congruent to address + n modulo 2^16 |
| AddressSpace.Below | source/cpu.c:2347-2416 | `address - n` in `uint16_t` is congruent to address - n modulo 2^16 |
| AddressSpace.AboveBelow | source/cpu.c:2347-2490 | going up n from an address and down n again, or down and then up, returns to it, and the distance covered is n |
| AddressSpace.ReadImage | source/cpu.c:2419-2490 | reading n bytes upwards from an address (wrapping past 0xFFFF) gives n bytes |
| AddressSpace.ReadStacked | source/cpu.c:2347-2490 | reading back n bytes from where an image was stacked gives the image |
| AddressSpace.ReadImageStep | source/cpu.c:2419-2490 | reading upwards starts with the byte at the address and goes on from the next address |
| AddressSpace.StackedPush | source/cpu.c:2347-2416 | `dest--; set_byte(dest, value)` below a stacked image stacks the image with the value in front |
| AddressSpace.StackedNothing | source/cpu.c:2347-2416 | stacking nothing leaves memory as it was |
| Stack.ImageSize | source/cpu.c:2347-2416 | a push or pull moves at most 12 bytes |
| Stack.PushImageSize | source/cpu.c:2347-2416 | the image `push` leaves has one byte for each 8-bit register and two for each 16-bit register the post-byte selects |
| Stack.PullStepSaved | source/cpu.c:2419-2490 | one block of `pull` reads back exactly what the same block of `push` saved, and consumes those bytes |
| Stack.DecodePushImage | source/cpu.c:2347-2490 | decoding the image of a push gives back the registers it saved |
| Stack.PullUndoesPush | source/cpu.c:2347-2490 | a pull with the same post-byte after a push restores every register (the saved ones from memory) and the stack pointer |
| Stack.PushImageMovedPointer | source/cpu.c:2347-2416 | the image a push leaves does not depend on the value of the stack pointer it moves |
| Stack.PullCcOnly | source/cpu.c:1255-1263 | PULS with post-byte 0x01, the first half of `rti`: CC from the byte at S, S one up |
| Stack.PullPcOnly | source/cpu.c:1269-1272 | PULS with post-byte 0x80, `rts`: PC from the word at S, S two up |
| Stack.PullCcPc | source/cpu.c:2419-2490 | PULS with post-byte 0x81: CC from S, PC from the word above it, S three up |
| Stack.PullAllButCc | source/cpu.c:1255-1263 | PULS with post-byte 0xFE: A, B, DP, X, Y, U and PC read upwards from S in that order, S eleven up |
| Stack.PullEvery | source/cpu.c:2419-2490 | PULS with post-byte 0xFF: CC from S, then the others as with 0xFE from the byte above, S twelve up |
| Stack.PullSplit | source/cpu.c:1255-1263 | pulling CC and then every other register, as `rti` does with E set, is one pull of every register |
| Stack.PullEveryOverwrites | source/cpu.c:2419-2490 | pulling every register does not depend on what CC and PC held before |
| Addressing.Offset8AsWrittenMisses | source/cpu.c:2639-2643 | as written, the 8-bit constant offset 0xFF reads as -257, so `n,X` with X = 0x1000 addresses 0x0EFF; every negative 8-bit offset lands 256 bytes too low |
| Addressing.Offset8 | source/cpu.c:2639-2643 | the 8-bit offset as intended lies in -128..127 and is congruent to the byte |
| Addressing.Offset5 | source/cpu.c:2598-2601 | the 5-bit offset of a post-byte with bit 7 clear lies in -16..15 and is congruent to the post-byte modulo 32 |
| Addressing.WideOperand | source/cpu.c:1068-1097 | a 16-bit immediate operand is the word at PC, and PC moves past both of its bytes (the extra `reg.pc++` of `ld_16` and `cmp_16`) |
| Addressing.WideImmediateAsWritten | source/cpu.c:678-711 | as written, `add_16` and `sub_16` take the immediate word at PC but move PC by one byte only, one short of the 16-bit operand's end |
| Addressing.OperandAtMeaning | source/cpu.c:2517-2544 | `address_from_mode` moves only PC: immediate gives PC and moves one byte, direct gives DP:byte and moves one byte, and every other mode reads the word at PC and moves two bytes |
| Addressing.OperandKeepsAccumulators | source/cpu.c:2517-2544 | finding an operand never changes A, B, DP or CC |
| Addressing.IndexedOffsets | source/cpu.c:2598-2655 | the 5-bit, 8-bit, 16-bit, B, A, D and no-offset modes leave the index registers alone and address the register plus the offset modulo 2^16: the signed 5-bit or 16-bit offset, B, A or D read as signed, and an 8-bit offset n as n below 0x80 and as n - 512 from 0x80 on (the `int8_t` offset has 256 subtracted twice); PC moves past any offset bytes |
| Addressing.IndexedAutoIncrement | source/cpu.c:2608-2627 | `,R+` and `,R++` address the register and then move it up by 1 or 2; `,-R` and `,--R` move it down first and address the new value; nothing else changes |
| Addressing.IndexedMovesOneRegister | source/cpu.c:2588-2751 | finding an indexed operand changes PC and at most the index register the post-byte names; A, B, D, DP, CC and the other index registers stay |
| Addressing.AutoDecrementUndoes | source/cpu.c:2608-2627 | `,-R` after `,R+` (and `,--R` after `,R++`) on the same register restores the registers and addresses the same byte |
| Addressing.IndirectReadsWord | source/cpu.c:2739-2747 | the indirect form of a mode (bit 4 of the post-byte set) addresses the word stored at the direct form's address and moves the registers the same way |
| Addressing.PcRelative | source/cpu.c:2656-2667 | the PC-relative modes move PC past their 1 or 2 offset bytes and address that PC plus the offset modulo 2^16: the signed 16-bit offset, or the 8-bit offset n as n below 0x80 and n - 512 from 0x80 on |
| Branch.Offset | source/cpu.c:421-427 | the branch offset is the signed byte after the opcode (-128..127), or the signed word for a long branch |
| Branch.OppositeConditions | source/cpu.c:431-451 | BRA always branches and BRN never does; each conditional branch from BHI to BLE branches exactly when its partner opcode (one higher) does not |
| Branch.UnsignedAfterCompare | source/cpu.c:431-451 | after CMP with a non-zero amount, BEQ, BNE, BLO, BHS, BHI and BLS branch exactly when value =, ≠, <, ≥, >, ≤ amount, unsigned |
| Branch.SignedDifference | source/cpu.c:445-448 | a byte congruent to the difference of two signed bytes reads as that difference, or as it plus or minus 256 |
| Branch.SignedAfterCompare | source/cpu.c:445-448 | after CMP with an amount other than 0 and 0x80, BLT, BGE, BGT and BLE branch exactly when value <, ≥, >, ≤ amount, signed |
| Branch.CompareZeroBranchesLower | source/cpu.c:442-443 | as written, BLO after CMP #0 always branches and BHS never does, because CMP of 0 sets C |
| Dispatch.Decode | source/cpu.c:202-408 | the routing as intended: SWI, SWI2 and SWI3 get the numbers 1, 2 and 3; low digit 0 is NEG in the columns below 8 and SUB from 8 on; low digit 3 in columns 8 to B is SUBD without a prefix and CMPD/CMPU with one |
| Dispatch.DecodeAsWrittenMisroutes | source/cpu.c:263-293 | as written, SUBA immediate (0x80) goes to NEG, NEG extended (0x70) to SUB, CMPD (0x10 0x83) to SUBD, and SWI2 gets 0x10 as its number |
| Dispatch.DecodeAgrees | source/cpu.c:202-408 | on every opcode other than those, the routing as written and as intended agree |
| Dispatch.ModeColumns | source/cpu.c:255-260 | the mode set from the high digit: from column 8 on immediate, direct, indexed, extended by its low two bits; columns 0, 6, 7 direct, indexed, extended; 4 and 5 inherent; 1 to 3 none |
| Dispatch.AccumulatorColumns | source/cpu.c:641-1391 | under the routing as written, the opcode thresholds the 8-bit routines compare against (`CMPB_immed`, `LDB_immed`, ...) pick A exactly in columns 8 to B |
| Dispatch.InherentColumns | source/cpu.c:887-1003 | under the routing as written, in inherent mode the read-modify-write routines, CLR and TST pick A exactly in column 4 |
| Dispatch.WordColumns | source/cpu.c:1068-1373 | under the routing as written, `ld_16` and `st_16` pick X or Y in columns 8 to B, and D or U/S in columns C to F by the low digit |
| Dispatch.PrefixedAt | source/cpu.c:194-199 | from the n-th prefix on, the prefix loop runs for ever exactly when every byte from there on round the address space is a prefix |
| Dispatch.EndlessIffAllPrefixes | source/cpu.c:194-199 | the prefix loop runs for ever exactly when all 64 KB of memory are 0x10 or 0x11 |
| Instructions.CompareTargetDiffers | source/cpu.c:856-876 | as written, CMPX direct (0x9C) compares D; as intended it compares X |
| Instructions.CompareTargetImmediate | source/cpu.c:856-876 | on the immediate forms (0x8C, 0x83) the register compared as written and as intended agree |
| Instructions.CompareTargetEveryMode | source/cpu.c:856-876 | the intended register of CMPD, CMPU, CMPX, CMPY and CMPS is, in every mode, the one the source compares in immediate mode: for low digit 0xC, X, Y or S by prefix |
| Instructions.SoftwareInterruptAsWritten | source/cpu.c:1440-1462 | as dispatched, SWI, SWI2 and SWI3 leave PC and I as they were: no vector is taken |
| Instructions.SoftwareInterruptVectors | source/cpu.c:1440-1462 | SWI, SWI2 and SWI3 given the numbers the intended routing gives (`Dispatch.Decode`) push every register with E set and load PC from their vector; SWI also sets I and F |
| Execution.StepServicesFirst | source/cpu.c:137-186 | while the CPU waits or a request is pending, a step only services interrupts and reads no byte; with no request it changes nothing |
| Execution.RtiBreaksToMonitor | source/cpu.c:212-223 | RTI met with no request pending moves PC past the opcode, changes nothing else and breaks to the monitor |
| Execution.NopFallsOff | source/cpu.c:202 | NOP moves PC past the opcode, changes nothing else, and the value the function returns is undefined |
| Execution.StepPerforms | source/cpu.c:188-408 | a step on an opcode with no prefix performs the operation the routing as written (`Dispatch.DecodeAsWritten`) picks, with PC just past the opcode; its returned value is defined unless the code falls off the end |
| Execution.StepHangs | source/cpu.c:194-199 | a step never ends exactly when the CPU is not waiting, nothing is pending and every byte of memory is a prefix |
| Effects.ComparesChangeOnlyFlags | source/cpu.c:839-876 | CMPA/CMPB, BITA/BITB, TST and the 16-bit compares change at most CC and PC; in indexed mode also the index register the post-byte names (its auto-increment or auto-decrement), and nothing else |
| Effects.StoreThenLoadByte | source/cpu.c:1318-1328 | STA/STB writes A (below `STB_direct`) or B at the operand's address, so a load from there reads it, and no other byte of memory changes |
| Effects.StoreThenLoadWord | source/cpu.c:1342-1373 | the word at a 16-bit store's address afterwards is the register as it is once the operand is found, high byte first, and no other byte changes; outside indexed mode that is the register as it was |
| Effects.StoreAutoIncrementStoresMoved | source/cpu.c:1342-1373 | STX ,X++ stores X after the increment, at the address X held before it |
| Effects.CallThenReturn | source/cpu.c:1026-1034 | RTS pulls back the return address JSR and BSR store below S, and S returns to where it was |
| Effects.JsrThenRts | source/cpu.c:1269-1272 | RTS after JSR gives the registers JSR started from, with PC just past JSR's operand |
| Effects.BsrThenRts | source/cpu.c:452-459 | RTS after BSR or LBSR returns to the byte after the branch's offset, with S as before |
| Effects.BranchMovesOnlyPc | source/cpu.c:417-463 | every branch but BSR changes only PC: past the offset, and then by the signed offset when its condition holds |
| Effects.RtiAfterFullSave | source/cpu.c:1255-1263 | RTI after an entry that saved every register on S with E set restores all registers and S, whatever the entry then did to CC and PC |
| Effects.RtiAfterInterrupt | source/cpu.c:2831-2871 | RTI after an IRQ or NMI entry that saves every register gives back the interrupted registers, with E set |
| Effects.RtiAfterSwi | source/cpu.c:1440-1462 | RTI after SWI gives back the registers SWI saved, with E set |
| Effects.RtiAfterInterruptAsWritten | source/cpu.c:2831-2871 | as written, IRQ and NMI save every register but CC while RTI, seeing E, pulls CC first: after the return CC holds the bits of the saved A |
| Effects.RtiAfterFastInterrupt | source/cpu.c:2831-2871 | RTI after a FIRQ entry (CC and PC saved, E clear) gives back the interrupted registers, with E clear |
| Effects.IrqMaskValues | source/cpu.c:163-165 | `interrupts &= ~(1 << IRQ_BIT)` clears a lone IRQ request and leaves the NMI request of NMI with IRQ |
| Effects.FirqMaskValue | source/cpu.c:151-153 | `interrupts &= ~(1 << FIRQ_BIT)` clears a lone FIRQ request |
| Effects.ResetMaskClearsFI | source/cpu.c:2796-2807 | `reg.cc &= 0xAF` clears F and I and keeps every other flag |
| Effects.MaskedIrqDropped | source/cpu.c:163-172 | an IRQ request while I is set is cleared without being served; registers and memory stay as they were |
| Effects.MaskedFirqDropped | source/cpu.c:151-160 | a FIRQ request while F is set is cleared without being served |
| Effects.UnmaskedIrqServed | source/cpu.c:163-182 | an IRQ request while I is clear enters the IRQ routine, clears the request and ends any wait |
| Effects.UnmaskedFirqServed | source/cpu.c:151-182 | a FIRQ request while F is clear enters the FIRQ routine, clears the request and ends any wait |
| Effects.NmiMasksIrq | source/cpu.c:143-172 | with NMI and IRQ pending, the NMI is entered first and sets I, so the IRQ request is cleared unserved; the NMI request stays |
| Effects.DisarmedNmiIgnored | source/cpu.c:139-148 | while NMI is disarmed, an NMI request changes nothing but marks the request as seen |
| Effects.VectorTableWords | source/cpu.c:107-118 | after `init_vectors`, vector i is the word at 0xFFFE - 2i, and memory below 0xFFF0 is untouched |
| Effects.ResetMaskClearsAll | source/cpu.c:2796-2807 | `reg.cc &= 0xAF` on a CC with only F and I possibly set leaves no flag set |
| Effects.InitCpuFlags | source/cpu.c:78-95 | `init_cpu` sets CC to 0x50 and `reset_registers` then ANDs it with 0xAF, so no flag is set |
| Effects.InitCpuState | source/cpu.c:78-95 | after `init_cpu`: PC from the RESET vector, DP 0, no flag set, no request pending, NMI disarmed, memory untouched |
| Effects.InitCpuAfterVectors | source/cpu.c:78-118 | `init_cpu` after `init_vectors` starts at the first vector given |
| Processor.Cpu.constructor | source/cpu.c:66-68 | the globals as the C runtime zeroes them: every register and state field 0, memory holding the given image |
| Processor.Cpu.GetNextByte | source/cpu.c:475-478 | `get_next_byte` returns the byte at PC and moves PC one on (wrapping at 0xFFFF), changing nothing else |
| Processor.Cpu.SetByte | source/cpu.c:500-503 | `set_byte` changes exactly the byte at the address |
| Processor.Cpu.AddressFromNextTwoBytes | source/cpu.c:2554-2559 | returns the big-endian word at PC and moves PC past both bytes |
| Processor.Cpu.AddressFromDpr | source/cpu.c:2572-2577 | returns DP as the high byte and the byte at PC as the low byte, changing nothing |
| Processor.Cpu.IndexedBase | source/cpu.c:2607-2737 | the `switch` of `indexed_address` computes the address and register moves the indexed-mode specification gives for the five low bits, 8-bit offsets as `Addressing.Offset8AsWritten` takes them |
| Processor.Cpu.IndexedStep | source/cpu.c:2608-2627 | the auto-increment and auto-decrement cases move the register and address it as the specification gives |
| Processor.Cpu.IndexedOffset | source/cpu.c:2628-2667 | the offset, accumulator, PC-relative and extended-indirect cases give the address and PC the specification gives, an 8-bit offset n counting as n - 512 from 0x80 on (`Addressing.IndexedOffsets`, `Addressing.PcRelative`) |
| Processor.Cpu.IndexedAddress | source/cpu.c:2588-2751 | `indexed_address` returns the address and leaves the registers the indexed specification gives; by `Addressing.IndexedOffsets`, `IndexedAutoIncrement`, `PcRelative` and `IndirectReadsWord` that is the register plus offset (8-bit offsets as written), the auto-moves, and the word read for indirection |
| Processor.Cpu.AddressFromMode | source/cpu.c:2517-2544 | `address_from_mode` returns the operand's address and moves PC as the operand specification gives, and never changes A, B, DP or CC |
| Processor.Cpu.Combine | source/cpu.c:641-1391 | `adc`, `add`, `and`, `eor`, `orr`, `sbc`, `sub` leave the machine the accumulate specification gives: A or B replaced by the helper's answer with its flags, whose meaning `Alu.AddWithCarryMeaning`, `Alu.SubtractMeaning` and `Logic.LogicFlags` state |
| Processor.Cpu.Cmp | source/cpu.c:839-843 | `cmp` leaves the machine the compare specification gives; only flags and PC change (`Effects.ComparesChangeOnlyFlags`) |
| Processor.Cpu.BitTest | source/cpu.c:800-804 | `bit` leaves the machine the BIT specification gives: the flags of the AND, the result dropped |
| Processor.Cpu.Ld | source/cpu.c:1044-1054 | `ld` leaves A or B holding the operand byte with the load flags |
| Processor.Cpu.St | source/cpu.c:1318-1328 | `st` writes A or B at the operand's address with the load flags, as `Effects.StoreThenLoadByte` reads back |
| Processor.Cpu.ReadModifyWrite | source/cpu.c:887-1248 | `neg`, `com`, `lsr`, `ror`, `asr`, `asl`, `rol`, `dec`, `inc` replace A, B or the operand byte as the read-modify-write specification gives |
| Processor.Cpu.Clr | source/cpu.c:815-829 | `clr` sets A, B or the operand byte to 0 with Z set and N, V, C clear |
| Processor.Cpu.Tst | source/cpu.c:1486-1494 | `tst` leaves the machine with the flags of `test` on A, B or the operand byte |
| Processor.Cpu.Add16 | source/cpu.c:678-711 | `add_16` leaves D = D + M as `Wide.AddDSum` states; an immediate word leaves PC on its second byte (`Addressing.WideImmediateAsWritten`) |
| Processor.Cpu.Sub16 | source/cpu.c:1402-1430 | `sub_16` leaves D = D - M with the flags `Wide.SubDAsWritten` gives: those of `subtract_16` except C, the inverse of the borrow (`Wide.SubDAsWrittenCarry`); an immediate word leaves PC on its second byte |
| Processor.Cpu.Cmp16 | source/cpu.c:856-876 | `cmp_16` leaves only the flags of subtracting the operand word from D, from U for 0x83 with prefix 0x11, and from X, Y or S for 0x8C only (`Instructions.CompareTargetDiffers`, `CompareTargetImmediate`) |
| Processor.Cpu.Ld16 | source/cpu.c:1068-1097 | `ld_16` loads X or Y, U or S, or D (through the scratch `d`) from the operand word, with the load flags |
| Processor.Cpu.St16 | source/cpu.c:1342-1373 | `st_16` writes X or Y, U or S, or D high byte first at the operand's address, as `Effects.StoreThenLoadWord` reads back |
| Processor.Cpu.Jmp | source/cpu.c:1011-1014 | `jmp` sets PC to the operand's address |
| Processor.Cpu.PushReturnAddress | source/cpu.c:1026-1034 | the return address is stored below S (low byte at S-1, high byte at S-2) and S moves down by two |
| Processor.Cpu.Jsr | source/cpu.c:1026-1034 | `jsr` leaves the machine the JSR specification gives; `Effects.JsrThenRts` shows RTS returns past the operand |
| Processor.Cpu.DoBranch | source/cpu.c:417-463 | `do_branch` leaves the machine the branch specification gives: offset read, BSR's return address stacked, PC moved if taken |
| Processor.Cpu.PushByte | source/cpu.c:2347-2416 | one `dest--; set_byte(dest, value)` grows the stacked image by the byte at its bottom |
| Processor.Cpu.PushWord | source/cpu.c:2347-2416 | the two writes of a 16-bit register grow the stacked image by its high then low byte |
| Processor.Cpu.PushRegister | source/cpu.c:2347-2416 | one block of `push` stacks the bytes of the register its bit names when that bit is set, and nothing otherwise |
| Processor.Cpu.PushHigh | source/cpu.c:2355-2386 | blocks 7 to 4 stack PC, U or S, Y and X as selected, lowest first in memory |
| Processor.Cpu.PushLow | source/cpu.c:2387-2414 | blocks 3 to 0 stack DP, B, A and CC as selected, below the high blocks |
| Processor.Cpu.Push | source/cpu.c:2347-2416 | `push` leaves the machine the push specification gives: the image of the selected registers just below the stack pointer, the pointer moved down by its size, all else kept; `Stack.PullUndoesPush` undoes it |
| Processor.Cpu.PullByte | source/cpu.c:2419-2490 | `get_byte(source); source++` reads the front of what is left of the image and moves on |
| Processor.Cpu.PullRegister | source/cpu.c:2419-2490 | one block of `pull` reads the register its bit names from the image when that bit is set, consuming its bytes |
| Processor.Cpu.PullFour | source/cpu.c:2419-2490 | four blocks of `pull` in turn |
| Processor.Cpu.Pull | source/cpu.c:2419-2490 | `pull` leaves the registers the pull specification decodes from the bytes above the stack pointer, with the pointer moved past them; memory and state unchanged |
| Processor.Cpu.PullBlocks | source/cpu.c:2419-2490 | the eight blocks together decode the image above the stack pointer and leave the source past it |
| Processor.Cpu.Rts | source/cpu.c:1269-1272 | `rts` pulls PC from S |
| Processor.Cpu.Rti | source/cpu.c:1255-1263 | `rti` pulls CC, then every other register if E is set in it, PC alone if not |
| Processor.Cpu.Abx | source/cpu.c:628-631 | `abx` sets X to X + B modulo 2^16 |
| Processor.Cpu.Mul | source/cpu.c:1141-1151 | `mul` leaves D = A × B with Z and C as `Accumulator.MultiplyMeaning` states |
| Processor.Cpu.Sex | source/cpu.c:1297-1307 | `sex` leaves A as B's sign extension, as `Accumulator.SignExtendMeaning` states |
| Processor.Cpu.Daa | source/cpu.c:919-939 | `daa`, digit step by digit step, leaves A and CC as `Accumulator.DecimalAdjustAsWritten` gives; that is the MC6809's DAA when C is clear and the digits are at most 8 and 9 (`Accumulator.DecimalAdjustAsWrittenAgrees`), and not otherwise (see Findings) |
| Processor.Cpu.AndCc | source/cpu.c:737-740 | `andcc` sets CC to CC AND the value and changes nothing else |
| Processor.Cpu.OrCc | source/cpu.c:1199-1202 | `orcc` sets CC to CC OR the value and changes nothing else |
| Processor.Cpu.Cwai | source/cpu.c:907-913 | `cwai` ANDs CC with the next byte, sets E, pushes every register on S and makes the CPU wait |
| Processor.Cpu.Sync | source/cpu.c:1471-1475 | `sync` makes the CPU wait in SYNC |
| Processor.Cpu.TransferDecode2 | source/cpu.c:2107-2140 | `transfer_decode2` leaves the registers the TFR/EXG specification gives, whose meaning `Registers.TransferCopies` and `Registers.ExchangeSwaps` state |
| Processor.Cpu.Lea | source/cpu.c:1108-1111 | `lea` loads the indexed address into the register `load_effective` picks (`Registers.LoadEffectiveTargets`) |
| Processor.Cpu.Swi | source/cpu.c:1440-1462 | `swi` sets E, pushes every register on S, and for numbers 1, 2, 3 takes the SWI1 (masking I and F), SWI2 or SWI3 vector |
| Processor.Cpu.ProcessInterrupt | source/cpu.c:2831-2871 | `process_interrupt` stacks CC and PC for FIRQ and every register but CC (0xFE) for IRQ and NMI, sets the mask bits and loads PC from the vector; `Effects.RtiAfterFastInterrupt` and `Effects.RtiAfterInterruptAsWritten` say what RTI then gives back |
| Processor.Cpu.Serve | source/cpu.c:145-146 | serving a request enters it and marks it handled |
| Processor.Cpu.ServeMaskable | source/cpu.c:151-172 | the FIRQ or IRQ test clears the request bit and serves it iff its mask bit is clear |
| Processor.Cpu.ServiceInterrupts | source/cpu.c:137-186 | the interrupt block leaves the machine the service specification gives (NMI, then FIRQ, then IRQ, then the end of any wait) |
| Processor.Cpu.ResetRegisters | source/cpu.c:2796-2807 | `reset_registers` sets DP to 0, clears F and I, and loads PC from the RESET vector |
| Processor.Cpu.ClearAllRegisters | source/cpu.c:2813-2824 | `clear_all_registers` sets every register to 0 but S and U, which get 0x8000 |
| Processor.Cpu.InitCpu | source/cpu.c:78-95 | `init_cpu` leaves the machine `Effects.InitCpuState` describes |
| Processor.Cpu.InitVectors | source/cpu.c:107-118 | `init_vectors` writes the vector table `Effects.VectorTableWords` reads back |
| Processor.Cpu.Execute | source/cpu.c:255-408 | the routine an opcode is routed to (by `Dispatch.DecodeAsWritten`) leaves the machine the `Perform` specification gives |
| Processor.Cpu.ExecuteInherent | source/cpu.c:208-247 | the `msn == 3` and `msn == 1` groups as the specification gives |
| Processor.Cpu.ExecuteWithPostByte | source/cpu.c:225-245 | PSH, PUL, ORCC, ANDCC, EXG and TFR read their post-byte and then act |
| Processor.Cpu.ExecuteBare | source/cpu.c:208-243 | the inherent routines that read nothing more |
| Processor.Cpu.ExecuteOnByte | source/cpu.c:263-408 | the 8-bit routines on A, B or a memory byte |
| Processor.Cpu.ExecuteOnWord | source/cpu.c:249-408 | the branches, jumps and 16-bit routines |
| Processor.Cpu.ReadOpcode | source/cpu.c:190-199 | the prefix loop returns the opcode and prefix the fetch specification gives and leaves PC past them; it runs for ever exactly when memory is all prefixes (`Dispatch.EndlessIffAllPrefixes`) |
| Processor.Cpu.ProcessNextInstruction | source/cpu.c:126-409 | `process_next_instruction` leaves the machine and returns the outcome one step of the specification gives, with the routing as written (`Execution.StepServicesFirst`, `StepPerforms`, `RtiBreaksToMonitor`) |
| Processor.ImageSizeFrom | source/cpu.c:2419-2490 | the bytes a post-byte moves are the sum of its eight blocks' sizes |
| Display.CharIndex | ht16k33.c:164-175 | `char_val` is found exactly for the displayable characters (space, '-', 'o', 'a'-'f', '0'-'9'), and is then a valid `CHARSET` index |
| Display.SpaceShowsZero | ht16k33.h:34 | as written, a space selects `CHARSET[0]`, which is 0x3F, the pattern of '0' |
| Display.GlyphMeaning | ht16k33.c:160-180 | a pattern is found exactly for the displayable characters, always with the decimal-point bit clear; a space lights nothing (as intended) and every other character gets its `CHARSET` entry |
| Display.HexPatternsDistinct | ht16k33.c:27-28 | the sixteen hex-digit patterns of `CHARSET` are pairwise different and none is blank |
| Display.HexCharGlyph | ht16k33.c:142-148 | the character `set_number` passes for 0-15 ('0' + n or 'a' + n - 10) selects `CHARSET[n]` in `set_alpha` |
| Display.DottedMeaning | ht16k33.c:179 | `\|= 0x80` on a pattern below 0x80 adds 0x80 when the dot is asked for; the pattern and the dot can both be read back |
| Display.ShownKeepsOthers | ht16k33.c:178-179 | writing a digit changes only its row `POS[digit]`: it reads back as the glyph, with the dot iff asked for; the other digits and the colon row are kept |
| Display.ShownCommutes | ht16k33.c:178-179 | writing two different digits in either order gives the same buffer |
| Display.Clear | ht16k33.c:104-108 | `ht16k33_clear` sets all sixteen buffer bytes to 0 |
| Display.Draw | ht16k33.c:116-131 | `ht16k33_draw` builds a fresh 17-byte frame: the display-RAM address 0, then the sixteen buffer bytes in order |
| Display.Paint | ht16k33.c:178-179 | the two statements shared by `set_alpha` and `set_glyph` leave the buffer with the digit showing the glyph, dotted if asked |
| Display.SetAlpha | ht16k33.c:160-180 | for a digit 0-3 and a displayable character, the digit shows the pattern the code picks (dotted if asked), a space showing as 0 (`Display.SpaceShowsZero`); otherwise the buffer is unchanged |
| Display.SetNumber | ht16k33.c:142-148 | for a digit 0-3 and a number 0-15, the digit shows `CHARSET[number]`; otherwise the buffer is unchanged |
| Display.SetGlyph | ht16k33.c:191-196 | a glyph below 0x80 is shown on the digit (dotted if asked); a glyph with bit 7 set leaves the buffer unchanged |
| Display.ShowColon | ht16k33.c:205-208 | the colon row becomes 0x02 or 0x00, and every other byte, digits included, is kept |
| Loader.SumAppend | scripts/loader.py:97-100 | the checksum sum over two regions is the sum of their sums |
| Loader.Parse | scripts/loader.py:82-105 | a frame that parses carries at most 255 payload bytes |
| Loader.DataFrameAt | scripts/loader.py:82-105 | the data frame for n bytes has n + 6 bytes: 0x55, 0x3C, 0x01, n, the payload, the low byte of the sum of bytes 2 to n + 3, and 0x55 |
| Loader.DataFrameParses | scripts/loader.py:82-105 | every data frame reads back as a data block carrying the payload it was built from, with a sound checksum |
| Loader.AddressFrameParses | scripts/loader.py:64-80 | the address frame is 8 bytes and reads back as a sound 2-byte block whose big-endian payload is the address modulo 0x10000 |
| Loader.TrailerParses | scripts/loader.py:108-116 | the trailer reads back as an empty block of kind 0xFF with checksum byte 0, although kind and length sum to 0xFF: its checksum is not sound |
| Loader.SumUpdate | scripts/loader.py:97-100 | changing one byte of a region changes its sum by the difference |
| Loader.ChecksumSeesPayload | scripts/loader.py:97-101 | changing one payload byte moves the checksum by the difference modulo 256, so a single changed byte always changes the checksum |
| Loader.ChunkLength | scripts/loader.py:83-84 | `length` is what is left of the image, capped at 255, and is 0 exactly when nothing is left |
| Loader.Chunks | scripts/loader.py:230-235 | the upload loop sends at least one chunk, each of at most 255 bytes |
| Loader.ChunksCoverRest | scripts/loader.py:230-235 | the chunks sent from a counter on are the rest of the image in order; all but the last are full (255 bytes), and none is empty unless the image is |
| Loader.ChunksCoverImage | scripts/loader.py:230-235 | the whole image is sent, in ⌈n/255⌉ blocks, and an empty image as one empty block |
| Loader.ChunkCount | scripts/loader.py:230-235 | from a counter on, the loop sends ⌈(n - counter)/255⌉ blocks, or one if nothing is left |
| Loader.Frames | scripts/loader.py:82-105 | one data frame per chunk, in order |
| Loader.FramesStep | scripts/loader.py:233-235 | the frames from a counter on are this chunk's frame, then, unless it reaches the end, those from the next counter |
| Loader.DataStep | scripts/loader.py:231-235 | one pass of the data loop: its frame is written, and the loop ends there if it is not acknowledged or reaches the end of the image |
| Loader.BlocksCarryImage | scripts/loader.py:225-239 | an upload writes the address frame, then one data frame per chunk, whose payloads make up the image, then the trailer: at least three blocks |
| Loader.UploadExample | scripts/loader.py:225-239 | the bytes 0x10, 0x20, 0x30 at address 0 give `55 3C 00 02 00 00 02 55`, `55 3C 01 03 10 20 30 64 55` and `55 3C FF 00 00 55` |
| Loader.SessionSucceeds | scripts/loader.py:43-49 | writing blocks each followed by `await_ack_or_exit` succeeds exactly when the first replies, one per block, are all acknowledgements, and then every block is written |
| Loader.SessionFails | scripts/loader.py:43-49 | a failed session wrote a non-empty prefix of the blocks, every one acknowledged but the last, which timed out |
| Loader.SessionConcat | scripts/loader.py:225-239 | a session over two lists of blocks is the session over the first, followed, if that one succeeded, by the session over the second with the remaining replies |
| Loader.DataSessionIsSession | scripts/loader.py:230-235 | the data loop as it runs (stopping at a time-out or at the end of the image) is the session over the frames of the image's chunks |
| Loader.DataLoopStep | scripts/loader.py:231-235 | the data loop's invariant carries across one pass: after this frame the loop either ends or goes on from the next counter with the next reply |
| Loader.AfterAfter | scripts/loader.py:231-235 | blocks written one after another, all acknowledged, accumulate in order |
| Loader.SessionStep | scripts/loader.py:43-49 | one block of a session is written, then either it times out and is last, or the rest follows |
| Loader.UploadStages | scripts/loader.py:225-239 | the upload as one session: it stops after the address frame if that times out, after the failing data frame if one does, and otherwise ends with the trailer and its acknowledgement |
| Loader.Link.constructor | scripts/loader.py:214-216 | a fresh port is open, has written nothing, and will answer with the given replies |
| Loader.Link.Write | scripts/loader.py:80 | `uart.write` appends the frame to what the port has written |
| Loader.Link.AwaitAck | scripts/loader.py:52-61 | `await_ack` is true exactly when the next reply is an acknowledgement, and consumes it |
| Loader.Link.Close | scripts/loader.py:240 | `uart.close()` closes the port and changes nothing else |
| Loader.AwaitAckOrExit | scripts/loader.py:43-49 | `await_ack_or_exit` returns whether the reply was an acknowledgement, consumes it, and closes the port on a time-out |
| Loader.ChecksumOf | scripts/loader.py:97-100 | the `cs` loop returns the low byte of the sum of bytes 2 up to the checksum's position |
| Loader.SendAddressBlock | scripts/loader.py:64-80 | `send_addr_block` writes exactly the address frame |
| Loader.FrameData | scripts/loader.py:85-102 | the buffer `send_data_block` fills is exactly the data frame for the next chunk |
| Loader.SendDataBlock | scripts/loader.py:82-105 | `send_data_block` writes the next chunk's data frame and returns the counter moved past that chunk |
| Loader.SendTrailer | scripts/loader.py:108-116 | `send_trailer` writes exactly the trailer frame |
| Loader.SendAckedBlock | scripts/loader.py:233-234 | one pass of the data loop writes the next frame, moves the counter past its chunk, and reports (and consumes) the acknowledgement, closing the port on a time-out |
| Loader.SendData | scripts/loader.py:230-235 | the data loop writes what the data session writes, consumes its replies, and succeeds (port still open) exactly when the session does |
| Loader.SendTrailerAcked | scripts/loader.py:238-239 | the trailer is written and its acknowledgement awaited, closing the port on a time-out |
| Loader.Upload | scripts/loader.py:225-240 | the upload writes exactly what the session over the address frame, the data frames and the trailer writes; it returns status 0 iff every block was acknowledged and 1 otherwise, and the port ends closed |
| Numbers.DigitValue | scripts/loader.py:143 | the digits `int` accepts have values below 16, and a value below 10 comes exactly from '0'-'9' |
| Numbers.ParseDigits | scripts/loader.py:143 | `int` on the digits after any prefix succeeds exactly when there is at least one digit and every character is a digit of the base |
| Numbers.StrToIntMeaning | scripts/loader.py:138-145 | `str_to_int` raises exactly on the empty string; after `$` or `0x` it reads hexadecimal digits; otherwise it reads a signed decimal; anything else is not a number |
| Numbers.DigitChar | scripts/loader.py:143 | the lower-case digit for a value below 16 is read back as that value |
| Numbers.Numeral | scripts/loader.py:143 | a number written in a base 2-16 is a non-empty string of that base's digits |
| Numbers.NumeralDigits | scripts/loader.py:143 | the digits of a number read back as the number |
| Numbers.DecimalIsPlain | scripts/loader.py:140-141 | a decimal numeral starts with a digit, so neither `$`, `0x` nor a sign applies |
| Numbers.DecimalRoundTrip | scripts/loader.py:138-145 | a decimal address reads back as itself |
| Numbers.NegativeRoundTrip | scripts/loader.py:138-145 | a negative decimal address is accepted and keeps its sign |
| Numbers.HexRoundTrip | scripts/loader.py:138-145 | a hexadecimal address written with `0x` or with `$` reads back as itself |
| Numbers.Rejections | scripts/loader.py:138-145 | `0X10` (upper-case prefix, so base 10), a bare `$` and `12a` are not numbers; the empty string raises |
| Numbers.HexExamples | scripts/loader.py:138-145 | `$ff` is 255 and `0x1F` is 31 |

## Left out

- I/O of the CPU core: `printf`, `flash_led` and `state.bus_state_pins` are output only and change nothing the model tracks.
- Cycle counts: `process_next_instruction` never adds to `cycles_used`, so a step that returns reports `Cycles(0)`.
- Execution.Step: where `process_next_instruction` reaches its closing brace without a `return` (NOP, and the opcodes with low digit F that go to `clr` or `st_16`), C gives no return value. The model returns `Unspecified`.
- Execution.Step: where the prefix loop would spin for ever (all 64 KB of memory are prefix bytes), the model returns `Hangs` instead of not terminating. `Processor.Cpu.ReadOpcode` counts the prefixes it reads and stops at the same point.
- Requests raised by other code: `state.interrupts` and `state.nmi_disarmed` are set by the PIA and the monitor. They are fields of the state, and each step takes whatever they hold.
- `move_pc` (source/cpu.c:511) and `transfer_decode` (source/cpu.c:2143) are never called; `transfer_decode2` is modelled instead.
- `address_from_dpr` is called only with offset 0, so `Processor.Cpu.AddressFromDpr` takes no offset.
- The other files of the repository are not part of this model: cpu.c and its headers at the top level (an older copy), e6809.c, the tests, the monitor, main, the keypad and the PIA.
- HT16K33 I2C traffic: `i2c_write_byte`, `i2c_write_block`, power, brightness and blink are not modelled. `Display.Draw` builds the 17-byte frame but does not send it, and the I2C address parameter of every routine is dropped.
- Display.SetGlyph: requires a digit of 0-3. The source does not check the digit, and a larger one would index `POS` out of bounds, which is undefined behaviour in C.
- Serial port and clock of the upload script: `await_ack` waits up to 2000 ms for a line. `Loader.Link` draws the outcome of each wait from a sequence of replies given in advance (true for a line, false for a time-out; an exhausted sequence means time-out). What the board prints back is not modelled.
- Process exit: `sys.exit(1)` after a time-out becomes `Loader.Upload` returning status 1 with the port closed. The rest of the upload is then not performed.
- Command line: the option parsing, `get_file`, opening the port and the messages are not modelled. Only `str_to_int`, the function the `-s` option uses, is.
- Numbers.StrToInt: Python's `int` also accepts surrounding whitespace, `_` between digits and non-ASCII digits. These strings are reported as not numbers. `False`, the value the source returns for a malformed string, is modelled as `NotNumber`.
- Loader.AddressFrame: an address outside 0..0xFFFF (a negative one, say) is accepted by `str_to_int`. The frame keeps it modulo 0x10000, as `(address >> 8) & 0xFF` and `address & 0xFF` do in Python.

## Findings

| source | as written | input that shows it | evidently intended | confidence | as-written member | corrected member |
|---|---|---|---|---|---|---|
| source/cpu.c:919-939 | `daa` decides the high correction from the already corrected A, and also whenever the original low digit was above 9 | 0x15 + 0x05 leaves A = 0x1A (H, C clear); DAA gives 0x80 | 0x20, the decimal sum | not executed | Accumulator.DecimalAdjustAsWrittenHighDigit | Accumulator.DecimalAdjustCorrects |
| source/cpu.c:919-939 | `daa` clears C and sets it only if the high correction overflows, losing the carry of the addition | 0x99 + 0x99 leaves A = 0x32 with H and C set; DAA gives 0x98 with C clear | 0x98 with C set (198) | not executed | Accumulator.DecimalAdjustAsWrittenLosesCarry | Accumulator.DecimalAdjustCorrects |
| source/cpu.c:919-939 | `daa` tests `msn > 8` for the high correction, so a high digit of 9 is corrected on its own | 0x45 + 0x50 leaves A = 0x95 (H, C clear); DAA gives 0xF5 | 0x95, already decimal | not executed | Accumulator.DecimalAdjustAsWrittenHighNine | Accumulator.DecimalAdjustCorrects |
| source/cpu.c:1402-1430 | `sub_16` leaves C as the carry of the internal addition, not the borrow | SUBD of 3 from D = 5 gives 2 with C set | C clear: no borrow, as `subtract_16` does for the compares | not executed | Wide.SubDAsWrittenBorrowWrong | Wide.SubD |
| source/cpu.c:2639-2643 | the 8-bit offset is read into an `int8_t`, already negative, and 256 is subtracted again when bit 7 is set | `n,X` with n = 0xFF and X = 0x1000 addresses 0x0EFF | 0x0FFF (X - 1) | not executed | Addressing.Offset8AsWrittenMisses | Addressing.Offset8 |
| source/cpu.c:678-711 | `add_16` and `sub_16` take the operand address from `address_from_mode` alone, which moves PC one byte past an immediate operand | ADDD #$1234: PC stops on the 0x34 | PC past both operand bytes, as `ld_16` and `cmp_16` do | not executed | Addressing.WideImmediateAsWritten | Addressing.WideOperand |
| source/cpu.c:263-271 | low digit 0 goes to `sub` only in column 7 and to `neg` in every other column | SUBA #imm (0x80) negates the byte after it; NEG extended (0x70) subtracts | NEG in columns 0 and 4-7, SUB in columns 8-F | not executed | Dispatch.DecodeAsWrittenMisroutes | Dispatch.Decode |
| source/cpu.c:283-293 | low digit 3 in columns 8-B goes to `sub_16` whatever the prefix | CMPD (0x10 0x83) subtracts from D and writes D | `cmp_16`: CMPD with prefix 0x10 and CMPU with prefix 0x11 only set flags | not executed | Dispatch.DecodeAsWrittenMisroutes | Dispatch.Decode |
| source/cpu.c:856-876 | `cmp_16` picks X, Y or S only for opcode 0x8C (`CMPX_immed`), and U only for 0x83 | CMPX direct (0x9C) compares D | X, Y or S in every addressing mode | not executed | Instructions.CompareTargetDiffers | Instructions.CompareTargetEveryMode |
| source/cpu.c:210 | `swi` receives the prefix byte (0, 0x10 or 0x11) but tests for 1, 2 and 3 | SWI (0x3F) pushes the registers and runs on without taking the vector or masking interrupts | SWI1, SWI2, SWI3 take their vectors | not executed | Instructions.SoftwareInterruptAsWritten | Instructions.SoftwareInterruptVectors |
| source/cpu.c:2831-2871 | IRQ and NMI push `PUSH_PULL_ALL_REGS` (0xFE), which leaves CC out, while `rti` with E set pulls CC first | after an IRQ entry, RTI loads CC from the saved A and every register after it one byte off | all registers, CC included, saved and restored | not executed | Effects.RtiAfterInterruptAsWritten | Effects.RtiAfterInterrupt |
| ht16k33.c:165-166 | a space selects `CHARSET[HT16K33_SEGMENT_SPACE_CHAR]`, and that constant is 0, the index of '0' | `set_alpha(' ', ...)` shows 0 | a blank digit | not executed | Display.SpaceShowsZero | Display.GlyphMeaning |

The `Processor.Cpu` methods, `Execution.Step` and `Display.SetAlpha` run the as-written definitions; the corrected ones stand beside them with their properties proved.
