/**
 * `alu(value_1, value_2, use_carry)` (source/cpu.c:1513-1565), the one
 * adder every arithmetic instruction of the emulated MC6809 goes through.
 *
 * `Add` says what it computes: the byte sum with the incoming carry, C the
 * carry out of bit 7, V signed overflow, H set (never cleared) by a carry
 * out of bit 3, the other flags kept. `Alu` is the source's procedure,
 * three loops over eight-element bit arrays, proved to compute `Add`; the
 * lemmas in between say what the ripple-carry loop builds after each bit.
 */
module Adder {
  import opened Bits
  import opened Bytes
  import opened ConditionCodes

  /** An 8-bit answer with the condition codes after computing it. */
  datatype Result8 = Result8(value: Byte, cc: Cc)

  /** A 16-bit answer with the condition codes after computing it. */
  datatype Result16 = Result16(value: Word, cc: Cc)

  /** The carry `alu` starts from: C when asked to use it, otherwise 0. */
  function CarryIn(cc: Cc, useCarry: bool): nat { if useCarry && cc[CBit] then 1 else 0 }

  /** What `alu` computes. */
  function Add(cc: Cc, v1: Byte, v2: Byte, useCarry: bool): Result8 {
    var cin := CarryIn(cc, useCarry);
    var sum := v1 + v2 + cin;
    Result8(if sum < 256 then sum else sum - 256,
      cc[HBit := cc[HBit] || v1 % 16 + v2 % 16 + cin >= 16]
        [CBit := v1 + v2 + cin >= 256]
        [VBit := !(-128 <= Signed8(v1) + Signed8(v2) + cin < 128)])
  }

  /**
   * The sum in both readings: unsigned, the answer and C make up the exact
   * sum; signed, the answer is the exact sum unless V is set.
   */
  lemma {:induction false} AddSums(cc: Cc, v1: Byte, v2: Byte, useCarry: bool)
    ensures var r := Add(cc, v1, v2, useCarry);
      && v1 + v2 + CarryIn(cc, useCarry) == r.value + (if r.cc[CBit] then 256 else 0)
      && (!r.cc[VBit] <==> Signed8(r.value) == Signed8(v1) + Signed8(v2) + CarryIn(cc, useCarry))
      && (r.cc[HBit] <==> cc[HBit] || v1 % 16 + v2 % 16 + CarryIn(cc, useCarry) >= 16)
  {
    var cin := CarryIn(cc, useCarry);
    var r := Add(cc, v1, v2, useCarry);
    DivModUnique(v1 + v2 + cin, 256, if v1 + v2 + cin >= 256 then 1 else 0, r.value);
  }

  /** Overflow is the carry into bit 7 differing from the carry out of it. */
  lemma OverflowIsCarries(v1: Byte, v2: Byte, cin: nat)
    requires cin <= 1
    ensures !(-128 <= Signed8(v1) + Signed8(v2) + cin < 128)
        <==> ((v1 % 128 + v2 % 128 + cin >= 128) != (v1 + v2 + cin >= 256))
  {}

  /** The first loop of `alu`: bit `i` of the value into element `i`. */
  method ToBinary(value: Byte) returns (binary: array<bool>)
    ensures fresh(binary)
    ensures binary[..] == BitsOf(value)
  {
    binary := new bool[8];
    for i := 0 to 8
      invariant forall j :: 0 <= j < i ==> binary[j] == Bit(value, j)
    {
      binary[i] := Bit(value, i);
    }
    forall j | 0 <= j < 8
      ensures binary[j] == BitsOf(value)[j]
    {
      ToBitsBit(value, 8, j);
    }
  }

  /** The last loop of `alu`: element `i` set makes bit `i` of the answer set. */
  method FromBinary(answer: array<bool>) returns (final: Byte)
    requires answer.Length == 8
    ensures final == ByteOf(answer[..])
  {
    final := 0;
    for i := 0 to 8
      invariant final == FromBits(answer[..i])
    {
      FromBitsNext(answer[..], i);
      assert answer[..][..i + 1] == answer[..i + 1];
      if answer[i] {
        FromBitsBound(answer[..i]);
        BitBelow(final, i);
        SetBitAdds(final, i);
        final := Or8(final, Pow2(i));
      }
    }
    assert answer[..8] == answer[..];
  }

  /** What the ripple loop of `alu` has built after some bits: the answer bits, the running carry, H, and the carry out of bit 6. */
  datatype Ripple = Ripple(answer: seq<bool>, carry: bool, half: bool, six: bool)

  /** One pass of the ripple loop, for bit `i` with operand bits `b1` and `b2`. */
  function RippleStep(r: Ripple, b1: bool, b2: bool, i: nat): Ripple {
    var bit := if b1 == b2 then r.carry else !r.carry;
    var carry := if b1 == b2 then b1 else r.carry;
    Ripple(r.answer + [bit], carry, r.half || (i == 3 && carry), if i == 6 then carry else r.six)
  }

  /** The ripple loop after its first `i` passes. */
  function RippleBits(s1: seq<bool>, s2: seq<bool>, carryIn: bool, i: nat): (r: Ripple)
    requires i <= |s1| == |s2|
    ensures |r.answer| == i
  {
    if i == 0 then Ripple([], carryIn, false, false)
    else RippleStep(RippleBits(s1, s2, carryIn, i - 1), s1[i - 1], s2[i - 1], i - 1)
  }

  /** One pass adds the operand bits' weight to the answer and carry. */
  lemma {:induction false} RippleStepSum(r: Ripple, b1: bool, b2: bool, i: nat, sum: int)
    requires |r.answer| == i
    requires FromBits(r.answer) + (if r.carry then Pow2(i) else 0) == sum
    ensures var next := RippleStep(r, b1, b2, i);
      FromBits(next.answer) + (if next.carry then Pow2(i + 1) else 0)
        == sum + (if b1 then Pow2(i) else 0) + (if b2 then Pow2(i) else 0)
  {
    FromBitsAppend(r.answer, RippleStep(r, b1, b2, i).answer[i]);
    assert RippleStep(r, b1, b2, i).answer == r.answer + [RippleStep(r, b1, b2, i).answer[i]];
  }

  /** The ripple loop adds: the answer bits and the carry make the sum of the operand bits so far. */
  lemma {:induction false} RippleSum(s1: seq<bool>, s2: seq<bool>, carryIn: bool, i: nat)
    requires i <= |s1| == |s2|
    ensures var r := RippleBits(s1, s2, carryIn, i);
      FromBits(r.answer) + (if r.carry then Pow2(i) else 0)
        == FromBits(s1[..i]) + FromBits(s2[..i]) + (if carryIn then 1 else 0)
  {
    if i > 0 {
      RippleSum(s1, s2, carryIn, i - 1);
      var before := RippleBits(s1, s2, carryIn, i - 1);
      RippleStepSum(before, s1[i - 1], s2[i - 1], i - 1, FromBits(s1[..i - 1]) + FromBits(s2[..i - 1]) + (if carryIn then 1 else 0));
      FromBitsNext(s1, i - 1);
      FromBitsNext(s2, i - 1);
    }
  }

  /** Where the ripple carry stands after `k` bits. */
  lemma {:induction false} CarryAfter(answer: seq<bool>, carry: bool, s1: seq<bool>, s2: seq<bool>, cin: nat, k: nat, p: nat)
    requires |answer| == k <= |s1| == |s2| && p == Pow2(k)
    requires FromBits(answer) + (if carry then Pow2(k) else 0) == FromBits(s1[..k]) + FromBits(s2[..k]) + cin
    ensures carry <==> FromBits(s1[..k]) + FromBits(s2[..k]) + cin >= p
  {
    FromBitsBound(answer);
  }

  /** The loop's H is the carry out of bit 3 and its bit-6 carry the carry out of bit 6. */
  lemma {:induction false} RippleCarries(s1: seq<bool>, s2: seq<bool>, carryIn: bool, i: nat)
    requires i <= |s1| == |s2|
    ensures var r := RippleBits(s1, s2, carryIn, i);
      && (r.half <==> i > 3 && FromBits(s1[..4]) + FromBits(s2[..4]) + (if carryIn then 1 else 0) >= Pow2(4))
      && (r.six <==> i > 6 && FromBits(s1[..7]) + FromBits(s2[..7]) + (if carryIn then 1 else 0) >= Pow2(7))
  {
    if i > 0 {
      RippleCarries(s1, s2, carryIn, i - 1);
      if i == 4 || i == 7 {
        var r := RippleBits(s1, s2, carryIn, i);
        RippleSum(s1, s2, carryIn, i);
        CarryAfter(r.answer, r.carry, s1, s2, if carryIn then 1 else 0, i, Pow2(i));
      }
    }
  }

  /** The low `k` bits of the operands, as numbers. */
  lemma {:induction false} LowBitsSum(v1: Byte, v2: Byte, k: nat, p: nat)
    requires k <= 8 && p == Pow2(k)
    ensures FromBits(BitsOf(v1)[..k]) + FromBits(BitsOf(v2)[..k]) == v1 % p + v2 % p
  {
    ToBitsPrefix(v1, 8, k);
    ToBitsPrefix(v2, 8, k);
    FromToBits(v1, k);
    FromToBits(v2, k);
  }

  /** The carry out of bit 3, from the low nibbles. */
  lemma {:induction false} HalfFromNibbles(v1: Byte, v2: Byte, cin: nat)
    ensures FromBits(BitsOf(v1)[..4]) + FromBits(BitsOf(v2)[..4]) + cin >= Pow2(4)
        <==> v1 % 16 + v2 % 16 + cin >= 16
  {
    Pow2Values();
    LowBitsSum(v1, v2, 4, 16);
  }

  /** The carry out of bit 6, from the low seven bits. */
  lemma {:induction false} SixFromLowBits(v1: Byte, v2: Byte, cin: nat)
    ensures FromBits(BitsOf(v1)[..7]) + FromBits(BitsOf(v2)[..7]) + cin >= Pow2(7)
        <==> v1 % 128 + v2 % 128 + cin >= 128
  {
    Pow2Values();
    LowBitsSum(v1, v2, 7, 128);
  }

  /** The answer bits and the carry out of bit 7, as the byte sum and its overflow. */
  lemma {:induction false} SumOutOf(answer: seq<bool>, carry: bool, v1: Byte, v2: Byte, cin: nat)
    requires |answer| == 8
    requires FromBits(answer) + (if carry then Pow2(8) else 0)
          == FromBits(BitsOf(v1)[..8]) + FromBits(BitsOf(v2)[..8]) + cin
    ensures carry <==> v1 + v2 + cin >= 256
    ensures FromBits(answer) == (v1 + v2 + cin) % 256
  {
    Pow2Values();
    assert BitsOf(v1)[..8] == BitsOf(v1);
    assert BitsOf(v2)[..8] == BitsOf(v2);
    FromToBitsExact(v1, 8);
    FromToBitsExact(v2, 8);
    FromBitsBound(answer);
    DivModUnique(v1 + v2 + cin, 256, if carry then 1 else 0, FromBits(answer));
  }

  /** The answer and flags `alu` builds from what its loop records are those of `Add`. */
  lemma {:induction false} AddFromCarries(cc: Cc, v1: Byte, v2: Byte, useCarry: bool, answer: Byte, half: bool, carry: bool, six: bool)
    requires answer == (v1 + v2 + CarryIn(cc, useCarry)) % 256
    requires half <==> v1 % 16 + v2 % 16 + CarryIn(cc, useCarry) >= 16
    requires carry <==> v1 + v2 + CarryIn(cc, useCarry) >= 256
    requires six <==> v1 % 128 + v2 % 128 + CarryIn(cc, useCarry) >= 128
    ensures Add(cc, v1, v2, useCarry) == Result8(answer, cc[HBit := cc[HBit] || half][CBit := carry][VBit := carry != six])
  {
    OverflowIsCarries(v1, v2, CarryIn(cc, useCarry));
  }

  /** After all eight passes the ripple loop holds the byte sum, the carry out, and the carries out of bits 3 and 6. */
  lemma {:induction false} RippleResult(v1: Byte, v2: Byte, carryIn: bool, rip: Ripple)
    requires rip == RippleBits(BitsOf(v1), BitsOf(v2), carryIn, 8)
    ensures var cin := if carryIn then 1 else 0;
      && FromBits(rip.answer) == (v1 + v2 + cin) % 256
      && (rip.carry <==> v1 + v2 + cin >= 256)
      && (rip.half <==> v1 % 16 + v2 % 16 + cin >= 16)
      && (rip.six <==> v1 % 128 + v2 % 128 + cin >= 128)
  {
    var cin := if carryIn then 1 else 0;
    RippleSum(BitsOf(v1), BitsOf(v2), carryIn, 8);
    RippleCarries(BitsOf(v1), BitsOf(v2), carryIn, 8);
    SumOutOf(rip.answer, rip.carry, v1, v2, cin);
    HalfFromNibbles(v1, v2, cin);
    SixFromLowBits(v1, v2, cin);
  }

  /** What `alu` returns and the flags it sets, read off the ripple loop, are those of `Add`. */
  lemma {:induction false} RippleIsAdd(cc: Cc, v1: Byte, v2: Byte, useCarry: bool, rip: Ripple, final: Byte, flags: Cc)
    requires rip == RippleBits(BitsOf(v1), BitsOf(v2), useCarry && cc[CBit], 8)
    requires final == ByteOf(rip.answer)
    requires flags == cc[HBit := cc[HBit] || rip.half][CBit := rip.carry][VBit := rip.carry != rip.six]
    ensures Add(cc, v1, v2, useCarry) == Result8(final, flags)
  {
    RippleResult(v1, v2, useCarry && cc[CBit], rip);
    AddFromCarries(cc, v1, v2, useCarry, final, rip.half, rip.carry, rip.six);
  }

  /**
   * The middle loop of `alu`: a ripple-carry adder over the bit arrays,
   * setting H on a carry out of bit 3 and recording the carry out of bit 6.
   */
  method RippleLoop(binary1: array<bool>, binary2: array<bool>, carryIn: bool, cc: Cc)
    returns (answer: array<bool>, bitCarry: bool, bit6Carry: bool, flags: Cc)
    requires binary1.Length == 8 && binary2.Length == 8
    ensures fresh(answer)
    ensures var rip := RippleBits(binary1[..], binary2[..], carryIn, 8);
      answer[..] == rip.answer && bitCarry == rip.carry && bit6Carry == rip.six
      && flags == cc[HBit := cc[HBit] || rip.half]
  {
    answer := new bool[8];
    bitCarry := carryIn;
    bit6Carry := false;
    flags := cc;
    ghost var rip := Ripple([], carryIn, false, false);
    for i := 0 to 8
      invariant rip == RippleBits(binary1[..], binary2[..], carryIn, i)
      invariant answer[..i] == rip.answer && bitCarry == rip.carry && bit6Carry == rip.six
      invariant flags == cc[HBit := cc[HBit] || rip.half]
    {
      rip := RippleStep(rip, binary1[i], binary2[i], i);
      if binary1[i] == binary2[i] {
        answer[i] := bitCarry;
        bitCarry := binary1[i];
      } else {
        answer[i] := !bitCarry;
      }
      if i == 3 && bitCarry {
        flags := flags[HBit := true];
      }
      if i == 6 {
        bit6Carry := bitCarry;
      }
      assert answer[..i + 1] == answer[..i] + [answer[i]];
    }
    assert answer[..] == answer[..8];
  }

  /**
   * `alu(value_1, value_2, use_carry)`: split both operands into bit arrays,
   * clear C and V, add bit by bit with a ripple carry (setting H on the
   * way), set C from the final carry and V when it differs from the carry
   * out of bit 6, and reassemble the answer.
   */
  method Alu(cc: Cc, value1: Byte, value2: Byte, useCarry: bool) returns (r: Result8)
    ensures r == Add(cc, value1, value2, useCarry)
  {
    var binary1 := ToBinary(value1);
    var binary2 := ToBinary(value2);
    var bitCarry := false;
    if useCarry {
      bitCarry := cc[CBit];
    }
    var flags := cc[CBit := false][VBit := false];
    var answer, carry, bit6Carry, flags' := RippleLoop(binary1, binary2, bitCarry, flags);
    flags := flags';
    if carry {
      flags := flags[CBit := true];
    }
    if carry != bit6Carry {
      flags := flags[VBit := true];
    }
    var final := FromBinary(answer);
    RippleIsAdd(cc, value1, value2, useCarry, RippleBits(binary1[..], binary2[..], useCarry && cc[CBit], 8), final, flags);
    r := Result8(final, flags);
  }
}
