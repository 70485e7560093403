/**
 * Bytes and 16-bit words of the MC6809 model.
 *
 * The C source keeps 8-bit registers and memory cells in `uint8_t` and
 * 16-bit registers and addresses in `uint16_t`, splitting and joining them
 * with `>> 8`, `& 0xFF` and `(msb << 8) | lsb` (source/cpu.c, throughout).
 * Both are integers in their range here, so that a word indexes the 64 KB
 * memory directly, and every wrap-around of the C types is an explicit
 * `Wrap` or `Wrap8`.
 */
module Bytes {
  import opened Bits

  /** The size of the address space: `KB64` in source/cpu.h. */
  const MemorySize := 0x10000

  /** A `uint8_t` value. */
  type Byte = b: int | 0 <= b < 256

  /** A `uint16_t` register value or memory address. */
  type Word = w: int | 0 <= w < 0x10000

  /** Truncation of an integer to `uint16_t`, for negative values too. */
  function Wrap(n: int): (w: Word)
    ensures 0 <= n < MemorySize ==> w == n
    ensures (w - n) % MemorySize == 0
  {
    n % MemorySize
  }

  /** Truncation of an integer to `uint8_t`, for negative values too. */
  function Wrap8(n: int): (b: Byte)
    ensures 0 <= n < 256 ==> b == n
    ensures (b - n) % 256 == 0
  {
    n % 256
  }

  /** `w + 1` in `uint16_t` arithmetic. */
  function Next(w: Word): (r: Word)
    ensures r == if w == 0xFFFF then 0 else w + 1
  {
    Wrap(w + 1)
  }

  /** `w - 1` in `uint16_t` arithmetic. */
  function Prev(w: Word): (r: Word)
    ensures r == if w == 0 then 0xFFFF else w - 1
  {
    Wrap(w - 1)
  }

  /** The high byte of a word: `(w >> 8) & 0xFF`. */
  function Hi(w: Word): Byte { w / 256 }

  /** The low byte of a word: `w & 0xFF`. */
  function Lo(w: Word): Byte { w % 256 }

  /** `(msb << 8) | lsb` as a word. */
  function Join(hi: Byte, lo: Byte): Word { hi * 256 + lo }

  /** Splitting a word into its bytes and joining them again gives the word back. */
  lemma JoinSplit(w: Word)
    ensures Join(Hi(w), Lo(w)) == w
  {}

  /** The bytes of a joined word are the two it was made of. */
  lemma SplitJoin(hi: Byte, lo: Byte)
    ensures Hi(Join(hi, lo)) == hi && Lo(Join(hi, lo)) == lo
  {}

  /** The signed value of a byte read as a two's-complement number. */
  function Signed8(b: Byte): (n: int)
    ensures -128 <= n < 128
    ensures Wrap8(n) == b
    ensures n < 0 <==> b >= 0x80
  {
    if b < 0x80 then b else b - 256
  }

  /** The signed value of a word read as a two's-complement number. */
  function Signed16(w: Word): (n: int)
    ensures -32768 <= n < 32768
    ensures Wrap(n) == w
    ensures n < 0 <==> w >= 0x8000
  {
    if w < 0x8000 then w else w - MemorySize
  }

  /** Bit `i` of a value is the remainder by 2 of the value divided by 2 to the `i`. */
  lemma {:induction false} BitDiv(value: nat, i: nat)
    ensures Bit(value, i) <==> (value / Pow2(i)) % 2 == 1
  {
    if i > 0 {
      BitDiv(value / 2, i - 1);
      DivModUnique(value, 2 * Pow2(i - 1), (value / 2) / Pow2(i - 1), value % 2 + 2 * ((value / 2) % Pow2(i - 1)));
    }
  }

  /** `is_bit_set(value, 7)` on a byte: the sign bit. */
  lemma {:induction false} Negative8(b: Byte)
    ensures Bit(b, 7) <==> b >= 0x80
  {
    BitDiv(b, 7);
    Pow2Values();
  }

  /** `is_bit_set(value, 15)` on a word: the sign bit. */
  lemma {:induction false} Negative16(w: Word)
    ensures Bit(w, 15) <==> w >= 0x8000
  {
    BitDiv(w, 15);
    Pow2Values();
  }

  /** The powers of two the source's masks use. */
  lemma Pow2Values()
    ensures Pow2(4) == 16 && Pow2(7) == 128 && Pow2(8) == 256 && Pow2(15) == 0x8000 && Pow2(16) == 0x10000
  {}

  /** `value & 0x01` on a byte: bit 0 is oddness. */
  lemma LowBit(b: Byte)
    ensures Bit(b, 0) <==> b % 2 == 1
  {}

  /** `a & b` on bytes. */
  function And8(a: Byte, b: Byte): Byte
  {
    Pow2Values();
    Bitwise(AndOp, a, b, 8)
  }

  /** `a | b` on bytes. */
  function Or8(a: Byte, b: Byte): Byte
  {
    Pow2Values();
    Bitwise(OrOp, a, b, 8)
  }

  /** `a ^ b` on bytes. */
  function Xor8(a: Byte, b: Byte): Byte
  {
    Pow2Values();
    Bitwise(XorOp, a, b, 8)
  }

  /** The eight bits of a byte, bit 0 first. */
  function BitsOf(b: Byte): (s: seq<bool>)
    ensures |s| == 8
  {
    ToBits(b, 8)
  }

  /** The byte with the given eight bits, bit 0 first. */
  function ByteOf(s: seq<bool>): Byte
    requires |s| == 8
  {
    FromBitsBound(s);
    Pow2Values();
    FromBits(s)
  }

  /** A byte's bits give the byte back. */
  lemma {:induction false} ByteOfBits(b: Byte)
    ensures ByteOf(BitsOf(b)) == b
  {
    Pow2Values();
    FromToBitsExact(b, 8);
  }

  /** Eight bits made into a byte are given back by it. */
  lemma {:induction false} BitsOfByte(s: seq<bool>)
    requires |s| == 8
    ensures BitsOf(ByteOf(s)) == s
  {
    ToFromBits(s);
  }

  /** The bits of `1 << i`. */
  lemma {:induction false} BitsOfPow2(i: nat)
    requires i < 8
    ensures Pow2(i) < 256
    ensures forall j :: 0 <= j < 8 ==> BitsOf(Pow2(i))[j] == (j == i)
  {
    Pow2Values();
    Pow2Below(i, 8);
    forall j | 0 <= j < 8
      ensures BitsOf(Pow2(i))[j] == (j == i)
    {
      ToBitsBit(Pow2(i), 8, j);
      BitOfPow2(i, j);
    }
  }

  /** The bits of `~(1 << i)` as a byte. */
  lemma {:induction false} BitsOfInvertedPow2(i: nat, mask: Byte)
    requires i < 8 && mask == 255 - Pow2(i)
    ensures forall j :: 0 <= j < 8 ==> BitsOf(mask)[j] == (j != i)
  {
    BitsOfPow2(i);
    var one := BitsOf(Pow2(i));
    FromToBitsExact(Pow2(i), 8);
    InvertValue(one);
    Pow2Values();
    var flipped := Invert(one);
    assert FromBits(flipped) == mask;
    ToFromBits(flipped);
    assert BitsOf(mask) == flipped;
    forall j | 0 <= j < 8
      ensures BitsOf(mask)[j] == (j != i)
    {
      assert flipped[j] == !one[j];
    }
  }

  /** `value |= (1 << i)` sets bit `i` and keeps the others. */
  lemma {:induction false} SetBitIsOr(value: Byte, i: nat)
    requires i < 8
    ensures Pow2(i) < 256
    ensures BitsOf(Or8(value, Pow2(i))) == BitsOf(value)[i := true]
  {
    BitsOfPow2(i);
    BitwiseBits(OrOp, value, Pow2(i), 8);
    ZipOne(OrOp, BitsOf(value), BitsOf(Pow2(i)), i);
  }

  /** `value &= ~(1 << i)` clears bit `i` and keeps the others. */
  lemma {:induction false} ClearBitIsAnd(value: Byte, i: nat)
    requires i < 8
    ensures 0 <= 255 - Pow2(i) < 256
    ensures BitsOf(And8(value, 255 - Pow2(i))) == BitsOf(value)[i := false]
  {
    BitsOfPow2(i);
    BitsOfInvertedPow2(i, 255 - Pow2(i));
    BitwiseBits(AndOp, value, 255 - Pow2(i), 8);
    ZipAllBut(BitsOf(value), BitsOf(255 - Pow2(i)), i);
  }

  /** `value ^= (1 << i)` flips bit `i` and keeps the others. */
  lemma {:induction false} FlipBitIsXor(value: Byte, i: nat)
    requires i < 8
    ensures Pow2(i) < 256
    ensures BitsOf(Xor8(value, Pow2(i))) == BitsOf(value)[i := !BitsOf(value)[i]]
  {
    BitsOfPow2(i);
    BitwiseBits(XorOp, value, Pow2(i), 8);
    ZipOne(XorOp, BitsOf(value), BitsOf(Pow2(i)), i);
  }

  /** `value | (1 << i)` adds `1 << i` when bit `i` was clear. */
  lemma {:induction false} SetBitAdds(value: Byte, i: nat)
    requires i < 8
    ensures Pow2(i) < 256
    ensures Or8(value, Pow2(i)) == value + (if Bit(value, i) then 0 else Pow2(i))
  {
    SetBitIsOr(value, i);
    FromBitsUpdate(BitsOf(value), i, true);
    ToBitsBit(value, 8, i);
    ByteOfBits(value);
    ByteOfBits(Or8(value, Pow2(i)));
  }
}
