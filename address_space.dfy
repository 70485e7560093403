/**
 * The 64 KB memory of the emulated MC6809 (`uint8_t mem[KB64]`,
 * source/cpu.c:66-68) as the specification sees it, and address arithmetic
 * in `uint16_t`: moving an address up or down wraps from 0xFFFF to 0 and
 * back, as `reg.pc++`, `dest--` and `source++` do in the source.
 */
module AddressSpace {
  import opened Bytes

  /** The memory: one byte per address. */
  type Memory = m: seq<Byte> | |m| == MemorySize witness seq(MemorySize, (i: int) => 0 as Byte)

  /** `address + n` in `uint16_t`. */
  function Above(address: Word, n: nat): (r: Word)
    requires n <= MemorySize
    ensures (r - address - n) % MemorySize == 0
  {
    if address + n < MemorySize then address + n else address + n - MemorySize
  }

  /** `address - n` in `uint16_t`. */
  function Below(address: Word, n: nat): (r: Word)
    requires n <= MemorySize
    ensures (r - address + n) % MemorySize == 0
  {
    if address >= n then address - n else address + MemorySize - n
  }

  /** How far `address` lies above `base`, going up and wrapping past 0xFFFF. */
  function Distance(base: Word, address: Word): (n: nat)
    ensures n < MemorySize
  {
    if address >= base then address - base else address + MemorySize - base
  }

  /** Going up `n` from `base` lands `n` above it, and going back down returns to `base`. */
  lemma AboveBelow(base: Word, n: nat)
    requires n < MemorySize
    ensures Distance(base, Above(base, n)) == n
    ensures Below(Above(base, n), n) == base && Above(Below(base, n), n) == base
  {}

  /** `(mem[address] << 8) | mem[address + 1]`: the big-endian word at an address; the second byte wraps to 0. */
  function WordAt(m: Memory, address: Word): Word {
    Join(m[address], m[Next(address)])
  }

  /** The `n` bytes from `base` upwards, wrapping past 0xFFFF. */
  function ReadImage(m: Memory, base: Word, n: nat): (image: seq<Byte>)
    requires n <= MemorySize
    ensures |image| == n
  {
    seq(n, k requires 0 <= k < n => m[Above(base, k)])
  }

  /** The memory with `image` written from `base` upwards, wrapping past 0xFFFF, and every other byte kept. */
  function Stacked(m: Memory, base: Word, image: seq<Byte>): (m': Memory)
    requires |image| <= MemorySize
  {
    seq(MemorySize, address requires 0 <= address < MemorySize =>
      if Distance(base, address) < |image| then image[Distance(base, address)] else m[address])
  }

  /** Reading back what `Stacked` wrote gives the image. */
  lemma {:induction false} ReadStacked(m: Memory, base: Word, image: seq<Byte>)
    requires |image| < MemorySize
    ensures ReadImage(Stacked(m, base, image), base, |image|) == image
  {
    forall k | 0 <= k < |image|
      ensures ReadImage(Stacked(m, base, image), base, |image|)[k] == image[k]
    {
      AboveBelow(base, k);
    }
  }

  /** Reading starts with the byte at the base and continues from the next address. */
  lemma {:induction false} ReadImageStep(m: Memory, base: Word, n: nat)
    requires 0 < n <= MemorySize
    ensures ReadImage(m, base, n)[0] == m[base]
    ensures ReadImage(m, base, n)[1..] == ReadImage(m, Next(base), n - 1)
  {
    forall k | 0 <= k < n - 1
      ensures ReadImage(m, base, n)[1..][k] == ReadImage(m, Next(base), n - 1)[k]
    {
      assert Above(base, k + 1) == Above(Next(base), k);
    }
  }

  /**
   * Writing one byte just below a stacked image extends the image by that
   * byte: `dest--; mem[dest] = value`, the step every push is made of.
   */
  lemma {:induction false} StackedPush(m: Memory, base: Word, image: seq<Byte>, value: Byte)
    requires |image| < MemorySize - 1
    ensures Stacked(m, base, image)[Prev(base) := value] == Stacked(m, Prev(base), [value] + image)
  {
    var lhs := Stacked(m, base, image)[Prev(base) := value];
    var rhs := Stacked(m, Prev(base), [value] + image);
    forall address | 0 <= address < MemorySize
      ensures lhs[address] == rhs[address]
    {
      if address != Prev(base) {
        assert Distance(Prev(base), address) == Distance(base, address) + 1;
      }
    }
  }

  /** An empty image changes nothing. */
  lemma {:induction false} StackedNothing(m: Memory, base: Word)
    ensures Stacked(m, base, []) == m
  {
    assert forall address | 0 <= address < MemorySize :: Stacked(m, base, [])[address] == m[address];
  }
}
