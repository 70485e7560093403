/**
 * Bits of unsigned integers.
 *
 * The C source tests and changes single bits all the time: `(value >> i)
 * & 1`, `value |= (1 << i)`, `value &= ~(1 << i)`, `value ^= (1 << i)`,
 * and the byte operators `&`, `|`, `^` and `~`. The model keeps bytes and
 * words as integers and gives those operators an arithmetic meaning here:
 * a value's low `n` bits are a sequence of booleans, least significant
 * first, and the bitwise operators work on those sequences.
 */
module Bits {

  /** 2 to the power `n`: `1 << n`. */
  function Pow2(n: nat): (p: nat)
    ensures p >= 1
  {
    if n == 0 then 1 else 2 * Pow2(n - 1)
  }

  /** `(value & (1 << i)) != 0`: bit `i` of a value, found by halving it `i` times. */
  function Bit(value: nat, i: nat): bool
  {
    if i == 0 then value % 2 == 1 else Bit(value / 2, i - 1)
  }

  /** The low `n` bits of a value, least significant first. */
  function ToBits(value: nat, n: nat): (s: seq<bool>)
    ensures |s| == n
  {
    if n == 0 then [] else [value % 2 == 1] + ToBits(value / 2, n - 1)
  }

  /** The value of a sequence of bits, least significant first. */
  function FromBits(s: seq<bool>): nat
  {
    if |s| == 0 then 0 else (if s[0] then 1 else 0) + 2 * FromBits(s[1..])
  }

  // ---------------------------------------------------------------------
  // Division facts the solver does not find alone
  // ---------------------------------------------------------------------

  lemma MulAtLeast(d: int, k: int)
    requires d > 0 && k >= 1
    ensures d * k >= d
  {}

  lemma DistSub(d: int, a: int, b: int)
    ensures d * a - d * b == d * (a - b)
  {}

  /** Quotient and remainder are unique. */
  lemma {:induction false} DivModUnique(v: int, d: int, q: int, r: int)
    requires d > 0 && 0 <= r < d && v == d * q + r
    ensures v / d == q && v % d == r
  {
    var q0, r0 := v / d, v % d;
    DistSub(d, q, q0);
    DistSub(d, q0, q);
    if q > q0 {
      MulAtLeast(d, q - q0);
    } else if q < q0 {
      MulAtLeast(d, q0 - q);
    }
  }

  /** The remainder by `2q` from the lowest bit and the remainder by `q` of the rest. */
  lemma {:induction false} ModDouble(v: nat, q: nat)
    requires q > 0
    ensures v % (2 * q) == v % 2 + 2 * ((v / 2) % q)
  {
    DivModUnique(v, 2 * q, (v / 2) / q, v % 2 + 2 * ((v / 2) % q));
  }

  // ---------------------------------------------------------------------
  // Values and their bits
  // ---------------------------------------------------------------------

  /** `n` bits hold less than 2 to the `n`. */
  lemma {:induction false} FromBitsBound(s: seq<bool>)
    ensures FromBits(s) < Pow2(|s|)
  {
    if |s| > 0 {
      FromBitsBound(s[1..]);
    }
  }

  /** Reading the low `n` bits of a value keeps the value modulo 2 to the `n`. */
  lemma {:induction false} FromToBits(value: nat, n: nat)
    ensures FromBits(ToBits(value, n)) == value % Pow2(n)
  {
    if n > 0 {
      FromToBits(value / 2, n - 1);
      ModDouble(value, Pow2(n - 1));
    }
  }

  /** A value below 2 to the `n` is given back by its low `n` bits. */
  lemma {:induction false} FromToBitsExact(value: nat, n: nat)
    requires value < Pow2(n)
    ensures FromBits(ToBits(value, n)) == value
  {
    FromToBits(value, n);
    DivModUnique(value, Pow2(n), 0, value);
  }

  /** The bits of the value of a sequence of bits are that sequence. */
  lemma {:induction false} ToFromBits(s: seq<bool>)
    ensures ToBits(FromBits(s), |s|) == s
  {
    if |s| > 0 {
      ToFromBits(s[1..]);
      assert FromBits(s) % 2 == 1 <==> s[0];
      assert FromBits(s) / 2 == FromBits(s[1..]);
    }
  }

  /** Bit `i` of the sequence is `(value >> i) & 1`. */
  lemma {:induction false} ToBitsBit(value: nat, n: nat, i: nat)
    requires i < n
    ensures ToBits(value, n)[i] == Bit(value, i)
  {
    if i > 0 {
      ToBitsBit(value / 2, n - 1, i - 1);
    }
  }

  /** The first `k` of the low `n` bits are the low `k` bits. */
  lemma {:induction false} ToBitsPrefix(value: nat, n: nat, k: nat)
    requires k <= n
    ensures ToBits(value, n)[..k] == ToBits(value, k)
  {
    if k > 0 {
      ToBitsPrefix(value / 2, n - 1, k - 1);
      assert ToBits(value, n)[..k] == [value % 2 == 1] + ToBits(value / 2, n - 1)[..k - 1];
    }
  }

  /** A bit added at the top adds its weight. */
  lemma {:induction false} FromBitsAppend(s: seq<bool>, b: bool)
    ensures FromBits(s + [b]) == FromBits(s) + (if b then Pow2(|s|) else 0)
  {
    if |s| > 0 {
      FromBitsAppend(s[1..], b);
      assert (s + [b])[1..] == s[1..] + [b];
    }
  }

  /** One more bit of a prefix adds its weight. */
  lemma {:induction false} FromBitsNext(s: seq<bool>, i: nat)
    requires i < |s|
    ensures FromBits(s[..i + 1]) == FromBits(s[..i]) + (if s[i] then Pow2(i) else 0)
  {
    FromBitsAppend(s[..i], s[i]);
    assert s[..i + 1] == s[..i] + [s[i]];
  }

  /** 0 has no bit set. */
  lemma {:induction false} BitOfZero(i: nat)
    ensures !Bit(0, i)
  {
    if i > 0 {
      BitOfZero(i - 1);
    }
  }

  /** `1 << k` has bit `k` set and no other. */
  lemma {:induction false} BitOfPow2(k: nat, j: nat)
    ensures Bit(Pow2(k), j) <==> j == k
  {
    if k == 0 {
      if j > 0 {
        BitOfZero(j - 1);
      }
    } else if j > 0 {
      BitOfPow2(k - 1, j - 1);
    }
  }

  /** `1 << k` grows with `k`. */
  lemma {:induction false} Pow2Below(k: nat, n: nat)
    requires k < n
    ensures Pow2(k) < Pow2(n)
  {
    if k + 1 < n {
      Pow2Below(k, n - 1);
    }
  }

  /** A value below 2 to the `i` has bit `i` clear. */
  lemma {:induction false} BitBelow(value: nat, i: nat)
    requires value < Pow2(i)
    ensures !Bit(value, i)
  {
    if i > 0 {
      BitBelow(value / 2, i - 1);
    }
  }

  /** Changing one bit of a sequence changes its value by that bit's weight. */
  lemma {:induction false} FromBitsUpdate(s: seq<bool>, i: nat, b: bool)
    requires i < |s|
    ensures FromBits(s[i := b]) == FromBits(s) - (if s[i] then Pow2(i) else 0) + (if b then Pow2(i) else 0)
  {
    if i == 0 {
      assert s[i := b][1..] == s[1..];
    } else {
      FromBitsUpdate(s[1..], i - 1, b);
      assert s[i := b][1..] == s[1..][i - 1 := b];
    }
  }

  /** The bits of a sequence are all clear exactly when its value is 0. */
  lemma {:induction false} FromBitsZero(s: seq<bool>)
    ensures FromBits(s) == 0 <==> forall i :: 0 <= i < |s| ==> !s[i]
  {
    if |s| > 0 {
      FromBitsZero(s[1..]);
      assert forall i :: 1 <= i < |s| ==> s[i] == s[1..][i - 1];
    }
  }

  // ---------------------------------------------------------------------
  // Bitwise operators
  // ---------------------------------------------------------------------

  /** `&`, `|` and `^`. */
  datatype BitOp = AndOp | OrOp | XorOp

  /** What the operator does to one pair of bits. */
  function Apply(op: BitOp, x: bool, y: bool): bool
  {
    match op
    case AndOp => x && y
    case OrOp => x || y
    case XorOp => x != y
  }

  /** The operator applied bit by bit. */
  function Zip(op: BitOp, s: seq<bool>, t: seq<bool>): (r: seq<bool>)
    requires |s| == |t|
    ensures |r| == |s|
    ensures forall i :: 0 <= i < |s| ==> r[i] == Apply(op, s[i], t[i])
  {
    if |s| == 0 then [] else [Apply(op, s[0], t[0])] + Zip(op, s[1..], t[1..])
  }

  /** Combining with a sequence whose only set bit is `bit` changes that bit alone (`|`, `^`). */
  lemma {:induction false} ZipOne(op: BitOp, s: seq<bool>, t: seq<bool>, bit: nat)
    requires op != AndOp
    requires |s| == |t| && bit < |s|
    requires forall j :: 0 <= j < |t| ==> t[j] == (j == bit)
    ensures Zip(op, s, t) == s[bit := Apply(op, s[bit], true)]
  {
    var r := Zip(op, s, t);
    forall j | 0 <= j < |s|
      ensures r[j] == s[bit := Apply(op, s[bit], true)][j]
    {
      if j != bit {
        assert !t[j];
      }
    }
  }

  /** AND-ing with a sequence whose only clear bit is `bit` clears that bit alone. */
  lemma {:induction false} ZipAllBut(s: seq<bool>, t: seq<bool>, bit: nat)
    requires |s| == |t| && bit < |s|
    requires forall j :: 0 <= j < |t| ==> t[j] == (j != bit)
    ensures Zip(AndOp, s, t) == s[bit := false]
  {
    var r := Zip(AndOp, s, t);
    forall j | 0 <= j < |s|
      ensures r[j] == s[bit := false][j]
    {
      if j != bit {
        assert t[j];
      }
    }
  }

  /** `a & b`, `a | b` or `a ^ b` on the low `n` bits. */
  function Bitwise(op: BitOp, a: nat, b: nat, n: nat): (r: nat)
    ensures r < Pow2(n)
  {
    FromBitsBound(Zip(op, ToBits(a, n), ToBits(b, n)));
    FromBits(Zip(op, ToBits(a, n), ToBits(b, n)))
  }

  /** Each bit of the answer is the operator applied to the operands' bits. */
  lemma {:induction false} BitwiseBits(op: BitOp, a: nat, b: nat, n: nat)
    ensures ToBits(Bitwise(op, a, b, n), n) == Zip(op, ToBits(a, n), ToBits(b, n))
  {
    ToFromBits(Zip(op, ToBits(a, n), ToBits(b, n)));
  }

  /** Bit `i` of the answer, stated with `Bit`. */
  lemma {:induction false} BitwiseBit(op: BitOp, a: nat, b: nat, n: nat, i: nat)
    requires i < n
    ensures Bit(Bitwise(op, a, b, n), i) == Apply(op, Bit(a, i), Bit(b, i))
  {
    BitwiseBits(op, a, b, n);
    ToBitsBit(Bitwise(op, a, b, n), n, i);
    ToBitsBit(a, n, i);
    ToBitsBit(b, n, i);
  }

  /** XOR-ing with the same operand twice gives the low `n` bits back. */
  lemma {:induction false} XorTwice(a: nat, b: nat, n: nat)
    requires a < Pow2(n)
    ensures Bitwise(XorOp, Bitwise(XorOp, a, b, n), b, n) == a
  {
    var once := Bitwise(XorOp, a, b, n);
    BitwiseBits(XorOp, a, b, n);
    var twice := Zip(XorOp, ToBits(once, n), ToBits(b, n));
    assert twice == ToBits(a, n);
    FromToBitsExact(a, n);
  }

  /** The bits of the AND of two values are all clear exactly when no bit is set in both. */
  lemma {:induction false} AndZeroBits(s: seq<bool>, t: seq<bool>)
    requires |s| == |t|
    ensures FromBits(Zip(AndOp, s, t)) == 0 <==> forall i :: 0 <= i < |s| ==> !(s[i] && t[i])
  {
    FromBitsZero(Zip(AndOp, s, t));
  }

  /** The AND of two values is 0 exactly when they have no set bit in common. */
  lemma {:induction false} AndZero(a: nat, b: nat, n: nat)
    ensures Bitwise(AndOp, a, b, n) == 0 <==> forall i :: 0 <= i < n ==> !(Bit(a, i) && Bit(b, i))
  {
    AndZeroBits(ToBits(a, n), ToBits(b, n));
    if Bitwise(AndOp, a, b, n) == 0 {
      forall i | 0 <= i < n
        ensures !(Bit(a, i) && Bit(b, i))
      {
        ToBitsBit(a, n, i);
        ToBitsBit(b, n, i);
        assert !(ToBits(a, n)[i] && ToBits(b, n)[i]);
      }
    } else {
      var j :| 0 <= j < n && ToBits(a, n)[j] && ToBits(b, n)[j];
      ToBitsBit(a, n, j);
      ToBitsBit(b, n, j);
    }
  }

  /** Every bit flipped. */
  function Invert(s: seq<bool>): (r: seq<bool>)
    ensures |r| == |s|
    ensures forall i :: 0 <= i < |s| ==> r[i] == !s[i]
  {
    if |s| == 0 then [] else [!s[0]] + Invert(s[1..])
  }

  /** Flipping every one of `n` bits subtracts the value from 2 to the `n`, less one. */
  lemma {:induction false} InvertValue(s: seq<bool>)
    ensures FromBits(Invert(s)) == Pow2(|s|) - 1 - FromBits(s)
  {
    if |s| > 0 {
      InvertValue(s[1..]);
      assert Invert(s)[1..] == Invert(s[1..]);
    }
  }
}
