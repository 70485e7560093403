/**
 * PSHS/PSHU and PULS/PULU (`push` and `pull`, source/cpu.c:2347-2489): the
 * registers a post-byte selects, stacked below the hardware stack pointer S
 * or the user stack pointer U.
 *
 * `push` writes downwards, PC first and CC last, so that CC ends up at the
 * lowest address; `pull` reads upwards in the opposite order. The model
 * describes a push by the image it leaves in memory, lowest address first,
 * and a pull by how it decodes such an image; the round trip says that a
 * pull with the same post-byte gives back every register the push saved
 * and the stack pointer.
 */
module Stack {
  import opened Bits
  import opened Bytes
  import opened ConditionCodes
  import opened Registers
  import opened AddressSpace

  /** The bytes of a 16-bit register as `push` stores them: high byte at the lower address. */
  function WordBytes(w: Word): seq<Byte> { [Hi(w), Lo(w)] }

  /** The stack register `push` saves for bit 6: U when pushing on S, S when pushing on U. */
  function OtherStack(r: Regs, hardware: bool): Word { if hardware then r.u else r.s }

  /** The stack register a push or pull moves: S for the hardware stack, U for the user stack. */
  function StackPointer(r: Regs, hardware: bool): Word { if hardware then r.s else r.u }

  /** The register bit `i` of a post-byte names, as the bytes `push` stores for it. */
  function FieldBytes(r: Regs, hardware: bool, i: nat): seq<Byte>
    requires i < 8
  {
    if i == 0 then [ByteOf(r.cc)] else if i == 1 then [r.a] else if i == 2 then [r.b] else if i == 3 then [r.dp]
    else if i == 4 then WordBytes(r.x) else if i == 5 then WordBytes(r.y)
    else if i == 6 then WordBytes(OtherStack(r, hardware)) else WordBytes(r.pc)
  }

  /** The bytes of register `i` when bit `i` of the post-byte is set, none otherwise. */
  function Saved(r: Regs, hardware: bool, postByte: Byte, i: nat): seq<Byte>
    requires i < 8
  {
    if Bit(postByte, i) then FieldBytes(r, hardware, i) else []
  }

  /**
   * What a push leaves in memory, lowest address first: CC, A, B, DP, X, Y,
   * U or S, PC, each present when its bit (0 to 7) of the post-byte is set.
   */
  function PushImage(r: Regs, hardware: bool, postByte: Byte): seq<Byte> {
    Saved(r, hardware, postByte, 0) + (Saved(r, hardware, postByte, 1) + (Saved(r, hardware, postByte, 2)
      + (Saved(r, hardware, postByte, 3) + (Saved(r, hardware, postByte, 4) + (Saved(r, hardware, postByte, 5)
      + (Saved(r, hardware, postByte, 6) + Saved(r, hardware, postByte, 7)))))))
  }

  /** How many bytes a post-byte moves: one for each 8-bit register, two for each 16-bit one. */
  function ImageSize(postByte: Byte): (n: nat)
    ensures n <= 12
  {
    (if Bit(postByte, 0) then 1 else 0) + (if Bit(postByte, 1) then 1 else 0) + (if Bit(postByte, 2) then 1 else 0)
      + (if Bit(postByte, 3) then 1 else 0) + (if Bit(postByte, 4) then 2 else 0) + (if Bit(postByte, 5) then 2 else 0)
      + (if Bit(postByte, 6) then 2 else 0) + (if Bit(postByte, 7) then 2 else 0)
  }

  /** The image has as many bytes as the post-byte selects. */
  lemma {:induction false} PushImageSize(r: Regs, hardware: bool, postByte: Byte)
    ensures |PushImage(r, hardware, postByte)| == ImageSize(postByte)
  {
    assert forall i :: 0 <= i < 8 ==> |Saved(r, hardware, postByte, i)| == (if Bit(postByte, i) then (if i < 4 then 1 else 2) else 0);
  }

  /** The registers after `push`: only the stack pointer moves, down by the image size. */
  function PushRegs(r: Regs, hardware: bool, postByte: Byte): Regs {
    var top := Below(StackPointer(r, hardware), ImageSize(postByte));
    if hardware then r.(s := top) else r.(u := top)
  }

  /** The memory after `push`: the image just below the old stack pointer, every other byte kept. */
  function PushMemory(r: Regs, m: Memory, hardware: bool, postByte: Byte): Memory {
    PushImageSize(r, hardware, postByte);
    Stacked(m, Below(StackPointer(r, hardware), ImageSize(postByte)), PushImage(r, hardware, postByte))
  }

  /** `image[k]`, or 0 past its end. */
  function At(image: seq<Byte>, k: nat): Byte { if k < |image| then image[k] else 0 }

  /** `image` without its first `n` bytes. */
  function Drop(image: seq<Byte>, n: nat): seq<Byte> { if n <= |image| then image[n..] else [] }

  /** The 16-bit register at the front of an image. */
  function WordFront(image: seq<Byte>): Word { Join(At(image, 0), At(image, 1)) }

  /** A pull half done: the registers so far and the bytes still to read. */
  datatype Pulling = Pulling(regs: Regs, rest: seq<Byte>)

  /**
   * One block of `pull`: when bit `i` of the post-byte is set, the register
   * it names is read from the front of what is left (bit 6 reads U when
   * pulling from S and S when pulling from U).
   */
  function PullStep(p: Pulling, hardware: bool, postByte: Byte, i: nat): Pulling
    requires i < 8
  {
    var r := p.regs;
    if !Bit(postByte, i) then p
    else if i == 0 then Pulling(r.(cc := BitsOf(At(p.rest, 0))), Drop(p.rest, 1))
    else if i == 1 then Pulling(r.(a := At(p.rest, 0)), Drop(p.rest, 1))
    else if i == 2 then Pulling(r.(b := At(p.rest, 0)), Drop(p.rest, 1))
    else if i == 3 then Pulling(r.(dp := At(p.rest, 0)), Drop(p.rest, 1))
    else if i == 4 then Pulling(r.(x := WordFront(p.rest)), Drop(p.rest, 2))
    else if i == 5 then Pulling(r.(y := WordFront(p.rest)), Drop(p.rest, 2))
    else if i == 6 then Pulling(if hardware then r.(u := WordFront(p.rest)) else r.(s := WordFront(p.rest)), Drop(p.rest, 2))
    else Pulling(r.(pc := WordFront(p.rest)), Drop(p.rest, 2))
  }

  /** What `pull` makes of an image: its eight blocks in order, CC first and PC last. */
  function DecodeImage(r: Regs, hardware: bool, postByte: Byte, image: seq<Byte>): Regs {
    var p0 := Pulling(r, image);
    var p1 := PullStep(p0, hardware, postByte, 0);
    var p2 := PullStep(p1, hardware, postByte, 1);
    var p3 := PullStep(p2, hardware, postByte, 2);
    var p4 := PullStep(p3, hardware, postByte, 3);
    var p5 := PullStep(p4, hardware, postByte, 4);
    var p6 := PullStep(p5, hardware, postByte, 5);
    var p7 := PullStep(p6, hardware, postByte, 6);
    PullStep(p7, hardware, postByte, 7).regs
  }

  /** The registers after `pull`: the image above the stack pointer decoded, the stack pointer moved up past it. */
  function Pull(r: Regs, m: Memory, hardware: bool, postByte: Byte): Regs {
    var n := ImageSize(postByte);
    var pulled := DecodeImage(r, hardware, postByte, ReadImage(m, StackPointer(r, hardware), n));
    var top := Above(StackPointer(r, hardware), n);
    if hardware then pulled.(s := top) else pulled.(u := top)
  }

  /** One block of `pull` reads back what the same block of `push` saved, when the stack pointer is not the register read. */
  lemma {:induction false} PullStepSaved(r: Regs, hardware: bool, postByte: Byte, i: nat, rest: seq<Byte>)
    requires i < 8
    ensures PullStep(Pulling(r, Saved(r, hardware, postByte, i) + rest), hardware, postByte, i) == Pulling(r, rest)
  {
    var image := Saved(r, hardware, postByte, i) + rest;
    if Bit(postByte, i) {
      if i == 0 {
        BitsOfByte(r.cc);
      } else if i == 4 {
        JoinSplit(r.x);
      } else if i == 5 {
        JoinSplit(r.y);
      } else if i == 6 {
        JoinSplit(OtherStack(r, hardware));
      } else if i == 7 {
        JoinSplit(r.pc);
      }
      assert Drop(image, |FieldBytes(r, hardware, i)|) == rest;
    }
  }

  /** Decoding the image a push leaves gives back the registers it saved. */
  lemma {:induction false} DecodePushImage(r: Regs, hardware: bool, postByte: Byte)
    ensures DecodeImage(r, hardware, postByte, PushImage(r, hardware, postByte)) == r
  {
    var f7 := Saved(r, hardware, postByte, 7);
    var f6 := Saved(r, hardware, postByte, 6) + f7;
    var f5 := Saved(r, hardware, postByte, 5) + f6;
    var f4 := Saved(r, hardware, postByte, 4) + f5;
    var f3 := Saved(r, hardware, postByte, 3) + f4;
    var f2 := Saved(r, hardware, postByte, 2) + f3;
    var f1 := Saved(r, hardware, postByte, 1) + f2;
    PullStepSaved(r, hardware, postByte, 0, f1);
    PullStepSaved(r, hardware, postByte, 1, f2);
    PullStepSaved(r, hardware, postByte, 2, f3);
    PullStepSaved(r, hardware, postByte, 3, f4);
    PullStepSaved(r, hardware, postByte, 4, f5);
    PullStepSaved(r, hardware, postByte, 5, f6);
    PullStepSaved(r, hardware, postByte, 6, f7);
    PullStepSaved(r, hardware, postByte, 7, []);
    assert f7 + [] == f7;
  }

  /**
   * A pull with the post-byte of a push undoes it: every register comes
   * back, the saved ones from memory, and the stack pointer returns to
   * where it was.
   */
  lemma {:induction false} PullUndoesPush(r: Regs, m: Memory, hardware: bool, postByte: Byte)
    ensures Pull(PushRegs(r, hardware, postByte), PushMemory(r, m, hardware, postByte), hardware, postByte) == r
  {
    var n := ImageSize(postByte);
    var image := PushImage(r, hardware, postByte);
    var r' := PushRegs(r, hardware, postByte);
    var top := Below(StackPointer(r, hardware), n);
    PushImageSize(r, hardware, postByte);
    ReadStacked(m, top, image);
    AboveBelow(top, n);
    assert StackPointer(r', hardware) == top;
    PushImageMovedPointer(r, hardware, postByte, top);
    DecodePushImage(r', hardware, postByte);
    assert DecodeImage(r', hardware, postByte, ReadImage(PushMemory(r, m, hardware, postByte), top, n)) == r';
  }

  /** Moving the stack pointer a push uses does not change the image it leaves. */
  lemma {:induction false} PushImageMovedPointer(r: Regs, hardware: bool, postByte: Byte, top: Word)
    ensures PushImage(if hardware then r.(s := top) else r.(u := top), hardware, postByte) == PushImage(r, hardware, postByte)
  {
    var r' := if hardware then r.(s := top) else r.(u := top);
    assert forall i :: 0 <= i < 8 ==> Saved(r', hardware, postByte, i) == Saved(r, hardware, postByte, i);
  }

  /** PULS with post-byte 0x01 (the first half of `rti`): CC from the byte at S, S one up. */
  lemma {:induction false} PullCcOnly(r: Regs, m: Memory)
    ensures Pull(r, m, true, 0x01) == r.(cc := BitsOf(m[r.s]), s := Next(r.s))
  {
    var img := ReadImage(m, r.s, 1);
    assert ImageSize(0x01) == 1;
    assert img[0] == m[r.s];
    assert Drop(img, 1) == [];
  }

  /** PULS with post-byte 0x80 (`rts`): PC from the word at S, S two up. */
  lemma {:induction false} PullPcOnly(r: Regs, m: Memory)
    ensures Pull(r, m, true, 0x80) == r.(pc := WordAt(m, r.s), s := Above(r.s, 2))
  {
    var img := ReadImage(m, r.s, 2);
    assert ImageSize(0x80) == 2;
    assert img[0] == m[r.s] && img[1] == m[Next(r.s)];
  }

  /** PULS with post-byte 0x81: CC from S, PC from the word above it, S three up. */
  lemma {:induction false} PullCcPc(r: Regs, m: Memory)
    ensures Pull(r, m, true, 0x81) == r.(cc := BitsOf(m[r.s]), pc := WordAt(m, Next(r.s)), s := Above(r.s, 3))
  {
    var img := ReadImage(m, r.s, 3);
    assert ImageSize(0x81) == 3;
    assert img[0] == m[r.s] && img[1] == m[Next(r.s)] && img[2] == m[Next(Next(r.s))];
    var p1 := PullStep(Pulling(r, img), true, 0x81, 0);
    assert p1 == Pulling(r.(cc := BitsOf(img[0])), img[1..]);
  }

  /** The registers PULS with every bit but CC's sets from `img`, the bytes above S; S and D are kept. */
  function EveryButCc(r: Regs, img: seq<Byte>): Regs
    requires |img| == 11
  {
    r.(a := img[0], b := img[1], dp := img[2], x := Join(img[3], img[4]), y := Join(img[5], img[6]),
       u := Join(img[7], img[8]), pc := Join(img[9], img[10]))
  }

  /** PULS with post-byte 0xFE: A, B, DP, X, Y, U and PC read up from S in that order, S eleven up. */
  lemma {:induction false} PullAllButCc(r: Regs, m: Memory)
    ensures Pull(r, m, true, 0xFE) == EveryButCc(r, ReadImage(m, r.s, 11)).(s := Above(r.s, 11))
  {
    var img := ReadImage(m, r.s, 11);
    assert ImageSize(0xFE) == 11;
    var p1 := PullStep(Pulling(r, img), true, 0xFE, 0);
    assert p1 == Pulling(r, img);
    var p2 := PullStep(p1, true, 0xFE, 1);
    assert p2 == Pulling(r.(a := img[0]), img[1..]);
    var p3 := PullStep(p2, true, 0xFE, 2);
    assert p3 == Pulling(p2.regs.(b := img[1]), img[2..]);
    var p4 := PullStep(p3, true, 0xFE, 3);
    assert p4 == Pulling(p3.regs.(dp := img[2]), img[3..]);
    var p5 := PullStep(p4, true, 0xFE, 4);
    assert p5 == Pulling(p4.regs.(x := Join(img[3], img[4])), img[5..]);
    var p6 := PullStep(p5, true, 0xFE, 5);
    assert p6 == Pulling(p5.regs.(y := Join(img[5], img[6])), img[7..]);
    var p7 := PullStep(p6, true, 0xFE, 6);
    assert p7 == Pulling(p6.regs.(u := Join(img[7], img[8])), img[9..]);
    var p8 := PullStep(p7, true, 0xFE, 7);
    assert p8.regs == p7.regs.(pc := Join(img[9], img[10]));
  }

  /** PULS with post-byte 0xFF: CC from S, then the rest as with 0xFE from the byte above it, S twelve up. */
  lemma {:induction false} PullEvery(r: Regs, m: Memory)
    ensures Pull(r, m, true, 0xFF) == EveryButCc(r, ReadImage(m, r.s, 12)[1..]).(cc := BitsOf(m[r.s]), s := Above(r.s, 12))
  {
    var img := ReadImage(m, r.s, 12);
    ReadImageStep(m, r.s, 12);
    assert ImageSize(0xFF) == 12;
    var p1 := PullStep(Pulling(r, img), true, 0xFF, 0);
    assert p1 == Pulling(r.(cc := BitsOf(img[0])), img[1..]);
    var p2 := PullStep(p1, true, 0xFF, 1);
    assert p2 == Pulling(p1.regs.(a := img[1]), img[2..]);
    var p3 := PullStep(p2, true, 0xFF, 2);
    assert p3 == Pulling(p2.regs.(b := img[2]), img[3..]);
    var p4 := PullStep(p3, true, 0xFF, 3);
    assert p4 == Pulling(p3.regs.(dp := img[3]), img[4..]);
    var p5 := PullStep(p4, true, 0xFF, 4);
    assert p5 == Pulling(p4.regs.(x := Join(img[4], img[5])), img[6..]);
    var p6 := PullStep(p5, true, 0xFF, 5);
    assert p6 == Pulling(p5.regs.(y := Join(img[6], img[7])), img[8..]);
    var p7 := PullStep(p6, true, 0xFF, 6);
    assert p7 == Pulling(p6.regs.(u := Join(img[8], img[9])), img[10..]);
    var p8 := PullStep(p7, true, 0xFF, 7);
    assert p8.regs == p7.regs.(pc := Join(img[10], img[11]));
  }

  /**
   * Pulling CC first and then every other register, as `rti` does when the
   * pulled CC has E set, is one pull of every register.
   */
  lemma {:induction false} PullSplit(r: Regs, m: Memory)
    ensures Pull(Pull(r, m, true, 0x01), m, true, 0xFE) == Pull(r, m, true, 0xFF)
  {
    PullCcOnly(r, m);
    var r1 := Pull(r, m, true, 0x01);
    PullAllButCc(r1, m);
    PullEvery(r, m);
    ReadImageStep(m, r.s, 12);
    assert Above(Next(r.s), 11) == Above(r.s, 12);
  }

  /** Pulling every register does not depend on what CC and PC held before. */
  lemma {:induction false} PullEveryOverwrites(r: Regs, m: Memory, cc: Cc, pc: Word)
    ensures Pull(r.(cc := cc, pc := pc), m, true, 0xFF) == Pull(r, m, true, 0xFF)
  {
    PullEvery(r, m);
    PullEvery(r.(cc := cc, pc := pc), m);
  }
}
