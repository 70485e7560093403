/**
 * The HT16K33 four-digit 7-segment display driver (ht16k33.c): the caller
 * keeps a 16-byte buffer, one segment byte per display row. The four digits
 * sit at rows 0, 2, 6 and 8 and the colon at row 4; bit 7 of a digit's byte
 * is its decimal point. `draw` sends the buffer to the device behind one
 * leading address byte. The I2C writes themselves are not modelled.
 */
module Display {
  import opened Bits
  import opened Bytes
  import opened Wrappers

  /** Bytes in the caller's display buffer. */
  const BufferSize := 16

  /** Bytes `ht16k33_draw` transmits: the display-RAM address, then the buffer. */
  const FrameSize := 17

  /** `HT16K33_GENERIC_DISPLAY_ADDRESS` */
  const DisplayAddress: Byte := 0x00

  /** `HT16K33_SEGMENT_COLON_ROW` */
  const ColonRow := 4

  /** `HT16K33_SEGMENT_MINUS_CHAR`, `HT16K33_SEGMENT_DEGREE_CHAR`, `HT16K33_SEGMENT_SPACE_CHAR`: indices into `Charset`. */
  const MinusChar := 0x10
  const DegreeChar := 0x11
  const SpaceChar := 0x00

  /** The decimal point: bit 7 of a digit's segment byte. */
  const DecimalPoint: Byte := 0x80

  /** `CHARSET`: segment patterns for 0-9, a-f, minus and degree. */
  const Charset: seq<Byte> := [0x3F, 0x06, 0x5B, 0x4F, 0x66, 0x6D, 0x7D, 0x07, 0x7F,
                               0x6F, 0x77, 0x7C, 0x39, 0x5E, 0x79, 0x71, 0x40, 0x63]

  /** `POS`: the buffer row of each of the four digits. */
  const Pos: seq<nat> := [0, 2, 6, 8]

  /** The characters `ht16k33_set_alpha` knows. */
  predicate Displayable(chr: char) {
    chr == ' ' || chr == '-' || chr == 'o' || 'a' <= chr <= 'f' || '0' <= chr <= '9'
  }

  /** `char_val` in `ht16k33_set_alpha`: the `Charset` index chosen for a character, none for 0xFF. */
  function CharIndex(chr: char): (k: Option<nat>)
    ensures k.Some? <==> Displayable(chr)
    ensures k.Some? ==> k.value < |Charset|
  {
    if chr == ' ' then Some(SpaceChar)
    else if chr == '-' then Some(MinusChar)
    else if chr == 'o' then Some(DegreeChar)
    else if 'a' <= chr <= 'f' then Some(chr as int - 87)
    else if '0' <= chr <= '9' then Some(chr as int - 48)
    else None
  }

  /**
   * The segment pattern `ht16k33_set_alpha` writes as the code stands: a
   * space picks `CHARSET[HT16K33_SEGMENT_SPACE_CHAR]`, which is the pattern
   * of '0'.
   */
  function GlyphAsWritten(chr: char): Option<Byte> {
    var k := CharIndex(chr);
    if k.Some? then Some(Charset[k.value]) else None
  }

  /** A space shows as a zero, not as a blank digit. */
  lemma SpaceShowsZero()
    ensures GlyphAsWritten(' ') == GlyphAsWritten('0') == Some(0x3F)
  {}

  /**
   * The segment pattern of a character, with a space lit as no segments at
   * all, which is what `HT16K33_SEGMENT_SPACE_CHAR` evidently stands for.
   */
  function Glyph(chr: char): Option<Byte> {
    if chr == ' ' then Some(0x00) else GlyphAsWritten(chr)
  }

  /**
   * The characters shown are exactly the displayable ones, each with
   * bit 7 (the decimal point) clear; a space lights nothing, and every other
   * character gets the pattern the code picks.
   */
  lemma {:induction false} GlyphMeaning(chr: char)
    ensures Glyph(chr).Some? <==> Displayable(chr)
    ensures Glyph(chr).Some? ==> Glyph(chr).value < DecimalPoint
    ensures chr == ' ' ==> Glyph(chr) == Some(0)
    ensures chr != ' ' ==> Glyph(chr) == GlyphAsWritten(chr)
  {
    var k := CharIndex(chr);
    if k.Some? {
      assert forall i :: 0 <= i < |Charset| ==> Charset[i] < DecimalPoint;
    }
  }

  /** The sixteen hex digits have sixteen different patterns, none blank. */
  lemma HexPatternsDistinct()
    ensures forall i, j :: 0 <= i < j < 16 ==> Charset[i] != Charset[j]
    ensures forall i :: 0 <= i < 16 ==> Charset[i] != 0
  {}

  /** The character `ht16k33_set_number` passes for a number 0-15: '0' + n, or 'a' + (n - 10). */
  function HexChar(number: nat): char
    requires number <= 15
  {
    if number < 10 then ('0' as int + number) as char else ('a' as int + (number - 10)) as char
  }

  /** Each number 0-15 is shown as its own entry of `Charset`. */
  lemma {:induction false} HexCharGlyph(number: nat)
    requires number <= 15
    ensures GlyphAsWritten(HexChar(number)) == Some(Charset[number])
  {
    var chr := HexChar(number);
    if number < 10 {
      assert '0' <= chr <= '9' && chr as int - 48 == number;
    } else {
      assert 'a' <= chr <= 'f' && chr as int - 87 == number;
    }
  }

  /** `buffer[POS[digit]] |= 0x80` when `has_dot`. */
  function Dotted(glyph: Byte, hasDot: bool): Byte {
    if hasDot then Or8(glyph, DecimalPoint) else glyph
  }

  /** On a pattern with bit 7 clear, the dot adds 0x80: pattern and dot can both be read back. */
  lemma {:induction false} DottedMeaning(glyph: Byte, hasDot: bool)
    requires glyph < DecimalPoint
    ensures Dotted(glyph, hasDot) == glyph + (if hasDot then DecimalPoint else 0)
    ensures Dotted(glyph, hasDot) % 0x80 == glyph
    ensures Dotted(glyph, hasDot) >= DecimalPoint <==> hasDot
  {
    if hasDot {
      Pow2Values();
      BitBelow(glyph, 7);
      SetBitAdds(glyph, 7);
    }
  }

  /** The buffer with `digit` showing `glyph`, dotted or not. */
  function Shown(b: seq<Byte>, digit: nat, glyph: Byte, hasDot: bool): seq<Byte>
    requires |b| == BufferSize && digit < 4
  {
    b[Pos[digit] := Dotted(glyph, hasDot)]
  }

  /**
   * Showing a glyph changes the digit's own row and nothing else: the other
   * digits and the colon keep their bytes, and the digit reads back as the
   * glyph with the decimal point as asked.
   */
  lemma {:induction false} ShownKeepsOthers(b: seq<Byte>, digit: nat, glyph: Byte, hasDot: bool)
    requires |b| == BufferSize && digit < 4 && glyph < DecimalPoint
    ensures var b' := Shown(b, digit, glyph, hasDot);
      && |b'| == BufferSize
      && b'[Pos[digit]] % 0x80 == glyph && (b'[Pos[digit]] >= DecimalPoint <==> hasDot)
      && b'[ColonRow] == b[ColonRow]
      && forall d :: 0 <= d < 4 && d != digit ==> b'[Pos[d]] == b[Pos[d]]
  {
    DottedMeaning(glyph, hasDot);
  }

  /** Two different digits can be set in either order. */
  lemma {:induction false} ShownCommutes(b: seq<Byte>, d1: nat, g1: Byte, dot1: bool, d2: nat, g2: Byte, dot2: bool)
    requires |b| == BufferSize && d1 < 4 && d2 < 4 && d1 != d2
    ensures Shown(Shown(b, d1, g1, dot1), d2, g2, dot2) == Shown(Shown(b, d2, g2, dot2), d1, g1, dot1)
  {
    assert Pos[d1] != Pos[d2];
  }

  /** `ht16k33_clear`: all sixteen rows set to 0. */
  method Clear(buffer: array<Byte>)
    requires buffer.Length == BufferSize
    modifies buffer
    ensures forall i :: 0 <= i < BufferSize ==> buffer[i] == 0
  {
    var i := 0;
    while i < BufferSize
      invariant 0 <= i <= BufferSize
      invariant forall k :: 0 <= k < i ==> buffer[k] == 0
    {
      buffer[i] := 0;
      i := i + 1;
    }
  }

  /**
   * The transmit buffer `ht16k33_draw` builds: zeroed, then the sixteen
   * buffer rows copied in behind the leading display-RAM address.
   */
  method Draw(buffer: array<Byte>) returns (frame: array<Byte>)
    requires buffer.Length == BufferSize
    ensures fresh(frame) && frame.Length == FrameSize
    ensures frame[0] == DisplayAddress && frame[1..] == buffer[..]
  {
    frame := new Byte[FrameSize];
    var i := 0;
    while i < FrameSize
      invariant 0 <= i <= FrameSize
      invariant forall k :: 0 <= k < i ==> frame[k] == 0
    {
      frame[i] := 0;
      i := i + 1;
    }
    i := 0;
    while i < BufferSize
      invariant 0 <= i <= BufferSize
      invariant frame[0] == DisplayAddress
      invariant forall k :: 0 <= k < i ==> frame[k + 1] == buffer[k]
    {
      frame[i + 1] := buffer[i];
      i := i + 1;
    }
  }

  /** The two statements `set_alpha` and `set_glyph` share: the pattern into the digit's row, then the dot. */
  method Paint(buffer: array<Byte>, glyph: Byte, digit: Byte, hasDot: bool)
    requires buffer.Length == BufferSize && digit <= 3
    modifies buffer
    ensures buffer[..] == Shown(old(buffer[..]), digit, glyph, hasDot)
  {
    buffer[Pos[digit]] := glyph;
    if hasDot {
      buffer[Pos[digit]] := Or8(buffer[Pos[digit]], DecimalPoint);
    }
  }

  /**
   * `ht16k33_set_alpha(chr, digit, has_dot)`: a displayable character on
   * digits 0-3 is written at the digit's row as `GlyphAsWritten` picks it
   * (a space as the pattern of '0'), dotted if asked; anything else leaves
   * the buffer as it was.
   */
  method SetAlpha(buffer: array<Byte>, chr: char, digit: Byte, hasDot: bool)
    requires buffer.Length == BufferSize
    modifies buffer
    ensures digit <= 3 && Displayable(chr) ==>
      GlyphAsWritten(chr).Some? && buffer[..] == Shown(old(buffer[..]), digit, GlyphAsWritten(chr).value, hasDot)
    ensures !(digit <= 3 && Displayable(chr)) ==> buffer[..] == old(buffer[..])
  {
    if digit > 3 {
      return;
    }
    var glyph := GlyphAsWritten(chr);
    GlyphMeaning(chr);
    if glyph.None? {
      return;
    }
    Paint(buffer, glyph.value, digit, hasDot);
  }

  /**
   * `ht16k33_set_number(number, digit, has_dot)`: digits 0-3 show the hex
   * digit 0-15 as its own `Charset` pattern; a larger number or digit is
   * ignored.
   */
  method SetNumber(buffer: array<Byte>, number: Word, digit: Byte, hasDot: bool)
    requires buffer.Length == BufferSize
    modifies buffer
    ensures digit <= 3 && number <= 15 ==> buffer[..] == Shown(old(buffer[..]), digit, Charset[number], hasDot)
    ensures !(digit <= 3 && number <= 15) ==> buffer[..] == old(buffer[..])
  {
    if digit > 3 {
      return;
    }
    if number > 15 {
      return;
    }
    HexCharGlyph(number);
    SetAlpha(buffer, HexChar(number), digit, hasDot);
  }

  /**
   * `ht16k33_set_glyph(glyph, digit, has_dot)`: any pattern 0x00-0x7F on a
   * digit, dotted if asked; a pattern with bit 7 set is ignored. The code
   * does not check the digit, so it must be 0-3.
   */
  method SetGlyph(buffer: array<Byte>, glyph: Byte, digit: Byte, hasDot: bool)
    requires buffer.Length == BufferSize && digit <= 3
    modifies buffer
    ensures glyph < DecimalPoint ==> buffer[..] == Shown(old(buffer[..]), digit, glyph, hasDot)
    ensures glyph >= DecimalPoint ==> buffer[..] == old(buffer[..])
  {
    if glyph > 0x7F {
      return;
    }
    Paint(buffer, glyph, digit, hasDot);
  }

  /** `ht16k33_show_colon(show)`: the colon row set to 0x02 or cleared; the digits keep their rows. */
  method ShowColon(buffer: array<Byte>, show: bool)
    requires buffer.Length == BufferSize
    modifies buffer
    ensures buffer[..] == old(buffer[..])[ColonRow := if show then 0x02 else 0x00]
    ensures forall d :: 0 <= d < 4 ==> buffer[Pos[d]] == old(buffer[Pos[d]])
  {
    buffer[ColonRow] := if show then 0x02 else 0x00;
  }
}
