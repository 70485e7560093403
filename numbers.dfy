/**
 * `str_to_int` of the upload script: the start address given after
 * `-s`/`--startaddress`. A leading `$` stands for `0x`; the prefix `0x`
 * (lower case only) selects base 16, anything else base 10 with an
 * optional sign. Python's `int(num_str, num_base)` does the conversion,
 * and a `ValueError` is turned into `False`; an empty argument fails
 * earlier, at `num_str[0]`, with an `IndexError`.
 */
module Numbers {
  import opened Bits
  import opened Wrappers

  /** What `str_to_int` gives back, or the exception it lets through. */
  datatype Parsed = Number(value: int) | NotNumber | IndexError

  /** The value of a digit in bases up to 16: `0`-`9`, `a`-`f`, `A`-`F`. */
  function DigitValue(c: char): (d: Option<nat>)
    ensures d.Some? ==> d.value < 16
    ensures d.Some? && d.value < 10 <==> '0' <= c <= '9'
  {
    if '0' <= c <= '9' then Some(c as int - '0' as int)
    else if 'a' <= c <= 'f' then Some(c as int - 'a' as int + 10)
    else if 'A' <= c <= 'F' then Some(c as int - 'A' as int + 10)
    else None
  }

  predicate IsDigit(c: char, base: nat) {
    DigitValue(c).Some? && DigitValue(c).value < base
  }

  lemma NatProduct(a: nat, b: nat)
    ensures a * b >= 0
  {}

  /** The value of a string of digits, most significant first. */
  function Digits(s: string, base: nat): nat
    requires forall k :: 0 <= k < |s| ==> IsDigit(s[k], base)
  {
    if |s| == 0 then 0
    else
      var prefix, last := s[..|s| - 1], s[|s| - 1];
      assert IsDigit(last, base);
      assert forall k :: 0 <= k < |prefix| ==> prefix[k] == s[k];
      var high := Digits(prefix, base);
      NatProduct(high, base);
      high * base + DigitValue(last).value
  }

  /** `int(s, base)` after any prefix: at least one digit, and digits only. */
  function ParseDigits(s: string, base: nat): (v: Option<nat>)
    ensures v.Some? <==> |s| > 0 && forall k :: 0 <= k < |s| ==> IsDigit(s[k], base)
  {
    if |s| > 0 && forall k :: 0 <= k < |s| ==> IsDigit(s[k], base) then Some(Digits(s, base)) else None
  }

  /** `int(s, 10)`: an optional `+` or `-`, then decimal digits. */
  function ParseDecimal(s: string): Option<int> {
    if |s| > 0 && (s[0] == '+' || s[0] == '-') then
      match ParseDigits(s[1..], 10)
      case Some(v) => Some(if s[0] == '-' then -(v as int) else v as int)
      case None => None
    else
      match ParseDigits(s, 10)
      case Some(v) => Some(v)
      case None => None
  }

  /** `str_to_int(num_str)` */
  function StrToInt(s: string): Parsed {
    if |s| == 0 then IndexError
    else
      var t := if s[0] == '$' then "0x" + s[1..] else s;
      var r := if |t| >= 2 && t[..2] == "0x" then
                 match ParseDigits(t[2..], 16) case Some(v) => Some(v as int) case None => None
               else ParseDecimal(t);
      match r
      case Some(v) => Number(v)
      case None => NotNumber
  }

  /**
   * What `str_to_int` accepts: `0x` or `$` followed by hexadecimal digits,
   * or decimal digits with an optional sign; nothing else is a number, and
   * only the empty string raises.
   */
  lemma StrToIntMeaning(s: string)
    ensures StrToInt(s) == IndexError <==> |s| == 0
    ensures |s| > 0 && s[0] == '$' ==>
      StrToInt(s) == match ParseDigits(s[1..], 16) case Some(v) => Number(v) case None => NotNumber
    ensures |s| >= 2 && s[..2] == "0x" ==>
      StrToInt(s) == match ParseDigits(s[2..], 16) case Some(v) => Number(v) case None => NotNumber
    ensures |s| > 0 && s[0] != '$' && !(|s| >= 2 && s[..2] == "0x") ==>
      StrToInt(s) == match ParseDecimal(s) case Some(v) => Number(v) case None => NotNumber
  {
    if |s| > 0 && s[0] == '$' {
      assert ("0x" + s[1..])[..2] == "0x";
      assert ("0x" + s[1..])[2..] == s[1..];
    }
  }

  /** The digit for a value below 16, lower case as `hex()` prints it. */
  function DigitChar(d: nat): (c: char)
    requires d < 16
    ensures DigitValue(c) == Some(d)
  {
    if d < 10 then ('0' as int + d) as char else ('a' as int + d - 10) as char
  }

  /** Splitting off the last digit of a number of at least two digits. */
  lemma DivideDigit(n: nat, base: nat)
    requires 2 <= base <= n
    ensures 0 < n / base < n && n % base < base && n == n / base * base + n % base
  {
    var q, r := n / base, n % base;
    assert n == base * q + r && r < base;
    if q <= 0 {
      MulNonPositive(base, q);
    } else {
      MulAtLeast(q, base - 1);
      DistSub(q, base, 1);
    }
  }

  lemma MulNonPositive(d: nat, q: int)
    requires q <= 0
    ensures d * q <= 0
  {}

  /** `n` written in `base`, most significant digit first, without leading zeros. */
  function Numeral(n: nat, base: nat): (s: string)
    requires 2 <= base <= 16
    ensures |s| > 0 && forall k :: 0 <= k < |s| ==> IsDigit(s[k], base)
    decreases n
  {
    if n < base then
      assert IsDigit(DigitChar(n), base);
      [DigitChar(n)]
    else
      DivideDigit(n, base);
      var c := DigitChar(n % base);
      assert IsDigit(c, base);
      Numeral(n / base, base) + [c]
  }

  /** Digits read back as the number they were written from. */
  lemma {:induction false} NumeralDigits(n: nat, base: nat)
    requires 2 <= base <= 16
    ensures ParseDigits(Numeral(n, base), base) == Some(n)
    decreases n
  {
    var s := Numeral(n, base);
    if n < base {
      assert s == [DigitChar(n)] && s[..0] == [];
      assert Digits(s, base) == Digits([], base) * base + n;
    } else {
      DivideDigit(n, base);
      NumeralDigits(n / base, base);
      assert s[..|s| - 1] == Numeral(n / base, base);
      assert Digits(s, base) == Digits(Numeral(n / base, base), base) * base + n % base;
    }
  }

  /** A decimal numeral starts with a digit, so neither `$` nor `0x` nor a sign applies. */
  lemma DecimalIsPlain(n: nat)
    ensures var s := Numeral(n, 10);
      s[0] != '$' && s[0] != '+' && s[0] != '-' && !(|s| >= 2 && s[..2] == "0x")
  {
    var s := Numeral(n, 10);
    assert IsDigit(s[0], 10);
    if |s| >= 2 {
      assert IsDigit(s[1], 10);
    }
  }

  /** A decimal address reads back as itself. */
  lemma {:induction false} DecimalRoundTrip(n: nat)
    ensures StrToInt(Numeral(n, 10)) == Number(n)
  {
    NumeralDigits(n, 10);
    DecimalIsPlain(n);
    StrToIntMeaning(Numeral(n, 10));
  }

  /** A negative decimal address is accepted too, and keeps its sign. */
  lemma {:induction false} NegativeRoundTrip(n: nat)
    ensures StrToInt("-" + Numeral(n, 10)) == Number(-(n as int))
  {
    var s := "-" + Numeral(n, 10);
    NumeralDigits(n, 10);
    assert s[1..] == Numeral(n, 10);
    StrToIntMeaning(s);
  }

  /** A hexadecimal address reads back as itself, written with `0x` or with `$`. */
  lemma {:induction false} HexRoundTrip(n: nat)
    ensures StrToInt("0x" + Numeral(n, 16)) == Number(n)
    ensures StrToInt("$" + Numeral(n, 16)) == Number(n)
  {
    NumeralDigits(n, 16);
    var s, t := "0x" + Numeral(n, 16), "$" + Numeral(n, 16);
    assert s[..2] == "0x" && s[2..] == Numeral(n, 16);
    assert t[1..] == Numeral(n, 16);
    StrToIntMeaning(s);
    StrToIntMeaning(t);
  }

  /**
   * Strings that are not numbers: an upper-case `0X` prefix (base 10 is
   * chosen, and `X` is no decimal digit), a bare `$`, and trailing letters
   * on a decimal; and the empty string, which raises.
   */
  lemma Rejections()
    ensures StrToInt("0X10") == NotNumber
    ensures StrToInt("$") == NotNumber
    ensures StrToInt("12a") == NotNumber
    ensures StrToInt("") == IndexError
  {
    StrToIntMeaning("0X10");
    assert !IsDigit("0X10"[1], 10);
    StrToIntMeaning("12a");
    assert !IsDigit("12a"[2], 10);
    StrToIntMeaning("$");
    assert "$"[1..] == "";
  }

  /** The two spellings of a hexadecimal address, with either case of digit. */
  lemma HexExamples()
    ensures StrToInt("$ff") == Number(255)
    ensures StrToInt("0x1F") == Number(31)
  {
    var h := "$ff";
    StrToIntMeaning(h);
    assert h[1..] == "ff" && "ff"[..1] == "f" && "f"[..0] == "";
    assert Digits("ff", 16) == Digits("f", 16) * 16 + 15;
    assert Digits("f", 16) == 15;
    var x := "0x1F";
    StrToIntMeaning(x);
    assert x[2..] == "1F" && "1F"[..1] == "1" && "1"[..0] == "";
    assert Digits("1F", 16) == Digits("1", 16) * 16 + 15;
    assert Digits("1", 16) == 1;
  }
}
