/**
 * Integers written as text: int(s, base) for bases 10 and 16, str(n), and
 * the format specification '02x'.
 */
module Numerals {
  import opened Wrappers
  import opened Python
  import opened Text

  /** The value of c as a digit in a base up to 16, if it is one. */
  function DigitValue(c: char): Option<nat> {
    if '0' <= c <= '9' then Some(c as int - '0' as int)
    else if 'a' <= c <= 'f' then Some(c as int - 'a' as int + 10)
    else if 'A' <= c <= 'F' then Some(c as int - 'A' as int + 10)
    else None
  }

  predicate IsDigitIn(c: char, base: nat) {
    DigitValue(c).Some? && DigitValue(c).value < base
  }

  /**
   * The digit part of an integer literal: digits, with single underscores
   * allowed between two digits.
   */
  predicate WellGrouped(s: string, base: nat) {
    && |s| > 0
    && IsDigitIn(s[0], base)
    && IsDigitIn(s[|s| - 1], base)
    && (forall i | 0 <= i < |s| :: s[i] == '_' || IsDigitIn(s[i], base))
    && (forall i | 0 <= i < |s| - 1 :: s[i] == '_' ==> s[i + 1] != '_')
  }

  /** The number the digits of s spell in the given base, underscores ignored. */
  function DigitsValue(s: string, base: nat): nat
    requires forall i | 0 <= i < |s| :: s[i] == '_' || IsDigitIn(s[i], base)
  {
    if |s| == 0 then 0
    else
      var last := s[|s| - 1];
      assert last == '_' || IsDigitIn(last, base);
      if last == '_' then DigitsValue(s[..|s| - 1], base)
      else DigitsValue(s[..|s| - 1], base) * base + DigitValue(last).value
  }

  /** Whether s starts with the prefix "0x" or "0X". */
  predicate HasHexPrefix(s: string) {
    |s| >= 2 && s[0] == '0' && (s[1] == 'x' || s[1] == 'X')
  }

  /** What follows the sign: for base 16 without its optional "0x" prefix and the underscore allowed after it. */
  function DigitPart(body: string, base: nat): string {
    if base == 16 && HasHexPrefix(body) then
      if |body| >= 3 && body[2] == '_' then body[3..] else body[2..]
    else body
  }

  /**
   * The information separators U+001C..U+001F. str.isspace() counts them as
   * whitespace, but int() does not strip them, and no part of a literal may
   * be one, so int() refuses every string that holds one.
   */
  predicate IsInfoSeparator(c: char) {
    '\U{1C}' <= c <= '\U{1F}'
  }

  predicate HasInfoSeparator(s: string) {
    exists k | 0 <= k < |s| :: IsInfoSeparator(s[k])
  }

  /**
   * int(s, base): surrounding whitespace is ignored, then an optional sign,
   * then (base 16 only) an optional "0x" prefix, then grouped digits;
   * anything else raises ValueError. Whitespace here is str.isspace()
   * without the information separators.
   */
  function ParseInt(s: string, base: nat): (r: Outcome<int>)
    requires base == 10 || base == 16
    ensures r.Err? ==> r.error == ValueError
    ensures HasInfoSeparator(s) ==> r == Err(ValueError)
  {
    if HasInfoSeparator(s) then Err(ValueError)
    else
      var t := Strip(s);
      var negative := |t| > 0 && t[0] == '-';
      var body := if |t| > 0 && (t[0] == '+' || t[0] == '-') then t[1..] else t;
      var digits := DigitPart(body, base);
      if WellGrouped(digits, base) then
        var v: int := DigitsValue(digits, base);
        Ok(if negative then -v else v)
      else Err(ValueError)
  }

  /** int() strips a space and a newline around a digit, but not an information separator. */
  lemma SeparatorIsNotStripped()
    ensures ParseInt(" 4\n", 10) == Ok(4)
    ensures ParseInt("\U{1C}4", 10) == Err(ValueError)
  {
    assert Strip(" 4\n") == "4" by {
      assert LeadingEnd(" 4\n", 0) == 1;
      assert TrailingStart(" 4\n", 1, 3) == 2;
    }
    assert IsInfoSeparator("\U{1C}4"[0]);
  }

  /** The lower-case digit character for d < 16. */
  function DigitChar(d: nat): char
    requires d < 16
  {
    "0123456789abcdef"[d]
  }

  lemma DigitCharValue(d: nat)
    requires d < 16
    ensures DigitValue(DigitChar(d)) == Some(d)
  {
  }

  /** The digits of n in the given base, most significant first, without leading zeros. */
  function Digits(n: nat, base: nat): (s: string)
    requires base == 10 || base == 16
    ensures |s| > 0
    ensures forall i | 0 <= i < |s| :: IsDigitIn(s[i], base)
  {
    if n < base then
      DigitCharValue(n);
      [DigitChar(n)]
    else
      DigitCharValue(n % base);
      Digits(n / base, base) + [DigitChar(n % base)]
  }

  /** str(n) for an int. */
  function Decimal(n: int): string {
    if n < 0 then "-" + Digits(-n, 10) else Digits(n, 10)
  }

  /** format(n, '02x'): lower-case hexadecimal, zero-padded to two characters, with a leading '-' for a negative n. */
  function Hex02(n: int): (s: string)
    ensures |s| >= 2
  {
    if n < 0 then "-" + Digits(-n, 16)
    else if n < 16 then "0" + Digits(n, 16)
    else Digits(n, 16)
  }

  /** The digits of n spell n. */
  lemma {:induction false} DigitsValueOfDigits(n: nat, base: nat)
    requires base == 10 || base == 16
    ensures WellGrouped(Digits(n, base), base)
    ensures DigitsValue(Digits(n, base), base) == n
    decreases n
  {
    var s := Digits(n, base);
    if n < base {
      DigitCharValue(n);
    } else {
      DigitsValueOfDigits(n / base, base);
      DigitCharValue(n % base);
      assert s[..|s| - 1] == Digits(n / base, base);
    }
  }

  /** A bare run of grouped digits (without a "0x" prefix) parses to the value it spells. */
  lemma ParseUnsigned(s: string, base: nat)
    requires base == 10 || base == 16
    requires WellGrouped(s, base) && !HasHexPrefix(s)
    ensures ParseInt(s, base) == Ok(DigitsValue(s, base) as int)
  {
    assert Strip(s) == s by {
      StripUnchanged(s);
    }
    assert DigitPart(s, base) == s;
  }

  /** The decimal digits of a natural number parse back to it. */
  lemma ParseDigits(n: nat)
    ensures ParseInt(Digits(n, 10), 10) == Ok(n)
  {
    var d := Digits(n, 10);
    DigitsValueOfDigits(n, 10);
    assert !HasHexPrefix(d) by {
      assert IsDigitIn(d[|d| - 1], 10);
      if |d| >= 2 {
        assert IsDigitIn(d[1], 10);
      }
    }
    ParseUnsigned(d, 10);
  }

  /** A stripped literal with a minus sign parses to the negated value of its digit part. */
  lemma ParseSigned(s: string, base: nat)
    requires base == 10 || base == 16
    requires |s| > 0 && s[0] == '-' && Strip(s) == s
    requires WellGrouped(DigitPart(s[1..], base), base)
    ensures ParseInt(s, base) == Ok(-(DigitsValue(DigitPart(s[1..], base), base) as int))
  {
  }

  /** A minus sign followed by grouped decimal digits has no surrounding whitespace. */
  lemma MinusLiteral(d: string)
    requires WellGrouped(d, 10)
    ensures Strip("-" + d) == "-" + d && ("-" + d)[1..] == d
  {
    var s := "-" + d;
    assert s[|s| - 1] == d[|d| - 1];
    StripUnchanged(s);
  }

  /** A minus sign followed by a run of grouped decimal digits parses to the negated value they spell. */
  lemma ParseMinus(d: string)
    requires WellGrouped(d, 10)
    ensures ParseInt("-" + d, 10) == Ok(-(DigitsValue(d, 10) as int))
  {
    MinusLiteral(d);
    ParseSigned("-" + d, 10);
  }

  /** str(n) of a negative n, a minus sign and the digits of -n, parses back to n. */
  lemma ParseNegative(n: int)
    requires n < 0
    ensures ParseInt(Decimal(n), 10) == Ok(n)
  {
    var d := Digits(-n, 10);
    assert Decimal(n) == "-" + d;
    assert WellGrouped(d, 10) && DigitsValue(d, 10) == -n by {
      DigitsValueOfDigits(-n, 10);
    }
    ParseMinus(d);
  }

  /** int(str(n)) == n for every integer n. */
  lemma DecimalRoundTrip(n: int)
    ensures ParseInt(Decimal(n), 10) == Ok(n)
  {
    if n < 0 {
      ParseNegative(n);
    } else {
      ParseDigits(n);
    }
  }
}
