/**
 * The colour codec of the memory game's window (hex_to_rgb and rgb_to_hex
 * in Game-Development-System/Memory-Game/memory_game_GUI.py): "#rrggbb"
 * strings and (red, green, blue) triples.
 */
module HexColor {
  import opened Wrappers
  import opened Python
  import opened Text
  import opened Numerals

  datatype Rgb = Rgb(red: int, green: int, blue: int)

  /** s.lstrip('#'): s without the '#' characters it starts with. */
  function StripHashes(s: string): (r: string)
    ensures |r| <= |s| && r == s[|s| - |r|..]
    ensures forall i | 0 <= i < |s| - |r| :: s[i] == '#'
    ensures r == [] || r[0] != '#'
  {
    if |s| > 0 && s[0] == '#' then StripHashes(s[1..]) else s
  }

  /** s[i:j] for 0 <= i <= j: Python clamps both ends to the length of s. */
  function Slice(s: string, i: nat, j: nat): string
    requires i <= j
  {
    if j <= |s| then s[i..j] else if i <= |s| then s[i..] else []
  }

  /**
   * hex_to_rgb: the leading '#' characters go, then the two-character slices
   * at offsets 0, 2 and 4 are read with int(part, 16), left to right; the
   * first one that does not parse raises ValueError.
   */
  function HexToRgb(s: string): (r: Outcome<Rgb>)
    ensures r.Err? ==> r.error == ValueError
  {
    var t := StripHashes(s);
    var red :- ParseInt(Slice(t, 0, 2), 16);
    var green :- ParseInt(Slice(t, 2, 4), 16);
    var blue :- ParseInt(Slice(t, 4, 6), 16);
    Ok(Rgb(red, green, blue))
  }

  /** rgb_to_hex: '#' followed by each component formatted with '02x'. */
  function RgbToHex(c: Rgb): (s: string)
    ensures |s| >= 7 && s[0] == '#'
  {
    "#" + Hex02(c.red) + Hex02(c.green) + Hex02(c.blue)
  }

  predicate IsByte(n: int) {
    0 <= n < 256
  }

  /** A component in 0..255 is written as exactly two lower-case hex digits. */
  lemma Hex02OfByte(n: int)
    requires IsByte(n)
    ensures Hex02(n) == [DigitChar(n / 16), DigitChar(n % 16)]
  {
    if n >= 16 {
      assert Digits(n / 16, 16) == [DigitChar(n / 16)];
    }
  }

  /** Two hex digits parse to the number they spell. */
  lemma ParseHexPair(s: string)
    requires |s| == 2 && IsDigitIn(s[0], 16) && IsDigitIn(s[1], 16)
    ensures ParseInt(s, 16) == Ok(PairValue(s[0], s[1]))
  {
    assert DigitsValue(s, 16) == PairValue(s[0], s[1]) by {
      assert s[..1] == [s[0]] && [s[0]][..0] == [];
      assert DigitsValue([s[0]], 16) == DigitValue(s[0]).value;
    }
    ParseUnsigned(s, 16);
  }

  /** int(format(n, '02x'), 16) == n for a component in 0..255. */
  lemma ParseHex02(n: int)
    requires IsByte(n)
    ensures ParseInt(Hex02(n), 16) == Ok(n)
  {
    var s := Hex02(n);
    assert |s| == 2 && IsDigitIn(s[0], 16) && IsDigitIn(s[1], 16) && PairValue(s[0], s[1]) == n by {
      Hex02OfByte(n);
      DigitCharValue(n / 16);
      DigitCharValue(n % 16);
    }
    ParseHexPair(s);
  }

  /** hex_to_rgb(rgb_to_hex(c)) == c for every colour whose components lie in 0..255. */
  lemma ColorRoundTrip(c: Rgb)
    requires IsByte(c.red) && IsByte(c.green) && IsByte(c.blue)
    ensures HexToRgb(RgbToHex(c)) == Ok(c)
  {
    var s := RgbToHex(c);
    var t := Hex02(c.red) + Hex02(c.green) + Hex02(c.blue);
    Hex02OfByte(c.red);
    Hex02OfByte(c.green);
    Hex02OfByte(c.blue);
    assert StripHashes(s) == t by {
      assert s[1..] == t;
      assert t[0] != '#';
    }
    assert Slice(t, 0, 2) == Hex02(c.red);
    assert Slice(t, 2, 4) == Hex02(c.green);
    assert Slice(t, 4, 6) == Hex02(c.blue);
    ParseHex02(c.red);
    ParseHex02(c.green);
    ParseHex02(c.blue);
  }

  /** Writing a hex digit back gives its lower-case form. */
  lemma DigitCharOfValue(c: char)
    requires IsDigitIn(c, 16)
    ensures DigitChar(DigitValue(c).value) == LowerChar(c)
  {
  }

  /** Six hex digits behind any number of '#' characters. */
  predicate IsHexColor(h: string) {
    |h| == 6 && forall i | 0 <= i < 6 :: IsDigitIn(h[i], 16)
  }

  function Hashes(n: nat): (s: string)
    ensures |s| == n && forall i | 0 <= i < n :: s[i] == '#'
  {
    seq(n, _ => '#')
  }

  lemma StripHashesOf(n: nat, h: string)
    requires h == [] || h[0] != '#'
    ensures StripHashes(Hashes(n) + h) == h
  {
    var s := Hashes(n) + h;
    assert s[n..] == h;
  }

  /** The value of two hex digits. */
  function PairValue(a: char, b: char): nat
    requires IsDigitIn(a, 16) && IsDigitIn(b, 16)
  {
    DigitValue(a).value * 16 + DigitValue(b).value
  }

  /** Two hex digits, read and formatted again, come back in lower case. */
  lemma Hex02OfPair(a: char, b: char)
    requires IsDigitIn(a, 16) && IsDigitIn(b, 16)
    ensures Hex02(PairValue(a, b)) == [LowerChar(a), LowerChar(b)]
  {
    var n := PairValue(a, b);
    Hex02OfByte(n);
    assert n / 16 == DigitValue(a).value && n % 16 == DigitValue(b).value;
    DigitCharOfValue(a);
    DigitCharOfValue(b);
  }

  /** hex_to_rgb once each slice of the stripped string is known to parse. */
  lemma ReadSlices(s: string, t: string, red: int, green: int, blue: int)
    requires StripHashes(s) == t
    requires ParseInt(Slice(t, 0, 2), 16) == Ok(red)
    requires ParseInt(Slice(t, 2, 4), 16) == Ok(green)
    requires ParseInt(Slice(t, 4, 6), 16) == Ok(blue)
    ensures HexToRgb(s) == Ok(Rgb(red, green, blue))
  {
  }

  /** The two-character slice at offset i, when it holds two hex digits. */
  lemma ParseSlice(t: string, i: nat)
    requires i + 2 <= |t| && IsDigitIn(t[i], 16) && IsDigitIn(t[i + 1], 16)
    ensures ParseInt(Slice(t, i, i + 2), 16) == Ok(PairValue(t[i], t[i + 1]))
  {
    var s := Slice(t, i, i + 2);
    assert |s| == 2 && s[0] == t[i] && s[1] == t[i + 1];
    ParseHexPair(s);
  }

  /** hex_to_rgb on six hex digits behind any number of '#' characters. */
  lemma ReadHexColor(n: nat, h: string)
    requires IsHexColor(h)
    ensures HexToRgb(Hashes(n) + h)
            == Ok(Rgb(PairValue(h[0], h[1]), PairValue(h[2], h[3]), PairValue(h[4], h[5])))
  {
    assert IsDigitIn(h[0], 16) && IsDigitIn(h[1], 16) && IsDigitIn(h[2], 16);
    assert IsDigitIn(h[3], 16) && IsDigitIn(h[4], 16) && IsDigitIn(h[5], 16);
    StripHashesOf(n, h);
    ParseSlice(h, 0);
    ParseSlice(h, 2);
    ParseSlice(h, 4);
    ReadSlices(Hashes(n) + h, h, PairValue(h[0], h[1]), PairValue(h[2], h[3]), PairValue(h[4], h[5]));
  }

  /** rgb_to_hex on the colour read from six hex digits gives them back in lower case. */
  lemma WriteHexColor(h: string)
    requires IsHexColor(h)
    ensures RgbToHex(Rgb(PairValue(h[0], h[1]), PairValue(h[2], h[3]), PairValue(h[4], h[5])))
            == "#" + Lower(h)
  {
    assert IsDigitIn(h[0], 16) && IsDigitIn(h[1], 16) && IsDigitIn(h[2], 16);
    assert IsDigitIn(h[3], 16) && IsDigitIn(h[4], 16) && IsDigitIn(h[5], 16);
    Hex02OfPair(h[0], h[1]);
    Hex02OfPair(h[2], h[3]);
    Hex02OfPair(h[4], h[5]);
    var low := Lower(h);
    assert low == [low[0], low[1]] + [low[2], low[3]] + [low[4], low[5]];
  }

  /**
   * The other direction: a colour written as six hex digits (in either
   * letter case, after any number of '#') is read and written back as '#'
   * followed by the same digits in lower case.
   */
  lemma HexRoundTrip(n: nat, h: string)
    requires IsHexColor(h)
    ensures HexToRgb(Hashes(n) + h).Ok?
    ensures RgbToHex(HexToRgb(Hashes(n) + h).value) == "#" + Lower(h)
  {
    ReadHexColor(n, h);
    WriteHexColor(h);
  }
}
