/**
 * `rgb2hex` and `hex2rgb`: a colour as the seven-character code `#rrggbb` and back.
 * `u8::from_str_radix(_, 16)` is modelled exactly: an optional leading `+`, then one or
 * more hexadecimal digits of either case whose value fits in a byte.
 */
module Hex {
  import opened Wrappers
  import opened Primitives

  predicate IsLowerHexDigit(c: char)
  {
    '0' <= c <= '9' || 'a' <= c <= 'f'
  }

  /** `char::is_ascii_hexdigit`. */
  predicate IsHexDigit(c: char)
  {
    '0' <= c <= '9' || 'a' <= c <= 'f' || 'A' <= c <= 'F'
  }

  /** A code as `rgb2hex` writes it: `#` and six lower-case hexadecimal digits. */
  predicate IsHexCode(s: string)
  {
    |s| == 7 && s[0] == '#' && forall i | 1 <= i < 7 :: IsLowerHexDigit(s[i])
  }

  /** `char::to_digit(16)`. */
  function DigitValue(c: char): (d: nat)
    requires IsHexDigit(c)
    ensures d < 16
  {
    if c <= '9' then c as int - '0' as int
    else if c <= 'F' then c as int - 'A' as int + 10
    else c as int - 'a' as int + 10
  }

  /** The lower-case digit `format!("{:x}")` writes for a value below 16. */
  function DigitChar(d: nat): (c: char)
    requires d < 16
    ensures IsLowerHexDigit(c) && DigitValue(c) == d
  {
    if d < 10 then ('0' as int + d) as char else ('a' as int + d - 10) as char
  }

  /** The value of a string of hexadecimal digits, most significant first. */
  function DigitsValue(s: string): nat
    requires forall i | 0 <= i < |s| :: IsHexDigit(s[i])
  {
    if |s| == 0 then 0 else 16 * DigitsValue(s[..|s| - 1]) + DigitValue(s[|s| - 1])
  }

  lemma DigitsValueShort(s: string)
    requires forall i | 0 <= i < |s| :: IsHexDigit(s[i])
    ensures |s| == 1 ==> DigitsValue(s) == DigitValue(s[0])
    ensures |s| == 2 ==> DigitsValue(s) == 16 * DigitValue(s[0]) + DigitValue(s[1])
  {
    if |s| == 2 {
      assert DigitsValue(s[..1]) == DigitValue(s[0]) by {
        assert s[..1][..0] == [];
      }
    } else if |s| == 1 {
      assert s[..0] == [];
    }
  }

  /** `u8::from_str_radix(s, 16)`; `None` is the error that the source then unwraps. */
  function ParseByte(s: string): (b: Option<Byte>)
    ensures |s| == 2 && IsHexDigit(s[0]) && IsHexDigit(s[1]) ==>
              b == Some(16 * DigitValue(s[0]) + DigitValue(s[1]))
    ensures |s| == 2 && s[0] == '+' && IsHexDigit(s[1]) ==> b == Some(DigitValue(s[1]))
    ensures b.Some? ==> |s| > 0 && (s[0] == '+' || IsHexDigit(s[0]))
  {
    if |s| == 0 || (s[0] == '+' && |s| == 1) then None
    else
      var digits := if s[0] == '+' then s[1..] else s;
      if forall i | 0 <= i < |digits| :: IsHexDigit(digits[i]) then
        var v := DigitsValue(digits);
        DigitsValueShort(digits);
        if v < 256 then Some(v) else None
      else None
  }

  /** `format!("{:02x}", b)`: two lower-case digits. */
  function FormatByte(b: Byte): (s: string)
    ensures |s| == 2 && IsLowerHexDigit(s[0]) && IsLowerHexDigit(s[1])
    ensures 16 * DigitValue(s[0]) + DigitValue(s[1]) == b
  {
    [DigitChar(b / 16), DigitChar(b % 16)]
  }

  /** `rgb2hex`: `#` and the three channels in two digits each; the alpha is dropped. */
  function Rgb2Hex(c: Rgba): (s: string)
    ensures IsHexCode(s)
    ensures s[1..3] == FormatByte(c.r) && s[3..5] == FormatByte(c.g) && s[5..7] == FormatByte(c.b)
  {
    "#" + FormatByte(c.r) + FormatByte(c.g) + FormatByte(c.b)
  }

  /**
   * `hex2rgb`: the bytes at positions 1..3, 3..5 and 5..7, with alpha 1. The source
   * slices by UTF-8 byte offsets; a string shorter than seven characters, or one whose
   * first seven characters are not all ASCII, fails there or in the digit parse, so
   * the character offsets used here decide the same cases.
   */
  function Hex2Rgb(hex: string): (c: Option<Rgba>)
    ensures c.Some? <==> |hex| >= 7 && hex[0] as int < 128 && ParseByte(hex[1..3]).Some?
                         && ParseByte(hex[3..5]).Some? && ParseByte(hex[5..7]).Some?
    ensures c.Some? ==> c.value.alpha == 1.0
    ensures c.Some? ==> Some(c.value.r) == ParseByte(hex[1..3]) && Some(c.value.g) == ParseByte(hex[3..5])
                        && Some(c.value.b) == ParseByte(hex[5..7])
  {
    if |hex| < 7 || hex[0] as int >= 128 then None
    else match (ParseByte(hex[1..3]), ParseByte(hex[3..5]), ParseByte(hex[5..7]))
      case (Some(r), Some(g), Some(b)) => Some(Rgba(r, g, b, 1.0))
      case _ => None
  }

  /** Printing two digits and parsing them back gives the byte. */
  lemma ParseFormatByte(b: Byte)
    ensures ParseByte(FormatByte(b)) == Some(b)
  {
  }

  /** `hex2rgb` inverts `rgb2hex`, except that the alpha comes back as 1. */
  lemma Hex2RgbOfRgb2Hex(c: Rgba)
    ensures Hex2Rgb(Rgb2Hex(c)) == Some(c.(alpha := 1.0))
  {
    var s := Rgb2Hex(c);
    ParseFormatByte(c.r);
    ParseFormatByte(c.g);
    ParseFormatByte(c.b);
  }

  /** `rgb2hex` inverts `hex2rgb` on every code in the form `rgb2hex` writes. */
  lemma Rgb2HexOfHex2Rgb(s: string)
    requires IsHexCode(s)
    ensures Hex2Rgb(s).Some? && Rgb2Hex(Hex2Rgb(s).value) == s
  {
    assert forall i | 1 <= i < 7 :: IsHexDigit(s[i]);
    var c := Hex2Rgb(s).value;
    var t := Rgb2Hex(c);
    FormatDigits(c.r, s[1], s[2]);
    FormatDigits(c.g, s[3], s[4]);
    FormatDigits(c.b, s[5], s[6]);
    assert t == s;
  }

  lemma FormatDigits(b: Byte, hi: char, lo: char)
    requires IsLowerHexDigit(hi) && IsLowerHexDigit(lo) && b == 16 * DigitValue(hi) + DigitValue(lo)
    ensures FormatByte(b) == [hi, lo]
  {
    var s := FormatByte(b);
    assert DigitValue(s[0]) == DigitValue(hi) && DigitValue(s[1]) == DigitValue(lo);
    DigitValueInjective(s[0], hi);
    DigitValueInjective(s[1], lo);
  }

  lemma DigitValueInjective(c: char, d: char)
    requires IsLowerHexDigit(c) && IsLowerHexDigit(d) && DigitValue(c) == DigitValue(d)
    ensures c == d
  {
  }

  /** The characters after the seventh do not matter. */
  lemma Hex2RgbPrefix(hex: string)
    requires |hex| >= 7
    ensures Hex2Rgb(hex) == Hex2Rgb(hex[..7])
  {
    assert hex[..7][1..3] == hex[1..3] && hex[..7][3..5] == hex[3..5] && hex[..7][5..7] == hex[5..7];
  }

  /** The examples of hex.rs: white is `#ffffff` both ways. */
  lemma ExampleWhite()
    ensures Rgb2Hex(Rgba(255, 255, 255, 1.0)) == "#ffffff"
    ensures Hex2Rgb("#ffffff") == Some(Rgba(255, 255, 255, 1.0))
  {
    Rgb2HexOfHex2Rgb("#ffffff");
  }
}
