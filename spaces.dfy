/**
 * The read-only views of a colour (spaces.rs): its code, its channels, its HSL and Lab
 * forms and its name. Each `Color` method here only reads the one field `rgba`, so it
 * is modelled as a function of that value. The conversions the library takes from
 * elsewhere and are not part of this model (the Lab conversion in both directions, the
 * CMYK view, the constructor from a mode vector and the square root) are the fields of
 * `Kernels`, passed in wherever they are used.
 */
module Spaces {
  import opened Wrappers
  import opened Primitives
  import opened Hex
  import opened W3cx11
  import opened HslConversion

  /** The collaborators the core calls but does not define. */
  datatype Kernels = Kernels(
    rgb2lab: Rgb -> Lab,
    lab2rgb: Lab -> Rgba,
    cmyk: Rgba -> Cmyk,
    fromVector: (seq<real>, string) -> Rgba,
    sqrt: real -> real)

  /** `Color::rgb`: the three channels without the alpha. */
  function RgbPart(c: Rgba): (p: Rgb)
    ensures Rgba(p.r, p.g, p.b, c.alpha) == c
  {
    Rgb(c.r, c.g, c.b)
  }

  /** `Color::hex`: the code `#rrggbb` of the channels, which decodes back to them with alpha 1. */
  function HexString(c: Rgba): (s: string)
    ensures IsHexCode(s)
    ensures Hex2Rgb(s) == Some(c.(alpha := 1.0))
  {
    Hex2RgbOfRgb2Hex(c);
    Rgb2Hex(c)
  }

  /** The code depends on the channels alone: two colours that differ only in alpha have the same code. */
  lemma HexIgnoresAlpha(c: Rgba, alpha: real)
    ensures HexString(c.(alpha := alpha)) == HexString(c)
  {
  }

  /** Two colours have the same code exactly when they have the same channels. */
  lemma HexInjective(c: Rgba, d: Rgba)
    ensures HexString(c) == HexString(d) <==> RgbPart(c) == RgbPart(d)
  {
    if HexString(c) == HexString(d) {
      assert Some(c.(alpha := 1.0)) == Some(d.(alpha := 1.0));
    }
  }

  /** `Color::hsl`: `rgb2hsl` of the channels. */
  function HslOf(c: Rgba): (hsl: Hsl)
    ensures 0.0 <= hsl.h < 360.0 && 0.0 <= hsl.s <= 1.0 && 0.0 <= hsl.l <= 1.0
  {
    Rgb2HslBounds(RgbPart(c));
    Rgb2Hsl(RgbPart(c))
  }

  /** `Color::hsla`: the HSL form with the alpha appended. */
  function HslaOf(c: Rgba): (hsla: (real, real, real, real))
    ensures Hsl(hsla.0, hsla.1, hsla.2) == HslOf(c) && hsla.3 == c.alpha
  {
    var hsl := HslOf(c);
    (hsl.h, hsl.s, hsl.l, c.alpha)
  }

  /** `Color::lab`: the Lab form of the channels, the alpha playing no part. */
  function LabOf(k: Kernels, c: Rgba): (lab: Lab)
    ensures forall alpha: real :: lab == k.rgb2lab(RgbPart(c.(alpha := alpha)))
  {
    k.rgb2lab(RgbPart(c))
  }

  /**
   * `Color::name`: a name whose table code is the colour's code, when there is one, and
   * otherwise the code itself. The source takes the first match in the table's iteration
   * order, which is unspecified, so any matching name may be chosen.
   */
  method Name(c: Rgba) returns (n: string)
    ensures (exists key | key in Table :: Table[key] == HexString(c)) ==> n in Table && Table[n] == HexString(c)
    ensures (forall key | key in Table :: Table[key] != HexString(c)) ==> n == HexString(c)
  {
    var hex := HexString(c);
    if key :| key in Table && Table[key] == hex {
      n := key;
    } else {
      n := hex;
    }
  }

  /** A name is either a key of the table or the colour's own code, and never both. */
  lemma NameIsKeyOrCode(c: Rgba, n: string)
    requires (exists key | key in Table :: Table[key] == HexString(c)) ==> n in Table && Table[n] == HexString(c)
    requires (forall key | key in Table :: Table[key] != HexString(c)) ==> n == HexString(c)
    ensures n in Table <==> n != HexString(c)
  {
    TableShape();
    if n in Table {
      assert IsColorName(n) && n[0] != '#';
    }
  }

  /** A code no name has is its own name: `#abcdef`. */
  method NameOfUnnamed() returns (n: string)
    ensures n == "#abcdef"
  {
    var c := Rgba(0xab, 0xcd, 0xef, 1.0);
    CodeOfUnnamed();
    TableReverseFacts();
    n := Name(c);
  }

  /** `mediumspringgreen` is the only name of `#00fa9a`, so it is the name of (0, 250, 154) at any alpha. */
  method NameOfSpringGreen(alpha: real) returns (n: string)
    ensures n == "mediumspringgreen"
  {
    var c := Rgba(0, 250, 154, alpha);
    CodeOfSpringGreen(alpha);
    TableLookups();
    TableReverseFacts();
    n := Name(c);
  }

  lemma CodeOfUnnamed()
    ensures HexString(Rgba(0xab, 0xcd, 0xef, 1.0)) == "#abcdef"
  {
    Rgb2HexOfHex2Rgb("#abcdef");
  }

  lemma CodeOfSpringGreen(alpha: real)
    ensures HexString(Rgba(0, 250, 154, alpha)) == "#00fa9a"
  {
    Rgb2HexOfHex2Rgb("#00fa9a");
  }

  /** White at full alpha has the code `#ffffff`; at alpha 0.5 the code is the same, as `rgb2hex` drops the alpha. */
  lemma HexWhite()
    ensures HexString(Rgba(255, 255, 255, 1.0)) == "#ffffff"
    ensures HexString(Rgba(255, 255, 255, 0.5)) == "#ffffff"
  {
    ExampleWhite();
  }

  /**
   * `Color::hex` as its doc comment describes it: the code `#rrggbb`, followed by the
   * alpha scaled to a byte in two hex digits when the alpha is below 1.
   */
  function HexWithAlpha(c: Rgba): (s: string)
    ensures c.alpha >= 1.0 ==> s == HexString(c)
    ensures c.alpha < 1.0 ==> |s| == 9 && s[..7] == HexString(c)
    ensures c.alpha < 1.0 ==> ParseByte(s[7..]) == Some(RoundToByte(c.alpha * 255.0))
  {
    if c.alpha < 1.0 then HexString(c) + FormatByte(RoundToByte(c.alpha * 255.0)) else HexString(c)
  }

  /** The code with the alpha suffix still decodes to the channels: `hex2rgb` reads only the first seven characters. */
  lemma HexWithAlphaDecodes(c: Rgba)
    ensures Hex2Rgb(HexWithAlpha(c)) == Some(c.(alpha := 1.0))
  {
    if c.alpha < 1.0 {
      Hex2RgbPrefix(HexWithAlpha(c));
    }
  }

  /** White at alpha 1, 0.5 and 0.6 has the codes `#ffffff`, `#ffffff80` and `#ffffff99`, as the test and the doc comment of `hex()` expect. */
  lemma HexWithAlphaWhite()
    ensures HexWithAlpha(Rgba(255, 255, 255, 1.0)) == "#ffffff"
    ensures HexWithAlpha(Rgba(255, 255, 255, 0.5)) == "#ffffff80"
    ensures HexWithAlpha(Rgba(255, 255, 255, 0.6)) == "#ffffff99"
  {
    HexWhite();
    assert HexString(Rgba(255, 255, 255, 0.6)) == "#ffffff" by {
      HexIgnoresAlpha(Rgba(255, 255, 255, 1.0), 0.6);
    }
    assert RoundToByte(0.5 * 255.0) == 128;
    assert RoundToByte(0.6 * 255.0) == 153;
  }

  /** `orange` is the code `#ffa500`, whose channels are (255, 165, 0). */
  lemma OrangeChannels()
    ensures "orange" in Table && Hex2Rgb(Table["orange"]) == Some(Rgba(255, 165, 0, 1.0))
  {
    TableLookups();
    OrangeCode();
  }

  lemma OrangeCode()
    ensures Hex2Rgb("#ffa500") == Some(Rgba(255, 165, 0, 1.0))
  {
    assert "#ffa500"[1..3] == "ff" && "#ffa500"[3..5] == "a5" && "#ffa500"[5..7] == "00";
  }

  /** White at full alpha is `(0, 0, 1, 1)` in HSLA. */
  lemma HslaWhite()
    ensures HslaOf(Rgba(255, 255, 255, 1.0)) == (0.0, 0.0, 1.0, 1.0)
  {
    Rgb2HslWhite();
  }
}
