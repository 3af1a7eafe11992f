/**
 * `parse_rgb_str` and `parse_rgba_str`: the text `rgb(r, g, b)` or `rgba(r, g, b, a)`
 * read into the stored `(u8, u8, u8, f64)` value. A `None` result is the panic the
 * source's `unwrap` or out-of-range index raises.
 */
module RgbParser {
  import opened Wrappers
  import opened Primitives
  import opened FloatText
  import opened Tokenize

  /**
   * The colour `parse_rgb_str` builds from its fields: every field is parsed and rounded
   * into a byte, the first three are the channels and the alpha is 1.
   */
  function RgbOfFields(fields: seq<string>): (c: Option<Rgba>)
    ensures c.Some? <==> |fields| >= 3 && forall i | 0 <= i < |fields| :: ParseFloat(fields[i]).Some?
    ensures c.Some? ==> c.value == Rgba(RoundToByte(ParseFloat(fields[0]).value),
                                        RoundToByte(ParseFloat(fields[1]).value),
                                        RoundToByte(ParseFloat(fields[2]).value), 1.0)
  {
    match ParseEach(fields, ParseFloat)
      case None => None
      case Some(v) =>
        if |v| < 3 then None
        else Some(Rgba(RoundToByte(v[0]), RoundToByte(v[1]), RoundToByte(v[2]), 1.0))
  }

  /** `parse_rgb_str`. */
  function ParseRgbStr(s: string): Option<Rgba>
  {
    RgbOfFields(Fields(s, [" ", "rgb(", ")"]))
  }

  /**
   * The colour `parse_rgba_str` builds from its fields: the first three are parsed and
   * rounded into the channels, the fourth is the alpha as it stands; later fields are
   * never read.
   */
  function RgbaOfFields(fields: seq<string>): (c: Option<Rgba>)
    ensures c.Some? <==> |fields| >= 4 && ParseFloat(fields[0]).Some? && ParseFloat(fields[1]).Some?
                                       && ParseFloat(fields[2]).Some? && ParseFloat(fields[3]).Some?
    ensures c.Some? ==> c.value == Rgba(RoundToByte(ParseFloat(fields[0]).value),
                                        RoundToByte(ParseFloat(fields[1]).value),
                                        RoundToByte(ParseFloat(fields[2]).value),
                                        ParseFloat(fields[3]).value)
  {
    if |fields| < 4 then None
    else
      var r := ParseFloat(fields[0]);
      var g := ParseFloat(fields[1]);
      var b := ParseFloat(fields[2]);
      var a := ParseFloat(fields[3]);
      if r.Some? && g.Some? && b.Some? && a.Some? then
        Some(Rgba(RoundToByte(r.value), RoundToByte(g.value), RoundToByte(b.value), a.value))
      else None
  }

  /** `parse_rgba_str`. */
  function ParseRgbaStr(s: string): Option<Rgba>
  {
    RgbaOfFields(Fields(s, [" ", "rgba(", ")"]))
  }

  /** On text laid out as `rgb(a, b, ...)` the parser reads exactly the listed fields. */
  lemma ParseRgbRendered(tokens: seq<string>)
    requires |tokens| >= 1 && forall i | 0 <= i < |tokens| :: Plain(tokens[i])
    ensures ParseRgbStr(Render("rgb(", tokens)) == RgbOfFields(tokens)
  {
    FieldsOfRender("rgb(", tokens);
  }

  /** On text laid out as `rgba(a, b, ...)` the parser reads exactly the listed fields. */
  lemma ParseRgbaRendered(tokens: seq<string>)
    requires |tokens| >= 1 && forall i | 0 <= i < |tokens| :: Plain(tokens[i])
    ensures ParseRgbaStr(Render("rgba(", tokens)) == RgbaOfFields(tokens)
  {
    FieldsOfRender("rgba(", tokens);
  }

  /** A run of digits whose value fits a byte parses and rounds to that byte. */
  lemma DigitsByte(d: string)
    requires |d| > 0 && AllDigits(d) && DigitsValue(d) < 256
    ensures Plain(d)
    ensures ParseFloat(d) == Some(DigitsValue(d) as real)
    ensures RoundToByte(DigitsValue(d) as real) == DigitsValue(d)
  {
    DigitsPlain(d);
    ParseDigits(d);
    RoundIntegral(DigitsValue(d));
  }

  /** Three readable fields give the rounded channels, opaque. */
  lemma RgbOfThreeFields(a: string, b: string, c: string, va: real, vb: real, vc: real)
    requires ParseFloat(a) == Some(va) && ParseFloat(b) == Some(vb) && ParseFloat(c) == Some(vc)
    ensures RgbOfFields([a, b, c]) == Some(Rgba(RoundToByte(va), RoundToByte(vb), RoundToByte(vc), 1.0))
  {
    ParseEachThree(a, b, c, ParseFloat, va, vb, vc);
  }

  /** A fourth readable field is read and then dropped. */
  lemma RgbOfFourFields(a: string, b: string, c: string, e: string, va: real, vb: real, vc: real)
    requires ParseFloat(a) == Some(va) && ParseFloat(b) == Some(vb) && ParseFloat(c) == Some(vc)
    requires ParseFloat(e).Some?
    ensures RgbOfFields([a, b, c, e]) == Some(Rgba(RoundToByte(va), RoundToByte(vb), RoundToByte(vc), 1.0))
  {
    ParseEachFour(a, b, c, e, ParseFloat, va, vb, vc, ParseFloat(e).value);
  }

  /** Four readable fields give the rounded channels and the alpha as it stands. */
  lemma RgbaOfFourFields(a: string, b: string, c: string, d: string, va: real, vb: real, vc: real, vd: real)
    requires ParseFloat(a) == Some(va) && ParseFloat(b) == Some(vb)
    requires ParseFloat(c) == Some(vc) && ParseFloat(d) == Some(vd)
    ensures RgbaOfFields([a, b, c, d]) == Some(Rgba(RoundToByte(va), RoundToByte(vb), RoundToByte(vc), vd))
  {
    var tokens := [a, b, c, d];
    assert tokens[0] == a && tokens[1] == b && tokens[2] == c && tokens[3] == d;
  }

  /** Three readable tokens laid out as `rgb(a, b, c)` parse to the rounded channels. */
  lemma ParseRgbValues(a: string, b: string, c: string, va: real, vb: real, vc: real)
    requires Plain(a) && Plain(b) && Plain(c)
    requires ParseFloat(a) == Some(va) && ParseFloat(b) == Some(vb) && ParseFloat(c) == Some(vc)
    ensures ParseRgbStr(Render("rgb(", [a, b, c])) == Some(Rgba(RoundToByte(va), RoundToByte(vb), RoundToByte(vc), 1.0))
  {
    PlainThree(a, b, c);
    ParseRgbRendered([a, b, c]);
    RgbOfThreeFields(a, b, c, va, vb, vc);
  }

  /** With a fourth readable token the alpha stays 1. */
  lemma ParseRgbValuesExtra(a: string, b: string, c: string, e: string, va: real, vb: real, vc: real)
    requires Plain(a) && Plain(b) && Plain(c) && Plain(e)
    requires ParseFloat(a) == Some(va) && ParseFloat(b) == Some(vb) && ParseFloat(c) == Some(vc)
    requires ParseFloat(e).Some?
    ensures ParseRgbStr(Render("rgb(", [a, b, c, e])) == Some(Rgba(RoundToByte(va), RoundToByte(vb), RoundToByte(vc), 1.0))
  {
    PlainFour(a, b, c, e);
    ParseRgbRendered([a, b, c, e]);
    RgbOfFourFields(a, b, c, e, va, vb, vc);
  }

  /** Four readable tokens laid out as `rgba(a, b, c, d)` parse to the rounded channels and alpha `d`. */
  lemma ParseRgbaValues(a: string, b: string, c: string, d: string, va: real, vb: real, vc: real, vd: real)
    requires Plain(a) && Plain(b) && Plain(c) && Plain(d)
    requires ParseFloat(a) == Some(va) && ParseFloat(b) == Some(vb)
    requires ParseFloat(c) == Some(vc) && ParseFloat(d) == Some(vd)
    ensures ParseRgbaStr(Render("rgba(", [a, b, c, d])) == Some(Rgba(RoundToByte(va), RoundToByte(vb), RoundToByte(vc), vd))
  {
    PlainFour(a, b, c, d);
    ParseRgbaRendered([a, b, c, d]);
    RgbaOfFourFields(a, b, c, d, va, vb, vc, vd);
  }

  /** Every colour written as `rgb(r, g, b)` in decimal parses back to itself, opaque. */
  lemma ParseRgbDecimal(c: Rgb)
    ensures ParseRgbStr(Render("rgb(", [DecimalText(c.r), DecimalText(c.g), DecimalText(c.b)]))
         == Some(Rgba(c.r, c.g, c.b, 1.0))
  {
    DigitsByte(DecimalText(c.r));
    DigitsByte(DecimalText(c.g));
    DigitsByte(DecimalText(c.b));
    ParseRgbValues(DecimalText(c.r), DecimalText(c.g), DecimalText(c.b), c.r as real, c.g as real, c.b as real);
  }

  /** Every colour written as `rgba(r, g, b, d.f)` in decimal parses back to itself. */
  lemma ParseRgbaDecimal(c: Rgb, d: string, f: string)
    requires |d| > 0 && AllDigits(d) && AllDigits(f)
    ensures ParseRgbaStr(Render("rgba(", [DecimalText(c.r), DecimalText(c.g), DecimalText(c.b), d + "." + f]))
         == Some(Rgba(c.r, c.g, c.b, ScaleDown(DigitsValue(d + f) as real, |f|)))
  {
    DigitsByte(DecimalText(c.r));
    DigitsByte(DecimalText(c.g));
    DigitsByte(DecimalText(c.b));
    PointPlain(d, f);
    ParsePoint(d, f);
    ParseRgbaValues(DecimalText(c.r), DecimalText(c.g), DecimalText(c.b), d + "." + f,
                    c.r as real, c.g as real, c.b as real, ScaleDown(DigitsValue(d + f) as real, |f|));
  }

  /** A field holding anything but number characters makes `parse_rgb_str` panic. */
  lemma RgbRejectsForeignChar(fields: seq<string>, i: nat, j: nat)
    requires i < |fields| && j < |fields[i]| && !IsNumberChar(fields[i][j])
    ensures RgbOfFields(fields) == None
  {
    if ParseFloat(fields[i]).Some? {
      ParseFloatChars(fields[i]);
      assert false;
    }
  }

  lemma ExampleBlack(s: string)
    requires s == "rgb(0, 0, 0)"
    ensures ParseRgbStr(s) == Some(Rgba(0, 0, 0, 1.0))
  {
    BlackText(s);
    DigitsByte("0");
    ParseRgbValues("0", "0", "0", 0.0, 0.0, 0.0);
  }

  lemma ExampleWhite(s: string)
    requires s == "rgb(255, 255, 255)"
    ensures ParseRgbStr(s) == Some(Rgba(255, 255, 255, 1.0))
  {
    WhiteText(s);
    Digits255();
    DigitsByte("255");
    ParseRgbValues("255", "255", "255", 255.0, 255.0, 255.0);
  }

  /** A fourth field is parsed by `parse_rgb_str` but the alpha stays 1. */
  lemma ExampleIgnoredAlpha(s: string)
    requires s == "rgb(254, 255, 255, 0.5)"
    ensures ParseRgbStr(s) == Some(Rgba(254, 255, 255, 1.0))
  {
    IgnoredAlphaText(s);
    Digits255();
    DigitsByte("254");
    DigitsByte("255");
    HalfToken();
    ParseRgbValuesExtra("254", "255", "255", "0.5", 254.0, 255.0, 255.0);
  }

  lemma ExampleRgbaTransparent(s: string)
    requires s == "rgba(0, 0, 0, 0)"
    ensures ParseRgbaStr(s) == Some(Rgba(0, 0, 0, 0.0))
  {
    TransparentText(s);
    DigitsByte("0");
    ParseRgbaValues("0", "0", "0", "0", 0.0, 0.0, 0.0, 0.0);
  }

  lemma ExampleRgbaOpaque(s: string)
    requires s == "rgba(255, 255, 255, 1)"
    ensures ParseRgbaStr(s) == Some(Rgba(255, 255, 255, 1.0))
  {
    OpaqueText(s);
    Digits255();
    DigitsByte("255");
    DigitsByte("1");
    ParseRgbaValues("255", "255", "255", "1", 255.0, 255.0, 255.0, 1.0);
  }

  lemma ExampleRgbaHalf(s: string)
    requires s == "rgba(255, 255, 255, 0.5)"
    ensures ParseRgbaStr(s) == Some(Rgba(255, 255, 255, 0.5))
  {
    HalfText(s);
    Digits255();
    DigitsByte("255");
    HalfToken();
    ParseRgbaValues("255", "255", "255", "0.5", 255.0, 255.0, 255.0, 0.5);
  }

  lemma HalfToken()
    ensures Plain("0.5") && ParseFloat("0.5") == Some(0.5)
  {
    PointPlain("0", "5");
    assert "0" + "." + "5" == "0.5";
    ExampleHalf("0.5");
  }

  lemma Digits255()
    ensures AllDigits("255") && DigitsValue("255") == 255 && DigitsValue("254") == 254
  {
    assert "255"[..2] == "25" && "25"[..1] == "2" && "254"[..2] == "25";
  }

  lemma BlackText(s: string)
    requires s == "rgb(0, 0, 0)"
    ensures Render("rgb(", ["0", "0", "0"]) == s
  {
    RenderedThree(s, "rgb(", "0", "0", "0");
  }

  lemma WhiteText(s: string)
    requires s == "rgb(255, 255, 255)"
    ensures Render("rgb(", ["255", "255", "255"]) == s
  {
    RenderedThree(s, "rgb(", "255", "255", "255");
  }

  lemma IgnoredAlphaText(s: string)
    requires s == "rgb(254, 255, 255, 0.5)"
    ensures Render("rgb(", ["254", "255", "255", "0.5"]) == s
  {
    RenderedFour(s, "rgb(", "254", "255", "255", "0.5");
  }

  lemma TransparentText(s: string)
    requires s == "rgba(0, 0, 0, 0)"
    ensures Render("rgba(", ["0", "0", "0", "0"]) == s
  {
    RenderedFour(s, "rgba(", "0", "0", "0", "0");
  }

  lemma OpaqueText(s: string)
    requires s == "rgba(255, 255, 255, 1)"
    ensures Render("rgba(", ["255", "255", "255", "1"]) == s
  {
    RenderedFour(s, "rgba(", "255", "255", "255", "1");
  }

  lemma HalfText(s: string)
    requires s == "rgba(255, 255, 255, 0.5)"
    ensures Render("rgba(", ["255", "255", "255", "0.5"]) == s
  {
    RenderedFour(s, "rgba(", "255", "255", "255", "0.5");
  }
}
