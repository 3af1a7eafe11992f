/**
 * `parse_hsl_str`: the text `hsl(h, s, x)` read into the hue, saturation, lightness triple.
 * Degree signs are deleted before the fields are split, and each field is a
 * percentage `100%` (read as `1`) or a plain number. A `None` result is the panic
 * of a field that does not parse or of fewer than three fields.
 */
module HslParser {
  import opened Wrappers
  import opened Primitives
  import opened Text
  import opened FloatText
  import opened Tokenize

  /** The three numbers `parse_hsl_str` takes from its fields, every one of which must parse. */
  function HslOfFields(fields: seq<string>): (c: Option<Hsl>)
    ensures c.Some? <==> |fields| >= 3 && forall i | 0 <= i < |fields| :: ParsePercent(fields[i]).Some?
    ensures c.Some? ==> c.value == Hsl(ParsePercent(fields[0]).value, ParsePercent(fields[1]).value,
                                      ParsePercent(fields[2]).value)
  {
    match ParseEach(fields, ParsePercent)
      case None => None
      case Some(v) => if |v| < 3 then None else Some(Hsl(v[0], v[1], v[2]))
  }

  /** `parse_hsl_str`. */
  function ParseHslStr(s: string): Option<Hsl>
  {
    HslOfFields(Fields(s, [" ", "°", "hsl(", ")"]))
  }

  /** On text laid out as `hsl(a, b, ...)` the parser reads the listed fields without their degree signs. */
  lemma ParseHslRendered(tokens: seq<string>)
    requires |tokens| >= 1 && forall i | 0 <= i < |tokens| :: Plain(tokens[i])
    ensures ParseHslStr(Render("hsl(", tokens)) == HslOfFields(WithoutEach(tokens, '°'))
  {
    FieldsOfRenderDegrees("hsl(", tokens);
  }

  /** Three readable fields give the numbers they denote. */
  lemma HslOfThreeFields(a: string, b: string, c: string, va: real, vb: real, vc: real)
    requires ParsePercent(a) == Some(va) && ParsePercent(b) == Some(vb) && ParsePercent(c) == Some(vc)
    ensures HslOfFields([a, b, c]) == Some(Hsl(va, vb, vc))
  {
    ParseEachThree(a, b, c, ParsePercent, va, vb, vc);
  }

  /**
   * Three tokens laid out as `hsl(a, b, c)` that read as numbers once their degree signs
   * are gone parse to those numbers.
   */
  lemma ParseHslValues(a: string, b: string, c: string, va: real, vb: real, vc: real)
    requires Plain(a) && Plain(b) && Plain(c)
    requires ParsePercent(Without(a, '°')) == Some(va)
    requires ParsePercent(Without(b, '°')) == Some(vb)
    requires ParsePercent(Without(c, '°')) == Some(vc)
    ensures ParseHslStr(Render("hsl(", [a, b, c])) == Some(Hsl(va, vb, vc))
  {
    PlainThree(a, b, c);
    ParseHslRendered([a, b, c]);
    WithoutEachThree(a, b, c, '°');
    HslOfThreeFields(Without(a, '°'), Without(b, '°'), Without(c, '°'), va, vb, vc);
  }

  lemma ExampleZeroPercent(s: string)
    requires s == "hsl(0, 0%, 0%)"
    ensures ParseHslStr(s) == Some(Hsl(0.0, 0.0, 0.0))
  {
    ZeroPercentText(s);
    DigitToken("0", 0);
    PercentToken("0", 0);
    assert "0" + "%" == "0%";
    ParseHslValues("0", "0%", "0%", 0.0, 0.0, 0.0);
  }

  lemma ExampleZero(s: string)
    requires s == "hsl(0, 0, 0)"
    ensures ParseHslStr(s) == Some(Hsl(0.0, 0.0, 0.0))
  {
    ZeroText(s);
    DigitToken("0", 0);
    ParseHslValues("0", "0", "0", 0.0, 0.0, 0.0);
  }

  lemma ExampleFullPercent(s: string)
    requires s == "hsl(0, 100%, 100%)"
    ensures ParseHslStr(s) == Some(Hsl(0.0, 1.0, 1.0))
  {
    FullPercentText(s);
    HundredDigits();
    DigitToken("0", 0);
    HundredPercentToken();
    ParseHslValues("0", "100%", "100%", 0.0, 1.0, 1.0);
  }

  /** Without `%` the numbers are taken as they stand. */
  lemma ExampleFullPlain(s: string)
    requires s == "hsl(0, 100, 100)"
    ensures ParseHslStr(s) == Some(Hsl(0.0, 100.0, 100.0))
  {
    FullPlainText(s);
    HundredDigits();
    DigitToken("0", 0);
    DigitToken("100", 100);
    ParseHslValues("0", "100", "100", 0.0, 100.0, 100.0);
  }

  lemma ZeroPercentText(s: string)
    requires s == "hsl(0, 0%, 0%)"
    ensures Render("hsl(", ["0", "0%", "0%"]) == s
  {
    RenderedThree(s, "hsl(", "0", "0%", "0%");
  }

  lemma ZeroText(s: string)
    requires s == "hsl(0, 0, 0)"
    ensures Render("hsl(", ["0", "0", "0"]) == s
  {
    RenderedThree(s, "hsl(", "0", "0", "0");
  }

  lemma FullPercentText(s: string)
    requires s == "hsl(0, 100%, 100%)"
    ensures Render("hsl(", ["0", "100%", "100%"]) == s
  {
    RenderedThree(s, "hsl(", "0", "100%", "100%");
  }

  lemma FullPlainText(s: string)
    requires s == "hsl(0, 100, 100)"
    ensures Render("hsl(", ["0", "100", "100"]) == s
  {
    RenderedThree(s, "hsl(", "0", "100", "100");
  }
}
