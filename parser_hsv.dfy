/**
 * `parse_hsv_str`: the text `hsv(h, s, x)` read into the hue, saturation, value triple.
 * Degree signs are deleted before the fields are split, and each field is a
 * percentage `100%` (read as `1`) or a plain number. A `None` result is the panic
 * of a field that does not parse or of fewer than three fields.
 */
module HsvParser {
  import opened Wrappers
  import opened Primitives
  import opened Text
  import opened FloatText
  import opened Tokenize

  /** The three numbers `parse_hsv_str` takes from its fields, every one of which must parse. */
  function HsvOfFields(fields: seq<string>): (c: Option<Hsv>)
    ensures c.Some? <==> |fields| >= 3 && forall i | 0 <= i < |fields| :: ParsePercent(fields[i]).Some?
    ensures c.Some? ==> c.value == Hsv(ParsePercent(fields[0]).value, ParsePercent(fields[1]).value,
                                      ParsePercent(fields[2]).value)
  {
    match ParseEach(fields, ParsePercent)
      case None => None
      case Some(v) => if |v| < 3 then None else Some(Hsv(v[0], v[1], v[2]))
  }

  /** `parse_hsv_str`. */
  function ParseHsvStr(s: string): Option<Hsv>
  {
    HsvOfFields(Fields(s, [" ", "°", "hsv(", ")"]))
  }

  /** On text laid out as `hsv(a, b, ...)` the parser reads the listed fields without their degree signs. */
  lemma ParseHsvRendered(tokens: seq<string>)
    requires |tokens| >= 1 && forall i | 0 <= i < |tokens| :: Plain(tokens[i])
    ensures ParseHsvStr(Render("hsv(", tokens)) == HsvOfFields(WithoutEach(tokens, '°'))
  {
    FieldsOfRenderDegrees("hsv(", tokens);
  }

  /** Three readable fields give the numbers they denote. */
  lemma HsvOfThreeFields(a: string, b: string, c: string, va: real, vb: real, vc: real)
    requires ParsePercent(a) == Some(va) && ParsePercent(b) == Some(vb) && ParsePercent(c) == Some(vc)
    ensures HsvOfFields([a, b, c]) == Some(Hsv(va, vb, vc))
  {
    ParseEachThree(a, b, c, ParsePercent, va, vb, vc);
  }

  /**
   * Three tokens laid out as `hsv(a, b, c)` that read as numbers once their degree signs
   * are gone parse to those numbers.
   */
  lemma ParseHsvValues(a: string, b: string, c: string, va: real, vb: real, vc: real)
    requires Plain(a) && Plain(b) && Plain(c)
    requires ParsePercent(Without(a, '°')) == Some(va)
    requires ParsePercent(Without(b, '°')) == Some(vb)
    requires ParsePercent(Without(c, '°')) == Some(vc)
    ensures ParseHsvStr(Render("hsv(", [a, b, c])) == Some(Hsv(va, vb, vc))
  {
    PlainThree(a, b, c);
    ParseHsvRendered([a, b, c]);
    WithoutEachThree(a, b, c, '°');
    HsvOfThreeFields(Without(a, '°'), Without(b, '°'), Without(c, '°'), va, vb, vc);
  }

  lemma ExampleZeroPercent(s: string)
    requires s == "hsv(0, 0%, 0%)"
    ensures ParseHsvStr(s) == Some(Hsv(0.0, 0.0, 0.0))
  {
    ZeroPercentText(s);
    DigitToken("0", 0);
    PercentToken("0", 0);
    assert "0" + "%" == "0%";
    ParseHsvValues("0", "0%", "0%", 0.0, 0.0, 0.0);
  }

  lemma ExampleZero(s: string)
    requires s == "hsv(0, 0, 0)"
    ensures ParseHsvStr(s) == Some(Hsv(0.0, 0.0, 0.0))
  {
    ZeroText(s);
    DigitToken("0", 0);
    ParseHsvValues("0", "0", "0", 0.0, 0.0, 0.0);
  }

  /** A degree sign after the hue is dropped. */
  lemma ExampleDegrees(s: string)
    requires s == "hsv(300°, 100%, 100%)"
    ensures ParseHsvStr(s) == Some(Hsv(300.0, 1.0, 1.0))
  {
    DegreesText(s);
    DegreesTokens();
    ParseHsvValues("300°", "100%", "100%", 300.0, 1.0, 1.0);
  }

  lemma DegreesTokens()
    ensures Plain("300°") && Without("300°", '°') == "300" && ParsePercent("300") == Some(300.0)
    ensures Plain("100%") && Without("100%", '°') == "100%" && ParsePercent("100%") == Some(1.0)
  {
    HundredDigits();
    DegreeToken("300");
    DigitToken("300", 300);
    assert "300" + "°" == "300°";
    HundredPercentToken();
  }

  /** Without `%` the numbers are taken as they stand. */
  lemma ExampleFullPlain(s: string)
    requires s == "hsv(0, 100, 100)"
    ensures ParseHsvStr(s) == Some(Hsv(0.0, 100.0, 100.0))
  {
    FullPlainText(s);
    HundredDigits();
    DigitToken("0", 0);
    DigitToken("100", 100);
    ParseHsvValues("0", "100", "100", 0.0, 100.0, 100.0);
  }

  lemma ZeroPercentText(s: string)
    requires s == "hsv(0, 0%, 0%)"
    ensures Render("hsv(", ["0", "0%", "0%"]) == s
  {
    RenderedThree(s, "hsv(", "0", "0%", "0%");
  }

  lemma ZeroText(s: string)
    requires s == "hsv(0, 0, 0)"
    ensures Render("hsv(", ["0", "0", "0"]) == s
  {
    RenderedThree(s, "hsv(", "0", "0", "0");
  }

  lemma DegreesText(s: string)
    requires s == "hsv(300°, 100%, 100%)"
    ensures Render("hsv(", ["300°", "100%", "100%"]) == s
  {
    RenderedThree(s, "hsv(", "300°", "100%", "100%");
  }

  lemma FullPlainText(s: string)
    requires s == "hsv(0, 100, 100)"
    ensures Render("hsv(", ["0", "100", "100"]) == s
  {
    RenderedThree(s, "hsv(", "0", "100", "100");
  }
}
