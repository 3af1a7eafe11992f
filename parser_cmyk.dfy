/**
 * `parse_cmyk_str`: the text `cmyk(c, m, y, k)` read into four numbers, each either a
 * percentage `95%` (read as `0.95`) or a plain number. A `None` result is the panic of
 * a field that does not parse or of fewer than four fields.
 */
module CmykParser {
  import opened Wrappers
  import opened Primitives
  import opened FloatText
  import opened Tokenize

  /** The four numbers `parse_cmyk_str` takes from its fields, every one of which must parse. */
  function CmykOfFields(fields: seq<string>): (c: Option<Cmyk>)
    ensures c.Some? <==> |fields| >= 4 && forall i | 0 <= i < |fields| :: ParsePercent(fields[i]).Some?
    ensures c.Some? ==> c.value == Cmyk(ParsePercent(fields[0]).value, ParsePercent(fields[1]).value,
                                        ParsePercent(fields[2]).value, ParsePercent(fields[3]).value)
  {
    match ParseEach(fields, ParsePercent)
      case None => None
      case Some(v) => if |v| < 4 then None else Some(Cmyk(v[0], v[1], v[2], v[3]))
  }

  /** `parse_cmyk_str`. */
  function ParseCmykStr(s: string): Option<Cmyk>
  {
    CmykOfFields(Fields(s, [" ", "cmyk(", ")"]))
  }

  /** On text laid out as `cmyk(a, b, ...)` the parser reads exactly the listed fields. */
  lemma ParseCmykRendered(tokens: seq<string>)
    requires |tokens| >= 1 && forall i | 0 <= i < |tokens| :: Plain(tokens[i])
    ensures ParseCmykStr(Render("cmyk(", tokens)) == CmykOfFields(tokens)
  {
    FieldsOfRender("cmyk(", tokens);
  }

  /** Four readable fields give the numbers they denote. */
  lemma CmykOfFourFields(a: string, b: string, c: string, d: string, va: real, vb: real, vc: real, vd: real)
    requires ParsePercent(a) == Some(va) && ParsePercent(b) == Some(vb)
    requires ParsePercent(c) == Some(vc) && ParsePercent(d) == Some(vd)
    ensures CmykOfFields([a, b, c, d]) == Some(Cmyk(va, vb, vc, vd))
  {
    ParseEachFour(a, b, c, d, ParsePercent, va, vb, vc, vd);
  }

  /** Four readable tokens laid out as `cmyk(a, b, c, d)` parse to the numbers they denote. */
  lemma ParseCmykValues(a: string, b: string, c: string, d: string, va: real, vb: real, vc: real, vd: real)
    requires Plain(a) && Plain(b) && Plain(c) && Plain(d)
    requires ParsePercent(a) == Some(va) && ParsePercent(b) == Some(vb)
    requires ParsePercent(c) == Some(vc) && ParsePercent(d) == Some(vd)
    ensures ParseCmykStr(Render("cmyk(", [a, b, c, d])) == Some(Cmyk(va, vb, vc, vd))
  {
    PlainFour(a, b, c, d);
    ParseCmykRendered([a, b, c, d]);
    CmykOfFourFields(a, b, c, d, va, vb, vc, vd);
  }

  /** Percentages are read as fractions. */
  lemma ExamplePercentages(s: string)
    requires s == "cmyk(95%, 80%, 0, 0)"
    ensures ParseCmykStr(s) == Some(Cmyk(0.95, 0.8, 0.0, 0.0))
  {
    PercentagesText(s);
    PercentagesTokens();
  }

  /** The tokens of the test text, laid out again, parse to the expected numbers. */
  lemma PercentagesTokens()
    ensures ParseCmykStr(Render("cmyk(", ["95%", "80%", "0", "0"])) == Some(Cmyk(0.95, 0.8, 0.0, 0.0))
  {
    PercentNinetyFive();
    PercentEighty();
    PlainValue("0", 0);
    DigitsPlain("0");
    ParseCmykValues("95%", "80%", "0", "0", 0.95, 0.8, 0.0, 0.0);
  }

  /** The first percentage of the test text: a plain token read as 0.95. */
  lemma PercentNinetyFive()
    ensures Plain("95%") && ParsePercent("95%") == Some(0.95)
  {
    assert "95"[..1] == "9";
    PercentValue("95%", "95", 95);
    SuffixPlain("95", '%');
  }

  /** The second percentage of the test text: a plain token read as 0.8. */
  lemma PercentEighty()
    ensures Plain("80%") && ParsePercent("80%") == Some(0.8)
  {
    assert "80"[..1] == "8";
    PercentValue("80%", "80", 80);
    SuffixPlain("80", '%');
  }

  /** The same colour written with fractions. */
  lemma ExampleFractions(s: string)
    requires s == "cmyk(0.95, 0.8, 0, 0)"
    ensures ParseCmykStr(s) == Some(Cmyk(0.95, 0.8, 0.0, 0.0))
  {
    FractionsText(s);
    FractionTokens();
    PlainValue("0", 0);
    DigitsPlain("0");
    ParseCmykValues("0.95", "0.8", "0", "0", 0.95, 0.8, 0.0, 0.0);
  }

  lemma ExampleWhite(s: string)
    requires s == "cmyk(0, 0, 0, 0)"
    ensures ParseCmykStr(s) == Some(Cmyk(0.0, 0.0, 0.0, 0.0))
  {
    WhiteText(s);
    PlainValue("0", 0);
    DigitsPlain("0");
    ParseCmykValues("0", "0", "0", "0", 0.0, 0.0, 0.0, 0.0);
  }

  lemma ExampleBlack(s: string)
    requires s == "cmyk(0, 0, 0, 1)"
    ensures ParseCmykStr(s) == Some(Cmyk(0.0, 0.0, 0.0, 1.0))
  {
    BlackText(s);
    PlainValue("0", 0);
    PlainValue("1", 1);
    DigitsPlain("0");
    DigitsPlain("1");
    ParseCmykValues("0", "0", "0", "1", 0.0, 0.0, 0.0, 1.0);
  }

  lemma PercentagesText(s: string)
    requires s == "cmyk(95%, 80%, 0, 0)"
    ensures Render("cmyk(", ["95%", "80%", "0", "0"]) == s
  {
    RenderedFour(s, "cmyk(", "95%", "80%", "0", "0");
  }

  lemma FractionsText(s: string)
    requires s == "cmyk(0.95, 0.8, 0, 0)"
    ensures Render("cmyk(", ["0.95", "0.8", "0", "0"]) == s
  {
    RenderedFour(s, "cmyk(", "0.95", "0.8", "0", "0");
  }

  lemma WhiteText(s: string)
    requires s == "cmyk(0, 0, 0, 0)"
    ensures Render("cmyk(", ["0", "0", "0", "0"]) == s
  {
    RenderedFour(s, "cmyk(", "0", "0", "0", "0");
  }

  lemma BlackText(s: string)
    requires s == "cmyk(0, 0, 0, 1)"
    ensures Render("cmyk(", ["0", "0", "0", "1"]) == s
  {
    RenderedFour(s, "cmyk(", "0", "0", "0", "1");
  }
}
