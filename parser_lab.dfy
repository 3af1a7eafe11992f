/**
 * `parse_lab_str`: the text `lab(l, a, b)` read into three plain numbers.
 * No percentages or degree signs are recognised. A `None` result is the panic
 * of a field that does not parse or of fewer than three fields.
 */
module LabParser {
  import opened Wrappers
  import opened Primitives
  import opened FloatText
  import opened Tokenize

  /** The three numbers `parse_lab_str` takes from its fields, every one of which must parse. */
  function LabOfFields(fields: seq<string>): (c: Option<Lab>)
    ensures c.Some? <==> |fields| >= 3 && forall i | 0 <= i < |fields| :: ParseFloat(fields[i]).Some?
    ensures c.Some? ==> c.value == Lab(ParseFloat(fields[0]).value, ParseFloat(fields[1]).value,
                                      ParseFloat(fields[2]).value)
  {
    match ParseEach(fields, ParseFloat)
      case None => None
      case Some(v) => if |v| < 3 then None else Some(Lab(v[0], v[1], v[2]))
  }

  /** `parse_lab_str`. */
  function ParseLabStr(s: string): Option<Lab>
  {
    LabOfFields(Fields(s, [" ", "lab(", ")"]))
  }

  /** On text laid out as `lab(a, b, ...)` the parser reads exactly the listed fields. */
  lemma ParseLabRendered(tokens: seq<string>)
    requires |tokens| >= 1 && forall i | 0 <= i < |tokens| :: Plain(tokens[i])
    ensures ParseLabStr(Render("lab(", tokens)) == LabOfFields(tokens)
  {
    FieldsOfRender("lab(", tokens);
  }

  /** Three readable fields give the numbers they denote. */
  lemma LabOfThreeFields(a: string, b: string, c: string, va: real, vb: real, vc: real)
    requires ParseFloat(a) == Some(va) && ParseFloat(b) == Some(vb) && ParseFloat(c) == Some(vc)
    ensures LabOfFields([a, b, c]) == Some(Lab(va, vb, vc))
  {
    ParseEachThree(a, b, c, ParseFloat, va, vb, vc);
  }

  /** Three plain tokens laid out as `lab(a, b, c)` parse to the numbers they denote. */
  lemma ParseLabValues(a: string, b: string, c: string, va: real, vb: real, vc: real)
    requires Plain(a) && Plain(b) && Plain(c)
    requires ParseFloat(a) == Some(va) && ParseFloat(b) == Some(vb) && ParseFloat(c) == Some(vc)
    ensures ParseLabStr(Render("lab(", [a, b, c])) == Some(Lab(va, vb, vc))
  {
    PlainThree(a, b, c);
    ParseLabRendered([a, b, c]);
    LabOfThreeFields(a, b, c, va, vb, vc);
  }

  /** A percent sign is not part of the lab notation: such a field makes the parse fail. */
  lemma PercentRejected(d: string)
    requires AllDigits(d)
    ensures LabOfFields([d + "%", "0", "0"]).None?
  {
    assert (d + "%")[|d|] == '%';
    if ParseFloat(d + "%").Some? {
      ParseFloatChars(d + "%");
      assert false;
    }
  }

  lemma ExampleZero(s: string)
    requires s == "lab(0, 0, 0)"
    ensures ParseLabStr(s) == Some(Lab(0.0, 0.0, 0.0))
  {
    ZeroText(s);
    DigitsPlain("0");
    ParseDigits("0");
    ParseLabValues("0", "0", "0", 0.0, 0.0, 0.0);
  }

  lemma ExampleFull(s: string)
    requires s == "lab(100, 0, 0)"
    ensures ParseLabStr(s) == Some(Lab(100.0, 0.0, 0.0))
  {
    FullText(s);
    HundredDigits();
    DigitsPlain("0");
    DigitsPlain("100");
    ParseDigits("0");
    ParseDigits("100");
    ParseLabValues("100", "0", "0", 100.0, 0.0, 0.0);
  }

  lemma ZeroText(s: string)
    requires s == "lab(0, 0, 0)"
    ensures Render("lab(", ["0", "0", "0"]) == s
  {
    RenderedThree(s, "lab(", "0", "0", "0");
  }

  lemma FullText(s: string)
    requires s == "lab(100, 0, 0)"
    ensures Render("lab(", ["100", "0", "0"]) == s
  {
    RenderedThree(s, "lab(", "100", "0", "0");
  }
}
