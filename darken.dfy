/**
 * `darken`, `darker`, `brighten` and `brighter` (darken.rs): the Lab lightness is moved
 * by 18 per unit of `amount`, the colour is converted back through Lab, and the alpha of
 * the original is kept. Both Lab conversions are `Kernels` fields.
 */
module Darken {
  import opened Wrappers
  import opened Primitives
  import opened Spaces
  import opened Mode
  import opened Colors

  /** `KN`: the Lab lightness step of one unit of `amount`. */
  const LightnessStep: real := 18.0

  /** The amount every one of the four methods uses when none is given. */
  const DefaultAmount: real := 1.0

  function Amount(amount: Option<real>): real
  {
    if amount.Some? then amount.value else DefaultAmount
  }

  /** The Lab value `darken` converts back: the lightness lowered by `18 * amount`, `a` and `b` as they were. */
  function DarkenedLab(k: Kernels, c: Rgba, amount: real): (lab: Lab)
    ensures lab.l == LabOf(k, c).l - LightnessStep * amount
    ensures lab.a == LabOf(k, c).a && lab.b == LabOf(k, c).b
  {
    var v := ModeVector(k, c, "lab");
    Lab(v[0] - LightnessStep * amount, v[1], v[2])
  }

  /** The colour `darken` builds: the channels come back from Lab, the alpha from the original colour. */
  function Darkened(k: Kernels, c: Rgba, amount: real): (d: Rgba)
    ensures d.alpha == c.alpha
    ensures RgbPart(d) == RgbPart(k.lab2rgb(DarkenedLab(k, c, amount)))
  {
    var rgb := k.lab2rgb(DarkenedLab(k, c, amount));
    Rgba(rgb.r, rgb.g, rgb.b, c.alpha)
  }

  /** A darkening by 0 passes the unchanged Lab value to the conversion back. */
  lemma DarkenByZero(k: Kernels, c: Rgba)
    ensures DarkenedLab(k, c, 0.0) == LabOf(k, c)
  {
  }

  /** `Color::darken`. */
  method DarkenColor(k: Kernels, color: Color, amount: Option<real>) returns (d: Color)
    ensures fresh(d)
    ensures d.rgba == Darkened(k, color.rgba, Amount(amount))
  {
    var t := Amount(amount);
    var lab := ModeVector(k, color.rgba, "lab");
    var alpha := color.Alpha();
    var rgb := k.lab2rgb(Lab(lab[0] - LightnessStep * t, lab[1], lab[2]));
    d := new Color(rgb.r, rgb.g, rgb.b, alpha);
  }

  /** `Color::darker`, an alias: the same colour as `darken` with the same amount. */
  method DarkerColor(k: Kernels, color: Color, amount: Option<real>) returns (d: Color)
    ensures fresh(d)
    ensures d.rgba == Darkened(k, color.rgba, Amount(amount))
  {
    d := DarkenColor(k, color, Some(Amount(amount)));
  }

  /** `Color::brighten`: darkening by the negated amount. */
  method BrightenColor(k: Kernels, color: Color, amount: Option<real>) returns (d: Color)
    ensures fresh(d)
    ensures d.rgba == Darkened(k, color.rgba, -Amount(amount))
  {
    d := DarkenColor(k, color, Some(Amount(amount) * -1.0));
  }

  /** `Color::brighter`, an alias of `brighten`. */
  method BrighterColor(k: Kernels, color: Color, amount: Option<real>) returns (d: Color)
    ensures fresh(d)
    ensures d.rgba == Darkened(k, color.rgba, -Amount(amount))
  {
    d := BrightenColor(k, color, Some(Amount(amount)));
  }

  /** Brightening raises the Lab lightness by 18 per unit: the default raises it by 18 exactly. */
  lemma BrightenDefault(k: Kernels, c: Rgba)
    ensures DarkenedLab(k, c, -Amount(None)).l == LabOf(k, c).l + 18.0
  {
  }
}
