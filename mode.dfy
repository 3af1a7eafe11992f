/**
 * `Color::mode`: a colour's components as a vector, for the five mode names the
 * dispatcher knows. Any other name reaches `todo!()` and panics, so callers must pass
 * one of the five.
 */
module Mode {
  import opened Primitives
  import opened Spaces

  /** The names with an arm in `mode`. */
  predicate IsModeName(mode: string)
  {
    mode == "rgb" || mode == "rgba" || mode == "lab" || mode == "hsl" || mode == "cmyk"
  }

  /** How many components each mode has. */
  function ModeLength(mode: string): (n: nat)
    requires IsModeName(mode)
    ensures n == 3 || n == 4
  {
    if mode == "rgba" || mode == "cmyk" then 4 else 3
  }

  /** `mode(name)` for the colour `c`; its length is the mode's length, whatever the colour. */
  function ModeVector(k: Kernels, c: Rgba, mode: string): (v: seq<real>)
    requires IsModeName(mode)
    ensures |v| == ModeLength(mode)
  {
    match mode
    case "rgb" => [c.r as real, c.g as real, c.b as real]
    case "rgba" => [c.r as real, c.g as real, c.b as real, c.alpha]
    case "lab" =>
      var lab := LabOf(k, c);
      [lab.l, lab.a, lab.b]
    case "hsl" =>
      var hsl := HslOf(c);
      [hsl.h, hsl.s, hsl.l]
    case _ =>
      var cmyk := k.cmyk(c);
      [cmyk.c, cmyk.m, cmyk.y, cmyk.k]
  }

  /** The vector's length depends on the mode name alone: any two colours give vectors of the same length. */
  lemma ModeLengthOnlyName(k: Kernels, c: Rgba, d: Rgba, mode: string)
    requires IsModeName(mode)
    ensures |ModeVector(k, c, mode)| == |ModeVector(k, d, mode)|
  {
  }

  /** `rgb` is the three channels as reals, exactly, and independent of the alpha. */
  lemma ModeRgb(k: Kernels, c: Rgba)
    ensures var v := ModeVector(k, c, "rgb");
      |v| == 3 && v[0] == c.r as real && v[1] == c.g as real && v[2] == c.b as real
  {
  }

  /** `rgba` is `rgb` followed by the alpha. */
  lemma ModeRgbaExtendsRgb(k: Kernels, c: Rgba)
    ensures ModeVector(k, c, "rgba") == ModeVector(k, c, "rgb") + [c.alpha]
  {
  }

  /** `lab` and `hsl` are the Lab and HSL forms, component by component; `cmyk` is the four CMYK components. */
  lemma ModeViews(k: Kernels, c: Rgba)
    ensures var v := ModeVector(k, c, "lab"); Lab(v[0], v[1], v[2]) == LabOf(k, c)
    ensures var v := ModeVector(k, c, "hsl"); Hsl(v[0], v[1], v[2]) == HslOf(c)
    ensures var v := ModeVector(k, c, "cmyk"); Cmyk(v[0], v[1], v[2], v[3]) == k.cmyk(c)
  {
  }

  /** In `hsl` mode every component is bounded: the hue in [0, 360), the others in [0, 1]. */
  lemma ModeHslRange(k: Kernels, c: Rgba)
    ensures var v := ModeVector(k, c, "hsl"); 0.0 <= v[0] < 360.0 && 0.0 <= v[1] <= 1.0 && 0.0 <= v[2] <= 1.0
  {
  }
}
