/**
 * The colour object: one mutable field `rgba`, three bytes and an alpha (alpha.rs). The
 * only operation that writes the field is `set_alpha`, which clamps its argument to
 * [0, 1] and leaves the channels alone.
 */
module Colors {
  import opened Primitives

  /** The value `set_alpha` stores for the argument `x`. */
  function Clamp(x: real): (y: real)
    ensures 0.0 <= y <= 1.0
    ensures x > 1.0 ==> y == 1.0
    ensures x < 0.0 ==> y == 0.0
    ensures 0.0 <= x <= 1.0 ==> y == x
  {
    if x > 1.0 then 1.0 else if x < 0.0 then 0.0 else x
  }

  /** Clamping twice is clamping once, so a second `set_alpha` with the same argument changes nothing. */
  lemma ClampIdempotent(x: real)
    ensures Clamp(Clamp(x)) == Clamp(x)
  {
  }

  class Color {
    var rgba: Rgba

    /**
     * `Color::new(r, g, b, alpha)`. Its body is not part of this model; it is taken to
     * store its four arguments, as the library's own `rgba()` example expects.
     */
    constructor(r: Byte, g: Byte, b: Byte, alpha: real)
      ensures rgba == Rgba(r, g, b, alpha)
    {
      rgba := Rgba(r, g, b, alpha);
    }

    /** `Color::alpha`: the fourth component of `rgba`. */
    function Alpha(): (a: real)
      reads this
      ensures a == rgba.alpha
    {
      rgba.alpha
    }

    /** `Color::set_alpha`: only the alpha is written, and it ends in [0, 1]. */
    method SetAlpha(alpha: real)
      modifies this
      ensures rgba == old(rgba).(alpha := Clamp(alpha))
      ensures 0.0 <= rgba.alpha <= 1.0
      ensures rgba.r == old(rgba.r) && rgba.g == old(rgba.g) && rgba.b == old(rgba.b)
    {
      if alpha > 1.0 {
        rgba := rgba.(alpha := 1.0);
      } else if alpha < 0.0 {
        rgba := rgba.(alpha := 0.0);
      } else {
        rgba := rgba.(alpha := alpha);
      }
    }
  }

  /** Setting the same alpha twice leaves the colour as setting it once. */
  method SetAlphaTwice(color: Color, alpha: real)
    modifies color
    ensures color.rgba == old(color.rgba).(alpha := Clamp(alpha))
  {
    color.SetAlpha(alpha);
    var once := color.rgba;
    color.SetAlpha(alpha);
    ClampIdempotent(alpha);
    assert color.rgba == once;
  }

  /** The library's example: `#7760BF` with alpha set to 0.5 reports alpha 0.5. */
  method SetAlphaExample() returns (a: real)
    ensures a == 0.5
  {
    var color := new Color(0x77, 0x60, 0xBF, 1.0);
    color.SetAlpha(0.5);
    a := color.Alpha();
  }

  /** Arguments above 1 and below 0 store the nearest end of the range. */
  method SetAlphaOutOfRange() returns (high: real, low: real)
    ensures high == 1.0 && low == 0.0
  {
    var color := new Color(0, 0, 0, 1.0);
    color.SetAlpha(2.5);
    high := color.Alpha();
    color.SetAlpha(-0.5);
    low := color.Alpha();
  }
}
