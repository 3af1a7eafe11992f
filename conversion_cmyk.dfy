/**
 * `rgb2cmyk` and `cmyk2rgb` over exact reals. `rgb2cmyk` rounds its four results to two
 * decimals with a helper that is not part of this model; it is the parameter `round2`,
 * and the worked examples only assume that it fixes the values they need.
 */
module CmykConversion {
  import opened Primitives

  /** One of the first three components of `rgb2cmyk` before rounding, exactly as written: `(1 - x - k) * (1 - k)`. */
  function Part(x: real, k: real): real
  {
    (1.0 - x - k) * (1.0 - k)
  }

  /** The four values `rgb2cmyk` computes before it rounds them. */
  function CmykOfUnits(r: real, g: real, b: real): Cmyk
  {
    var k := 1.0 - Max(Max(r, g), b);
    Cmyk(Part(r, k), Part(g, k), Part(b, k), k)
  }

  /** `rgb2cmyk`: the unrounded values, each passed through `round2`. */
  function Rgb2Cmyk(c: Rgb, round2: real -> real): Cmyk
  {
    var u := CmykOfUnits(Unit(c.r), Unit(c.g), Unit(c.b));
    Cmyk(round2(u.c), round2(u.m), round2(u.y), round2(u.k))
  }

  /** One channel of `cmyk2rgb` before its `as u8` conversion: `(1 - x) * (1 - k) * 255`. */
  function Level(x: real, k: real): real
  {
    (1.0 - x) * (1.0 - k) * 255.0
  }

  /** `cmyk2rgb`. */
  function Cmyk2Rgb(cmyk: Cmyk): Rgb
  {
    Rgb(RoundToByte(Level(cmyk.c, cmyk.k)), RoundToByte(Level(cmyk.m, cmyk.k)), RoundToByte(Level(cmyk.y, cmyk.k)))
  }

  /**
   * Before rounding, the black key is one less the largest channel, and every other
   * component is the channel's distance below the largest, times the largest (that is,
   * times `1 - k`). Each lies in [0, 1].
   */
  lemma CmykOfUnitsBounds(r: real, g: real, b: real)
    requires 0.0 <= r <= 1.0 && 0.0 <= g <= 1.0 && 0.0 <= b <= 1.0
    ensures var max := Max(Max(r, g), b);
      CmykOfUnits(r, g, b) == Cmyk((max - r) * max, (max - g) * max, (max - b) * max, 1.0 - max)
    ensures var u := CmykOfUnits(r, g, b);
      0.0 <= u.c <= 1.0 && 0.0 <= u.m <= 1.0 && 0.0 <= u.y <= 1.0 && 0.0 <= u.k <= 1.0
  {
    var max := Max(Max(r, g), b);
    assert CmykOfUnits(r, g, b) == Cmyk(Part(r, 1.0 - max), Part(g, 1.0 - max), Part(b, 1.0 - max), 1.0 - max);
    Component(r, max);
    Component(g, max);
    Component(b, max);
  }

  /** One component before rounding, with `k = 1 - max`: the channel's distance below the largest, times the largest. */
  lemma Component(x: real, max: real)
    requires 0.0 <= x <= max <= 1.0
    ensures Part(x, 1.0 - max) == (max - x) * max
    ensures 0.0 <= (max - x) * max <= 1.0
  {
    assert 1.0 - x - (1.0 - max) == max - x;
    assert 1.0 - (1.0 - max) == max;
    ProductBounds(max - x, max);
  }

  /** `rgb2cmyk` without rounding keeps every component in [0, 1]. */
  lemma Rgb2CmykBounds(c: Rgb)
    ensures var u := Rgb2Cmyk(c, x => x);
      0.0 <= u.c <= 1.0 && 0.0 <= u.m <= 1.0 && 0.0 <= u.y <= 1.0 && 0.0 <= u.k <= 1.0
  {
    CmykOfUnitsBounds(Unit(c.r), Unit(c.g), Unit(c.b));
  }

  /** A channel's unrounded component is 0 exactly when it is the largest channel, or when the colour is black. */
  lemma CmykZeroComponent(r: real, g: real, b: real)
    requires 0.0 <= r <= 1.0 && 0.0 <= g <= 1.0 && 0.0 <= b <= 1.0
    ensures CmykOfUnits(r, g, b).c == 0.0 <==> r == Max(Max(r, g), b) || Max(Max(r, g), b) == 0.0
  {
    var max := Max(Max(r, g), b);
    CmykOfUnitsBounds(r, g, b);
    if r < max && max > 0.0 {
      ScaledOrder(0.0, max - r, max);
      assert (max - r) * max > 0.0;
    }
  }

  /** A key of 1 gives black whatever the other three components. */
  lemma Cmyk2RgbFullKey(c: real, m: real, y: real)
    ensures Cmyk2Rgb(Cmyk(c, m, y, 1.0)) == Rgb(0, 0, 0)
  {
    RoundHalf();
  }

  /** A channel before rounding, `(1 - x) * (1 - k) * 255`, lies in [0, 255] for components in [0, 1], so it converts without saturating. */
  lemma ChannelRange(x: real, k: real)
    requires 0.0 <= x <= 1.0 && 0.0 <= k <= 1.0
    ensures 0.0 <= Level(x, k) <= 255.0
    ensures RoundToByte(Level(x, k)) == Round(Level(x, k))
  {
    ProductBounds(1.0 - x, 1.0 - k);
  }

  /** For components in [0, 1] the `as u8` conversions of `cmyk2rgb` never saturate: each channel is the rounded product. */
  lemma Cmyk2RgbRange(cmyk: Cmyk)
    requires 0.0 <= cmyk.c <= 1.0 && 0.0 <= cmyk.m <= 1.0 && 0.0 <= cmyk.y <= 1.0 && 0.0 <= cmyk.k <= 1.0
    ensures Cmyk2Rgb(cmyk).r as int == Round(Level(cmyk.c, cmyk.k))
    ensures Cmyk2Rgb(cmyk).g as int == Round(Level(cmyk.m, cmyk.k))
    ensures Cmyk2Rgb(cmyk).b as int == Round(Level(cmyk.y, cmyk.k))
  {
    ChannelRange(cmyk.c, cmyk.k);
    ChannelRange(cmyk.m, cmyk.k);
    ChannelRange(cmyk.y, cmyk.k);
  }

  /** The two values the worked `rgb2cmyk` examples need `round2` to leave alone. */
  predicate FixesEnds(round2: real -> real)
  {
    round2(0.0) == 0.0 && round2(1.0) == 1.0
  }

  /** White has no ink at all. */
  lemma Rgb2CmykWhite(round2: real -> real)
    requires FixesEnds(round2)
    ensures Rgb2Cmyk(Rgb(255, 255, 255), round2) == Cmyk(0.0, 0.0, 0.0, 0.0)
  {
    assert CmykOfUnits(1.0, 1.0, 1.0) == Cmyk(0.0, 0.0, 0.0, 0.0);
  }

  /** Black is the full key and nothing else. */
  lemma Rgb2CmykBlack(round2: real -> real)
    requires FixesEnds(round2)
    ensures Rgb2Cmyk(Rgb(0, 0, 0), round2) == Cmyk(0.0, 0.0, 0.0, 1.0)
  {
    assert CmykOfUnits(0.0, 0.0, 0.0) == Cmyk(0.0, 0.0, 0.0, 1.0);
  }

  /** Red is full magenta and yellow. */
  lemma Rgb2CmykRed(round2: real -> real)
    requires FixesEnds(round2)
    ensures Rgb2Cmyk(Rgb(255, 0, 0), round2) == Cmyk(0.0, 1.0, 1.0, 0.0)
  {
    assert CmykOfUnits(1.0, 0.0, 0.0) == Cmyk(0.0, 1.0, 1.0, 0.0);
  }

  /** Green is full cyan and yellow. */
  lemma Rgb2CmykGreen(round2: real -> real)
    requires FixesEnds(round2)
    ensures Rgb2Cmyk(Rgb(0, 255, 0), round2) == Cmyk(1.0, 0.0, 1.0, 0.0)
  {
    assert CmykOfUnits(0.0, 1.0, 0.0) == Cmyk(1.0, 0.0, 1.0, 0.0);
  }

  /** Blue is full cyan and magenta. */
  lemma Rgb2CmykBlue(round2: real -> real)
    requires FixesEnds(round2)
    ensures Rgb2Cmyk(Rgb(0, 0, 255), round2) == Cmyk(1.0, 1.0, 0.0, 0.0)
  {
    assert CmykOfUnits(0.0, 0.0, 1.0) == Cmyk(1.0, 1.0, 0.0, 0.0);
  }

  /** Yellow is full yellow ink. */
  lemma Rgb2CmykYellow(round2: real -> real)
    requires FixesEnds(round2)
    ensures Rgb2Cmyk(Rgb(255, 255, 0), round2) == Cmyk(0.0, 0.0, 1.0, 0.0)
  {
    assert CmykOfUnits(1.0, 1.0, 0.0) == Cmyk(0.0, 0.0, 1.0, 0.0);
  }

  /** No ink at all is white. */
  lemma Cmyk2RgbWhite()
    ensures Cmyk2Rgb(Cmyk(0.0, 0.0, 0.0, 0.0)) == Rgb(255, 255, 255)
  {
    RoundHalf();
  }

  /** Full magenta and yellow is red. */
  lemma Cmyk2RgbRed()
    ensures Cmyk2Rgb(Cmyk(0.0, 1.0, 1.0, 0.0)) == Rgb(255, 0, 0)
  {
    RoundHalf();
  }

  /** Full cyan and yellow is green. */
  lemma Cmyk2RgbGreen()
    ensures Cmyk2Rgb(Cmyk(1.0, 0.0, 1.0, 0.0)) == Rgb(0, 255, 0)
  {
    RoundHalf();
  }

  /** Full cyan and magenta is blue. */
  lemma Cmyk2RgbBlue()
    ensures Cmyk2Rgb(Cmyk(1.0, 1.0, 0.0, 0.0)) == Rgb(0, 0, 255)
  {
    RoundHalf();
  }

  /** Full yellow is yellow. */
  lemma Cmyk2RgbYellow()
    ensures Cmyk2Rgb(Cmyk(0.0, 0.0, 1.0, 0.0)) == Rgb(255, 255, 0)
  {
    RoundHalf();
  }

  /** A key of 0.5 alone is the grey 128: the channel 127.5 rounds up. */
  lemma Cmyk2RgbHalfKey()
    ensures Cmyk2Rgb(Cmyk(0.0, 0.0, 0.0, 0.5)) == Rgb(128, 128, 128)
  {
    assert Level(0.0, 0.5) == 127.5;
    RoundHalf();
  }

  /** A key of 0.75 alone is the grey 64 (from 63.75). */
  lemma Cmyk2RgbDarkKey()
    ensures Cmyk2Rgb(Cmyk(0.0, 0.0, 0.0, 0.75)) == Rgb(64, 64, 64)
  {
    assert Level(0.0, 0.75) == 63.75;
  }

  /** A key of 0.25 alone is the grey 191 (from 191.25). */
  lemma Cmyk2RgbLightKey()
    ensures Cmyk2Rgb(Cmyk(0.0, 0.0, 0.0, 0.25)) == Rgb(191, 191, 191)
  {
    assert Level(0.0, 0.25) == 191.25;
  }

  /**
   * As written, `rgb2cmyk` multiplies by `1 - k` where the usual conversion divides, so
   * `cmyk2rgb` does not undo it once the key lies strictly between 0 and 1: even with no
   * rounding at all, the dark red (204, 0, 0) comes back as (204, 73, 73).
   */
  lemma Rgb2CmykProductRoundTrip()
    ensures Cmyk2Rgb(Rgb2Cmyk(Rgb(204, 0, 0), x => x)) == Rgb(204, 73, 73)
  {
    assert Unit(204) == 0.8;
    assert CmykOfUnits(0.8, 0.0, 0.0) == Cmyk(0.0, 0.64, 0.64, 0.2);
    assert Level(0.0, 0.2) == 204.0;
    assert Level(0.64, 0.2) == 73.44;
    RoundIntegral(204);
  }

  /** One ink component as the usual conversion computes it: `(1 - x - k) / (1 - k)`, and 0 for black. */
  function Ink(x: real, k: real): real
  {
    if k < 1.0 then (1.0 - x - k) / (1.0 - k) else 0.0
  }

  /** The intended unrounded `rgb2cmyk`, dividing by `1 - k`. */
  function CmykOfUnitsDivided(r: real, g: real, b: real): Cmyk
  {
    var k := 1.0 - Max(Max(r, g), b);
    Cmyk(Ink(r, k), Ink(g, k), Ink(b, k), k)
  }

  /** The intended `rgb2cmyk`: the divided components, each passed through `round2`. */
  function Rgb2CmykDivided(c: Rgb, round2: real -> real): Cmyk
  {
    var u := CmykOfUnitsDivided(Unit(c.r), Unit(c.g), Unit(c.b));
    Cmyk(round2(u.c), round2(u.m), round2(u.y), round2(u.k))
  }

  /** With `k = 1 - max`, the divided component lies in [0, 1] and `cmyk2rgb`'s channel recovers `x * 255`. */
  lemma InkLevel(x: real, max: real)
    requires 0.0 <= x <= max <= 1.0
    ensures 0.0 <= Ink(x, 1.0 - max) <= 1.0
    ensures Level(Ink(x, 1.0 - max), 1.0 - max) == x * 255.0
  {
    if max > 0.0 {
      var i := (max - x) / max;
      assert Ink(x, 1.0 - max) == i;
      UnitQuotient(max - x, max);
      assert i * max == max - x;
      assert (1.0 - i) * max == x;
    }
  }

  /** One channel of the divided round trip: the byte comes back unchanged. */
  lemma InkChannel(v: Byte, max: real)
    requires Unit(v) <= max <= 1.0
    ensures RoundToByte(Level(Ink(Unit(v), 1.0 - max), 1.0 - max)) == v
  {
    InkLevel(Unit(v), max);
    RoundIntegral(v);
  }

  /** Without rounding, the divided conversion keeps every component in [0, 1] and `cmyk2rgb` inverts it for every colour. */
  lemma Rgb2CmykDividedRoundTrip(c: Rgb)
    ensures var u := Rgb2CmykDivided(c, x => x);
      0.0 <= u.c <= 1.0 && 0.0 <= u.m <= 1.0 && 0.0 <= u.y <= 1.0 && 0.0 <= u.k <= 1.0
    ensures Cmyk2Rgb(Rgb2CmykDivided(c, x => x)) == c
  {
    var max := Max(Max(Unit(c.r), Unit(c.g)), Unit(c.b));
    var k := 1.0 - max;
    assert Rgb2CmykDivided(c, x => x) == Cmyk(Ink(Unit(c.r), k), Ink(Unit(c.g), k), Ink(Unit(c.b), k), k);
    InkLevel(Unit(c.r), max);
    InkLevel(Unit(c.g), max);
    InkLevel(Unit(c.b), max);
    InkChannel(c.r, max);
    InkChannel(c.g, max);
    InkChannel(c.b, max);
  }

  /** When the key is 0 or 1, as in every worked example, the divided and the multiplied conversions agree. */
  lemma DividedAgreesAtExtremes(r: real, g: real, b: real)
    requires 0.0 <= r <= 1.0 && 0.0 <= g <= 1.0 && 0.0 <= b <= 1.0
    requires Max(Max(r, g), b) == 1.0 || Max(Max(r, g), b) == 0.0
    ensures CmykOfUnitsDivided(r, g, b) == CmykOfUnits(r, g, b)
  {
    var max := Max(Max(r, g), b);
    var k := 1.0 - max;
    assert CmykOfUnits(r, g, b) == Cmyk(Part(r, k), Part(g, k), Part(b, k), k);
    if max == 1.0 {
      assert Ink(r, k) == Part(r, k) && Ink(g, k) == Part(g, k) && Ink(b, k) == Part(b, k);
    } else {
      assert r == 0.0 && g == 0.0 && b == 0.0;
    }
  }
}
