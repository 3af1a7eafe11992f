/**
 * `rgb2hsv` and `hsv2rgb` over exact reals. The hue is in degrees, saturation and
 * value in [0, 1]. `hsv2rgb` panics outside `0 <= h < 360`, which is its precondition
 * here.
 */
module HsvConversion {
  import opened Primitives

  /** `rgb2hsv` on the three channels already scaled to [0, 1]. */
  function HsvOfUnits(r: real, g: real, b: real): Hsv
    requires 0.0 <= r && 0.0 <= g && 0.0 <= b
  {
    var max := Max(Max(r, g), b);
    var min := Min(Min(r, g), b);
    var delta := max - min;
    if delta == 0.0 then Hsv(0.0, 0.0, max)
    else
      var h :=
        if max == r then
          var h := 60.0 * FMod((g - b) / delta, 6.0);
          if h < 0.0 then h + 360.0 else h
        else if max == g then 60.0 * ((b - r) / delta + 2.0)
        else if max == b then 60.0 * ((r - g) / delta + 4.0)
        else 0.0;
      Hsv(h, delta / max, max)
  }

  /** `rgb2hsv`. */
  function Rgb2Hsv(c: Rgb): Hsv
  {
    HsvOfUnits(Unit(c.r), Unit(c.g), Unit(c.b))
  }

  /**
   * The `match h` of `hsv2rgb`: by 60-degree sector, which channel gets the chroma `c`,
   * which the intermediate `x` and which zero.
   */
  function Sector(h: real, c: real, x: real): RgbReal
    requires 0.0 <= h < 360.0
  {
    if h < 60.0 then RgbReal(c, x, 0.0)
    else if h < 120.0 then RgbReal(x, c, 0.0)
    else if h < 180.0 then RgbReal(0.0, c, x)
    else if h < 240.0 then RgbReal(0.0, x, c)
    else if h < 300.0 then RgbReal(x, 0.0, c)
    else RgbReal(c, 0.0, x)
  }

  /** Every channel raised by the same amount. */
  function Shift(t: RgbReal, m: real): RgbReal
  {
    RgbReal(t.r + m, t.g + m, t.b + m)
  }

  /** The intermediate `x` of `hsv2rgb`: the chroma scaled by the distance of `h / 60` from an odd number. */
  function Intermediate(h: real, c: real): real
  {
    c * (1.0 - Abs(FMod(h / 60.0, 2.0) - 1.0))
  }

  /** The channels for hue `h`, chroma `c` and value `v`: the sector's triple raised by `v - c`. */
  function Place(h: real, c: real, v: real): RgbReal
    requires 0.0 <= h < 360.0
  {
    Shift(Sector(h, c, Intermediate(h, c)), v - c)
  }

  /** The red, green and blue of `hsv2rgb` before they are scaled by 255 and rounded. */
  function Hsv2RgbUnits(hsv: Hsv): RgbReal
    requires 0.0 <= hsv.h < 360.0
  {
    Place(hsv.h, hsv.v * hsv.s, hsv.v)
  }

  /** `hsv2rgb`. */
  function Hsv2Rgb(hsv: Hsv): Rgb
    requires 0.0 <= hsv.h < 360.0
  {
    var u := Hsv2RgbUnits(hsv);
    Rgb(RoundToByte(u.r * 255.0), RoundToByte(u.g * 255.0), RoundToByte(u.b * 255.0))
  }

  /**
   * The `% 6.0` in the red branch changes nothing: its dividend `(g - b) / delta`
   * lies in [-1, 1].
   */
  lemma RedRemainderIdentity(r: real, g: real, b: real)
    requires 0.0 <= g <= r && 0.0 <= b <= r && r > Min(g, b)
    ensures FMod((g - b) / (r - Min(g, b)), 6.0) == (g - b) / (r - Min(g, b))
  {
    UnitQuotient(g - b, r - Min(g, b));
    FModSmall((g - b) / (r - Min(g, b)), 6.0);
  }

  /** The saturation lies in [0, 1], the hue in [0, 360), and the value is the largest channel. */
  lemma HsvOfUnitsBounds(r: real, g: real, b: real)
    requires 0.0 <= r <= 1.0 && 0.0 <= g <= 1.0 && 0.0 <= b <= 1.0
    ensures var hsv := HsvOfUnits(r, g, b);
      && 0.0 <= hsv.h < 360.0 && 0.0 <= hsv.s <= 1.0 && hsv.v == Max(Max(r, g), b)
  {
    var max := Max(Max(r, g), b);
    var min := Min(Min(r, g), b);
    var delta := max - min;
    if delta != 0.0 {
      UnitQuotient(delta, max);
      if max == r {
        assert min == Min(g, b);
        UnitQuotient(g - b, delta);
        RedRemainderIdentity(r, g, b);
      } else if max == g {
        UnitQuotient(b - r, delta);
      } else {
        UnitQuotient(r - g, delta);
        assert r - g < delta && -delta < r - g;
      }
    }
  }

  /** `rgb2hsv` keeps saturation in [0, 1] and hue in [0, 360); the value is the largest channel over 255. */
  lemma Rgb2HsvBounds(c: Rgb)
    ensures var hsv := Rgb2Hsv(c);
      && 0.0 <= hsv.h < 360.0 && 0.0 <= hsv.s <= 1.0 && hsv.v == Max(Max(Unit(c.r), Unit(c.g)), Unit(c.b))
  {
    HsvOfUnitsBounds(Unit(c.r), Unit(c.g), Unit(c.b));
  }

  /** Grey input, and only grey input, has saturation 0; its hue is 0 and its value the common channel. */
  lemma Rgb2HsvGrey(c: Rgb)
    ensures Rgb2Hsv(c).s == 0.0 <==> c.r == c.g == c.b
    ensures c.r == c.g == c.b ==> Rgb2Hsv(c) == Hsv(0.0, 0.0, Unit(c.r))
  {
    var r, g, b := Unit(c.r), Unit(c.g), Unit(c.b);
    var max := Max(Max(r, g), b);
    var min := Min(Min(r, g), b);
    if max != min {
      UnitQuotient(max - min, max);
      assert (max - min) / max > 0.0 by {
        ScaledOrder((max - min) / max, 0.0, max);
      }
    }
  }

  /** The chroma `v * s` of an `rgb2hsv` result is the spread of the channels. */
  lemma Chroma(delta: real, max: real)
    requires 0.0 < delta <= max
    ensures max * (delta / max) == delta
  {
    UnitQuotient(delta, max);
  }

  /** The `rgb2hsv` triple when red is largest and green at least blue. */
  lemma RedHsv(r: real, g: real, b: real)
    requires 0.0 <= b <= g <= r <= 1.0 && b < r
    ensures HsvOfUnits(r, g, b) == Hsv(60.0 * ((g - b) / (r - b)), (r - b) / r, r)
  {
    assert Max(Max(r, g), b) == r && Min(Min(r, g), b) == b;
    RedRemainderIdentity(r, g, b);
    UnitQuotient(g - b, r - b);
  }

  /** Hues in [0, 60) give the chroma to red, `x` to green. */
  lemma Sector0At(h: real, s: real, v: real, c: real, x: real)
    requires 0.0 <= h < 60.0 && v * s == c && Intermediate(h, c) == x
    ensures Hsv2RgbUnits(Hsv(h, s, v)) == RgbReal(v, x + v - c, v - c)
  {
  }

  /** Hues in [60, 120) give `x` to red, the chroma to green. */
  lemma Sector1At(h: real, s: real, v: real, c: real, x: real)
    requires 60.0 <= h < 120.0 && v * s == c && Intermediate(h, c) == x
    ensures Hsv2RgbUnits(Hsv(h, s, v)) == RgbReal(x + v - c, v, v - c)
  {
  }

  /** Hues in [120, 180) give the chroma to green, `x` to blue. */
  lemma Sector2At(h: real, s: real, v: real, c: real, x: real)
    requires 120.0 <= h < 180.0 && v * s == c && Intermediate(h, c) == x
    ensures Hsv2RgbUnits(Hsv(h, s, v)) == RgbReal(v - c, v, x + v - c)
  {
  }

  /** Hues in [180, 240) give `x` to green, the chroma to blue. */
  lemma Sector3At(h: real, s: real, v: real, c: real, x: real)
    requires 180.0 <= h < 240.0 && v * s == c && Intermediate(h, c) == x
    ensures Hsv2RgbUnits(Hsv(h, s, v)) == RgbReal(v - c, x + v - c, v)
  {
  }

  /** Hues in [240, 300) give `x` to red, the chroma to blue. */
  lemma Sector4At(h: real, s: real, v: real, c: real, x: real)
    requires 240.0 <= h < 300.0 && v * s == c && Intermediate(h, c) == x
    ensures Hsv2RgbUnits(Hsv(h, s, v)) == RgbReal(x + v - c, v - c, v)
  {
  }

  /** Hues in [300, 360) give the chroma to red, `x` to blue. */
  lemma Sector5At(h: real, s: real, v: real, c: real, x: real)
    requires 300.0 <= h < 360.0 && v * s == c && Intermediate(h, c) == x
    ensures Hsv2RgbUnits(Hsv(h, s, v)) == RgbReal(v, v - c, x + v - c)
  {
  }

  /** `Intermediate` from the remainder of `h / 60` by 2. */
  lemma IntermediateIs(h: real, c: real, f: real, x: real)
    requires FMod(h / 60.0, 2.0) == f && c * (1.0 - Abs(f - 1.0)) == x
    ensures Intermediate(h, c) == x
  {
  }

  /** Red largest, blue smallest, green below red: sector 0. */
  lemma RedGreenUnits(r: real, g: real, b: real, q: real, s: real)
    requires 0.0 <= b <= g < r <= 1.0 && q * (r - b) == g - b && 0.0 <= q < 1.0 && r * s == r - b
    ensures Hsv2RgbUnits(Hsv(60.0 * q, s, r)) == RgbReal(r, g, b)
  {
    assert (60.0 * q) / 60.0 == q;
    FModSmall(q, 2.0);
    assert 1.0 - Abs(q - 1.0) == q;
    IntermediateIs(60.0 * q, r - b, q, g - b);
    Sector0At(60.0 * q, s, r, r - b, g - b);
  }

  /** Red and green equal and largest: hue 60, sector 1. */
  lemma RedIsGreenUnits(r: real, b: real, s: real)
    requires 0.0 <= b < r <= 1.0 && r * s == r - b
    ensures Hsv2RgbUnits(Hsv(60.0, s, r)) == RgbReal(r, r, b)
  {
    FModSmall(1.0, 2.0);
    IntermediateIs(60.0, r - b, 1.0, r - b);
    Sector1At(60.0, s, r, r - b, r - b);
  }

  /** The `hsv2rgb` channels of the `rgb2hsv` triple of `RedHsv`. */
  lemma RedUnits(r: real, g: real, b: real)
    requires 0.0 <= b <= g <= r <= 1.0 && b < r
    ensures 0.0 <= 60.0 * ((g - b) / (r - b)) < 360.0
    ensures Hsv2RgbUnits(Hsv(60.0 * ((g - b) / (r - b)), (r - b) / r, r)) == RgbReal(r, g, b)
  {
    var q := (g - b) / (r - b);
    UnitQuotient(g - b, r - b);
    Chroma(r - b, r);
    if g < r {
      RedGreenUnits(r, g, b, q, (r - b) / r);
    } else {
      SelfQuotient(r - b);
      RedIsGreenUnits(r, b, (r - b) / r);
    }
  }

  /** The `rgb2hsv` triple when red is largest and green below blue: the hue wraps past 300. */
  lemma RedBlueHsv(r: real, g: real, b: real)
    requires 0.0 <= g < b <= r <= 1.0
    ensures HsvOfUnits(r, g, b) == Hsv(60.0 * ((g - b) / (r - g)) + 360.0, (r - g) / r, r)
  {
    assert Max(Max(r, g), b) == r && Min(Min(r, g), b) == g;
    RedRemainderIdentity(r, g, b);
    UnitQuotient(g - b, r - g);
  }

  /** Red largest, green smallest, blue above green: sector 5. */
  lemma RedBlueSector(r: real, g: real, b: real, q: real, s: real)
    requires 0.0 <= g < b <= r <= 1.0 && q * (r - g) == g - b && -1.0 <= q < 0.0 && r * s == r - g
    ensures Hsv2RgbUnits(Hsv(60.0 * q + 360.0, s, r)) == RgbReal(r, g, b)
  {
    var h := 60.0 * q + 360.0;
    assert h / 60.0 == q + 6.0;
    FModMultiple(q + 6.0, 2.0, 2);
    assert 1.0 - Abs(q + 2.0 - 1.0) == -q;
    assert (r - g) * -q == b - g;
    IntermediateIs(h, r - g, q + 2.0, b - g);
    Sector5At(h, s, r, r - g, b - g);
  }

  /** The `hsv2rgb` channels of the `rgb2hsv` triple of `RedBlueHsv`. */
  lemma RedBlueUnits(r: real, g: real, b: real)
    requires 0.0 <= g < b <= r <= 1.0
    ensures 300.0 <= 60.0 * ((g - b) / (r - g)) + 360.0 < 360.0
    ensures Hsv2RgbUnits(Hsv(60.0 * ((g - b) / (r - g)) + 360.0, (r - g) / r, r)) == RgbReal(r, g, b)
  {
    UnitQuotient(g - b, r - g);
    Chroma(r - g, r);
    RedBlueSector(r, g, b, (g - b) / (r - g), (r - g) / r);
  }

  /** The `rgb2hsv` triple when green is largest and red is not. */
  lemma GreenHsv(r: real, g: real, b: real)
    requires 0.0 <= r < g <= 1.0 && 0.0 <= b <= g
    ensures HsvOfUnits(r, g, b) == Hsv(60.0 * ((b - r) / (g - Min(r, b)) + 2.0), (g - Min(r, b)) / g, g)
  {
    assert Max(Max(r, g), b) == g && Min(Min(r, g), b) == Min(r, b);
  }

  /** Green largest, blue smallest: sector 1. */
  lemma GreenBlueUnits(r: real, g: real, b: real, q: real, s: real)
    requires 0.0 <= b < r < g <= 1.0 && q * (g - b) == b - r && -1.0 < q < 0.0 && g * s == g - b
    ensures Hsv2RgbUnits(Hsv(60.0 * (q + 2.0), s, g)) == RgbReal(r, g, b)
  {
    var h := 60.0 * (q + 2.0);
    assert h / 60.0 == q + 2.0;
    FModSmall(q + 2.0, 2.0);
    assert 1.0 - Abs(q + 2.0 - 1.0) == -q;
    assert (g - b) * -q == r - b;
    IntermediateIs(h, g - b, q + 2.0, r - b);
    Sector1At(h, s, g, g - b, r - b);
  }

  /** Green largest, red smallest, blue below green: sector 2. */
  lemma GreenRedUnits(r: real, g: real, b: real, q: real, s: real)
    requires 0.0 <= r <= b < g <= 1.0 && q * (g - r) == b - r && 0.0 <= q < 1.0 && g * s == g - r
    ensures Hsv2RgbUnits(Hsv(60.0 * (q + 2.0), s, g)) == RgbReal(r, g, b)
  {
    var h := 60.0 * (q + 2.0);
    assert h / 60.0 == q + 2.0;
    FModMultiple(q + 2.0, 2.0, 1);
    assert 1.0 - Abs(q - 1.0) == q;
    assert (g - r) * q == b - r;
    IntermediateIs(h, g - r, q, b - r);
    Sector2At(h, s, g, g - r, b - r);
  }

  /** Green and blue equal and largest: hue 180, sector 3. */
  lemma GreenIsBlueUnits(r: real, g: real, s: real)
    requires 0.0 <= r < g <= 1.0 && g * s == g - r
    ensures Hsv2RgbUnits(Hsv(180.0, s, g)) == RgbReal(r, g, g)
  {
    assert 180.0 / 60.0 == 3.0;
    FModMultiple(3.0, 2.0, 1);
    IntermediateIs(180.0, g - r, 1.0, g - r);
    Sector3At(180.0, s, g, g - r, g - r);
  }

  /** The `hsv2rgb` channels of the `rgb2hsv` triple of `GreenHsv`. */
  lemma GreenUnits(r: real, g: real, b: real)
    requires 0.0 <= r < g <= 1.0 && 0.0 <= b <= g
    ensures 60.0 <= 60.0 * ((b - r) / (g - Min(r, b)) + 2.0) <= 180.0
    ensures Hsv2RgbUnits(Hsv(60.0 * ((b - r) / (g - Min(r, b)) + 2.0), (g - Min(r, b)) / g, g)) == RgbReal(r, g, b)
  {
    var m := Min(r, b);
    var q := (b - r) / (g - m);
    UnitQuotient(b - r, g - m);
    Chroma(g - m, g);
    if b < r {
      GreenBlueUnits(r, g, b, q, (g - m) / g);
    } else if b < g {
      GreenRedUnits(r, g, b, q, (g - m) / g);
    } else {
      SelfQuotient(g - r);
      GreenIsBlueUnits(r, g, (g - m) / g);
    }
  }

  /** The `rgb2hsv` triple when blue is largest and neither red nor green is. */
  lemma BlueHsv(r: real, g: real, b: real)
    requires 0.0 <= r < b <= 1.0 && 0.0 <= g < b
    ensures HsvOfUnits(r, g, b) == Hsv(60.0 * ((r - g) / (b - Min(r, g)) + 4.0), (b - Min(r, g)) / b, b)
  {
    assert Max(Max(r, g), b) == b && Min(Min(r, g), b) == Min(r, g);
  }

  /** Blue largest, red smallest: sector 3. */
  lemma BlueGreenUnits(r: real, g: real, b: real, q: real, s: real)
    requires 0.0 <= r < g < b <= 1.0 && q * (b - r) == r - g && -1.0 < q < 0.0 && b * s == b - r
    ensures Hsv2RgbUnits(Hsv(60.0 * (q + 4.0), s, b)) == RgbReal(r, g, b)
  {
    var h := 60.0 * (q + 4.0);
    assert h / 60.0 == q + 4.0;
    FModMultiple(q + 4.0, 2.0, 1);
    assert 1.0 - Abs(q + 2.0 - 1.0) == -q;
    assert (b - r) * -q == g - r;
    IntermediateIs(h, b - r, q + 2.0, g - r);
    Sector3At(h, s, b, b - r, g - r);
  }

  /** Blue largest, green smallest: sector 4. */
  lemma BlueRedUnits(r: real, g: real, b: real, q: real, s: real)
    requires 0.0 <= g <= r < b <= 1.0 && q * (b - g) == r - g && 0.0 <= q < 1.0 && b * s == b - g
    ensures Hsv2RgbUnits(Hsv(60.0 * (q + 4.0), s, b)) == RgbReal(r, g, b)
  {
    var h := 60.0 * (q + 4.0);
    assert h / 60.0 == q + 4.0;
    FModMultiple(q + 4.0, 2.0, 2);
    assert 1.0 - Abs(q - 1.0) == q;
    assert (b - g) * q == r - g;
    IntermediateIs(h, b - g, q, r - g);
    Sector4At(h, s, b, b - g, r - g);
  }

  /** The `hsv2rgb` channels of the `rgb2hsv` triple of `BlueHsv`. */
  lemma BlueUnits(r: real, g: real, b: real)
    requires 0.0 <= r < b <= 1.0 && 0.0 <= g < b
    ensures 180.0 < 60.0 * ((r - g) / (b - Min(r, g)) + 4.0) < 300.0
    ensures Hsv2RgbUnits(Hsv(60.0 * ((r - g) / (b - Min(r, g)) + 4.0), (b - Min(r, g)) / b, b)) == RgbReal(r, g, b)
  {
    var m := Min(r, g);
    var q := (r - g) / (b - m);
    UnitQuotient(r - g, b - m);
    Chroma(b - m, b);
    if r < g {
      BlueGreenUnits(r, g, b, q, (b - m) / b);
    } else {
      BlueRedUnits(r, g, b, q, (b - m) / b);
    }
  }

  /** Grey: hue and saturation 0, so the chroma and `x` vanish and every channel is the value. */
  lemma GreyUnits(v: real)
    requires 0.0 <= v <= 1.0
    ensures HsvOfUnits(v, v, v) == Hsv(0.0, 0.0, v)
    ensures Hsv2RgbUnits(Hsv(0.0, 0.0, v)) == RgbReal(v, v, v)
  {
    assert Max(Max(v, v), v) == v && Min(Min(v, v), v) == v;
    IntermediateIs(0.0, 0.0, FMod(0.0 / 60.0, 2.0), 0.0);
    Sector0At(0.0, 0.0, v, 0.0, 0.0);
  }

  /**
   * `hsv2rgb` undoes `rgb2hsv` exactly on the unit channels: every case of the hue
   * formula lands in the sector that puts each channel back.
   */
  lemma RoundTripUnits(r: real, g: real, b: real)
    requires 0.0 <= r <= 1.0 && 0.0 <= g <= 1.0 && 0.0 <= b <= 1.0
    ensures var hsv := HsvOfUnits(r, g, b);
      0.0 <= hsv.h < 360.0 && Hsv2RgbUnits(hsv) == RgbReal(r, g, b)
  {
    HsvOfUnitsBounds(r, g, b);
    if r == g == b {
      GreyUnits(r);
    } else if r >= g && r >= b {
      if g >= b {
        RedHsv(r, g, b);
        RedUnits(r, g, b);
      } else {
        RedBlueHsv(r, g, b);
        RedBlueUnits(r, g, b);
      }
    } else if g >= b {
      GreenHsv(r, g, b);
      GreenUnits(r, g, b);
    } else {
      BlueHsv(r, g, b);
      BlueUnits(r, g, b);
    }
  }

  /** `hsv2rgb(rgb2hsv(c))` gives back `c`: scaling each restored unit channel by 255 lands on its byte. */
  lemma Hsv2RgbOfRgb2Hsv(c: Rgb)
    ensures 0.0 <= Rgb2Hsv(c).h < 360.0 && Hsv2Rgb(Rgb2Hsv(c)) == c
  {
    RoundTripUnits(Unit(c.r), Unit(c.g), Unit(c.b));
    RoundIntegral(c.r);
    RoundIntegral(c.g);
    RoundIntegral(c.b);
  }
  /** Every channel lies in [v - c, v] when `x` lies in [0, c]. */
  predicate Between(u: RgbReal, v: real, c: real)
  {
    v - c <= u.r <= v && v - c <= u.g <= v && v - c <= u.b <= v
  }

  /** The sector triple raised by `v - c` stays in [v - c, v], whichever sector `h` is in. */
  lemma SectorBetween(h: real, s: real, v: real, c: real, x: real)
    requires 0.0 <= h < 360.0 && v * s == c && Intermediate(h, c) == x && 0.0 <= x <= c
    ensures Between(Hsv2RgbUnits(Hsv(h, s, v)), v, c)
  {
    if h < 60.0 {
      Sector0At(h, s, v, c, x);
    } else if h < 120.0 {
      Sector1At(h, s, v, c, x);
    } else if h < 180.0 {
      Sector2At(h, s, v, c, x);
    } else if h < 240.0 {
      Sector3At(h, s, v, c, x);
    } else if h < 300.0 {
      Sector4At(h, s, v, c, x);
    } else {
      Sector5At(h, s, v, c, x);
    }
  }

  /** For a hue and a chroma that are not negative, `x` lies between 0 and the chroma. */
  lemma IntermediateRange(h: real, c: real)
    requires 0.0 <= h && 0.0 <= c
    ensures 0.0 <= Intermediate(h, c) <= c
  {
    assert h / 60.0 >= 0.0;
    FModRange(h / 60.0, 2.0);
    var f := FMod(h / 60.0, 2.0);
    var k := 1.0 - Abs(f - 1.0);
    assert 0.0 <= k <= 1.0;
    ProductBounds(k, c);
    IntermediateIs(h, c, f, c * k);
  }

  /** With saturation and value in [0, 1], every unit channel of `hsv2rgb` lies between `v - c` and `v`, so in [0, 1]. */
  lemma Hsv2RgbUnitsRange(hsv: Hsv)
    requires 0.0 <= hsv.h < 360.0 && 0.0 <= hsv.s <= 1.0 && 0.0 <= hsv.v <= 1.0
    ensures Between(Hsv2RgbUnits(hsv), hsv.v, hsv.v * hsv.s)
    ensures var u := Hsv2RgbUnits(hsv);
      0.0 <= u.r <= 1.0 && 0.0 <= u.g <= 1.0 && 0.0 <= u.b <= 1.0
  {
    var c := hsv.v * hsv.s;
    ProductBounds(hsv.s, hsv.v);
    assert 0.0 <= c <= hsv.v;
    IntermediateRange(hsv.h, c);
    SectorBetween(hsv.h, hsv.s, hsv.v, c, Intermediate(hsv.h, c));
  }

  /** Saturation 0 gives grey: every channel is the value scaled by 255 and rounded, whatever the hue. */
  lemma Hsv2RgbGrey(h: real, v: real)
    requires 0.0 <= h < 360.0
    ensures Hsv2Rgb(Hsv(h, 0.0, v)) == Rgb(RoundToByte(v * 255.0), RoundToByte(v * 255.0), RoundToByte(v * 255.0))
  {
    assert Intermediate(h, 0.0) == 0.0;
    SectorBetween(h, 0.0, v, 0.0, 0.0);
    Bytes(Hsv(h, 0.0, v), RgbReal(v, v, v));
  }

  /** Red is hue 0, fully saturated, at full value. */
  lemma Rgb2HsvRed()
    ensures Rgb2Hsv(Rgb(255, 0, 0)) == Hsv(0.0, 1.0, 1.0)
  {
    Units(Rgb(255, 0, 0), 1.0, 0.0, 0.0);
    RedHsv(1.0, 0.0, 0.0);
  }

  /** Green is hue 120. */
  lemma Rgb2HsvGreen()
    ensures Rgb2Hsv(Rgb(0, 255, 0)) == Hsv(120.0, 1.0, 1.0)
  {
    Units(Rgb(0, 255, 0), 0.0, 1.0, 0.0);
    GreenHsv(0.0, 1.0, 0.0);
  }

  /** Blue is hue 240. */
  lemma Rgb2HsvBlue()
    ensures Rgb2Hsv(Rgb(0, 0, 255)) == Hsv(240.0, 1.0, 1.0)
  {
    Units(Rgb(0, 0, 255), 0.0, 0.0, 1.0);
    BlueHsv(0.0, 0.0, 1.0);
  }

  /** Yellow is hue 60. */
  lemma Rgb2HsvYellow()
    ensures Rgb2Hsv(Rgb(255, 255, 0)) == Hsv(60.0, 1.0, 1.0)
  {
    Units(Rgb(255, 255, 0), 1.0, 1.0, 0.0);
    RedHsv(1.0, 1.0, 0.0);
  }

  /** Cyan is hue 180. */
  lemma Rgb2HsvCyan()
    ensures Rgb2Hsv(Rgb(0, 255, 255)) == Hsv(180.0, 1.0, 1.0)
  {
    Units(Rgb(0, 255, 255), 0.0, 1.0, 1.0);
    GreenHsv(0.0, 1.0, 1.0);
  }

  /** Magenta is hue 300. */
  lemma Rgb2HsvMagenta()
    ensures Rgb2Hsv(Rgb(255, 0, 255)) == Hsv(300.0, 1.0, 1.0)
  {
    Units(Rgb(255, 0, 255), 1.0, 0.0, 1.0);
    RedBlueHsv(1.0, 0.0, 1.0);
  }

  /** White, black and the middle grey: hue and saturation 0, the value the channel over 255. */
  lemma Rgb2HsvGreys()
    ensures Rgb2Hsv(Rgb(255, 255, 255)) == Hsv(0.0, 0.0, 1.0)
    ensures Rgb2Hsv(Rgb(0, 0, 0)) == Hsv(0.0, 0.0, 0.0)
    ensures Rgb2Hsv(Rgb(128, 128, 128)) == Hsv(0.0, 0.0, 128.0 / 255.0)
  {
    Rgb2HsvGrey(Rgb(255, 255, 255));
    Rgb2HsvGrey(Rgb(0, 0, 0));
    Rgb2HsvGrey(Rgb(128, 128, 128));
  }

  /** Orange `(255, 127, 0)`: hue 60 * 127 / 255, just under 30, full saturation and value. */
  lemma Rgb2HsvOrange()
    ensures Rgb2Hsv(Rgb(255, 127, 0)) == Hsv(60.0 * (127.0 / 255.0), 1.0, 1.0)
    ensures 29.8 < 60.0 * (127.0 / 255.0) < 30.0
  {
    Units(Rgb(255, 127, 0), 1.0, 127.0 / 255.0, 0.0);
    RedHsv(1.0, 127.0 / 255.0, 0.0);
  }

  /** `hsv2rgb` once its unit channels are known. */
  lemma Bytes(hsv: Hsv, u: RgbReal)
    requires 0.0 <= hsv.h < 360.0 && Hsv2RgbUnits(hsv) == u
    ensures Hsv2Rgb(hsv) == Rgb(RoundToByte(u.r * 255.0), RoundToByte(u.g * 255.0), RoundToByte(u.b * 255.0))
  {
  }

  /** Full saturation and value at a hue `h` whose `x` is known. */
  lemma Hue(h: real, f: real, x: real)
    requires 0.0 <= h < 360.0 && FMod(h / 60.0, 2.0) == f && 1.0 - Abs(f - 1.0) == x
    ensures Hsv2RgbUnits(Hsv(h, 1.0, 1.0)) == Sector(h, 1.0, x)
  {
    IntermediateIs(h, 1.0, f, x);
  }

  /** Hue 0 at full saturation and value gives red. */
  lemma Hsv2RgbRed()
    ensures Hsv2Rgb(Hsv(0.0, 1.0, 1.0)) == Rgb(255, 0, 0)
  {
    RoundHalf();
    FModSmall(0.0, 2.0);
    Hue(0.0, 0.0, 0.0);
    Bytes(Hsv(0.0, 1.0, 1.0), RgbReal(1.0, 0.0, 0.0));
  }

  /** Hue 60 at full saturation and value gives yellow. */
  lemma Hsv2RgbYellow()
    ensures Hsv2Rgb(Hsv(60.0, 1.0, 1.0)) == Rgb(255, 255, 0)
  {
    RoundHalf();
    FModSmall(1.0, 2.0);
    Hue(60.0, 1.0, 1.0);
    Bytes(Hsv(60.0, 1.0, 1.0), RgbReal(1.0, 1.0, 0.0));
  }

  /** Hue 120 at full saturation and value gives green. */
  lemma Hsv2RgbGreen()
    ensures Hsv2Rgb(Hsv(120.0, 1.0, 1.0)) == Rgb(0, 255, 0)
  {
    RoundHalf();
    FModMultiple(2.0, 2.0, 1);
    Hue(120.0, 0.0, 0.0);
    Bytes(Hsv(120.0, 1.0, 1.0), RgbReal(0.0, 1.0, 0.0));
  }

  /** Hue 180 at full saturation and value gives cyan. */
  lemma Hsv2RgbCyan()
    ensures Hsv2Rgb(Hsv(180.0, 1.0, 1.0)) == Rgb(0, 255, 255)
  {
    RoundHalf();
    FModMultiple(3.0, 2.0, 1);
    Hue(180.0, 1.0, 1.0);
    Bytes(Hsv(180.0, 1.0, 1.0), RgbReal(0.0, 1.0, 1.0));
  }

  /** Hue 240 at full saturation and value gives blue. */
  lemma Hsv2RgbBlue()
    ensures Hsv2Rgb(Hsv(240.0, 1.0, 1.0)) == Rgb(0, 0, 255)
  {
    RoundHalf();
    FModMultiple(4.0, 2.0, 2);
    Hue(240.0, 0.0, 0.0);
    Bytes(Hsv(240.0, 1.0, 1.0), RgbReal(0.0, 0.0, 1.0));
  }

  /** Hue 300 at full saturation and value gives magenta. */
  lemma Hsv2RgbMagenta()
    ensures Hsv2Rgb(Hsv(300.0, 1.0, 1.0)) == Rgb(255, 0, 255)
  {
    RoundHalf();
    FModMultiple(5.0, 2.0, 2);
    Hue(300.0, 1.0, 1.0);
    Bytes(Hsv(300.0, 1.0, 1.0), RgbReal(1.0, 0.0, 1.0));
  }

  /** Hue 30 at full saturation and value gives `(255, 128, 0)`: green is 127.5, which rounds up. */
  lemma Hsv2RgbOrange()
    ensures Hsv2Rgb(Hsv(30.0, 1.0, 1.0)) == Rgb(255, 128, 0)
  {
    RoundHalf();
    FModSmall(0.5, 2.0);
    Hue(30.0, 0.5, 0.5);
    Bytes(Hsv(30.0, 1.0, 1.0), RgbReal(1.0, 0.5, 0.0));
  }

  /** Saturation 0 at value 1.0 gives white, at any hue. */
  lemma Hsv2RgbWhite(h: real)
    requires 0.0 <= h < 360.0
    ensures Hsv2Rgb(Hsv(h, 0.0, 1.0)) == Rgb(255, 255, 255)
  {
    RoundHalf();
    Hsv2RgbGrey(h, 1.0);
  }

  /** Saturation 0 at value 0.0 gives black, at any hue. */
  lemma Hsv2RgbBlack(h: real)
    requires 0.0 <= h < 360.0
    ensures Hsv2Rgb(Hsv(h, 0.0, 0.0)) == Rgb(0, 0, 0)
  {
    RoundHalf();
    Hsv2RgbGrey(h, 0.0);
  }

  /** Saturation 0 at value 0.5 gives `(128, 128, 128)`: 127.5 rounds up, at any hue. */
  lemma Hsv2RgbHalfGrey(h: real)
    requires 0.0 <= h < 360.0
    ensures Hsv2Rgb(Hsv(h, 0.0, 0.5)) == Rgb(128, 128, 128)
  {
    RoundHalf();
    Hsv2RgbGrey(h, 0.5);
  }
}
