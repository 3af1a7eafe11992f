/**
 * `rgb2hsl` and `hsl2rgb` over exact reals. The hue is in degrees, saturation and
 * lightness in [0, 1]. `hsl2rgb` fills its two three-element vectors `t3` and `c` in a
 * loop; here they are sequences the loop updates one index at a time.
 */
module HslConversion {
  import opened Primitives

  /** `rgb2hsl` on the three channels already scaled to [0, 1]. */
  function HslOfUnits(r: real, g: real, b: real): Hsl
    requires 0.0 <= r <= 1.0 && 0.0 <= g <= 1.0 && 0.0 <= b <= 1.0
  {
    var max := Max(Max(r, g), b);
    var min := Min(Min(r, g), b);
    var l := (max + min) / 2.0;
    var delta := max - min;
    if delta == 0.0 then Hsl(0.0, 0.0, l)
    else
      var s := if l > 0.0 && l <= 0.5 then delta / (max + min) else delta / (2.0 - max - min);
      var h :=
        if max == r then
          if g >= b then 60.0 * ((g - b) / delta) else 60.0 * ((g - b) / delta) + 360.0
        else if max == g then 60.0 * ((b - r) / delta) + 120.0
        else if max == b then 60.0 * ((r - g) / delta) + 240.0
        else 0.0;
      Hsl(h, s, l)
  }

  /** `rgb2hsl`. */
  function Rgb2Hsl(c: Rgb): Hsl
  {
    HslOfUnits(Unit(c.r), Unit(c.g), Unit(c.b))
  }

  /** The lightness is the mean of the largest and smallest channel, and it and the saturation lie in [0, 1]; the hue lies in [0, 360). */
  lemma HslOfUnitsBounds(r: real, g: real, b: real)
    requires 0.0 <= r <= 1.0 && 0.0 <= g <= 1.0 && 0.0 <= b <= 1.0
    ensures var hsl := HslOfUnits(r, g, b);
      && hsl.l == (Max(Max(r, g), b) + Min(Min(r, g), b)) / 2.0
      && 0.0 <= hsl.l <= 1.0 && 0.0 <= hsl.s <= 1.0 && 0.0 <= hsl.h < 360.0
  {
    var max := Max(Max(r, g), b);
    var min := Min(Min(r, g), b);
    var delta := max - min;
    if delta != 0.0 {
      SaturationBounds(max, min);
      if max == r {
        UnitQuotient(g - b, delta);
      } else if max == g {
        UnitQuotient(b - r, delta);
      } else {
        UnitQuotient(r - g, delta);
        assert r - g < delta && -delta < r - g;
      }
    }
  }

  /** Both saturation formulas give a value in (0, 1] when the channels are spread. */
  lemma SaturationBounds(max: real, min: real)
    requires 0.0 <= min < max <= 1.0
    ensures 0.0 < (max - min) / (max + min) <= 1.0
    ensures max + min < 2.0 && 0.0 < (max - min) / (2.0 - max - min) <= 1.0
  {
    UnitQuotient(max - min, max + min);
    ScaledOrder((max - min) / (max + min), 0.0, max + min);
    UnitQuotient(max - min, 2.0 - max - min);
    ScaledOrder((max - min) / (2.0 - max - min), 0.0, 2.0 - max - min);
  }

  /** `rgb2hsl` keeps the three components in range. */
  lemma Rgb2HslBounds(c: Rgb)
    ensures var hsl := Rgb2Hsl(c);
      && 0.0 <= hsl.h < 360.0 && 0.0 <= hsl.s <= 1.0 && 0.0 <= hsl.l <= 1.0
      && hsl.l == (Max(Max(Unit(c.r), Unit(c.g)), Unit(c.b)) + Min(Min(Unit(c.r), Unit(c.g)), Unit(c.b))) / 2.0
  {
    HslOfUnitsBounds(Unit(c.r), Unit(c.g), Unit(c.b));
  }

  /** Grey input, and only grey input, has saturation 0; its hue is 0 and its lightness the common channel. */
  lemma Rgb2HslGrey(c: Rgb)
    ensures Rgb2Hsl(c).s == 0.0 <==> c.r == c.g == c.b
    ensures c.r == c.g == c.b ==> Rgb2Hsl(c) == Hsl(0.0, 0.0, Unit(c.r))
  {
    var r, g, b := Unit(c.r), Unit(c.g), Unit(c.b);
    var max := Max(Max(r, g), b);
    var min := Min(Min(r, g), b);
    if max != min {
      SaturationBounds(max, min);
    }
  }

  /** `t2` of `hsl2rgb`. */
  function Temp2(s: real, l: real): real
  {
    if l < 0.5 then l * (1.0 + s) else l + s - l * s
  }

  /** The wrap step of the loop: one is added below 0 and taken away above 1. */
  function Wrap(t: real): real
  {
    if t < 0.0 then t + 1.0 else if t > 1.0 then t - 1.0 else t
  }

  /** The four-way choice the loop makes for one channel from its wrapped `t3` entry. */
  function Piece(t: real, t1: real, t2: real): real
  {
    if 6.0 * t < 1.0 then t1 + (t2 - t1) * 6.0 * t
    else if 2.0 * t < 1.0 then t2
    else if 3.0 * t < 2.0 then t1 + (t2 - t1) * (2.0 / 3.0 - t) * 6.0
    else t1
  }

  /** What the hue, already divided by 360, is shifted by for red, green and blue. */
  const Offsets: seq<real> := [1.0 / 3.0, 0.0, -1.0 / 3.0]

  /** One channel of `hsl2rgb` before it is scaled by 255 and rounded. */
  function Channel(h: real, t1: real, t2: real, offset: real): real
  {
    Piece(Wrap(h + offset), t1, t2)
  }

  /** `hsl2rgb`, as the value its loop computes. */
  function Hsl2RgbOf(hsl: Hsl): Rgb
  {
    if hsl.s == 0.0 then
      var v := RoundToByte(hsl.l * 255.0);
      Rgb(v, v, v)
    else
      var t2 := Temp2(hsl.s, hsl.l);
      var t1 := 2.0 * hsl.l - t2;
      var h := hsl.h / 360.0;
      Rgb(RoundToByte(Channel(h, t1, t2, Offsets[0]) * 255.0),
          RoundToByte(Channel(h, t1, t2, Offsets[1]) * 255.0),
          RoundToByte(Channel(h, t1, t2, Offsets[2]) * 255.0))
  }

  /**
   * The loop of `hsl2rgb`: `t3` starts as the hue shifted by each offset, and each
   * pass wraps one entry and picks its channel into `c`.
   */
  method Channels(h: real, t1: real, t2: real) returns (c: seq<real>)
    ensures |c| == 3 && forall k | 0 <= k < 3 :: c[k] == Channel(h, t1, t2, Offsets[k])
  {
    var t3 := [h + 1.0 / 3.0, h, h - 1.0 / 3.0];
    c := [0.0, 0.0, 0.0];
    for i := 0 to 3
      invariant |t3| == 3 && |c| == 3
      invariant forall j | 0 <= j < i :: t3[j] == Wrap(h + Offsets[j]) && c[j] == Piece(t3[j], t1, t2)
      invariant forall j | i <= j < 3 :: t3[j] == h + Offsets[j]
    {
      if t3[i] < 0.0 {
        t3 := t3[i := t3[i] + 1.0];
      } else if t3[i] > 1.0 {
        t3 := t3[i := t3[i] - 1.0];
      }
      if 6.0 * t3[i] < 1.0 {
        c := c[i := t1 + (t2 - t1) * 6.0 * t3[i]];
      } else if 2.0 * t3[i] < 1.0 {
        c := c[i := t2];
      } else if 3.0 * t3[i] < 2.0 {
        c := c[i := t1 + (t2 - t1) * (2.0 / 3.0 - t3[i]) * 6.0];
      } else {
        c := c[i := t1];
      }
    }
  }

  /** `hsl2rgb`: the grey shortcut, then `t1` and `t2`, the channel loop, and the rounding. */
  method Hsl2Rgb(hsl: Hsl) returns (rgb: Rgb)
    ensures rgb == Hsl2RgbOf(hsl)
  {
    if hsl.s == 0.0 {
      var v := RoundToByte(hsl.l * 255.0);
      return Rgb(v, v, v);
    }
    var t2 := if hsl.l < 0.5 then hsl.l * (1.0 + hsl.s) else hsl.l + hsl.s - hsl.l * hsl.s;
    var t1 := 2.0 * hsl.l - t2;
    var h := hsl.h / 360.0;
    var c := Channels(h, t1, t2);
    assert t2 == Temp2(hsl.s, hsl.l);
    assert c[0] == Channel(h, t1, t2, Offsets[0]) && c[1] == Channel(h, t1, t2, Offsets[1]);
    assert c[2] == Channel(h, t1, t2, Offsets[2]);
    rgb := Rgb(RoundToByte(c[0] * 255.0), RoundToByte(c[1] * 255.0), RoundToByte(c[2] * 255.0));
  }

  /** For a hue in [0, 360), every shifted `t3` entry lands in [0, 1] after the wrap step. */
  lemma WrapRange(hue: real)
    requires 0.0 <= hue < 360.0
    ensures forall k | 0 <= k < 3 :: 0.0 <= Wrap(hue / 360.0 + Offsets[k]) <= 1.0
  {
  }

  /** For saturation and lightness in [0, 1], `0 <= t1 <= t2 <= 1`. */
  lemma TempBounds(s: real, l: real)
    requires 0.0 <= s <= 1.0 && 0.0 <= l <= 1.0
    ensures 0.0 <= 2.0 * l - Temp2(s, l) <= Temp2(s, l) <= 1.0
  {
    if l < 0.5 {
      ProductBounds(s, l);
      var p := s * l;
      assert Temp2(s, l) == l + p;
      assert 2.0 * l - Temp2(s, l) == l - p;
    } else {
      ProductBounds(s, 1.0 - l);
      var p := s * (1.0 - l);
      assert p <= 1.0 - l;
      assert Temp2(s, l) == l + p;
      assert 2.0 * l - Temp2(s, l) == l - p;
    }
  }

  /** The rising edge of a channel, for `6 t < 1`, climbs from `t1` towards `t2`. */
  lemma Rising(t: real, t1: real, t2: real)
    requires 0.0 <= t && 6.0 * t < 1.0 && t1 <= t2
    ensures t1 <= t1 + (t2 - t1) * 6.0 * t <= t2
  {
    var d := t2 - t1;
    var u := 6.0 * t;
    ProductBounds(u, d);
    assert 0.0 <= u * d <= d;
    assert (t2 - t1) * 6.0 * t == u * d;
  }

  /** The falling edge, for `1/2 <= t < 2/3`, descends from `t2` towards `t1`. */
  lemma Falling(t: real, t1: real, t2: real)
    requires 1.0 <= 2.0 * t && 3.0 * t < 2.0 && t1 <= t2
    ensures t1 <= t1 + (t2 - t1) * (2.0 / 3.0 - t) * 6.0 <= t2
  {
    var d := t2 - t1;
    var u := 2.0 / 3.0 - t;
    var x := d * u;
    if d > 0.0 {
      ScaledOrder(0.0, u, d);
      ScaledOrder(u, 1.0 / 6.0, d);
      assert 0.0 <= x <= d / 6.0;
    } else {
      assert x == 0.0;
    }
    assert (t2 - t1) * (2.0 / 3.0 - t) * 6.0 == x * 6.0;
  }

  /** Every branch of the channel choice lies between `t1` and `t2` once `t` is in [0, 1]. */
  lemma PieceBetween(t: real, t1: real, t2: real)
    requires 0.0 <= t <= 1.0 && t1 <= t2
    ensures t1 <= Piece(t, t1, t2) <= t2
  {
    if 6.0 * t < 1.0 {
      Rising(t, t1, t2);
    } else if 3.0 * t < 2.0 && 1.0 <= 2.0 * t {
      Falling(t, t1, t2);
    }
  }

  /**
   * For a hue in [0, 360) and saturation and lightness in [0, 1], each channel lies
   * between `t1` and `t2`, inside [0, 1]: scaled by 255 it never needs the `as u8`
   * saturation.
   */
  lemma ChannelsInRange(hsl: Hsl)
    requires 0.0 <= hsl.h < 360.0 && 0.0 <= hsl.s <= 1.0 && 0.0 <= hsl.l <= 1.0
    ensures var t2 := Temp2(hsl.s, hsl.l);
      forall k | 0 <= k < 3 ::
        0.0 <= 2.0 * hsl.l - t2 <= Channel(hsl.h / 360.0, 2.0 * hsl.l - t2, t2, Offsets[k]) <= t2 <= 1.0
  {
    var t2 := Temp2(hsl.s, hsl.l);
    TempBounds(hsl.s, hsl.l);
    WrapRange(hsl.h);
    forall k | 0 <= k < 3
      ensures 2.0 * hsl.l - t2 <= Channel(hsl.h / 360.0, 2.0 * hsl.l - t2, t2, Offsets[k]) <= t2
    {
      PieceBetween(Wrap(hsl.h / 360.0 + Offsets[k]), 2.0 * hsl.l - t2, t2);
    }
  }

  /** Saturation 0 gives grey `round(l * 255)` on every channel, whatever the hue. */
  lemma Hsl2RgbGrey(h: real, l: real)
    ensures Hsl2RgbOf(Hsl(h, 0.0, l)).r == Hsl2RgbOf(Hsl(h, 0.0, l)).g == Hsl2RgbOf(Hsl(h, 0.0, l)).b
    ensures Hsl2RgbOf(Hsl(h, 0.0, l)).r == RoundToByte(l * 255.0)
  {
  }

  /** `(65, 164, 221)`: blue largest, red smallest, lightness 143/255 above one half; about (201.9, 0.70, 0.56). */
  lemma Rgb2HslSkyBlue()
    ensures Rgb2Hsl(Rgb(65, 164, 221)) == Hsl(240.0 - 60.0 * (99.0 / 156.0), 156.0 / 224.0, 143.0 / 255.0)
    ensures 201.9 < 240.0 - 60.0 * (99.0 / 156.0) < 202.0 && 0.69 < 156.0 / 224.0 < 0.70 && 0.56 < 143.0 / 255.0 < 0.57
  {
    Units(Rgb(65, 164, 221), 65.0 / 255.0, 164.0 / 255.0, 221.0 / 255.0);
  }

  /** `(0, 128, 0)`: hue 120, saturation 1, lightness 64/255, just above one quarter. */
  lemma Rgb2HslGreen()
    ensures Rgb2Hsl(Rgb(0, 128, 0)) == Hsl(120.0, 1.0, 64.0 / 255.0)
  {
    Units(Rgb(0, 128, 0), 0.0, 128.0 / 255.0, 0.0);
  }

  /** White is `(0, 0, 1)`. */
  lemma Rgb2HslWhite()
    ensures Rgb2Hsl(Rgb(255, 255, 255)) == Hsl(0.0, 0.0, 1.0)
  {
    Rgb2HslGrey(Rgb(255, 255, 255));
  }

  /** `(202, 0.70, 0.56)`: `t2` is 0.868 and `t1` 0.252; the channels 0.252, 0.6421.. and 0.868 round to `(64, 164, 221)`. */
  lemma Hsl2RgbSkyBlue(hsl: Hsl)
    requires hsl == Hsl(202.0, 0.70, 0.56)
    ensures Hsl2RgbOf(hsl) == Rgb(64, 164, 221)
  {
    var h := 202.0 / 360.0;
    assert Temp2(0.70, 0.56) == 0.868;
    assert Channel(h, 0.252, 0.868, Offsets[0]) == 0.252;
    assert Channel(h, 0.252, 0.868, Offsets[1]) == 0.252 + 0.616 * (2.0 / 3.0 - h) * 6.0;
    assert Channel(h, 0.252, 0.868, Offsets[2]) == 0.868;
  }

  /** `(0, 0, 0)` is black. */
  lemma Hsl2RgbBlack(hsl: Hsl)
    requires hsl == Hsl(0.0, 0.0, 0.0)
    ensures Hsl2RgbOf(hsl) == Rgb(0, 0, 0)
  {
  }
}
