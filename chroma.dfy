/**
 * `Chroma::_mix` and its four wrappers (chroma.rs): both colours are read in one mode,
 * the vectors are interpolated component by component, and the result is turned back
 * into a colour by the mode's constructor, which is not part of this model.
 */
module Chroma {
  import opened Wrappers
  import opened Primitives
  import opened Spaces
  import opened Mode
  import opened Colors

  /** The mode `_mix` uses when none is given. */
  const DefaultMode: string := "rgba"

  /** The ratio `_mix` uses when none is given. */
  const DefaultRatio: real := 0.5

  /** One interpolated component, as the loop body writes it. */
  function Lerp(a: real, b: real, t: real): real
  {
    a + (b - a) * t
  }

  /** Ratio 0 gives the first value, ratio 1 the second. */
  lemma LerpEnds(a: real, b: real)
    ensures Lerp(a, b, 0.0) == a && Lerp(a, b, 1.0) == b
  {
  }

  /** For a ratio in [0, 1] the interpolated value lies between the two values, in either order. */
  lemma LerpBetween(a: real, b: real, t: real)
    requires 0.0 <= t <= 1.0
    ensures Min(a, b) <= Lerp(a, b, t) <= Max(a, b)
  {
    var d := b - a;
    var p := d * t;
    assert Lerp(a, b, t) == a + p;
    if a <= b {
      ProductBounds(t, d);
      assert t * d == p;
    } else {
      var e := a - b;
      ProductBounds(t, e);
      assert t * e == -p;
    }
  }

  /** Both mixes are the same whichever colour comes first, with the ratio turned round. */
  lemma LerpSwap(a: real, b: real, t: real)
    ensures Lerp(a, b, t) == Lerp(b, a, 1.0 - t)
  {
    assert (a - b) * (1.0 - t) == (a - b) - (a - b) * t;
    assert (b - a) * t == -((a - b) * t);
  }

  /** The vector `_mix` builds: component `i` of `v1` interpolated towards component `i` of `v2`. */
  function MixedVector(v1: seq<real>, v2: seq<real>, ratio: real): (v3: seq<real>)
    requires |v2| >= |v1|
    ensures |v3| == |v1|
  {
    seq(|v1|, i requires 0 <= i < |v1| => Lerp(v1[i], v2[i], ratio))
  }

  /** Ratio 0 gives back the first vector, and ratio 1 the second, cut to the first's length. */
  lemma MixedEnds(v1: seq<real>, v2: seq<real>)
    requires |v2| >= |v1|
    ensures MixedVector(v1, v2, 0.0) == v1
    ensures MixedVector(v1, v2, 1.0) == v2[..|v1|]
  {
    forall i | 0 <= i < |v1|
      ensures MixedVector(v1, v2, 0.0)[i] == v1[i] && MixedVector(v1, v2, 1.0)[i] == v2[i]
    {
      LerpEnds(v1[i], v2[i]);
    }
  }

  /** For a ratio in [0, 1], each component lies between the two it comes from. */
  lemma MixedBetween(v1: seq<real>, v2: seq<real>, ratio: real)
    requires |v2| >= |v1| && 0.0 <= ratio <= 1.0
    ensures forall i | 0 <= i < |v1| :: Min(v1[i], v2[i]) <= MixedVector(v1, v2, ratio)[i] <= Max(v1[i], v2[i])
  {
    forall i | 0 <= i < |v1|
      ensures Min(v1[i], v2[i]) <= MixedVector(v1, v2, ratio)[i] <= Max(v1[i], v2[i])
    {
      LerpBetween(v1[i], v2[i], ratio);
    }
  }

  /** Mixing the other way round with the complementary ratio gives the same vector. */
  lemma MixedSwap(v1: seq<real>, v2: seq<real>, ratio: real)
    requires |v1| == |v2|
    ensures MixedVector(v1, v2, ratio) == MixedVector(v2, v1, 1.0 - ratio)
  {
    forall i | 0 <= i < |v1|
      ensures MixedVector(v1, v2, ratio)[i] == MixedVector(v2, v1, 1.0 - ratio)[i]
    {
      LerpSwap(v1[i], v2[i], ratio);
    }
  }

  /**
   * The loop of `_mix`: one output component per component of `v1`, pushed in order. The
   * source indexes `v2` at the same positions, so `v2` must be at least as long.
   */
  method MixVectors(v1: seq<real>, v2: seq<real>, ratio: real) returns (v3: seq<real>)
    requires |v2| >= |v1|
    ensures v3 == MixedVector(v1, v2, ratio)
  {
    v3 := [];
    for i := 0 to |v1|
      invariant |v3| == i
      invariant forall j | 0 <= j < i :: v3[j] == Lerp(v1[j], v2[j], ratio)
    {
      v3 := v3 + [v1[i] + (v2[i] - v1[i]) * ratio];
    }
  }

  /** The mode `_mix` reads the colours in. */
  function MixMode(mode: Option<string>): string
  {
    if mode.Some? then mode.value else DefaultMode
  }

  /** The ratio `_mix` mixes at. */
  function MixRatio(ratio: Option<real>): real
  {
    if ratio.Some? then ratio.value else DefaultRatio
  }

  /**
   * `_mix`: the two colours read in `mode` (by default `rgba`), mixed at `ratio` (by
   * default 0.5), then rebuilt as the new colour `mixed`. The two vectors have the same
   * length because the mode alone decides it.
   */
  method Mix(k: Kernels, color1: Color, color2: Color, mode: Option<string>, ratio: Option<real>) returns (mixed: Color)
    requires IsModeName(MixMode(mode))
    ensures fresh(mixed)
    ensures mixed.rgba == k.fromVector(MixedVector(ModeVector(k, color1.rgba, MixMode(mode)),
                                                   ModeVector(k, color2.rgba, MixMode(mode)), MixRatio(ratio)), MixMode(mode))
  {
    var m := MixMode(mode);
    var t := MixRatio(ratio);
    var v1 := ModeVector(k, color1.rgba, m);
    var v2 := ModeVector(k, color2.rgba, m);
    ModeLengthOnlyName(k, color1.rgba, color2.rgba, m);
    var v3 := MixVectors(v1, v2, t);
    var c := k.fromVector(v3, m);
    mixed := new Color(c.r, c.g, c.b, c.alpha);
  }

  /** `Chroma::mix`: the default mode and ratio. */
  method MixDefaults(k: Kernels, color1: Color, color2: Color) returns (mixed: Color)
    ensures fresh(mixed)
    ensures mixed.rgba == k.fromVector(MixedVector(ModeVector(k, color1.rgba, "rgba"), ModeVector(k, color2.rgba, "rgba"), 0.5), "rgba")
  {
    mixed := Mix(k, color1, color2, None, None);
  }

  /** `Chroma::mix_mode`: the given mode, the default ratio. */
  method MixInMode(k: Kernels, color1: Color, color2: Color, mode: string) returns (mixed: Color)
    requires IsModeName(mode)
    ensures fresh(mixed)
    ensures mixed.rgba == k.fromVector(MixedVector(ModeVector(k, color1.rgba, mode), ModeVector(k, color2.rgba, mode), 0.5), mode)
  {
    mixed := Mix(k, color1, color2, Some(mode), None);
  }

  /** `Chroma::mix_ratio`: the default mode, the given ratio. */
  method MixAtRatio(k: Kernels, color1: Color, color2: Color, ratio: real) returns (mixed: Color)
    ensures fresh(mixed)
    ensures mixed.rgba == k.fromVector(MixedVector(ModeVector(k, color1.rgba, "rgba"), ModeVector(k, color2.rgba, "rgba"), ratio), "rgba")
  {
    mixed := Mix(k, color1, color2, None, Some(ratio));
  }

  /** `Chroma::mix_mode_and_ratio`: both given. */
  method MixInModeAtRatio(k: Kernels, color1: Color, color2: Color, mode: string, ratio: real) returns (mixed: Color)
    requires IsModeName(mode)
    ensures fresh(mixed)
    ensures mixed.rgba == k.fromVector(MixedVector(ModeVector(k, color1.rgba, mode), ModeVector(k, color2.rgba, mode), ratio), mode)
  {
    mixed := Mix(k, color1, color2, Some(mode), Some(ratio));
  }

  /** In the default mode, opaque red and blue mixed at the default ratio give the vector (127.5, 0, 127.5, 1) to rebuild. */
  method MixRedBlue() returns (v3: seq<real>)
    ensures v3 == [127.5, 0.0, 127.5, 1.0]
  {
    var dummy := Kernels(_ => Lab(0.0, 0.0, 0.0), _ => Rgba(0, 0, 0, 0.0), _ => Cmyk(0.0, 0.0, 0.0, 0.0),
                         (_, _) => Rgba(0, 0, 0, 0.0), x => x);
    var red := ModeVector(dummy, Rgba(255, 0, 0, 1.0), DefaultMode);
    var blue := ModeVector(dummy, Rgba(0, 0, 255, 1.0), DefaultMode);
    v3 := MixVectors(red, blue, DefaultRatio);
  }
}
