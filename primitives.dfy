/**
 * Rust primitives that the colour kernels rely on, restated over Dafny's unbounded
 * integers and exact reals: the `u8` type, `f64::round`, the saturating `as u8` cast,
 * `f64::max`/`f64::min` and the truncating `%` on `f64`.
 */
module Primitives {

  /** Rust's `u8`. */
  type Byte = x: int | 0 <= x < 256

  /** The `(u8, u8, u8)` triple used by every kernel. */
  datatype Rgb = Rgb(r: Byte, g: Byte, b: Byte)

  /** The `(u8, u8, u8, f64)` value a `Color` stores. */
  datatype Rgba = Rgba(r: Byte, g: Byte, b: Byte, alpha: real)

  /** Red, green and blue as `f64`s before they are rounded to bytes. */
  datatype RgbReal = RgbReal(r: real, g: real, b: real)

  /** The `(f64, f64, f64)` hue, saturation, lightness triple. */
  datatype Hsl = Hsl(h: real, s: real, l: real)

  /** The `(f64, f64, f64)` hue, saturation, value triple. */
  datatype Hsv = Hsv(h: real, s: real, v: real)

  /** The `(f64, f64, f64)` CIE Lab triple. */
  datatype Lab = Lab(l: real, a: real, b: real)

  /** The `(f64, f64, f64, f64)` cyan, magenta, yellow, key quadruple. */
  datatype Cmyk = Cmyk(c: real, m: real, y: real, k: real)

  /** `f64::round`: the nearest integer, halfway cases rounded away from zero. */
  function Round(x: real): (n: int)
    ensures x - 0.5 <= n as real <= x + 0.5
    ensures n as real - x == 0.5 ==> x >= 0.0
    ensures x - n as real == 0.5 ==> x < 0.0
  {
    if x >= 0.0 then (x + 0.5).Floor else -((0.5 - x).Floor)
  }

  /** `Round` of an integral value is that value. */
  lemma RoundIntegral(n: int)
    ensures Round(n as real) == n
  {
  }

  /** Rust's `as u8` applied to an integral `f64`: it saturates at both ends. */
  function SaturateToByte(n: int): (b: Byte)
    ensures 0 <= n < 256 ==> b == n
    ensures n < 0 ==> b == 0
    ensures n > 255 ==> b == 255
  {
    if n < 0 then 0 else if n > 255 then 255 else n
  }

  /** `x.round() as u8`, the conversion every kernel applies to a channel. */
  function RoundToByte(x: real): (b: Byte)
    ensures 0.0 <= x <= 255.0 ==> b == Round(x)
    ensures x <= 0.0 ==> b == 0
    ensures x >= 255.0 ==> b == 255
  {
    SaturateToByte(Round(x))
  }

  /** The channel values the worked examples need: the ends of the range, and 127.5 rounding up. */
  lemma RoundHalf()
    ensures RoundToByte(0.0) == 0 && RoundToByte(255.0) == 255 && RoundToByte(127.5) == 128
  {
  }

  /** `f64::max`, the larger of two values. */
  function Max(a: real, b: real): (m: real)
    ensures m >= a && m >= b && (m == a || m == b)
  {
    if a >= b then a else b
  }

  /** `f64::min`, the smaller of two values. */
  function Min(a: real, b: real): (m: real)
    ensures m <= a && m <= b && (m == a || m == b)
  {
    if a <= b then a else b
  }

  /** Truncation toward zero, as Rust's float-to-integer semantics use it. */
  function Trunc(x: real): (n: int)
    ensures x >= 0.0 ==> 0.0 <= n as real <= x < n as real + 1.0
    ensures x < 0.0 ==> n as real - 1.0 < x <= n as real <= 0.0
  {
    if x >= 0.0 then x.Floor else -((-x).Floor)
  }

  /**
   * Rust's `%` on `f64` (C's `fmod`): the remainder of a division truncated toward
   * zero, so it has the sign of the dividend. Not Dafny's Euclidean remainder.
   */
  function FMod(x: real, y: real): (r: real)
    requires y != 0.0
  {
    x - y * (Trunc(x / y) as real)
  }

  /** The remainder is the dividend itself when the dividend is smaller than the divisor. */
  lemma FModSmall(x: real, y: real)
    requires y > 0.0 && -y < x < y
    ensures FMod(x, y) == x
  {
    assert -1.0 < x / y < 1.0;
    assert Trunc(x / y) == 0;
  }

  /** A non-zero real divided by itself is 1. */
  lemma SelfQuotient(d: real)
    requires d > 0.0
    ensures d / d == 1.0
  {
  }

  /** Multiplying by a positive number keeps a negative number negative and a number from one up at least the multiplier. */
  lemma ScaledBounds(q: real, y: real)
    requires y > 0.0
    ensures q < 0.0 ==> q * y < 0.0
    ensures q >= 1.0 ==> q * y >= y
  {
    assert q * y - y == (q - 1.0) * y;
  }

  lemma QuotientBelowOne(d: real, y: real)
    requires y > 0.0 && 0.0 <= d < y
    ensures 0.0 <= d / y < 1.0
  {
    var q := d / y;
    assert q * y == d;
    ScaledBounds(q, y);
    assert !(q >= 1.0);
    assert !(q < 0.0);
  }

  /** For a non-negative dividend the remainder is the dividend less the whole multiples of the divisor. */
  lemma FModMultiple(x: real, y: real, k: nat)
    requires y > 0.0 && 0.0 <= x - (k as real) * y < y
    ensures FMod(x, y) == x - (k as real) * y
  {
    var d := x - (k as real) * y;
    assert x / y == (k as real) + d / y;
    QuotientBelowOne(d, y);
    assert Trunc(x / y) == k;
  }

  /** A byte as a fraction of 255, the `c as f64 / 255.` every kernel starts with. */
  function Unit(b: Byte): (x: real)
    ensures 0.0 <= x <= 1.0
    ensures x * 255.0 == b as real
  {
    b as real / 255.0
  }

  /** The unit value of each byte, from its product with 255. */
  lemma Units(c: Rgb, r: real, g: real, b: real)
    requires r * 255.0 == c.r as real && g * 255.0 == c.g as real && b * 255.0 == c.b as real
    ensures Unit(c.r) == r && Unit(c.g) == g && Unit(c.b) == b
  {
  }

  /** `f64::abs`. */
  function Abs(x: real): (a: real)
    ensures a >= 0.0 && (a == x || a == -x)
  {
    if x < 0.0 then -x else x
  }

  /** Multiplying by a positive number keeps the order of two numbers. */
  lemma ScaledOrder(p: real, q: real, y: real)
    requires y > 0.0
    ensures p < q ==> p * y < q * y
    ensures p <= q ==> p * y <= q * y
  {
    assert q * y - p * y == (q - p) * y;
  }

  /** A numerator bounded by a positive denominator gives a quotient in [-1, 1], with the numerator's sign. */
  lemma UnitQuotient(a: real, d: real)
    requires d > 0.0 && -d <= a <= d
    ensures -1.0 <= a / d <= 1.0
    ensures 0.0 <= a ==> 0.0 <= a / d
    ensures a < 0.0 ==> a / d < 0.0
    ensures a < d ==> a / d < 1.0
    ensures -d < a ==> -1.0 < a / d
    ensures (a / d) * d == a
  {
    var q := a / d;
    assert q * d == a;
    assert 1.0 * d == d && -1.0 * d == -d && 0.0 * d == 0.0;
    ScaledOrder(1.0, q, d);
    assert !(q > 1.0);
    ScaledOrder(q, -1.0, d);
    assert !(q < -1.0);
    ScaledOrder(q, 0.0, d);
    assert 0.0 <= a ==> !(q < 0.0);
    ScaledOrder(0.0, q, d);
    assert a < 0.0 ==> !(q >= 0.0);
    ScaledOrder(1.0, q, d);
    assert a < d ==> !(q >= 1.0);
    ScaledOrder(q, -1.0, d);
    assert -d < a ==> !(q <= -1.0);
  }

  /** A product with a factor in [0, 1] lies between zero and the other factor. */
  lemma ProductBounds(a: real, b: real)
    requires 0.0 <= a <= 1.0 && 0.0 <= b
    ensures 0.0 <= a * b <= b
  {
    if b > 0.0 {
      ScaledOrder(a, 1.0, b);
      ScaledOrder(0.0, a, b);
    }
  }

  /** Bounds on a quotient carry over to the dividend, scaled by the positive divisor. */
  lemma QuotientBracket(x: real, y: real, lo: real, hi: real)
    requires y > 0.0 && lo <= x / y < hi
    ensures lo * y <= x < hi * y
  {
    var q := x / y;
    assert q * y == x;
    ScaledOrder(lo, q, y);
    ScaledOrder(q, hi, y);
  }

  /** The remainder of a non-negative dividend by a positive divisor lies in [0, divisor). */
  lemma FModRange(x: real, y: real)
    requires x >= 0.0 && y > 0.0
    ensures 0.0 <= FMod(x, y) < y
  {
    var q := x / y;
    assert q * y == x;
    ScaledOrder(q, 0.0, y);
    assert !(q < 0.0);
    var n := Trunc(q);
    QuotientBracket(x, y, n as real, n as real + 1.0);
    assert (n as real + 1.0) * y == (n as real) * y + y;
  }
}
