/**
 * Packing a colour into a 24-bit integer and back (`num2rgb`, `rgb2num`).
 * Rust's `u32` shifts and bitwise or are modelled on naturals: `x << k` keeps the low
 * 32 bits of `x * 2^k`, `x >> k` is `x / 2^k`, `n as u8` keeps the low 8 bits and `|`
 * is the bitwise or defined digit by digit.
 */
module Num {
  import opened Wrappers
  import opened Primitives

  /** The largest value `num2rgb` accepts. */
  const MaxNum: nat := 0xFF_FFFF

  const U32Modulus: nat := 0x1_0000_0000

  /** Rust's `u32`. */
  type U32 = x: int | 0 <= x < U32Modulus

  function Pow2(k: nat): (p: nat)
    ensures p >= 1
  {
    if k == 0 then 1 else 2 * Pow2(k - 1)
  }

  /** Bitwise or of two naturals, one binary digit at a time. */
  function BitOr(a: nat, b: nat): nat
    decreases a + b
  {
    if a == 0 then b
    else if b == 0 then a
    else 2 * BitOr(a / 2, b / 2) + (if a % 2 == 1 || b % 2 == 1 then 1 else 0)
  }

  /** `x << k` on `u32`. */
  function Shl(x: nat, k: nat): nat
  {
    (x * Pow2(k)) % U32Modulus
  }

  /** `x >> k` on `u32`. */
  function Shr(x: nat, k: nat): int
  {
    x / Pow2(k)
  }

  /** `x as u8`: the low eight bits. */
  function LowByte(x: int): Byte
  {
    x % 256
  }

  /** Or-ing in a value narrower than the zero bits of the other operand is addition. */
  lemma {:induction false} BitOrDisjoint(a: nat, k: nat, b: nat)
    requires b < Pow2(k)
    ensures BitOr(a * Pow2(k), b) == a * Pow2(k) + b
    decreases k
  {
    if k == 0 {
      assert b == 0;
    } else if a == 0 || b == 0 {
    } else {
      var x := a * Pow2(k);
      assert x == 2 * (a * Pow2(k - 1));
      assert x / 2 == a * Pow2(k - 1) && x % 2 == 0;
      BitOrDisjoint(a, k - 1, b / 2);
      assert BitOr(x, b) == 2 * BitOr(x / 2, b / 2) + b % 2;
    }
  }

  /** Doubling both operands commutes with or. */
  lemma BitOrDouble(a: nat, b: nat)
    ensures BitOr(2 * a, 2 * b) == 2 * BitOr(a, b)
  {
    if a != 0 && b != 0 {
      assert (2 * a) / 2 == a && (2 * a) % 2 == 0;
      assert (2 * b) / 2 == b && (2 * b) % 2 == 0;
    }
  }

  lemma MulDouble(x: nat, p: nat)
    ensures x * (2 * p) == 2 * (x * p)
  {
  }

  /** Shifting both operands left by the same amount commutes with or. */
  lemma {:induction false} BitOrShift(a: nat, b: nat, k: nat)
    ensures BitOr(a * Pow2(k), b * Pow2(k)) == BitOr(a, b) * Pow2(k)
    decreases k
  {
    if k > 0 {
      var p := Pow2(k - 1);
      var o := BitOr(a, b);
      assert Pow2(k) == 2 * p;
      MulDouble(a, p);
      MulDouble(b, p);
      MulDouble(o, p);
      BitOrDouble(a * p, b * p);
      BitOrShift(a, b, k - 1);
    }
  }

  /** A number has only one base-256 spelling with three digits. */
  lemma ThreeBytesUnique(c: Rgb, d: Rgb)
    requires c.r * 65536 + c.g * 256 + c.b == d.r * 65536 + d.g * 256 + d.b
    ensures c == d
  {
    var x := (d.r - c.r) * 256 + (d.g - c.g);
    assert c.b - d.b == x * 256;
    assert x == 0;
    assert (d.r - c.r) * 256 == c.g - d.g;
  }

  /**
   * `num2rgb`: the three bytes of a number no larger than 0xFFFFFF; a larger number
   * makes the source panic.
   */
  function Num2Rgb(num: U32): (c: Option<Rgb>)
    ensures c.Some? <==> num <= MaxNum
    ensures c.Some? ==> num == c.value.r * 65536 + c.value.g * 256 + c.value.b
  {
    if num > MaxNum then None
    else
      Unpack(num);
      Some(Rgb(LowByte(Shr(num, 16)), LowByte(Shr(num, 8)), LowByte(num)))
  }

  /** Division and remainder by 256 are determined by any base-256 split. */
  lemma Div256(n: int, q: int, m: int)
    requires n == q * 256 + m && 0 <= m < 256
    ensures n / 256 == q && n % 256 == m
  {
  }

  /** The three bytes `num2rgb` extracts spell the number in base 256. */
  lemma Unpack(num: nat)
    requires num <= MaxNum
    ensures num == LowByte(Shr(num, 16)) * 65536 + LowByte(Shr(num, 8)) * 256 + LowByte(num)
  {
    Pow2Values();
    var r := num / 65536;
    var rest := num % 65536;
    var g := rest / 256;
    var b := rest % 256;
    assert num == r * 65536 + g * 256 + b;
    assert 0 <= r < 256;
    Div256(num, r * 256 + g, b);
    Div256(r * 256 + g, r, g);
    assert Shr(num, 16) == r && Shr(num, 8) == r * 256 + g;
  }

  lemma Pow2Values()
    ensures Pow2(8) == 256 && Pow2(16) == 65536
  {
    assert Pow2(4) == 16;
  }

  /** A left shift that loses no bits is a multiplication. */
  lemma ShlExact(x: nat, k: nat)
    requires x * Pow2(k) < U32Modulus
    ensures Shl(x, k) == x * Pow2(k)
  {
  }

  /** The three shifted bytes occupy disjoint bits, so or-ing them adds them. */
  lemma Pack(r: Byte, g: Byte, b: Byte)
    ensures BitOr(BitOr(Shl(r, 16), Shl(g, 8)), b) == r * 65536 + g * 256 + b
  {
    Pow2Values();
    var p := Pow2(8);
    var hi := r * 256;
    ShlExact(r, 16);
    ShlExact(g, 8);
    assert Shl(r, 16) == hi * p;
    assert Shl(g, 8) == g * p;
    BitOrShift(hi, g, 8);
    BitOrDisjoint(r, 8, g);
    assert BitOr(hi, g) == hi + g;
    var low := hi + g;
    assert BitOr(Shl(r, 16), Shl(g, 8)) == low * p;
    BitOrDisjoint(low, 8, b);
    assert low * p + b == r * 65536 + g * 256 + b;
  }

  /** `rgb2num`: `r << 16 | g << 8 | b` on `u32`. */
  function Rgb2Num(c: Rgb): (num: U32)
    ensures num == c.r * 65536 + c.g * 256 + c.b
    ensures num <= MaxNum
  {
    Pack(c.r, c.g, c.b);
    BitOr(BitOr(Shl(c.r, 16), Shl(c.g, 8)), c.b)
  }

  /** Packing then unpacking gives the bytes back. */
  lemma Num2RgbOfRgb2Num(c: Rgb)
    ensures Num2Rgb(Rgb2Num(c)) == Some(c)
  {
    ThreeBytesUnique(Num2Rgb(Rgb2Num(c)).value, c);
  }

  /** Unpacking then packing gives the number back. */
  lemma Rgb2NumOfNum2Rgb(num: U32)
    requires num <= MaxNum
    ensures var c := Num2Rgb(num).value; Rgb2Num(c) == num
  {
  }

  /** The example of num.rs: 0x7760BF is (119, 96, 191). */
  lemma Example7760BF()
    ensures Num2Rgb(0x7760BF) == Some(Rgb(119, 96, 191))
    ensures Rgb2Num(Rgb(119, 96, 191)) == 0x7760BF
  {
  }
}
