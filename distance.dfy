/**
 * `distance` (distance.rs): the Euclidean distance between two colours read in one
 * mode, by default `lab`. The squared differences are summed over the pairs `zip`
 * yields, which stops at the shorter vector; the square root is a `Kernels` field.
 */
module Distance {
  import opened Wrappers
  import opened Primitives
  import opened Spaces
  import opened Mode
  import opened Colors

  /** The mode `distance` reads the colours in when none is given. */
  const DefaultMode: string := "lab"

  function DistanceMode(mode: Option<string>): string
  {
    if mode.Some? then mode.value else DefaultMode
  }

  function Square(x: real): real
  {
    x * x
  }

  /** How many pairs `zip` yields: the length of the shorter vector. */
  function Pairs(v1: seq<real>, v2: seq<real>): (n: nat)
    ensures n <= |v1| && n <= |v2| && (n == |v1| || n == |v2|)
  {
    if |v1| <= |v2| then |v1| else |v2|
  }

  /** The sum of the squared differences of the first `n` pairs. */
  function SumSquares(v1: seq<real>, v2: seq<real>, n: nat): real
    requires n <= |v1| && n <= |v2|
  {
    if n == 0 then 0.0 else SumSquares(v1, v2, n - 1) + Square(v1[n - 1] - v2[n - 1])
  }

  /** The accumulation in `distance`: `sum_sq` grows by one squared difference per pair of `zip`. */
  method SumSquared(v1: seq<real>, v2: seq<real>) returns (sum: real)
    ensures sum == SumSquares(v1, v2, Pairs(v1, v2))
  {
    sum := 0.0;
    var n := Pairs(v1, v2);
    for i := 0 to n
      invariant sum == SumSquares(v1, v2, i)
    {
      sum := sum + (v1[i] - v2[i]) * (v1[i] - v2[i]);
    }
  }

  /** The sum does not depend on which vector comes first. */
  lemma {:induction false} SumSquaresSymmetric(v1: seq<real>, v2: seq<real>, n: nat)
    requires n <= |v1| && n <= |v2|
    ensures SumSquares(v1, v2, n) == SumSquares(v2, v1, n)
  {
    if n > 0 {
      SumSquaresSymmetric(v1, v2, n - 1);
      var d := v1[n - 1] - v2[n - 1];
      assert v2[n - 1] - v1[n - 1] == -d;
      assert Square(-d) == Square(d);
    }
  }

  /** A sum of squares is never negative. */
  lemma {:induction false} SumSquaresNonNegative(v1: seq<real>, v2: seq<real>, n: nat)
    requires n <= |v1| && n <= |v2|
    ensures SumSquares(v1, v2, n) >= 0.0
  {
    if n > 0 {
      SumSquaresNonNegative(v1, v2, n - 1);
      var d := v1[n - 1] - v2[n - 1];
      if d < 0.0 {
        assert Square(d) == (-d) * (-d);
        ProductBounds(0.0, -d);
      }
      assert Square(d) >= 0.0 by {
        if d >= 0.0 {
          assert d * d >= 0.0 * d;
        } else {
          assert (-d) * (-d) >= 0.0 * (-d);
        }
      }
    }
  }

  /** A vector is at distance zero from itself: every difference is 0. */
  lemma {:induction false} SumSquaresSelf(v: seq<real>, n: nat)
    requires n <= |v|
    ensures SumSquares(v, v, n) == 0.0
  {
    if n > 0 {
      SumSquaresSelf(v, n - 1);
    }
  }

  /** The distance of two colours in a mode: the square root of the sum of squares of their vectors. */
  function DistanceIn(k: Kernels, c1: Rgba, c2: Rgba, mode: string): real
    requires IsModeName(mode)
  {
    var v1 := ModeVector(k, c1, mode);
    var v2 := ModeVector(k, c2, mode);
    k.sqrt(SumSquares(v1, v2, Pairs(v1, v2)))
  }

  /** `distance`: the colours read in `mode` (by default `lab`), then the root of the accumulated sum. */
  method ColorDistance(k: Kernels, color1: Color, color2: Color, mode: Option<string>) returns (d: real)
    requires IsModeName(DistanceMode(mode))
    ensures d == DistanceIn(k, color1.rgba, color2.rgba, DistanceMode(mode))
  {
    var m := DistanceMode(mode);
    var v1 := ModeVector(k, color1.rgba, m);
    var v2 := ModeVector(k, color2.rgba, m);
    var sum := SumSquared(v1, v2);
    d := k.sqrt(sum);
  }

  /** The distance is symmetric, and the square root is only ever taken of a non-negative sum. */
  lemma DistanceSymmetric(k: Kernels, c1: Rgba, c2: Rgba, mode: string)
    requires IsModeName(mode)
    ensures DistanceIn(k, c1, c2, mode) == DistanceIn(k, c2, c1, mode)
    ensures var v1 := ModeVector(k, c1, mode); var v2 := ModeVector(k, c2, mode);
      SumSquares(v1, v2, Pairs(v1, v2)) >= 0.0
  {
    var v1 := ModeVector(k, c1, mode);
    var v2 := ModeVector(k, c2, mode);
    SumSquaresSymmetric(v1, v2, Pairs(v1, v2));
    SumSquaresNonNegative(v1, v2, Pairs(v1, v2));
  }

  /** A colour is at the root of 0 from itself, in every mode. */
  lemma DistanceSelf(k: Kernels, c: Rgba, mode: string)
    requires IsModeName(mode)
    ensures DistanceIn(k, c, c, mode) == k.sqrt(0.0)
  {
    var v := ModeVector(k, c, mode);
    SumSquaresSelf(v, Pairs(v, v));
  }

  /** In `rgb` mode, white and yellow differ by 255 in blue alone: the sum is 255 squared, 65025. */
  lemma WhiteYellowSum(k: Kernels, alpha: real)
    ensures var v1 := ModeVector(k, Rgba(255, 255, 255, alpha), "rgb");
      var v2 := ModeVector(k, Rgba(255, 255, 0, alpha), "rgb");
      SumSquares(v1, v2, Pairs(v1, v2)) == 65025.0
  {
    var v1 := ModeVector(k, Rgba(255, 255, 255, alpha), "rgb");
    var v2 := ModeVector(k, Rgba(255, 255, 0, alpha), "rgb");
    assert v1 == [255.0, 255.0, 255.0] && v2 == [255.0, 255.0, 0.0];
    assert SumSquares(v1, v2, 1) == 0.0;
    assert SumSquares(v1, v2, 2) == 0.0;
  }

  /** In `rgb` mode, red and green differ by 255 in two channels: the sum is twice 255 squared. */
  lemma RedGreenSum(k: Kernels, alpha: real)
    ensures var v1 := ModeVector(k, Rgba(255, 0, 0, alpha), "rgb");
      var v2 := ModeVector(k, Rgba(0, 255, 0, alpha), "rgb");
      SumSquares(v1, v2, Pairs(v1, v2)) == 2.0 * 65025.0
  {
    var v1 := ModeVector(k, Rgba(255, 0, 0, alpha), "rgb");
    var v2 := ModeVector(k, Rgba(0, 255, 0, alpha), "rgb");
    assert v1 == [255.0, 0.0, 0.0] && v2 == [0.0, 255.0, 0.0];
    assert SumSquares(v1, v2, 1) == 65025.0;
    assert SumSquares(v1, v2, 2) == 2.0 * 65025.0;
  }

  /**
   * What `f64::sqrt` promises of the root `distance` takes: on a non-negative argument,
   * a non-negative number whose square is that argument.
   */
  ghost predicate SqrtSound(k: Kernels)
  {
    forall x: real :: x >= 0.0 ==> k.sqrt(x) >= 0.0 && k.sqrt(x) * k.sqrt(x) == x
  }

  /** Squaring preserves the order of non-negative reals, strictly and not. */
  lemma SquareOrder(a: real, b: real)
    requires a >= 0.0 && b >= 0.0
    ensures a <= b ==> a * a <= b * b
    ensures a < b ==> a * a < b * b
  {
    if a + b > 0.0 {
      ScaledOrder(0.0, b - a, a + b);
      assert b * b - a * a == (b - a) * (a + b);
    }
  }

  /** A non-negative number is the only non-negative root of its square. */
  lemma RootUnique(x: real, r: real)
    requires x >= 0.0 && r >= 0.0 && r * r == x * x
    ensures r == x
  {
    SquareOrder(r, x);
    SquareOrder(x, r);
  }

  /** A non-negative root of `x` lies strictly between any two bounds whose squares bracket `x`. */
  lemma RootBetween(x: real, r: real, lo: real, hi: real)
    requires r >= 0.0 && r * r == x && lo >= 0.0 && hi >= 0.0 && lo * lo < x < hi * hi
    ensures lo < r < hi
  {
    SquareOrder(r, lo);
    SquareOrder(hi, r);
  }

  /** With a sound root, the distance is never negative. */
  lemma DistanceNonNegative(k: Kernels, c1: Rgba, c2: Rgba, mode: string)
    requires SqrtSound(k) && IsModeName(mode)
    ensures DistanceIn(k, c1, c2, mode) >= 0.0
  {
    var v1 := ModeVector(k, c1, mode);
    var v2 := ModeVector(k, c2, mode);
    SumSquaresNonNegative(v1, v2, Pairs(v1, v2));
  }

  /** With a sound root, a colour is at distance 0 from itself in every mode. */
  lemma DistanceSelfZero(k: Kernels, c: Rgba, mode: string)
    requires SqrtSound(k) && IsModeName(mode)
    ensures DistanceIn(k, c, c, mode) == 0.0
  {
    DistanceSelf(k, c, mode);
    RootUnique(0.0, k.sqrt(0.0));
  }

  /** The test value: white and yellow are 255 apart in `rgb` mode. */
  lemma WhiteYellowDistance(k: Kernels, alpha: real)
    requires SqrtSound(k)
    ensures DistanceIn(k, Rgba(255, 255, 255, alpha), Rgba(255, 255, 0, alpha), "rgb") == 255.0
  {
    WhiteYellowSum(k, alpha);
    RootUnique(255.0, k.sqrt(65025.0));
  }

  /**
   * Red and green in `rgb` mode: the distance is the root of 2 * 255 squared, which lies
   * in (360.624, 360.625), the interval holding the test's IEEE value.
   */
  lemma RedGreenDistance(k: Kernels, alpha: real)
    requires SqrtSound(k)
    ensures var d := DistanceIn(k, Rgba(255, 0, 0, alpha), Rgba(0, 255, 0, alpha), "rgb");
      d * d == 130050.0 && 360.624 < d < 360.625
  {
    RedGreenSum(k, alpha);
    var d := k.sqrt(130050.0);
    RootBetween(130050.0, d, 360.624, 360.625);
  }
}
