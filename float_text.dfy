/**
 * `f64::from_str` (which `str::parse::<f64>` also uses) on decimal text: an optional
 * sign, digits with at most one decimal point and at least one digit in all, then an
 * optional exponent `e`/`E`, an optional sign and one or more digits. The value is the
 * exact rational the text denotes; rounding it to the nearest `f64` is not modelled.
 */
module FloatText {
  import opened Wrappers

  predicate IsDigit(c: char)
  {
    '0' <= c <= '9'
  }

  predicate AllDigits(s: string)
  {
    forall i | 0 <= i < |s| :: IsDigit(s[i])
  }

  /** The characters decimal text can hold. */
  predicate IsNumberChar(c: char)
  {
    IsDigit(c) || c == '.' || c == '+' || c == '-' || c == 'e' || c == 'E'
  }

  predicate AllNumberChars(s: string)
  {
    forall i | 0 <= i < |s| :: IsNumberChar(s[i])
  }

  /** The value of a run of decimal digits, most significant first. */
  function DigitsValue(s: string): nat
    requires AllDigits(s)
  {
    if |s| == 0 then 0 else 10 * DigitsValue(s[..|s| - 1]) + (s[|s| - 1] as int - '0' as int)
  }

  function Pow10(n: nat): (p: nat)
    ensures p >= 1
  {
    if n == 0 then 1 else 10 * Pow10(n - 1)
  }

  /** The shortest decimal text of `n`, as `n.to_string()` writes it. */
  function DecimalText(n: nat): (d: string)
    ensures |d| >= 1 && AllDigits(d) && DigitsValue(d) == n
  {
    var last := ['0' + (n % 10) as char];
    if n < 10 then last
    else
      var d := DecimalText(n / 10) + last;
      assert d[..|d| - 1] == DecimalText(n / 10);
      d
  }

  /** `n` times ten to the `k`, as repeated multiplication by ten. */
  function ScaleUp(n: nat, k: nat): nat
  {
    if k == 0 then n else 10 * ScaleUp(n, k - 1)
  }

  /** `x` divided by ten to the `k`, as repeated division by ten. */
  function ScaleDown(x: real, k: nat): real
  {
    if k == 0 then x else ScaleDown(x, k - 1) / 10.0
  }

  lemma {:induction false} ScaleUpProduct(n: nat, k: nat)
    ensures ScaleUp(n, k) == n * Pow10(k)
  {
    if k > 0 {
      ScaleUpProduct(n, k - 1);
    }
  }

  lemma {:induction false} ScaleDownQuotient(x: real, k: nat)
    ensures ScaleDown(x, k) == x / Pow10(k) as real
  {
    if k > 0 {
      ScaleDownQuotient(x, k - 1);
      var p := Pow10(k - 1) as real;
      assert Pow10(k) as real == 10.0 * p;
      assert (x / p) / 10.0 == x / (10.0 * p);
    }
  }

  /** The length of the run of digits that `s` starts with. */
  function DigitRun(s: string): (n: nat)
    ensures n <= |s| && AllDigits(s[..n])
    ensures n < |s| ==> !IsDigit(s[n])
  {
    if |s| > 0 && IsDigit(s[0]) then
      assert forall i | 0 <= i < DigitRun(s[1..]) :: s[1..][..DigitRun(s[1..])][i] == s[i + 1];
      1 + DigitRun(s[1..])
    else 0
  }

  /** The exponent part: empty, or `e`/`E`, an optional sign and one or more digits. */
  function ParseExponent(s: string): (e: Option<int>)
  {
    if |s| == 0 then Some(0)
    else if s[0] != 'e' && s[0] != 'E' then None
    else
      var t := s[1..];
      var negative := |t| > 0 && t[0] == '-';
      var digits := if |t| > 0 && (t[0] == '+' || t[0] == '-') then t[1..] else t;
      if |digits| == 0 || !AllDigits(digits) then None
      else
        var v: int := DigitsValue(digits);
        var e: int := if negative then -v else v;
        Some(e)
  }

  /** The value of the digits `digits`, of which the last `fractionLength` follow the point. */
  function Combine(digits: string, fractionLength: nat, exponent: Option<int>): (r: Option<real>)
    requires AllDigits(digits)
    ensures r.Some? <==> exponent.Some?
  {
    match exponent
      case None => None
      case Some(e) =>
        var shift := e - fractionLength;
        if shift >= 0 then Some(ScaleUp(DigitsValue(digits), shift) as real)
        else Some(ScaleDown(DigitsValue(digits) as real, -shift))
  }

  /** Text without a sign: integral digits, an optional point and fraction, an optional exponent. */
  function ParseUnsigned(s: string): Option<real>
  {
    var i := DigitRun(s);
    if i < |s| && s[i] == '.' then
      var t := s[i + 1..];
      var f := DigitRun(t);
      if i + f == 0 then None else Combine(s[..i] + t[..f], f, ParseExponent(t[f..]))
    else if i == 0 then None
    else Combine(s[..i], 0, ParseExponent(s[i..]))
  }

  /** `f64::from_str`; `None` is the parse error the source unwraps. */
  function ParseFloat(s: string): Option<real>
  {
    if |s| > 0 && s[0] == '-' then
      match ParseUnsigned(s[1..])
        case None => None
        case Some(x) => Some(-x)
    else if |s| > 0 && s[0] == '+' then ParseUnsigned(s[1..])
    else ParseUnsigned(s)
  }

  /** A run of digits followed by a non-digit is exactly the run `DigitRun` finds. */
  lemma DigitRunOf(d: string, rest: string)
    requires AllDigits(d)
    requires |rest| > 0 ==> !IsDigit(rest[0])
    ensures DigitRun(d + rest) == |d|
    decreases |d|
  {
    if |d| > 0 {
      assert (d + rest)[1..] == d[1..] + rest;
      DigitRunOf(d[1..], rest);
    } else {
      assert d + rest == rest;
    }
  }

  /** A non-empty run of digits parses to its value. */
  lemma ParseDigits(d: string)
    requires |d| > 0 && AllDigits(d)
    ensures ParseFloat(d) == Some(DigitsValue(d) as real)
  {
    DigitRunAll(d);
    ParseDigitsSteps(d);
    CombineInteger(d);
  }

  lemma {:induction false} DigitRunAll(d: string)
    requires AllDigits(d)
    ensures DigitRun(d) == |d|
  {
    if |d| > 0 {
      DigitRunAll(d[1..]);
    }
  }

  lemma ParseDigitsSteps(d: string)
    requires |d| > 0 && AllDigits(d)
    requires DigitRun(d) == |d|
    ensures ParseFloat(d) == Combine(d, 0, Some(0))
  {
    assert IsDigit(d[0]);
    assert d[..|d|] == d && d[|d|..] == "";
  }

  lemma CombineInteger(x: string)
    requires AllDigits(x)
    ensures Combine(x, 0, Some(0)) == Some(DigitsValue(x) as real)
  {
  }

  /**
   * Digits, a point and more digits parse to the value of all the digits divided by
   * ten to the number of digits after the point.
   */
  lemma ParsePointQuotient(d: string, f: string)
    requires |d| > 0 && AllDigits(d) && AllDigits(f)
    ensures AllDigits(d + f)
    ensures ParseFloat(d + "." + f) == Some(DigitsValue(d + f) as real / Pow10(|f|) as real)
  {
    ParsePoint(d, f);
    ScaleDownQuotient(DigitsValue(d + f) as real, |f|);
  }

  /** `ParsePointQuotient`, with the division written as repeated division by ten. */
  lemma ParsePoint(d: string, f: string)
    requires |d| > 0 && AllDigits(d) && AllDigits(f)
    ensures AllDigits(d + f)
    ensures ParseFloat(d + "." + f) == Some(ScaleDown(DigitsValue(d + f) as real, |f|))
  {
    ParseUnsignedPoint(d, f);
    CombineFraction(d + f, |f|);
  }

  lemma ParseUnsignedPoint(d: string, f: string)
    requires |d| > 0 && AllDigits(d) && AllDigits(f)
    ensures AllDigits(d + f)
    ensures ParseFloat(d + "." + f) == Combine(d + f, |f|, Some(0))
  {
    var s := d + "." + f;
    assert s == d + ("." + f);
    DigitRunOf(d, "." + f);
    assert s[|d|] == '.' && s[..|d|] == d && s[|d| + 1..] == f;
    DigitRunOf(f, "");
    assert f + "" == f;
    assert f[..|f|] == f && f[|f|..] == "";
    ParseUnsignedPointSteps(d, f, s);
    assert s[0] == d[0] && IsDigit(s[0]);
  }

  lemma ParseUnsignedPointSteps(d: string, f: string, s: string)
    requires |d| > 0 && AllDigits(d) && AllDigits(f)
    requires s == d + "." + f
    requires DigitRun(s) == |d| && s[|d|] == '.' && s[..|d|] == d && s[|d| + 1..] == f
    requires DigitRun(f) == |f|
    requires f[..|f|] == f && f[|f|..] == ""
    ensures ParseUnsigned(s) == Combine(d + f, |f|, Some(0))
  {
  }

  /** Digits with no exponent, the last `k` of them after the point. */
  lemma CombineFraction(x: string, k: nat)
    requires AllDigits(x)
    ensures Combine(x, k, Some(0)) == Some(ScaleDown(DigitsValue(x) as real, k))
  {
  }

  /** A leading minus negates. */
  lemma ParseNegative(s: string)
    requires |s| == 0 || (s[0] != '-' && s[0] != '+')
    ensures ParseFloat("-" + s) == (match ParseFloat(s) case None => None case Some(x) => Some(-x))
  {
    assert ("-" + s)[1..] == s;
  }

  lemma ExponentChars(s: string)
    requires ParseExponent(s).Some?
    ensures AllNumberChars(s)
  {
    if |s| > 0 {
      var t := s[1..];
      var digits := if |t| > 0 && (t[0] == '+' || t[0] == '-') then t[1..] else t;
      forall i | 0 <= i < |s|
        ensures IsNumberChar(s[i])
      {
        if i > 0 && !(|t| > 0 && (t[0] == '+' || t[0] == '-')) {
          assert s[i] == digits[i - 1];
        } else if i > 1 {
          assert s[i] == digits[i - 2];
        }
      }
    }
  }

  lemma PointChars(s: string, i: nat, f: nat)
    requires i < |s| && s[i] == '.' && AllDigits(s[..i]) && i + 1 + f <= |s|
    requires AllDigits(s[i + 1..][..f])
    requires AllNumberChars(s[i + 1..][f..])
    ensures forall j | 0 <= j < |s| :: IsNumberChar(s[j])
  {
    var t := s[i + 1..];
    forall j | 0 <= j < |s|
      ensures IsNumberChar(s[j])
    {
      if j < i {
        assert s[j] == s[..i][j];
      } else if i < j < i + 1 + f {
        assert s[j] == t[..f][j - i - 1];
      } else if j >= i + 1 + f {
        assert s[j] == t[f..][j - i - 1 - f];
      }
    }
  }

  lemma IntegerChars(s: string, i: nat)
    requires i <= |s| && AllDigits(s[..i])
    requires AllNumberChars(s[i..])
    ensures forall j | 0 <= j < |s| :: IsNumberChar(s[j])
  {
    forall j | 0 <= j < |s|
      ensures IsNumberChar(s[j])
    {
      if j < i {
        assert s[j] == s[..i][j];
      } else {
        assert s[j] == s[i..][j - i];
      }
    }
  }

  lemma UnsignedChars(s: string)
    requires ParseUnsigned(s).Some?
    ensures AllNumberChars(s)
  {
    var i := DigitRun(s);
    if i < |s| && s[i] == '.' {
      var t := s[i + 1..];
      var f := DigitRun(t);
      ExponentChars(t[f..]);
      PointChars(s, i, f);
    } else {
      ExponentChars(s[i..]);
      IntegerChars(s, i);
    }
  }

  /** Only digits, points, signs and exponent letters can belong to a number. */
  lemma ParseFloatChars(s: string)
    requires ParseFloat(s).Some?
    ensures |s| > 0 && forall i | 0 <= i < |s| :: IsNumberChar(s[i])
  {
    if |s| > 0 && (s[0] == '-' || s[0] == '+') {
      UnsignedChars(s[1..]);
      forall i | 1 <= i < |s|
        ensures IsNumberChar(s[i])
      {
        assert s[i] == s[1..][i - 1];
      }
    } else {
      UnsignedChars(s);
    }
  }

  lemma ExampleHalf(s: string)
    requires s == "0.5"
    ensures ParseFloat(s) == Some(0.5)
  {
    ParsePoint("0", "5");
    assert "0" + "." + "5" == s;
    assert ("0" + "5")[..1] == "0";
    assert DigitsValue("0" + "5") == 5;
  }

  lemma ExampleEightTenths(s: string)
    requires s == "0.8"
    ensures ParseFloat(s) == Some(0.8)
  {
    ParsePoint("0", "8");
    assert "0" + "." + "8" == s;
    assert ("0" + "8")[..1] == "0";
    assert DigitsValue("0" + "8") == 8;
  }

  lemma ExampleNinetyFiveHundredths(s: string)
    requires s == "0.95"
    ensures ParseFloat(s) == Some(0.95)
  {
    ParsePoint("0", "95");
    assert "0" + "." + "95" == s;
    assert ("0" + "95")[..2] == "09" && "09"[..1] == "0";
    assert DigitsValue("0" + "95") == 95;
    assert ScaleDown(95.0, 2) == ScaleDown(95.0, 1) / 10.0 == 0.95;
  }

  /** The digit strings `100` and `300` and their values. */
  lemma HundredDigits()
    ensures AllDigits("100") && DigitsValue("100") == 100
    ensures AllDigits("300") && DigitsValue("300") == 300
  {
    assert "100"[..2] == "10" && "10"[..1] == "1";
    assert "300"[..2] == "30" && "30"[..1] == "3";
  }
}
