/**
 * The normalisation pipeline every textual parser shares: `trim`, a fixed list of
 * `replace(pat, "")` calls, `split(",")`, and a number parse of every piece with
 * `unwrap`. Also the reading of a `%` token, and the layout `prefix(a, b, c)` the
 * parsers are written for.
 */
module Tokenize {
  import opened Wrappers
  import opened Text
  import opened FloatText

  /** The deletions applied in order. */
  function DeleteEach(s: string, pats: seq<string>): string
    requires forall i | 0 <= i < |pats| :: |pats[i]| > 0
    decreases |pats|
  {
    if |pats| == 0 then s else DeleteEach(DeleteAll(s, pats[0]), pats[1..])
  }

  /** `s.trim()`, the deletions, then `split(",")`. */
  function Fields(s: string, pats: seq<string>): (fields: seq<string>)
    requires forall i | 0 <= i < |pats| :: |pats[i]| > 0
    ensures |fields| >= 1
  {
    Split(DeleteEach(Trim(s), pats), ',')
  }

  /**
   * `.map(parse).collect()` of tokens whose parse is unwrapped: every token must parse,
   * otherwise the source panics.
   */
  function ParseEach(tokens: seq<string>, parse: string -> Option<real>): (r: Option<seq<real>>)
    ensures r.Some? <==> forall i | 0 <= i < |tokens| :: parse(tokens[i]).Some?
    ensures r.Some? ==> |r.value| == |tokens| && forall i | 0 <= i < |tokens| :: parse(tokens[i]) == Some(r.value[i])
  {
    if |tokens| == 0 then Some([])
    else match (parse(tokens[0]), ParseEach(tokens[1..], parse))
      case (Some(x), Some(xs)) =>
        assert forall i | 1 <= i < |tokens| :: tokens[i] == tokens[1..][i - 1];
        Some([x] + xs)
      case (None, _) => None
      case (_, None) =>
        assert forall i | 1 <= i < |tokens| :: tokens[i] == tokens[1..][i - 1];
        None
  }

  /** A parsed percentage as a fraction; the parse error propagates. */
  function Hundredth(x: Option<real>): (r: Option<real>)
    ensures r.Some? <==> x.Some?
  {
    match x
      case None => None
      case Some(v) => Some(v / 100.0)
  }

  lemma ParseEachThree(a: string, b: string, c: string, parse: string -> Option<real>, va: real, vb: real, vc: real)
    requires parse(a) == Some(va) && parse(b) == Some(vb) && parse(c) == Some(vc)
    ensures ParseEach([a, b, c], parse) == Some([va, vb, vc])
  {
    assert [a, b, c][1..] == [b, c];
    assert [b, c][1..] == [c];
    assert [c][1..] == [];
    assert [a, b, c][0] == a && [b, c][0] == b && [c][0] == c;
    assert ParseEach([], parse) == Some([]);
    assert [vc] + [] == [vc] && [vb] + [vc] == [vb, vc] && [va] + [vb, vc] == [va, vb, vc];
    assert ParseEach([c], parse) == Some([vc]);
    assert ParseEach([b, c], parse) == Some([vb, vc]);
  }

  lemma ParseEachFour(a: string, b: string, c: string, d: string, parse: string -> Option<real>,
                      va: real, vb: real, vc: real, vd: real)
    requires parse(a) == Some(va) && parse(b) == Some(vb) && parse(c) == Some(vc) && parse(d) == Some(vd)
    ensures ParseEach([a, b, c, d], parse) == Some([va, vb, vc, vd])
  {
    assert [a, b, c, d][1..] == [b, c, d];
    assert [a, b, c, d][0] == a;
    assert [va] + [vb, vc, vd] == [va, vb, vc, vd];
    ParseEachThree(b, c, d, parse, vb, vc, vd);
  }

  /**
   * A token of the cmyk, hsl and hsv parsers: one holding `%` is read without its `%`
   * signs and divided by 100; any other is read as it stands. The source deletes the
   * signs with `replace("%", "")`, which `ParsePercentDeletes` shows is `Without`.
   */
  function ParsePercent(t: string): Option<real>
  {
    var percent := '%' in t;
    var x := ParseFloat(if percent then Without(t, '%') else t);
    if percent then Hundredth(x) else x
  }

  /** `ParsePercent` reads a `%` token as the source does, after `replace("%", "")`. */
  lemma ParsePercentDeletes(t: string)
    ensures '%' in t ==> ParsePercent(t) == Hundredth(ParseFloat(DeleteAll(t, "%")))
    ensures '%' !in t ==> ParsePercent(t) == ParseFloat(t)
  {
    DeleteAllChar(t, '%');
  }

  /** The text `prefix` + the tokens separated by `", "` + `")"`. */
  function Render(prefix: string, tokens: seq<string>): string
  {
    prefix + Join(tokens, ", ") + ")"
  }

  lemma RenderThree(prefix: string, a: string, b: string, c: string)
    ensures Render(prefix, [a, b, c]) == prefix + a + ", " + b + ", " + c + ")"
  {
    Join3(a, b, c, ", ");
  }

  lemma RenderFour(prefix: string, a: string, b: string, c: string, d: string)
    ensures Render(prefix, [a, b, c, d]) == prefix + a + ", " + b + ", " + c + ", " + d + ")"
  {
    Join4(a, b, c, d, ", ");
  }

  /** The text `s` is the rendering of three tokens. */
  lemma RenderedThree(s: string, prefix: string, a: string, b: string, c: string)
    requires s == prefix + a + ", " + b + ", " + c + ")"
    ensures Render(prefix, [a, b, c]) == s
  {
    RenderThree(prefix, a, b, c);
  }

  /** The text `s` is the rendering of four tokens. */
  lemma RenderedFour(s: string, prefix: string, a: string, b: string, c: string, d: string)
    requires s == prefix + a + ", " + b + ", " + c + ", " + d + ")"
    ensures Render(prefix, [a, b, c, d]) == s
  {
    RenderFour(prefix, a, b, c, d);
  }

  /** A token of a rendered colour: it holds no space, comma or bracket. */
  predicate Plain(t: string)
  {
    ' ' !in t && ',' !in t && '(' !in t && ')' !in t
  }

  lemma PlainThree(a: string, b: string, c: string)
    requires Plain(a) && Plain(b) && Plain(c)
    ensures forall i | 0 <= i < 3 :: Plain([a, b, c][i])
  {
    forall i | 0 <= i < 3
      ensures Plain([a, b, c][i])
    {
      if i == 0 {
        assert [a, b, c][i] == a;
      } else if i == 1 {
        assert [a, b, c][i] == b;
      } else {
        assert [a, b, c][i] == c;
      }
    }
  }

  lemma PlainFour(a: string, b: string, c: string, d: string)
    requires Plain(a) && Plain(b) && Plain(c) && Plain(d)
    ensures forall i | 0 <= i < 4 :: Plain([a, b, c, d][i])
  {
    forall i | 0 <= i < 4
      ensures Plain([a, b, c, d][i])
    {
      if i == 0 {
        assert [a, b, c, d][i] == a;
      } else if i == 1 {
        assert [a, b, c, d][i] == b;
      } else if i == 2 {
        assert [a, b, c, d][i] == c;
      } else {
        assert [a, b, c, d][i] == d;
      }
    }
  }

  /** A function-style prefix such as `rgb(`: letters, then an opening bracket. */
  predicate IsPrefix(p: string)
  {
    |p| >= 2 && p[|p| - 1] == '(' && forall i | 0 <= i < |p| - 1 :: 'a' <= p[i] <= 'z'
  }

  lemma PrefixChars(p: string)
    requires IsPrefix(p)
    ensures ' ' !in p && '°' !in p && ')' !in p && !IsWhitespace(p[0])
  {
    forall i | 0 <= i < |p|
      ensures p[i] != ' ' && p[i] != '°' && p[i] != ')'
    {
      if i < |p| - 1 {
        assert 'a' <= p[i] <= 'z';
      }
    }
  }

  /** Every token with the character `c` removed. */
  function WithoutEach(tokens: seq<string>, c: char): (r: seq<string>)
    ensures |r| == |tokens| && forall i | 0 <= i < |r| :: r[i] == Without(tokens[i], c)
  {
    seq(|tokens|, i requires 0 <= i < |tokens| => Without(tokens[i], c))
  }

  lemma WithoutEachThree(a: string, b: string, c: string, ch: char)
    ensures WithoutEach([a, b, c], ch) == [Without(a, ch), Without(b, ch), Without(c, ch)]
  {
  }

  lemma {:induction false} WithoutJoin(tokens: seq<string>, sep: string, c: char)
    ensures Without(Join(tokens, sep), c) == Join(WithoutEach(tokens, c), Without(sep, c))
    decreases |tokens|
  {
    if |tokens| >= 2 {
      WithoutAppend(tokens[0] + sep, Join(tokens[1..], sep), c);
      WithoutAppend(tokens[0], sep, c);
      WithoutJoin(tokens[1..], sep, c);
      assert WithoutEach(tokens, c)[1..] == WithoutEach(tokens[1..], c);
    }
  }

  lemma {:induction false} NotInJoin(tokens: seq<string>, sep: string, c: char)
    requires c !in sep && forall i | 0 <= i < |tokens| :: c !in tokens[i]
    ensures c !in Join(tokens, sep)
    decreases |tokens|
  {
    if |tokens| >= 2 {
      NotInJoin(tokens[1..], sep, c);
    }
  }

  lemma WithoutEachAbsent(tokens: seq<string>, c: char)
    requires forall i | 0 <= i < |tokens| :: c !in tokens[i]
    ensures WithoutEach(tokens, c) == tokens
  {
    forall i | 0 <= i < |tokens|
      ensures WithoutEach(tokens, c)[i] == tokens[i]
    {
      WithoutAbsent(tokens[i], c);
    }
  }

  /** Taking the spaces out of tokens that have none joined by `", "` leaves them joined by `","`. */
  lemma JoinWithoutSpaces(tokens: seq<string>)
    requires forall i | 0 <= i < |tokens| :: Plain(tokens[i])
    ensures Without(Join(tokens, ", "), ' ') == Join(tokens, ",")
  {
    WithoutJoin(tokens, ", ", ' ');
    WithoutEachAbsent(tokens, ' ');
    assert Without(", ", ' ') == ",";
  }

  /** Taking the spaces out of a rendered colour leaves the prefix, the tokens joined by commas and `)`. */
  lemma RenderWithoutSpaces(prefix: string, tokens: seq<string>)
    requires IsPrefix(prefix) && forall i | 0 <= i < |tokens| :: Plain(tokens[i])
    ensures Without(Render(prefix, tokens), ' ') == prefix + Join(tokens, ",") + ")"
  {
    var j := Join(tokens, ", ");
    WithoutAppend(prefix + j, ")", ' ');
    WithoutAppend(prefix, j, ' ');
    PrefixChars(prefix);
    WithoutAbsent(prefix, ' ');
    WithoutAbsent(")", ' ');
    JoinWithoutSpaces(tokens);
  }

  /** With the spaces gone, a rendered colour is the prefix, the tokens joined by commas and `)`. */
  lemma DeleteSpaces(prefix: string, tokens: seq<string>)
    requires IsPrefix(prefix) && forall i | 0 <= i < |tokens| :: Plain(tokens[i])
    ensures DeleteAll(Render(prefix, tokens), " ") == prefix + Join(tokens, ",") + ")"
  {
    DeleteAllChar(Render(prefix, tokens), ' ');
    assert [' '] == " ";
    RenderWithoutSpaces(prefix, tokens);
  }

  /** Removing the prefix, then the closing bracket, and splitting on commas gives the tokens. */
  lemma DeletePrefixAndSplit(prefix: string, tokens: seq<string>)
    requires IsPrefix(prefix) && |tokens| >= 1 && forall i | 0 <= i < |tokens| :: Plain(tokens[i])
    ensures Split(DeleteAll(DeleteAll(prefix + Join(tokens, ",") + ")", prefix), ")"), ',') == tokens
  {
    var j := Join(tokens, ",");
    var rest := j + ")";
    NotInJoin(tokens, ",", '(');
    NotInJoin(tokens, ",", ')');
    assert prefix + j + ")" == prefix + rest;
    DeleteAllPrefix(prefix, rest);
    assert prefix[|prefix| - 1] == '(';
    DeleteAllAbsent(rest, prefix, '(');
    assert DeleteAll(prefix + rest, prefix) == rest;
    DeleteAllChar(rest, ')');
    WithoutAppend(j, ")", ')');
    WithoutAbsent(j, ')');
    assert DeleteAll(rest, ")") == j;
    SplitJoin(tokens, ',');
  }

  lemma DeleteEachThree(s: string, a: string, b: string, c: string)
    requires |a| > 0 && |b| > 0 && |c| > 0
    ensures DeleteEach(s, [a, b, c]) == DeleteAll(DeleteAll(DeleteAll(s, a), b), c)
  {
    var s1 := DeleteAll(s, a);
    var s2 := DeleteAll(s1, b);
    assert [a, b, c][1..] == [b, c];
    assert [b, c][1..] == [c];
    assert [c][1..] == [];
    assert DeleteEach(s2, [c]) == DeleteEach(DeleteAll(s2, c), []);
    assert DeleteEach(s1, [b, c]) == DeleteEach(s2, [c]);
  }

  lemma DeleteEachFour(s: string, a: string, b: string, c: string, d: string)
    requires |a| > 0 && |b| > 0 && |c| > 0 && |d| > 0
    ensures DeleteEach(s, [a, b, c, d]) == DeleteAll(DeleteAll(DeleteAll(DeleteAll(s, a), b), c), d)
  {
    assert [a, b, c, d][1..] == [b, c, d];
    DeleteEachThree(DeleteAll(s, a), b, c, d);
  }

  lemma RenderTrim(prefix: string, tokens: seq<string>)
    requires IsPrefix(prefix)
    ensures Trim(Render(prefix, tokens)) == Render(prefix, tokens)
  {
    PrefixChars(prefix);
    TrimNoWhitespace(Render(prefix, tokens));
  }

  /**
   * The pipeline `trim`, delete `" "`, delete the prefix, delete `")"`, split on `,`
   * recovers the tokens of a rendered colour.
   */
  lemma FieldsOfRender(prefix: string, tokens: seq<string>)
    requires IsPrefix(prefix) && |tokens| >= 1 && forall i | 0 <= i < |tokens| :: Plain(tokens[i])
    ensures Fields(Render(prefix, tokens), [" ", prefix, ")"]) == tokens
  {
    var s := Render(prefix, tokens);
    RenderTrim(prefix, tokens);
    DeleteEachThree(s, " ", prefix, ")");
    DeleteSpaces(prefix, tokens);
    DeletePrefixAndSplit(prefix, tokens);
  }

  /** Deleting the degree sign from the rendered colour without spaces removes it from every token. */
  lemma DeleteDegrees(prefix: string, tokens: seq<string>)
    requires IsPrefix(prefix)
    ensures DeleteAll(prefix + Join(tokens, ",") + ")", "°") == prefix + Join(WithoutEach(tokens, '°'), ",") + ")"
  {
    var j := Join(tokens, ",");
    DeleteAllChar(prefix + j + ")", '°');
    WithoutAppend(prefix + j, ")", '°');
    WithoutAppend(prefix, j, '°');
    PrefixChars(prefix);
    WithoutAbsent(prefix, '°');
    WithoutAbsent(")", '°');
    WithoutJoin(tokens, ",", '°');
    assert Without(",", '°') == ",";
  }

  /**
   * With a `"°"` deletion after the spaces, the same pipeline recovers the tokens
   * without their degree signs.
   */
  lemma FieldsOfRenderDegrees(prefix: string, tokens: seq<string>)
    requires IsPrefix(prefix) && |tokens| >= 1 && forall i | 0 <= i < |tokens| :: Plain(tokens[i])
    ensures Fields(Render(prefix, tokens), [" ", "°", prefix, ")"]) == WithoutEach(tokens, '°')
  {
    var s := Render(prefix, tokens);
    var stripped := WithoutEach(tokens, '°');
    RenderTrim(prefix, tokens);
    DeleteEachFour(s, " ", "°", prefix, ")");
    DeleteSpaces(prefix, tokens);
    DeleteDegrees(prefix, tokens);
    assert forall i | 0 <= i < |stripped| :: Plain(stripped[i]);
    DeletePrefixAndSplit(prefix, stripped);
  }

  lemma DigitsPlain(d: string)
    requires AllDigits(d)
    ensures Plain(d)
  {
    assert forall i | 0 <= i < |d| :: IsDigit(d[i]);
  }

  /** Decimal text with a point is a plain token. */
  lemma PointPlain(d: string, f: string)
    requires AllDigits(d) && AllDigits(f)
    ensures Plain(d + "." + f)
  {
    var t := d + "." + f;
    forall i | 0 <= i < |t|
      ensures t[i] != ' ' && t[i] != ',' && t[i] != '(' && t[i] != ')'
    {
      if i < |d| {
        assert t[i] == d[i];
      } else if i > |d| {
        assert t[i] == f[i - |d| - 1];
      }
    }
  }

  /** Removing a character from text that ends in it and holds it nowhere else leaves the rest. */
  lemma StripSuffix(d: string, c: char)
    requires c !in d
    ensures c in d + [c] && Without(d + [c], c) == d
  {
    assert (d + [c])[|d|] == c;
    WithoutAppend(d, [c], c);
    WithoutAbsent(d, c);
    assert Without([c], c) == [];
    assert d + [] == d;
  }

  lemma StripPercent(d: string)
    requires AllDigits(d)
    ensures '%' in d + "%" && Without(d + "%", '%') == d
  {
    assert '%' !in d by {
      assert forall i | 0 <= i < |d| :: IsDigit(d[i]);
    }
    StripSuffix(d, '%');
  }

  /** Digits followed by a suffix sign such as `%` or `°` make a plain token. */
  lemma SuffixPlain(d: string, c: char)
    requires AllDigits(d) && c != ' ' && c != ',' && c != '(' && c != ')'
    ensures Plain(d + [c])
  {
    DigitsPlain(d);
    assert forall i | 0 <= i < |d| :: (d + [c])[i] == d[i];
    assert (d + [c])[|d|] == c;
  }

  /** A run of digits followed by `%` reads as a hundredth of the digits alone. */
  lemma ParsePercentDigits(d: string)
    requires |d| > 0 && AllDigits(d)
    ensures ParsePercent(d + "%") == Hundredth(ParsePercent(d))
    ensures ParsePercent(d + "%") == Hundredth(Some(DigitsValue(d) as real))
  {
    StripPercent(d);
    ParsePercentPlainDigits(d);
  }

  /** A run of digits without `%` reads as its value. */
  lemma ParsePercentPlainDigits(d: string)
    requires |d| > 0 && AllDigits(d)
    ensures ParsePercent(d) == Some(DigitsValue(d) as real)
  {
    assert '%' !in d by {
      assert forall i | 0 <= i < |d| :: IsDigit(d[i]);
    }
    ParseDigits(d);
  }

  /** A token `d%` whose digits `d` have the value `v` reads as `v / 100`. */
  lemma PercentValue(s: string, d: string, v: nat)
    requires |d| > 0 && AllDigits(d) && DigitsValue(d) == v && s == d + "%"
    ensures ParsePercent(s) == Hundredth(Some(v as real))
  {
    ParsePercentDigits(d);
  }

  /** A token of digits `d` with the value `v` reads as `v`. */
  lemma PlainValue(s: string, v: nat)
    requires |s| > 0 && AllDigits(s) && DigitsValue(s) == v
    ensures ParsePercent(s) == Some(v as real)
  {
    ParsePercentPlainDigits(s);
  }

  /** A token without `%` that `f64::from_str` reads as `v` reads as `v`. */
  lemma FractionValue(s: string, v: real)
    requires '%' !in s && ParseFloat(s) == Some(v)
    ensures ParsePercent(s) == Some(v)
  {
  }

  /** The two fractions in the cmyk test texts. */
  lemma FractionTokens()
    ensures Plain("0.95") && ParsePercent("0.95") == Some(0.95)
    ensures Plain("0.8") && ParsePercent("0.8") == Some(0.8)
  {
    ExampleNinetyFiveHundredths("0.95");
    ExampleEightTenths("0.8");
    PointPlain("0", "95");
    PointPlain("0", "8");
    assert "0" + "." + "95" == "0.95" && "0" + "." + "8" == "0.8";
  }

  /** A token of digits: plain, free of degree signs and read as its value. */
  lemma DigitToken(d: string, v: nat)
    requires |d| > 0 && AllDigits(d) && DigitsValue(d) == v
    ensures Plain(d) && Without(d, '°') == d && ParsePercent(d) == Some(v as real)
  {
    DigitsPlain(d);
    assert '°' !in d by {
      assert forall i | 0 <= i < |d| :: IsDigit(d[i]);
    }
    WithoutAbsent(d, '°');
    PlainValue(d, v);
  }

  /** A token of digits and `%`: plain, free of degree signs and read as a hundredth of its digits. */
  lemma PercentToken(d: string, v: nat)
    requires |d| > 0 && AllDigits(d) && DigitsValue(d) == v
    ensures Plain(d + "%") && Without(d + "%", '°') == d + "%" && ParsePercent(d + "%") == Hundredth(Some(v as real))
  {
    SuffixPlain(d, '%');
    assert '°' !in d + "%" by {
      assert forall i | 0 <= i < |d| :: IsDigit(d[i]);
      assert forall i | 0 <= i < |d| :: (d + "%")[i] == d[i];
    }
    WithoutAbsent(d + "%", '°');
    PercentValue(d + "%", d, v);
  }

  /** A token of digits and `°`: plain, and the digits alone once the degree sign is gone. */
  lemma DegreeToken(d: string)
    requires AllDigits(d)
    ensures Plain(d + "°") && Without(d + "°", '°') == d
  {
    SuffixPlain(d, '°');
    assert '°' !in d by {
      assert forall i | 0 <= i < |d| :: IsDigit(d[i]);
    }
    StripSuffix(d, '°');
  }

  /** The token `100%`: plain, free of degree signs and read as one. */
  lemma HundredPercentToken()
    ensures Plain("100%") && Without("100%", '°') == "100%" && ParsePercent("100%") == Some(1.0)
  {
    HundredDigits();
    PercentToken("100", 100);
    assert "100" + "%" == "100%";
  }
}
