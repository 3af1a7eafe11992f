/**
 * The Rust `str` operations the validator and the parsers use: byte length, prefix
 * tests, `trim`, `replace(pat, "")`, `contains` and `split`. Strings are sequences of
 * Unicode scalar values.
 */
module Text {

  /** The number of bytes a character takes in UTF-8. */
  function Utf8Width(c: char): (w: nat)
    ensures 1 <= w <= 4
    ensures w == 1 <==> c as int < 0x80
  {
    if c as int < 0x80 then 1 else if c as int < 0x800 then 2 else if c as int < 0x1_0000 then 3 else 4
  }

  /** `str::len`: the length in UTF-8 bytes. */
  function Utf8Len(s: string): (n: nat)
    ensures n >= |s|
    ensures n == |s| <==> forall i | 0 <= i < |s| :: s[i] as int < 0x80
  {
    if |s| == 0 then 0 else Utf8Width(s[0]) + Utf8Len(s[1..])
  }

  /** `char::is_whitespace`: the Unicode `White_Space` property. */
  predicate IsWhitespace(c: char)
  {
    || '\t' <= c <= '\r' || c == ' ' || c == '\U{85}' || c == '\U{A0}' || c == '\U{1680}'
    || '\U{2000}' <= c <= '\U{200A}' || c == '\U{2028}' || c == '\U{2029}' || c == '\U{202F}'
    || c == '\U{205F}' || c == '\U{3000}'
  }

  function TrimStart(s: string): (t: string)
    ensures |t| <= |s| && t == s[|s| - |t|..]
    ensures |t| > 0 ==> !IsWhitespace(t[0])
    ensures forall i | 0 <= i < |s| - |t| :: IsWhitespace(s[i])
  {
    if |s| > 0 && IsWhitespace(s[0]) then TrimStart(s[1..]) else s
  }

  function TrimEnd(s: string): (t: string)
    ensures |t| <= |s| && t == s[..|t|]
    ensures |t| > 0 ==> !IsWhitespace(t[|t| - 1])
    ensures forall i | |t| <= i < |s| :: IsWhitespace(s[i])
  {
    if |s| > 0 && IsWhitespace(s[|s| - 1]) then TrimEnd(s[..|s| - 1]) else s
  }

  /** `str::trim`: the string without its leading and trailing white space. */
  function Trim(s: string): string
  {
    TrimEnd(TrimStart(s))
  }

  /** A string that neither starts nor ends with white space is its own trim. */
  lemma TrimNoWhitespace(s: string)
    requires |s| > 0 ==> !IsWhitespace(s[0]) && !IsWhitespace(s[|s| - 1])
    ensures Trim(s) == s
  {
  }

  /**
   * `s.replace(pat, "")`: every match of `pat`, found left to right without overlap,
   * removed.
   */
  function DeleteAll(s: string, pat: string): (t: string)
    requires |pat| > 0
    ensures |t| <= |s|
    decreases |s|
  {
    if |s| < |pat| then s
    else if pat <= s then DeleteAll(s[|pat|..], pat)
    else [s[0]] + DeleteAll(s[1..], pat)
  }

  /** The characters of `s` other than `c`, in order. */
  function Without(s: string, c: char): (t: string)
    ensures c !in t
    ensures forall x | x in t :: x in s
  {
    if |s| == 0 then [] else (if s[0] == c then [] else [s[0]]) + Without(s[1..], c)
  }

  /** Deleting a one-character pattern removes exactly that character. */
  lemma {:induction false} DeleteAllChar(s: string, c: char)
    ensures DeleteAll(s, [c]) == Without(s, c)
    decreases |s|
  {
    if |s| > 0 {
      DeleteAllChar(s[1..], c);
      if s[0] == c {
        assert [c] <= s;
      }
    }
  }

  lemma {:induction false} WithoutAppend(a: string, b: string, c: char)
    ensures Without(a + b, c) == Without(a, c) + Without(b, c)
    decreases |a|
  {
    if |a| > 0 {
      assert (a + b)[1..] == a[1..] + b;
      WithoutAppend(a[1..], b, c);
    } else {
      assert a + b == b;
    }
  }

  lemma {:induction false} WithoutAbsent(s: string, c: char)
    requires c !in s
    ensures Without(s, c) == s
    decreases |s|
  {
    if |s| > 0 {
      WithoutAbsent(s[1..], c);
    }
  }

  /** A pattern one of whose characters does not occur in `s` is never found in it. */
  lemma {:induction false} DeleteAllAbsent(s: string, pat: string, c: char)
    requires |pat| > 0 && c in pat && c !in s
    ensures DeleteAll(s, pat) == s
    decreases |s|
  {
    if |s| >= |pat| {
      assert !(pat <= s) by {
        var i :| 0 <= i < |pat| && pat[i] == c;
        assert s[i] in s;
        assert s[i] != pat[i];
      }
      DeleteAllAbsent(s[1..], pat, c);
      assert s == [s[0]] + s[1..];
    }
  }

  /** A leading match is removed, and the search resumes after it. */
  lemma DeleteAllPrefix(pat: string, s: string)
    requires |pat| > 0
    ensures DeleteAll(pat + s, pat) == DeleteAll(s, pat)
  {
    assert (pat + s)[|pat|..] == s;
  }

  /** `pieces` joined with `sep` between neighbours. */
  function Join(pieces: seq<string>, sep: string): string
  {
    if |pieces| == 0 then ""
    else if |pieces| == 1 then pieces[0]
    else pieces[0] + sep + Join(pieces[1..], sep)
  }

  lemma Join3(a: string, b: string, c: string, sep: string)
    ensures Join([a, b, c], sep) == a + sep + b + sep + c
  {
    assert [a, b, c][1..] == [b, c];
    assert [b, c][1..] == [c];
    assert Join([b, c], sep) == b + sep + c;
  }

  lemma Join4(a: string, b: string, c: string, d: string, sep: string)
    ensures Join([a, b, c, d], sep) == a + sep + b + sep + c + sep + d
  {
    assert [a, b, c, d][1..] == [b, c, d];
    Join3(b, c, d, sep);
  }

  /** The position of the first `c` in `s`. */
  function IndexOf(s: string, c: char): (i: nat)
    requires c in s
    ensures i < |s| && s[i] == c && c !in s[..i]
  {
    if s[0] == c then 0 else 1 + IndexOf(s[1..], c)
  }

  /**
   * `s.split(sep)`: the pieces between the separators. There is always at least one
   * piece, no piece holds the separator, and joining them restores `s`.
   */
  function Split(s: string, sep: char): (pieces: seq<string>)
    ensures |pieces| >= 1
    ensures forall i | 0 <= i < |pieces| :: sep !in pieces[i]
    ensures Join(pieces, [sep]) == s
    decreases |s|
  {
    if sep !in s then [s]
    else
      var i := IndexOf(s, sep);
      var rest := Split(s[i + 1..], sep);
      assert s == s[..i] + [sep] + s[i + 1..];
      [s[..i]] + rest
  }

  /** Splitting is determined by its contract: two separator-free splittings of one string agree. */
  lemma {:induction false} JoinInjective(a: seq<string>, b: seq<string>, sep: char)
    requires |a| >= 1 && |b| >= 1
    requires forall i | 0 <= i < |a| :: sep !in a[i]
    requires forall i | 0 <= i < |b| :: sep !in b[i]
    requires Join(a, [sep]) == Join(b, [sep])
    ensures a == b
    decreases |a|
  {
    var s := Join(a, [sep]);
    if |a| == 1 || |b| == 1 {
      JoinHasSeparator(a, sep);
      JoinHasSeparator(b, sep);
    } else {
      assert s == a[0] + [sep] + Join(a[1..], [sep]);
      assert s == b[0] + [sep] + Join(b[1..], [sep]);
      FirstSeparator(a[0], Join(a[1..], [sep]), b[0], Join(b[1..], [sep]), sep);
      JoinInjective(a[1..], b[1..], sep);
      assert a == [a[0]] + a[1..] && b == [b[0]] + b[1..];
    }
  }

  /** A join of separator-free pieces holds the separator exactly when there are two pieces or more. */
  lemma JoinHasSeparator(p: seq<string>, sep: char)
    requires |p| >= 1
    requires forall i | 0 <= i < |p| :: sep !in p[i]
    ensures sep in Join(p, [sep]) <==> |p| >= 2
  {
    if |p| >= 2 {
      var s := Join(p, [sep]);
      assert s == p[0] + [sep] + Join(p[1..], [sep]);
      assert s[|p[0]|] == sep;
    }
  }

  lemma SeparatorNotLater(x: string, xs: string, y: string, ys: string, sep: char)
    requires sep !in y
    requires x + [sep] + xs == y + [sep] + ys
    ensures |y| <= |x|
  {
    var s := x + [sep] + xs;
    assert s[|x|] == sep;
    assert forall i | 0 <= i < |y| :: s[i] == y[i];
  }

  lemma FirstSeparator(x: string, xs: string, y: string, ys: string, sep: char)
    requires sep !in x && sep !in y
    requires x + [sep] + xs == y + [sep] + ys
    ensures x == y && xs == ys
  {
    var s := x + [sep] + xs;
    SeparatorNotLater(x, xs, y, ys, sep);
    SeparatorNotLater(y, ys, x, xs, sep);
    assert x == s[..|x|] && y == s[..|y|];
    assert xs == s[|x| + 1..] && ys == s[|y| + 1..];
  }

  /** Splitting a join of separator-free pieces gives the pieces back. */
  lemma SplitJoin(pieces: seq<string>, sep: char)
    requires |pieces| >= 1
    requires forall i | 0 <= i < |pieces| :: sep !in pieces[i]
    ensures Split(Join(pieces, [sep]), sep) == pieces
  {
    JoinInjective(Split(Join(pieces, [sep]), sep), pieces, sep);
  }
}
