/**
 * `valid`: whether the library would accept a string as a colour. The check is only
 * syntactic: a `#` code of the right length made of hexadecimal digits, one of six
 * function-style prefixes (whatever follows it), or an exact name of the colour table.
 */
module Valid {
  import opened Text
  import opened Hex
  import opened W3cx11

  /** `str::starts_with`. */
  predicate HasPrefix(s: string, p: string)
  {
    |p| <= |s| && s[..|p|] == p
  }

  /** The prefixes `valid` accepts without looking further. */
  predicate HasFunctionPrefix(s: string)
  {
    HasPrefix(s, "rgba") || HasPrefix(s, "rgb") || HasPrefix(s, "lab") || HasPrefix(s, "hsl")
    || HasPrefix(s, "hsv") || HasPrefix(s, "cmyk")
  }

  /**
   * `valid`, arm by arm, against a table of names. The `#` arm measures the string in
   * UTF-8 bytes (`str::len`) and then tests every character after the first.
   */
  predicate IsValidIn(s: string, names: map<string, string>)
  {
    if HasPrefix(s, "#") then
      var n := Utf8Len(s);
      if n == 4 || n == 7 then forall i | 1 <= i < |s| :: IsHexDigit(s[i]) else false
    else if HasPrefix(s, "rgba") then true
    else if HasPrefix(s, "rgb") then true
    else if HasPrefix(s, "lab") then true
    else if HasPrefix(s, "hsl") then true
    else if HasPrefix(s, "hsv") then true
    else if HasPrefix(s, "cmyk") then true
    else s in names
  }

  /** `valid`, which looks names up in the colour table. */
  predicate IsValid(s: string)
  {
    IsValidIn(s, Table)
  }

  /** A hexadecimal digit is a one-byte character. */
  lemma HexDigitsAscii(s: string)
    requires HasPrefix(s, "#") && forall i | 1 <= i < |s| :: IsHexDigit(s[i])
    ensures forall i | 0 <= i < |s| :: s[i] as int < 0x80
  {
    assert s[0] == '#';
  }

  /**
   * A string starting with `#` is valid exactly when it has 4 or 7 characters and every
   * character after the `#` is a hexadecimal digit of either case; the table plays no part.
   */
  lemma ValidHexCode(s: string, names: map<string, string>)
    requires HasPrefix(s, "#")
    ensures IsValidIn(s, names) <==> (|s| == 4 || |s| == 7) && forall i | 1 <= i < |s| :: IsHexDigit(s[i])
  {
    if forall i | 1 <= i < |s| :: IsHexDigit(s[i]) {
      HexDigitsAscii(s);
      assert Utf8Len(s) == |s|;
    }
  }

  /** When the `#` arm accepts, the byte length it measured is the character count and every character is ASCII. */
  lemma ValidHexCodeAscii(s: string, names: map<string, string>)
    requires HasPrefix(s, "#") && IsValidIn(s, names)
    ensures Utf8Len(s) == |s|
    ensures forall i | 0 <= i < |s| :: s[i] as int < 0x80
  {
    HexDigitsAscii(s);
  }

  /** Every string with one of the six prefixes is valid, whatever follows the prefix and whatever the table. */
  lemma ValidFunctionPrefix(s: string, names: map<string, string>)
    requires HasFunctionPrefix(s)
    ensures IsValidIn(s, names)
  {
    assert !HasPrefix(s, "#") by {
      assert s[0] != '#';
    }
  }

  /** Any other string is valid exactly when it is a key of the table, compared exactly. */
  lemma ValidName(s: string, names: map<string, string>)
    requires !HasPrefix(s, "#") && !HasFunctionPrefix(s)
    ensures IsValidIn(s, names) <==> s in names
  {
  }

  /** Every key of the colour table is valid, and so is every value. */
  lemma ValidTable()
    ensures forall k | k in Table :: IsValid(k)
    ensures forall k | k in Table :: IsValid(Table[k])
  {
    TableShape();
    forall k | k in Table
      ensures IsValid(k) && IsValid(Table[k])
    {
      NameValid(k, Table);
      CodeValid(Table[k], Table);
    }
  }

  /** A key of the table is valid: it does not start with `#`, so it either has a prefix or is found. */
  lemma NameValid(k: string, names: map<string, string>)
    requires IsColorName(k) && k in names
    ensures IsValidIn(k, names)
  {
    assert !HasPrefix(k, "#") by {
      assert IsNameChar(k[0]);
    }
  }

  /** A code in the table's form is valid. */
  lemma CodeValid(v: string, names: map<string, string>)
    requires IsHexCode(v)
    ensures IsValidIn(v, names)
  {
    assert HasPrefix(v, "#");
    assert forall i | 1 <= i < |v| :: IsHexDigit(v[i]);
    ValidHexCode(v, names);
  }

  /** A string whose first character starts none of the prefixes, or the empty string, is valid exactly when it is a key. */
  lemma ValidUnprefixed(s: string, names: map<string, string>)
    requires |s| == 0 || (s[0] != '#' && s[0] != 'r' && s[0] != 'l' && s[0] != 'h' && s[0] != 'c')
    ensures IsValidIn(s, names) <==> s in names
  {
    if |s| > 0 {
      assert !HasPrefix(s, "#") && !HasFunctionPrefix(s) by {
        assert forall p: string | |p| > 0 && HasPrefix(s, p) :: s[0] == p[0];
      }
    }
  }

  /** A code of seven characters is valid when its six digits are, whatever the table. */
  lemma ValidLongCode(a: char, b: char, c: char, d: char, e: char, f: char, names: map<string, string>)
    requires IsHexDigit(a) && IsHexDigit(b) && IsHexDigit(c) && IsHexDigit(d) && IsHexDigit(e) && IsHexDigit(f)
    ensures IsValidIn(['#', a, b, c, d, e, f], names)
  {
    var s := ['#', a, b, c, d, e, f];
    assert HasPrefix(s, "#");
    ValidHexCode(s, names);
  }

  /** `#abcdef` is valid, whatever the table. */
  lemma ValidLowerCode(names: map<string, string>)
    ensures IsValidIn("#abcdef", names)
  {
    ValidLongCode('a', 'b', 'c', 'd', 'e', 'f', names);
  }

  /** The short form `#abc` is valid, whatever the table. */
  lemma ValidShortCode(names: map<string, string>)
    ensures IsValidIn("#abc", names)
  {
    ValidHexCode("#abc", names);
  }

  /** Upper-case digits are accepted: `#F0000D` is valid. */
  lemma ValidUpperCode(names: map<string, string>)
    ensures IsValidIn("#F0000D", names)
  {
    ValidLongCode('F', '0', '0', '0', '0', 'D', names);
  }

  /** `#FOOOOD`, spelt with the letter O, is not valid. */
  lemma InvalidLetterCode(names: map<string, string>)
    ensures !IsValidIn("#FOOOOD", names)
  {
    ValidHexCode("#FOOOOD", names);
    assert !IsHexDigit("#FOOOOD"[2]);
  }

  /** Five digits are the wrong length: `#abcde` is not valid. */
  lemma InvalidLengthCode(names: map<string, string>)
    ensures !IsValidIn("#abcde", names)
  {
    ValidHexCode("#abcde", names);
  }

  /** The prefix examples, including `rgbxyz`, which is no colour at all. */
  lemma ValidPrefixExamples(names: map<string, string>)
    ensures IsValidIn("rgb(255, 255, 255)", names) && IsValidIn("rgba(255, 255, 255, 0.6)", names)
    ensures IsValidIn("lab(100, 0, 0)", names) && IsValidIn("rgbxyz", names)
  {
    ValidFunctionPrefix("rgb(255, 255, 255)", names);
    ValidFunctionPrefix("rgba(255, 255, 255, 0.6)", names);
    ValidFunctionPrefix("lab(100, 0, 0)", names);
    ValidFunctionPrefix("rgbxyz", names);
  }

  /** The name examples that are keys: `red` and `mediumspringgreen`. */
  lemma ValidNameExamples()
    ensures IsValid("red") && IsValid("mediumspringgreen")
  {
    TableLookups();
    TableShape();
    NameValid("red", Table);
    NameValid("mediumspringgreen", Table);
  }

  /**
   * The name examples that are not keys: `invalid`, `bread`, `Red`, the empty string, and
   * `RGB(1,2,3)`, since the prefixes are compared case-sensitively.
   */
  lemma InvalidNameExamples()
    ensures !IsValid("invalid") && !IsValid("bread") && !IsValid("Red") && !IsValid("")
    ensures !IsValid("RGB(1,2,3)")
  {
    TableMisses();
    TableShape();
    assert !IsNameChar("RGB(1,2,3)"[0]);
    ValidUnprefixed("invalid", Table);
    ValidUnprefixed("bread", Table);
    ValidUnprefixed("Red", Table);
    ValidUnprefixed("", Table);
    ValidUnprefixed("RGB(1,2,3)", Table);
  }
}
