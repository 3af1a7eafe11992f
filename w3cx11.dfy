/**
 * The W3C/X11 colour-name table: 154 names, each mapped to the code `#rrggbb`.
 * The source fills a `HashMap` with one `insert` per name when first used, then only
 * reads it. The inserts are kept here in source order, in chunks of three so that each
 * chunk's entries are checked on their own against the entry types; `Table` is the
 * map those inserts build.
 */
module W3cx11 {
  import opened Hex

  /** A character of a table key: a lower-case ASCII letter or a digit. */
  predicate IsNameChar(c: char)
  {
    'a' <= c <= 'z' || '0' <= c <= '9'
  }

  predicate IsColorName(s: string)
  {
    |s| > 0 && forall i | 0 <= i < |s| :: IsNameChar(s[i])
  }

  type ColorName = s: string | IsColorName(s) witness "black"

  type HexCode = s: string | IsHexCode(s) witness "#000000"

  /** The inserts at w3cx11.rs lines 9-11. */
  const Part00: seq<(ColorName, HexCode)> := [
    ("aliceblue", "#f0f8ff"),
    ("antiquewhite", "#faebd7"),
    ("aqua", "#00ffff")
  ]

  /** The inserts at w3cx11.rs lines 12-14. */
  const Part01: seq<(ColorName, HexCode)> := [
    ("aquamarine", "#7fffd4"),
    ("azure", "#f0ffff"),
    ("beige", "#f5f5dc")
  ]

  /** The inserts at w3cx11.rs lines 15-17. */
  const Part02: seq<(ColorName, HexCode)> := [
    ("bisque", "#ffe4c4"),
    ("black", "#000000"),
    ("blanchedalmond", "#ffebcd")
  ]

  /** The inserts at w3cx11.rs lines 18-20. */
  const Part03: seq<(ColorName, HexCode)> := [
    ("blue", "#0000ff"),
    ("blueviolet", "#8a2be2"),
    ("brown", "#a52a2a")
  ]

  /** The inserts at w3cx11.rs lines 21-23. */
  const Part04: seq<(ColorName, HexCode)> := [
    ("burlywood", "#deb887"),
    ("cadetblue", "#5f9ea0"),
    ("chartreuse", "#7fff00")
  ]

  /** The inserts at w3cx11.rs lines 24-26. */
  const Part05: seq<(ColorName, HexCode)> := [
    ("chocolate", "#d2691e"),
    ("coral", "#ff7f50"),
    ("cornflowerblue", "#6495ed")
  ]

  /** The inserts at w3cx11.rs lines 27-29. */
  const Part06: seq<(ColorName, HexCode)> := [
    ("cornsilk", "#fff8dc"),
    ("crimson", "#dc143c"),
    ("cyan", "#00ffff")
  ]

  /** The inserts at w3cx11.rs lines 30-32. */
  const Part07: seq<(ColorName, HexCode)> := [
    ("darkblue", "#00008b"),
    ("darkcyan", "#008b8b"),
    ("darkgoldenrod", "#b8860b")
  ]

  /** The inserts at w3cx11.rs lines 33-35. */
  const Part08: seq<(ColorName, HexCode)> := [
    ("darkgray", "#a9a9a9"),
    ("darkgreen", "#006400"),
    ("darkgrey", "#a9a9a9")
  ]

  /** The inserts at w3cx11.rs lines 36-37. */
  const Part09: seq<(ColorName, HexCode)> := [
    ("darkkhaki", "#bdb76b"),
    ("darkmagenta", "#8b008b")
  ]

  /** The inserts at w3cx11.rs lines 38-39. */
  const Part10: seq<(ColorName, HexCode)> := [
    ("darkolivegreen", "#556b2f"),
    ("darkorange", "#ff8c00")
  ]

  /** The inserts at w3cx11.rs lines 40-42. */
  const Part11: seq<(ColorName, HexCode)> := [
    ("darkorchid", "#9932cc"),
    ("darkred", "#8b0000"),
    ("darksalmon", "#e9967a")
  ]

  /** The inserts at w3cx11.rs lines 43-44. */
  const Part12: seq<(ColorName, HexCode)> := [
    ("darkseagreen", "#8fbc8f"),
    ("darkslateblue", "#483d8b")
  ]

  /** The inserts at w3cx11.rs lines 45-46. */
  const Part13: seq<(ColorName, HexCode)> := [
    ("darkslategray", "#2f4f4f"),
    ("darkslategrey", "#2f4f4f")
  ]

  /** The inserts at w3cx11.rs lines 47-48. */
  const Part14: seq<(ColorName, HexCode)> := [
    ("darkturquoise", "#00ced1"),
    ("darkviolet", "#9400d3")
  ]

  /** The inserts at w3cx11.rs lines 49-51. */
  const Part15: seq<(ColorName, HexCode)> := [
    ("deeppink", "#ff1493"),
    ("deepskyblue", "#00bfff"),
    ("dimgray", "#696969")
  ]

  /** The inserts at w3cx11.rs lines 52-54. */
  const Part16: seq<(ColorName, HexCode)> := [
    ("dimgrey", "#696969"),
    ("dodgerblue", "#1e90ff"),
    ("firebrick", "#b22222")
  ]

  /** The inserts at w3cx11.rs lines 55-57. */
  const Part17: seq<(ColorName, HexCode)> := [
    ("floralwhite", "#fffaf0"),
    ("forestgreen", "#228b22"),
    ("fuchsia", "#ff00ff")
  ]

  /** The inserts at w3cx11.rs lines 58-60. */
  const Part18: seq<(ColorName, HexCode)> := [
    ("gainsboro", "#dcdcdc"),
    ("ghostwhite", "#f8f8ff"),
    ("gold", "#ffd700")
  ]

  /** The inserts at w3cx11.rs lines 61-63. */
  const Part19: seq<(ColorName, HexCode)> := [
    ("goldenrod", "#daa520"),
    ("gray", "#808080"),
    ("green", "#008000")
  ]

  /** The inserts at w3cx11.rs lines 64-66. */
  const Part20: seq<(ColorName, HexCode)> := [
    ("greenyellow", "#adff2f"),
    ("grey", "#808080"),
    ("honeydew", "#f0fff0")
  ]

  /** The inserts at w3cx11.rs lines 67-69. */
  const Part21: seq<(ColorName, HexCode)> := [
    ("hotpink", "#ff69b4"),
    ("indianred", "#cd5c5c"),
    ("indigo", "#4b0082")
  ]

  /** The inserts at w3cx11.rs lines 70-72. */
  const Part22: seq<(ColorName, HexCode)> := [
    ("ivory", "#fffff0"),
    ("khaki", "#f0e68c"),
    ("laserlemon", "#ffff54")
  ]

  /** The inserts at w3cx11.rs lines 73-75. */
  const Part23: seq<(ColorName, HexCode)> := [
    ("lavender", "#e6e6fa"),
    ("lavenderblush", "#fff0f5"),
    ("lawngreen", "#7cfc00")
  ]

  /** The inserts at w3cx11.rs lines 76-77. */
  const Part24: seq<(ColorName, HexCode)> := [
    ("lemonchiffon", "#fffacd"),
    ("lightblue", "#add8e6")
  ]

  /** The inserts at w3cx11.rs lines 78-79. */
  const Part25: seq<(ColorName, HexCode)> := [
    ("lightcoral", "#f08080"),
    ("lightcyan", "#e0ffff")
  ]

  /** The inserts at w3cx11.rs lines 80-80. */
  const Part26: seq<(ColorName, HexCode)> := [
    ("lightgoldenrod", "#fafad2")
  ]

  /** The inserts at w3cx11.rs lines 81-82. */
  const Part27: seq<(ColorName, HexCode)> := [
    ("lightgoldenrodyellow", "#fafad2"),
    ("lightgray", "#d3d3d3")
  ]

  /** The inserts at w3cx11.rs lines 83-85. */
  const Part28: seq<(ColorName, HexCode)> := [
    ("lightgreen", "#90ee90"),
    ("lightgrey", "#d3d3d3"),
    ("lightpink", "#ffb6c1")
  ]

  /** The inserts at w3cx11.rs lines 86-87. */
  const Part29: seq<(ColorName, HexCode)> := [
    ("lightsalmon", "#ffa07a"),
    ("lightseagreen", "#20b2aa")
  ]

  /** The inserts at w3cx11.rs lines 88-89. */
  const Part30: seq<(ColorName, HexCode)> := [
    ("lightskyblue", "#87cefa"),
    ("lightslategray", "#778899")
  ]

  /** The inserts at w3cx11.rs lines 90-91. */
  const Part31: seq<(ColorName, HexCode)> := [
    ("lightslategrey", "#778899"),
    ("lightsteelblue", "#b0c4de")
  ]

  /** The inserts at w3cx11.rs lines 92-94. */
  const Part32: seq<(ColorName, HexCode)> := [
    ("lightyellow", "#ffffe0"),
    ("lime", "#00ff00"),
    ("limegreen", "#32cd32")
  ]

  /** The inserts at w3cx11.rs lines 95-97. */
  const Part33: seq<(ColorName, HexCode)> := [
    ("linen", "#faf0e6"),
    ("magenta", "#ff00ff"),
    ("maroon", "#800000")
  ]

  /** The inserts at w3cx11.rs lines 98-100. */
  const Part34: seq<(ColorName, HexCode)> := [
    ("maroon2", "#7f0000"),
    ("maroon3", "#b03060"),
    ("mediumaquamarine", "#66cdaa")
  ]

  /** The inserts at w3cx11.rs lines 101-102. */
  const Part35: seq<(ColorName, HexCode)> := [
    ("mediumblue", "#0000cd"),
    ("mediumorchid", "#ba55d3")
  ]

  /** The inserts at w3cx11.rs lines 103-104. */
  const Part36: seq<(ColorName, HexCode)> := [
    ("mediumpurple", "#9370db"),
    ("mediumseagreen", "#3cb371")
  ]

  /** The inserts at w3cx11.rs lines 105-105. */
  const Part37: seq<(ColorName, HexCode)> := [
    ("mediumslateblue", "#7b68ee")
  ]

  /** The inserts at w3cx11.rs lines 106-106. */
  const Part38: seq<(ColorName, HexCode)> := [
    ("mediumspringgreen", "#00fa9a")
  ]

  /** The inserts at w3cx11.rs lines 107-108. */
  const Part39: seq<(ColorName, HexCode)> := [
    ("mediumturquoise", "#48d1cc"),
    ("mediumvioletred", "#c71585")
  ]

  /** The inserts at w3cx11.rs lines 109-111. */
  const Part40: seq<(ColorName, HexCode)> := [
    ("midnightblue", "#191970"),
    ("mintcream", "#f5fffa"),
    ("mistyrose", "#ffe4e1")
  ]

  /** The inserts at w3cx11.rs lines 112-114. */
  const Part41: seq<(ColorName, HexCode)> := [
    ("moccasin", "#ffe4b5"),
    ("navajowhite", "#ffdead"),
    ("navy", "#000080")
  ]

  /** The inserts at w3cx11.rs lines 115-117. */
  const Part42: seq<(ColorName, HexCode)> := [
    ("oldlace", "#fdf5e6"),
    ("olive", "#808000"),
    ("olivedrab", "#6b8e23")
  ]

  /** The inserts at w3cx11.rs lines 118-120. */
  const Part43: seq<(ColorName, HexCode)> := [
    ("orange", "#ffa500"),
    ("orangered", "#ff4500"),
    ("orchid", "#da70d6")
  ]

  /** The inserts at w3cx11.rs lines 121-122. */
  const Part44: seq<(ColorName, HexCode)> := [
    ("palegoldenrod", "#eee8aa"),
    ("palegreen", "#98fb98")
  ]

  /** The inserts at w3cx11.rs lines 123-124. */
  const Part45: seq<(ColorName, HexCode)> := [
    ("paleturquoise", "#afeeee"),
    ("palevioletred", "#db7093")
  ]

  /** The inserts at w3cx11.rs lines 125-127. */
  const Part46: seq<(ColorName, HexCode)> := [
    ("papayawhip", "#ffefd5"),
    ("peachpuff", "#ffdab9"),
    ("peru", "#cd853f")
  ]

  /** The inserts at w3cx11.rs lines 128-130. */
  const Part47: seq<(ColorName, HexCode)> := [
    ("pink", "#ffc0cb"),
    ("plum", "#dda0dd"),
    ("powderblue", "#b0e0e6")
  ]

  /** The inserts at w3cx11.rs lines 131-133. */
  const Part48: seq<(ColorName, HexCode)> := [
    ("purple", "#800080"),
    ("purple2", "#7f007f"),
    ("purple3", "#a020f0")
  ]

  /** The inserts at w3cx11.rs lines 134-136. */
  const Part49: seq<(ColorName, HexCode)> := [
    ("rebeccapurple", "#663399"),
    ("red", "#ff0000"),
    ("rosybrown", "#bc8f8f")
  ]

  /** The inserts at w3cx11.rs lines 137-139. */
  const Part50: seq<(ColorName, HexCode)> := [
    ("royalblue", "#4169e1"),
    ("saddlebrown", "#8b4513"),
    ("salmon", "#fa8072")
  ]

  /** The inserts at w3cx11.rs lines 140-142. */
  const Part51: seq<(ColorName, HexCode)> := [
    ("sandybrown", "#f4a460"),
    ("seagreen", "#2e8b57"),
    ("seashell", "#fff5ee")
  ]

  /** The inserts at w3cx11.rs lines 143-145. */
  const Part52: seq<(ColorName, HexCode)> := [
    ("sienna", "#a0522d"),
    ("silver", "#c0c0c0"),
    ("skyblue", "#87ceeb")
  ]

  /** The inserts at w3cx11.rs lines 146-148. */
  const Part53: seq<(ColorName, HexCode)> := [
    ("slateblue", "#6a5acd"),
    ("slategray", "#708090"),
    ("slategrey", "#708090")
  ]

  /** The inserts at w3cx11.rs lines 149-151. */
  const Part54: seq<(ColorName, HexCode)> := [
    ("snow", "#fffafa"),
    ("springgreen", "#00ff7f"),
    ("steelblue", "#4682b4")
  ]

  /** The inserts at w3cx11.rs lines 152-154. */
  const Part55: seq<(ColorName, HexCode)> := [
    ("tan", "#d2b48c"),
    ("teal", "#008080"),
    ("thistle", "#d8bfd8")
  ]

  /** The inserts at w3cx11.rs lines 155-157. */
  const Part56: seq<(ColorName, HexCode)> := [
    ("tomato", "#ff6347"),
    ("turquoise", "#40e0d0"),
    ("violet", "#ee82ee")
  ]

  /** The inserts at w3cx11.rs lines 158-160. */
  const Part57: seq<(ColorName, HexCode)> := [
    ("wheat", "#f5deb3"),
    ("white", "#ffffff"),
    ("whitesmoke", "#f5f5f5")
  ]

  /** The inserts at w3cx11.rs lines 161-162. */
  const Part58: seq<(ColorName, HexCode)> := [
    ("yellow", "#ffff00"),
    ("yellowgreen", "#9acd32")
  ]

  /** Every insert of the source, in order. */
  const Inserts: seq<(ColorName, HexCode)> :=
    (((((Part00 + Part01) + (Part02 + Part03)) + ((Part04 + Part05) + (Part06 +
    Part07))) + (((Part08 + Part09) + (Part10 + Part11)) + ((Part12 + Part13) +
    Part14))) + ((((Part15 + Part16) + (Part17 + Part18)) + ((Part19 + Part20) + (Part21
    + Part22))) + (((Part23 + Part24) + (Part25 + Part26)) + ((Part27 + Part28) +
    Part29)))) + (((((Part30 + Part31) + (Part32 + Part33)) + ((Part34 + Part35) +
    (Part36 + Part37))) + (((Part38 + Part39) + (Part40 + Part41)) + ((Part42 + Part43)
    + Part44))) + ((((Part45 + Part46) + (Part47 + Part48)) + ((Part49 + Part50) +
    Part51)) + (((Part52 + Part53) + (Part54 + Part55)) + ((Part56 + Part57) +
    Part58))))

  /**
   * The map left by applying the inserts `ins` in order to an empty map; a later
   * insert of a key overwrites an earlier one.
   */
  function Build(ins: seq<(string, string)>): (m: map<string, string>)
    ensures forall k :: k in m <==> exists e | e in ins :: e.0 == k
    ensures forall k | k in m :: (k, m[k]) in ins
  {
    if |ins| == 0 then map[]
    else
      var last := ins[|ins| - 1];
      assert forall e | e in ins :: e in ins[..|ins| - 1] || e == last;
      Build(ins[..|ins| - 1])[last.0 := last.1]
  }

  /** A later insert of a key overwrites an earlier one: a key maps to the value of its last insert. */
  lemma {:induction false} BuildLastWins(ins: seq<(string, string)>, i: nat)
    requires i < |ins|
    requires forall j | i < j < |ins| :: ins[j].0 != ins[i].0
    ensures ins[i].0 in Build(ins) && Build(ins)[ins[i].0] == ins[i].1
  {
    var n := |ins| - 1;
    var init := ins[..n];
    assert Build(ins) == Build(init)[ins[n].0 := ins[n].1];
    if i < n {
      assert init[i] == ins[i];
      forall j | i < j < |init|
        ensures init[j].0 != init[i].0
      {
        assert init[j] == ins[j];
      }
      BuildLastWins(init, i);
    }
  }

  /** `W3CX11_HASHMAP`. */
  const Table: map<string, string> := Build(Inserts)

  /**
   * The initialiser of the table: the inserts applied one after another to a mutable
   * map. `Fill(Inserts)` yields `Table`.
   */
  method Fill(ins: seq<(string, string)>) returns (m: map<string, string>)
    ensures m == Build(ins)
  {
    m := map[];
    for i := 0 to |ins|
      invariant m == Build(ins[..i])
    {
      assert ins[..i + 1][..i] == ins[..i];
      m := m[ins[i].0 := ins[i].1];
    }
    assert ins[..|ins|] == ins;
  }

  /** Every key is lower-case letters and digits; every value is `#` and six lower-case hex digits. */
  lemma TableShape()
    ensures forall k | k in Table :: IsColorName(k) && IsHexCode(Table[k])
  {
    forall k | k in Table
      ensures IsColorName(k) && IsHexCode(Table[k])
    {
      assert (k, Table[k]) in Inserts;
    }
  }

  /** The facts about single entries that the examples of the library rely on. */
  predicate EntryFacts(e: (string, string))
  {
    && e.0 != "invalid"
    && e.0 != "bread"
    && e.1 != "#abcdef"
    && (e.1 == "#00fa9a" ==> e.0 == "mediumspringgreen")
    && (e.0 == "orange" ==> e.1 == "#ffa500")
    && (e.0 == "red" ==> e.1 == "#ff0000")
    && (e.0 == "mediumspringgreen" ==> e.1 == "#00fa9a")
    && (e.0 == "aqua" ==> e.1 == "#00ffff")
    && (e.0 == "cyan" ==> e.1 == "#00ffff")
    && (e.0 == "fuchsia" ==> e.1 == "#ff00ff")
    && (e.0 == "magenta" ==> e.1 == "#ff00ff")
    && (e.0 == "gray" ==> e.1 == "#808080")
    && (e.0 == "grey" ==> e.1 == "#808080")
  }

  predicate Facts(ins: seq<(string, string)>)
  {
    forall e | e in ins :: EntryFacts(e)
  }

  lemma FactsConcat(a: seq<(string, string)>, b: seq<(string, string)>)
    requires Facts(a) && Facts(b)
    ensures Facts(a + b)
  {
  }

  lemma Part00Facts()
    ensures Facts(Part00)
  {
  }

  lemma Part01Facts()
    ensures Facts(Part01)
  {
  }

  lemma Part02Facts()
    ensures Facts(Part02)
  {
  }

  lemma Part03Facts()
    ensures Facts(Part03)
  {
  }

  lemma Part04Facts()
    ensures Facts(Part04)
  {
  }

  lemma Part05Facts()
    ensures Facts(Part05)
  {
  }

  lemma Part06Facts()
    ensures Facts(Part06)
  {
  }

  lemma Part07Facts()
    ensures Facts(Part07)
  {
  }

  lemma Part08Facts()
    ensures Facts(Part08)
  {
  }

  lemma Part09Facts()
    ensures Facts(Part09)
  {
  }

  lemma Part10Facts()
    ensures Facts(Part10)
  {
  }

  lemma Part11Facts()
    ensures Facts(Part11)
  {
  }

  lemma Part12Facts()
    ensures Facts(Part12)
  {
  }

  lemma Part13Facts()
    ensures Facts(Part13)
  {
  }

  lemma Part14Facts()
    ensures Facts(Part14)
  {
  }

  lemma Part15Facts()
    ensures Facts(Part15)
  {
  }

  lemma Part16Facts()
    ensures Facts(Part16)
  {
  }

  lemma Part17Facts()
    ensures Facts(Part17)
  {
  }

  lemma Part18Facts()
    ensures Facts(Part18)
  {
  }

  lemma Part19Facts()
    ensures Facts(Part19)
  {
  }

  lemma Part20Facts()
    ensures Facts(Part20)
  {
  }

  lemma Part21Facts()
    ensures Facts(Part21)
  {
  }

  lemma Part22Facts()
    ensures Facts(Part22)
  {
  }

  lemma Part23Facts()
    ensures Facts(Part23)
  {
  }

  lemma Part24Facts()
    ensures Facts(Part24)
  {
  }

  lemma Part25Facts()
    ensures Facts(Part25)
  {
  }

  lemma Part26Facts()
    ensures Facts(Part26)
  {
  }

  lemma Part27Facts()
    ensures Facts(Part27)
  {
  }

  lemma Part28Facts()
    ensures Facts(Part28)
  {
  }

  lemma Part29Facts()
    ensures Facts(Part29)
  {
  }

  lemma Part30Facts()
    ensures Facts(Part30)
  {
  }

  lemma Part31Facts()
    ensures Facts(Part31)
  {
  }

  lemma Part32Facts()
    ensures Facts(Part32)
  {
  }

  lemma Part33Facts()
    ensures Facts(Part33)
  {
  }

  lemma Part34Facts()
    ensures Facts(Part34)
  {
  }

  lemma Part35Facts()
    ensures Facts(Part35)
  {
  }

  lemma Part36Facts()
    ensures Facts(Part36)
  {
  }

  lemma Part37Facts()
    ensures Facts(Part37)
  {
  }

  lemma Part38Facts()
    ensures Facts(Part38)
  {
  }

  lemma Part39Facts()
    ensures Facts(Part39)
  {
  }

  lemma Part40Facts()
    ensures Facts(Part40)
  {
  }

  lemma Part41Facts()
    ensures Facts(Part41)
  {
  }

  lemma Part42Facts()
    ensures Facts(Part42)
  {
  }

  lemma Part43Facts()
    ensures Facts(Part43)
  {
  }

  lemma Part44Facts()
    ensures Facts(Part44)
  {
  }

  lemma Part45Facts()
    ensures Facts(Part45)
  {
  }

  lemma Part46Facts()
    ensures Facts(Part46)
  {
  }

  lemma Part47Facts()
    ensures Facts(Part47)
  {
  }

  lemma Part48Facts()
    ensures Facts(Part48)
  {
  }

  lemma Part49Facts()
    ensures Facts(Part49)
  {
  }

  lemma Part50Facts()
    ensures Facts(Part50)
  {
  }

  lemma Part51Facts()
    ensures Facts(Part51)
  {
  }

  lemma Part52Facts()
    ensures Facts(Part52)
  {
  }

  lemma Part53Facts()
    ensures Facts(Part53)
  {
  }

  lemma Part54Facts()
    ensures Facts(Part54)
  {
  }

  lemma Part55Facts()
    ensures Facts(Part55)
  {
  }

  lemma Part56Facts()
    ensures Facts(Part56)
  {
  }

  lemma Part57Facts()
    ensures Facts(Part57)
  {
  }

  lemma Part58Facts()
    ensures Facts(Part58)
  {
  }

  lemma InsertsFacts()
    ensures Facts(Inserts)
  {
    Part00Facts();
    Part01Facts();
    Part02Facts();
    Part03Facts();
    Part04Facts();
    Part05Facts();
    Part06Facts();
    Part07Facts();
    Part08Facts();
    Part09Facts();
    Part10Facts();
    Part11Facts();
    Part12Facts();
    Part13Facts();
    Part14Facts();
    Part15Facts();
    Part16Facts();
    Part17Facts();
    Part18Facts();
    Part19Facts();
    Part20Facts();
    Part21Facts();
    Part22Facts();
    Part23Facts();
    Part24Facts();
    Part25Facts();
    Part26Facts();
    Part27Facts();
    Part28Facts();
    Part29Facts();
    Part30Facts();
    Part31Facts();
    Part32Facts();
    Part33Facts();
    Part34Facts();
    Part35Facts();
    Part36Facts();
    Part37Facts();
    Part38Facts();
    Part39Facts();
    Part40Facts();
    Part41Facts();
    Part42Facts();
    Part43Facts();
    Part44Facts();
    Part45Facts();
    Part46Facts();
    Part47Facts();
    Part48Facts();
    Part49Facts();
    Part50Facts();
    Part51Facts();
    Part52Facts();
    Part53Facts();
    Part54Facts();
    Part55Facts();
    Part56Facts();
    Part57Facts();
    Part58Facts();
  }

  /** A key inserted with only one value maps to that value. */
  lemma BuildLookup(ins: seq<(string, string)>, k: string, v: string)
    requires (k, v) in ins
    requires forall e | e in ins && e.0 == k :: e.1 == v
    ensures k in Build(ins) && Build(ins)[k] == v
  {
    var m := Build(ins);
    assert k in m;
    assert (k, m[k]) in ins;
  }

  /** The entries behind the library's `red`, `orange` and `mediumspringgreen` examples. */
  lemma TableLookups()
    ensures "orange" in Table && Table["orange"] == "#ffa500"
    ensures "mediumspringgreen" in Table && Table["mediumspringgreen"] == "#00fa9a"
    ensures "red" in Table && Table["red"] == "#ff0000"
  {
    InsertsFacts();
    assert ("red", "#ff0000") in Part49;
    BuildLookup(Inserts, "red", "#ff0000");
    assert ("orange", "#ffa500") in Part43;
    BuildLookup(Inserts, "orange", "#ffa500");
    assert ("mediumspringgreen", "#00fa9a") in Part38;
    BuildLookup(Inserts, "mediumspringgreen", "#00fa9a");
  }

  /** `aqua` and `cyan` are both `#00ffff`. */
  lemma TableAquaCyan()
    ensures "aqua" in Table && "cyan" in Table && Table["aqua"] == Table["cyan"] == "#00ffff"
  {
    InsertsFacts();
    assert ("aqua", "#00ffff") in Part00;
    BuildLookup(Inserts, "aqua", "#00ffff");
    assert ("cyan", "#00ffff") in Part06;
    BuildLookup(Inserts, "cyan", "#00ffff");
  }

  /** `fuchsia` and `magenta` are both `#ff00ff`. */
  lemma TableFuchsiaMagenta()
    ensures "fuchsia" in Table && "magenta" in Table && Table["fuchsia"] == Table["magenta"] == "#ff00ff"
  {
    InsertsFacts();
    assert ("fuchsia", "#ff00ff") in Part17;
    BuildLookup(Inserts, "fuchsia", "#ff00ff");
    assert ("magenta", "#ff00ff") in Part33;
    BuildLookup(Inserts, "magenta", "#ff00ff");
  }

  /** `gray` and `grey` are both `#808080`. */
  lemma TableGrayGrey()
    ensures "gray" in Table && "grey" in Table && Table["gray"] == Table["grey"] == "#808080"
  {
    InsertsFacts();
    assert ("gray", "#808080") in Part19;
    BuildLookup(Inserts, "gray", "#808080");
    assert ("grey", "#808080") in Part20;
    BuildLookup(Inserts, "grey", "#808080");
  }

  /** Names that are not keys: the lookup is exact and case-sensitive. */
  lemma TableMisses()
    ensures "invalid" !in Table && "bread" !in Table && "" !in Table && "Red" !in Table
  {
    InsertsFacts();
    TableShape();
    assert !IsColorName("Red") by {
      assert !IsNameChar("Red"[0]);
    }
  }

  /** No name has the code `#abcdef`, and only `mediumspringgreen` has `#00fa9a`. */
  lemma TableReverseFacts()
    ensures forall k | k in Table :: Table[k] != "#abcdef"
    ensures forall k | k in Table && Table[k] == "#00fa9a" :: k == "mediumspringgreen"
  {
    InsertsFacts();
    forall k | k in Table
      ensures Table[k] != "#abcdef" && (Table[k] == "#00fa9a" ==> k == "mediumspringgreen")
    {
      assert EntryFacts((k, Table[k]));
    }
  }

  /** Looking a colour up by code is not a function: distinct names share a value. */
  lemma TableNotInjective()
    ensures exists k1, k2 | k1 in Table && k2 in Table :: k1 != k2 && Table[k1] == Table[k2]
  {
    TableAquaCyan();
    assert "aqua" != "cyan";
  }
}
