/**
 * Normalising the tags of the first Overpass element into building metadata
 * (api/src/index.ts:73-77).
 */
module BuildingTags {
  import opened Wrappers
  import JsParseInt

  /** The free-form `tags` object of an OpenStreetMap element. */
  type Tags = map<string, string>

  /** One element of the Overpass reply; `tags` may be absent. */
  datatype Element = Element(tags: Option<Tags>)

  /** The metadata the resolver derives: `{floor_count, is_office}`. */
  datatype Building = Building(floorCount: int, isOffice: bool)

  const LevelsKey: string := "building:levels"
  const BuildingKey: string := "building"
  const DefaultFloors: int := 5

  /** `data.elements[0]?.tags || {}` (api/src/index.ts:73). */
  function FirstTags(elements: seq<Element>): (t: Tags)
    ensures |elements| > 0 && elements[0].tags.Some? ==> t == elements[0].tags.value
    ensures t != map[] ==> |elements| > 0 && elements[0].tags == Some(t)
  {
    if |elements| == 0 then map[]
    else match elements[0].tags
      case None => map[]
      case Some(t) => t
  }

  /**
   * `parseInt(tags["building:levels"]) || 5` (api/src/index.ts:75): a missing
   * tag is `undefined`, which parseInt reads as the string "undefined"; NaN
   * and 0 are falsy and give 5, every other number is kept, negative ones too.
   */
  function FloorCount(tags: Tags): (n: int)
    ensures n != 0
  {
    var raw := if LevelsKey in tags then tags[LevelsKey] else "undefined";
    match JsParseInt.ParseInt(raw)
    case None => DefaultFloors
    case Some(v) => if v == 0 then DefaultFloors else v
  }

  /** ASCII lower case; every other character is left as it is. */
  function LowerChar(c: char): char {
    if 'A' <= c <= 'Z' then (c as int - 'A' as int + 'a' as int) as char else c
  }

  function Lower(s: string): (r: string)
    ensures |r| == |s|
    ensures forall i :: 0 <= i < |s| ==> r[i] == LowerChar(s[i])
  {
    seq(|s|, i requires 0 <= i < |s| => LowerChar(s[i]))
  }

  /** Whether `pat` occurs in `text`, searched from the left. */
  predicate Contains(text: string, pat: string)
    decreases |text|
  {
    if |pat| > |text| then false
    else text[..|pat|] == pat || (text != [] && Contains(text[1..], pat))
  }

  /**
   * `/(office|commercial)/i.test(value)` (api/src/index.ts:76). Without the `u`
   * flag a case-insensitive match never relates a non-ASCII character to an
   * ASCII one (the Canonicalize operation of ECMA-262, section 22.2.2.7.3), so
   * for these two all-ASCII words it is exactly an ASCII lower-case comparison.
   */
  predicate OfficePattern(value: string) {
    Contains(Lower(value), "office") || Contains(Lower(value), "commercial")
  }

  /** `tags["building"] || ""` tested against the pattern. */
  predicate IsOffice(tags: Tags) {
    OfficePattern(if BuildingKey in tags then tags[BuildingKey] else "")
  }

  function Normalise(tags: Tags): (b: Building)
    ensures b.floorCount != 0
  {
    Building(FloorCount(tags), IsOffice(tags))
  }

  /** The metadata taken from an Overpass reply: that of its first element's tags. */
  function FromElements(elements: seq<Element>): (b: Building)
    ensures b.floorCount != 0
  {
    Normalise(FirstTags(elements))
  }

  // ---- the substring search ----

  /** `pat` occurs in `text` starting at position `i`. */
  predicate OccursAt(text: string, pat: string, i: int) {
    0 <= i && i + |pat| <= |text| && text[i..i + |pat|] == pat
  }

  /** The search finds `pat` exactly when it occurs at some position of `text`. */
  lemma {:induction false} ContainsIff(text: string, pat: string)
    ensures Contains(text, pat) <==> exists i :: OccursAt(text, pat, i)
    decreases |text|
  {
    if |pat| <= |text| && text[..|pat|] != pat && text != [] {
      ContainsIff(text[1..], pat);
      if Contains(text, pat) {
        var j :| OccursAt(text[1..], pat, j);
        assert text[j + 1..j + 1 + |pat|] == text[1..][j..j + |pat|];
        assert OccursAt(text, pat, j + 1);
      }
      if exists i :: OccursAt(text, pat, i) {
        var i :| OccursAt(text, pat, i);
        assert i != 0 by { assert text[..|pat|] == text[0..|pat|]; }
        assert text[1..][i - 1..i - 1 + |pat|] == text[i..i + |pat|];
        assert OccursAt(text[1..], pat, i - 1);
      }
    } else if |pat| <= |text| && text[..|pat|] == pat {
      assert OccursAt(text, pat, 0);
    }
  }

  lemma LowerSlice(s: string, i: int, j: int)
    requires 0 <= i <= j <= |s|
    ensures Lower(s)[i..j] == Lower(s[i..j])
  {
  }

  /** A case-insensitive occurrence of a word at a position. */
  predicate WordAt(value: string, i: int, word: string) {
    0 <= i && i + |word| <= |value| && Lower(value[i..i + |word|]) == word
  }

  lemma {:induction false} WordAtIff(value: string, i: int, word: string)
    ensures WordAt(value, i, word) <==> OccursAt(Lower(value), word, i)
  {
    if 0 <= i && i + |word| <= |value| {
      LowerSlice(value, i, i + |word|);
    }
  }

  /**
   * The pattern matches exactly when "office" or "commercial" occurs at some
   * position of the value, letters compared without regard to case.
   */
  lemma {:induction false} OfficePatternIff(value: string)
    ensures OfficePattern(value) <==>
      exists i :: WordAt(value, i, "office") || WordAt(value, i, "commercial")
  {
    var low := Lower(value);
    ContainsIff(low, "office");
    ContainsIff(low, "commercial");
    if OfficePattern(value) {
      var i :| OccursAt(low, "office", i) || OccursAt(low, "commercial", i);
      WordAtIff(value, i, "office");
      WordAtIff(value, i, "commercial");
    }
    if exists i :: WordAt(value, i, "office") || WordAt(value, i, "commercial") {
      var i :| WordAt(value, i, "office") || WordAt(value, i, "commercial");
      WordAtIff(value, i, "office");
      WordAtIff(value, i, "commercial");
    }
  }

  /** A word found in a value is found at the shifted position in any text around it. */
  lemma WordAtShift(before: string, value: string, after: string, i: int, word: string)
    requires WordAt(value, i, word)
    ensures WordAt(before + value + after, |before| + i, word)
  {
    var whole := before + value + after;
    assert whole[|before| + i..|before| + i + |word|] == value[i..i + |word|];
  }

  /** A match anywhere in the value survives any text around it. */
  lemma {:induction false} OfficePatternAnywhere(before: string, value: string, after: string)
    requires OfficePattern(value)
    ensures OfficePattern(before + value + after)
  {
    OfficePatternIff(value);
    var i :| WordAt(value, i, "office") || WordAt(value, i, "commercial");
    if WordAt(value, i, "office") {
      WordAtShift(before, value, after, i, "office");
    } else {
      WordAtShift(before, value, after, i, "commercial");
    }
    OfficePatternIff(before + value + after);
  }

  // ---- what the normalisation promises ----

  /**
   * A `building:levels` tag made of white space, an optional sign, decimal
   * digits and text that does not continue them gives the digits' value,
   * negated after `-`, as the floor count, unless that value is 0.
   */
  lemma {:induction false} FloorCountOfDigits(tags: Tags, ws: string, sign: string, ds: string, rest: string)
    requires forall i :: 0 <= i < |ws| ==> JsParseInt.IsStrWhiteSpace(ws[i])
    requires sign == "" || sign == "+" || sign == "-"
    requires ds != [] && forall i :: 0 <= i < |ds| ==> JsParseInt.IsDigit(ds[i], 10)
    requires rest == [] || !JsParseInt.IsDigit(rest[0], 10)
    requires ds == "0" ==> rest == [] || (rest[0] != 'x' && rest[0] != 'X')
    requires LevelsKey in tags && tags[LevelsKey] == ws + sign + ds + rest
    ensures var v: int := JsParseInt.Value(ds, 10);
      FloorCount(tags) == if v == 0 then DefaultFloors else if sign == "-" then -v else v
  {
    JsParseInt.ParseIntOfDigits(ws, sign, ds, rest);
  }

  /**
   * A `building:levels` tag that, after white space and a sign, does not
   * start with a decimal digit is NaN, so the floor count is 5.
   */
  lemma FloorCountNonNumeric(tags: Tags)
    requires LevelsKey in tags
    requires var u := JsParseInt.Unsigned(tags[LevelsKey]); u == [] || !JsParseInt.IsDigit(u[0], 10)
    ensures FloorCount(tags) == DefaultFloors
  {
    JsParseInt.NotANumber(tags[LevelsKey]);
  }

  /** With no `building:levels` tag the floor count is 5. */
  lemma FloorCountMissing(tags: Tags)
    requires LevelsKey !in tags
    ensures FloorCount(tags) == DefaultFloors
  {
    assert JsParseInt.ParseInt("undefined") == None by {
      assert JsParseInt.TrimStart("undefined") == "undefined";
    }
  }

  /** "4 floors" reads as 4 and "3.5" as 3: parseInt stops at the first non-digit. */
  lemma FloorCountExamples()
    ensures FloorCount(map[LevelsKey := "4 floors"]) == 4
    ensures FloorCount(map[LevelsKey := "3.5"]) == 3
  {
    assert JsParseInt.Value("4", 10) == 4;
    assert "4 floors" == "" + "" + "4" + " floors";
    FloorCountOfDigits(map[LevelsKey := "4 floors"], "", "", "4", " floors");
    assert JsParseInt.Value("3", 10) == 3;
    assert "3.5" == "" + "" + "3" + ".5";
    FloorCountOfDigits(map[LevelsKey := "3.5"], "", "", "3", ".5");
  }

  /** A negative level count is kept as it is; a `+` and leading zeros are read over. */
  lemma FloorCountSignedExamples()
    ensures FloorCount(map[LevelsKey := "-2"]) == -2
    ensures FloorCount(map[LevelsKey := " +03"]) == 3
  {
    assert JsParseInt.Value("2", 10) == 2;
    assert "-2" == "" + "-" + "2" + "";
    FloorCountOfDigits(map[LevelsKey := "-2"], "", "-", "2", "");
    assert JsParseInt.Value("03", 10) == 3 by {
      assert "03"[..1] == "0";
    }
    assert " +03" == " " + "+" + "03" + "";
    FloorCountOfDigits(map[LevelsKey := " +03"], " ", "+", "03", "");
  }

  /** "0" falls back to 5, since 0 is falsy. */
  lemma FloorCountZeroExample()
    ensures FloorCount(map[LevelsKey := "0"]) == DefaultFloors
  {
    assert JsParseInt.Value("0", 10) == 0;
    assert "0" == "" + "" + "0" + "";
    FloorCountOfDigits(map[LevelsKey := "0"], "", "", "0", "");
  }

  /** A value with no leading digits is NaN, which falls back to 5. */
  lemma FloorCountWordExample()
    ensures FloorCount(map[LevelsKey := "many"]) == DefaultFloors
  {
    var s := "many";
    assert JsParseInt.TrimStart(s) == s by {
      assert !JsParseInt.IsStrWhiteSpace(s[0]);
    }
    FloorCountNonNumeric(map[LevelsKey := s]);
  }

  /** An empty reply gives the defaults: 5 floors, not an office. */
  lemma NoElements()
    ensures FromElements([]) == Building(DefaultFloors, false)
  {
    FloorCountMissing(map[]);
    assert !OfficePattern("") by {
      assert Lower("") == "";
    }
  }

  /** Only the first element of the reply is consulted. */
  lemma OnlyFirstElement(first: Element, rest: seq<Element>, other: seq<Element>)
    ensures FromElements([first] + rest) == FromElements([first] + other)
  {
  }

  /** Without a `building` tag the building is not an office. */
  lemma NotOfficeWithoutTag(tags: Tags)
    requires BuildingKey !in tags
    ensures !IsOffice(tags)
  {
    assert Lower("") == "";
  }

  lemma OfficeExamples()
    ensures IsOffice(map[BuildingKey := "Commercial"])
    ensures IsOffice(map[BuildingKey := "OFFICE"])
    ensures !IsOffice(map[BuildingKey := "retail"])
  {
    assert WordAt("Commercial", 0, "commercial");
    OfficePatternIff("Commercial");
    assert WordAt("OFFICE", 0, "office");
    OfficePatternIff("OFFICE");
    assert Lower("retail") == "retail";
    assert !Contains("retail", "office") by {
      assert "retail"[..6][0] != "office"[0];
      assert !Contains("retail"[1..], "office");
    }
    assert !Contains("retail", "commercial");
  }
}
