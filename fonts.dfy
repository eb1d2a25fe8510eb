/** Font-name parsing of the PDF viewer (`parsePdfFontName`): the family is
    the first `-`/`_`-separated part of a PDF font name, and weight and slant
    are inferred from keywords in the parts. */
module Fonts {

  datatype Weight = NormalWeight | Bold
  datatype Slant = NormalSlant | Italic

  datatype ParsedFont = ParsedFont(fontFamily: string, fontWeight: Weight, fontStyle: Slant)

  const FallbackFamily: string := "sans-serif"

  /** The separators of the split pattern `/[-_]/`. */
  predicate IsSeparator(c: char)
  {
    c == '-' || c == '_'
  }

  predicate NoSeparator(s: string)
  {
    forall i :: 0 <= i < |s| ==> !IsSeparator(s[i])
  }

  /** `s.split(/[-_]/)`: the first part is the text before the first
      separator; `SplitStructure` gives the parts after it. */
  function Split(s: string): (parts: seq<string>)
    ensures |parts| >= 1
    ensures parts[0] <= s && NoSeparator(parts[0])
    ensures |parts[0]| < |s| ==> IsSeparator(s[|parts[0]|])
    ensures forall i :: 0 <= i < |parts| ==> NoSeparator(parts[i])
  {
    if s == [] then [[]]
    else
      var rest := Split(s[1..]);
      if IsSeparator(s[0]) then [[]] + rest
      else [[s[0]] + rest[0]] + rest[1..]
  }

  /** The parts are the text before the first separator followed by the
      parts of the text after it; a string without separators is its own
      single part. */
  lemma {:induction false} SplitStructure(s: string)
    ensures var p := Split(s)[0];
      && (|p| == |s| ==> Split(s) == [s])
      && (|p| < |s| ==> Split(s) == [p] + Split(s[|p| + 1..]))
    decreases |s|
  {
    if s != [] {
      SplitStructure(s[1..]);
      if !IsSeparator(s[0]) {
        var q := Split(s[1..])[0];
        assert s == [s[0]] + s[1..];
        if |q| < |s| - 1 {
          assert s[1..][|q| + 1..] == s[|q| + 2..];
        }
      }
    }
  }

  /** `toLowerCase` on ASCII letters. */
  function LowerChar(c: char): char
  {
    if 'A' <= c <= 'Z' then (c as int + 32) as char else c
  }

  function Lower(s: string): (r: string)
    ensures |r| == |s|
  {
    if s == [] then [] else [LowerChar(s[0])] + Lower(s[1..])
  }

  predicate StartsWith(s: string, prefix: string)
  {
    |prefix| <= |s| && s[..|prefix|] == prefix
  }

  /** `s.includes(word)`. */
  predicate Contains(s: string, word: string)
    decreases |s|
  {
    StartsWith(s, word) || (|s| > 0 && Contains(s[1..], word))
  }

  predicate HasBoldKeyword(s: string)
  {
    Contains(s, "bold")
  }

  predicate HasItalicKeyword(s: string)
  {
    Contains(s, "oblique") || Contains(s, "italic")
  }

  /** What `parsePdfFontName` computes, stated on the whole name: bold when
      the lower-cased name contains "bold", italic when it contains
      "oblique" or "italic". */
  function FontFromName(name: string): (font: ParsedFont)
    ensures font.fontFamily != ""
    ensures font.fontFamily == FallbackFamily || (font.fontFamily <= name && NoSeparator(font.fontFamily))
  {
    var first := Split(name)[0];
    ParsedFont(
      if first != "" then first else FallbackFamily,
      if HasBoldKeyword(Lower(name)) then Bold else NormalWeight,
      if HasItalicKeyword(Lower(name)) then Italic else NormalSlant)
  }

  /** `parsePdfFontName`: split, then let every part switch weight and slant
      on. */
  method ParsePdfFontName(pdfFontName: string) returns (font: ParsedFont)
    ensures font == FontFromName(pdfFontName)
  {
    var parts := Split(pdfFontName);
    var fontFamily := if parts[0] != "" then parts[0] else FallbackFamily;
    var fontWeight := NormalWeight;
    var fontStyle := NormalSlant;
    var i := 0;
    while i < |parts|
      invariant 0 <= i <= |parts|
      invariant fontWeight == Bold <==> KeywordBefore(parts, i, "bold")
      invariant fontStyle == Italic <==>
        KeywordBefore(parts, i, "oblique") || KeywordBefore(parts, i, "italic")
    {
      var lower := Lower(parts[i]);
      KeywordBeforeStep(parts, i, "bold");
      KeywordBeforeStep(parts, i, "oblique");
      KeywordBeforeStep(parts, i, "italic");
      if HasBoldKeyword(lower) {
        fontWeight := Bold;
      }
      if HasItalicKeyword(lower) {
        fontStyle := Italic;
      }
      i := i + 1;
    }
    font := ParsedFont(fontFamily, fontWeight, fontStyle);
    PartFlagsAreNameFlags(pdfFontName, fontWeight, fontStyle);
  }

  /** Flags collected over all parts are the flags of the whole name. */
  lemma PartFlagsAreNameFlags(name: string, weight: Weight, slant: Slant)
    requires weight == Bold <==> KeywordBefore(Split(name), |Split(name)|, "bold")
    requires slant == Italic <==>
      KeywordBefore(Split(name), |Split(name)|, "oblique") || KeywordBefore(Split(name), |Split(name)|, "italic")
    ensures weight == FontFromName(name).fontWeight && slant == FontFromName(name).fontStyle
  {
    KeywordInLoweredParts(name, "bold");
    KeywordInLoweredParts(name, "oblique");
    KeywordInLoweredParts(name, "italic");
  }

  /** One of the first `i` parts contains `word` once lower-cased. */
  predicate KeywordBefore(parts: seq<string>, i: int, word: string)
  {
    exists j :: 0 <= j < i && j < |parts| && Contains(Lower(parts[j]), word)
  }

  lemma KeywordBeforeStep(parts: seq<string>, i: nat, word: string)
    requires i < |parts|
    ensures KeywordBefore(parts, i + 1, word) <==>
      KeywordBefore(parts, i, word) || Contains(Lower(parts[i]), word)
  {
  }

  /** Lower-casing commutes with splitting, as no separator is a letter. */
  lemma {:induction false} LowerSplit(s: string)
    ensures |Split(Lower(s))| == |Split(s)|
    ensures forall i :: 0 <= i < |Split(s)| ==> Split(Lower(s))[i] == Lower(Split(s)[i])
    decreases |s|
  {
    if s != [] {
      LowerSplit(s[1..]);
      var rest, lowRest := Split(s[1..]), Split(Lower(s[1..]));
      var c := LowerChar(s[0]);
      assert Lower(s) == [c] + Lower(s[1..]);
      assert Lower(s)[1..] == Lower(s[1..]);
      if IsSeparator(s[0]) {
        assert Split(s) == [[]] + rest;
        assert Split(Lower(s)) == [[]] + lowRest;
      } else {
        LowerCons(s[0], rest[0]);
        assert Split(s) == [[s[0]] + rest[0]] + rest[1..];
        assert Split(Lower(s)) == [[c] + lowRest[0]] + lowRest[1..];
      }
    }
  }

  lemma LowerCons(c: char, t: string)
    ensures Lower([c] + t) == [LowerChar(c)] + Lower(t)
  {
    assert ([c] + t)[1..] == t;
  }

  /** `word` occurs in one of `parts`. */
  predicate InSomePart(parts: seq<string>, word: string)
  {
    exists i :: 0 <= i < |parts| && Contains(parts[i], word)
  }

  /** A keyword without separators occurs in a string exactly when it occurs
      in one of the string's parts. */
  lemma {:induction false} KeywordInSomePart(s: string, word: string)
    requires |word| > 0 && NoSeparator(word)
    ensures Contains(s, word) <==> InSomePart(Split(s), word)
    decreases |s|
  {
    if s == [] {
      assert Split(s) == [[]];
      assert !Contains(Split(s)[0], word);
    } else {
      KeywordInSomePart(s[1..], word);
      if IsSeparator(s[0]) {
        KeywordAfterSeparator(s, word);
      } else {
        KeywordInFirstPart(s, word);
      }
    }
  }

  lemma InSomePartCons(p: string, ps: seq<string>, word: string)
    ensures InSomePart([p] + ps, word) <==> Contains(p, word) || InSomePart(ps, word)
  {
    var qs := [p] + ps;
    assert qs[0] == p;
    if InSomePart(ps, word) {
      var j :| 0 <= j < |ps| && Contains(ps[j], word);
      assert qs[j + 1] == ps[j];
    }
    if InSomePart(qs, word) {
      var i :| 0 <= i < |qs| && Contains(qs[i], word);
      if i > 0 { assert qs[i] == ps[i - 1]; }
    }
  }

  /** Induction step of `KeywordInSomePart` for a string that starts with a
      separator: its parts are an empty part and the parts of the rest. */
  lemma KeywordAfterSeparator(s: string, word: string)
    requires |word| > 0 && NoSeparator(word)
    requires s != [] && IsSeparator(s[0])
    requires Contains(s[1..], word) <==> InSomePart(Split(s[1..]), word)
    ensures Contains(s, word) <==> InSomePart(Split(s), word)
  {
    assert !IsSeparator(word[0]);
    assert !StartsWith(s, word);
    assert !Contains([], word);
    assert Split(s) == [[]] + Split(s[1..]);
    InSomePartCons([], Split(s[1..]), word);
  }

  /** Induction step of `KeywordInSomePart` for a string that starts with a
      non-separator: its first character joins the first part of the rest. */
  lemma KeywordInFirstPart(s: string, word: string)
    requires |word| > 0 && NoSeparator(word)
    requires s != [] && !IsSeparator(s[0])
    requires Contains(s[1..], word) <==> InSomePart(Split(s[1..]), word)
    ensures Contains(s, word) <==> InSomePart(Split(s), word)
  {
    var rest := Split(s[1..]);
    var head := [s[0]] + rest[0];
    assert Split(s) == [head] + rest[1..];
    assert rest == [rest[0]] + rest[1..];
    assert head[1..] == rest[0];
    PrefixWithinFirstPart(s, word);
    assert Contains(head, word) <==> StartsWith(head, word) || Contains(rest[0], word);
    InSomePartCons(head, rest[1..], word);
    InSomePartCons(rest[0], rest[1..], word);
  }

  /** The keyword test run part by part on lower-cased parts equals the test
      on the lower-cased whole name. */
  lemma KeywordInLoweredParts(name: string, word: string)
    requires |word| > 0 && NoSeparator(word)
    ensures Contains(Lower(name), word) <==> KeywordBefore(Split(name), |Split(name)|, word)
  {
    LowerSplit(name);
    KeywordInSomePart(Lower(name), word);
    var parts, lowered := Split(name), Split(Lower(name));
    if InSomePart(lowered, word) {
      var j :| 0 <= j < |lowered| && Contains(lowered[j], word);
      assert lowered[j] == Lower(parts[j]);
    }
    if KeywordBefore(parts, |parts|, word) {
      var j :| 0 <= j < |parts| && Contains(Lower(parts[j]), word);
      assert lowered[j] == Lower(parts[j]);
    }
  }

  /** A separator-free word starts a string exactly when it starts the
      string's first part. */
  lemma {:induction false} PrefixWithinFirstPart(s: string, word: string)
    requires NoSeparator(word)
    ensures StartsWith(s, word) <==> StartsWith(Split(s)[0], word)
    decreases |s|
  {
    if s != [] && word != [] {
      var first := Split(s)[0];
      if IsSeparator(s[0]) {
        assert first == [];
        assert word[0] != s[0];
      } else {
        var rest := Split(s[1..]);
        assert first == [s[0]] + rest[0];
        PrefixWithinFirstPart(s[1..], word[1..]);
        assert StartsWith(s, word) <==> s[0] == word[0] && StartsWith(s[1..], word[1..]) by {
          if |word| <= |s| {
            assert s[..|word|] == [s[0]] + s[1..][..|word| - 1];
            assert word == [word[0]] + word[1..];
          }
        }
        assert StartsWith(first, word) <==> first[0] == word[0] && StartsWith(rest[0], word[1..]) by {
          if |word| <= |first| {
            assert first[..|word|] == [first[0]] + rest[0][..|word| - 1];
            assert word == [word[0]] + word[1..];
          }
        }
      }
    }
  }

  /** The family is never empty: the text before the first separator, or
      "sans-serif" when that text is empty. */
  lemma FamilyOfName(name: string)
    ensures FontFromName(name).fontFamily != ""
    ensures var f := FontFromName(name).fontFamily;
      if name == [] || IsSeparator(name[0]) then f == FallbackFamily
      else f <= name && NoSeparator(f) && (|f| == |name| || IsSeparator(name[|f|]))
  {
  }
}
