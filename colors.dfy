/** Colour-index resolution of the PDF viewer (`colorIdxToHex`): a reverse
    lookup of a colour index among the values of the document's
    `color_dict`, whose keys are the colours as decimal integers. */
module Colors {
  import opened JsValues
  import opened Hex

  /** The entries of `color_dict` in the order `Object.entries` yields them:
      (colour as an integer, the colour index it is stored under). */
  type ColorEntries = seq<(nat, Value)>

  const DefaultColor: string := "#000"

  /** The CSS colour written for a colour key: `"#"` and the key in
      hexadecimal, left-padded with zeros to six digits. */
  function HexColor(key: nat): string
  {
    "#" + PadStart(ToHex(key), 6, '0')
  }

  /** The first entry, in enumeration order, whose stored index is
      strictly equal to `clrIdx`; the default black when there is none. */
  function FirstMatchColor(entries: ColorEntries, clrIdx: Value): (hex: string)
    ensures hex == DefaultColor ||
      exists i :: Matches(entries, clrIdx, i) && hex == HexColor(entries[i].0)
  {
    if entries == [] then DefaultColor
    else if StrictEquals(entries[0].1, clrIdx) then HexColor(entries[0].0)
    else FirstMatchColor(entries[1..], clrIdx)
  }

  /** What `colorIdxToHex` returns; `None` stands for a falsy or absent
      `color_dict`. A truthy `color_dict` that is not an object stands for
      the entries `Object.entries` gives it: a string's characters under
      their positions, none for a number or a boolean. */
  function ColorOf(colorDict: Option<ColorEntries>, clrIdx: Value): (hex: string)
    ensures colorDict.None? ==> hex == DefaultColor
    ensures colorDict.Some? ==>
      (hex == DefaultColor ||
       exists i :: Matches(colorDict.value, clrIdx, i) && hex == HexColor(colorDict.value[i].0))
  {
    match colorDict
    case None => DefaultColor
    case Some(entries) => FirstMatchColor(entries, clrIdx)
  }

  /** The loop of `colorIdxToHex` with its early return. */
  method ColorIdxToHex(colorDict: Option<ColorEntries>, clrIdx: Value) returns (hex: string)
    ensures hex == ColorOf(colorDict, clrIdx)
  {
    if colorDict.None? {
      return DefaultColor;
    }
    var entries := colorDict.value;
    var i := 0;
    while i < |entries|
      invariant 0 <= i <= |entries|
      invariant FirstMatchColor(entries, clrIdx) == FirstMatchColor(entries[i..], clrIdx)
    {
      var (colorInt, idx) := entries[i];
      if StrictEquals(idx, clrIdx) {
        return HexColor(colorInt);
      }
      assert entries[i..][1..] == entries[i + 1..];
      i := i + 1;
    }
    return DefaultColor;
  }

  predicate Matches(entries: ColorEntries, clrIdx: Value, i: int)
  {
    0 <= i < |entries| && StrictEquals(entries[i].1, clrIdx)
  }

  /** The colour is that of the first matching entry. */
  lemma {:induction false} FirstMatchWins(entries: ColorEntries, clrIdx: Value, i: nat)
    requires Matches(entries, clrIdx, i)
    requires forall j :: 0 <= j < i ==> !Matches(entries, clrIdx, j)
    ensures ColorOf(Some(entries), clrIdx) == HexColor(entries[i].0)
    decreases i
  {
    if i > 0 {
      assert !Matches(entries, clrIdx, 0);
      var tail := entries[1..];
      forall j | 0 <= j < i - 1 ensures !Matches(tail, clrIdx, j) {
        assert !Matches(entries, clrIdx, j + 1);
      }
      FirstMatchWins(tail, clrIdx, i - 1);
    }
  }

  /** Black exactly when the dictionary is absent or no entry matches.
      (A colour found in the dictionary is never `"#000"`: it has at least
      six hex digits.) */
  lemma {:induction false} DefaultExactlyWhenNoMatch(colorDict: Option<ColorEntries>, clrIdx: Value)
    ensures ColorOf(colorDict, clrIdx) == DefaultColor <==>
      (colorDict.None? || forall j :: 0 <= j < |colorDict.value| ==> !Matches(colorDict.value, clrIdx, j))
  {
    if colorDict.Some? {
      var entries := colorDict.value;
      if exists j :: Matches(entries, clrIdx, j) {
        var i := FirstMatch(entries, clrIdx);
        FirstMatchWins(entries, clrIdx, i);
        HexColorShape(entries[i].0);
      } else {
        NoMatchIsDefault(entries, clrIdx);
      }
    }
  }

  lemma {:induction false} NoMatchIsDefault(entries: ColorEntries, clrIdx: Value)
    requires forall j :: 0 <= j < |entries| ==> !Matches(entries, clrIdx, j)
    ensures FirstMatchColor(entries, clrIdx) == DefaultColor
    decreases |entries|
  {
    if entries != [] {
      assert !Matches(entries, clrIdx, 0);
      forall j | 0 <= j < |entries| - 1 ensures !Matches(entries[1..], clrIdx, j) {
        assert !Matches(entries, clrIdx, j + 1);
      }
      NoMatchIsDefault(entries[1..], clrIdx);
    }
  }

  /** Index of the first match (helper for the lemmas above). */
  lemma FirstMatch(entries: ColorEntries, clrIdx: Value) returns (i: nat)
    requires exists j :: Matches(entries, clrIdx, j)
    ensures Matches(entries, clrIdx, i)
    ensures forall j :: 0 <= j < i ==> !Matches(entries, clrIdx, j)
  {
    var k :| Matches(entries, clrIdx, k);
    i := 0;
    while !Matches(entries, clrIdx, i)
      invariant 0 <= i <= k
      invariant forall j :: 0 <= j < i ==> !Matches(entries, clrIdx, j)
      decreases k - i
    {
      i := i + 1;
    }
  }

  /** `Object.entries` lists integer keys in ascending order; under that
      order the first match is the smallest key stored under the index. */
  lemma SmallestMatchingKey(entries: ColorEntries, clrIdx: Value, i: nat)
    requires forall a, b :: 0 <= a < b < |entries| ==> entries[a].0 < entries[b].0
    requires Matches(entries, clrIdx, i)
    requires forall j :: 0 <= j < i ==> !Matches(entries, clrIdx, j)
    ensures ColorOf(Some(entries), clrIdx) == HexColor(entries[i].0)
    ensures forall j :: Matches(entries, clrIdx, j) ==> entries[i].0 <= entries[j].0
  {
    FirstMatchWins(entries, clrIdx, i);
  }

  /** Every colour written has `"#"` and at least six hex digits; a key below
      2^24 gives exactly seven characters whose digits decode to the key. */
  lemma HexColorShape(key: nat)
    ensures |HexColor(key)| >= 7 && HexColor(key)[0] == '#'
    ensures AllHex(HexColor(key)[1..])
    ensures key < 0x100_0000 ==> |HexColor(key)| == 7 && HexValue(HexColor(key)[1..]) == key
  {
    var h := ToHex(key);
    assert HexColor(key)[1..] == PadStart(h, 6, '0');
    PaddedDigits(h);
    if key < 0x100_0000 {
      SixDigitsSuffice(key);
      HexValueOfToHex(key);
    }
  }

  /** Zero-padding to six digits keeps a string of hex digits and its value. */
  lemma PaddedDigits(h: string)
    requires AllHex(h)
    ensures AllHex(PadStart(h, 6, '0'))
    ensures HexValue(PadStart(h, 6, '0')) == HexValue(h)
  {
    if |h| < 6 {
      assert PadStart(h, 6, '0') == seq(6 - |h|, _ => '0') + h;
      HexValueLeadingZeros(6 - |h|, h);
    }
  }

  lemma SixDigitsSuffice(key: nat)
    requires key < 0x100_0000
    ensures |ToHex(key)| <= 6
  {
    assert Power16(6) == 0x100_0000;
    ToHexLength(key, 6);
  }
}
