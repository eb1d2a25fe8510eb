/** Style-token resolution of the PDF viewer (`getStyleFromTS`). A run's
    token is an inline tuple `[font, size, bold, italic]` or a number that
    indexes the page's `style_dict` once. */
module Styles {
  import opened JsValues
  import opened Fonts

  /** The CSS `fontSize` written: `Px(p)` is the string `"<p>px"`.
      `CoercedPx(v, k)` is `"<v * k>px"` for a truthy size that is not a
      number or a boolean, whose JS number coercion the model leaves open. */
  datatype FontSize = Px(px: real) | CoercedPx(size: Value, factor: real)

  /** The style object spread into a run's `<span>`. `StyleTypeError` is a
      tuple whose font is truthy but not a string: JS throws a TypeError at
      `.split` and the page fails to render. */
  datatype CssStyle =
    | EmptyStyle
    | FontCss(fontFamily: string, fontSize: FontSize, fontWeight: Weight, fontStyle: Slant)
    | StyleTypeError

  const HelveticaFallback: string := "Helvetica, Arial, sans-serif"
  const DefaultFontSize: real := 16.0

  /** `font || ''` followed by the string the font parser receives; `None`
      when that value is not a string. */
  function FontArgument(font: Value): Option<string>
  {
    if !Truthy(font) then Some("")
    else if font.JStr? then Some(font.s)
    else None
  }

  /** `size ? `${size * DISPLAY_SCALE}px` : "16px"`. */
  function FontSizeOf(size: Value, displayScale: real): FontSize
  {
    if !Truthy(size) then Px(DefaultFontSize)
    else match size
      case JNum(n) => Px(n * displayScale)
      case JBool(_) => Px(displayScale)
      case _ => CoercedPx(size, displayScale)
  }

  /** `page.style_dict[tsArr]`: a non-negative integer below the length
      selects an element; any other number reads a missing property. */
  predicate IsIndexOf(items: seq<Value>, n: real)
  {
    n == n.Floor as real && 0 <= n.Floor < |items|
  }

  function IndexInto(items: seq<Value>, n: real): Value
  {
    if IsIndexOf(items, n) then items[n.Floor] else JUndefined
  }

  /** The style tuple after the one substitution `getStyleFromTS` makes. */
  function Substituted(token: Value, styleDict: Value): Value
  {
    if token.JNum? && styleDict.JArr? then IndexInto(styleDict.items, token.n) else token
  }

  /** Style of an already-substituted tuple. */
  function StyleOfTuple(style: Value, displayScale: real): CssStyle
  {
    if !(style.JArr? && |style.items| >= 4) then EmptyStyle
    else
      var font, size, bold, italic := style.items[0], style.items[1], style.items[2], style.items[3];
      match FontArgument(font)
      case None => StyleTypeError
      case Some(name) =>
        var parsed := FontFromName(name);
        FontCss(
          if parsed.fontFamily != "" then parsed.fontFamily else HelveticaFallback,
          FontSizeOf(size, displayScale),
          if StrictEquals(bold, JNum(1.0)) then Bold else parsed.fontWeight,
          if StrictEquals(italic, JNum(1.0)) then Italic else parsed.fontStyle)
  }

  /** `getStyleFromTS(tsArr, page)`, with the page's `style_dict` and the
      current DISPLAY_SCALE. */
  function StyleFromToken(token: Value, styleDict: Value, displayScale: real): (r: CssStyle)
    ensures r.EmptyStyle? <==> !IsTuple(Substituted(token, styleDict))
    ensures r.StyleTypeError? <==>
      IsTuple(Substituted(token, styleDict)) && FontArgument(Substituted(token, styleDict).items[0]).None?
  {
    StyleOfTuple(Substituted(token, styleDict), displayScale)
  }

  predicate IsTuple(v: Value)
  {
    v.JArr? && |v.items| >= 4
  }

  /** Explicit flags of exactly 1 force bold and italic whatever the font name
      says; any other flag leaves the name-derived value. */
  lemma FlagsOverrideName(token: Value, styleDict: Value, displayScale: real)
    requires IsTuple(Substituted(token, styleDict))
    requires FontArgument(Substituted(token, styleDict).items[0]).Some?
    ensures var t := Substituted(token, styleDict).items;
      var name := FontArgument(t[0]).value;
      var r := StyleFromToken(token, styleDict, displayScale);
      && r.FontCss?
      && (StrictEquals(t[2], JNum(1.0)) ==> r.fontWeight == Bold)
      && (!StrictEquals(t[2], JNum(1.0)) ==>
            (r.fontWeight == Bold <==> HasBoldKeyword(Lower(name))))
      && (StrictEquals(t[3], JNum(1.0)) ==> r.fontStyle == Italic)
      && (!StrictEquals(t[3], JNum(1.0)) ==>
            (r.fontStyle == Italic <==> HasItalicKeyword(Lower(name))))
  {
  }

  /** The "Helvetica, Arial, sans-serif" fallback is never taken: the family
      written is always the parsed family, which is never empty. */
  lemma HelveticaFallbackUnreachable(token: Value, styleDict: Value, displayScale: real)
    ensures var r := StyleFromToken(token, styleDict, displayScale);
      r.FontCss? ==>
        var name := FontArgument(Substituted(token, styleDict).items[0]).value;
        r.fontFamily == FontFromName(name).fontFamily && r.fontFamily != ""
  {
    var style := Substituted(token, styleDict);
    if IsTuple(style) && FontArgument(style.items[0]).Some? {
      FamilyOfName(FontArgument(style.items[0]).value);
    }
  }

  /** The font size is the scaled size when the size is a truthy number,
      and 16px when it is falsy. */
  lemma FontSizeRule(token: Value, styleDict: Value, displayScale: real)
    requires IsTuple(Substituted(token, styleDict))
    requires FontArgument(Substituted(token, styleDict).items[0]).Some?
    ensures var size := Substituted(token, styleDict).items[1];
      var r := StyleFromToken(token, styleDict, displayScale);
      && r.FontCss?
      && (!Truthy(size) ==> r.fontSize == Px(16.0))
      && (size.JNum? && size.n != 0.0 ==> r.fontSize == Px(size.n * displayScale))
  {
  }

  /** Anything that is not, after substitution, an array of at least four
      elements gives the empty style; in particular an index out of range,
      a non-integer index and an index whose entry is itself a number (no
      chained lookup). */
  lemma NonTupleIsEmpty(token: Value, styleDict: Value, displayScale: real)
    ensures !IsTuple(Substituted(token, styleDict)) ==>
      StyleFromToken(token, styleDict, displayScale) == EmptyStyle
    ensures token.JNum? && styleDict.JArr? && !IsIndexOf(styleDict.items, token.n) ==>
      StyleFromToken(token, styleDict, displayScale) == EmptyStyle
    ensures token.JNum? && !styleDict.JArr? ==>
      StyleFromToken(token, styleDict, displayScale) == EmptyStyle
    ensures (token.JNum? && styleDict.JArr? && IsIndexOf(styleDict.items, token.n)
             && styleDict.items[token.n.Floor].JNum?) ==>
      StyleFromToken(token, styleDict, displayScale) == EmptyStyle
  {
  }

  /** A numeric token within the table resolves exactly as the table entry
      written inline, provided the entry is not itself a number; lookup
      happens once and never recurses. */
  lemma IndexedEqualsInline(n: real, styleDict: Value, displayScale: real)
    requires styleDict.JArr? && IsIndexOf(styleDict.items, n)
    requires !styleDict.items[n.Floor].JNum?
    ensures StyleFromToken(JNum(n), styleDict, displayScale)
         == StyleFromToken(styleDict.items[n.Floor], styleDict, displayScale)
  {
  }

  /** An inline tuple is used as it is, whatever the table holds. */
  lemma InlineIgnoresTable(token: Value, styleDict: Value, other: Value, displayScale: real)
    requires token.JArr?
    ensures StyleFromToken(token, styleDict, displayScale) == StyleFromToken(token, other, displayScale)
  {
  }
}
