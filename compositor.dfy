/** The page compositor of the PDF viewer: the parsed page record, the
    document-unit to pixel mapping, and the positioned primitives the page
    view renders (`renderExtras`, the text-run map, the image map). */
module Compositor {
  import opened JsValues
  import opened Colors
  import opened Styles

  /** A horizontal or vertical rule of `HLines` / `VLines`: origin, length
      `l`, thickness `w`, colour index, dash flag. */
  datatype Line = Line(x: Number, y: Number, l: Number, w: Number, clr: Value, dsh: Number)

  /** A filled rectangle of `Fills`. */
  datatype Fill = Fill(x: Number, y: Number, w: Number, h: Number, clr: Value)

  /** A run `R[k]` of a text item: its text `T` (shown as it is; an absent
      text is "") and its style token `TS`. */
  datatype Run = Run(t: string, ts: Value)

  /** An entry of `Texts`: position, width, colour index, alignment `A`
      ("" when absent) and runs `R` (`None` when absent or null). */
  datatype TextItem = TextItem(x: Number, y: Number, w: Number, clr: Value, a: string, r: Option<seq<Run>>)

  /** An entry of `images`. */
  datatype Image = Image(ext: string, base64: string, xref: string, width: Number, height: Number)

  /** One page record. For `HLines`, `VLines` and `Fills`, `None` is any
      value that is not an array; for `Texts` and `images`, `None` is an
      absent or null list. */
  datatype Page = Page(
    width: Number, height: Number,
    hLines: Option<seq<Line>>, vLines: Option<seq<Line>>, fills: Option<seq<Fill>>,
    texts: Option<seq<TextItem>>, images: Option<seq<Image>>,
    styleDict: Value)

  /** `currentPage` when `pages[currentPageIndex]` is undefined: every field
      read through `?.` is absent. */
  const AbsentPage: Page := Page(NaN, NaN, None, None, None, None, None, JUndefined)

  const BaseScale: real := 1.5
  const DefaultPageWidth: real := 800.0
  const DefaultPageHeight: real := 1100.0
  const DefaultThickness: real := 2.0
  const RuleOpacity: real := 0.7
  const FillOpacity: real := 0.3
  const ImageMargin: real := 40.0
  const ImageGap: real := 10.0
  const DefaultAlign: string := "left"

  /** `DISPLAY_SCALE = 1.5 * scale`. */
  function DisplayScale(scale: real): real
  {
    BaseScale * scale
  }

  /** `toPx(pt) = pt * DISPLAY_SCALE`. */
  function ToPx(v: Number, displayScale: real): (px: Number)
    ensures px.Num? <==> v.Num?
    ensures v.Num? ==> px.r == v.r * displayScale
  {
    Times(v, Num(displayScale))
  }

  function Listed<T>(list: Option<seq<T>>): seq<T>
  {
    if list.Some? then list.value else []
  }

  /** A rule or fill `<div>`; `index` is the `i` of its React key
      (`hline-i`, `vline-i`, `fill-i`). `dashed` is the dashed bottom border
      of a horizontal rule and the dashed right border of a vertical one. */
  datatype Primitive =
    | HRule(index: nat, left: Number, top: Number, width: Number, height: Number,
            background: string, dashed: bool)
    | VRule(index: nat, left: Number, top: Number, width: Number, height: Number,
            background: string, dashed: bool)
    | FillBox(index: nat, left: Number, top: Number, width: Number, height: Number,
              background: string)

  function Opacity(p: Primitive): real
  {
    if p.FillBox? then FillOpacity else RuleOpacity
  }

  function HRuleOf(i: nat, line: Line, ds: real, colors: Option<ColorEntries>): Primitive
  {
    HRule(i, ToPx(line.x, ds), ToPx(line.y, ds), ToPx(line.l, ds),
          ToPx(OrDefault(line.w, DefaultThickness), ds),
          ColorOf(colors, line.clr), line.dsh == Num(1.0))
  }

  function VRuleOf(i: nat, line: Line, ds: real, colors: Option<ColorEntries>): Primitive
  {
    VRule(i, ToPx(line.x, ds), ToPx(line.y, ds),
          ToPx(OrDefault(line.w, DefaultThickness), ds), ToPx(line.l, ds),
          ColorOf(colors, line.clr), line.dsh == Num(1.0))
  }

  function FillOf(i: nat, fill: Fill, ds: real, colors: Option<ColorEntries>): Primitive
  {
    FillBox(i, ToPx(fill.x, ds), ToPx(fill.y, ds), ToPx(fill.w, ds), ToPx(fill.h, ds),
            ColorOf(colors, fill.clr))
  }

  /** `renderExtras`: the rules, then the vertical rules, then the fills. */
  function RenderExtras(page: Page, ds: real, colors: Option<ColorEntries>): (r: seq<Primitive>)
    ensures var h, v, f := Listed(page.hLines), Listed(page.vLines), Listed(page.fills);
      && |r| == |h| + |v| + |f|
      && (forall i :: 0 <= i < |h| ==> r[i] == HRuleOf(i, h[i], ds, colors))
      && (forall i :: 0 <= i < |v| ==> r[|h| + i] == VRuleOf(i, v[i], ds, colors))
      && (forall i :: 0 <= i < |f| ==> r[|h| + |v| + i] == FillOf(i, f[i], ds, colors))
  {
    var h, v, f := Listed(page.hLines), Listed(page.vLines), Listed(page.fills);
    seq(|h|, i requires 0 <= i < |h| => HRuleOf(i, h[i], ds, colors))
      + seq(|v|, i requires 0 <= i < |v| => VRuleOf(i, v[i], ds, colors))
      + seq(|f|, i requires 0 <= i < |f| => FillOf(i, f[i], ds, colors))
  }

  /** A run's `<span>`: key, spread style, text. */
  datatype Span = Span(index: nat, style: CssStyle, text: string)

  /** A text item's `<div>`: key, position, width, colour, alignment and its
      spans. */
  datatype TextBlock = TextBlock(index: nat, left: Number, top: Number, width: Number,
                                 color: string, textAlign: string, spans: seq<Span>)

  function SpanOf(j: nat, run: Run, styleDict: Value, ds: real): Span
  {
    Span(j, StyleFromToken(run.ts, styleDict, ds), run.t)
  }

  function TextBlockOf(i: nat, item: TextItem, styleDict: Value, ds: real,
                       colors: Option<ColorEntries>): TextBlock
  {
    var runs := Listed(item.r);
    TextBlock(i, ToPx(item.x, ds), ToPx(item.y, ds), ToPx(item.w, ds),
              ColorOf(colors, item.clr),
              if item.a != "" then item.a else DefaultAlign,
              seq(|runs|, j requires 0 <= j < |runs| => SpanOf(j, runs[j], styleDict, ds)))
  }

  /** The `Texts` map: one block per text item, in order. */
  function RenderTexts(page: Page, ds: real, colors: Option<ColorEntries>): (r: seq<TextBlock>)
    ensures |r| == |Listed(page.texts)|
    ensures forall i :: 0 <= i < |r| ==>
      r[i] == TextBlockOf(i, Listed(page.texts)[i], page.styleDict, ds, colors)
  {
    var texts := Listed(page.texts);
    seq(|texts|, i requires 0 <= i < |texts| => TextBlockOf(i, texts[i], page.styleDict, ds, colors))
  }

  /** An `<img>`: key, data URL, alt text, placement and size. */
  datatype ImageBox = ImageBox(index: nat, src: string, alt: string,
                               left: Number, top: Number, width: Number, height: Number)

  function ImageBoxOf(idx: nat, img: Image, ds: real): ImageBox
  {
    var height := Times(img.height, Num(ds));
    ImageBox(idx, "data:image/" + img.ext + ";base64," + img.base64, "img-" + img.xref,
             Num(ImageMargin),
             Plus(Num(ImageMargin), Times(Num(idx as real), Plus(height, Num(ImageGap)))),
             Times(img.width, Num(ds)), height)
  }

  /** The `images` map: one box per image, in order. */
  function RenderImages(page: Page, ds: real): (r: seq<ImageBox>)
    ensures |r| == |Listed(page.images)|
    ensures forall idx :: 0 <= idx < |r| ==> r[idx] == ImageBoxOf(idx, Listed(page.images)[idx], ds)
  {
    var images := Listed(page.images);
    seq(|images|, idx requires 0 <= idx < |images| => ImageBoxOf(idx, images[idx], ds))
  }

  /** The page view: the container is CSS-scaled by `scale` and sized in
      DISPLAY_SCALE pixels; it holds the extras, the texts and the images,
      back to front. */
  datatype RenderTree = RenderTree(
    cssScale: real, width: Number, minHeight: Number,
    extras: seq<Primitive>, texts: seq<TextBlock>, images: seq<ImageBox>)

  function Compose(page: Page, scale: real, colors: Option<ColorEntries>): (t: RenderTree)
    ensures t.cssScale == scale
    ensures |t.extras| == |Listed(page.hLines)| + |Listed(page.vLines)| + |Listed(page.fills)|
    ensures |t.texts| == |Listed(page.texts)| && |t.images| == |Listed(page.images)|
    ensures t.width.Num? && t.minHeight.Num?
  {
    var ds := DisplayScale(scale);
    RenderTree(
      scale,
      Times(OrDefault(page.width, DefaultPageWidth), Num(ds)),
      Times(OrDefault(page.height, DefaultPageHeight), Num(ds)),
      RenderExtras(page, ds, colors),
      RenderTexts(page, ds, colors),
      RenderImages(page, ds))
  }

  // ---------------------------------------------------------------------
  // Properties of the composition

  /** A defined length maps to length * 1.5 * zoom pixels; an absent one
      to NaN. */
  lemma ToPxScales(v: Number, scale: real)
    ensures ToPx(v, DisplayScale(scale)).Num? <==> v.Num?
    ensures v.Num? ==> ToPx(v, DisplayScale(scale)).r == v.r * 1.5 * scale
  {
  }

  /** The page is 800 by 1100 document units when `Width` / `Height` are
      absent or zero. */
  lemma PageSizeDefaults(page: Page, scale: real, colors: Option<ColorEntries>)
    ensures var t := Compose(page, scale, colors);
      && (page.width.Num? && page.width.r != 0.0 ==> t.width == Num(page.width.r * (1.5 * scale)))
      && (!(page.width.Num? && page.width.r != 0.0) ==> t.width == Num(800.0 * (1.5 * scale)))
      && (page.height.Num? && page.height.r != 0.0 ==> t.minHeight == Num(page.height.r * (1.5 * scale)))
      && (!(page.height.Num? && page.height.r != 0.0) ==> t.minHeight == Num(1100.0 * (1.5 * scale)))
  {
  }

  /** A rule is scaled field by field; its thickness is 2 when `w` is absent
      or zero, and it is dashed exactly when `dsh === 1`. */
  lemma RuleGeometry(i: nat, line: Line, scale: real, colors: Option<ColorEntries>)
    ensures var ds := DisplayScale(scale);
      var thickness := if line.w.Num? && line.w.r != 0.0 then line.w.r else 2.0;
      var hr, vr := HRuleOf(i, line, ds, colors), VRuleOf(i, line, ds, colors);
      && hr.left == ToPx(line.x, ds) && hr.top == ToPx(line.y, ds)
      && hr.width == ToPx(line.l, ds) && hr.height == Num(thickness * ds)
      && vr.left == ToPx(line.x, ds) && vr.top == ToPx(line.y, ds)
      && vr.width == Num(thickness * ds) && vr.height == ToPx(line.l, ds)
      && (hr.dashed <==> line.dsh == Num(1.0)) && (vr.dashed <==> line.dsh == Num(1.0))
      && hr.background == vr.background == ColorOf(colors, line.clr)
      && Opacity(hr) == Opacity(vr) == 0.7
  {
  }

  /** Each text item becomes one block, in order, holding one span per run,
      in order; a block's key is the item's index and a span's key the
      run's, so the pair (item, run) addresses exactly one span. */
  lemma TextRunAddress(page: Page, scale: real, colors: Option<ColorEntries>, i: nat, j: nat)
    requires i < |Listed(page.texts)|
    requires j < |Listed(Listed(page.texts)[i].r)|
    ensures var t := Compose(page, scale, colors);
      var item := Listed(page.texts)[i];
      var run := Listed(item.r)[j];
      && |t.texts| == |Listed(page.texts)|
      && t.texts[i].index == i
      && |t.texts[i].spans| == |Listed(item.r)|
      && t.texts[i].spans[j].index == j
      && t.texts[i].spans[j].text == run.t
      && t.texts[i].spans[j].style == StyleFromToken(run.ts, page.styleDict, DisplayScale(scale))
  {
  }

  /** A block's alignment is the item's `A`, or "left" when absent; its
      colour is resolved through the colour dictionary. */
  lemma TextBlockAttributes(i: nat, item: TextItem, styleDict: Value, scale: real, colors: Option<ColorEntries>)
    ensures var b := TextBlockOf(i, item, styleDict, DisplayScale(scale), colors);
      && (item.a == "" ==> b.textAlign == "left")
      && (item.a != "" ==> b.textAlign == item.a)
      && b.color == ColorOf(colors, item.clr)
      && b.left == ToPx(item.x, DisplayScale(scale)) && b.top == ToPx(item.y, DisplayScale(scale))
  {
  }

  /** The image at position `idx` is placed at left 40 and top
      40 + idx * (height * DISPLAY_SCALE + 10). */
  lemma ImagePlacement(page: Page, scale: real, colors: Option<ColorEntries>, idx: nat)
    requires idx < |Listed(page.images)|
    requires Listed(page.images)[idx].height.Num?
    ensures var t := Compose(page, scale, colors);
      var h := Listed(page.images)[idx].height.r;
      && |t.images| == |Listed(page.images)|
      && t.images[idx].left == Num(40.0)
      && t.images[idx].top == Num(40.0 + idx as real * (h * (1.5 * scale) + 10.0))
  {
  }

  /** Each image is offset by its own height, not by the heights of the
      images above it: a tall image followed by a short one overlap. */
  lemma ImagesOfDifferentHeightsOverlap()
    ensures var page := AbsentPage.(images := Some([
        Image("png", "", "1", Num(100.0), Num(100.0)),
        Image("png", "", "2", Num(100.0), Num(10.0))]));
      var t := Compose(page, 1.0, None);
      var first, second := t.images[0], t.images[1];
      second.top.r < first.top.r + first.height.r
  {
  }
}
