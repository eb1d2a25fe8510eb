/** The PDF viewer page: the document it receives from `/api/pdf-results`,
    its navigation and zoom state, and the screen it shows. */
module Viewer {
  import opened JsValues
  import opened Colors
  import opened Compositor

  /** A parsed document: its pages (`None` when `pages` is absent) and its
      `color_dict` (`None` when falsy or absent). */
  datatype Document = Document(pages: Option<seq<Page>>, colorDict: Option<ColorEntries>)

  /** The JSON body of the `/api/pdf-results` response: an array, an object,
      or any other JSON value. */
  datatype Response = RArray(items: seq<Response>) | RObject(doc: Document) | RScalar

  /** The response normalisation of `fetchPdfData`: the first element of a
      non-empty array, an object that has `pages`, and null otherwise. */
  function Normalise(data: Response): (r: Option<Response>)
    ensures r.Some? <==> (data.RArray? && |data.items| > 0) || (data.RObject? && data.doc.pages.Some?)
    ensures r.Some? && data.RArray? ==> r.value == data.items[0]
    ensures r.Some? && !data.RArray? ==> r.value == data
  {
    match data
    case RArray(items) => if |items| > 0 then Some(items[0]) else None
    case RObject(doc) => if doc.pages.Some? then Some(data) else None
    case RScalar => None
  }

  /** What `fetchPdfData` stores in `pdfData`: `body` is `None` when the body
      is not JSON; a body that is not JSON or a response that is not ok
      both end in the catch block, which stores null. */
  function PdfInfo(ok: bool, body: Option<Response>): (r: Option<Response>)
    ensures r.Some? ==> ok && body.Some? && r == Normalise(body.value)
    ensures ok && body.Some? ==> r == Normalise(body.value)
  {
    if body.None? || !ok then None else Normalise(body.value)
  }

  /** `(pdfData?.pages?.length) || 0`. */
  function PageCount(pdfData: Option<Response>): nat
  {
    if pdfData.Some? && pdfData.value.RObject? && pdfData.value.doc.pages.Some?
    then |pdfData.value.doc.pages.value| else 0
  }

  /** The negation of the "No PDF data available" test:
      `pdfData && pdfData.pages && pdfData.pages.length !== 0`. */
  predicate HasPages(pdfData: Option<Response>)
  {
    PageCount(pdfData) > 0
  }

  lemma {:induction false} ShownExactlyWhenPagesArrive(ok: bool, data: Response)
    ensures HasPages(PdfInfo(ok, Some(data))) <==>
      ok && (
        || (data.RObject? && data.doc.pages.Some? && |data.doc.pages.value| > 0)
        || (data.RArray? && |data.items| > 0 && data.items[0].RObject?
            && data.items[0].doc.pages.Some? && |data.items[0].doc.pages.value| > 0))
  {
  }

  // ---------------------------------------------------------------------
  // Navigation and zoom

  const InitialScale: real := 1.0
  const MinScale: real := 0.5
  const MaxScale: real := 2.0
  const ZoomStep: real := 0.1

  /** `handleZoomIn`: `Math.min(prev + 0.1, 2)`. */
  function ZoomedIn(scale: real): (r: real)
    ensures r <= MaxScale && (r == scale + ZoomStep || r == MaxScale)
    ensures scale + ZoomStep <= MaxScale ==> r == scale + ZoomStep
  {
    if scale + ZoomStep < MaxScale then scale + ZoomStep else MaxScale
  }

  /** `handleZoomOut`: `Math.max(prev - 0.1, 0.5)`. */
  function ZoomedOut(scale: real): (r: real)
    ensures r >= MinScale && (r == scale - ZoomStep || r == MinScale)
    ensures scale - ZoomStep >= MinScale ==> r == scale - ZoomStep
  {
    if scale - ZoomStep > MinScale then scale - ZoomStep else MinScale
  }

  /** `nextPage`: moves on only when below the last page. */
  function NextIndex(index: int, pageCount: nat): (r: int)
    ensures r == index || r == index + 1
    ensures r == index + 1 <==> index < pageCount - 1
  {
    if index < pageCount - 1 then index + 1 else index
  }

  /** `prevPage`: moves back only when above the first page. */
  function PrevIndex(index: int): (r: int)
    ensures r == index || r == index - 1
    ensures r == index - 1 <==> index > 0
  {
    if index > 0 then index - 1 else index
  }

  /** A zoom on the 0.1 grid the step keeps. */
  predicate OnGrid(scale: real)
  {
    (scale * 10.0).Floor as real == scale * 10.0
  }

  predicate ScaleInBounds(scale: real)
  {
    MinScale <= scale <= MaxScale && OnGrid(scale)
  }

  /** The page index is a page of the document, or 0 when there is none. */
  predicate IndexInBounds(index: int, pageCount: nat)
  {
    0 <= index && (index < pageCount || index == 0)
  }

  datatype ViewState = ViewState(scale: real, pageIndex: int)
  datatype ViewOp = ZoomIn | ZoomOut | NextPage | PrevPage

  function Step(s: ViewState, op: ViewOp, pageCount: nat): (t: ViewState)
    ensures op.ZoomIn? || op.ZoomOut? ==> t.pageIndex == s.pageIndex
    ensures op.NextPage? || op.PrevPage? ==> t.scale == s.scale
  {
    match op
    case ZoomIn => s.(scale := ZoomedIn(s.scale))
    case ZoomOut => s.(scale := ZoomedOut(s.scale))
    case NextPage => s.(pageIndex := NextIndex(s.pageIndex, pageCount))
    case PrevPage => s.(pageIndex := PrevIndex(s.pageIndex))
  }

  function RunOps(s: ViewState, ops: seq<ViewOp>, pageCount: nat): ViewState
    decreases |ops|
  {
    if ops == [] then s else RunOps(Step(s, ops[0], pageCount), ops[1..], pageCount)
  }

  const InitialView: ViewState := ViewState(InitialScale, 0)

  /** One operation keeps the zoom in [0.5, 2] on its 0.1 grid and the page
      index within the document. */
  lemma StepKeepsBounds(s: ViewState, op: ViewOp, pageCount: nat)
    requires ScaleInBounds(s.scale) && IndexInBounds(s.pageIndex, pageCount)
    ensures ScaleInBounds(Step(s, op, pageCount).scale)
    ensures IndexInBounds(Step(s, op, pageCount).pageIndex, pageCount)
  {
    var k := (s.scale * 10.0).Floor;
    assert s.scale == k as real / 10.0;
    match op
    case ZoomIn =>
      if s.scale + ZoomStep < MaxScale {
        assert (s.scale + ZoomStep) * 10.0 == (k + 1) as real;
      } else {
        assert MaxScale * 10.0 == 20 as real;
      }
    case ZoomOut =>
      if s.scale - ZoomStep > MinScale {
        assert (s.scale - ZoomStep) * 10.0 == (k - 1) as real;
      } else {
        assert MinScale * 10.0 == 5 as real;
      }
    case NextPage =>
    case PrevPage =>
  }

  /** Every sequence of operations from an in-bounds state keeps zoom and
      page index in bounds. */
  lemma {:induction false} SessionStaysInBounds(s: ViewState, ops: seq<ViewOp>, pageCount: nat)
    requires ScaleInBounds(s.scale) && IndexInBounds(s.pageIndex, pageCount)
    ensures ScaleInBounds(RunOps(s, ops, pageCount).scale)
    ensures IndexInBounds(RunOps(s, ops, pageCount).pageIndex, pageCount)
    decreases |ops|
  {
    if ops != [] {
      StepKeepsBounds(s, ops[0], pageCount);
      SessionStaysInBounds(Step(s, ops[0], pageCount), ops[1..], pageCount);
    }
  }

  lemma InitialViewInBounds(pageCount: nat)
    ensures ScaleInBounds(InitialView.scale) && IndexInBounds(InitialView.pageIndex, pageCount)
  {
    assert (1.0 * 10.0).Floor == 10;
  }

  /** From the initial view, zoom stays in [0.5, 2] and the page index in
      [0, pages - 1] whatever the user presses. */
  lemma SessionFromInitialView(ops: seq<ViewOp>, pageCount: nat)
    ensures ScaleInBounds(RunOps(InitialView, ops, pageCount).scale)
    ensures IndexInBounds(RunOps(InitialView, ops, pageCount).pageIndex, pageCount)
  {
    InitialViewInBounds(pageCount);
    SessionStaysInBounds(InitialView, ops, pageCount);
  }

  function ZoomInTimes(scale: real, n: nat): real
  {
    if n == 0 then scale else ZoomedIn(ZoomInTimes(scale, n - 1))
  }

  /** n zoom-ins from a zoom of at most 2 add n steps, up to exactly 2. */
  lemma {:induction false} ZoomInTimesClamps(scale: real, n: nat)
    requires scale <= MaxScale
    ensures ZoomInTimes(scale, n) ==
      if scale + n as real * ZoomStep < MaxScale then scale + n as real * ZoomStep else MaxScale
  {
    if n > 0 {
      ZoomInTimesClamps(scale, n - 1);
    }
  }

  /** Zooming in from 1 reaches exactly 2 after ten steps and stays there:
      twenty zoom-ins leave the zoom at 2, not higher. */
  lemma RepeatedZoomInReachesTwo(n: nat)
    ensures n >= 10 ==> ZoomInTimes(InitialScale, n) == MaxScale
    ensures n < 10 ==> ZoomInTimes(InitialScale, n) < MaxScale
  {
    ZoomInTimesClamps(InitialScale, n);
  }

  /** Navigation at a boundary changes nothing. */
  lemma BoundaryMovesAreNoOps(index: int, pageCount: nat)
    requires pageCount > 0 && IndexInBounds(index, pageCount)
    ensures PrevIndex(index) == index <==> index == 0
    ensures NextIndex(index, pageCount) == index <==> index == pageCount - 1
  {
  }

  // ---------------------------------------------------------------------
  // The screen

  /** What the page shows: the loader, the "No PDF data available" message,
      or the toolbar ("Page n of total", the disabled states of Previous and
      Next, the zoom percentage) over the composed current page. */
  datatype Screen =
    | LoadingScreen
    | NoDataScreen
    | PageScreen(pageNumber: int, totalPages: nat, prevDisabled: bool, nextDisabled: bool,
                 zoomPercent: int, page: RenderTree)

  /** `Math.round`. */
  function Round(x: real): int
  {
    (x + 0.5).Floor
  }

  function ScreenOf(loading: bool, pdfData: Option<Response>, index: int, scale: real): (sc: Screen)
    ensures sc.LoadingScreen? <==> loading
    ensures sc.NoDataScreen? <==> !loading && !HasPages(pdfData)
    ensures sc.PageScreen? ==>
      && sc.pageNumber == index + 1 && sc.totalPages == PageCount(pdfData)
      && (sc.prevDisabled <==> index == 0) && (sc.nextDisabled <==> index == PageCount(pdfData) - 1)
  {
    if loading then LoadingScreen
    else if !HasPages(pdfData) then NoDataScreen
    else
      var doc := pdfData.value.doc;
      var pages := doc.pages.value;
      var current := if 0 <= index < |pages| then pages[index] else AbsentPage;
      PageScreen(index + 1, |pages|, index == 0, index == |pages| - 1,
                 Round(scale * 100.0), Compose(current, scale, doc.colorDict))
  }

  /** A toolbar button is disabled exactly when pressing it would change
      nothing, and the page shown is the current page. */
  lemma ButtonsDisabledExactlyAtBoundaries(pdfData: Option<Response>, index: int, scale: real)
    requires HasPages(pdfData) && IndexInBounds(index, PageCount(pdfData))
    ensures var sc := ScreenOf(false, pdfData, index, scale);
      && sc.PageScreen?
      && (sc.prevDisabled <==> PrevIndex(index) == index)
      && (sc.nextDisabled <==> NextIndex(index, PageCount(pdfData)) == index)
      && sc.page == Compose(pdfData.value.doc.pages.value[index], scale, pdfData.value.doc.colorDict)
  {
  }

  /** On the grid the zoom percentage shown is exact. */
  lemma ZoomPercentExact(scale: real)
    requires ScaleInBounds(scale)
    ensures Round(scale * 100.0) as real == scale * 100.0
    ensures 50 <= Round(scale * 100.0) <= 200
  {
    var k := (scale * 10.0).Floor;
    assert scale * 100.0 == (10 * k) as real;
    assert (scale * 100.0 + 0.5).Floor == 10 * k;
  }

  /** The state the page keeps: the document, the loading flag, the zoom and
      the current page index. */
  class PdfViewer {
    var pdfData: Option<Response>
    var loading: bool
    var scale: real
    var currentPageIndex: int

    ghost predicate Valid()
      reads this
    {
      ScaleInBounds(scale) && currentPageIndex >= 0
    }

    ghost predicate IndexInRange()
      reads this
    {
      IndexInBounds(currentPageIndex, PageCount(pdfData))
    }

    constructor ()
      ensures Valid() && IndexInRange()
      ensures pdfData == None && loading
      ensures scale == InitialScale && currentPageIndex == 0
    {
      pdfData := None;
      loading := true;
      scale := InitialScale;
      currentPageIndex := 0;
      InitialViewInBounds(0);
    }

    /** The end of `fetchPdfData`: stores the normalised response (null on
      any failure) and clears the loading flag. */
    method ReceivePdfResults(ok: bool, body: Option<Response>)
      requires Valid()
      modifies this`pdfData, this`loading
      ensures Valid()
      ensures pdfData == PdfInfo(ok, body) && !loading
      ensures scale == old(scale) && currentPageIndex == old(currentPageIndex)
    {
      var pdfInfo: Option<Response> := None;
      if ok && body.Some? {
        var data := body.value;
        if data.RArray? {
          if |data.items| > 0 {
            pdfInfo := Some(data.items[0]);
          }
        } else if data.RObject? && data.doc.pages.Some? {
          pdfInfo := Some(data);
        }
      }
      pdfData := pdfInfo;
      loading := false;
    }

    method HandleZoomIn()
      requires Valid()
      modifies this`scale
      ensures Valid()
      ensures scale == ZoomedIn(old(scale))
      ensures currentPageIndex == old(currentPageIndex) && pdfData == old(pdfData)
    {
      StepKeepsBounds(ViewState(scale, 0), ZoomIn, 0);
      scale := ZoomedIn(scale);
    }

    method HandleZoomOut()
      requires Valid()
      modifies this`scale
      ensures Valid()
      ensures scale == ZoomedOut(old(scale))
      ensures currentPageIndex == old(currentPageIndex) && pdfData == old(pdfData)
    {
      StepKeepsBounds(ViewState(scale, 0), ZoomOut, 0);
      scale := ZoomedOut(scale);
    }

    method NextPage()
      requires Valid()
      modifies this`currentPageIndex
      ensures Valid()
      ensures old(IndexInRange()) ==> IndexInRange()
      ensures currentPageIndex == NextIndex(old(currentPageIndex), PageCount(pdfData))
      ensures scale == old(scale) && pdfData == old(pdfData)
    {
      if currentPageIndex < PageCount(pdfData) - 1 {
        currentPageIndex := currentPageIndex + 1;
      }
    }

    method PrevPage()
      requires Valid()
      modifies this`currentPageIndex
      ensures Valid()
      ensures old(IndexInRange()) ==> IndexInRange()
      ensures currentPageIndex == PrevIndex(old(currentPageIndex))
      ensures scale == old(scale) && pdfData == old(pdfData)
    {
      if currentPageIndex > 0 {
        currentPageIndex := currentPageIndex - 1;
      }
    }

    /** What the page renders in its current state. */
    function Render(): Screen
      reads this
    {
      ScreenOf(loading, pdfData, currentPageIndex, scale)
    }
  }
}
