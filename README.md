# PDF Magic viewer core in Dafny

This is a model of the browser-side core of PDF Magic, plus proofs about it.
The PDF viewer page fetches the parsed form of a converted PDF from `/api/pdf-results`. That form is a list of pages, each a record of rules, fills, text items with styled runs, and images. The page then lays that record out as absolutely positioned boxes, scaled by a zoom factor, and the toolbar moves between pages and changes the zoom.
The home page's conversion dialogs add two string helpers: the label shown for the selected photos, and the `.pdf` file name offered for a converted text file.

The modules follow the structure of the viewer:

- `JsValues` holds the JavaScript values the page reads: JSON values with truthiness and `===`, and numbers that may be NaN or absent.
- `Hex` covers hexadecimal formatting (`toString(16)`, `padStart`) and its decoding.
- `Colors` covers `colorIdxToHex`: a colour-index lookup in the document's `color_dict`.
- `Fonts` covers `parsePdfFontName`: the family, weight and slant read from a PDF font name.
- `Styles` covers `getStyleFromTS`: a run's style token resolved through the page's `style_dict`.
- `Compositor` holds the page record, `DISPLAY_SCALE`/`toPx`, `renderExtras`, and the text and image layout.
- `Viewer` covers the response normalisation of `fetchPdfData` and the zoom and page navigation. Its class `PdfViewer` holds the page's state and its handlers. `ScreenOf` gives what the page shows.
- `Hero` holds the photo-selection label and the extension rewrite `\.[^/.]+$` → `.pdf`.

`colorIdxToHex` and `parsePdfFontName` both loop, so they are methods proved against the functions `ColorOf` and `FontFromName`. The state the viewer updates (`pdfData`, `loading`, `scale`, `currentPageIndex`) lives in a class whose handlers are methods. Everything else is a function, as in the source.

Some behaviour of the code that a reader may not expect:

- An unknown colour index gives `#000` only. There is no fallback that reads a colour literal from the index.
- Colour lookup scans `color_dict` entry by entry for every element drawn; no reverse index is built.
- The zoom is applied twice: once in `DISPLAY_SCALE` and once in a CSS `transform: scale(...)` on the container. `RenderTree.cssScale` records the second.
- Images are stacked by their own index times their own height, so images of different heights can overlap (`Compositor.ImagesOfDifferentHeightsOverlap`).

## Model

| member | source | states |
|---|---|---|
| Colors.ColorIdxToHex | frontend/src/pages/PdfViewer.jsx:63-72 | the loop over the `color_dict` entries returns exactly the colour named by the first entry whose value is `===` the index, and `#000` when the dictionary is falsy or nothing matches |
| Colors.ColorOf | frontend/src/pages/PdfViewer.jsx:63-72 | the colour is `#000` for a falsy dictionary; otherwise it is `#000` or the hex colour of the key of some entry whose value is `===` the index |
| Colors.FirstMatchWins | frontend/src/pages/PdfViewer.jsx:65-69 | if entry i matches and no earlier entry does, the colour is the hex of entry i's key, whatever later entries hold |
| Colors.DefaultExactlyWhenNoMatch | frontend/src/pages/PdfViewer.jsx:64-71 | the colour is `#000` if and only if the dictionary is absent or no entry matches; a colour found in the dictionary is never `#000`, since it has at least six digits |
| Colors.SmallestMatchingKey | frontend/src/pages/PdfViewer.jsx:65-69 | with integer keys enumerated in ascending order, as `Object.entries` does, the colour chosen is that of the smallest key with a matching value |
| Colors.HexColorShape | frontend/src/pages/PdfViewer.jsx:67-68 | the colour is `#` followed by at least six hex digits; for a key below 2^24 it is exactly seven characters and the digits decode back to the key |
| Hex.ToHex | frontend/src/pages/PdfViewer.jsx:67 | `toString(16)` yields a non-empty string of lower-case hex digits with no leading zero |
| Hex.HexValueOfToHex | frontend/src/pages/PdfViewer.jsx:67 | decoding the hex string of k gives back k |
| Hex.ToHexLength | frontend/src/pages/PdfViewer.jsx:67 | a number below 16^n has at most n hex digits |
| Hex.PadStart | frontend/src/pages/PdfViewer.jsx:67 | `padStart` leaves a long enough string unchanged; otherwise it reaches the target length, keeps the string as its suffix, and fills the front with the pad character |
| Hex.HexValueLeadingZeros | frontend/src/pages/PdfViewer.jsx:67 | leading zeros added by padding do not change the value the digits denote |
| Fonts.Split | frontend/src/pages/PdfViewer.jsx:77 | splitting on `-`/`_` gives at least one part; no part contains a separator; the first part is the prefix before the first separator |
| Fonts.SplitStructure | frontend/src/pages/PdfViewer.jsx:77 | a name without separators is its own single part; otherwise the parts are the first part followed by the parts of the text after the first separator, so the split is determined completely |
| Fonts.FontFromName | frontend/src/pages/PdfViewer.jsx:75-98 | the family is never empty and is either `sans-serif` or a separator-free prefix of the name |
| Fonts.ParsePdfFontName | frontend/src/pages/PdfViewer.jsx:75-98 | the per-part loop yields the family of the first part (`sans-serif` when empty), bold exactly when the lower-cased name contains "bold", and italic exactly when it contains "oblique" or "italic" |
| Fonts.KeywordInSomePart | frontend/src/pages/PdfViewer.jsx:86-91 | a keyword with no separator occurs in the name if and only if it occurs in one of the split parts, so checking part by part equals checking the whole name |
| Fonts.KeywordInLoweredParts | frontend/src/pages/PdfViewer.jsx:87-91 | testing each lower-cased part for a keyword agrees with testing the whole lower-cased name |
| Colors.PaddedDigits | frontend/src/pages/PdfViewer.jsx:67 | padding with zeros to six digits keeps every character a hex digit and keeps the value |
| Fonts.LowerSplit | frontend/src/pages/PdfViewer.jsx:87-88 | lower-casing each part equals splitting the lower-cased name |
| Fonts.PrefixWithinFirstPart | frontend/src/pages/PdfViewer.jsx:77-80 | a separator-free word starts the name exactly when it starts the first part |
| Fonts.FamilyOfName | frontend/src/pages/PdfViewer.jsx:80 | the family is never empty: `sans-serif` for an empty name or one starting with a separator, otherwise the longest separator-free prefix of the name |
| Styles.StyleFromToken | frontend/src/pages/PdfViewer.jsx:101-121 | the style is `{}` exactly when the token, after one lookup in `style_dict`, is not an array of four or more; it is a type error exactly when that tuple's font is truthy and not a string |
| Styles.FlagsOverrideName | frontend/src/pages/PdfViewer.jsx:110-117 | a bold or italic flag that is `=== 1` forces bold or italic; any other flag gives bold or italic exactly when the font name's keywords do |
| Styles.HelveticaFallbackUnreachable | frontend/src/pages/PdfViewer.jsx:110-114 | the Helvetica fallback is dead code: the family written is always the parsed family, which is never empty |
| Styles.FontSizeRule | frontend/src/pages/PdfViewer.jsx:115 | a falsy size gives 16px; a non-zero numeric size gives size × DISPLAY_SCALE px |
| Styles.NonTupleIsEmpty | frontend/src/pages/PdfViewer.jsx:102-120 | the style is empty when the resolved token is not an array of four or more; this covers an index off the table, a numeric token with no array table, and an index whose entry is itself a number |
| Styles.IndexedEqualsInline | frontend/src/pages/PdfViewer.jsx:102-105 | a numeric token inside the table resolves exactly like its entry written inline; the lookup happens once and does not chain |
| Styles.InlineIgnoresTable | frontend/src/pages/PdfViewer.jsx:102-106 | an inline tuple's style does not depend on the page's `style_dict` |
| Compositor.ToPx | frontend/src/pages/PdfViewer.jsx:147-150 | a defined length is multiplied by DISPLAY_SCALE; an absent length gives NaN |
| Compositor.ToPxScales | frontend/src/pages/PdfViewer.jsx:147-150 | a defined length maps to length × 1.5 × zoom pixels; an absent length stays NaN |
| Compositor.PageSizeDefaults | frontend/src/pages/PdfViewer.jsx:143-144 | the container's width and min-height are the page's `Width`/`Height` in display pixels, or 800 × 1100 when those are absent or zero |
| Compositor.RenderExtras | frontend/src/pages/PdfViewer.jsx:153-208 | one primitive per horizontal rule, then per vertical rule, then per fill, in order; each is built from its own record and index; non-array lists contribute nothing |
| Compositor.RenderTexts | frontend/src/pages/PdfViewer.jsx:296-322 | one block per text item, in order, block i built from item i with the page's `style_dict`; an absent list gives none |
| Compositor.RenderImages | frontend/src/pages/PdfViewer.jsx:324-339 | one box per image, in order, box idx built from image idx; an absent list gives none |
| Compositor.Compose | frontend/src/pages/PdfViewer.jsx:143-339 | the container is CSS-scaled by the zoom; its width and min-height are always numbers; it holds as many primitives as rules and fills, as many blocks as text items and as many boxes as images |
| Compositor.RuleGeometry | frontend/src/pages/PdfViewer.jsx:155-190 | rules scale their position and length; their thickness is `w`, or 2 when `w` is absent or zero; horizontal and vertical rules swap width and height; dashed exactly when `dsh === 1`; colour from the dictionary; opacity 0.7 |
| Compositor.TextRunAddress | frontend/src/pages/PdfViewer.jsx:296-322 | text item i becomes block i holding one span per run; span j has key j, the run's text, and the style resolved from its token against the page's table |
| Compositor.TextBlockAttributes | frontend/src/pages/PdfViewer.jsx:296-310 | a block sits at the scaled position of its item; it aligns by `A`, defaulting to "left"; its colour comes from the dictionary |
| Compositor.ImagePlacement | frontend/src/pages/PdfViewer.jsx:324-339 | one box per image; image idx sits at left 40 and top 40 + idx × (height × DISPLAY_SCALE + 10) |
| Compositor.ImagesOfDifferentHeightsOverlap | frontend/src/pages/PdfViewer.jsx:332 | a 100-unit image followed by a 10-unit one: the second starts before the first ends |
| Viewer.Normalise | frontend/src/pages/PdfViewer.jsx:28-35 | a body gives data exactly when it is a non-empty array, which gives its first element, or an object with `pages`, which gives itself |
| Viewer.PdfInfo | frontend/src/pages/PdfViewer.jsx:22-38 | data is stored only when the response is ok and its body is JSON, and then it is the normalised body |
| Viewer.ShownExactlyWhenPagesArrive | frontend/src/pages/PdfViewer.jsx:20-44 | pages are shown exactly when the response is ok and is either an object with a non-empty `pages` or an array whose first element is one |
| Viewer.ZoomedIn | frontend/src/pages/PdfViewer.jsx:47 | the zoom grows by 0.1 or becomes 2, never exceeds 2, and grows by 0.1 whenever that stays within 2 |
| Viewer.ZoomedOut | frontend/src/pages/PdfViewer.jsx:48 | the zoom shrinks by 0.1 or becomes 0.5, never drops below 0.5, and shrinks by 0.1 whenever that stays above 0.5 |
| Viewer.NextIndex | frontend/src/pages/PdfViewer.jsx:50-54 | the index stays or advances by one, and advances exactly when it is below the last page |
| Viewer.PrevIndex | frontend/src/pages/PdfViewer.jsx:56-60 | the index stays or goes back by one, and goes back exactly when it is above the first page |
| Viewer.ScreenOf | frontend/src/pages/PdfViewer.jsx:123-266 | the loader shows exactly while loading; "No PDF data available" shows exactly when loading is done and there are no pages; otherwise the toolbar shows page index + 1 of the page total, with Previous disabled exactly on the first page and Next exactly on the last |
| Viewer.Step | frontend/src/pages/PdfViewer.jsx:47-60 | zoom operations never move the page, and page operations never change the zoom |
| Viewer.StepKeepsBounds | frontend/src/pages/PdfViewer.jsx:47-60 | each handler keeps the zoom in [0.5, 2] on its 0.1 grid and the page index within the document |
| Viewer.SessionStaysInBounds | frontend/src/pages/PdfViewer.jsx:47-60 | every sequence of handler calls from an in-bounds state keeps zoom and page index in bounds |
| Viewer.InitialViewInBounds | frontend/src/pages/PdfViewer.jsx:6-7 | the initial zoom 1 and index 0 are in bounds for any page count |
| Viewer.SessionFromInitialView | frontend/src/pages/PdfViewer.jsx:6-60 | from zoom 1 on the first page, any sequence of clicks keeps the zoom in [0.5, 2] and the index in [0, pages − 1] |
| Viewer.ZoomInTimesClamps | frontend/src/pages/PdfViewer.jsx:47 | n zoom-ins add n steps of 0.1, capped at exactly 2 |
| Viewer.RepeatedZoomInReachesTwo | frontend/src/pages/PdfViewer.jsx:47 | from zoom 1, ten or more zoom-ins give exactly 2 and fewer give less |
| Viewer.BoundaryMovesAreNoOps | frontend/src/pages/PdfViewer.jsx:50-60 | Previous changes nothing exactly on the first page, and Next exactly on the last |
| Viewer.ButtonsDisabledExactlyAtBoundaries | frontend/src/pages/PdfViewer.jsx:241-257 | a navigation button is disabled exactly when pressing it would do nothing; the page shown is the composed current page |
| Viewer.ZoomPercentExact | frontend/src/pages/PdfViewer.jsx:266 | on the zoom grid the percentage shown is exact and lies between 50 and 200 |
| Viewer.PdfViewer.constructor | frontend/src/pages/PdfViewer.jsx:4-7 | the page starts loading, with no data, zoom 1 and the first page |
| Viewer.PdfViewer.ReceivePdfResults | frontend/src/pages/PdfViewer.jsx:21-41 | stores the normalised response, or null on any failure; clears loading; leaves zoom and page untouched |
| Viewer.PdfViewer.HandleZoomIn | frontend/src/pages/PdfViewer.jsx:47 | zoom becomes min(zoom + 0.1, 2) and stays in bounds; nothing else changes |
| Viewer.PdfViewer.HandleZoomOut | frontend/src/pages/PdfViewer.jsx:48 | zoom becomes max(zoom − 0.1, 0.5) and stays in bounds; nothing else changes |
| Viewer.PdfViewer.NextPage | frontend/src/pages/PdfViewer.jsx:50-54 | moves forward only below the last page; an in-range index stays in range; zoom and data are unchanged |
| Viewer.PdfViewer.PrevPage | frontend/src/pages/PdfViewer.jsx:56-60 | moves back only above the first page; an in-range index stays in range; zoom and data are unchanged |
| Hero.PhotoSelectionLabel | frontend/src/components/hero.jsx:140-151 | a label is set if and only if at least one file was selected |
| Hero.LabelOfFewFiles | frontend/src/components/hero.jsx:143-144 | one or two files are listed by name, joined by ", " |
| Hero.LabelOfManyFiles | frontend/src/components/hero.jsx:145-151 | three or more files give the first two names and " and more..." |
| Hero.KeepDefinedOfPrefix | frontend/src/components/hero.jsx:148-149 | filtering out the undefined entries after the first k keeps exactly the first k names in order |
| Hero.LabelIgnoresLaterNames | frontend/src/components/hero.jsx:145-151 | with three or more files, names after the second never affect the label |
| Hero.ReplaceExtension | frontend/src/components/hero.jsx:213 | the name is unchanged or is its text up to a position where the pattern matches followed by ".pdf"; a name the pattern does not match is unchanged |
| Hero.FindExtension | frontend/src/components/hero.jsx:213 | the search finds a position where `\.[^/.]+$` matches, or shows that none exists from the start point on |
| Hero.ExtensionIsAtLastDot | frontend/src/components/hero.jsx:213 | the pattern matches at most once, at the name's last dot |
| Hero.ReplacesExtension | frontend/src/components/hero.jsx:213 | a name with an extension keeps everything before its last dot, followed by ".pdf" |
| Hero.UnchangedWithoutExtension | frontend/src/components/hero.jsx:213 | a name the pattern does not match comes back unchanged |
| Hero.NoExtensionCases | frontend/src/components/hero.jsx:213 | the pattern does not match a name with no dot, a trailing dot, or a `/` after the last dot |
| Hero.ReplaceExtensionIdempotent | frontend/src/components/hero.jsx:213 | rewriting an already rewritten name changes nothing |
| Hero.DownloadName | frontend/src/components/hero.jsx:210-213 | a download name exists exactly when a converted document exists |
| Hero.DownloadNameEndsInPdf | frontend/src/components/hero.jsx:213 | for a name with an extension at i, the download name keeps the first i characters and ends in ".pdf" |

## Left out

- Network and browser I/O are not modelled: `fetch`, `response.json()`, `document.title`, `URLSearchParams`, `console` logging, anchor clicks, `URL.createObjectURL` and `setTimeout`. `Viewer.PdfViewer.ReceivePdfResults` takes the response's `ok` flag and its parsed body as parameters. A body that is not JSON is `None`.
- React's asynchronous state updates and re-renders are not modelled. Each handler is one atomic method on the class. The re-fetch when `pdfno` changes is not modelled.
- Floating-point rounding is not modelled: numbers are exact reals. In IEEE doubles, repeated `+ 0.1` leaves the 0.1 grid (nine zoom-ins from 1 give 1.9000000000000008), although the clamp still makes the tenth exactly 2 and `Math.round(scale * 100)` still shows 110 … 200. What holds for the real-number model only is the grid invariant in `Viewer.ScaleInBounds` and the exact equality `Round(scale * 100) == scale * 100` of `Viewer.ZoomPercentExact`.
- `Styles.FontSizeRule`: the pixel string for a truthy size that is a string, array or object is left symbolic (`CoercedPx`). JavaScript's string-to-number coercion is not modelled.
- `Compositor.RenderExtras`: each element of `HLines`, `VLines` and `Fills` is assumed to be an object. A `null` element would throw in JavaScript.
- `Texts`, `R` and `images` that are absent or `null` render nothing, as `?.` short-circuits; the model's `None` is that case. Any other value that is not an array (a number, a string, an object) makes `?.map` throw a TypeError, and the model has no such record.
- A `null` element of `Texts`, `R` or `images` throws in JavaScript (`text.x`, `run.TS`, `img.ext`); the model's elements are always records, so it does not capture that failure.
- `pages` that is truthy but not an array, e.g. a number, passes the "No PDF data available" test because its `length` is undefined and `undefined === 0` is false. JavaScript then shows the toolbar over an empty page, with `currentPage` and the page total undefined. `Viewer.Document` holds `pages` only as an array or as absent, so the model does not capture this screen.
- A tuple font that is truthy but not a string throws at `.split`; the model has `StyleTypeError` for it.
- `Colors.ColorIdxToHex`: the keys of `color_dict` are natural numbers in the order given; a string `color_dict` is its characters under their positions. Non-numeric keys (`parseInt` gives NaN), keys above 2^53 and JavaScript's key-ordering rule are not modelled; `Colors.SmallestMatchingKey` states the ordering case separately.
- Lower-casing covers ASCII letters only. Unicode case mapping is not modelled.
- Presentation-only attributes are not modelled: `position`, `pointerEvents`, `borderRadius`, `whiteSpace`, `userSelect`, `boxShadow`, background `#eee`, class names, the toolbar's file-name title and icon.
- Numbers are rendered as reals, not as the CSS strings `"<n>px"`.
- The rest of the home page is not modelled: file readers, uploads, conversions, modals, counters and `handleViewPdf`. The same goes for the other pages and components, the duplicate tree under `src/` and the back end.
