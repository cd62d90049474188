# CheckDrawing core, modelled in Dafny

CheckDrawing is a browser application for BIM quality checks on construction drawings. A user uploads PDFs and images. Each PDF page becomes one drawing record. A vision model is asked for the defects on each page, and the defects come back in a 0–1000 box coordinate system. They are shown as overlays and comment cards, and a page can be exported as an image with the markers painted onto it.

This project models the logic of that application:

- **The drawing store** (`App`, app.dfy). A `Store` class holds the list of `DrawingFile` records, the selected id, the clicked defect, the language and the "processing all" flag. Its methods are the handlers:
  - upload, a loop that builds the page records;
  - scan, the PENDING / SCANNING / COMPLETED / ERROR status machine;
  - scan all, a loop over the list as it was when the pass started;
  - export;
  - delete.
- **The reply normaliser** (`GeminiService`, gemini_service.dfy). It has the missing-key guard, the markdown fence strip, and the defensive mapping of the parsed reply into defect records.
- **The export compositor** (`PdfUtils`, pdf_utils.dfy). It has the `split(',')[1]` payload helper and the 0–1000-to-pixel transform. `drawErrorsOnCanvas` is a loop of paint calls on a `Canvas` class whose style state it updates.
- **The viewer** (`Viewer`, viewer.dfy). It covers overlay placement in percent, which overlays and comments are shown, and a `Viewport` class for the zoom scale.
- **The sidebar list** (`DrawingList`, drawing_list.dfy). It has the status labels, the thumbnail count and row highlighting.
- **The shared records** (`Types`, types.dfy) and **the JavaScript built-ins the code leans on** (`JsRuntime`, js_runtime.dfy):
  - parsed JSON values plus `undefined`, and JavaScript truthiness;
  - property reads that throw on `null` and `undefined`;
  - numbers that can be NaN;
  - the `\s`/`trim` whitespace class;
  - decimal number text, `indexOf` and `Math.round`.

The outside world is passed in as parameters:

- the detector's answer to a payload is a function `Option<string> -> Reply`;
- `JSON.parse` is a function that yields `None` on a syntax error;
- the API key is an optional string;
- the rasteriser's page images and the object URL are part of each chosen file;
- text measurement is a function;
- a loaded image is known by its pixel size.

Where the code and its design description disagree, the model follows the code:

- A scan does not refuse a record that is already SCANNING.
- A `null` entry in the reply's `errors` array makes reading `e.id` throw, so the scan fails instead of degrading.
- A `JSON.parse` failure is rethrown, so the scan fails.
- Export writes out the *selected* record once *any* record is exportable.
- The export file name replaces each whitespace character by `_` rather than collapsing runs.
- The zoom buttons are not clamped.
- An empty selected id (`""`) counts as "nothing selected" for the select-first rule.

## Model

| member | source | states |
|---|---|---|
| `JsRuntime.Property` | services/geminiService.ts:79-87 | reading a field throws exactly on null and undefined, gives the field of an object, and gives undefined otherwise |
| `JsRuntime.ToNumber` | utils/pdfUtils.ts:86-89 | a number stays itself, null becomes 0, booleans become 1 and 0, and undefined, objects, strings and arrays become NaN |
| `JsRuntime.Trim` | services/geminiService.ts:74 | the result has no whitespace at either end |
| `JsRuntime.TrimIsSlice` | services/geminiService.ts:74 | trimming only removes whitespace: the result is a slice with whitespace on both sides |
| `JsRuntime.TrimStartAbsorbs` | services/geminiService.ts:74 | leading whitespace does not change what remains after the leading-whitespace strip |
| `JsRuntime.TrimEndAbsorbs` | services/geminiService.ts:74 | trailing whitespace does not change what remains after the trailing-whitespace strip |
| `JsRuntime.TrimIdempotent` | services/geminiService.ts:74 | trimming a trimmed text changes nothing |
| `JsRuntime.NatText` | components/DrawingList.tsx:69-72 | the decimal text of a count is non-empty, all digits, and has no leading zero |
| `JsRuntime.NatTextRoundTrip` | App.tsx:33-34 | reading the decimal text back gives the number, so page numbers and counts print exactly |
| `JsRuntime.ToText` | utils/pdfUtils.ts:99 | `${v}`: a string is itself, undefined and null print as "undefined" and "null", booleans as "true"/"false", and a number as its number text (decimal for integers) |
| `JsRuntime.StrictEqualsPrimitives` | components/Viewer.tsx:69 | `===` is equality on undefined, null, booleans, numbers and strings, it is symmetric, and it never holds for an array or object id here |
| `JsRuntime.IndexOf` | utils/pdfUtils.ts:58 | the position of the first occurrence, or none exactly when the character is absent |
| `JsRuntime.Round` | components/Viewer.tsx:90 | `Math.round` gives the integer within half a unit, halves rounding up |
| `Types.FindById` | App.tsx:16 | `find` gives none exactly when no record has the id, and otherwise the first record with it |
| `GeminiService.AnalyzeDrawing` | services/geminiService.ts:37-96 | a missing key fails before the request, a rejected request fails, empty or absent text gives no defects, a parse failure fails, and otherwise the result is the normalised parse of the cleaned text |
| `GeminiService.MissingKeyIgnoresService` | services/geminiService.ts:41-43 | with no key the outcome is the key error, whatever the service would have answered |
| `GeminiService.ApiKeyIsTruthy` | services/geminiService.ts:41 | the key guard passes exactly for a set, non-empty key, i.e. when the environment value is truthy |
| `GeminiService.CleanText` | services/geminiService.ts:74 | a text with neither an opening `json` fence nor a closing fence is only trimmed |
| `GeminiService.StripOpen` | services/geminiService.ts:74 | text without an opening "```json" is unchanged; otherwise what is removed is the fence followed only by whitespace, and the rest does not start with whitespace |
| `GeminiService.StripClose` | services/geminiService.ts:74 | a text ending in "```" is the result followed by the fence, and any other text is unchanged |
| `GeminiService.FencedReplyCleans` | services/geminiService.ts:74 | an opening fence, whitespace, the body, whitespace and a closing fence clean to the trimmed body |
| `GeminiService.Normalise` | services/geminiService.ts:79-91 | a falsy parse or one without an array `errors` field gives no defects, and otherwise the entries are mapped |
| `GeminiService.NormaliseAll` | services/geminiService.ts:80-88 | the map fails exactly when some entry is null or undefined, and otherwise gives one record per entry, in order, each the entry's own mapping |
| `GeminiService.NormaliseEntry` | services/geminiService.ts:80-88 | the id passes through unchanged, even when absent; falsy descriptions and kind get their defaults; the box is the converted `box_2d` |
| `GeminiService.BoxOf` | services/geminiService.ts:85-87 | a box exists exactly for an array of length 4, taken as ymin, xmin, ymax, xmax in that order |
| `GeminiService.OrDefault` | services/geminiService.ts:82-84 | a truthy value is kept, and a falsy one is replaced by the fallback string |
| `GeminiService.NormalisePreservesOrder` | services/geminiService.ts:79-81 | for non-null entries the result has the same length, and entry i's id is record i's id |
| `GeminiService.ExampleReply` | services/geminiService.ts:23-34 | the example reply [450,200,480,250] maps to ymin 450, xmin 200, ymax 480, xmax 250 |
| `GeminiService.MalformedEntryDegrades` | services/geminiService.ts:82-87 | a three-element box gives no location, and an empty entry gets both default descriptions, the default kind and an undefined id |
| `GeminiService.KindIsNotValidated` | services/geminiService.ts:84 | any non-empty kind string is passed through unchecked, so a kind outside critical/warning/info ("fatal") reaches the record |
| `PdfUtils.Base64Data` | utils/pdfUtils.ts:57-59 | the result is absent exactly when there is no comma, and contains no comma |
| `PdfUtils.Base64DataSplit` | utils/pdfUtils.ts:57-59 | for a comma-free header and payload, the payload is what comes back, whether or not a further field follows |
| `PdfUtils.Denormalise` | utils/pdfUtils.ts:86-89 | each corner lands at the same fraction of the raster as on the 0–1000 scale; NaN coordinates give NaN sides |
| `PdfUtils.FullFrame` | utils/pdfUtils.ts:86-89 | the box (0,0,1000,1000) covers (0,0,W,H) |
| `PdfUtils.LineWidth` | utils/pdfUtils.ts:93 | the stroke is at least 2 and at least 0.003·W, and equals one of them |
| `PdfUtils.FontSize` | utils/pdfUtils.ts:97 | the font is at least 12 and at least 0.015·W, and equals one of them |
| `PdfUtils.LabelChip` | utils/pdfUtils.ts:101-103 | padding is half the font size, the width is the text plus twice the padding, and the height is the font plus the padding |
| `PdfUtils.MarkerPaints` | utils/pdfUtils.ts:81-82 | a boxed defect gets three paint calls and an unboxed one none |
| `PdfUtils.ChipSitsOnBox` | utils/pdfUtils.ts:91-111 | outline first, in red at the raster's line width; then a red chip as wide as the measured id plus one font size and one and a half font sizes high, on the box's left edge with its bottom on the box's top edge; then the id in white bold Arial at the raster's font size, middle baseline, half a font size in and vertically centred |
| `PdfUtils.Boxed` | utils/pdfUtils.ts:82 | the defects kept are exactly those with a box |
| `PdfUtils.BoxedAppend` | utils/pdfUtils.ts:81-82 | the skip distributes over concatenation, so the boxed defects keep their list order |
| `PdfUtils.MarkerSegments` | utils/pdfUtils.ts:81-112 | the markers are three paint calls per boxed defect, in list order |
| `PdfUtils.Composite` | utils/pdfUtils.ts:78-112 | the raster gets the page image at (0,0) first, then segment k of three calls is the k-th boxed defect's marker |
| `PdfUtils.Canvas.constructor` | utils/pdfUtils.ts:71-74 | a canvas takes the image's size, starts with the 2D context's initial style and has received no paint calls |
| `PdfUtils.Canvas.DrawMarker` | utils/pdfUtils.ts:82-111 | the calls one defect's marker appends are its marker paints |
| `PdfUtils.DrawErrorsOnCanvas` | utils/pdfUtils.ts:61-117 | an image that never loads gives nothing; otherwise the image is drawn at (0,0) and then every marker in order |
| `Viewer.GetMarkerStyle` | components/Viewer.tsx:30-39 | no box hides the overlay; otherwise top and left are a tenth of ymin and xmin, and top plus height and left plus width are a tenth of ymax and xmax |
| `Viewer.MarkerMatchesExport` | components/Viewer.tsx:30-39 | the overlay's percentages are the same fractions of the image as the export transform's pixel rectangle |
| `Viewer.Overlays` | components/Viewer.tsx:63-82 | one placed overlay per boxed defect, in order, highlighted exactly when `activeErrorId === error.id` |
| `Viewer.ClickHighlights` | components/Viewer.tsx:67-76 | after a click on a defect with a primitive id, exactly the defects sharing that id are highlighted, the clicked one among them; before any click, exactly the defects with a null id are |
| `Viewer.Description` | components/Viewer.tsx:142 | 'en' shows the English description, and any other language the Vietnamese one |
| `Viewer.Comments` | components/Viewer.tsx:125-150 | one card per defect, boxed or not, in order, highlighted exactly when `activeErrorId === error.id`; the "Critical" tag appears exactly for kind 'critical' |
| `Viewer.OverlaysWithinComments` | components/Viewer.tsx:63-64 | there are never more overlays than comment cards, and the counts are equal when every defect has a box |
| `Viewer.WheelScale` | components/Viewer.tsx:25-26 | the result always lies in [0.2, 5], equals the product when the product does, and is the nearer bound otherwise |
| `Viewer.WheelFactor` | components/Viewer.tsx:25 | 0.9 for a positive deltaY, and 1.1 otherwise |
| `Viewer.WheelMonotone` | components/Viewer.tsx:26 | wheel zoom keeps the order of scales |
| `Viewer.ZoomPercent` | components/Viewer.tsx:90 | the label is the whole percentage nearest to the scale |
| `Viewer.Viewport.constructor` | components/Viewer.tsx:13 | a viewer opens at scale 1 |
| `Viewer.Viewport.Wheel` | components/Viewer.tsx:22-28 | a Ctrl+wheel sets the clamped scale, and a wheel without Ctrl changes nothing |
| `Viewer.Viewport.ZoomOut` | components/Viewer.tsx:87 | one tenth less, unclamped |
| `Viewer.Viewport.ZoomIn` | components/Viewer.tsx:91 | one tenth more, unclamped |
| `Viewer.Viewport.Reset` | components/Viewer.tsx:95 | the scale becomes 1 |
| `Viewer.Viewport.ShowDrawing` | components/Viewer.tsx:17-20 | a different drawing id resets the scale to 1, and the same id keeps it |
| `Viewer.ButtonsLeaveWheelRange` | components/Viewer.tsx:87-91 | from the wheel's bounds the buttons step outside [0.2, 5] |
| `DrawingList.StatusLabel` | components/DrawingList.tsx:63-76 | the label is never empty, and ends in " Issues" exactly for a completed scan with defects |
| `DrawingList.LabelShape` | components/DrawingList.tsx:63-76 | PENDING gives "Pending", SCANNING "Scanning...", COMPLETED with count n > 0 "n Issues", COMPLETED with 0 "Clean", and ERROR "Failed"; only the issue label ends in " Issues" |
| `DrawingList.LabelsDistinguish` | components/DrawingList.tsx:63-76 | equal labels come from equal statuses, agree on clean versus issues, and carry the same count |
| `DrawingList.ThumbnailCount` | components/DrawingList.tsx:33-37 | the thumbnail count appears exactly for a completed scan with defects, and shows their number |
| `DrawingList.ThumbnailAgreesWithLabel` | components/DrawingList.tsx:33-37 | the thumbnail count appears exactly when the label reports issues, with the same number |
| `DrawingList.IssueCountReadsBack` | components/DrawingList.tsx:69-71 | the digits in an issues label read back as the error count |
| `DrawingList.Rows` | components/DrawingList.tsx:19-58 | one row per drawing, in list order, highlighted exactly when its id is the selected id, with that drawing's label and count |
| `DrawingList.AtMostOneHighlighted` | components/DrawingList.tsx:23-27 | with unique ids, at most one row is highlighted |
| `App.PdfPages` | App.tsx:28-43 | `FileRecords` of a PDF with n rendered pages is n records; record k has id `baseId_k`, name "… - Page k+1", page index k of n, status PENDING and no defects |
| `App.PdfIdsDistinct` | App.tsx:33 | the pages of one PDF get pairwise different ids |
| `App.OtherFiles` | App.tsx:28-59 | `FileRecords` of an image is one PENDING record with the base id and no page fields; a failed PDF and any other type give none |
| `App.NewRecordsFresh` | App.tsx:31-58 | every record in `NewRecords` is well formed, PENDING and without defects |
| `App.NewRecordsAppend` | App.tsx:25-60 | `NewRecords` of two file lists is the records of the first followed by those of the second, so files contribute in order and a failing file does not affect the others |
| `App.Store.constructor` | App.tsx:9-13 | the store starts with no drawings, no selection, a null active defect, English and not processing |
| `App.SelectionIsTruthy` | App.tsx:63 | `!selectedId` is false exactly for a non-empty selected id |
| `App.Store.Upload` | App.tsx:19-68 | the new records are appended after the old ones; the first new one is selected exactly when something was added and nothing was selected |
| `App.Store.BeginScan` | App.tsx:71-76 | an unknown id changes nothing; otherwise every record with that id becomes SCANNING, whatever its state, and nothing else changes |
| `App.Store.FinishScan` | App.tsx:93-106 | the outcome is written back to the list |
| `App.Store.Scan` | App.tsx:71-108 | an unknown id changes nothing and returns nothing; otherwise the result says whether the detector succeeded, and the list is the scanned list |
| `App.WithStatus` | App.tsx:76 | only records with the id get the new status, and everything else is kept |
| `App.WithResult` | App.tsx:95-99 | only records with the id become COMPLETED with the new defects |
| `App.AfterScan` | App.tsx:93-106 | on success the record is COMPLETED with its defects replaced wholesale; on failure it is ERROR and keeps its defects; other records are unchanged |
| `App.Scanned` | App.tsx:95-105 | success replaces status and defects, and failure replaces only the status |
| `App.AfterScanOverwrites` | App.tsx:76-106 | the SCANNING mark leaves no trace once the outcome is written |
| `App.UpdatesKeepIds` | App.tsx:76-105 | status updates keep every id in its place |
| `App.Payload` | App.tsx:80-91 | a data URL sends its payload; otherwise the original file's data URL payload is sent; otherwise "" |
| `App.PagePayload` | App.tsx:80-82 | a page rendered as `data:<type>;base64,<payload>` sends exactly its payload |
| `App.EligibleIds` | App.tsx:114 | the picked ids are exactly those of PENDING or ERROR records |
| `App.EligibleIdsSnoc` | App.tsx:113-114 | the picked ids of a longer prefix are those of the shorter one followed by the next record's id when it is picked |
| `App.PassKeepsIds` | App.tsx:111-122 | whatever the answers, a scan pass keeps the length and every id in its place |
| `App.PassPrefix` | App.tsx:113-120 | with unique ids, after visiting the first n start-time records the list is the start with exactly the picked ones among them scanned |
| `App.Store.ScanAll` | App.tsx:111-122 | the pass visits the picked records of the start-time list in order; the selection is the last visited id; the list is the pass's result; the flag stays raised through the loop and is lowered at the end |
| `App.ScanAllEffect` | App.tsx:111-122 | with unique ids, COMPLETED and SCANNING records are untouched, and each PENDING or ERROR record is scanned once with its own answer |
| `App.ReplaceSpaces` | App.tsx:137 | each whitespace character becomes one `_` and every other character is kept, so the length is unchanged |
| `App.ReplaceSpacesIdempotent` | App.tsx:137 | no whitespace is left, and replacing again changes nothing |
| `App.ExportName` | App.tsx:137 | the name is "checked_", then the replaced name, then ".jpg", and is 12 characters longer than the source name |
| `App.SelectedDrawing` | App.tsx:16 | no selection gives none; otherwise the first record with the selected id |
| `App.ExportOutcome` | App.tsx:124-142 | export is refused exactly when no record is COMPLETED with defects; there is none without a selection; otherwise the selected record is composited under its export name |
| `App.ExportsSelectedRegardless` | App.tsx:125-134 | with one exportable record and a pending one selected, the pending one is exported |
| `App.Store.Export` | App.tsx:124-142 | the handler's result is the export outcome of the current state |
| `App.WithoutId` | App.tsx:145 | what stays is exactly the records with a different id |
| `App.WithoutIdAppend` | App.tsx:145 | deletion keeps the order of the records that stay |
| `App.WithoutAbsentId` | App.tsx:145 | deleting an id that is not present changes nothing |
| `App.Store.Delete` | App.tsx:144-147 | the records with the id go, and the selection is cleared exactly when it was that id |
| `App.Store.Select` | App.tsx:232 | a row click selects its id |
| `App.Store.ClickError` | App.tsx:245 | a click on an overlay or a card stores that defect's id, whatever value it is |
| `App.Store.SetLanguage` | App.tsx:180-193 | the language switch sets the language |

## Left out

- The Gemini request is not modelled: model name, prompt, checklist text, mime type and temperature. The answer to a payload is a function parameter.
- `JSON.parse` is a function parameter.
- `convertPdfToImages` and `fileToBase64` are not modelled (pdf.js, canvas, FileReader and Blob I/O). A chosen PDF carries the page images the rasteriser produced, or none when it threw.
- The `Math.random` base id is a field of each chosen file. `URL.createObjectURL` is the same.
- FileReader errors are not modelled: a FileReader whose `onload` never fires would leave the scan pending forever.
- The `setTimeout` pause and async scheduling are not modelled. `scanAll` reads `drawings` from the closure of the render that started it and looks records up there. In the model, scan looks records up in the current list. The two agree because scans change neither ids, image URLs nor original files, and nothing else runs during the pass.
- `alert`, `console` output, React rendering, CSS classes, refs, and the creation of the download link are not modelled.
- The canvas 2D API is reduced to a log of paint calls. `measureText` is a function. JPEG encoding is not modelled: the export result is the paint log.
- A null 2D context, which would resolve with the unmarked image, is not modelled.
- IEEE-754 rounding is not modelled: coordinates and scale are exact reals, and Infinity is not produced.
- JsRuntime.ToNumber: a string or array coordinate becomes NaN, where JavaScript parses numeric text ("450") and one-element arrays. The marker is then drawn with NaN sides rather than at the parsed position. This is weaker than the source for a reply whose `box_2d` holds numeric strings.
- JsRuntime.ToText: a number that is not an integer below 10^21 prints through a formatting function parameter, not JavaScript's shortest round-trip algorithm.
- Viewer.MarkerMatchesExport: only stated for boxes whose four coordinates are numbers. With NaN coordinates both sides are NaN, and CSS drops the declaration.
- The "No errors detected yet." prompt with its scan button, the "No drawings uploaded" placeholder and the empty viewer are not modelled. They are UI.
- Viewer.IsActive: an array or object id never compares equal, while JavaScript's `===` is true for the very reference that was clicked. Values here carry no identity, so a click on a defect whose id is an array or object highlights nothing in the model.
- The hover styling of rows, overlays and cards is not modelled. The panel heading texts are not modelled either.
